// What a Markov chain knows after it was trained with some words, in terms of these
// words alone.
module MarkovTraining {
  import opened Records
  import opened Markov

  // --- numbers of occurrences ---

  // How many of the words start with s.
  function Starts(words: seq<Word>, s: Symbol): nat {
    if words == [] then 0
    else Starts(words[..|words| - 1], s) + StartsOne(words[|words| - 1], s)
  }

  function StartsOne(w: Word, s: Symbol): nat { if w != [] && w[0] == s then 1 else 0 }

  // How often t follows s in a word.
  function PairsIn(w: Word, s: Symbol, t: Symbol): nat {
    if |w| < 2 then 0
    else PairsIn(w[..|w| - 1], s, t) + if w[|w| - 2] == s && w[|w| - 1] == t then 1 else 0
  }

  function PairsOf(words: seq<Word>, s: Symbol, t: Symbol): nat {
    if words == [] then 0
    else PairsOf(words[..|words| - 1], s, t) + PairsIn(words[|words| - 1], s, t)
  }

  // How often s is followed by any symbol.
  function LeavesIn(w: Word, s: Symbol): nat {
    if |w| < 2 then 0
    else LeavesIn(w[..|w| - 1], s) + if w[|w| - 2] == s then 1 else 0
  }

  function LeavesOf(words: seq<Word>, s: Symbol): nat {
    if words == [] then 0
    else LeavesOf(words[..|words| - 1], s) + LeavesIn(words[|words| - 1], s)
  }

  // --- tables of counts ---

  type Counts = map<Symbol, nat>
  type PairTable = map<Symbol, Counts>

  function Get(m: Counts, s: Symbol): nat { if s in m then m[s] else 0 }

  function Row(p: PairTable, s: Symbol): Counts { if s in p then p[s] else map[] }

  // addFirst() and Node::increment()
  function Bump(m: Counts, s: Symbol): Counts { m[s := Get(m, s) + 1] }

  // addPair()
  function BumpPair(p: PairTable, s: Symbol, t: Symbol): PairTable { p[s := Bump(Row(p, s), t)] }

  lemma TotalBump(m: Counts, s: Symbol)
    ensures Total(Bump(m, s)) == Total(m) + 1
  {
    var b := Bump(m, s);
    TotalRemove(b, s);
    assert b - {s} == m - {s};
    if s in m { TotalRemove(m, s); } else { assert m - {s} == m; }
  }

  ghost predicate Positive(m: Counts) { forall s :: s in m ==> m[s] > 0 }

  // The table holds how often each symbol starts a word.
  ghost predicate FirstTable(m: Counts, words: seq<Word>) {
    && Positive(m)
    && Total(m) == |words|
    && forall s: Symbol :: Get(m, s) == Starts(words, s)
  }

  // The table holds how often each symbol follows each other one.
  ghost predicate FollowTable(p: PairTable, words: seq<Word>) {
    && (forall s :: s in p ==> p[s] != map[] && Positive(p[s]))
    && (forall s: Symbol :: Total(Row(p, s)) == LeavesOf(words, s))
    && (forall s: Symbol, t: Symbol :: Get(Row(p, s), t) == PairsOf(words, s, t))
  }

  lemma FirstTableStep(m: Counts, words: seq<Word>, w: Word)
    requires FirstTable(m, words) && w != []
    ensures FirstTable(Bump(m, w[0]), words + [w])
  {
    TotalBump(m, w[0]);
    assert (words + [w])[..|words + [w]| - 1] == words;
  }

  lemma EmptyTables()
    ensures FirstTable(map[], []) && FollowTable(map[], [])
  {
  }

  // A word of one symbol has no pairs.
  lemma FollowTableStart(p: PairTable, words: seq<Word>, w: Word)
    requires FollowTable(p, words) && |w| == 1
    ensures FollowTable(p, words + [w])
  {
    var all := words + [w];
    assert all[..|all| - 1] == words && all[|all| - 1] == w;
    assert forall s: Symbol :: LeavesOf(all, s) == LeavesOf(words, s);
    assert forall s: Symbol, t: Symbol :: PairsOf(all, s, t) == PairsOf(words, s, t);
  }

  // One more symbol of the last word.
  lemma FollowTableStep(p: PairTable, words: seq<Word>, w: Word, t: Symbol)
    requires w != [] && FollowTable(p, words + [w])
    ensures FollowTable(BumpPair(p, w[|w| - 1], t), words + [w + [t]])
  {
    var s := w[|w| - 1];
    var q := BumpPair(p, s, t);
    TotalBump(Row(p, s), t);
    forall x: Symbol ensures Total(Row(q, x)) == LeavesOf(words + [w + [t]], x) {
      LeavesSnoc(words, w, t, x);
    }
    forall x: Symbol, y: Symbol ensures Get(Row(q, x), y) == PairsOf(words + [w + [t]], x, y) {
      PairsSnoc(words, w, t, x, y);
    }
  }

  // What train() does to the pairs.
  function PairsTrained(p: PairTable, w: Word): PairTable {
    if |w| < 2 then p else BumpPair(PairsTrained(p, w[..|w| - 1]), w[|w| - 2], w[|w| - 1])
  }

  lemma {:induction false} FollowTableTrained(p: PairTable, words: seq<Word>, w: Word)
    requires FollowTable(p, words) && w != []
    ensures FollowTable(PairsTrained(p, w), words + [w])
  {
    if |w| == 1 {
      FollowTableStart(p, words, w);
    } else {
      var v := w[..|w| - 1];
      FollowTableTrained(p, words, v);
      FollowTableStep(PairsTrained(p, v), words, v, w[|w| - 1]);
      assert w == v + [w[|w| - 1]];
    }
  }

  lemma LeavesSnoc(words: seq<Word>, w: Word, t: Symbol, x: Symbol)
    requires w != []
    ensures LeavesOf(words + [w + [t]], x) == LeavesOf(words + [w], x) + if w[|w| - 1] == x then 1 else 0
  {
    var a, b, v := words + [w], words + [w + [t]], w + [t];
    assert a[..|a| - 1] == words && b[..|b| - 1] == words && v[..|v| - 1] == w;
  }

  lemma PairsSnoc(words: seq<Word>, w: Word, t: Symbol, x: Symbol, y: Symbol)
    requires w != []
    ensures PairsOf(words + [w + [t]], x, y) ==
            PairsOf(words + [w], x, y) + if w[|w| - 1] == x && t == y then 1 else 0
  {
    var a, b, v := words + [w], words + [w + [t]], w + [t];
    assert a[..|a| - 1] == words && b[..|b| - 1] == words && v[..|v| - 1] == w;
  }

  // --- the probabilities after update() ---

  // What update() makes of the counts of a node.
  ghost function NodeShares(counts: Counts): (p: map<Symbol, real>)
    requires counts == map[] || Divisor(counts) > 0
    ensures p.Keys == counts.Keys
  {
    if counts == map[] then map[] else Shares(counts, Divisor(counts))
  }

  ghost predicate Divisible(p: PairTable) {
    forall s :: s in p ==> p[s] == map[] || Divisor(p[s]) > 0
  }

  ghost function AllShares(p: PairTable): Transitions
    requires Divisible(p)
  {
    map s | s in p :: NodeShares(p[s])
  }

  // No total reaches 2^32.
  ghost predicate Small(words: seq<Word>) {
    && 0 < |words| < TWO32
    && forall s: Symbol :: LeavesOf(words, s) < TWO32
  }

  lemma TotalOfPositive(m: Counts)
    requires m != map[] && Positive(m)
    ensures Total(m) > 0
  {
    var s :| s in m;
    TotalRemove(m, s);
  }

  // The 32-bit sums are the numbers of words and of occurrences.
  lemma TrainedDivisors(first: Counts, pairs: PairTable, words: seq<Word>)
    requires FirstTable(first, words) && FollowTable(pairs, words) && Small(words)
    ensures first != map[] && Divisor(first) == |words|
    ensures Divisible(pairs)
    ensures forall s :: s in pairs ==> Divisor(pairs[s]) == LeavesOf(words, s) > 0
  {
    forall s | s in pairs ensures Divisor(pairs[s]) == LeavesOf(words, s) > 0 {
      assert Row(pairs, s) == pairs[s];
      TotalOfPositive(pairs[s]);
    }
  }

  lemma SharesNonnegative(m: Counts, sum: nat)
    requires sum > 0
    ensures Nonnegative(Shares(m, sum))
  {
  }

  // The probabilities of the first symbols and of the successors of each symbol add
  // up to 1.
  lemma TrainedMass(first: Counts, pairs: PairTable, words: seq<Word>)
    requires FirstTable(first, words) && FollowTable(pairs, words) && Small(words)
    requires Divisible(pairs) && Divisor(first) > 0
    ensures Mass(NodeShares(first)) == 1.0 && Nonnegative(NodeShares(first))
    ensures forall s :: s in pairs ==> Mass(AllShares(pairs)[s]) == 1.0
    ensures Stochastic(AllShares(pairs))
  {
    TrainedDivisors(first, pairs, words);
    MassIsOneIff(first);
    SharesNonnegative(first, |words|);
    forall s | s in pairs ensures Mass(AllShares(pairs)[s]) == 1.0 && Nonnegative(AllShares(pairs)[s]) {
      assert Row(pairs, s) == pairs[s];
      MassIsOneIff(pairs[s]);
      SharesNonnegative(pairs[s], Divisor(pairs[s]));
    }
  }

  // Whatever the chain was trained with, the scores of different words of one length
  // add up to at most 1.
  lemma TrainedScoresBound(first: Counts, pairs: PairTable, words: seq<Word>, ws: seq<Word>, n: nat)
    requires FirstTable(first, words) && FollowTable(pairs, words) && Small(words)
    requires Divisible(pairs) && Divisor(first) > 0
    requires n > 0 && DistinctWords(ws, n)
    ensures SumScores(NodeShares(first), AllShares(pairs), ws) <= 1.0
  {
    TrainedMass(first, pairs, words);
    ScoresBound(NodeShares(first), AllShares(pairs), ws, n);
  }

  // --- the score in terms of the training words ---

  function Follow(words: seq<Word>, p: real, cur: Symbol, rest: Word): Score
    decreases |rest|
  {
    if rest == [] then Value(p)
    else if LeavesOf(words, cur) == 0 then Value(0.0)
    else if PairsOf(words, cur, rest[0]) == 0 then OutOfRange
    else Follow(words, Times(p, Fraction(PairsOf(words, cur, rest[0]), LeavesOf(words, cur))), rest[0], rest[1..])
  }

  // The relative frequency of the first symbol among the words, times that of each
  // further symbol after the one before it.
  function Frequency(words: seq<Word>, w: Word): Score
    requires words != []
  {
    if w == [] then Value(-1.0)
    else if Starts(words, w[0]) == 0 then Value(0.0)
    else Follow(words, Fraction(Starts(words, w[0]), |words|), w[0], w[1..])
  }

  lemma TrainedRow(first: Counts, pairs: PairTable, words: seq<Word>, s: Symbol)
    requires FirstTable(first, words) && FollowTable(pairs, words) && Small(words)
    requires Divisible(pairs)
    ensures s in AllShares(pairs) <==> LeavesOf(words, s) > 0
    ensures forall t: Symbol :: s in pairs ==> (t in AllShares(pairs)[s] <==> PairsOf(words, s, t) > 0)
    ensures forall t: Symbol :: s in pairs && t in AllShares(pairs)[s] ==>
              AllShares(pairs)[s][t] == Fraction(PairsOf(words, s, t), LeavesOf(words, s))
  {
    TrainedDivisors(first, pairs, words);
    assert LeavesOf(words, s) == Total(Row(pairs, s));
    forall t: Symbol | s in pairs ensures Get(pairs[s], t) == PairsOf(words, s, t) {
      assert Row(pairs, s) == pairs[s];
    }
  }

  lemma {:induction false} StepsFollow(first: Counts, pairs: PairTable, words: seq<Word>, p: real, cur: Symbol, rest: Word)
    requires FirstTable(first, words) && FollowTable(pairs, words) && Small(words)
    requires Divisible(pairs)
    ensures Steps(AllShares(pairs), p, cur, rest) == Follow(words, p, cur, rest)
    decreases |rest|
  {
    TrainedRow(first, pairs, words, cur);
    if rest != [] && LeavesOf(words, cur) > 0 && PairsOf(words, cur, rest[0]) > 0 {
      var q := Times(p, Fraction(PairsOf(words, cur, rest[0]), LeavesOf(words, cur)));
      StepsFollow(first, pairs, words, q, rest[0], rest[1..]);
    }
  }

  lemma ScoreIsFrequency(first: Counts, pairs: PairTable, words: seq<Word>, w: Word)
    requires FirstTable(first, words) && FollowTable(pairs, words) && Small(words)
    requires Divisible(pairs) && Divisor(first) > 0
    ensures WordScore(NodeShares(first), AllShares(pairs), w) == Frequency(words, w)
  {
    TrainedDivisors(first, pairs, words);
    if w != [] {
      assert Get(first, w[0]) == Starts(words, w[0]);
      if w[0] in first { StepsFollow(first, pairs, words, NodeShares(first)[w[0]], w[0], w[1..]); }
    }
  }

  // --- what the score of a word is ---

  lemma {:induction false} PairsIffSeen(words: seq<Word>, s: Symbol, t: Symbol)
    ensures PairsOf(words, s, t) > 0 <==>
            exists i, j :: 0 <= i < |words| && 0 <= j < |words[i]| - 1 && words[i][j] == s && words[i][j + 1] == t
  {
    if words != [] {
      var front, w := words[..|words| - 1], words[|words| - 1];
      PairsIffSeen(front, s, t);
      PairsInIffSeen(w, s, t);
      assert forall i :: 0 <= i < |front| ==> front[i] == words[i];
    }
  }

  lemma {:induction false} PairsInIffSeen(w: Word, s: Symbol, t: Symbol)
    ensures PairsIn(w, s, t) > 0 <==> exists j :: 0 <= j < |w| - 1 && w[j] == s && w[j + 1] == t
  {
    if |w| >= 2 {
      var v := w[..|w| - 1];
      PairsInIffSeen(v, s, t);
      assert forall j :: 0 <= j < |v| ==> v[j] == w[j];
      if j :| 0 <= j < |w| - 1 && w[j] == s && w[j + 1] == t {
        if j < |v| - 1 { assert v[j] == s && v[j + 1] == t; }
      }
    }
  }

  lemma {:induction false} LeavesOfPairs(words: seq<Word>, s: Symbol, t: Symbol)
    ensures PairsOf(words, s, t) <= LeavesOf(words, s)
  {
    if words != [] {
      LeavesOfPairs(words[..|words| - 1], s, t);
      LeavesInPairs(words[|words| - 1], s, t);
    }
  }

  lemma {:induction false} LeavesInPairs(w: Word, s: Symbol, t: Symbol)
    ensures PairsIn(w, s, t) <= LeavesIn(w, s)
  {
    if |w| >= 2 { LeavesInPairs(w[..|w| - 1], s, t); }
  }

  // The first k steps of w occur in the words.
  ghost predicate StepsSeen(words: seq<Word>, w: Word, k: nat) {
    k < |w| && forall j :: 0 <= j < k ==> PairsOf(words, w[j], w[j + 1]) > 0
  }

  // The relative frequencies of the steps of w, multiplied.
  function StepProduct(words: seq<Word>, w: Word): real
    requires forall j :: 0 <= j < |w| - 1 ==> LeavesOf(words, w[j]) > 0
  {
    if |w| < 2 then 1.0
    else Times(Fraction(PairsOf(words, w[0], w[1]), LeavesOf(words, w[0])), StepProduct(words, w[1..]))
  }

  lemma StepsLeave(words: seq<Word>, w: Word)
    requires w != [] && StepsSeen(words, w, |w| - 1)
    ensures forall j :: 0 <= j < |w| - 1 ==> LeavesOf(words, w[j]) > 0
  {
    forall j | 0 <= j < |w| - 1 ensures LeavesOf(words, w[j]) > 0 { LeavesOfPairs(words, w[j], w[j + 1]); }
  }

  lemma {:induction false} FollowSeen(words: seq<Word>, p: real, w: Word)
    requires w != [] && StepsSeen(words, w, |w| - 1)
    requires forall j :: 0 <= j < |w| - 1 ==> LeavesOf(words, w[j]) > 0
    ensures Follow(words, p, w[0], w[1..]) == Value(Times(p, StepProduct(words, w)))
    decreases |w|
  {
    if |w| == 1 {
      assert Times(p, 1.0) == p;
    } else {
      var c, rest := Fraction(PairsOf(words, w[0], w[1]), LeavesOf(words, w[0])), w[1..];
      assert StepsSeen(words, rest, |rest| - 1) by {
        forall j | 0 <= j < |rest| - 1 ensures PairsOf(words, rest[j], rest[j + 1]) > 0 {
          assert PairsOf(words, w[j + 1], w[j + 2]) > 0;
        }
      }
      FollowSeen(words, Times(p, c), rest);
      Reassociate(p, c, StepProduct(words, rest));
    }
  }

  lemma {:induction false} FollowUnseen(words: seq<Word>, p: real, w: Word, k: nat)
    requires k + 1 < |w| && StepsSeen(words, w, k) && PairsOf(words, w[k], w[k + 1]) == 0
    ensures Follow(words, p, w[0], w[1..]) == if LeavesOf(words, w[k]) == 0 then Value(0.0) else OutOfRange
    decreases k
  {
    if k > 0 {
      LeavesOfPairs(words, w[0], w[1]);
      var c, rest := Fraction(PairsOf(words, w[0], w[1]), LeavesOf(words, w[0])), w[1..];
      assert StepsSeen(words, rest, k - 1) by {
        forall j | 0 <= j < k - 1 ensures PairsOf(words, rest[j], rest[j + 1]) > 0 {
          assert PairsOf(words, w[j + 1], w[j + 2]) > 0;
        }
      }
      FollowUnseen(words, Times(p, c), rest, k - 1);
    }
  }

  // The score of a word: -1 for the empty word; 0 if no training word starts with its
  // first symbol; the product of all frequencies if all its steps were seen.
  lemma ScoreOfSeen(words: seq<Word>, w: Word)
    requires words != []
    ensures w == [] ==> Frequency(words, w) == Value(-1.0)
    ensures w != [] && Starts(words, w[0]) == 0 ==> Frequency(words, w) == Value(0.0)
    ensures w != [] && Starts(words, w[0]) > 0 && StepsSeen(words, w, |w| - 1) ==>
              && (forall j :: 0 <= j < |w| - 1 ==> LeavesOf(words, w[j]) > 0)
              && Frequency(words, w) ==
                 Value(Times(Fraction(Starts(words, w[0]), |words|), StepProduct(words, w)))
  {
    if w != [] && Starts(words, w[0]) > 0 && StepsSeen(words, w, |w| - 1) {
      StepsLeave(words, w);
      FollowSeen(words, Fraction(Starts(words, w[0]), |words|), w);
    }
  }

  // Otherwise the first step that was not seen decides: 0 if nothing was seen to follow
  // its symbol, and else out of range.
  lemma ScoreOfUnseen(words: seq<Word>, w: Word, k: nat)
    requires words != [] && w != [] && Starts(words, w[0]) > 0
    requires k + 1 < |w| && StepsSeen(words, w, k) && PairsOf(words, w[k], w[k + 1]) == 0
    ensures Frequency(words, w) == if LeavesOf(words, w[k]) == 0 then Value(0.0) else OutOfRange
  {
    FollowUnseen(words, Fraction(Starts(words, w[0]), |words|), w, k);
  }

  // --- the words that were learned ---

  lemma {:induction false} LearnedPair(words: seq<Word>, i: nat, j: nat)
    requires i < |words| && j + 1 < |words[i]|
    ensures PairsOf(words, words[i][j], words[i][j + 1]) > 0
    ensures LeavesOf(words, words[i][j]) > 0
  {
    if i == |words| - 1 {
      LearnedPairIn(words[i], j);
    } else {
      LearnedPair(words[..|words| - 1], i, j);
    }
  }

  lemma {:induction false} LearnedPairIn(w: Word, j: nat)
    requires j + 1 < |w|
    ensures PairsIn(w, w[j], w[j + 1]) > 0 && LeavesIn(w, w[j]) > 0
  {
    if j + 2 < |w| { LearnedPairIn(w[..|w| - 1], j); }
  }

  lemma {:induction false} LearnedStart(words: seq<Word>, i: nat)
    requires i < |words| && words[i] != []
    ensures Starts(words, words[i][0]) > 0
  {
    if i < |words| - 1 { LearnedStart(words[..|words| - 1], i); }
  }

  lemma {:induction false} FollowLearned(words: seq<Word>, i: nat, j: nat, p: real)
    requires i < |words| && j < |words[i]| && p > 0.0
    ensures Follow(words, p, words[i][j], words[i][j + 1..]).Value?
    ensures Follow(words, p, words[i][j], words[i][j + 1..]).r > 0.0
    decreases |words[i]| - j
  {
    var rest := words[i][j + 1..];
    if rest != [] {
      LearnedPair(words, i, j);
      var a, b := PairsOf(words, words[i][j], rest[0]), LeavesOf(words, words[i][j]);
      PositiveProduct(p, a, b);
      assert rest[1..] == words[i][j + 2..];
      FollowLearned(words, i, j + 1, Times(p, Fraction(a, b)));
    }
  }

  lemma PositiveProduct(p: real, a: nat, b: nat)
    requires p > 0.0 && a > 0 && b > 0
    ensures Times(p, Fraction(a, b)) > 0.0
  {
    assert Fraction(a, b) > 0.0;
  }

  // Every word that was learned has a positive score.
  lemma LearnedScore(words: seq<Word>, i: nat)
    requires i < |words| && words[i] != []
    ensures Frequency(words, words[i]).Value? && Frequency(words, words[i]).r > 0.0
  {
    LearnedStart(words, i);
    FollowLearned(words, i, 0, Fraction(Starts(words, words[i][0]), |words|));
  }
}
