// The probabilities of the Markov chain: shares of counts, and the scores of words.
module Markov {
  import opened Records

  // 32-bit wide characters
  type Symbol = x: nat | x < TWO32
  type Word = seq<Symbol>

  // --- sums over maps ---

  ghost function Total(m: map<Symbol, nat>): nat
    decreases |m|
  {
    if m == map[] then 0 else
      var k :| k in m;
      m[k] + Total(m - {k})
  }

  ghost function Mass(p: map<Symbol, real>): real
    decreases |p|
  {
    if p == map[] then 0.0 else
      var k :| k in p;
      p[k] + Mass(p - {k})
  }

  lemma {:induction false} TotalRemove(m: map<Symbol, nat>, k: Symbol)
    requires k in m
    ensures Total(m) == m[k] + Total(m - {k})
    decreases |m|
  {
    var c :| c in m && Total(m) == m[c] + Total(m - {c});
    if c != k {
      TotalRemove(m - {c}, k);
      TotalRemove(m - {k}, c);
      assert m - {c} - {k} == m - {k} - {c};
    }
  }

  lemma {:induction false} MassRemove(p: map<Symbol, real>, k: Symbol)
    requires k in p
    ensures Mass(p) == p[k] + Mass(p - {k})
    decreases |p|
  {
    var c :| c in p && Mass(p) == p[c] + Mass(p - {c});
    if c != k {
      MassRemove(p - {c}, k);
      MassRemove(p - {k}, c);
      assert p - {c} - {k} == p - {k} - {c};
    }
  }

  // --- counts to probabilities ---

  // The sum that the counts are divided by: std::accumulate starts from 0U, so it is
  // taken in 32 bits.
  ghost function Divisor(counts: map<Symbol, nat>): nat { Total(counts) % TWO32 }

  ghost function Shares(counts: map<Symbol, nat>, sum: nat): (p: map<Symbol, real>)
    requires sum > 0
    ensures p.Keys == counts.Keys
  {
    map s | s in counts :: Fraction(counts[s], sum)
  }

  lemma {:induction false} SharesMass(counts: map<Symbol, nat>, sum: nat)
    requires sum > 0
    ensures Mass(Shares(counts, sum)) == Fraction(Total(counts), sum)
    decreases |counts|
  {
    if counts == map[] {
      assert Shares(counts, sum) == map[];
    } else {
      var k :| k in counts;
      SharesMass(counts - {k}, sum);
      SharesStep(counts, sum, k);
    }
  }

  lemma SharesStep(counts: map<Symbol, nat>, sum: nat, k: Symbol)
    requires sum > 0 && k in counts
    requires Mass(Shares(counts - {k}, sum)) == Fraction(Total(counts - {k}), sum)
    ensures Mass(Shares(counts, sum)) == Fraction(Total(counts), sum)
  {
    SharesRemove(counts, sum, k);
    var a, b := counts[k], Total(counts - {k});
    assert Total(counts) == a + b by { TotalRemove(counts, k); }
    AddFractions(a, b, sum);
  }

  lemma SharesRemove(counts: map<Symbol, nat>, sum: nat, k: Symbol)
    requires sum > 0 && k in counts
    ensures Mass(Shares(counts, sum)) == Fraction(counts[k], sum) + Mass(Shares(counts - {k}, sum))
  {
    var p := Shares(counts, sum);
    MassRemove(p, k);
    assert p - {k} == Shares(counts - {k}, sum);
  }

  function Fraction(a: nat, b: nat): real
    requires b > 0
  {
    a as real / b as real
  }

  lemma AddFractions(a: nat, b: nat, c: nat)
    requires c > 0
    ensures Fraction(a, c) + Fraction(b, c) == Fraction(a + b, c)
  {
  }

  // The probabilities of a node add up to 1 exactly if its counts add up to less
  // than 2^32; beyond that the 32-bit sum makes them too large.
  lemma MassIsOneIff(counts: map<Symbol, nat>)
    requires Divisor(counts) > 0
    ensures Mass(Shares(counts, Divisor(counts))) == 1.0 <==> Total(counts) < TWO32
    ensures Mass(Shares(counts, Divisor(counts))) >= 1.0
  {
    var t, d := Total(counts), Divisor(counts);
    SharesMass(counts, d);
    FractionIsOne(t, d);
  }

  lemma FractionIsOne(t: nat, d: nat)
    requires 0 < d <= t
    ensures t as real / d as real == 1.0 <==> t == d
    ensures t as real / d as real >= 1.0
  {
    var q, c := t as real / d as real, d as real;
    assert q * c == t as real;
    assert (q - 1.0) * c == t as real - c;
    SignOfFactor(q - 1.0, c);
  }

  lemma SignOfFactor(x: real, c: real)
    requires c > 0.0
    ensures x * c >= 0.0 ==> x >= 0.0
    ensures x * c == 0.0 <==> x == 0.0
  {
  }

  // --- the score of a word ---

  datatype Score = Value(r: real) | OutOfRange

  type Transitions = map<Symbol, map<Symbol, real>>

  function Times(a: real, b: real): real { a * b }

  // The loop of totalProbability(): cur is the symbol whose node is looked up, p the
  // product so far. A successor that was never seen makes at() throw.
  function Steps(nodes: Transitions, p: real, cur: Symbol, rest: Word): Score
    decreases |rest|
  {
    if rest == [] then Value(p)
    else if cur !in nodes then Value(0.0)
    else if rest[0] !in nodes[cur] then OutOfRange
    else Steps(nodes, Times(p, nodes[cur][rest[0]]), rest[0], rest[1..])
  }

  function WordScore(first: map<Symbol, real>, nodes: Transitions, w: Word): Score {
    if w == [] then Value(-1.0)
    else if w[0] !in first then Value(0.0)
    else Steps(nodes, first[w[0]], w[0], w[1..])
  }

  // The probability to go on with the symbols of w from cur.
  function Chance(nodes: Transitions, cur: Symbol, w: Word): real
    decreases |w|, 1
  {
    if w == [] then 1.0
    else if cur in nodes then Choice(nodes[cur], nodes, w) else 0.0
  }

  // The probability of w if its first symbol is chosen by p.
  function Choice(p: map<Symbol, real>, nodes: Transitions, w: Word): real
    decreases |w|, 0
  {
    if w != [] && w[0] in p then Times(p[w[0]], Chance(nodes, w[0], w[1..])) else 0.0
  }

  lemma {:induction false} StepsIsChance(nodes: Transitions, p: real, cur: Symbol, w: Word)
    ensures Steps(nodes, p, cur, w).Value? ==> Steps(nodes, p, cur, w).r == Times(p, Chance(nodes, cur, w))
    decreases |w|
  {
    if w != [] && cur in nodes && w[0] in nodes[cur] {
      var q, rest := nodes[cur][w[0]], Chance(nodes, w[0], w[1..]);
      var next := Times(p, q);
      StepsIsChance(nodes, next, w[0], w[1..]);
      assert Steps(nodes, p, cur, w) == Steps(nodes, next, w[0], w[1..]);
      assert Chance(nodes, cur, w) == Times(q, rest);
      Reassociate(p, q, rest);
    } else if w == [] {
      assert Chance(nodes, cur, w) == 1.0;
    } else if cur !in nodes {
      assert Chance(nodes, cur, w) == 0.0;
      assert Steps(nodes, p, cur, w).r == 0.0;
    }
  }

  lemma Reassociate(a: real, b: real, c: real)
    ensures Times(Times(a, b), c) == Times(a, Times(b, c))
  {
  }

  lemma ScoreIsChoice(first: map<Symbol, real>, nodes: Transitions, w: Word)
    requires w != [] && WordScore(first, nodes, w).Value?
    ensures WordScore(first, nodes, w).r == Choice(first, nodes, w)
  {
    if w[0] in first { StepsIsChance(nodes, first[w[0]], w[0], w[1..]); }
  }

  // --- the scores of all words of one length ---

  ghost predicate DistinctWords(ws: seq<Word>, n: nat) {
    && (forall i :: 0 <= i < |ws| ==> |ws[i]| == n)
    && (forall i, j :: 0 <= i < j < |ws| ==> ws[i] != ws[j])
  }

  function SumChoice(p: map<Symbol, real>, nodes: Transitions, ws: seq<Word>): real {
    if ws == [] then 0.0 else SumChoice(p, nodes, ws[..|ws| - 1]) + Choice(p, nodes, ws[|ws| - 1])
  }

  function SumChance(nodes: Transitions, cur: Symbol, ws: seq<Word>): real {
    if ws == [] then 0.0 else SumChance(nodes, cur, ws[..|ws| - 1]) + Chance(nodes, cur, ws[|ws| - 1])
  }

  // The words that start with k, or that do not.
  function Starting(ws: seq<Word>, k: Symbol, yes: bool): seq<Word> {
    if ws == [] then []
    else
      var rest, w := Starting(ws[..|ws| - 1], k, yes), ws[|ws| - 1];
      if (w != [] && w[0] == k) == yes then rest + [w] else rest
  }

  function Tails(ws: seq<Word>): (ts: seq<Word>)
    requires forall i :: 0 <= i < |ws| ==> ws[i] != []
    ensures |ts| == |ws|
  {
    seq(|ws|, i requires 0 <= i < |ws| => ws[i][1..])
  }

  lemma {:induction false} StartingMembers(ws: seq<Word>, k: Symbol, yes: bool, n: nat)
    requires DistinctWords(ws, n)
    ensures DistinctWords(Starting(ws, k, yes), n)
    ensures forall i :: 0 <= i < |Starting(ws, k, yes)| ==>
              var w := Starting(ws, k, yes)[i]; w in ws && (w != [] && w[0] == k) == yes
  {
    if ws != [] {
      var front, w := ws[..|ws| - 1], ws[|ws| - 1];
      StartingMembers(front, k, yes, n);
      assert forall x :: x in front ==> x in ws && x != w;
    }
  }

  lemma {:induction false} SumSplits(p: map<Symbol, real>, nodes: Transitions, ws: seq<Word>, k: Symbol)
    ensures SumChoice(p, nodes, ws) ==
            SumChoice(p, nodes, Starting(ws, k, true)) + SumChoice(p, nodes, Starting(ws, k, false))
  {
    if ws != [] {
      SumSplits(p, nodes, ws[..|ws| - 1], k);
      var w := ws[|ws| - 1];
      SumSnoc(p, nodes, Starting(ws[..|ws| - 1], k, true), w);
      SumSnoc(p, nodes, Starting(ws[..|ws| - 1], k, false), w);
    }
  }

  lemma SumSnoc(p: map<Symbol, real>, nodes: Transitions, ws: seq<Word>, w: Word)
    ensures SumChoice(p, nodes, ws + [w]) == SumChoice(p, nodes, ws) + Choice(p, nodes, w)
  {
    assert (ws + [w])[..|ws + [w]| - 1] == ws;
  }

  // Words that do not start with k do not see its probability.
  lemma {:induction false} SumWithout(p: map<Symbol, real>, nodes: Transitions, ws: seq<Word>, k: Symbol)
    requires forall i :: 0 <= i < |ws| ==> ws[i] == [] || ws[i][0] != k
    ensures SumChoice(p, nodes, ws) == SumChoice(p - {k}, nodes, ws)
  {
    if ws != [] { SumWithout(p, nodes, ws[..|ws| - 1], k); }
  }

  // Words that start with k share its probability c as a factor.
  lemma {:induction false} SumFactor(p: map<Symbol, real>, c: real, nodes: Transitions, ws: seq<Word>, k: Symbol)
    requires k in p && p[k] == c && forall i :: 0 <= i < |ws| ==> ws[i] != [] && ws[i][0] == k
    ensures SumChoice(p, nodes, ws) == Times(c, SumChance(nodes, k, Tails(ws)))
  {
    if ws != [] {
      var front, w := ws[..|ws| - 1], ws[|ws| - 1];
      var a, b := SumChance(nodes, k, Tails(front)), Chance(nodes, k, w[1..]);
      assert SumChoice(p, nodes, front) == Times(c, a) by { SumFactor(p, c, nodes, front, k); }
      assert SumChance(nodes, k, Tails(ws)) == a + b by {
        assert ws == front + [w];
        TailsSnoc(nodes, front, w, k);
      }
      assert Choice(p, nodes, w) == Times(c, b);
      Distribute(c, a, b);
    }
  }

  lemma TailsSnoc(nodes: Transitions, front: seq<Word>, w: Word, k: Symbol)
    requires w != [] && forall i :: 0 <= i < |front| ==> front[i] != []
    ensures SumChance(nodes, k, Tails(front + [w])) == SumChance(nodes, k, Tails(front)) + Chance(nodes, k, w[1..])
  {
    var ts := Tails(front + [w]);
    assert ts[..|ts| - 1] == Tails(front);
  }

  lemma Distribute(a: real, b: real, c: real)
    ensures Times(a, b + c) == Times(a, b) + Times(a, c)
  {
  }

  lemma TailsDistinct(ws: seq<Word>, k: Symbol, n: nat)
    requires n > 0 && DistinctWords(ws, n) && forall i :: 0 <= i < |ws| ==> ws[i][0] == k
    ensures DistinctWords(Tails(ws), n - 1)
  {
    forall i, j | 0 <= i < j < |ws| ensures Tails(ws)[i] != Tails(ws)[j] {
      assert ws[i] == [k] + ws[i][1..] && ws[j] == [k] + ws[j][1..];
    }
  }

  ghost predicate Nonnegative(p: map<Symbol, real>) {
    forall s :: s in p ==> p[s] >= 0.0
  }

  // The probabilities at every node are not negative and add up to at most 1.
  ghost predicate Stochastic(nodes: Transitions) {
    forall s :: s in nodes ==> Nonnegative(nodes[s]) && Mass(nodes[s]) <= 1.0
  }

  lemma {:induction false} SumChanceOfNode(nodes: Transitions, cur: Symbol, ws: seq<Word>, n: nat)
    requires n > 0 && forall i :: 0 <= i < |ws| ==> |ws[i]| == n
    ensures SumChance(nodes, cur, ws) == if cur in nodes then SumChoice(nodes[cur], nodes, ws) else 0.0
  {
    if ws != [] { SumChanceOfNode(nodes, cur, ws[..|ws| - 1], n); }
  }

  lemma {:induction false} DistinctCard(ws: seq<Word>)
    requires forall i, j :: 0 <= i < j < |ws| ==> ws[i] != ws[j]
    ensures |set w | w in ws| == |ws|
  {
    if ws != [] {
      var front, last := ws[..|ws| - 1], ws[|ws| - 1];
      DistinctCard(front);
      assert (set w | w in ws) == (set w | w in front) + {last} by { assert ws == front + [last]; }
    }
  }

  lemma OneEmptyWord(ws: seq<Word>)
    requires DistinctWords(ws, 0)
    ensures |ws| <= 1
  {
    DistinctCard(ws);
    var all := set w | w in ws;
    assert forall w :: w in all ==> w == [];
    assert all == {} || all == {[]};
  }

  // Going on from cur with different words of one length has a total chance of at
  // most 1.
  lemma ChanceBound(nodes: Transitions, cur: Symbol, ws: seq<Word>, n: nat)
    requires Stochastic(nodes) && DistinctWords(ws, n)
    ensures SumChance(nodes, cur, ws) <= 1.0
    decreases n, 0, 0
  {
    if n == 0 {
      OneEmptyWord(ws);
      if ws != [] { assert ws[..0] == []; }
    } else {
      SumChanceOfNode(nodes, cur, ws, n);
      if cur in nodes { ChoiceBound(nodes[cur], nodes, ws, n); }
    }
  }

  // The words that start with k have at most the probability of k.
  lemma StartingBound(p: map<Symbol, real>, nodes: Transitions, ws: seq<Word>, k: Symbol, n: nat)
    requires n > 0 && Stochastic(nodes) && Nonnegative(p) && k in p && DistinctWords(ws, n)
    requires forall i :: 0 <= i < |ws| ==> ws[i][0] == k
    ensures SumChoice(p, nodes, ws) <= p[k]
    decreases n - 1, 1, 0
  {
    SumFactor(p, p[k], nodes, ws, k);
    TailsDistinct(ws, k, n);
    ChanceBound(nodes, k, Tails(ws), n - 1);
    AtMostFactor(p[k], SumChance(nodes, k, Tails(ws)));
  }

  lemma {:induction false} ChoiceBound(p: map<Symbol, real>, nodes: Transitions, ws: seq<Word>, n: nat)
    requires n > 0 && Stochastic(nodes) && Nonnegative(p) && DistinctWords(ws, n)
    ensures SumChoice(p, nodes, ws) <= Mass(p)
    decreases n - 1, 2, |p|
  {
    if p == map[] {
      NoChoice(nodes, ws);
    } else {
      var k :| k in p;
      var a, b := Starting(ws, k, true), Starting(ws, k, false);
      StartingMembers(ws, k, true, n);
      StartingMembers(ws, k, false, n);
      SumSplits(p, nodes, ws, k);
      StartingBound(p, nodes, a, k, n);
      assert SumChoice(p, nodes, b) <= Mass(p - {k}) by {
        SumWithout(p, nodes, b, k);
        ChoiceBound(p - {k}, nodes, b, n);
      }
      MassRemove(p, k);
    }
  }

  lemma AtMostFactor(a: real, b: real)
    requires a >= 0.0 && b <= 1.0
    ensures Times(a, b) <= a
  {
  }

  lemma {:induction false} NoChoice(nodes: Transitions, ws: seq<Word>)
    ensures SumChoice(map[], nodes, ws) == 0.0
  {
    if ws != [] { NoChoice(nodes, ws[..|ws| - 1]); }
  }

  // The sum of the scores of some words; a word whose score is not defined counts 0.
  function SumScores(first: map<Symbol, real>, nodes: Transitions, ws: seq<Word>): real {
    if ws == [] then 0.0
    else SumScores(first, nodes, ws[..|ws| - 1]) + Worth(WordScore(first, nodes, ws[|ws| - 1]))
  }

  function Worth(s: Score): real { if s.Value? then s.r else 0.0 }

  // The scores of different words of the same length add up to at most 1.
  lemma ScoresBound(first: map<Symbol, real>, nodes: Transitions, ws: seq<Word>, n: nat)
    requires n > 0 && Stochastic(nodes) && Nonnegative(first) && Mass(first) <= 1.0 && DistinctWords(ws, n)
    ensures SumScores(first, nodes, ws) <= 1.0
  {
    SumScoresBelow(first, nodes, ws, n);
    ChoiceBound(first, nodes, ws, n);
  }

  lemma {:induction false} SumScoresBelow(first: map<Symbol, real>, nodes: Transitions, ws: seq<Word>, n: nat)
    requires n > 0 && Stochastic(nodes) && Nonnegative(first)
    requires forall i :: 0 <= i < |ws| ==> |ws[i]| == n
    ensures SumScores(first, nodes, ws) <= SumChoice(first, nodes, ws)
  {
    if ws != [] {
      SumScoresBelow(first, nodes, ws[..|ws| - 1], n);
      var w := ws[|ws| - 1];
      ChoiceNonnegative(first, nodes, w);
      if WordScore(first, nodes, w).Value? { ScoreIsChoice(first, nodes, w); }
    }
  }

  lemma {:induction false} ChoiceNonnegative(p: map<Symbol, real>, nodes: Transitions, w: Word)
    requires Stochastic(nodes) && Nonnegative(p)
    ensures Choice(p, nodes, w) >= 0.0
    decreases |w|
  {
    if w != [] && w[0] in p {
      if w[1..] != [] && w[0] in nodes {
        ChoiceNonnegative(nodes[w[0]], nodes, w[1..]);
      }
    }
  }
}
