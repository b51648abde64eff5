// The generator, which trains a chain with the lines of a file and saves it, and the
// lookup, which loads it and scores words.
module MarkovTools {
  import opened Records
  import opened Markov
  import opened MarkovTraining
  import opened MarkovNode
  import opened HashText
  import opened MarkovFormat
  import opened MarkovStored
  import opened MarkovChain

  // The words that train() accepts.
  function Accepted(pwds: seq<string>, decode: string -> Word): (ws: seq<Word>)
    ensures forall i :: 0 <= i < |ws| ==> ws[i] != []
  {
    if pwds == [] then []
    else
      var front, pwd := Accepted(pwds[..|pwds| - 1], decode), pwds[|pwds| - 1];
      if pwd != "" && decode(pwd) != [] then front + [decode(pwd)] else front
  }

  // The counts of a new chain after training, and the nodes with no probabilities yet.
  datatype Tables = Tables(first: Counts, pairs: PairTable, succ: Transitions)

  function Learn(words: seq<Word>): Tables
    requires forall i :: 0 <= i < |words| ==> words[i] != []
  {
    if words == [] then Tables(map[], map[], map[])
    else
      var t, w := Learn(words[..|words| - 1]), words[|words| - 1];
      AfterWord(t, w)
  }

  function AfterWord(t: Tables, w: Word): Tables
    requires w != []
  {
    Tables(Bump(t.first, w[0]), PairsTrained(t.pairs, w), RowsTrained(t.succ, w))
  }

  // One more line of the file.
  lemma LearnLine(pwds: seq<string>, n: nat, decode: string -> Word)
    requires n < |pwds|
    ensures var t, pwd := Learn(Accepted(pwds[..n], decode)), pwds[n];
            Learn(Accepted(pwds[..n + 1], decode)) ==
            if pwd != "" && decode(pwd) != [] then AfterWord(t, decode(pwd)) else t
  {
    assert pwds[..n + 1][..n] == pwds[..n];
    var words, w := Accepted(pwds[..n], decode), decode(pwds[n]);
    assert (words + [w])[..|words + [w]| - 1] == words;
  }

  lemma {:induction false} LearnedTables(words: seq<Word>)
    requires forall i :: 0 <= i < |words| ==> words[i] != []
    ensures var t := Learn(words); TrainedTables(words, t.first, map[], t.pairs, t.succ)
  {
    if words == [] {
      EmptyTables();
    } else {
      var front, w := words[..|words| - 1], words[|words| - 1];
      var t := Learn(front);
      LearnedTables(front);
      TrainedStep(front, t.first, map[], t.pairs, t.succ, w);
      assert front + [w] == words;
    }
  }

  ghost predicate Divides(t: Tables) {
    && Divisible(t.pairs) && t.succ.Keys == t.pairs.Keys
    && (t.first == map[] || Divisor(t.first) > 0)
  }

  // What update() makes of a trained chain.
  lemma UpdatedChain(words: seq<Word>)
    requires Small(words) && forall i :: 0 <= i < |words| ==> words[i] != []
    ensures var t := Learn(words);
            && Divides(t) && Divisor(t.first) > 0
            && FirstTable(t.first, words) && FollowTable(t.pairs, words)
            && map[] + NodeShares(t.first) == NodeShares(t.first)
            && SharesOver(t.succ, t.pairs) == AllShares(t.pairs)
  {
    var t := Learn(words);
    LearnedTables(words);
    TrainedDivisors(t.first, t.pairs, words);
    CoveredShares(t.succ, t.pairs);
  }

  method TrainAll(pwds: seq<string>, decode: string -> Word) returns (chain: Chain, ghost t: Tables)
    ensures fresh(chain) && (forall n :: n in chain.nodes.Values ==> fresh(n)) && chain.Valid()
    ensures t == Learn(Accepted(pwds, decode))
    ensures chain.firstCounts == t.first && chain.Pairs() == t.pairs && chain.Successors() == t.succ
    ensures chain.firstProbs == map[]
  {
    chain := new Chain();
    t := Tables(map[], map[], map[]);
    assert t == Learn(Accepted(pwds[..0], decode));
    var i := 0;
    while i < |pwds|
      invariant i <= |pwds| && t == Learn(Accepted(pwds[..i], decode))
      invariant fresh(chain) && (forall n :: n in chain.nodes.Values ==> fresh(n)) && chain.Valid()
      invariant chain.firstCounts == t.first && chain.Pairs() == t.pairs && chain.Successors() == t.succ
      invariant chain.firstProbs == map[]
    {
      var pwd := pwds[i];
      var ok := chain.Train(pwd, decode);
      LearnLine(pwds, i, decode);
      t := if ok then AfterWord(t, decode(pwd)) else t;
      i := i + 1;
    }
    assert pwds[..i] == pwds;
  }

  // What the generator saves.
  datatype Saved = Saved(first: seq<Share>, order: seq<Symbol>, lists: Lists, succ: Transitions)

  ghost predicate IsSaved(g: Saved, first: Probabilities, succ: Transitions) {
    && IsListing(g.first, first)
    && g.succ == succ
    && AllListed(g.lists, succ)
  }

  function FileOf(g: Saved, bits: ToBits): seq<Byte>
    requires forall i :: 0 <= i < |g.order| ==> g.order[i] in g.lists
  {
    if g.lists == map[] then [] else PrintChain(ItemsOf(g.first, bits), EntriesOf(g.order, g.lists, bits))
  }

  ghost function FirstShares(t: Tables): Probabilities
    requires Divides(t)
  {
    map[] + NodeShares(t.first)
  }

  ghost function NextShares(t: Tables): Transitions
    requires Divides(t)
  {
    SharesOver(t.succ, t.pairs)
  }

  method UpdateTo(chain: Chain, ghost t: Tables)
    requires chain.Valid() && Divides(t) && chain.firstProbs == map[]
    requires chain.firstCounts == t.first && chain.Pairs() == t.pairs && chain.Successors() == t.succ
    modifies chain, chain.nodes.Values
    ensures IsListing(chain.firstSorted, FirstShares(t))
    ensures chain.Successors() == NextShares(t)
    ensures AllListed(chain.AllLists(), NextShares(t))
  {
    chain.Update();
    chain.ListsShow();
  }

  method Save(chain: Chain, bits: ToBits, ghost first: Probabilities, ghost succ: Transitions)
    returns (file: seq<Byte>, ghost g: Saved)
    requires IsListing(chain.firstSorted, first) && chain.Successors() == succ
    requires AllListed(chain.AllLists(), succ)
    ensures IsSaved(g, first, succ) && IsOrder(g.order, g.lists.Keys)
    ensures file == FileOf(g, bits)
  {
    ghost var lists := chain.AllLists();
    assert lists == map[] <==> chain.nodes == map[];
    ghost var order;
    file, order := chain.SaveBinary(bits);
    g := Saved(chain.firstSorted, order, lists, succ);
  }

  method UpdateAndSave(chain: Chain, ghost t: Tables, bits: ToBits) returns (file: seq<Byte>, ghost g: Saved)
    requires chain.Valid() && Divides(t) && chain.firstProbs == map[]
    requires chain.firstCounts == t.first && chain.Pairs() == t.pairs && chain.Successors() == t.succ
    modifies chain, chain.nodes.Values
    ensures IsSaved(g, FirstShares(t), NextShares(t)) && IsOrder(g.order, g.lists.Keys)
    ensures file == FileOf(g, bits)
  {
    UpdateTo(chain, t);
    file, g := Save(chain, bits, FirstShares(t), NextShares(t));
  }

  method Generate(pwds: seq<string>, decode: string -> Word, bits: ToBits) returns (file: seq<Byte>, ghost g: Saved)
    requires Divides(Learn(Accepted(pwds, decode)))
    ensures var t := Learn(Accepted(pwds, decode)); IsSaved(g, FirstShares(t), NextShares(t))
    ensures IsOrder(g.order, g.lists.Keys)
    ensures file == FileOf(g, bits)
  {
    var chain, t := TrainAll(pwds, decode);
    file, g := UpdateAndSave(chain, t, bits);
  }

  method LookUp(file: seq<Byte>, w: Word, value: ToValue) returns (score: Score)
    ensures var l := Load(file, {});
            score == WordScore(AsMap(SharesOf(l.first, value)), Stored(map[], l.nodes, value), w)
  {
    var chain := new Chain();
    var input := new InputStream(file);
    var _ := chain.LoadBinary(input, true, true, value);
    ghost var loaded := SharesOf(Load(file, {}).first, value);
    assert [] + loaded == loaded;
    score := chain.TotalProbability(w);
  }

  // The score that the lookup shows for a file.
  function ShownScore(file: seq<Byte>, w: Word, value: ToValue): Score {
    var l := Load(file, {});
    WordScore(AsMap(SharesOf(l.first, value)), Stored(map[], l.nodes, value), w)
  }

  ghost predicate HasPair(words: seq<Word>) {
    exists i :: 0 <= i < |words| && |words[i]| >= 2
  }

  lemma {:induction false} NodesIffPair(words: seq<Word>)
    requires forall i :: 0 <= i < |words| ==> words[i] != []
    ensures Learn(words).pairs == map[] <==> !HasPair(words)
  {
    if words != [] {
      var front, w := words[..|words| - 1], words[|words| - 1];
      NodesIffPair(front);
      PairsIffLong(Learn(front).pairs, w);
      assert forall i :: 0 <= i < |front| ==> front[i] == words[i];
    }
  }

  lemma PairsIffLong(p: PairTable, w: Word)
    ensures PairsTrained(p, w) == map[] <==> p == map[] && |w| < 2
  {
    if |w| >= 2 { assert w[|w| - 2] in PairsTrained(p, w); }
  }

  // The lookup shows the relative frequencies of the words that the generator has
  // read, unless none of them has two symbols: then the file is empty, and the chain
  // knows nothing.
  lemma ShownIsFrequency(words: seq<Word>, g: Saved, bits: ToBits, value: ToValue, w: Word)
    requires Small(words) && forall i :: 0 <= i < |words| ==> words[i] != []
    requires Divides(Learn(words)) && IsSaved(g, FirstShares(Learn(words)), NextShares(Learn(words))) && IsOrder(g.order, g.lists.Keys)
    requires Exact(g.first, bits, value) && AllExact(g.lists, bits, value)
    requires Fits(ItemsOf(g.first, bits), EntriesOf(g.order, g.lists, bits))
    ensures HasPair(words) ==> ShownScore(FileOf(g, bits), w, value) == Frequency(words, w)
    ensures !HasPair(words) ==> ShownScore(FileOf(g, bits), w, value) == Value(if w == [] then -1.0 else 0.0)
  {
    var t := Learn(words);
    assert g.lists == map[] <==> !HasPair(words) by {
      NodesIffPair(words);
      assert g.lists.Keys == t.pairs.Keys;
    }
    ShownIsSaved(g, bits, value, w);
    if HasPair(words) { SavedScore(words, g, w); }
  }

  lemma SavedScore(words: seq<Word>, g: Saved, w: Word)
    requires Small(words) && forall i :: 0 <= i < |words| ==> words[i] != []
    requires Divides(Learn(words)) && IsSaved(g, FirstShares(Learn(words)), NextShares(Learn(words)))
    ensures WordScore(AsMap(g.first), g.succ, w) == Frequency(words, w)
  {
    var t := Learn(words);
    UpdatedChain(words);
    ScoreIsFrequency(t.first, t.pairs, words, w);
  }

  lemma ShownIsSaved(g: Saved, bits: ToBits, value: ToValue, w: Word)
    requires IsOrder(g.order, g.lists.Keys) && AllListed(g.lists, g.succ)
    requires Exact(g.first, bits, value) && AllExact(g.lists, bits, value)
    requires Fits(ItemsOf(g.first, bits), EntriesOf(g.order, g.lists, bits))
    ensures ShownScore(FileOf(g, bits), w, value) ==
            if g.lists != map[] then WordScore(AsMap(g.first), g.succ, w)
            else Value(if w == [] then -1.0 else 0.0)
  {
    if g.lists != map[] {
      SavedIsLoaded(g.first, g.order, g.lists, g.succ, bits, value);
    } else {
      assert FileOf(g, bits) == [];
    }
  }
}
