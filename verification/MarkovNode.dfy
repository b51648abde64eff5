// A node of the Markov chain: the symbols that follow one symbol.
module MarkovNode {
  import opened Records
  import opened Markov
  import opened MarkovTraining

  type Probabilities = map<Symbol, real>

  datatype Share = Share(symbol: Symbol, probability: real)

  // --- lists of symbols by probability ---

  // The first share of each symbol counts.
  function AsMap(list: seq<Share>): Probabilities {
    if list == [] then map[] else AsMap(list[1..])[list[0].symbol := list[0].probability]
  }

  ghost predicate Distinct(list: seq<Share>) {
    forall i, j :: 0 <= i < j < |list| ==> list[i].symbol != list[j].symbol
  }

  ghost predicate Ascending(list: seq<Share>) {
    forall i, j :: 0 <= i < j < |list| ==> list[i].probability <= list[j].probability
  }

  // The list holds each symbol of p once, by ascending probability.
  ghost predicate IsListing(list: seq<Share>, p: Probabilities) {
    AsMap(list) == p && Distinct(list) && Ascending(list)
  }

  lemma {:induction false} AsMapKeys(list: seq<Share>, s: Symbol)
    ensures s in AsMap(list) <==> exists i :: 0 <= i < |list| && list[i].symbol == s
  {
    if list != [] {
      AsMapKeys(list[1..], s);
      if s in AsMap(list[1..]) {
        var i :| 0 <= i < |list[1..]| && list[1..][i].symbol == s;
        assert list[i + 1].symbol == s;
      }
      if i :| 0 <= i < |list| && list[i].symbol == s {
        if i > 0 { assert list[1..][i - 1].symbol == s; }
      }
    }
  }

  lemma AsMapCons(x: Share, rest: seq<Share>)
    ensures AsMap([x] + rest) == AsMap(rest)[x.symbol := x.probability]
  {
    assert ([x] + rest)[1..] == rest;
  }

  lemma Commute(p: Probabilities, x: Share, y: Share)
    requires x.symbol != y.symbol
    ensures p[x.symbol := x.probability][y.symbol := y.probability] ==
            p[y.symbol := y.probability][x.symbol := x.probability]
  {
  }

  lemma {:induction false} AsMapInsert(a: seq<Share>, e: Share, b: seq<Share>)
    requires e.symbol !in AsMap(a + b)
    ensures AsMap(a + [e] + b) == AsMap(a + b)[e.symbol := e.probability]
  {
    if a == [] {
      assert a + [e] + b == [e] + b && a + b == b;
      AsMapCons(e, b);
    } else {
      var x, rest := a[0], a[1..];
      assert AsMap(a + b) == AsMap(rest + b)[x.symbol := x.probability] by {
        assert a + b == [x] + (rest + b);
        AsMapCons(x, rest + b);
      }
      assert AsMap(a + [e] + b) == AsMap(rest + [e] + b)[x.symbol := x.probability] by {
        assert a + [e] + b == [x] + (rest + [e] + b);
        AsMapCons(x, rest + [e] + b);
      }
      AsMapInsert(rest, e, b);
      Commute(AsMap(rest + b), x, e);
    }
  }

  lemma InsertedListing(list: seq<Share>, k: nat, e: Share)
    requires k <= |list| && Distinct(list) && Ascending(list) && e.symbol !in AsMap(list)
    requires forall i :: 0 <= i < k ==> list[i].probability < e.probability
    requires k < |list| ==> e.probability <= list[k].probability
    ensures Distinct(list[..k] + [e] + list[k..]) && Ascending(list[..k] + [e] + list[k..])
  {
    AsMapKeys(list, e.symbol);
  }

  // The position of e in a sorted list.
  method Insert(list: seq<Share>, e: Share) returns (more: seq<Share>)
    requires Distinct(list) && Ascending(list) && e.symbol !in AsMap(list)
    ensures IsListing(more, AsMap(list)[e.symbol := e.probability])
  {
    var k := 0;
    while k < |list| && list[k].probability < e.probability
      invariant k <= |list|
      invariant forall i :: 0 <= i < k ==> list[i].probability < e.probability
    {
      k := k + 1;
    }
    more := list[..k] + [e] + list[k..];
    assert list[..k] + list[k..] == list;
    AsMapInsert(list[..k], e, list[k..]);
    InsertedListing(list, k, e);
  }

  lemma GrowRestriction(p: Probabilities, todo: set<Symbol>, s: Symbol)
    requires todo <= p.Keys && s in todo
    ensures (p - todo)[s := p[s]] == p - (todo - {s})
    ensures s !in p - todo
  {
  }

  // The entries of a map, sorted by their probabilities; the order of equal ones is
  // left open by the iteration order.
  method ByProbability(p: Probabilities) returns (list: seq<Share>)
    ensures IsListing(list, p)
    ensures forall i, j :: 0 <= i < j < |list| ==> list[i].probability <= list[j].probability
  {
    list := [];
    var todo := p.Keys;
    while todo != {}
      invariant todo <= p.Keys
      invariant IsListing(list, p - todo)
      decreases todo
    {
      var s :| s in todo;
      GrowRestriction(p, todo, s);
      list := Insert(list, Share(s, p[s]));
      todo := todo - {s};
    }
    assert p - todo == p;
  }

  lemma TotalGrows(m: Counts, todo: set<Symbol>, s: Symbol)
    requires todo <= m.Keys && s in todo
    ensures Total(m - (todo - {s})) == Total(m - todo) + m[s]
  {
    var grown := m - (todo - {s});
    TotalRemove(grown, s);
    assert grown - {s} == m - todo;
  }

  lemma SumStep(counts: Counts, todo: set<Symbol>, s: Symbol, sum: nat)
    requires todo <= counts.Keys && s in todo && sum == Total(counts - todo) % TWO32
    ensures (counts[s] + sum) % TWO32 == Total(counts - (todo - {s})) % TWO32
  {
    TotalGrows(counts, todo, s);
  }

  // The sum of all counts, taken in 32 bits.
  method Accumulate(counts: Counts) returns (sum: nat)
    ensures sum == Divisor(counts)
  {
    sum := 0;
    var todo := counts.Keys;
    assert counts - todo == map[];
    while todo != {}
      invariant todo <= counts.Keys
      invariant sum == Total(counts - todo) % TWO32
      decreases todo
    {
      var s :| s in todo;
      SumStep(counts, todo, s, sum);
      sum := (counts[s] + sum) % TWO32;
      todo := todo - {s};
    }
    assert counts - todo == counts;
  }

  lemma AddShare(probs: Probabilities, all: Probabilities, todo: set<Symbol>, s: Symbol)
    requires todo <= all.Keys && s in todo
    ensures (probs + (all - todo))[s := all[s]] == probs + (all - (todo - {s}))
  {
  }

  // Every count divided by the sum; what was there of other symbols stays.
  method Divide(counts: Counts, probs: Probabilities) returns (shares: Probabilities)
    requires counts == map[] || Divisor(counts) > 0
    ensures shares == probs + NodeShares(counts)
  {
    var sum := Accumulate(counts);
    shares := probs;
    var todo := counts.Keys;
    ghost var all := NodeShares(counts);
    assert all - todo == map[];
    while todo != {}
      invariant todo <= counts.Keys
      invariant shares == probs + (all - todo)
      decreases todo
    {
      var s :| s in todo;
      AddShare(probs, all, todo, s);
      shares := shares[s := Fraction(counts[s], sum)];
      todo := todo - {s};
    }
    assert all - todo == all;
  }

  class Node {
    var probs: Probabilities
    var counts: Counts
    var sorted: seq<Share>

    // The symbol whose node it is.
    ghost const home: Symbol

    constructor (ghost symbol: Symbol)
      ensures home == symbol && probs == map[] && counts == map[] && sorted == []
    {
      home, probs, counts, sorted := symbol, map[], map[], [];
    }

    method Increment(c: Symbol)
      modifies this`counts
      ensures counts == Bump(old(counts), c)
    {
      if c !in counts { counts := counts[c := 0]; }
      counts := counts[c := counts[c] + 1];
    }

    method Update()
      requires counts == map[] || Divisor(counts) > 0
      modifies this`probs, this`sorted
      ensures probs == old(probs) + NodeShares(counts)
      ensures IsListing(sorted, probs)
    {
      probs := Divide(counts, probs);
      Postprocess();
    }

    method AddSuccessor(c: Symbol, probability: real)
      modifies this`probs
      ensures probs == old(probs)[c := probability]
    {
      probs := probs[c := probability];
    }

    method Postprocess()
      modifies this`sorted
      ensures IsListing(sorted, probs)
    {
      sorted := ByProbability(probs);
    }

    // None if there is no such successor: at() throws.
    function Probability(c: Symbol): (p: Option<real>)
      reads this`probs
      ensures p.Some? <==> c in probs
      ensures p.Some? ==> p.value == probs[c]
    {
      if c in probs then Some(probs[c]) else None
    }
  }
}
