// What a merge makes of the records that are handed out: adjacent equal keys are summed.
module MergeFold {
  import opened Records

  datatype Fold = Fold(dumped: seq<Rec>, current: Rec) {
    function File(): seq<Rec> { dumped + [current] }
  }

  function Absorb(f: Fold, p: Rec): Fold {
    if f.current.hash == p.hash
    then f.(current := Rec(p.hash, (f.current.count + p.count) % TWO32))
    else Fold(f.dumped + [f.current], p)
  }

  function Folded(seed: Rec, E: seq<Rec>): Fold {
    if E == [] then Fold([], seed) else Absorb(Folded(seed, E[..|E| - 1]), E[|E| - 1])
  }

  lemma FoldedStep(seed: Rec, E: seq<Rec>, p: Rec)
    ensures Folded(seed, E + [p]) == Absorb(Folded(seed, E), p)
  {
    assert (E + [p])[..|E + [p]| - 1] == E;
  }

  // However the run goes on, what has been dumped stays as it is.
  lemma {:induction false} DumpedIsPrefix(seed: Rec, E: seq<Rec>, more: seq<Rec>)
    ensures Folded(seed, E).dumped <= Folded(seed, E + more).dumped
    decreases |more|
  {
    if more == [] {
      assert E + more == E;
    } else {
      var n := |more| - 1;
      assert E + more == (E + more[..n]) + [more[n]];
      DumpedIsPrefix(seed, E, more[..n]);
      FoldedStep(seed, E + more[..n], more[n]);
    }
  }

  ghost predicate CountsMatch(out: seq<Rec>, s: seq<Rec>) {
    forall i :: 0 <= i < |out| ==> out[i].count == KeySum(s, out[i].hash) % TWO32
  }

  lemma KeySumAppend(s: seq<Rec>, p: Rec, h: Hash)
    ensures KeySum(s + [p], h) == KeySum(s, h) + CountFor(h)(p)
  {
    assert (s + [p])[..|s + [p]| - 1] == s;
  }

  lemma {:induction false} FoldInvariant(seed: Rec, E: seq<Rec>)
    requires Sorted([seed] + E)
    ensures StrictlySorted(Folded(seed, E).File())
    ensures Folded(seed, E).current.hash == ([seed] + E)[|E|].hash
    ensures KeySet(Folded(seed, E).File()) == KeySet([seed] + E)
    ensures CountsMatch(Folded(seed, E).File(), [seed] + E)
  {
    if E == [] {
      assert [seed] + E == [] + [seed] == [seed];
      KeySumAppend([], seed, seed.hash);
    } else {
      var G, p := E[..|E| - 1], E[|E| - 1];
      var s := [seed] + G;
      assert [seed] + E == s + [p];
      forall i, j | 0 <= i < j < |s| ensures AtMost(s[i].hash, s[j].hash) {
        assert s[i] == ([seed] + E)[i] && s[j] == ([seed] + E)[j];
      }
      FoldInvariant(seed, G);
      FoldAbsorb(Folded(seed, G), s, p);
    }
  }

  lemma FoldAbsorb(f: Fold, s: seq<Rec>, p: Rec)
    requires s != [] && Sorted(s + [p])
    requires StrictlySorted(f.File()) && f.current.hash == s[|s| - 1].hash
    requires KeySet(f.File()) == KeySet(s) && CountsMatch(f.File(), s)
    ensures StrictlySorted(Absorb(f, p).File()) && Absorb(f, p).current.hash == p.hash
    ensures KeySet(Absorb(f, p).File()) == KeySet(s + [p])
    ensures CountsMatch(Absorb(f, p).File(), s + [p])
  {
    assert AtMost(f.current.hash, p.hash) by {
      assert (s + [p])[|s| - 1] == s[|s| - 1] && (s + [p])[|s|] == p;
    }
    assert KeySet(s + [p]) == KeySet(s) + {p.hash} by {
      assert forall r :: r in s + [p] <==> r in s || r == p;
    }
    AbsorbKeys(f, p);
    AbsorbStrict(f, p);
    forall i | 0 <= i < |Absorb(f, p).File()| {
      AbsorbCount(f, s, p, i);
    }
  }

  lemma AbsorbCount(f: Fold, s: seq<Rec>, p: Rec, i: nat)
    requires StrictlySorted(f.File()) && AtMost(f.current.hash, p.hash)
    requires KeySet(f.File()) == KeySet(s) && CountsMatch(f.File(), s)
    requires i < |Absorb(f, p).File()|
    ensures var r := Absorb(f, p).File()[i]; r.count == KeySum(s + [p], r.hash) % TWO32
  {
    var out, r := f.File(), Absorb(f, p).File()[i];
    assert out[|f.dumped|] == f.current;
    KeySumAppend(s, p, r.hash);
    if i < |f.dumped| {
      assert r == out[i] && Less(out[i].hash, f.current.hash);
    } else if i == |f.dumped| {
      assert f.current.count == KeySum(s, f.current.hash) % TWO32;
      AddModulo(KeySum(s, f.current.hash), p.count);
    } else {
      assert r == p;
      AboveAll(out, f.current.hash, p.hash);
      KeySumAbsent(s, p.hash);
    }
  }

  lemma AddModulo(a: nat, b: nat)
    ensures (a % TWO32 + b) % TWO32 == (a + b) % TWO32
  {
  }

  lemma BelowModulus(a: nat)
    requires a < TWO32
    ensures a % TWO32 == a
  {
  }

  lemma AboveAll(out: seq<Rec>, top: Hash, h: Hash)
    requires StrictlySorted(out) && out != [] && Last(out).hash == top && Less(top, h)
    ensures h !in KeySet(out)
  {
    assert forall k :: 0 <= k < |out| ==> AtMost(out[k].hash, top);
  }

  lemma AbsorbStrict(f: Fold, p: Rec)
    requires StrictlySorted(f.File()) && AtMost(f.current.hash, p.hash)
    ensures StrictlySorted(Absorb(f, p).File())
  {
    var out, out' := f.File(), Absorb(f, p).File();
    forall i, j | 0 <= i < j < |out'| ensures Less(out'[i].hash, out'[j].hash) {
      assert out'[i].hash == out[i].hash;
      if j < |out| {
        assert out'[j].hash == out[j].hash;
      } else {
        assert AtMost(out[i].hash, out[|out| - 1].hash);
      }
    }
  }

  lemma AbsorbKeys(f: Fold, p: Rec)
    ensures KeySet(Absorb(f, p).File()) == KeySet(f.File()) + {p.hash}
  {
    var out, out' := f.File(), Absorb(f, p).File();
    if f.current.hash == p.hash {
      assert forall r :: r in out <==> r in f.dumped || r == f.current;
      assert out' == f.dumped + [Absorb(f, p).current];
      assert forall r :: r in out' <==> r in f.dumped || r == Absorb(f, p).current;
    } else {
      assert out' == out + [p];
      assert forall r :: r in out' <==> r in out || r == p;
    }
  }

  lemma FoldLaw(seed: Rec, E: seq<Rec>, h: Hash)
    requires Sorted([seed] + E)
    ensures LinearScan(Folded(seed, E).File(), h) == KeySum([seed] + E, h) % TWO32
  {
    FoldInvariant(seed, E);
    var out := Folded(seed, E).File();
    if h in KeySet(out) {
      var i :| 0 <= i < |out| && out[i].hash == h;
      LinearScanFinds(out, i);
    } else {
      LinearScanMisses(out, h);
      KeySumAbsent([seed] + E, h);
    }
  }
}
