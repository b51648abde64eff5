// What a k-way merge run computes, stated about the sequence of records that
// MergeOperation::next() returns, for every order in which ties may be broken.
module MergeLaw {
  import opened Records
  import opened MergeFold

  // --- what one input delivers ---

  // The record a cursor holds once its file is exhausted. An empty file leaves
  // the default-constructed record in place.
  function LastRec(f: seq<Rec>): Rec {
    if f == [] then EMPTY_REC else f[|f| - 1]
  }

  // An exhausted input stays on top of the queue, and the call that removes it
  // hands out its last record a second time.
  function Deliveries(f: seq<Rec>): seq<Rec> {
    f + [LastRec(f)]
  }

  ghost function AllDeliveries(files: seq<seq<Rec>>): (qs: seq<seq<Rec>>)
    ensures |qs| == |files|
  {
    seq(|files|, i requires 0 <= i < |files| => Deliveries(files[i]))
  }

  // --- runs: each step takes the head of a queue whose head is minimal ---

  ghost predicate IsTop(qs: seq<seq<Rec>>, t: nat) {
    && t < |qs| && qs[t] != []
    && forall i :: 0 <= i < |qs| && qs[i] != [] ==> AtMost(qs[t][0].hash, qs[i][0].hash)
  }

  ghost predicate Step(a: seq<seq<Rec>>, r: Rec, b: seq<seq<Rec>>) {
    exists t: nat :: IsTop(a, t) && r == a[t][0] && b == a[t := a[t][1..]]
  }

  ghost predicate Run(a: seq<seq<Rec>>, F: seq<Rec>, b: seq<seq<Rec>>)
    decreases |F|
  {
    if F == [] then a == b
    else exists mid :: Run(a, Front(F), mid) && Step(mid, Last(F), b)
  }

  ghost predicate Drained(qs: seq<seq<Rec>>) {
    forall i :: 0 <= i < |qs| ==> qs[i] == []
  }

  ghost predicate AllSorted(qs: seq<seq<Rec>>) {
    forall i :: 0 <= i < |qs| ==> Sorted(qs[i])
  }

  lemma RunStep(a: seq<seq<Rec>>, F: seq<Rec>, mid: seq<seq<Rec>>, r: Rec, b: seq<seq<Rec>>)
    requires Run(a, F, mid) && Step(mid, r, b)
    ensures Run(a, F + [r], b)
  {
    assert Front(F + [r]) == F;
  }

  // --- conservation along a run ---

  ghost function WeighAll(qs: seq<seq<Rec>>, w: Rec -> nat): nat {
    if qs == [] then 0 else WeighAll(qs[..|qs| - 1], w) + Weigh(qs[|qs| - 1], w)
  }

  lemma {:induction false} WeighAllUpdate(qs: seq<seq<Rec>>, t: nat, s: seq<Rec>, w: Rec -> nat)
    requires t < |qs|
    ensures WeighAll(qs[t := s], w) + Weigh(qs[t], w) == WeighAll(qs, w) + Weigh(s, w)
  {
    var n := |qs| - 1;
    if t == n {
      assert qs[t := s][..n] == qs[..n];
    } else {
      assert qs[t := s][..n] == qs[..n][t := s];
      WeighAllUpdate(qs[..n], t, s, w);
    }
  }

  lemma {:induction false} WeighAllDrained(qs: seq<seq<Rec>>, w: Rec -> nat)
    requires Drained(qs)
    ensures WeighAll(qs, w) == 0
  {
    if qs != [] { WeighAllDrained(qs[..|qs| - 1], w); }
  }

  lemma StepConserves(a: seq<seq<Rec>>, r: Rec, b: seq<seq<Rec>>, w: Rec -> nat)
    requires Step(a, r, b)
    ensures WeighAll(a, w) == w(r) + WeighAll(b, w)
  {
    var t: nat :| IsTop(a, t) && r == a[t][0] && b == a[t := a[t][1..]];
    WeighAllUpdate(a, t, a[t][1..], w);
    assert a[t] == [r] + a[t][1..];
    WeighConcat([r], a[t][1..], w);
    assert [r][..0] == [];
  }

  // Whatever is measured, nothing is lost or made up between the queues and the
  // records handed out.
  lemma {:induction false} RunConserves(a: seq<seq<Rec>>, F: seq<Rec>, b: seq<seq<Rec>>, w: Rec -> nat)
    requires Run(a, F, b)
    ensures WeighAll(a, w) == Weigh(F, w) + WeighAll(b, w)
    decreases |F|
  {
    if F != [] {
      var mid :| Run(a, Front(F), mid) && Step(mid, Last(F), b);
      RunConserves(a, Front(F), mid, w);
      StepConserves(mid, Last(F), b, w);
    }
  }

  // --- order along a run ---

  ghost predicate IsSuffix(s: seq<Rec>, whole: seq<Rec>) {
    |s| <= |whole| && s == whole[|whole| - |s|..]
  }

  ghost predicate AllSuffixes(bs: seq<seq<Rec>>, qs: seq<seq<Rec>>) {
    |bs| == |qs| && forall i :: 0 <= i < |qs| ==> IsSuffix(bs[i], qs[i])
  }

  ghost predicate Floor(h: Hash, qs: seq<seq<Rec>>) {
    forall i :: 0 <= i < |qs| && qs[i] != [] ==> AtMost(h, qs[i][0].hash)
  }

  lemma StepOrder(a: seq<seq<Rec>>, r: Rec, b: seq<seq<Rec>>, qs: seq<seq<Rec>>)
    requires Step(a, r, b) && AllSorted(a) && AllSuffixes(a, qs)
    ensures AllSorted(b) && AllSuffixes(b, qs) && Floor(r.hash, a) && Floor(r.hash, b)
  {
    var t: nat :| IsTop(a, t) && r == a[t][0] && b == a[t := a[t][1..]];
    forall i | 0 <= i < |b|
      ensures Sorted(b[i]) && IsSuffix(b[i], qs[i]) && (b[i] != [] ==> AtMost(r.hash, b[i][0].hash))
    {
      if i == t {
        assert b[t] == qs[t][|qs[t]| - |b[t]|..];
      }
    }
  }

  lemma {:induction false} RunOrder(qs: seq<seq<Rec>>, F: seq<Rec>, b: seq<seq<Rec>>)
    requires Run(qs, F, b) && AllSorted(qs)
    ensures AllSorted(b) && AllSuffixes(b, qs)
    ensures Sorted(F) && (F != [] ==> Floor(Last(F).hash, b))
    decreases |F|
  {
    if F != [] {
      var G, r := Front(F), Last(F);
      var mid :| Run(qs, G, mid) && Step(mid, r, b);
      RunOrder(qs, G, mid);
      assert AllSorted(b) && AllSuffixes(b, qs) && Floor(r.hash, b) by { StepOrder(mid, r, b, qs); }
      assert Sorted(G + [r]) by { SortedSnoc(G, r, mid, b); }
      assert F == G + [r];
    }
  }

  lemma SortedSnoc(G: seq<Rec>, r: Rec, mid: seq<seq<Rec>>, b: seq<seq<Rec>>)
    requires Step(mid, r, b) && Sorted(G) && (G != [] ==> Floor(Last(G).hash, mid))
    ensures Sorted(G + [r])
  {
    if G != [] {
      assert AtMost(Last(G).hash, r.hash);
      assert forall i :: 0 <= i < |G| ==> AtMost(G[i].hash, Last(G).hash);
    }
  }

  // --- the merge law ---

  // F is everything next() hands out, in order, including the record the last
  // call drops; out is the file written. The seed and the first record handed
  // out are the same record, so it is counted twice.
  ghost predicate FullMerge(files: seq<seq<Rec>>, F: seq<Rec>, out: seq<Rec>) {
    && F != []
    && (exists b :: Drained(b) && Run(AllDeliveries(files), F, b))
    && out == Folded(F[0], Front(F)).File()
  }

  // Every key of every input, where an empty input contributes the zero hash.
  ghost function AllKeys(files: seq<seq<Rec>>): set<Hash> {
    set i, r | 0 <= i < |files| && r in Deliveries(files[i]) :: r.hash
  }

  // That is: the keys of the files, and the zero hash if one of them is empty.
  lemma AllKeysMeaning(files: seq<seq<Rec>>, h: Hash)
    ensures h in AllKeys(files) <==>
            || (exists i :: 0 <= i < |files| && h in KeySet(files[i]))
            || (h == ZERO_HASH && exists i :: 0 <= i < |files| && files[i] == [])
  {
    forall i | 0 <= i < |files|
      ensures h in KeySet(Deliveries(files[i])) <==>
              h in KeySet(files[i]) || (h == ZERO_HASH && files[i] == [])
    {
      var f := files[i];
      assert forall r :: r in Deliveries(f) <==> r in f || r == LastRec(f);
      assert f != [] ==> LastRec(f) in f;
    }
    if h in AllKeys(files) {
      var i, r :| 0 <= i < |files| && r in Deliveries(files[i]) && h == r.hash;
      assert h in KeySet(Deliveries(files[i]));
    }
  }

  // The sum over the inputs that one expects a merge to write for h.
  ghost function TrueSum(files: seq<seq<Rec>>, h: Hash): nat {
    WeighAll(files, CountFor(h))
  }

  // The last records of all inputs but number skip.
  ghost function Extras(files: seq<seq<Rec>>, skip: int, w: Rec -> nat): nat {
    if files == [] then 0
    else Extras(Front(files), skip, w)
         + if |files| - 1 == skip then 0 else w(LastRec(Last(files)))
  }

  // What a merge adds up for h: the true sum, the seed once more, and the last
  // record of every input but number L once more.
  ghost function InflatedSum(files: seq<seq<Rec>>, seed: Rec, L: nat, h: Hash): nat {
    TrueSum(files, h) + CountFor(h)(seed) + Extras(files, L, CountFor(h))
  }

  lemma {:induction false} ExtrasSkip(files: seq<seq<Rec>>, skip: nat, w: Rec -> nat)
    ensures Extras(files, -1, w) ==
            Extras(files, skip, w) + if skip < |files| then w(LastRec(files[skip])) else 0
  {
    if files != [] { ExtrasSkip(Front(files), skip, w); }
  }

  lemma {:induction false} DeliveriesWeigh(files: seq<seq<Rec>>, w: Rec -> nat)
    ensures WeighAll(AllDeliveries(files), w) == WeighAll(files, w) + Extras(files, -1, w)
  {
    if files != [] {
      var qs := AllDeliveries(files);
      assert qs[..|qs| - 1] == AllDeliveries(Front(files));
      DeliveriesWeigh(Front(files), w);
      var f := Last(files);
      WeighConcat(f, [LastRec(f)], w);
      assert [LastRec(f)][..0] == [];
    }
  }

  lemma DeliveriesSorted(files: seq<seq<Rec>>)
    requires AllSorted(files)
    ensures AllSorted(AllDeliveries(files))
  {
  }

  // No input ends with a greater key than input t.
  ghost predicate GreatestLast(files: seq<seq<Rec>>, t: nat) {
    t < |files| && forall i :: 0 <= i < |files| ==> AtMost(LastRec(files[i]).hash, LastRec(files[t]).hash)
  }

  // No input starts with a smaller key than input t.
  ghost predicate SmallestFirst(files: seq<seq<Rec>>, t: nat) {
    && t < |files|
    && forall i :: 0 <= i < |files| ==> AtMost(Deliveries(files[t])[0].hash, Deliveries(files[i])[0].hash)
  }

  // Input L can be the one that is exhausted last when F is handed out.
  ghost predicate EndsWith(files: seq<seq<Rec>>, F: seq<Rec>, L: nat) {
    F != [] && L < |files| && LastRec(files[L]) == Last(F)
  }

  // The record dropped by the final call is the last record of some input L, and
  // no key of any input exceeds it.
  lemma FinalRecord(files: seq<seq<Rec>>, F: seq<Rec>, b: seq<seq<Rec>>) returns (L: nat)
    requires AllSorted(files) && F != []
    requires Drained(b) && Run(AllDeliveries(files), F, b)
    ensures EndsWith(files, F, L) && GreatestLast(files, L)
  {
    L := FinalInput(files, F, b);
    FinalIsGreatest(files, F, b, L);
  }

  lemma FinalInput(files: seq<seq<Rec>>, F: seq<Rec>, b: seq<seq<Rec>>) returns (L: nat)
    requires AllSorted(files) && F != []
    requires Drained(b) && Run(AllDeliveries(files), F, b)
    ensures EndsWith(files, F, L)
  {
    var qs := AllDeliveries(files);
    var mid :| Run(qs, Front(F), mid) && Step(mid, Last(F), b);
    var t: nat :| IsTop(mid, t) && Last(F) == mid[t][0] && b == mid[t := mid[t][1..]];
    assert AllSuffixes(mid, qs) by {
      DeliveriesSorted(files);
      RunOrder(qs, Front(F), mid);
    }
    L := t;
    assert b[t] == mid[t][1..] == [];
    LastOfSuffix(mid[t], files[t]);
  }

  lemma FinalIsGreatest(files: seq<seq<Rec>>, F: seq<Rec>, b: seq<seq<Rec>>, L: nat)
    requires AllSorted(files) && EndsWith(files, F, L)
    requires Drained(b) && Run(AllDeliveries(files), F, b)
    ensures GreatestLast(files, L)
  {
    var qs := AllDeliveries(files);
    DeliveriesSorted(files);
    forall i | 0 <= i < |files| ensures AtMost(LastRec(files[i]).hash, Last(F).hash) {
      assert LastRec(files[i]) in qs[i];
      HandedOut(qs, F, b, i, LastRec(files[i]));
    }
  }

  // Everything in a queue is handed out, at the latest as the last record.
  lemma HandedOut(qs: seq<seq<Rec>>, F: seq<Rec>, b: seq<seq<Rec>>, i: nat, r: Rec)
    requires AllSorted(qs) && Drained(b) && Run(qs, F, b) && i < |qs| && r in qs[i]
    ensures r.hash in KeySet(F) && AtMost(r.hash, Last(F).hash)
  {
    RunConserves(qs, F, b, One(r.hash));
    WeighAllDrained(b, One(r.hash));
    WeighAllKeys(qs, r.hash);
    WeighOne(F, r.hash);
    assert r.hash in KeySet(qs[i]);
    RunOrder(qs, F, b);
    var k :| 0 <= k < |F| && F[k].hash == r.hash;
  }

  lemma LastOfSuffix(s: seq<Rec>, f: seq<Rec>)
    requires |s| == 1 && IsSuffix(s, Deliveries(f))
    ensures s[0] == LastRec(f)
  {
  }

  lemma MergeSorted(files: seq<seq<Rec>>, F: seq<Rec>, out: seq<Rec>)
    requires AllSorted(files) && FullMerge(files, F, out)
    ensures Sorted([F[0]] + Front(F)) && StrictlySorted(out)
  {
    var b :| Drained(b) && Run(AllDeliveries(files), F, b);
    DeliveriesSorted(files);
    RunOrder(AllDeliveries(files), F, b);
    SeededSorted(F);
    FoldInvariant(F[0], Front(F));
  }

  lemma SeededSorted(F: seq<Rec>)
    requires F != [] && Sorted(F)
    ensures Sorted([F[0]] + Front(F))
  {
    var s := [F[0]] + Front(F);
    forall i, j | 0 <= i < j < |s| ensures AtMost(s[i].hash, s[j].hash) {
      assert s[j] == F[j - 1];
      if i > 0 { assert s[i] == F[i - 1]; }
    }
  }

  // The number of records handed out, over the last call which drops its one, is
  // the number of calls: all records, and one more call for every input.
  lemma MergeCalls(files: seq<seq<Rec>>, F: seq<Rec>, out: seq<Rec>)
    requires FullMerge(files, F, out)
    ensures |F| == WeighAll(files, Each()) + |files|
  {
    var b :| Drained(b) && Run(AllDeliveries(files), F, b);
    RunConserves(AllDeliveries(files), F, b, Each());
    WeighAllDrained(b, Each());
    WeighEach(F);
    DeliveriesWeigh(files, Each());
    ExtrasEach(files);
  }

  lemma {:induction false} ExtrasEach(files: seq<seq<Rec>>)
    ensures Extras(files, -1, Each()) == |files|
  {
    if files != [] { ExtrasEach(Front(files)); }
  }

  // The exact law for the counts: the expected sum, one more copy of the seed,
  // and one more copy of the last record of every input except L, the one
  // exhausted last.
  lemma MergeCounts(files: seq<seq<Rec>>, F: seq<Rec>, out: seq<Rec>) returns (L: nat)
    requires AllSorted(files) && FullMerge(files, F, out)
    ensures EndsWith(files, F, L) && GreatestLast(files, L)
    ensures forall h ::
              LinearScan(out, h) == InflatedSum(files, F[0], L, h) % TWO32
  {
    var b :| Drained(b) && Run(AllDeliveries(files), F, b);
    L := FinalRecord(files, F, b);
    forall h {
      MergeCount(files, F, out, L, h);
    }
  }

  // The law for one key; which of several inputs that end with the dropped record is
  // taken for L makes no difference.
  lemma MergeCount(files: seq<seq<Rec>>, F: seq<Rec>, out: seq<Rec>, L: nat, h: Hash)
    requires AllSorted(files) && FullMerge(files, F, out) && EndsWith(files, F, L)
    ensures LinearScan(out, h) == InflatedSum(files, F[0], L, h) % TWO32
  {
    var b :| Drained(b) && Run(AllDeliveries(files), F, b);
    MergeSorted(files, F, out);
    FoldLaw(F[0], Front(F), h);
    assert KeySum([F[0]] + Front(F), h) == InflatedSum(files, F[0], L, h) by {
      MergeSum(files, F, L, b, CountFor(h));
    }
  }

  lemma MergeSum(files: seq<seq<Rec>>, F: seq<Rec>, L: nat, b: seq<seq<Rec>>, w: Rec -> nat)
    requires F != [] && Drained(b) && Run(AllDeliveries(files), F, b)
    requires L < |files| && LastRec(files[L]) == Last(F)
    ensures Weigh([F[0]] + Front(F), w) == WeighAll(files, w) + w(F[0]) + Extras(files, L, w)
  {
    RunConserves(AllDeliveries(files), F, b, w);
    WeighAllDrained(b, w);
    DeliveriesWeigh(files, w);
    ExtrasSkip(files, L, w);
    SeededWeigh(F, w);
  }

  lemma SeededWeigh(F: seq<Rec>, w: Rec -> nat)
    requires F != []
    ensures Weigh([F[0]] + Front(F), w) + w(Last(F)) == Weigh(F, w) + w(F[0])
  {
    WeighConcat([F[0]], Front(F), w);
    assert [F[0]][..0] == [];
  }

  // The keys of the merged file are exactly the keys of the inputs.
  lemma MergeKeys(files: seq<seq<Rec>>, F: seq<Rec>, out: seq<Rec>)
    requires AllSorted(files) && FullMerge(files, F, out)
    ensures KeySet(out) == AllKeys(files)
  {
    var qs := AllDeliveries(files);
    var b :| Drained(b) && Run(qs, F, b);
    MergeSorted(files, F, out);
    FoldInvariant(F[0], Front(F));
    DroppedKeyStays(files, F, b);
    assert KeySet([F[0]] + Front(F)) == KeySet(F) by {
      assert F == Front(F) + [Last(F)];
      assert F[0] in F;
    }
    forall h
      ensures h in KeySet(F) <==> h in AllKeys(files)
    {
      RunConserves(qs, F, b, One(h));
      WeighAllDrained(b, One(h));
      WeighAllKeys(qs, h);
      WeighOne(F, h);
      if h in AllKeys(files) {
        var i, r :| 0 <= i < |files| && r in Deliveries(files[i]) && h == r.hash;
        assert h in KeySet(qs[i]);
      }
    }
  }

  // The record dropped by the last call leaves its key behind in another record.
  lemma DroppedKeyStays(files: seq<seq<Rec>>, F: seq<Rec>, b: seq<seq<Rec>>)
    requires AllSorted(files) && F != []
    requires Drained(b) && Run(AllDeliveries(files), F, b)
    ensures Last(F).hash in KeySet([F[0]] + Front(F))
  {
    var qs := AllDeliveries(files);
    DeliveriesSorted(files);
    RunOrder(qs, F, b);
    var L := FinalRecord(files, F, b);
    var h := Last(F).hash;
    if files[L] == [] {
      assert AtMost(F[0].hash, h) && h == ZERO_HASH;
      assert ([F[0]] + Front(F))[0].hash == h;
    } else {
      RunConserves(qs, F, b, One(h));
      WeighAllDrained(b, One(h));
      WeighAllUpdate(qs, L, [], One(h));
      assert qs[L] == files[L] + [Last(F)];
      assert Last(files[L]) == Last(F);
      assert Weigh(qs[L], One(h)) >= 2 by {
        WeighConcat(files[L], [Last(F)], One(h));
        assert [Last(F)][..0] == [];
        WeighOne(files[L], h);
      }
      WeighOne(Front(F), h);
    }
  }

  lemma {:induction false} WeighAllKeys(qs: seq<seq<Rec>>, h: Hash)
    ensures WeighAll(qs, One(h)) > 0 <==> exists i :: 0 <= i < |qs| && h in KeySet(qs[i])
  {
    if qs != [] {
      var front := qs[..|qs| - 1];
      WeighAllKeys(front, h);
      WeighOne(Last(qs), h);
      assert forall i :: 0 <= i < |front| ==> front[i] == qs[i];
    }
  }

  // --- what the law means for a caller ---

  // The seed is the first record of an input whose first key is smallest.
  lemma {:induction false} FirstOfRun(qs: seq<seq<Rec>>, F: seq<Rec>, b: seq<seq<Rec>>) returns (t: nat)
    requires F != [] && Run(qs, F, b)
    ensures IsTop(qs, t) && F[0] == qs[t][0]
    decreases |F|
  {
    var mid :| Run(qs, Front(F), mid) && Step(mid, Last(F), b);
    if |F| == 1 {
      t :| IsTop(mid, t) && Last(F) == mid[t][0];
    } else {
      t := FirstOfRun(qs, Front(F), mid);
    }
  }

  lemma SeedIsFirst(files: seq<seq<Rec>>, F: seq<Rec>, out: seq<Rec>) returns (t: nat)
    requires FullMerge(files, F, out)
    ensures t < |files| && F[0] == Deliveries(files[t])[0]
    ensures forall i :: 0 <= i < |files| ==> AtMost(F[0].hash, Deliveries(files[i])[0].hash)
  {
    var b :| Drained(b) && Run(AllDeliveries(files), F, b);
    var qs := AllDeliveries(files);
    t := FirstOfRun(qs, F, b);
    assert forall i :: 0 <= i < |files| ==> qs[i] == Deliveries(files[i]) && qs[i] != [];
  }

  lemma LastRecBound(f: seq<Rec>, h: Hash)
    ensures CountFor(h)(LastRec(f)) <= KeySum(f, h)
  {
  }

  lemma {:induction false} ExtrasBound(files: seq<seq<Rec>>, skip: int, h: Hash)
    ensures Extras(files, skip, CountFor(h)) <= TrueSum(files, h)
  {
    if files != [] {
      ExtrasBound(Front(files), skip, h);
      LastRecBound(Last(files), h);
    }
  }

  lemma {:induction false} TrueSumCovers(files: seq<seq<Rec>>, t: nat, h: Hash)
    requires t < |files|
    ensures KeySum(files[t], h) <= TrueSum(files, h)
  {
    if t < |files| - 1 { TrueSumCovers(Front(files), t, h); }
  }

  lemma SeedBound(f: seq<Rec>, h: Hash)
    ensures CountFor(h)(Deliveries(f)[0]) <= KeySum(f, h)
  {
    if f != [] && f[0].hash == h { KeySumBound(f, f[0]); }
  }

  // What a merge adds for a key is at most twice what is there.
  lemma CopiesBound(files: seq<seq<Rec>>, F: seq<Rec>, out: seq<Rec>, L: nat, h: Hash)
    requires FullMerge(files, F, out)
    ensures TrueSum(files, h) <= InflatedSum(files, F[0], L, h) <= 3 * TrueSum(files, h)
  {
    ExtrasBound(files, L, h);
    var t := SeedIsFirst(files, F, out);
    SeedBound(files[t], h);
    TrueSumCovers(files, t, h);
  }

  // A merge never loses a count unless the 32-bit sum wraps, and at most
  // triples it.
  lemma MergeBounds(files: seq<seq<Rec>>, F: seq<Rec>, out: seq<Rec>, L: nat, h: Hash)
    requires AllSorted(files) && FullMerge(files, F, out) && EndsWith(files, F, L)
    requires InflatedSum(files, F[0], L, h) < TWO32
    ensures LinearScan(out, h) == InflatedSum(files, F[0], L, h)
    ensures TrueSum(files, h) <= LinearScan(out, h) <= 3 * TrueSum(files, h)
  {
    MergeCount(files, F, out, L, h);
    BelowModulus(InflatedSum(files, F[0], L, h));
    CopiesBound(files, F, out, L, h);
  }

  // The smallest example: one file with one record comes out with its count
  // doubled.
  lemma SingleRecordDoubles(r: Rec, F: seq<Rec>, out: seq<Rec>)
    requires FullMerge([[r]], F, out)
    ensures out == [Rec(r.hash, 2 * r.count % TWO32)]
  {
    var b :| Drained(b) && Run(AllDeliveries([[r]]), F, b);
    MergeCalls([[r]], F, out);
    assert Weigh([r], Each()) == 1 by { WeighEach([r]); }
    assert [[r]][..0] == [];
    forall r' | r' in F ensures r' == r {
      OnlyFrom(AllDeliveries([[r]]), F, b, r');
    }
    assert F[0] in F && F[1] in F;
    assert F == [r, r] && Front(F) == [] + [r];
    FoldedStep(r, [], r);
  }

  lemma {:induction false} OnlyFrom(qs: seq<seq<Rec>>, F: seq<Rec>, b: seq<seq<Rec>>, r: Rec)
    requires Run(qs, F, b) && r in F
    ensures exists i :: 0 <= i < |qs| && r in qs[i]
    decreases |F|
  {
    var mid :| Run(qs, Front(F), mid) && Step(mid, Last(F), b);
    if r in Front(F) {
      OnlyFrom(qs, Front(F), mid, r);
    } else {
      var t: nat :| IsTop(mid, t) && Last(F) == mid[t][0] && b == mid[t := mid[t][1..]];
      HeldBack(qs, Front(F), mid, t, r);
    }
  }

  lemma {:induction false} HeldBack(qs: seq<seq<Rec>>, F: seq<Rec>, b: seq<seq<Rec>>, t: nat, r: Rec)
    requires Run(qs, F, b) && t < |b| && r in b[t]
    ensures t < |qs| && r in qs[t]
    decreases |F|
  {
    if F != [] {
      var mid :| Run(qs, Front(F), mid) && Step(mid, Last(F), b);
      HeldBack(qs, Front(F), mid, t, r);
    }
  }

  // --- cancellation ---

  ghost function TotalLength(qs: seq<seq<Rec>>): nat { WeighAll(qs, Each()) }

  lemma {:induction false} TopExists(qs: seq<seq<Rec>>) returns (t: nat)
    requires !Drained(qs)
    ensures IsTop(qs, t)
  {
    if Drained(Front(qs)) {
      t := |qs| - 1;
    } else {
      var u := TopExists(Front(qs));
      var n := |qs| - 1;
      assert forall i :: 0 <= i < n ==> Front(qs)[i] == qs[i];
      t := if qs[n] == [] || AtMost(qs[u][0].hash, qs[n][0].hash) then u else n;
    }
  }

  lemma SmallestExists(qs: seq<seq<Rec>>, keys: set<nat>)
    requires keys != {} && forall i: nat :: i in keys <==> i < |qs| && qs[i] != []
    ensures exists t :: t in keys && forall i :: i in keys ==> AtMost(qs[t][0].hash, qs[i][0].hash)
  {
    var i :| i in keys;
    assert qs[i] != [];
    var u := TopExists(qs);
    assert u in keys;
    forall i | i in keys ensures AtMost(qs[u][0].hash, qs[i][0].hash) {
      assert qs[i] != [];
    }
  }

  lemma StepExists(a: seq<seq<Rec>>) returns (r: Rec, b: seq<seq<Rec>>)
    requires !Drained(a)
    ensures Step(a, r, b) && TotalLength(b) < TotalLength(a)
  {
    var t := TopExists(a);
    r, b := a[t][0], a[t := a[t][1..]];
    StepConserves(a, r, b, Each());
  }

  // Where execute() stands after handing out E: the queues left, what has been
  // dumped, and the record being summed up.
  ghost predicate Progress(qs: seq<seq<Rec>>, E: seq<Rec>, left: seq<seq<Rec>>, seed: Rec, f: Fold) {
    && Run(qs, E, left) && Folded(seed, E) == f
    && (E == [] ==> exists t: nat :: IsTop(qs, t) && qs[t][0] == seed && left == qs)
    && (E != [] ==> E[0] == seed)
  }

  lemma ProgressStart(qs: seq<seq<Rec>>, t: nat)
    requires IsTop(qs, t)
    ensures Progress(qs, [], qs, qs[t][0], Fold([], qs[t][0]))
  {
  }

  // Taking the record on top of queue t, for the first record the one that
  // became the seed.
  lemma ProgressStep(qs: seq<seq<Rec>>, E: seq<Rec>, left: seq<seq<Rec>>, seed: Rec, f: Fold, t: nat)
    requires Progress(qs, E, left, seed, f) && IsTop(left, t)
    requires E == [] ==> left[t][0] == seed
    ensures Progress(qs, E + [left[t][0]], left[t := left[t][1..]], seed, Absorb(f, left[t][0]))
    ensures TotalLength(left[t := left[t][1..]]) < TotalLength(left)
  {
    var r, b := left[t][0], left[t := left[t][1..]];
    assert Step(left, r, b);
    RunStep(qs, E, left, r, b);
    StepConserves(left, r, b, Each());
    FoldedStep(seed, E, r);
  }

  // When the last record has been taken, the file is what was made of all the
  // records before it.
  lemma ProgressEnd(files: seq<seq<Rec>>, E: seq<Rec>, left: seq<seq<Rec>>, seed: Rec, f: Fold,
                    last: Rec, end: seq<seq<Rec>>)
    requires Progress(AllDeliveries(files), E, left, seed, f) && Step(left, last, end) && Drained(end)
    requires E == [] ==> last == seed
    ensures FullMerge(files, E + [last], f.File())
  {
    RunStep(AllDeliveries(files), E, left, last, end);
    assert Front(E + [last]) == E;
  }

  // A run can always be continued until all inputs are used up.
  lemma {:induction false} Completable(qs: seq<seq<Rec>>, F: seq<Rec>, mid: seq<seq<Rec>>)
    returns (G: seq<Rec>, b: seq<seq<Rec>>)
    requires Run(qs, F, mid)
    ensures F <= G && Drained(b) && Run(qs, G, b)
    ensures !Drained(mid) ==> F < G
    decreases TotalLength(mid)
  {
    if Drained(mid) {
      G, b := F, mid;
    } else {
      var r, next := StepExists(mid);
      RunStep(qs, F, mid, r, next);
      G, b := Completable(qs, F + [r], next);
    }
  }

  // A merge stopped after handing out E has written a prefix of the file that
  // some uncancelled merge of the same inputs writes.
  lemma CancelledPrefix(files: seq<seq<Rec>>, E: seq<Rec>, left: seq<seq<Rec>>, seed: Rec, f: Fold)
    returns (F: seq<Rec>, out: seq<Rec>)
    requires Progress(AllDeliveries(files), E, left, seed, f) && !Drained(left)
    ensures FullMerge(files, F, out)
    ensures f.dumped <= out
  {
    var qs := AllDeliveries(files);
    var b;
    if E == [] {
      var t: nat :| IsTop(qs, t) && qs[t][0] == seed;
      ProgressStep(qs, E, qs, seed, f, t);
      F, b := Completable(qs, E + [seed], qs[t := qs[t][1..]]);
    } else {
      F, b := Completable(qs, E, left);
      assert Front(F) == E + Front(F)[|E|..];
      DumpedIsPrefix(seed, E, Front(F)[|E|..]);
    }
    out := Folded(F[0], Front(F)).File();
  }
}
