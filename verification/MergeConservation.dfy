// When a merge writes true sums.
module MergeConservation {
  import opened Records
  import opened MergeFold
  import opened MergeLaw

  // The run that hands out F has written the true sums exactly if its seed counts 0
  // and so does the last record of every input but the one exhausted last.
  lemma RunConservesIff(files: seq<seq<Rec>>, F: seq<Rec>, out: seq<Rec>, L: nat)
    requires AllSorted(files) && FullMerge(files, F, out) && EndsWith(files, F, L)
    requires forall h :: InflatedSum(files, F[0], L, h) < TWO32
    ensures Conserves(files, out) <==>
            F[0].count == 0 && forall i :: 0 <= i < |files| && i != L ==> LastRec(files[i]).count == 0
  {
    forall h
      ensures LinearScan(out, h) == InflatedSum(files, F[0], L, h)
    {
      MergeBounds(files, F, out, L, h);
    }
    if forall i :: 0 <= i < |files| && i != L ==> LastRec(files[i]).count == 0 {
      forall h { ExtrasZero(files, L, h); }
      assert LinearScan(out, F[0].hash) == TrueSum(files, F[0].hash) + F[0].count;
    } else {
      var i :| 0 <= i < |files| && i != L && LastRec(files[i]).count != 0;
      var h := LastRec(files[i]).hash;
      ExtrasPositive(files, L, i);
      assert LinearScan(out, h) > TrueSum(files, h);
    }
  }

  // Every key comes out with the sum of its counts in the inputs.
  ghost predicate Conserves(files: seq<seq<Rec>>, out: seq<Rec>) {
    forall h :: LinearScan(out, h) == TrueSum(files, h)
  }

  lemma {:induction false} ExtrasZero(files: seq<seq<Rec>>, L: nat, h: Hash)
    requires forall i :: 0 <= i < |files| && i != L ==> LastRec(files[i]).count == 0
    ensures Extras(files, L, CountFor(h)) == 0
  {
    if files != [] { ExtrasZero(Front(files), L, h); }
  }

  lemma {:induction false} ExtrasPositive(files: seq<seq<Rec>>, L: nat, i: nat)
    requires i < |files| && i != L && LastRec(files[i]).count != 0
    ensures Extras(files, L, CountFor(LastRec(files[i]).hash)) > 0
  {
    if i < |files| - 1 { ExtrasPositive(Front(files), L, i); }
  }

  // Files with records that count at least 1, like those of the converter, never come
  // out with their true sums.
  lemma NeverConserves(files: seq<seq<Rec>>, F: seq<Rec>, out: seq<Rec>, L: nat)
    requires AllSorted(files) && FullMerge(files, F, out) && EndsWith(files, F, L)
    requires forall i :: 0 <= i < |files| ==> files[i] != [] && forall r :: r in files[i] ==> r.count >= 1
    requires InflatedSum(files, F[0], L, F[0].hash) < TWO32
    ensures LinearScan(out, F[0].hash) > TrueSum(files, F[0].hash)
    ensures !Conserves(files, out)
  {
    MergeBounds(files, F, out, L, F[0].hash);
    var t := SeedIsFirst(files, F, out);
    assert files[t][0] in files[t];
  }

  // --- which merges there are ---

  lemma {:induction false} RunCons(a: seq<seq<Rec>>, r: Rec, mid: seq<seq<Rec>>, F: seq<Rec>, b: seq<seq<Rec>>)
    requires Step(a, r, mid) && Run(mid, F, b)
    ensures Run(a, [r] + F, b)
    decreases |F|
  {
    if F == [] {
      assert Front([r]) == [] && Run(a, [], a);
      assert [r] + F == [r];
    } else {
      var c :| Run(mid, Front(F), c) && Step(c, Last(F), b);
      RunCons(a, r, mid, Front(F), c);
      assert Front([r] + F) == [r] + Front(F);
    }
  }

  // Every input with the smallest first key can provide the seed.
  lemma StartWith(files: seq<seq<Rec>>, t: nat) returns (F: seq<Rec>, out: seq<Rec>)
    requires SmallestFirst(files, t)
    ensures FullMerge(files, F, out) && F[0] == Deliveries(files[t])[0]
  {
    var qs := AllDeliveries(files);
    var r, mid := qs[t][0], qs[t := qs[t][1..]];
    assert IsTop(qs, t);
    RunStep(qs, [], qs, r, mid);
    assert [] + [r] == [r];
    var b;
    F, b := Completable(qs, [r], mid);
    out := Folded(F[0], Front(F)).File();
  }

  // No queue ends with a greater key than queue t.
  ghost predicate LongestLasting(a: seq<seq<Rec>>, t: nat) {
    && t < |a| && a[t] != []
    && forall i :: 0 <= i < |a| && a[i] != [] ==> AtMost(Last(a[i]).hash, Last(a[t]).hash)
  }

  // Some queue on top other than t, or t itself if it has more than one record or the
  // other queues are empty.
  lemma Spare(a: seq<seq<Rec>>, t: nat) returns (u: nat)
    requires AllSorted(a) && LongestLasting(a, t)
    ensures IsTop(a, u)
    ensures u == t ==> |a[t]| > 1 || forall i :: 0 <= i < |a| && i != t ==> a[i] == []
  {
    u := TopExists(a);
    if u == t && |a[t]| == 1 && exists i :: 0 <= i < |a| && i != t && a[i] != [] {
      var i :| 0 <= i < |a| && i != t && a[i] != [];
      assert AtMost(a[i][0].hash, Last(a[i]).hash);
      u := i;
    }
  }

  lemma {:induction false} RunToEnd(a: seq<seq<Rec>>, t: nat) returns (F: seq<Rec>, b: seq<seq<Rec>>)
    requires AllSorted(a) && LongestLasting(a, t)
    ensures F != [] && Last(F) == Last(a[t]) && Drained(b) && Run(a, F, b)
    decreases TotalLength(a)
  {
    var u := Spare(a, t);
    var r, mid := a[u][0], a[u := a[u][1..]];
    assert Step(a, r, mid);
    StepConserves(a, r, mid, Each());
    if u == t && |a[t]| == 1 {
      F, b := [r], mid;
      RunStep(a, [], a, r, mid);
      assert [] + [r] == [r];
    } else {
      var G;
      G, b := RunToEnd(mid, t);
      RunCons(a, r, mid, G, b);
      F := [r] + G;
    }
  }

  // Every input with the greatest last key can be the one exhausted last.
  lemma EndWith(files: seq<seq<Rec>>, t: nat) returns (F: seq<Rec>, out: seq<Rec>)
    requires AllSorted(files) && GreatestLast(files, t)
    ensures FullMerge(files, F, out) && EndsWith(files, F, t)
  {
    var qs := AllDeliveries(files);
    DeliveriesSorted(files);
    var b;
    F, b := RunToEnd(qs, t);
    out := Folded(F[0], Front(F)).File();
  }

  // --- the condition on the inputs ---

  // No merge of the files writes a count that has wrapped around.
  ghost predicate NeverWraps(files: seq<seq<Rec>>) {
    forall F, out, L, h :: FullMerge(files, F, out) && EndsWith(files, F, L) ==>
      InflatedSum(files, F[0], L, h) < TWO32
  }

  // That is sure if the true sums stay below a third of the limit.
  lemma ThirdSuffices(files: seq<seq<Rec>>)
    requires forall h :: 3 * TrueSum(files, h) < TWO32
    ensures NeverWraps(files)
  {
    forall F, out, L: nat, h | FullMerge(files, F, out) && EndsWith(files, F, L)
      ensures InflatedSum(files, F[0], L, h) < TWO32
    {
      CopiesBound(files, F, out, L, h);
    }
  }

  ghost predicate OnlyGreatest(files: seq<seq<Rec>>, t: nat) {
    GreatestLast(files, t) && forall i :: 0 <= i < |files| && i != t ==> !GreatestLast(files, i)
  }

  // Whatever input may come first starts with count 0, and all last records count 0
  // but that of the only input with the greatest last key, if there is just one.
  ghost predicate NothingToAdd(files: seq<seq<Rec>>) {
    && (forall t :: 0 <= t < |files| && SmallestFirst(files, t) ==> Deliveries(files[t])[0].count == 0)
    && (forall t :: 0 <= t < |files| && !OnlyGreatest(files, t) ==> LastRec(files[t]).count == 0)
  }

  lemma {:induction false} GreatestExists(files: seq<seq<Rec>>) returns (t: nat)
    requires files != []
    ensures GreatestLast(files, t)
  {
    if |files| == 1 {
      t := 0;
    } else {
      var u := GreatestExists(Front(files));
      var n := |files| - 1;
      assert forall i :: 0 <= i < n ==> Front(files)[i] == files[i];
      t := if AtMost(LastRec(files[n]).hash, LastRec(files[u]).hash) then u else n;
    }
  }

  // All merges of the files write true sums exactly if there is nothing to add.
  lemma ConservesIff(files: seq<seq<Rec>>)
    requires AllSorted(files) && NeverWraps(files)
    ensures (forall F, out :: FullMerge(files, F, out) ==> Conserves(files, out)) <==> NothingToAdd(files)
  {
    if NothingToAdd(files) {
      forall F, out | FullMerge(files, F, out) ensures Conserves(files, out) {
        NothingAdded(files, F, out);
      }
    }
    if forall F, out :: FullMerge(files, F, out) ==> Conserves(files, out) {
      forall t | 0 <= t < |files| && SmallestFirst(files, t) ensures Deliveries(files[t])[0].count == 0 {
        var F, out := StartWith(files, t);
        var L := MergeCounts(files, F, out);
        RunConservesIff(files, F, out, L);
      }
      forall t | 0 <= t < |files| && !OnlyGreatest(files, t) ensures LastRec(files[t]).count == 0 {
        LastAdded(files, t);
      }
    }
  }

  lemma NothingAdded(files: seq<seq<Rec>>, F: seq<Rec>, out: seq<Rec>)
    requires AllSorted(files) && NeverWraps(files) && NothingToAdd(files) && FullMerge(files, F, out)
    ensures Conserves(files, out)
  {
    var L := MergeCounts(files, F, out);
    var t := SeedIsFirst(files, F, out);
    assert SmallestFirst(files, t);
    RunConservesIff(files, F, out, L);
  }

  lemma LastAdded(files: seq<seq<Rec>>, t: nat)
    requires AllSorted(files) && NeverWraps(files) && t < |files| && !OnlyGreatest(files, t)
    requires forall F, out :: FullMerge(files, F, out) ==> Conserves(files, out)
    ensures LastRec(files[t]).count == 0
  {
    var u;
    if GreatestLast(files, t) {
      u :| 0 <= u < |files| && u != t && GreatestLast(files, u);
    } else {
      u := GreatestExists(files);
    }
    var F, out := EndWith(files, u);
    RunConservesIff(files, F, out, u);
  }
}
