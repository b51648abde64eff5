// What a merge that has been cancelled leaves behind, and the two ways in which a merge
// may end.
module MergeCancel {
  import opened Records
  import opened MergeFold
  import opened MergeLaw

  // What a merge stopped after handing out E leaves in the file: the keys of E without
  // the greatest, whose record is still being summed up; each with the sum of its counts
  // and, for the first one, those of the first record once more.
  ghost predicate IsCancelledFile(E: seq<Rec>, file: seq<Rec>) {
    if E == [] then file == []
    else
      && Sorted(E) && StrictlySorted(file)
      && KeySet(file) == KeySet(E) - {Last(E).hash}
      && forall r :: r in file ==> r.count == KeySum([E[0]] + E, r.hash) % TWO32
  }

  lemma CancelledFile(files: seq<seq<Rec>>, E: seq<Rec>, left: seq<seq<Rec>>, seed: Rec, f: Fold)
    requires AllSorted(files) && Progress(AllDeliveries(files), E, left, seed, f)
    ensures IsCancelledFile(E, f.dumped)
  {
    if E != [] {
      DeliveriesSorted(files);
      RunOrder(AllDeliveries(files), E, left);
      TwiceFirst(E);
      FoldInvariant(seed, E);
      assert ([seed] + E)[|E|] == Last(E);
      assert KeySet([seed] + E) == KeySet(E) by {
        assert E[0] in E;
      }
      DumpedKeys(f);
    }
  }

  lemma TwiceFirst(E: seq<Rec>)
    requires E != [] && Sorted(E)
    ensures Sorted([E[0]] + E)
  {
    var s := [E[0]] + E;
    forall i, j | 0 <= i < j < |s| ensures AtMost(s[i].hash, s[j].hash) {
      if i > 0 { assert s[i] == E[i - 1]; }
    }
  }

  lemma DumpedKeys(f: Fold)
    requires StrictlySorted(f.File())
    ensures StrictlySorted(f.dumped) && KeySet(f.dumped) == KeySet(f.File()) - {f.current.hash}
    ensures forall r :: r in f.dumped ==> exists i :: 0 <= i < |f.dumped| && f.File()[i] == r
  {
    var file := f.File();
    assert forall r :: r in file <==> r in f.dumped || r == f.current;
    forall r | r in f.dumped ensures r.hash != f.current.hash {
      var i :| 0 <= i < |f.dumped| && f.dumped[i] == r;
      assert file[i] == r && file[|f.dumped|] == f.current;
    }
    forall i, j | 0 <= i < j < |f.dumped| ensures Less(f.dumped[i].hash, f.dumped[j].hash) {
      assert file[i] == f.dumped[i] && file[j] == f.dumped[j];
    }
  }

  // After |E| calls, as many records are left as there are calls to come.
  lemma CallsLeft(files: seq<seq<Rec>>, E: seq<Rec>, left: seq<seq<Rec>>)
    requires Run(AllDeliveries(files), E, left)
    ensures |E| + TotalLength(left) == WeighAll(files, Each()) + |files|
  {
    RunConserves(AllDeliveries(files), E, left, Each());
    WeighEach(E);
    DeliveriesWeigh(files, Each());
    ExtrasEach(files);
  }

  lemma {:induction false} NothingLeftIff(qs: seq<seq<Rec>>)
    ensures TotalLength(qs) == 0 <==> Drained(qs)
  {
    if qs != [] {
      var front := qs[..|qs| - 1];
      NothingLeftIff(front);
      WeighEach(Last(qs));
      assert Drained(qs) <==> Drained(front) && Last(qs) == [] by {
        assert forall i :: 0 <= i < |front| ==> front[i] == qs[i];
      }
    }
  }

  // Both ways in which the loop may end: the queues are drained by one last call
  // that drops its record, or the merge has been cancelled.
  lemma MergeOutcome(files: seq<seq<Rec>>, E: seq<Rec>, left: seq<seq<Rec>>, seed: Rec, f: Fold,
                     last: Rec, end: seq<seq<Rec>>)
    returns (F: seq<Rec>, out: seq<Rec>)
    requires Progress(AllDeliveries(files), E, left, seed, f)
    requires if Drained(end) then Step(left, last, end) && (E == [] ==> last == seed) else left == end
    ensures FullMerge(files, F, out)
    ensures var calls := WeighAll(files, Each()) + |files|;
            if Drained(end) then calls == |E| + 1 else calls > |E|
    ensures !Drained(end) && AllSorted(files) ==> IsCancelledFile(E, f.dumped)
    ensures if Drained(end) then out == f.File() && |F| == |E| + 1 else f.dumped <= out
  {
    assert |E| + TotalLength(left) == WeighAll(files, Each()) + |files| by { CallsLeft(files, E, left); }
    if Drained(end) {
      ProgressEnd(files, E, left, seed, f, last, end);
      StepConserves(left, last, end, Each());
      NothingLeftIff(end);
      F, out := E + [last], f.File();
    } else {
      F, out := CancelledPrefix(files, E, left, seed, f);
      NothingLeftIff(left);
      if AllSorted(files) { CancelledFile(files, E, left, seed, f); }
    }
  }
}
