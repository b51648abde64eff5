// The k-way merge as the program runs it: cursors over the input files, a
// priority queue of cursors, and the loop that writes the merged file.
module MergeOperation {
  import opened Records
  import opened MergeFold
  import opened MergeLaw
  import opened MergeCancel

  // One input file and the record read from it last.
  class MergerInput {
    const records: seq<Rec>
    var pos: nat
    var phc: Rec
    var isValid: bool
    // Its place among the inputs of the merge.
    ghost const number: nat
    // What this input is still going to deliver.
    ghost var pending: seq<Rec>

    ghost predicate Valid()
      reads this
    {
      && pos <= |records|
      && (isValid ==> pos > 0 && pending == Deliveries(records)[pos - 1..])
      && (!isValid ==> pos == |records| && pending == [LastRec(records)])
      && phc == pending[0]
    }

    // Constructs the cursor and opens the file, which reads the first record.
    constructor (file: seq<Rec>, ghost n: nat)
      ensures Valid() && records == file && number == n && pending == Deliveries(file)
    {
      records, number := file, n;
      pos, phc, isValid := 0, EMPTY_REC, false;
      pending := Deliveries(file);
      new;
      Fetch();
    }

    // Past the end of the file the record keeps its old value.
    method Fetch()
      requires pos <= |records|
      modifies this`pos, this`phc, this`isValid
      ensures isValid <==> old(pos) < |records|
      ensures if isValid then pos == old(pos) + 1 && phc == records[old(pos)]
              else pos == old(pos) && phc == old(phc)
    {
      if pos < |records| {
        phc := records[pos];
        pos := pos + 1;
        isValid := true;
      } else {
        isValid := false;
      }
    }

    // Moves on to the next delivery.
    method Read()
      requires Valid() && isValid
      modifies this
      ensures Valid() && pending == old(pending)[1..]
      ensures !isValid ==> phc == old(phc)
    {
      Fetch();
      pending := pending[1..];
    }
  }

  method OpenAll(srcFiles: seq<seq<Rec>>) returns (mis: seq<MergerInput>)
    ensures |mis| == |srcFiles| && fresh(mis)
    ensures forall i :: 0 <= i < |mis| ==> mis[i].number == i && mis[i].Valid() && mis[i].pending == Deliveries(srcFiles[i])
  {
    mis := [];
    for n := 0 to |srcFiles|
      invariant |mis| == n && fresh(mis)
      invariant forall i :: 0 <= i < n ==> mis[i].number == i && mis[i].Valid() && mis[i].pending == Deliveries(srcFiles[i])
    {
      var mi := new MergerInput(srcFiles[n], n);
      mis := mis + [mi];
    }
  }

  class MergeOperation {
    const inputs: seq<MergerInput>
    ghost const files: seq<seq<Rec>>
    // The priority queue: the inputs in it, by number, and which of those with
    // the smallest hash is on top.
    var pq: set<nat>
    var top: nat
    var dstFile: Option<seq<Rec>>
    var entriesProcessed: nat
    // What each input in the queue is still going to deliver.
    ghost var queues: seq<seq<Rec>>

    ghost predicate Consistent()
      reads this`pq, this`queues, inputs
    {
      && |queues| == |inputs| == |files|
      && (forall i :: i in pq ==> i < |inputs|)
      && forall i :: 0 <= i < |inputs| ==> HoldsInput(i)
    }

    ghost predicate HoldsInput(i: nat)
      reads this`pq, this`queues, inputs
      requires i < |inputs| == |queues|
    {
      && inputs[i].number == i
      && if i in pq then queues[i] == inputs[i].pending && inputs[i].Valid() else queues[i] == []
    }

    ghost predicate Valid()
      reads this`pq, this`queues, this`top, inputs
    {
      && Consistent()
      && (pq != {} ==> top in pq && IsTop(queues, top))
    }

    constructor (srcFiles: seq<seq<Rec>>)
      ensures Valid() && fresh(inputs) && files == srcFiles
      ensures queues == AllDeliveries(srcFiles) && dstFile == None && entriesProcessed == 0
    {
      files := srcFiles;
      var mis := OpenAll(srcFiles);
      inputs := mis;
      var members: set<nat> := {};
      for n := 0 to |srcFiles|
        invariant forall i :: i in members <==> 0 <= i < n
      {
        members := members + {n};
      }
      pq, top, dstFile, entriesProcessed := members, 0, None, 0;
      queues := AllDeliveries(srcFiles);
      new;
      if pq != {} { Restore(); }
    }

    lemma HeadsAgree()
      requires Consistent()
      ensures forall i :: i in pq ==> queues[i] != [] && queues[i][0] == inputs[i].phc
      ensures forall i: nat :: i in pq <==> i < |queues| && queues[i] != []
    {
      forall i: nat
        ensures i in pq <==> i < |queues| && queues[i] != []
        ensures i in pq ==> queues[i][0] == inputs[i].phc
      {
        if i < |inputs| { assert HoldsInput(i); }
      }
    }

    lemma DrainedIff()
      requires Valid()
      ensures Drained(queues) <==> pq == {}
    {
      HeadsAgree();
    }

    // The queue orders itself again after a push or a pop; which of several
    // smallest inputs comes out on top is not determined.
    method Restore()
      requires pq != {} && Consistent()
      modifies this`top
      ensures Valid()
    {
      HeadsAgree();
      SmallestExists(queues, pq);
      var t :| t in pq && forall i :: i in pq ==> AtMost(inputs[t].phc.hash, inputs[i].phc.hash);
      assert IsTop(queues, t);
      top := t;
    }

    // The call that empties the queue returns a default record instead of the
    // one on top.
    method Next() returns (result: Rec)
      requires Valid()
      modifies this`pq, this`top, this`queues, inputs
      ensures Valid()
      ensures old(pq) == {} ==> result == EMPTY_REC && pq == {} && queues == old(queues)
      ensures old(pq) != {} ==> queues == old(queues)[old(top) := old(queues)[old(top)][1..]]
      ensures result == if pq == {} then EMPTY_REC else old(queues)[old(top)][0]
    {
      result := EMPTY_REC;
      if pq != {} {
        HeadsAgree();
        var mergerInput := inputs[top];
        assert HoldsInput(top);
        result := mergerInput.phc;
        if mergerInput.isValid {
          mergerInput.Read();
          queues := queues[top := queues[top][1..]];
          forall i | 0 <= i < |inputs| ensures HoldsInput(i) { assert old(HoldsInput(i)); }
          if mergerInput.isValid {
            Restore();
          }
        } else {
          pq := pq - {top};
          assert queues[top] == mergerInput.pending && |mergerInput.pending| == 1;
          queues := queues[top := queues[top][1..]];
          forall i | 0 <= i < |inputs| ensures HoldsInput(i) { assert old(HoldsInput(i)); }
          if pq != {} {
            Restore();
          } else {
            result := EMPTY_REC;
          }
        }
      }
    }

    // Equal keys are added up in current; a new key sends current to the file.
    method Combine(dumped: seq<Rec>, current: Rec, p: Rec) returns (dumped': seq<Rec>, current': Rec)
      ensures Fold(dumped', current') == Absorb(Fold(dumped, current), p)
    {
      dumped', current' := dumped, current;
      if current.hash == p.hash {
        current' := Rec(current.hash, (current.count + p.count) % TWO32);
      } else {
        dumped' := dumped + [current];
        current' := p;
      }
    }

    // The loop of Execute(): hands out records until the queue is empty or the
    // merge is cancelled. F is what has been summed up, left is what the queues
    // held then, and last is the record that the call emptying the queue dropped.
    method MergeLoop(seed: Rec, cancelAt: Option<nat>)
      returns (processed: nat, dumped: seq<Rec>, current: Rec,
               ghost F: seq<Rec>, ghost left: seq<seq<Rec>>, ghost last: Rec)
      requires Valid() && pq != {} && queues[top][0] == seed
      modifies this`pq, this`top, this`queues, inputs
      ensures Valid() && processed == |F|
      ensures Progress(old(queues), F, left, seed, Fold(dumped, current))
      ensures pq != {} ==> cancelAt == Some(|F|) && left == queues
      ensures pq == {} && cancelAt.Some? ==> |F| < cancelAt.value
      ensures pq == {} ==> Step(left, last, queues) && (F == [] ==> last == seed)
    {
      processed, dumped, current, F, left, last := 0, [], seed, [], queues, seed;
      ghost var qs := queues;
      ProgressStart(queues, top);
      var iteration: nat := 0;
      while !(cancelAt.Some? && iteration >= cancelAt.value)
        invariant Valid() && pq != {} && left == queues && processed == |F|
        invariant Progress(qs, F, left, seed, Fold(dumped, current))
        invariant F == [] ==> queues[top][0] == seed
        invariant iteration == |F| && (cancelAt.Some? ==> iteration <= cancelAt.value)
        decreases TotalLength(queues)
      {
        last := queues[top][0];
        ProgressStep(qs, F, left, seed, Fold(dumped, current), top);
        var p := Next();
        if pq == {} {
          return;
        }
        left := queues;
        processed := processed + 1;
        dumped, current := Combine(dumped, current, p);
        F := F + [p];
        iteration := iteration + 1;
      }
    }

    // The number of calls of Next() that it takes to empty the queue.
    ghost function Calls(): nat {
      WeighAll(files, Each()) + |files|
    }

    // Merges all inputs into the destination file. isCancelled says whether the merge was
    // cancelled before it started, cancelAt the iteration at which a later cancellation
    // becomes visible, if there is one. A cancelled merge has handed out E.
    method Execute(isCancelled: bool, cancelAt: Option<nat>)
      returns (cancelled: bool, ghost F: seq<Rec>, ghost out: seq<Rec>, ghost E: seq<Rec>)
      requires Valid() && queues == AllDeliveries(files) && dstFile == None && entriesProcessed == 0
      modifies this, inputs
      ensures isCancelled || files == [] ==> dstFile == None && entriesProcessed == 0 && queues == old(queues)
      ensures !isCancelled && files != [] ==> dstFile.Some? && FullMerge(files, F, out)
      ensures cancelled <==> isCancelled || (files != [] && cancelAt.Some? && cancelAt.value < Calls())
      ensures !cancelled && files != [] ==> dstFile.value == out && entriesProcessed == |F| - 1
      ensures cancelled && !isCancelled ==> Run(AllDeliveries(files), E, queues) && dstFile.value <= out
      ensures cancelled && !isCancelled ==> |E| == cancelAt.value == entriesProcessed
      ensures cancelled && !isCancelled && AllSorted(files) ==> IsCancelledFile(E, dstFile.value)
    {
      cancelled, F, out, E := isCancelled, [], [], [];
      if isCancelled {
        return;
      }
      DrainedIff();
      HeadsAgree();
      assert files != [] ==> queues[0] != [];
      if pq == {} {
        return;
      }
      var seed := inputs[top].phc;
      var processed, dumped, current;
      ghost var left, last;
      processed, dumped, current, E, left, last := MergeLoop(seed, cancelAt);
      DrainedIff();
      F, out := MergeOutcome(files, E, left, seed, Fold(dumped, current), last, queues);
      cancelled := pq != {};
      dstFile := Some(if cancelled then dumped else dumped + [current]);
      entriesProcessed := processed;
    }
  }
}
