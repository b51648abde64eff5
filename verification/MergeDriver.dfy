// pwned-merger-cli's main loop: merges at most k files at a time, feeding
// intermediate files back into the list, until one merge takes all that is left.
module MergeDriver {
  import opened Records
  import opened MergeFold
  import opened MergeLaw
  import opened MergeRounds
  import MO = MergeOperation

  // --- how many rounds ---

  // The length of the list of input files after one round.
  function FilesLeft(n: nat, k: nat): nat {
    if n <= k then 0 else n - k + 1
  }

  ghost function FilesAfter(n: nat, k: nat, rounds: nat): nat {
    if rounds == 0 then n else FilesLeft(FilesAfter(n, k, rounds - 1), k)
  }

  ghost predicate Terminates(n: nat, k: nat) {
    exists rounds :: FilesAfter(n, k, rounds) == 0
  }

  ghost function Rounds(n: nat, k: nat): nat
    requires n == 0 || k >= 2 || n <= k
  {
    if n == 0 then 0 else if n <= k then 1 else 1 + Rounds(n - k + 1, k)
  }

  lemma {:induction false} FilesAfterShift(n: nat, k: nat, rounds: nat)
    ensures FilesAfter(n, k, rounds + 1) == FilesAfter(FilesLeft(n, k), k, rounds)
  {
    if rounds > 0 { FilesAfterShift(n, k, rounds - 1); }
  }

  lemma {:induction false} RoundsSuffice(n: nat, k: nat)
    requires n == 0 || k >= 2 || n <= k
    ensures FilesAfter(n, k, Rounds(n, k)) == 0
    ensures forall m: nat :: m < Rounds(n, k) ==> FilesAfter(n, k, m) > 0
    decreases n
  {
    if n > k {
      RoundsSuffice(n - k + 1, k);
      FilesAfterShift(n, k, Rounds(n - k + 1, k));
      forall m: nat | m < Rounds(n, k) ensures FilesAfter(n, k, m) > 0 {
        if m > 0 {
          FilesAfterShift(n, k, m - 1);
          assert FilesAfter(n - k + 1, k, m - 1) > 0;
        }
      }
    } else if n > 0 {
      assert FilesAfter(n, k, 0) == n;
      assert FilesAfter(n, k, 1) == 0;
    }
  }

  lemma {:induction false} StaysAbove(n: nat, k: nat, rounds: nat)
    requires n > k && k < 2
    ensures FilesAfter(n, k, rounds) > k
  {
    if rounds > 0 { StaysAbove(n, k, rounds - 1); }
  }

  // The loop ends unless it may take at most one file at a time and that is not
  // all there is.
  lemma TerminatesIff(n: nat, k: nat)
    ensures Terminates(n, k) <==> n == 0 || k >= 2 || n <= k
  {
    if n == 0 || k >= 2 || n <= k {
      RoundsSuffice(n, k);
    } else {
      forall rounds ensures FilesAfter(n, k, rounds) != 0 { StaysAbove(n, k, rounds); }
    }
  }

  // The number of merges is (n - 1) / (k - 1), rounded up, but at least one.
  lemma {:induction false} RoundsClosedForm(n: nat, k: nat)
    requires n >= 1 && k >= 2
    ensures var m := Rounds(n, k);
            if n == 1 then m == 1 else (m - 1) * (k - 1) < n - 1 <= m * (k - 1)
    decreases n
  {
    if n > k {
      RoundsClosedForm(n - k + 1, k);
      var m := Rounds(n - k + 1, k);
      assert (m - 1) * (k - 1) + (k - 1) == m * (k - 1);
      assert m * (k - 1) + (k - 1) == (m + 1) * (k - 1);
    }
  }

  // --- the files by number ---

  function Upto(n: nat): (s: seq<nat>)
    ensures |s| == n
  {
    seq(n, i requires 0 <= i < n => i)
  }

  // The paths still to be read are the ones created last.
  ghost predicate Pending(fs: seq<seq<Rec>>, consumed: seq<nat>, inputFiles: seq<nat>, pool: seq<seq<Rec>>) {
    && consumed + inputFiles == Upto(|fs|)
    && |pool| == |inputFiles|
    && forall i :: 0 <= i < |inputFiles| ==> inputFiles[i] < |fs| && pool[i] == fs[inputFiles[i]]
  }

  lemma RoundPending(fs: seq<seq<Rec>>, consumed: seq<nat>, inputFiles: seq<nat>, pool: seq<seq<Rec>>,
                     b: nat, out: seq<Rec>)
    requires Pending(fs, consumed, inputFiles, pool) && b <= |inputFiles|
    ensures Pending(fs + [out], consumed + inputFiles[..b], inputFiles[b..] + [|fs|], pool[b..] + [out])
    ensures b == |inputFiles| ==> consumed + inputFiles[..b] == Upto(|fs|)
  {
    assert (consumed + inputFiles[..b]) + (inputFiles[b..] + [|fs|]) == consumed + inputFiles + [|fs|];
  }

  // Merges the given files into one.
  method MergeSlice(fs: seq<seq<Rec>>, inputFileSlice: seq<nat>, ghost slice: seq<seq<Rec>>)
    returns (out: seq<Rec>, ghost F: seq<Rec>)
    requires inputFileSlice != [] && |slice| == |inputFileSlice|
    requires forall i :: 0 <= i < |slice| ==> inputFileSlice[i] < |fs| && slice[i] == fs[inputFileSlice[i]]
    ensures FullMerge(slice, F, out)
  {
    var files := seq(|inputFileSlice|, i requires 0 <= i < |inputFileSlice| => fs[inputFileSlice[i]]);
    assert files == slice;
    var op := new MO.MergeOperation(files);
    var cancelled;
    ghost var file, E;
    cancelled, F, file, E := op.Execute(false, None);
    out := op.dstFile.value;
  }

  // One round: merges the files of the slice, the first ones of the pool.
  method MergeRound(fs: seq<seq<Rec>>, inputFileSlice: seq<nat>, ghost pool: seq<seq<Rec>>, ghost k: nat)
    returns (out: seq<Rec>, ghost r: Round)
    requires inputFileSlice != [] && |inputFileSlice| == Taken(|pool|, k) && AllSorted(pool)
    requires forall i :: 0 <= i < |inputFileSlice| ==> inputFileSlice[i] < |fs| && pool[i] == fs[inputFileSlice[i]]
    ensures r.pool == pool && IsRound(r, k) && r.out == out
  {
    ghost var F;
    out, F := MergeSlice(fs, inputFileSlice, pool[..|inputFileSlice|]);
    ghost var last := MergeCounts(pool[..|inputFileSlice|], F, out);
    r := Round(pool, F, out, last);
  }

  // Where the driver stands: files are known by number, the originals first, then
  // the intermediate files in the order in which they are created.
  ghost predicate DriverInv(originals: seq<seq<Rec>>, k: nat, fs: seq<seq<Rec>>, consumed: seq<nat>,
                            inputFiles: seq<nat>, rounds: seq<Round>, dstFile: seq<Rec>)
  {
    var total := if originals == [] || k >= 2 || |originals| <= k then Rounds(|originals|, k) else 0;
    var pool := PoolAfter(originals, k, rounds);
    && IsChain(originals, k, rounds)
    && if inputFiles == [] then
         && rounds != [] && |rounds| == total && pool == [dstFile]
         && consumed == Upto(|fs|) && |fs| == |originals| + |rounds| - 1
       else
         && (k >= 2 || |inputFiles| <= k) && |rounds| + Rounds(|inputFiles|, k) == total
         && Pending(fs, consumed, inputFiles, pool) && |fs| == |originals| + |rounds|
  }

  lemma DriverStart(originals: seq<seq<Rec>>, k: nat)
    requires originals != [] && (k >= 2 || |originals| <= k)
    ensures DriverInv(originals, k, originals, [], Upto(|originals|), [], [])
  {
  }

  lemma DriverSlice(originals: seq<seq<Rec>>, k: nat, fs: seq<seq<Rec>>, consumed: seq<nat>,
                    inputFiles: seq<nat>, rounds: seq<Round>, dstFile: seq<Rec>)
    requires AllSorted(originals) && DriverInv(originals, k, fs, consumed, inputFiles, rounds, dstFile)
    requires inputFiles != []
    ensures var pool := PoolAfter(originals, k, rounds);
            && AllSorted(pool) && |pool| == |inputFiles|
            && 0 < Taken(|pool|, k) && (Taken(|pool|, k) < |pool| ==> k >= 2)
            && forall i :: 0 <= i < |inputFiles| ==> inputFiles[i] < |fs| && pool[i] == fs[inputFiles[i]]
  {
    ChainKeys(originals, k, rounds);
  }

  lemma DriverRound(originals: seq<seq<Rec>>, k: nat, fs: seq<seq<Rec>>, consumed: seq<nat>,
                    inputFiles: seq<nat>, rounds: seq<Round>, dstFile: seq<Rec>, r: Round)
    requires DriverInv(originals, k, fs, consumed, inputFiles, rounds, dstFile) && inputFiles != []
    requires r.pool == PoolAfter(originals, k, rounds) && IsRound(r, k)
    ensures var b := Taken(|inputFiles|, k);
            if b == |inputFiles|
            then DriverInv(originals, k, fs, consumed + inputFiles[..b], [], rounds + [r], r.out)
            else DriverInv(originals, k, fs + [r.out], consumed + inputFiles[..b],
                           inputFiles[b..] + [|fs|], rounds + [r], dstFile)
  {
    var b := Taken(|inputFiles|, k);
    ChainSnoc(originals, k, rounds, r);
    RoundPending(fs, consumed, inputFiles, r.pool, b, r.out);
    if b == |inputFiles| { assert r.pool[b..] + [r.out] == [r.out]; }
  }

  // One pass through the loop.
  method DriverStep(ghost originals: seq<seq<Rec>>, maxFilesAtOnce: nat, fs: seq<seq<Rec>>, inputFiles: seq<nat>,
                    dstFile: seq<Rec>, ghost consumed: seq<nat>, ghost rounds: seq<Round>)
    returns (fs': seq<seq<Rec>>, inputFiles': seq<nat>, dstFile': seq<Rec>, ghost consumed': seq<nat>, ghost r: Round)
    requires AllSorted(originals) && inputFiles != []
    requires DriverInv(originals, maxFilesAtOnce, fs, consumed, inputFiles, rounds, dstFile)
    ensures DriverInv(originals, maxFilesAtOnce, fs', consumed', inputFiles', rounds + [r], dstFile')
    ensures |inputFiles'| < |inputFiles|
  {
    var b := Taken(|inputFiles|, maxFilesAtOnce);
    var inputFileSlice := inputFiles[..b];
    var isLastChunk := |inputFileSlice| == |inputFiles|;
    DriverSlice(originals, maxFilesAtOnce, fs, consumed, inputFiles, rounds, dstFile);
    var out;
    out, r := MergeRound(fs, inputFileSlice, PoolAfter(originals, maxFilesAtOnce, rounds), maxFilesAtOnce);
    DriverRound(originals, maxFilesAtOnce, fs, consumed, inputFiles, rounds, dstFile, r);
    consumed' := consumed + inputFileSlice;
    if isLastChunk {
      fs', inputFiles', dstFile' := fs, [], out;
    } else {
      var path: nat := |fs|;
      fs', inputFiles', dstFile' := fs + [out], inputFiles[b..] + [path], dstFile;
    }
  }

  // consumed records which files the merges have read, in order.
  method MergeAll(originals: seq<seq<Rec>>, maxFilesAtOnce: nat)
    returns (dstFile: seq<Rec>, merges: nat, ghost consumed: seq<nat>, ghost rounds: seq<Round>)
    requires originals != [] && AllSorted(originals)
    requires Terminates(|originals|, maxFilesAtOnce)
    ensures IsMerge(originals, maxFilesAtOnce, rounds, dstFile)
    ensures maxFilesAtOnce >= 2 || |originals| <= maxFilesAtOnce
    ensures StrictlySorted(dstFile) && KeySet(dstFile) == AllKeys(originals)
    ensures merges == Rounds(|originals|, maxFilesAtOnce) == |rounds|
    ensures consumed == Upto(|originals| + merges - 1)
  {
    TerminatesIff(|originals|, maxFilesAtOnce);
    var fs := originals;
    var inputFiles := Upto(|originals|);
    merges, dstFile, consumed, rounds := 0, [], [], [];
    DriverStart(originals, maxFilesAtOnce);
    while |inputFiles| > 0
      invariant DriverInv(originals, maxFilesAtOnce, fs, consumed, inputFiles, rounds, dstFile)
      invariant merges == |rounds|
      decreases |inputFiles|
    {
      ghost var r;
      fs, inputFiles, dstFile, consumed, r :=
        DriverStep(originals, maxFilesAtOnce, fs, inputFiles, dstFile, consumed, rounds);
      rounds := rounds + [r];
      merges := merges + 1;
    }
    FinalKeys(originals, maxFilesAtOnce, rounds, dstFile);
  }
}
