// PasswordInspector: looking a hash up in the sorted data file, with or without
// an index.
module Inspector {
  import opened Records
  import opened Index
  import opened IndexScan
  import IndexShift

  // File offsets are signed 64-bit numbers.
  const MAX_OFFSET := TWO64 / 2

  // std::streamoff((uint64_t(lo) + uint64_t(hi)) / 2), rounded down to a record
  function MidRecord(lo: nat, hi: nat): nat {
    var pos := (lo + hi) % TWO64 / 2;
    pos - pos % RECORD_SIZE
  }

  lemma MidRecordIsAligned(l: nat, u: nat)
    requires RECORD_SIZE * l < MAX_OFFSET && RECORD_SIZE * u < MAX_OFFSET
    ensures MidRecord(RECORD_SIZE * l, RECORD_SIZE * u) == RECORD_SIZE * ((l + u) / 2)
  {
    var sum := RECORD_SIZE * (l + u);
    assert sum % TWO64 == sum;
    RoundHalf(l + u);
  }

  lemma RoundHalf(n: nat)
    ensures var pos := RECORD_SIZE * n / 2; pos - pos % RECORD_SIZE == RECORD_SIZE * (n / 2)
  {
    assert n == 2 * (n / 2) + n % 2;
    assert RECORD_SIZE * n / 2 == RECORD_SIZE * (n / 2) + RECORD_SIZE / 2 * (n % 2);
  }

  // Where h can be: not before record l, not behind record u.
  ghost predicate Bracket(data: seq<Rec>, h: Hash, l: int, u: int) {
    && 0 <= l <= |data| + 1 && -1 <= u <= |data|
    && (forall i :: 0 <= i < l && i < |data| ==> Less(data[i].hash, h))
    && (forall i :: u < i < |data| ==> Less(h, data[i].hash))
  }

  ghost predicate Exceeds(h: Hash, data: seq<Rec>) {
    forall i :: 0 <= i < |data| ==> Less(data[i].hash, h)
  }

  lemma BracketEmpty(data: seq<Rec>, h: Hash, l: int, u: int)
    requires Bracket(data, h, l, u) && l > u
    ensures LinearScan(data, h) == 0
  {
    assert forall i :: 0 <= i < |data| ==> data[i].hash != h;
    LinearScanMisses(data, h);
  }

  // Reading record mid moves one end of the bracket past it.
  lemma BracketMoves(data: seq<Rec>, h: Hash, l: int, u: int, mid: nat)
    requires StrictlySorted(data) && Bracket(data, h, l, u) && l <= mid <= u && mid < |data|
    ensures Less(data[mid].hash, h) ==> Bracket(data, h, mid + 1, u)
    ensures Less(h, data[mid].hash) ==> Bracket(data, h, l, mid - 1)
    ensures data[mid].hash == h ==> LinearScan(data, h) == data[mid].count
  {
    if data[mid].hash == h { LinearScanFinds(data, mid); }
  }

  // The part of the search range that is left after r nReads.
  ghost predicate Halved(total: nat, l: int, u: int, r: nat) {
    && (r >= 1 ==> Pow2(r - 1) <= total)
    && (l <= u ==> Pow2(r) * (u - l + 1) <= total)
  }

  lemma HalvedMoves(total: nat, l: int, u: int, r: nat, l': int, u': int)
    requires Halved(total, l, u, r) && l <= u
    requires 2 * (u' - l' + 1) <= u - l + 1
    ensures Halved(total, l', u', r + 1)
  {
    Pow2Positive(r);
    ScaleGrows(1, u - l + 1, Pow2(r));
    if l' <= u' {
      ScaleGrows(2 * (u' - l' + 1), u - l + 1, Pow2(r));
      ScaleDouble(Pow2(r), u' - l' + 1);
    }
  }

  lemma ScaleGrows(a: nat, b: nat, p: nat)
    requires a <= b
    ensures p * a <= p * b
  {
  }

  lemma ScaleDouble(p: nat, a: nat)
    ensures (2 * p) * a == p * (2 * a)
  {
  }

  // Where the binary search stands after n reads; was and now say whether the data
  // stream had failed before the search and has failed by now.
  ghost predicate SearchInv(data: seq<Rec>, h: Hash, was: bool, now: bool, phc: Rec, l: int, u: int, n: nat) {
    && 0 <= l <= |data| + 1 && -1 <= u <= |data|
    && if was then now && phc == EMPTY_REC else
         && Bracket(data, h, l, u)
         && (u < |data| ==> !Exceeds(h, data))
         && (n == 0 ==> phc == EMPTY_REC && !now && l <= u && (data == [] || l < |data|))
         && (n > 0 && l <= u ==> phc in data && !now)
         && (if now then Exceeds(h, data) else l <= |data|)
  }

  ghost predicate SearchDone(data: seq<Rec>, h: Hash, was: bool, now: bool, phc: Rec) {
    && phc.count == (if was then 0 else LinearScan(data, h))
    && (!was && h in KeySet(data) ==> phc in data && phc.hash == h)
    && (now <==> was || Exceeds(h, data))
  }

  lemma SearchStep(data: seq<Rec>, h: Hash, was: bool, now: bool, phc: Rec, l: int, u: int, n: nat,
                   now': bool, phc': Rec)
    requires StrictlySorted(data) && SearchInv(data, h, was, now, phc, l, u, n) && l <= u
    requires var mid := (l + u) / 2;
             now' == (now || mid >= |data|) && phc' == (if now' then phc else data[mid])
    ensures var mid := (l + u) / 2;
            if Less(phc'.hash, h) then SearchInv(data, h, was, now', phc', mid + 1, u, n + 1)
            else if Less(h, phc'.hash) then SearchInv(data, h, was, now', phc', l, mid - 1, n + 1)
            else SearchDone(data, h, was, now', phc')
  {
    var mid := (l + u) / 2;
    if was {
    } else if mid < |data| {
      BracketMoves(data, h, l, u, mid);
      assert data[mid] in data;
    } else {
      assert l == u == |data| && Exceeds(h, data);
      if data != [] {
        var i :| 0 <= i < |data| && data[i] == phc;
        assert Less(phc.hash, h);
      }
    }
  }

  lemma SearchEnd(data: seq<Rec>, h: Hash, was: bool, now: bool, phc: Rec, l: int, u: int, n: nat)
    requires SearchInv(data, h, was, now, phc, l, u, n) && l > u
    ensures SearchDone(data, h, was, now, phc.(count := 0))
  {
    if !was {
      BracketEmpty(data, h, l, u);
      assert forall i :: 0 <= i < |data| ==> data[i].hash != h;
    }
  }

  // --- how the index narrows the search ---

  // The buckets of the first and the last record, as the index has them: an empty
  // file counts as one record with the zero hash.
  function LowBucket(data: seq<Rec>, shift: nat): nat {
    if data == [] then 0 else Bucket(data[0].hash, shift)
  }

  function HighBucket(data: seq<Rec>, shift: nat): nat {
    if data == [] then 0 else Bucket(Last(data).hash, shift)
  }

  lemma StrictSortsBuckets(data: seq<Rec>, shift: nat)
    requires StrictlySorted(data)
    ensures SortedByBucket(data, shift)
  {
    forall i, j | 0 <= i < j < |data|
      ensures Bucket(data[i].hash, shift) <= Bucket(data[j].hash, shift)
    {
      BucketMonotonic(data[i].hash, data[j].hash, shift);
    }
  }

  lemma RecordPopulates(index: seq<U64>, data: seq<Rec>, bits: nat, i: nat)
    requires IsIndex(index, data, bits) && i < |data|
    ensures Populated(index, Bucket(data[i].hash, 64 - bits))
  {
    var j := Bucket(data[i].hash, 64 - bits);
    BucketInRange(data[i].hash, bits);
    assert IsSlot(data, 64 - bits, j, index[j]);
  }

  lemma PopulatedIff(index: seq<U64>, data: seq<Rec>, bits: nat, b: nat)
    requires IsIndex(index, data, bits) && StrictlySorted(data)
    ensures PopulatedAtOrBelow(index, b) <==> LowBucket(data, 64 - bits) <= b
    ensures PopulatedAbove(index, b) <==> b < HighBucket(data, 64 - bits)
  {
    StrictSortsBuckets(data, 64 - bits);
    if data == [] {
      assert Populated(index, 0);
    } else {
      RecordPopulates(index, data, bits, 0);
      RecordPopulates(index, data, bits, |data| - 1);
      forall j | Populated(index, j)
        ensures LowBucket(data, 64 - bits) <= j <= HighBucket(data, 64 - bits)
      {
        var i := FirstInBucket(index, data, bits, j);
      }
    }
  }

  lemma FirstInBucket(index: seq<U64>, data: seq<Rec>, bits: nat, j: nat) returns (i: nat)
    requires IsIndex(index, data, bits) && data != [] && Populated(index, j)
    ensures IsFirst(data, 64 - bits, j, i) && index[j] == RECORD_SIZE * i
  {
    assert IsSlot(data, 64 - bits, j, index[j]);
    i :| 0 <= i < |data| && IsFirst(data, 64 - bits, j, i) && index[j] == RECORD_SIZE * i;
  }

  // Nothing before the first record of a bucket at or below h's own is h or greater.
  lemma LowerEnd(index: seq<U64>, data: seq<Rec>, bits: nat, h: Hash, j: nat) returns (l: nat)
    requires IsIndex(index, data, bits) && StrictlySorted(data)
    requires Populated(index, j) && j <= Bucket(h, 64 - bits)
    ensures index[j] == RECORD_SIZE * l && Bracket(data, h, l, |data|)
    ensures if data == [] then l == 0 else l < |data| && Bucket(data[l].hash, 64 - bits) == j
  {
    var shift := 64 - bits;
    if data == [] {
      l := 0;
    } else {
      StrictSortsBuckets(data, shift);
      l := FirstInBucket(index, data, bits, j);
      forall k | 0 <= k < l ensures Less(data[k].hash, h) {
        assert Bucket(data[k].hash, shift) < j;
        if AtMost(h, data[k].hash) { BucketMonotonic(h, data[k].hash, shift); }
      }
    }
  }

  // Everything from the first record of a bucket above h's own on is greater than h.
  lemma UpperEnd(index: seq<U64>, data: seq<Rec>, bits: nat, h: Hash, j: nat) returns (u: nat)
    requires IsIndex(index, data, bits) && StrictlySorted(data)
    requires Populated(index, j) && j > Bucket(h, 64 - bits)
    ensures index[j] == RECORD_SIZE * u && u < |data| && Bracket(data, h, 0, u)
    ensures Less(h, data[u].hash) && Bucket(data[u].hash, 64 - bits) == j
  {
    var shift := 64 - bits;
    StrictSortsBuckets(data, shift);
    u := FirstInBucket(index, data, bits, j);
    forall k | u <= k < |data| ensures Less(h, data[k].hash) {
      assert Bucket(data[k].hash, shift) >= j;
      if AtMost(data[k].hash, h) { BucketMonotonic(data[k].hash, h, shift); }
    }
  }

  // Both index loops of a lookup for a hash of bucket b end.
  ghost predicate LoopsEnd(index: seq<U64>, b: nat, fileSize: nat, failed: bool) {
    Ends(index, Down(b, failed), -SLOT_SIZE) && Ends(index, Up(b, fileSize, failed), SLOT_SIZE)
  }

  // The exact condition for that, in terms of the data file.
  lemma LoopsEndIff(index: seq<U64>, data: seq<Rec>, bits: nat, b: nat, fileSize: nat, failed: bool)
    requires IsIndex(index, data, bits) && StrictlySorted(data) && b < |index|
    ensures LoopsEnd(index, b, fileSize, failed) <==>
            || failed
            || (LowBucket(data, 64 - bits) <= b && (b + 1 == |index| || b < HighBucket(data, 64 - bits)))
  {
    DownEndsIff(index, b, failed);
    UpEndsIff(index, b, fileSize, failed);
    PopulatedIff(index, data, bits, b);
  }

  lemma {:induction false} ShrOfProduct(x: nat, n: nat)
    ensures Shr(x * Pow2(n), n) == x
  {
    if n > 0 {
      assert x * Pow2(n) / 2 == x * Pow2(n - 1) by {
        assert x * Pow2(n) == 2 * (x * Pow2(n - 1));
      }
      ShrOfProduct(x, n - 1);
    }
  }

  lemma ScaleStrict(a: nat, b: nat, p: nat)
    requires a < b && p > 0
    ensures a * p < b * p
  {
  }

  // Every slot is the bucket of some hash.
  lemma BucketHasHash(b: nat, bits: nat) returns (h: Hash)
    requires 1 <= bits <= 63 && b < Pow2(bits)
    ensures Bucket(h, 64 - bits) == b
  {
    var shift := 64 - bits;
    Pow2Is64();
    Pow2Add(bits, shift);
    Pow2Positive(shift);
    ScaleStrict(b, Pow2(bits), Pow2(shift));
    ShrOfProduct(b, shift);
    h := Hash(b * Pow2(shift), 0);
  }

  ghost predicate HashEnds(index: seq<U64>, bits: nat, fileSize: nat, h: Hash)
    requires bits <= 64
  {
    LoopsEnd(index, Bucket(h, 64 - bits), fileSize, false)
  }

  // Lookups with a fresh index end for all hashes exactly if the first and the last
  // slot are populated.
  lemma AlwaysEndsIff(index: seq<U64>, data: seq<Rec>, bits: nat, fileSize: nat)
    requires IsIndex(index, data, bits) && StrictlySorted(data)
    ensures (forall h :: HashEnds(index, bits, fileSize, h)) <==>
            Populated(index, 0) && Populated(index, |index| - 1)
  {
    var last := |index| - 1;
    if Populated(index, 0) && Populated(index, last) {
      forall h ensures HashEnds(index, bits, fileSize, h) {
        BucketInRange(h, bits);
        DownEndsIff(index, Bucket(h, 64 - bits), false);
        UpEndsIff(index, Bucket(h, 64 - bits), fileSize, false);
      }
    } else if !Populated(index, 0) {
      var h := BucketHasHash(0, bits);
      DownEndsIff(index, 0, false);
      assert !HashEnds(index, bits, fileSize, h);
    } else {
      Pow2Positive(bits - 1);
      var h := BucketHasHash(last - 1, bits);
      UpEndsIff(index, last - 1, fileSize, false);
      assert !HashEnds(index, bits, fileSize, h);
    }
  }

  // --- the estimate-driven search ---

  // The distance of the first two probes from the estimate: a 4096th of the file, but at least one
  // record.
  function ProbeOffset(fileSize: nat): (r: nat)
    ensures r >= RECORD_SIZE && r % RECORD_SIZE == 0
    ensures var part := if fileSize / 4096 > 20 then fileSize / 4096 else 20; r <= part < r + 20
  {
    var offset := if fileSize / 4096 > RECORD_SIZE then fileSize / 4096 else RECORD_SIZE;
    offset - offset % RECORD_SIZE
  }

  function Doubled(x: nat, n: nat): nat { if n == 0 then x else 2 * Doubled(x, n - 1) }

  // The first probe below estimate g lies behind the last record.
  predicate TooFar(fileSize: nat, g: nat) {
    RECORD_SIZE * g - ProbeOffset(fileSize) >= fileSize || fileSize == 0
  }

  // No estimate inside a file with records is too far out.
  lemma InsideFile(records: nat, g: nat)
    requires 0 < records && g <= records
    ensures !TooFar(RECORD_SIZE * records, g)
  {
  }

  class PasswordInspector {
    const data: seq<Rec>
    const fileSize: nat
    const index: Option<seq<U64>>
    ghost const bits: nat
    const shift: nat
    // failbit of the two streams; nothing ever clears it
    var dataFailed: bool
    var indexFailed: bool

    ghost predicate Valid()
    {
      && StrictlySorted(data) && fileSize == RECORD_SIZE * |data| < MAX_OFFSET
      && (index.Some? ==> IsIndex(index.value, data, bits) && shift == 64 - bits)
    }

    constructor (file: seq<Rec>)
      requires StrictlySorted(file) && RECORD_SIZE * |file| < MAX_OFFSET
      ensures Valid() && data == file && index == None && !dataFailed && !indexFailed
    {
      data, fileSize := file, RECORD_SIZE * |file|;
      index, bits, shift := None, 0, 0;
      dataFailed, indexFailed := false, false;
    }

    // The shift is derived from the number of slots.
    constructor WithIndex(file: seq<Rec>, slots: seq<U64>, ghost keyBits: nat)
      requires StrictlySorted(file) && RECORD_SIZE * |file| < MAX_OFFSET
      requires IsIndex(slots, file, keyBits)
      ensures Valid() && data == file && index == Some(slots) && bits == keyBits
      ensures !dataFailed && !indexFailed
    {
      data, fileSize := file, RECORD_SIZE * |file|;
      var recovered := IndexShift.RecoverShift(|slots|);
      index, bits, shift := Some(slots), keyBits, recovered;
      dataFailed, indexFailed := false, false;
    }

    // phc.read(mInputFile, pos): a read past the end or from a failed stream
    // leaves the record as it is.
    method ReadRecord(phc: Rec, pos: nat, ghost i: nat) returns (r: Rec)
      requires pos == RECORD_SIZE * i
      modifies this`dataFailed
      ensures dataFailed <==> old(dataFailed) || i >= |data|
      ensures r == if dataFailed then phc else data[i]
    {
      r := phc;
      if !dataFailed && pos / RECORD_SIZE < |data| {
        r := data[pos / RECORD_SIZE];
      } else {
        dataFailed := true;
      }
    }

    // One of the two loops over index slots.
    method ScanIndex(start: Scan, delta: int) returns (val: int, nReads: nat)
      requires index.Some? && start.failed == indexFailed
      requires start.off % SLOT_SIZE == 0 && delta % SLOT_SIZE == 0
      requires Ends(index.value, start, delta)
      modifies this`indexFailed
      ensures EndsAfter(index.value, start, delta, nReads)
      ensures val == Passes(index.value, start, delta, nReads).val
      ensures indexFailed == Passes(index.value, start, delta, nReads).failed
    {
      ghost var n: nat :| EndsAfter(index.value, start, delta, n);
      var off := start.off;
      val, nReads := start.val, 0;
      while nReads == 0 || val == -1
        invariant nReads <= n && Scan(off, val, indexFailed) == Passes(index.value, start, delta, nReads)
        invariant forall m :: 1 <= m < nReads ==> Passes(index.value, start, delta, m).val == -1
        decreases n - nReads
      {
        if !indexFailed && 0 <= off && off / SLOT_SIZE < |index.value| {
          val := AsSigned(index.value[off / SLOT_SIZE]);
        } else {
          indexFailed := true;
        }
        nReads := nReads + 1;
        off := off + delta;
      }
    }

    // The binary search between two offsets, those of records l0 and u0.
    method Search(h: Hash, from: int, to: int, ghost l0: nat, ghost u0: nat) returns (phc: Rec, nReads: nat)
      requires Valid() && from == RECORD_SIZE * l0 && to == RECORD_SIZE * u0
      requires l0 <= u0 <= |data| && (data == [] || l0 < |data|)
      requires Bracket(data, h, l0, u0) && (u0 < |data| ==> Less(h, data[u0].hash))
      modifies this`dataFailed
      ensures SearchDone(data, h, old(dataFailed), dataFailed, phc)
      ensures nReads >= 1 && Pow2(nReads - 1) <= u0 - l0 + 1
    {
      var lo, hi := from, to;
      ghost var l: int, u: int := l0, u0;
      ghost var total := u - l + 1;
      ghost var was := dataFailed;
      phc, nReads := EMPTY_REC, 0;
      while lo <= hi
        invariant lo == RECORD_SIZE * l && hi == RECORD_SIZE * u
        invariant Halved(total, l, u, nReads) && (nReads == 0 ==> l <= u)
        invariant SearchInv(data, h, was, dataFailed, phc, l, u, nReads)
        decreases u - l
      {
        MidRecordIsAligned(l, u);
        var pos := MidRecord(lo, hi);
        ghost var mid: nat, phc0, now0 := (l + u) / 2, phc, dataFailed;
        phc := ReadRecord(phc, pos, mid);
        SearchStep(data, h, was, now0, phc0, l, u, nReads, dataFailed, phc);
        HalvedMoves(total, l, u, nReads, mid + 1, u);
        HalvedMoves(total, l, u, nReads, l, mid - 1);
        nReads := nReads + 1;
        if Less(phc.hash, h) {
          lo := pos + RECORD_SIZE;
          l := mid + 1;
        } else if Less(h, phc.hash) {
          hi := pos - RECORD_SIZE;
          u := mid - 1;
        } else {
          return;
        }
      }
      SearchEnd(data, h, was, dataFailed, phc, l, u, nReads);
      phc := phc.(count := 0);
    }

    // The slots of the index that a lookup of h needs can be found.
    ghost predicate LookupEnds(h: Hash, failed: bool)
      requires Valid()
    {
      index.Some? ==> LoopsEnd(index.value, Bucket(h, shift), fileSize, failed)
    }

    // The index part of binsearch(): the offsets between which to search.
    method IndexRange(h: Hash) returns (lo: int, hi: int, nReads: nat, ghost l: nat, ghost u: nat)
      requires Valid() && index.Some? && LookupEnds(h, indexFailed)
      modifies this`indexFailed
      ensures lo == RECORD_SIZE * l && hi == RECORD_SIZE * u
      ensures l <= u <= |data| && (data == [] || l < |data|)
      ensures Bracket(data, h, l, u) && (u < |data| ==> Less(h, data[u].hash))
      ensures indexFailed <==> old(indexFailed) || Bucket(h, shift) + 1 == |index.value|
    {
      var hashMSB := Bucket(h, shift);
      BucketInRange(h, bits);
      var n, m;
      lo, n := ScanIndex(Down(hashMSB, indexFailed), -SLOT_SIZE);
      l := DownMeaning(h, n, old(indexFailed));
      hi, m := ScanIndex(Up(hashMSB, fileSize, indexFailed), SLOT_SIZE);
      u := UpMeaning(h, m, old(indexFailed), l);
      nReads := n + m;
    }

    lemma DownMeaning(h: Hash, n: nat, failed: bool) returns (l: nat)
      requires Valid() && index.Some? && LookupEnds(h, failed)
      requires EndsAfter(index.value, Down(Bucket(h, shift), failed), -SLOT_SIZE, n)
      ensures Bracket(data, h, l, |data|) && (if data == [] then l == 0 else l < |data|)
      ensures var r := Passes(index.value, Down(Bucket(h, shift), failed), -SLOT_SIZE, n);
              r.val == RECORD_SIZE * l && r.failed == failed
    {
      var b := Bucket(h, shift);
      BucketInRange(h, bits);
      if failed {
        PassesFailed(index.value, Down(b, true), -SLOT_SIZE, n);
        l := 0;
      } else {
        DownEndsIff(index.value, b, false);
        var j, k := DownResult(index.value, b);
        EndsAfterUnique(index.value, Down(b, false), -SLOT_SIZE, k, n);
        l := LowerEnd(index.value, data, bits, h, j);
      }
    }

    lemma UpMeaning(h: Hash, n: nat, failed: bool, l: nat) returns (u: nat)
      requires Valid() && index.Some? && LookupEnds(h, failed)
      requires EndsAfter(index.value, Up(Bucket(h, shift), fileSize, failed), SLOT_SIZE, n)
      requires Bracket(data, h, l, |data|) && (if data == [] then l == 0 else l < |data|)
      ensures l <= u <= |data| && Bracket(data, h, l, u) && (u < |data| ==> Less(h, data[u].hash))
      ensures var r := Passes(index.value, Up(Bucket(h, shift), fileSize, failed), SLOT_SIZE, n);
              && r.val == RECORD_SIZE * u
              && (r.failed <==> failed || Bucket(h, shift) + 1 == |index.value|)
    {
      var b := Bucket(h, shift);
      BucketInRange(h, bits);
      u := |data|;
      if failed {
        PassesFailed(index.value, Up(b, fileSize, true), SLOT_SIZE, n);
      } else if b + 1 == |index.value| {
        UpAtLastSlot(index.value, b, fileSize);
        EndsAfterUnique(index.value, Up(b, fileSize, false), SLOT_SIZE, 1, n);
      } else {
        u := UpToSlot(h, n);
      }
    }

    lemma UpToSlot(h: Hash, n: nat) returns (u: nat)
      requires Valid() && index.Some? && LookupEnds(h, false) && Bucket(h, shift) + 1 < |index.value|
      requires EndsAfter(index.value, Up(Bucket(h, shift), fileSize, false), SLOT_SIZE, n)
      ensures u < |data| && Bracket(data, h, 0, u) && Less(h, data[u].hash)
      ensures var r := Passes(index.value, Up(Bucket(h, shift), fileSize, false), SLOT_SIZE, n);
              r.val == RECORD_SIZE * u && !r.failed
    {
      var b := Bucket(h, shift);
      UpEndsIff(index.value, b, fileSize, false);
      var j, k := UpResult(index.value, b, fileSize);
      EndsAfterUnique(index.value, Up(b, fileSize, false), SLOT_SIZE, k, n);
      u := UpperEnd(index.value, data, bits, h, j);
    }

    // Looks h up. Without an index the number of reads is at most the number of
    // times that the number of records plus one can be halved, plus one.
    method Binsearch(h: Hash) returns (phc: Rec, nReads: nat)
      requires Valid() && LookupEnds(h, indexFailed)
      modifies this`dataFailed, this`indexFailed
      ensures SearchDone(data, h, old(dataFailed), dataFailed, phc)
      ensures indexFailed <==> old(indexFailed) || (index.Some? && Bucket(h, shift) + 1 == |index.value|)
      ensures index == None ==> nReads >= 1 && Pow2(nReads - 1) <= |data| + 1
    {
      var lo, hi, n := 0, fileSize, 0;
      ghost var l, u := 0, |data|;
      if index.Some? {
        lo, hi, n, l, u := IndexRange(h);
      }
      phc, nReads := Search(h, lo, hi, l, u);
      nReads := n + nReads;
    }

    // A whole session of lookups on a freshly opened inspector. Lookups after one for
    // the top bucket no longer use the index, and lookups after one for a hash beyond
    // the last record all report 0.
    method Session(queries: seq<Hash>) returns (answers: seq<U32>)
      requires Valid() && !dataFailed && !indexFailed
      requires forall i :: 0 <= i < |queries| ==> LookupEnds(queries[i], TopBefore(queries, i))
      modifies this`dataFailed, this`indexFailed
      ensures |answers| == |queries|
      ensures forall i :: 0 <= i < |queries| ==>
        answers[i] == if ExceedsBefore(data, queries, i) then 0 else LinearScan(data, queries[i])
      ensures dataFailed <==> ExceedsBefore(data, queries, |queries|)
      ensures indexFailed <==> TopBefore(queries, |queries|)
    {
      answers := [];
      for i := 0 to |queries|
        invariant |answers| == i
        invariant forall k :: 0 <= k < i ==>
          answers[k] == if ExceedsBefore(data, queries, k) then 0 else LinearScan(data, queries[k])
        invariant dataFailed <==> ExceedsBefore(data, queries, i)
        invariant indexFailed <==> TopBefore(queries, i)
      {
        BeforeStep(queries, i);
        ghost var failed := dataFailed;
        var phc, n := Binsearch(queries[i]);
        assert phc.count == if failed then 0 else LinearScan(data, queries[i]);
        answers := answers + [phc.count];
      }
    }

    lemma BeforeStep(queries: seq<Hash>, i: nat)
      requires Valid() && i < |queries|
      ensures ExceedsBefore(data, queries, i + 1) <==> ExceedsBefore(data, queries, i) || Exceeds(queries[i], data)
      ensures TopBefore(queries, i + 1) <==>
              TopBefore(queries, i) || (index.Some? && Bucket(queries[i], shift) + 1 == |index.value|)
    {
    }

    // h.read(mInputFile, pos) for a record-aligned position
    method ReadHash(h: Hash, pos: nat, ghost i: nat) returns (r: Hash)
      requires pos == RECORD_SIZE * i
      modifies this`dataFailed
      ensures dataFailed <==> old(dataFailed) || i >= |data|
      ensures r == if dataFailed then h else data[i].hash
    {
      r := h;
      if !dataFailed && pos / RECORD_SIZE < |data| {
        r := data[pos / RECORD_SIZE].hash;
      } else {
        dataFailed := true;
      }
    }

    // The first loop of smart_binsearch(): from record l0 downwards in growing steps.
    method WidenDown(h: Hash, lo0: nat, ghost l0: nat, offset: nat, ghost d: nat) returns (steps: nat)
      requires lo0 == RECORD_SIZE * l0 && offset == RECORD_SIZE * d && d > 0
      modifies this`dataFailed
      ensures dataFailed <==> old(dataFailed) || l0 >= |data|
      ensures steps > 0 ==> lo0 >= offset && Doubled(offset, steps) <= lo0 + offset
    {
      var lo, loOffset := lo0, offset;
      ghost var l, k := l0, d;
      var h0 := ReadHash(ZERO_HASH, lo, l);
      ghost var failed := dataFailed;
      steps := 0;
      while Less(h, h0) && lo >= loOffset
        invariant lo == RECORD_SIZE * l && l <= l0 && loOffset == RECORD_SIZE * k && k > 0
        invariant loOffset == Doubled(offset, steps) && lo + loOffset == lo0 + offset
        invariant steps > 0 ==> lo0 >= offset
        invariant dataFailed == failed
        decreases lo
      {
        lo := lo - loOffset;
        l := l - k;
        h0 := ReadHash(h0, lo, l);
        steps := steps + 1;
        loOffset := loOffset * 2;
        k := 2 * k;
      }
    }

    // The second loop: upwards to the last record at most. On an empty file hi is
    // negative and the seek fails.
    method WidenUp(h: Hash, hi0: int, ghost u0: int, offset: nat, ghost d: nat) returns (steps: nat)
      requires fileSize == RECORD_SIZE * |data|
      requires hi0 == RECORD_SIZE * u0 && offset == RECORD_SIZE * d && d > 0
      requires u0 == |data| - 1 || d <= u0 < |data| - 1
      modifies this`dataFailed
      ensures dataFailed <==> old(dataFailed) || data == []
      ensures steps > 0 ==> Doubled(offset, steps) <= fileSize
    {
      var hi, hiOffset := hi0, offset;
      ghost var u, k := u0, d;
      var h1 := ZERO_HASH;
      steps := 0;
      if hi < 0 {
        dataFailed := true;
        return;
      }
      h1 := ReadHash(h1, hi, u);
      while Less(h1, h) && hi <= fileSize - hiOffset - RECORD_SIZE
        invariant hi == RECORD_SIZE * u && hiOffset == RECORD_SIZE * k && 0 <= u < |data|
        invariant hiOffset == Doubled(offset, steps) && k >= d
        invariant if steps == 0 then u == u0 else k <= u
        invariant dataFailed == old(dataFailed)
        decreases |data| - u
      {
        hi := hi + hiOffset;
        u := u + k;
        h1 := ReadHash(h1, hi, u);
        steps := steps + 1;
        hiOffset := hiOffset * 2;
        k := 2 * k;
      }
    }

    // smart_binsearch(): g is the estimated record. The probes around it decide
    // nothing, since a full search follows. A probe past the end would spoil the data
    // stream; that happens exactly if the estimate is too far out, which none inside a
    // file with records is. downs and ups count the steps of the two widening loops.
    method SmartBinsearch(h: Hash, potentialHitIdx: int, ghost g: nat)
      returns (phc: Rec, nReads: nat, downs: nat, ups: nat)
      requires Valid() && LookupEnds(h, indexFailed) && potentialHitIdx == RECORD_SIZE * g
      modifies this`dataFailed, this`indexFailed
      ensures SearchDone(data, h, old(dataFailed) || TooFar(fileSize, g), dataFailed, phc)
      ensures data != [] && potentialHitIdx <= fileSize ==> SearchDone(data, h, old(dataFailed), dataFailed, phc)
      ensures downs > 0 ==> Doubled(ProbeOffset(fileSize), downs) <= RECORD_SIZE * g
      ensures ups > 0 ==> Doubled(ProbeOffset(fileSize), ups) <= fileSize
    {
      var offset := ProbeOffset(fileSize);
      var lo := if potentialHitIdx - offset > 0 then potentialHitIdx - offset else 0;
      var hi := if fileSize - RECORD_SIZE < potentialHitIdx + offset
                then fileSize - RECORD_SIZE else potentialHitIdx + offset;
      ghost var d := offset / RECORD_SIZE;
      downs := WidenDown(h, lo, if g > d then g - d else 0, offset, d);
      ups := WidenUp(h, hi, if |data| - 1 < g + d then |data| - 1 else g + d, offset, d);
      if data != [] && g <= |data| { InsideFile(|data|, g); }
      phc, nReads := Binsearch(h);
      nReads := 2 + downs + ups + nReads;
    }

    ghost predicate TopBefore(queries: seq<Hash>, n: nat) {
      index.Some? && exists j :: 0 <= j < n && j < |queries| && Bucket(queries[j], shift) + 1 == |index.value|
    }
  }

  ghost predicate ExceedsBefore(data: seq<Rec>, queries: seq<Hash>, n: nat) {
    exists j :: 0 <= j < n && j < |queries| && Exceeds(queries[j], data)
  }

  // Once the index stream has failed every lookup ends; before that, a lookup of
  // bucket b ends under the condition on the data file.
  lemma SessionEndsIff(p: PasswordInspector, h: Hash, failed: bool)
    requires p.Valid() && p.index.Some?
    ensures p.LookupEnds(h, failed) <==>
            || failed
            || (&& LowBucket(p.data, p.shift) <= Bucket(h, p.shift)
                && (Bucket(h, p.shift) + 1 == |p.index.value| || Bucket(h, p.shift) < HighBucket(p.data, p.shift)))
  {
    BucketInRange(h, p.bits);
    LoopsEndIff(p.index.value, p.data, p.bits, Bucket(h, p.shift), p.fileSize, failed);
  }

  // A lookup of a hash that is stored may never end: that of the last record, and of
  // every other one in its bucket, unless the bucket is the last slot.
  lemma LastBucketNeverEnds(p: PasswordInspector, i: nat)
    requires p.Valid() && p.index.Some? && i < |p.data|
    requires Bucket(p.data[i].hash, p.shift) == HighBucket(p.data, p.shift)
    ensures p.LookupEnds(p.data[i].hash, false) <==> HighBucket(p.data, p.shift) + 1 == |p.index.value|
  {
    SessionEndsIff(p, p.data[i].hash, false);
    StrictSortsBuckets(p.data, p.shift);
  }
}
