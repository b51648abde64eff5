// pwned-index: for every value of a hash's top bits, the byte offset of the
// first record that starts with them.
module Index {
  import opened Records

  // What memset(0xff) leaves in a slot.
  const SENTINEL: U64 := TWO64 - 1

  function Pow2(n: nat): nat { if n == 0 then 1 else 2 * Pow2(n - 1) }

  lemma {:induction false} Pow2Add(m: nat, n: nat)
    ensures Pow2(m + n) == Pow2(m) * Pow2(n)
  {
    if m > 0 {
      Pow2Add(m - 1, n);
      DoubleFactor(Pow2(m - 1), Pow2(n));
    }
  }

  lemma DoubleFactor(a: nat, b: nat)
    ensures (2 * a) * b == 2 * (a * b)
  {
  }

  lemma {:induction false} Pow2Positive(n: nat)
    ensures Pow2(n) > 0
  {
    if n > 0 { Pow2Positive(n - 1); }
  }

  // x >> n
  function Shr(x: nat, n: nat): nat { if n == 0 then x else Shr(x / 2, n - 1) }

  lemma {:induction false} ShrMonotonic(x: nat, y: nat, n: nat)
    requires x <= y
    ensures Shr(x, n) <= Shr(y, n)
  {
    if n > 0 { ShrMonotonic(x / 2, y / 2, n - 1); }
  }

  lemma {:induction false} ShrBelow(x: nat, n: nat, m: nat)
    requires x < Pow2(m + n)
    ensures Shr(x, n) < Pow2(m)
  {
    if n > 0 { ShrBelow(x / 2, n - 1, m); }
  }

  // That is the quotient by 2^n.
  lemma {:induction false} ShrIsQuotient(x: nat, n: nat)
    ensures Shr(x, n) * Pow2(n) <= x < (Shr(x, n) + 1) * Pow2(n)
  {
    if n > 0 {
      ShrIsQuotient(x / 2, n - 1);
      TwiceBounds(x, Shr(x, n), Pow2(n - 1));
    }
  }

  lemma TwiceBounds(x: nat, q: nat, p: nat)
    requires q * p <= x / 2 < (q + 1) * p
    ensures q * (2 * p) <= x < (q + 1) * (2 * p)
  {
    assert q * (2 * p) == 2 * (q * p) && (q + 1) * (2 * p) == 2 * ((q + 1) * p);
  }

  lemma {:induction false} ShrZero(n: nat)
    ensures Shr(0, n) == 0
  {
    if n > 0 { ShrZero(n - 1); }
  }

  lemma Pow2Is64()
    ensures Pow2(64) == TWO64
  {
    assert Pow2(8) == 256;
    Pow2Add(8, 8);
    Pow2Add(16, 16);
    Pow2Add(32, 32);
  }

  lemma {:induction false} ShrOnes(m: nat, n: nat)
    ensures Pow2(m + n) > 0 && Shr(Pow2(m + n) - 1, n) == Pow2(m) - 1
  {
    Pow2Positive(m + n);
    if n > 0 {
      Pow2Positive(m + n - 1);
      assert (Pow2(m + n) - 1) / 2 == Pow2(m + n - 1) - 1;
      ShrOnes(m, n - 1);
    }
  }

  // The number of slots: 1 + (max >> shift)
  lemma SlotCount(bits: nat)
    requires bits <= 64
    ensures 1 + Shr(TWO64 - 1, 64 - bits) == Pow2(bits)
  {
    Pow2Is64();
    ShrOnes(bits, 64 - bits);
  }

  // The top bits of a hash.
  function Bucket(h: Hash, shift: nat): nat { Shr(h.upper, shift) }

  lemma BucketInRange(h: Hash, bits: nat)
    requires 1 <= bits <= 63
    ensures Bucket(h, 64 - bits) < Pow2(bits)
  {
    Pow2Is64();
    ShrBelow(h.upper, 64 - bits, bits);
  }

  lemma BucketMonotonic(a: Hash, b: Hash, shift: nat)
    requires AtMost(a, b)
    ensures Bucket(a, shift) <= Bucket(b, shift)
  {
    ShrMonotonic(a.upper, b.upper, shift);
  }

  ghost predicate SortedByUpper(data: seq<Rec>) {
    forall i, j :: 0 <= i < j < |data| ==> data[i].hash.upper <= data[j].hash.upper
  }

  ghost predicate SortedByBucket(data: seq<Rec>, shift: nat) {
    forall i, j :: 0 <= i < j < |data| ==> Bucket(data[i].hash, shift) <= Bucket(data[j].hash, shift)
  }

  lemma UpperSortsBuckets(data: seq<Rec>, shift: nat)
    requires SortedByUpper(data)
    ensures SortedByBucket(data, shift)
  {
    forall i, j | 0 <= i < j < |data|
      ensures Bucket(data[i].hash, shift) <= Bucket(data[j].hash, shift)
    {
      ShrMonotonic(data[i].hash.upper, data[j].hash.upper, shift);
    }
  }

  // Slot j: the offset of the first record of bucket j, or the sentinel.
  ghost predicate IsSlot(data: seq<Rec>, shift: nat, j: nat, v: U64) {
    if v == SENTINEL
    then forall i :: 0 <= i < |data| ==> Bucket(data[i].hash, shift) != j
    else exists i :: 0 <= i < |data| && IsFirst(data, shift, j, i) && v == RECORD_SIZE * i
  }

  ghost predicate IsFirst(data: seq<Rec>, shift: nat, j: nat, i: nat) {
    && i < |data| && Bucket(data[i].hash, shift) == j
    && forall k :: 0 <= k < i ==> Bucket(data[k].hash, shift) != j
  }

  // The whole index. For an empty data file the builder still marks slot 0,
  // because its record keeps the default hash.
  ghost predicate IsIndex(index: seq<U64>, data: seq<Rec>, bits: nat) {
    && 1 <= bits <= 63 && |index| == Pow2(bits) && |index| > 0
    && if data == [] then index[0] == 0 && forall j :: 1 <= j < |index| ==> index[j] == SENTINEL
       else forall j :: 0 <= j < |index| ==> IsSlot(data, 64 - bits, j, index[j])
  }

  lemma PopulatedIncrease(index: seq<U64>, data: seq<Rec>, bits: nat, j: nat, k: nat)
    requires IsIndex(index, data, bits) && SortedByUpper(data)
    requires j < k < |index| && index[j] != SENTINEL && index[k] != SENTINEL
    ensures index[j] < index[k]
  {
    if data != [] {
      UpperSortsBuckets(data, 64 - bits);
      assert IsSlot(data, 64 - bits, j, index[j]) && IsSlot(data, 64 - bits, k, index[k]);
    }
  }

  // What the slots look like after the first n records; last is the offset
  // written last.
  ghost predicate Scanned(slots: seq<U64>, data: seq<Rec>, shift: nat, n: nat, lastIdx: nat, last: nat) {
    && 0 < n <= |data| && lastIdx < |slots|
    && lastIdx == Bucket(data[n - 1].hash, shift)
    && slots[lastIdx] == last
    && forall j :: 0 <= j < |slots| ==> IsSlot(data[..n], shift, j, slots[j])
  }

  lemma ScanFirst(slots: seq<U64>, data: seq<Rec>, shift: nat)
    requires data != [] && Bucket(data[0].hash, shift) < |slots|
    requires forall j :: 0 <= j < |slots| ==> slots[j] == SENTINEL
    ensures Scanned(slots[Bucket(data[0].hash, shift) := 0], data, shift, 1, Bucket(data[0].hash, shift), 0)
  {
    var b := Bucket(data[0].hash, shift);
    assert IsFirst(data[..1], shift, b, 0);
    assert RECORD_SIZE * 0 == 0;
  }

  lemma ScanNext(slots: seq<U64>, data: seq<Rec>, shift: nat, n: nat, lastIdx: nat, last: nat)
    requires Scanned(slots, data, shift, n, lastIdx, last) && n < |data|
    requires SortedByBucket(data, shift) && RECORD_SIZE * |data| < TWO64 - 1
    requires Bucket(data[n].hash, shift) < |slots|
    ensures var idx := Bucket(data[n].hash, shift);
            if idx > lastIdx then Scanned(slots[idx := RECORD_SIZE * n], data, shift, n + 1, idx, RECORD_SIZE * n)
            else Scanned(slots, data, shift, n + 1, lastIdx, last)
  {
    var idx := Bucket(data[n].hash, shift);
    assert Bucket(data[n - 1].hash, shift) <= idx;
    var slots' := if idx > lastIdx then slots[idx := RECORD_SIZE * n] else slots;
    var pre, now := data[..n], data[..n + 1];
    assert forall k :: 0 <= k < n ==> now[k] == pre[k] && now[k] == data[k];
    assert now[n] == data[n];
    forall j | 0 <= j < |slots| ensures IsSlot(now, shift, j, slots'[j]) {
      assert IsSlot(pre, shift, j, slots[j]);
      if j == idx && idx > lastIdx {
        assert forall k :: 0 <= k < n ==> Bucket(data[k].hash, shift) <= Bucket(data[n - 1].hash, shift);
        assert IsFirst(now, shift, idx, n);
      } else if slots[j] != SENTINEL {
        var i :| 0 <= i < |pre| && IsFirst(pre, shift, j, i) && slots[j] == RECORD_SIZE * i;
        assert IsFirst(now, shift, j, i);
      }
    }
  }

  // The slots after `read` records, also for the empty file.
  ghost predicate Building(slots: seq<U64>, data: seq<Rec>, bits: nat, read: nat, lastIdx: nat, last: nat)
    requires bits <= 64
  {
    if data == [] then
      lastIdx == last == 0 && |slots| > 0 && slots[0] == 0 && forall j :: 1 <= j < |slots| ==> slots[j] == SENTINEL
    else
      Scanned(slots, data, 64 - bits, read, lastIdx, last)
  }

  lemma BuildFirst(blank: seq<U64>, data: seq<Rec>, bits: nat, phc: Rec)
    requires 1 <= bits <= 63 && |blank| == Pow2(bits)
    requires forall j :: 0 <= j < |blank| ==> blank[j] == SENTINEL
    requires phc == if data == [] then EMPTY_REC else data[0]
    ensures Bucket(phc.hash, 64 - bits) < |blank|
    ensures var b := Bucket(phc.hash, 64 - bits);
            Building(blank[b := 0], data, bits, if data == [] then 0 else 1, b, 0)
  {
    BucketInRange(phc.hash, bits);
    if data == [] { ShrZero(64 - bits); } else { ScanFirst(blank, data, 64 - bits); }
  }

  lemma BuildNext(slots: seq<U64>, data: seq<Rec>, bits: nat, read: nat, lastIdx: nat, last: nat, phc: Rec)
    requires 1 <= bits <= 63 && |slots| == Pow2(bits) && SortedByUpper(data)
    requires Building(slots, data, bits, read, lastIdx, last) && read < |data| && phc == data[read]
    requires RECORD_SIZE * |data| < TWO64 - 1
    ensures var idx := Bucket(phc.hash, 64 - bits);
            && idx < |slots|
            && if idx > lastIdx
               then Building(slots[idx := RECORD_SIZE * read], data, bits, read + 1, idx, RECORD_SIZE * read)
               else idx == lastIdx && Building(slots, data, bits, read + 1, lastIdx, last)
  {
    BucketInRange(phc.hash, bits);
    UpperSortsBuckets(data, 64 - bits);
    ScanNext(slots, data, 64 - bits, read, lastIdx, last);
  }

  lemma BuildEnd(slots: seq<U64>, data: seq<Rec>, bits: nat, lastIdx: nat, last: nat)
    requires 1 <= bits <= 63 && |slots| == Pow2(bits)
    requires Building(slots, data, bits, |data|, lastIdx, last)
    ensures IsIndex(slots, data, bits)
  {
    assert data[..|data|] == data;
  }

  method CountSlots(bits: nat, shift: nat) returns (maxIdx: nat)
    requires bits + shift == 64
    ensures maxIdx == Pow2(bits)
  {
    maxIdx := 1 + Shr(SENTINEL, shift);
    SlotCount(bits);
  }

  // The rest of the loop body after a read: enters the record if it starts a new bucket,
  // which the last one, still there after a failed read, does not.
  method Enter(indexes: array<U64>, ghost data: seq<Rec>, bits: nat, phc: Rec, ghost read: nat, ghost eof: bool,
               lastIdx: nat, last: U64, tellg: nat)
    returns (idx: nat, lastIdx': nat, last': U64)
    requires 1 <= bits <= 63 && indexes.Length == Pow2(bits) && SortedByUpper(data)
    requires RECORD_SIZE * |data| < TWO64 - 1
    requires Building(indexes[..], data, bits, read, lastIdx, last)
    requires if eof then Bucket(phc.hash, 64 - bits) == lastIdx
             else read < |data| && phc == data[read] && tellg == RECORD_SIZE * (read + 1)
    modifies indexes
    ensures idx == lastIdx' == Bucket(phc.hash, 64 - bits)
    ensures Building(indexes[..], data, bits, if eof then read else read + 1, lastIdx', last')
  {
    ghost var before := indexes[..];
    if !eof { BuildNext(before, data, bits, read, lastIdx, last, phc); }
    lastIdx', last' := lastIdx, last;
    idx := Bucket(phc.hash, 64 - bits);
    if idx > lastIdx {
      last' := tellg - RECORD_SIZE;
      indexes[idx] := last';
      assert indexes[..] == before[idx := last'];
      lastIdx' := idx;
    }
  }

  // The one pass over the data file. eof becomes true only with a read that
  // fails, so the loop sees the last record a second time.
  method Build(data: seq<Rec>, bits: nat) returns (indexes: array<U64>)
    requires 1 <= bits <= 63 && SortedByUpper(data) && RECORD_SIZE * |data| < TWO64 - 1
    ensures fresh(indexes) && IsIndex(indexes[..], data, bits)
  {
    var shift := 64 - bits;
    var maxIdx := CountSlots(bits, shift);
    indexes := new U64[maxIdx](_ => SENTINEL);
    var phc, read, eof := EMPTY_REC, 0, false;
    if read < |data| { phc := data[read]; read := read + 1; } else { eof := true; }
    BuildFirst(indexes[..], data, bits, phc);
    var lastIdx: nat := Bucket(phc.hash, shift);
    ghost var blank := indexes[..];
    indexes[lastIdx] := 0;
    assert indexes[..] == blank[lastIdx := 0];
    var idx: nat, pos: U64 := 0, 0;
    while !eof
      invariant read <= |data| && (data == [] ==> eof)
      invariant Building(indexes[..], data, bits, read, lastIdx, pos)
      invariant data != [] ==> phc == data[read - 1] && lastIdx == Bucket(phc.hash, shift)
      invariant eof ==> read == |data| && idx == lastIdx
      decreases |data| - read, !eof
    {
      ghost var before := read;
      if read < |data| {
        phc := data[read];
        read := read + 1;
      } else {
        eof := true;
      }
      idx, lastIdx, pos := Enter(indexes, data, bits, phc, before, eof, lastIdx, pos, RECORD_SIZE * read);
    }
    ghost var before := indexes[..];
    BuildEnd(before, data, bits, lastIdx, pos);
    indexes[idx] := pos;
    assert indexes[..] == before;
  }
}
