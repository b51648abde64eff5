// The record that every stage of the pipeline reads and writes: a 128-bit MD5
// value as two host-order quads, and a 32-bit count.
module Records {

  const TWO32: nat := 0x1_0000_0000
  const TWO64: nat := 0x1_0000_0000_0000_0000
  const RECORD_SIZE: nat := 20

  type U32 = x: nat | x < TWO32
  type U64 = x: nat | x < TWO64

  // Hash::isValid is not part of this type: records read from a file never set
  // it, and the reader's "no hash" outcome is an Option.
  datatype Hash = Hash(upper: U64, lower: U64)

  datatype Rec = Rec(hash: Hash, count: U32)

  datatype Option<+T> = None | Some(value: T)

  const ZERO_HASH := Hash(0, 0)

  // A default-constructed PasswordHashAndCount.
  const EMPTY_REC := Rec(ZERO_HASH, 0)

  // operator< on hashes.
  predicate Less(a: Hash, b: Hash) {
    if a.upper == b.upper then a.lower < b.lower else a.upper < b.upper
  }

  predicate AtMost(a: Hash, b: Hash) {
    a == b || Less(a, b)
  }

  ghost predicate Sorted(s: seq<Rec>) {
    forall i, j :: 0 <= i < j < |s| ==> AtMost(s[i].hash, s[j].hash)
  }

  ghost predicate StrictlySorted(s: seq<Rec>) {
    forall i, j :: 0 <= i < j < |s| ==> Less(s[i].hash, s[j].hash)
  }

  ghost function KeySet(s: seq<Rec>): set<Hash> {
    set r | r in s :: r.hash
  }

  // The count a reader finds by looking at every record in turn: the reference
  // answer for all lookups.
  function LinearScan(s: seq<Rec>, h: Hash): U32 {
    if s == [] then 0
    else if s[0].hash == h then s[0].count
    else LinearScan(s[1..], h)
  }

  lemma {:induction false} LinearScanFinds(s: seq<Rec>, i: nat)
    requires StrictlySorted(s) && i < |s|
    ensures LinearScan(s, s[i].hash) == s[i].count
  {
    if i > 0 {
      assert s[i] == s[1..][i - 1];
      LinearScanFinds(s[1..], i - 1);
    }
  }

  lemma {:induction false} LinearScanMisses(s: seq<Rec>, h: Hash)
    requires h !in KeySet(s)
    ensures LinearScan(s, h) == 0
  {
    if s != [] {
      assert s[0] in s;
      assert forall r :: r in s[1..] ==> r in s;
      LinearScanMisses(s[1..], h);
    }
  }

  function Front<T>(s: seq<T>): seq<T>
    requires s != []
  {
    s[..|s| - 1]
  }

  function Last<T>(s: seq<T>): T
    requires s != []
  {
    s[|s| - 1]
  }

  // --- sums over the records of a file ---

  ghost function Weigh(s: seq<Rec>, w: Rec -> nat): nat {
    if s == [] then 0 else Weigh(s[..|s| - 1], w) + w(s[|s| - 1])
  }

  lemma {:induction false} WeighConcat(a: seq<Rec>, b: seq<Rec>, w: Rec -> nat)
    ensures Weigh(a + b, w) == Weigh(a, w) + Weigh(b, w)
  {
    if b == [] {
      assert a + b == a;
    } else {
      assert (a + b)[..|a + b| - 1] == a + b[..|b| - 1];
      WeighConcat(a, b[..|b| - 1], w);
    }
  }

  // The part of a record's count that belongs to key h.
  function CountFor(h: Hash): Rec -> nat {
    (r: Rec) => if r.hash == h then r.count else 0
  }

  function One(h: Hash): Rec -> nat {
    (r: Rec) => if r.hash == h then 1 else 0
  }

  function Each(): Rec -> nat {
    (r: Rec) => 1
  }

  // The sum of the counts that a file holds for key h.
  ghost function KeySum(s: seq<Rec>, h: Hash): nat {
    Weigh(s, CountFor(h))
  }

  lemma {:induction false} WeighEach(s: seq<Rec>)
    ensures Weigh(s, Each()) == |s|
  {
    if s != [] { WeighEach(s[..|s| - 1]); }
  }

  lemma {:induction false} WeighOne(s: seq<Rec>, h: Hash)
    ensures Weigh(s, One(h)) > 0 <==> h in KeySet(s)
  {
    if s != [] {
      var t := s[..|s| - 1];
      WeighOne(t, h);
      assert s == t + [s[|s| - 1]];
    }
  }

  lemma {:induction false} KeySumAbsent(s: seq<Rec>, h: Hash)
    requires h !in KeySet(s)
    ensures KeySum(s, h) == 0
  {
    if s != [] {
      assert s[|s| - 1] in s;
      KeySumAbsent(s[..|s| - 1], h);
    }
  }

  lemma {:induction false} KeySumBound(s: seq<Rec>, r: Rec)
    requires r in s
    ensures KeySum(s, r.hash) >= r.count
  {
    if s[|s| - 1] != r {
      var i :| 0 <= i < |s| && s[i] == r;
      assert s[..|s| - 1][i] == r;
      KeySumBound(s[..|s| - 1], r);
    }
  }

  // In a strictly sorted file the sum for a key is what the scan reports.
  lemma StrictKeySum(s: seq<Rec>, h: Hash)
    requires StrictlySorted(s)
    ensures KeySum(s, h) == LinearScan(s, h)
  {
    if i: nat :| i < |s| && s[i].hash == h {
      LinearScanFinds(s, i);
      assert s == s[..i] + ([s[i]] + s[i + 1..]);
      WeighConcat(s[..i], [s[i]] + s[i + 1..], CountFor(h));
      WeighConcat([s[i]], s[i + 1..], CountFor(h));
      KeySumAbsent(s[..i], h);
      KeySumAbsent(s[i + 1..], h);
      assert [s[i]][..0] == [];
    } else {
      KeySumAbsent(s, h);
      LinearScanMisses(s, h);
    }
  }
}
