// The two loops of binsearch() that read index slots downwards and upwards until
// they find a populated one: when they end, and with which value.
module IndexScan {
  import opened Records
  import opened Index

  const SLOT_SIZE := 8

  // Reading eight bytes into a signed 64-bit variable.
  function AsSigned(v: U64): int {
    if v < TWO64 / 2 then v else v - TWO64
  }

  // offset to read next, value of the variable read into, failbit of the stream
  datatype Scan = Scan(off: int, val: int, failed: bool)

  // One pass through a do-while body. A failed stream, a negative offset and a
  // read past the end leave the variable as it is; the failure sticks.
  function Pass(index: seq<U64>, s: Scan, delta: int): Scan
    requires s.off % SLOT_SIZE == 0
  {
    if s.failed || s.off < 0 || s.off / SLOT_SIZE >= |index|
    then Scan(s.off + delta, s.val, true)
    else Scan(s.off + delta, AsSigned(index[s.off / SLOT_SIZE]), false)
  }

  lemma NextMultiple(n: int, delta: int)
    ensures (n - 1) * delta + delta == n * delta
  {
  }

  lemma AddAligned(a: int, b: int)
    requires a % SLOT_SIZE == 0 && b % SLOT_SIZE == 0
    ensures (a + b) % SLOT_SIZE == 0
  {
  }

  function Passes(index: seq<U64>, s: Scan, delta: int, n: nat): (r: Scan)
    requires s.off % SLOT_SIZE == 0 && delta % SLOT_SIZE == 0
    ensures r.off == s.off + n * delta && r.off % SLOT_SIZE == 0
  {
    if n == 0 then s else
      var p := Passes(index, s, delta, n - 1);
      NextMultiple(n, delta);
      AddAligned(p.off, delta);
      Pass(index, p, delta)
  }

  // The loop runs at least once and stops at a value that is not all ones.
  ghost predicate EndsAfter(index: seq<U64>, s: Scan, delta: int, n: nat)
    requires s.off % SLOT_SIZE == 0 && delta % SLOT_SIZE == 0
  {
    && n >= 1 && Passes(index, s, delta, n).val != -1
    && forall m :: 1 <= m < n ==> Passes(index, s, delta, m).val == -1
  }

  ghost predicate Ends(index: seq<U64>, s: Scan, delta: int)
    requires s.off % SLOT_SIZE == 0 && delta % SLOT_SIZE == 0
  {
    exists n :: EndsAfter(index, s, delta, n)
  }

  lemma EndsAfterUnique(index: seq<U64>, s: Scan, delta: int, m: nat, n: nat)
    requires s.off % SLOT_SIZE == 0 && delta % SLOT_SIZE == 0
    requires EndsAfter(index, s, delta, m) && EndsAfter(index, s, delta, n)
    ensures m == n
  {
  }

  ghost predicate Populated(index: seq<U64>, j: int) {
    0 <= j < |index| && index[j] != SENTINEL
  }

  // The slot i steps away from slot b.
  function At(b: int, step: int, i: nat): int
    requires step == 1 || step == -1
  {
    if step == 1 then b + i else b - i
  }

  // While all slots passed are empty the variable holds -1.
  lemma {:induction false} PassesEmptySlots(index: seq<U64>, b: nat, step: int, init: int, n: nat)
    requires b < |index| && (step == 1 || step == -1)
    requires forall i :: 0 <= i < n ==> !Populated(index, At(b, step, i))
    ensures n >= 1 ==> Passes(index, Scan(SLOT_SIZE * b, init, false), step * SLOT_SIZE, n).val == -1
    ensures n >= 1 && 0 <= At(b, step, n - 1) < |index| ==>
              !Passes(index, Scan(SLOT_SIZE * b, init, false), step * SLOT_SIZE, n).failed
  {
    if n >= 1 {
      PassesEmptySlots(index, b, step, init, n - 1);
      var p := Passes(index, Scan(SLOT_SIZE * b, init, false), step * SLOT_SIZE, n - 1);
      assert p.off == SLOT_SIZE * (At(b, step, n - 1));
      assert !Populated(index, At(b, step, n - 1));
    }
  }

  lemma {:induction false} PassesFailed(index: seq<U64>, s: Scan, delta: int, n: nat)
    requires s.failed && s.off % SLOT_SIZE == 0 && delta % SLOT_SIZE == 0
    ensures Passes(index, s, delta, n).failed && Passes(index, s, delta, n).val == s.val
  {
    if n > 0 { PassesFailed(index, s, delta, n - 1); }
  }

  // The scan from slot b reaches the populated slot n steps away.
  lemma ReachesSlot(index: seq<U64>, b: nat, step: int, init: int, n: nat)
    requires b < |index| && (step == 1 || step == -1)
    requires forall i :: 0 <= i < n ==> !Populated(index, At(b, step, i))
    requires Populated(index, At(b, step, n))
    ensures EndsAfter(index, Scan(SLOT_SIZE * b, init, false), step * SLOT_SIZE, n + 1)
    ensures var r := Passes(index, Scan(SLOT_SIZE * b, init, false), step * SLOT_SIZE, n + 1);
            !r.failed && r.val == AsSigned(index[At(b, step, n)])
  {
    var s, j := Scan(SLOT_SIZE * b, init, false), At(b, step, n);
    PassesEmptySlots(index, b, step, init, n);
    var p := Passes(index, s, step * SLOT_SIZE, n);
    assert p.off == SLOT_SIZE * j;
    assert !p.failed;
    forall m | 1 <= m < n + 1 ensures Passes(index, s, step * SLOT_SIZE, m).val == -1 {
      PassesEmptySlots(index, b, step, init, m);
    }
  }

  // The two starting points in binsearch(): from slot b downwards with lo = 0, from
  // slot b + 1 upwards with hi = the file size.
  function Down(b: nat, failed: bool): Scan { Scan(SLOT_SIZE * b, 0, failed) }

  function Up(b: nat, fileSize: nat, failed: bool): Scan { Scan(SLOT_SIZE * (b + 1), fileSize, failed) }

  ghost predicate PopulatedAtOrBelow(index: seq<U64>, b: nat) {
    exists j :: 0 <= j <= b && Populated(index, j)
  }

  ghost predicate PopulatedAbove(index: seq<U64>, b: nat) {
    exists j :: j > b && Populated(index, j)
  }

  lemma FailedEnds(index: seq<U64>, s: Scan, delta: int)
    requires s.failed && s.val != -1 && s.off % SLOT_SIZE == 0 && delta % SLOT_SIZE == 0
    ensures EndsAfter(index, s, delta, 1)
  {
    PassesFailed(index, s, delta, 1);
  }

  lemma NeverEnds(index: seq<U64>, b: nat, step: int, init: int)
    requires b < |index| && (step == 1 || step == -1)
    requires forall i: nat :: !Populated(index, At(b, step, i))
    ensures !Ends(index, Scan(SLOT_SIZE * b, init, false), step * SLOT_SIZE)
  {
    forall n | n >= 1 ensures Passes(index, Scan(SLOT_SIZE * b, init, false), step * SLOT_SIZE, n).val == -1 {
      PassesEmptySlots(index, b, step, init, n);
    }
  }

  // The nearest populated slot from b on in one direction.
  lemma {:induction false} Nearest(index: seq<U64>, b: int, step: int, k: nat) returns (n: nat)
    requires step == 1 || step == -1
    requires Populated(index, At(b, step, k))
    ensures n <= k && Populated(index, At(b, step, n))
    ensures forall i :: 0 <= i < n ==> !Populated(index, At(b, step, i))
  {
    if i: nat :| i < k && Populated(index, At(b, step, i)) {
      n := Nearest(index, b, step, i);
    } else {
      n := k;
    }
  }

  // The downward loop ends exactly if its stream has failed before or a slot at or
  // below b is populated.
  lemma DownEndsIff(index: seq<U64>, b: nat, failed: bool)
    requires b < |index|
    ensures Ends(index, Down(b, failed), -SLOT_SIZE) <==> failed || PopulatedAtOrBelow(index, b)
  {
    if failed {
      FailedEnds(index, Down(b, failed), -SLOT_SIZE);
    } else if PopulatedAtOrBelow(index, b) {
      var j, n := DownResult(index, b);
    } else {
      NeverEnds(index, b, -1, 0);
    }
  }

  // It then holds the highest populated slot at or below b.
  lemma DownResult(index: seq<U64>, b: nat) returns (j: nat, n: nat)
    requires b < |index| && PopulatedAtOrBelow(index, b)
    ensures j <= b && Populated(index, j) && forall i :: j < i <= b ==> !Populated(index, i)
    ensures EndsAfter(index, Down(b, false), -SLOT_SIZE, n)
    ensures var r := Passes(index, Down(b, false), -SLOT_SIZE, n);
            !r.failed && r.val == AsSigned(index[j])
  {
    var j0 :| 0 <= j0 <= b && Populated(index, j0);
    assert At(b, -1, b - j0) == j0;
    var k := Nearest(index, b, -1, b - j0);
    j, n := b - k, k + 1;
    forall i | j < i <= b ensures !Populated(index, i) {
      assert !Populated(index, At(b, -1, b - i));
    }
    ReachesSlot(index, b, -1, 0, k);
  }

  // The upward loop ends exactly if its stream has failed before, b is the last
  // slot, or a slot above b is populated.
  lemma UpEndsIff(index: seq<U64>, b: nat, fileSize: nat, failed: bool)
    requires b < |index|
    ensures Ends(index, Up(b, fileSize, failed), SLOT_SIZE) <==>
            failed || b + 1 == |index| || PopulatedAbove(index, b)
  {
    if failed {
      FailedEnds(index, Up(b, fileSize, failed), SLOT_SIZE);
    } else if b + 1 == |index| {
      UpAtLastSlot(index, b, fileSize);
    } else if PopulatedAbove(index, b) {
      var j, n := UpResult(index, b, fileSize);
    } else {
      NeverEnds(index, b + 1, 1, fileSize);
    }
  }

  // From the last slot the read goes past the end: hi stays, the stream fails.
  lemma UpAtLastSlot(index: seq<U64>, b: nat, fileSize: nat)
    requires b + 1 == |index|
    ensures EndsAfter(index, Up(b, fileSize, false), SLOT_SIZE, 1)
    ensures Passes(index, Up(b, fileSize, false), SLOT_SIZE, 1) == Scan(SLOT_SIZE * (b + 2), fileSize, true)
  {
    assert Passes(index, Up(b, fileSize, false), SLOT_SIZE, 0) == Up(b, fileSize, false);
  }

  lemma UpResult(index: seq<U64>, b: nat, fileSize: nat) returns (j: nat, n: nat)
    requires PopulatedAbove(index, b) && b + 1 < |index|
    ensures j > b && Populated(index, j) && forall i :: b < i < j ==> !Populated(index, i)
    ensures EndsAfter(index, Up(b, fileSize, false), SLOT_SIZE, n)
    ensures var r := Passes(index, Up(b, fileSize, false), SLOT_SIZE, n);
            !r.failed && r.val == AsSigned(index[j])
  {
    var j0 :| j0 > b && Populated(index, j0);
    assert At(b + 1, 1, j0 - b - 1) == j0;
    var k := Nearest(index, b + 1, 1, j0 - b - 1);
    j, n := b + 1 + k, k + 1;
    forall i | b < i < j ensures !Populated(index, i) {
      assert !Populated(index, At(b + 1, 1, i - b - 1));
    }
    ReachesSlot(index, b + 1, 1, fileSize, k);
  }
}
