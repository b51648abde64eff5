// The shift of an index, as the inspector derives it from the number of slots.
module IndexShift {
  import opened Index
  import Popcount

  // A number as a 64-bit word.
  function Binary(n: nat): bv64 {
    if n == 0 then 0 else Append(Binary(n / 2), n % 2 == 1)
  }

  function Append(w: bv64, bit: bool): bv64 {
    (w << 1) | (if bit then 1 else 0)
  }

  function OneAt(b: bv8): bv64
    requires b < 64
  {
    (1 as bv64) << b
  }

  lemma OneAtStep(b: bv8)
    requires 0 < b < 64
    ensures Append(OneAt(b - 1), false) == OneAt(b)
  {
  }

  lemma {:induction false} BinaryPow2(n: nat, b: bv8)
    requires b as nat == n && b < 64
    ensures Binary(Pow2(n)) == OneAt(b)
  {
    Pow2Positive(n);
    if n == 0 {
      assert Append(0, true) == OneAt(0);
    } else {
      Popcount.OneLess(b);
      BinaryPow2(n - 1, b - 1);
      OneAtStep(b);
    }
  }

  lemma {:induction false} ByteOf(n: nat) returns (b: bv8)
    requires n < 64
    ensures b as nat == n && b < 64
  {
    b := 0;
    if n > 0 {
      b := ByteOf(n - 1);
      Increment(b);
      b := b + 1;
    }
  }

  lemma Increment(b: bv8)
    requires b < 64
    ensures (b + 1) as nat == b as nat + 1
    ensures b as nat < 63 ==> b + 1 < 64
  {
  }

  // nKeys is the number of slots in the index file; for a file from the builder the
  // shift is the one that the builder has used.
  method RecoverShift(nKeys: nat) returns (shift: int)
    ensures forall bits: nat :: 1 <= bits <= 63 && nKeys == Pow2(bits) ==> shift == 64 - bits
  {
    shift := Popcount.RecoverShift(Binary(nKeys));
    forall bits: nat | 1 <= bits <= 63 && nKeys == Pow2(bits) ensures shift == 64 - bits {
      ShiftOfSlots(bits);
    }
  }

  lemma ShiftOfSlots(bits: nat)
    requires 1 <= bits <= 63
    ensures 64 - Popcount.BitCount(Binary(Pow2(bits)) - 1, 64) == 64 - bits
  {
    var b := ByteOf(bits);
    assert Binary(Pow2(bits)) - 1 == Popcount.Ones(b) by { BinaryPow2(bits, b); }
    Popcount.CountOnes(b, 64);
  }
}
