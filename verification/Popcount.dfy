// popcnt64() without the processor instruction, and the shift that open() derives with
// it from the size of an index file.
module Popcount {
  // The bit at position i.
  function BitAt(x: bv64, i: bv8): nat
    requires i < 64
  {
    if (x >> i) & 1 == 1 then 1 else 0
  }

  // The number of bits set among the lowest n.
  function BitCount(x: bv64, n: bv8): nat
    requires n <= 64
  {
    if n == 0 then 0 else BitCount(x, n - 1) + BitAt(x, n - 1)
  }

  // --- the numbers held by the fields of a word ---

  function Two(x: bv64, i: bv8): nat
    requires i < 64
  {
    ((x >> i) & 3) as bv8 as nat
  }

  function Four(x: bv64, i: bv8): nat
    requires i < 64
  {
    ((x >> i) & 15) as bv8 as nat
  }

  function ByteAt(x: bv64, i: bv8): bv8
    requires i < 64
  {
    ((x >> i) & 255) as bv8
  }

  function Eight(x: bv64, i: bv8): nat
    requires i < 64
  {
    Val(ByteAt(x, i))
  }

  function Val(b: bv8): nat { b as nat }

  // Sums that stay inside a byte.
  lemma Sum15(a: bv8, b: bv8, c: bv8)
    requires c == a + b && a & 0xf0 == 0 && b & 0xf0 == 0
    ensures Val(c) == Val(a) + Val(b)
  {
    Add15(a, b);
  }

  lemma Add15(a: bv8, b: bv8)
    requires a & 0xf0 == 0 && b & 0xf0 == 0
    ensures (a + b) as nat == a as nat + b as nat
  {
  }

  lemma Sum31(a: bv8, b: bv8, c: bv8)
    requires c == a + b && a & 0xe0 == 0 && b & 0xe0 == 0
    ensures Val(c) == Val(a) + Val(b)
  {
    Add31(a, b);
  }

  lemma Add31(a: bv8, b: bv8)
    requires a & 0xe0 == 0 && b & 0xe0 == 0
    ensures (a + b) as nat == a as nat + b as nat
  {
  }

  lemma Sum63(a: bv8, b: bv8, c: bv8)
    requires c == a + b && a & 0xc0 == 0 && b & 0xc0 == 0
    ensures Val(c) == Val(a) + Val(b)
  {
    Add63(a, b);
  }

  lemma Add63(a: bv8, b: bv8)
    requires a & 0xc0 == 0 && b & 0xc0 == 0
    ensures (a + b) as nat == a as nat + b as nat
  {
    var s, c := (a & 0x1f) + (b & 0x1f), (a & 0x20) + (b & 0x20);
    SplitSum(a, b);
    Add31(a & 0x1f, b & 0x1f);
    TopBit(a);
    TopBit(b);
    AddTop(s, c);
    TopBits(a & 0x20, b & 0x20);
  }

  lemma SplitSum(a: bv8, b: bv8)
    requires a & 0xc0 == 0 && b & 0xc0 == 0
    ensures var s, c := (a & 0x1f) + (b & 0x1f), (a & 0x20) + (b & 0x20);
            a + b == s + c && s & 0xc0 == 0 && (c == 0 || c == 0x20 || c == 0x40)
    ensures (a & 0x1f) & 0xe0 == 0 && (b & 0x1f) & 0xe0 == 0
    ensures (a & 0x20 == 0 || a & 0x20 == 0x20) && (b & 0x20 == 0 || b & 0x20 == 0x20)
  {
  }

  lemma TopBits(a: bv8, b: bv8)
    requires (a == 0 || a == 0x20) && (b == 0 || b == 0x20)
    ensures (a + b) as nat == a as nat + b as nat
  {
    if a == 0 {
      assert a + b == b;
    } else if b == 0 {
      assert a + b == a;
    } else {
      assert a + b == 0x40;
    }
  }

  lemma TopBit(a: bv8)
    requires a & 0xc0 == 0
    ensures a as nat == (a & 0x1f) as nat + (a & 0x20) as nat
  {
  }

  lemma AddTop(s: bv8, c: bv8)
    requires s & 0xc0 == 0 && (c == 0 || c == 0x20 || c == 0x40)
    ensures (s + c) as nat == s as nat + c as nat
  {
    Add32(s);
    Add64(s);
    assert s + 0 == s;
  }

  lemma Add32(s: bv8)
    requires s & 0xc0 == 0
    ensures (s + 0x20) as nat == s as nat + 0x20
  {
  }

  lemma Add64(s: bv8)
    requires s & 0xc0 == 0
    ensures (s + 0x40) as nat == s as nat + 0x40
  {
  }

  // --- the first line ---

  function Minus(a: bv64, b: bv64): bv64 { a - b }

  lemma Cancel(a: bv64, b: bv64)
    ensures Minus(a + b, b) == a
  {
  }

  lemma Split(x: bv64)
    ensures x == (x & 0x5555_5555_5555_5555) + ((x >> 1) & 0x5555_5555_5555_5555) + ((x >> 1) & 0x5555_5555_5555_5555)
  {
  }

  lemma NoBorrow(x: bv64)
    ensures Minus(x, (x >> 1) & 0x5555_5555_5555_5555) == (x & 0x5555_5555_5555_5555) + ((x >> 1) & 0x5555_5555_5555_5555)
  {
    Split(x);
    Cancel((x & 0x5555_5555_5555_5555) + ((x >> 1) & 0x5555_5555_5555_5555), (x >> 1) & 0x5555_5555_5555_5555);
  }

  lemma PairOf(x: bv64, i: bv8)
    requires i <= 62 && i & 1 == 0
    ensures (((x & 0x5555_5555_5555_5555) + ((x >> 1) & 0x5555_5555_5555_5555)) >> i) & 3 == ((x >> i) & 1) + ((x >> (i + 1)) & 1)
  {
  }

  lemma PairNum(x: bv64, i: bv8)
    requires i <= 62
    ensures (((x >> i) & 1) + ((x >> (i + 1)) & 1)) as bv8 as nat == BitAt(x, i) + BitAt(x, i + 1)
  {
  }

  lemma NoThree(x: bv64)
    ensures var y := (x & 0x5555_5555_5555_5555) + ((x >> 1) & 0x5555_5555_5555_5555);
            y & (y >> 1) & 0x5555_5555_5555_5555 == 0
  {
  }

  ghost predicate PairsCounted(x: bv64, y: bv64) {
    && (forall i: bv8 :: i <= 62 && i & 1 == 0 ==> Two(y, i) == BitAt(x, i) + BitAt(x, i + 1))
    && y & (y >> 1) & 0x5555_5555_5555_5555 == 0
  }

  lemma PairsAdded(x: bv64, y: bv64)
    requires y == (x & 0x5555_5555_5555_5555) + ((x >> 1) & 0x5555_5555_5555_5555)
    ensures PairsCounted(x, y)
  {
    NoThree(x);
    forall i: bv8 | i <= 62 && i & 1 == 0 ensures Two(y, i) == BitAt(x, i) + BitAt(x, i + 1) {
      PairOf(x, i);
      PairNum(x, i);
    }
  }

  method FirstLine(x: bv64) returns (y: bv64)
    ensures PairsCounted(x, y)
  {
    y := x - ((x >> 1) & 0x5555_5555_5555_5555);
    NoBorrow(x);
    PairsAdded(x, y);
  }

  // --- the second line ---

  lemma NibbleOf(y: bv64, i: bv8)
    requires i <= 60 && i & 3 == 0
    ensures ((((y & 0x3333_3333_3333_3333) + ((y >> 2) & 0x3333_3333_3333_3333)) >> i) & 15) as bv8 ==
            ((y >> i) & 3) as bv8 + ((y >> (i + 2)) & 3) as bv8
  {
  }

  lemma SmallNibbles(y: bv64)
    requires y & (y >> 1) & 0x5555_5555_5555_5555 == 0
    ensures ((y & 0x3333_3333_3333_3333) + ((y >> 2) & 0x3333_3333_3333_3333)) & 0x8888_8888_8888_8888 == 0
  {
  }

  ghost predicate NibblesCounted(y: bv64, z: bv64) {
    && (forall i: bv8 :: i <= 60 && i & 3 == 0 ==> Four(z, i) == Two(y, i) + Two(y, i + 2))
    && z & 0x8888_8888_8888_8888 == 0
  }

  method SecondLine(y: bv64) returns (z: bv64)
    requires y & (y >> 1) & 0x5555_5555_5555_5555 == 0
    ensures NibblesCounted(y, z)
  {
    z := (y & 0x3333_3333_3333_3333) + ((y >> 2) & 0x3333_3333_3333_3333);
    SmallNibbles(y);
    forall i: bv8 | i <= 60 && i & 3 == 0 ensures Four(z, i) == Two(y, i) + Two(y, i + 2) {
      NibbleOf(y, i);
      Add15(((y >> i) & 3) as bv8, ((y >> (i + 2)) & 3) as bv8);
    }
  }

  // --- the third line ---

  lemma ByteOf(z: bv64, i: bv8)
    requires i <= 56 && i & 7 == 0 && z & 0x8888_8888_8888_8888 == 0
    ensures ((((z + (z >> 4)) & 0x0f0f_0f0f_0f0f_0f0f) >> i) & 255) as bv8 ==
            ((z >> i) & 15) as bv8 + ((z >> (i + 4)) & 15) as bv8
  {
  }

  ghost predicate BytesCounted(z: bv64, w: bv64) {
    && (forall i: bv8 :: i <= 56 && i & 7 == 0 ==> Eight(w, i) == Four(z, i) + Four(z, i + 4))
    && w & 0xf0f0_f0f0_f0f0_f0f0 == 0
  }

  method ThirdLine(z: bv64) returns (w: bv64)
    requires z & 0x8888_8888_8888_8888 == 0
    ensures BytesCounted(z, w)
  {
    w := (z + (z >> 4)) & 0x0f0f_0f0f_0f0f_0f0f;
    forall i: bv8 | i <= 56 && i & 7 == 0 ensures Eight(w, i) == Four(z, i) + Four(z, i + 4) {
      ByteOf(z, i);
      Add15(((z >> i) & 15) as bv8, ((z >> (i + 4)) & 15) as bv8);
    }
  }

  // --- the last line: the product gathers the sum of all bytes in the top byte ---

  function By8(x: bv64): bv64 { x * 0x101 }

  function By16(x: bv64): bv64 { x * 0x1_0001 }

  function By32(x: bv64): bv64 { x * 0x1_0000_0001 }

  // The product by shifts and sums.
  lemma Factors(w: bv64)
    ensures By8(w) == w * 0x101
    ensures By16(w * 0x101) == w * 0x101_0101
    ensures By32(w * 0x101_0101) == w * 0x0101_0101_0101_0101
  {
  }

  lemma Shift8(x: bv64)
    ensures By8(x) == x + (x << 8)
  {
  }

  lemma Shift16(x: bv64)
    ensures By16(x) == x + (x << 16)
  {
  }

  lemma Shift32(x: bv64)
    ensures By32(x) == x + (x << 32)
  {
  }

  lemma Bits8At56(w: bv64)
    requires w & 0xf0f0_f0f0_f0f0_f0f0 == 0
    ensures ByteAt(w + (w << 8), 56) == ByteAt(w, 56) + ByteAt(w, 48)
    ensures ByteAt(w, 56) & 0xf0 == 0 && ByteAt(w, 48) & 0xf0 == 0
  {
  }

  lemma Sum8At56(w: bv64)
    requires w & 0xf0f0_f0f0_f0f0_f0f0 == 0
    ensures Val(ByteAt(w + (w << 8), 56)) == Val(ByteAt(w, 56)) + Val(ByteAt(w, 48))
  {
    Bits8At56(w);
    Sum15(ByteAt(w, 56), ByteAt(w, 48), ByteAt(w + (w << 8), 56));
  }

  lemma Bits8At40(w: bv64)
    requires w & 0xf0f0_f0f0_f0f0_f0f0 == 0
    ensures ByteAt(w + (w << 8), 40) == ByteAt(w, 40) + ByteAt(w, 32)
    ensures ByteAt(w, 40) & 0xf0 == 0 && ByteAt(w, 32) & 0xf0 == 0
  {
  }

  lemma Sum8At40(w: bv64)
    requires w & 0xf0f0_f0f0_f0f0_f0f0 == 0
    ensures Val(ByteAt(w + (w << 8), 40)) == Val(ByteAt(w, 40)) + Val(ByteAt(w, 32))
  {
    Bits8At40(w);
    Sum15(ByteAt(w, 40), ByteAt(w, 32), ByteAt(w + (w << 8), 40));
  }

  lemma Bits8At24(w: bv64)
    requires w & 0xf0f0_f0f0_f0f0_f0f0 == 0
    ensures ByteAt(w + (w << 8), 24) == ByteAt(w, 24) + ByteAt(w, 16)
    ensures ByteAt(w, 24) & 0xf0 == 0 && ByteAt(w, 16) & 0xf0 == 0
  {
  }

  lemma Sum8At24(w: bv64)
    requires w & 0xf0f0_f0f0_f0f0_f0f0 == 0
    ensures Val(ByteAt(w + (w << 8), 24)) == Val(ByteAt(w, 24)) + Val(ByteAt(w, 16))
  {
    Bits8At24(w);
    Sum15(ByteAt(w, 24), ByteAt(w, 16), ByteAt(w + (w << 8), 24));
  }

  lemma Bits8At8(w: bv64)
    requires w & 0xf0f0_f0f0_f0f0_f0f0 == 0
    ensures ByteAt(w + (w << 8), 8) == ByteAt(w, 8) + ByteAt(w, 0)
    ensures ByteAt(w, 8) & 0xf0 == 0 && ByteAt(w, 0) & 0xf0 == 0
  {
  }

  lemma Sum8At8(w: bv64)
    requires w & 0xf0f0_f0f0_f0f0_f0f0 == 0
    ensures Val(ByteAt(w + (w << 8), 8)) == Val(ByteAt(w, 8)) + Val(ByteAt(w, 0))
  {
    Bits8At8(w);
    Sum15(ByteAt(w, 8), ByteAt(w, 0), ByteAt(w + (w << 8), 8));
  }

  lemma Bits16At56(s: bv64)
    requires s & 0xe0e0_e0e0_e0e0_e0e0 == 0
    ensures ByteAt(s + (s << 16), 56) == ByteAt(s, 56) + ByteAt(s, 40)
    ensures ByteAt(s, 56) & 0xe0 == 0 && ByteAt(s, 40) & 0xe0 == 0
  {
  }

  lemma Sum16At56(s: bv64)
    requires s & 0xe0e0_e0e0_e0e0_e0e0 == 0
    ensures Val(ByteAt(s + (s << 16), 56)) == Val(ByteAt(s, 56)) + Val(ByteAt(s, 40))
  {
    Bits16At56(s);
    Sum31(ByteAt(s, 56), ByteAt(s, 40), ByteAt(s + (s << 16), 56));
  }

  lemma Bits16At24(s: bv64)
    requires s & 0xe0e0_e0e0_e0e0_e0e0 == 0
    ensures ByteAt(s + (s << 16), 24) == ByteAt(s, 24) + ByteAt(s, 8)
    ensures ByteAt(s, 24) & 0xe0 == 0 && ByteAt(s, 8) & 0xe0 == 0
  {
  }

  lemma Sum16At24(s: bv64)
    requires s & 0xe0e0_e0e0_e0e0_e0e0 == 0
    ensures Val(ByteAt(s + (s << 16), 24)) == Val(ByteAt(s, 24)) + Val(ByteAt(s, 8))
  {
    Bits16At24(s);
    Sum31(ByteAt(s, 24), ByteAt(s, 8), ByteAt(s + (s << 16), 24));
  }

  lemma Bits32At56(t: bv64)
    requires t & 0xc0c0_c0c0_c0c0_c0c0 == 0
    ensures ByteAt(t + (t << 32), 56) == ByteAt(t, 56) + ByteAt(t, 24)
    ensures ByteAt(t, 56) & 0xc0 == 0 && ByteAt(t, 24) & 0xc0 == 0
  {
  }

  lemma Sum32At56(t: bv64)
    requires t & 0xc0c0_c0c0_c0c0_c0c0 == 0
    ensures Val(ByteAt(t + (t << 32), 56)) == Val(ByteAt(t, 56)) + Val(ByteAt(t, 24))
  {
    Bits32At56(t);
    Sum63(ByteAt(t, 56), ByteAt(t, 24), ByteAt(t + (t << 32), 56));
  }

  lemma Gather8(w: bv64)
    requires w & 0xf0f0_f0f0_f0f0_f0f0 == 0
    ensures By8(w) & 0xe0e0_e0e0_e0e0_e0e0 == 0
    ensures Eight(By8(w), 56) == Eight(w, 56) + Eight(w, 48) && Eight(By8(w), 40) == Eight(w, 40) + Eight(w, 32)
    ensures Eight(By8(w), 24) == Eight(w, 24) + Eight(w, 16) && Eight(By8(w), 8) == Eight(w, 8) + Eight(w, 0)
  {
    Shift8(w);
    Sum8At56(w);
    Sum8At40(w);
    Sum8At24(w);
    Sum8At8(w);
  }

  lemma Gather16(s: bv64)
    requires s & 0xe0e0_e0e0_e0e0_e0e0 == 0
    ensures By16(s) & 0xc0c0_c0c0_c0c0_c0c0 == 0
    ensures Eight(By16(s), 56) == Eight(s, 56) + Eight(s, 40) && Eight(By16(s), 24) == Eight(s, 24) + Eight(s, 8)
  {
    Shift16(s);
    Sum16At56(s);
    Sum16At24(s);
  }

  lemma Gather32(t: bv64)
    requires t & 0xc0c0_c0c0_c0c0_c0c0 == 0
    ensures Eight(By32(t), 56) == Eight(t, 56) + Eight(t, 24)
  {
    Shift32(t);
    Sum32At56(t);
  }

  lemma TopByte(p: bv64)
    ensures (p >> 56) as bv8 as nat == Eight(p, 56)
  {
  }

  function EightSum(w: bv64): nat {
    Eight(w, 56) + Eight(w, 48) + Eight(w, 40) + Eight(w, 32) + Eight(w, 24) + Eight(w, 16) + Eight(w, 8) + Eight(w, 0)
  }

  // The result is cast to unsigned int; it fits into a byte.
  method LastLine(w: bv64) returns (count: bv64)
    requires w & 0xf0f0_f0f0_f0f0_f0f0 == 0
    ensures count < 256 && count as bv8 as nat == EightSum(w)
  {
    var p := w * 0x0101_0101_0101_0101;
    count := p >> 56;
    TopByte(p);
    Product(w);
  }

  lemma Product(w: bv64)
    requires w & 0xf0f0_f0f0_f0f0_f0f0 == 0
    ensures Eight(w * 0x0101_0101_0101_0101, 56) == EightSum(w)
  {
    Factors(w);
    Gather8(w);
    Gather16(By8(w));
    Gather32(By16(By8(w)));
  }

  // --- all lines ---

  lemma CountEight(x: bv64, i: bv8)
    requires i <= 56
    ensures BitCount(x, i + 8) == BitCount(x, i)
            + (BitAt(x, i) + BitAt(x, i + 1)) + (BitAt(x, i + 2) + BitAt(x, i + 3))
            + (BitAt(x, i + 4) + BitAt(x, i + 5)) + (BitAt(x, i + 6) + BitAt(x, i + 7))
  {
    assert BitCount(x, i + 2) == BitCount(x, i) + BitAt(x, i) + BitAt(x, i + 1);
    assert BitCount(x, i + 4) == BitCount(x, i + 2) + BitAt(x, i + 2) + BitAt(x, i + 3);
    assert BitCount(x, i + 6) == BitCount(x, i + 4) + BitAt(x, i + 4) + BitAt(x, i + 5);
  }

  lemma BytesCount(x: bv64, y: bv64, z: bv64, w: bv64, i: bv8)
    requires PairsCounted(x, y) && NibblesCounted(y, z) && BytesCounted(z, w)
    requires i <= 56 && i & 7 == 0
    ensures BitCount(x, i + 8) == BitCount(x, i) + Eight(w, i)
  {
    CountEight(x, i);
  }

  lemma AllCounted(x: bv64, y: bv64, z: bv64, w: bv64)
    requires PairsCounted(x, y) && NibblesCounted(y, z) && BytesCounted(z, w)
    ensures EightSum(w) == BitCount(x, 64)
  {
    BytesCount(x, y, z, w, 0);
    BytesCount(x, y, z, w, 8);
    BytesCount(x, y, z, w, 16);
    BytesCount(x, y, z, w, 24);
    BytesCount(x, y, z, w, 32);
    BytesCount(x, y, z, w, 40);
    BytesCount(x, y, z, w, 48);
    BytesCount(x, y, z, w, 56);
  }

  method Popcnt64(x0: bv64) returns (count: bv64)
    ensures count < 256 && count as bv8 as nat == BitCount(x0, 64)
  {
    var y := FirstLine(x0);
    var z := SecondLine(y);
    var w := ThirdLine(z);
    AllCounted(x0, y, z, w);
    count := LastLine(w);
  }

  // --- the shift of an index ---

  // The number with the lowest b bits set.
  function Ones(b: bv8): bv64
    requires b < 64
  {
    ((1 as bv64) << b) - 1
  }

  lemma OneBit(b: bv8, i: bv8)
    requires b < 64 && i < 64
    ensures BitAt(Ones(b), i) == if i < b then 1 else 0
  {
  }

  lemma {:induction false} CountOnes(b: bv8, n: bv8)
    requires b < 64 && n <= 64
    ensures BitCount(Ones(b), n) == if n <= b then n as nat else b as nat
  {
    if n > 0 {
      CountOnes(b, n - 1);
      OneBit(b, n - 1);
      OneLess(n);
    }
  }

  lemma OneLess(n: bv8)
    requires n > 0
    ensures n as nat == (n - 1) as nat + 1
  {
  }

  // The number of slots that the builder writes for a number of bits.
  function Slots(bits: bv8): bv64
    requires 1 <= bits <= 63
  {
    1 + (0xffff_ffff_ffff_ffff >> (64 - bits))
  }

  lemma SlotsAreOnes(bits: bv8)
    requires 1 <= bits <= 63
    ensures Slots(bits) - 1 == Ones(bits) && Slots(bits) == (1 as bv64) << bits
  {
  }

  // The shift that open() finds from the number of slots in an index file.
  method RecoverShift(nKeys: bv64) returns (shift: int)
    ensures shift == 64 - BitCount(nKeys - 1, 64)
  {
    var count := Popcnt64(nKeys - 1);
    shift := 64 - count as bv8 as nat;
  }

  // It is the shift of the builder.
  lemma ShiftRecovered(bits: bv8)
    requires 1 <= bits <= 63
    ensures 64 - BitCount(Slots(bits) - 1, 64) == (64 - bits) as int
  {
    SlotsAreOnes(bits);
    CountOnes(bits, 64);
    Complement(bits);
  }

  lemma Complement(bits: bv8)
    requires bits <= 64
    ensures (64 - bits) as int == 64 - bits as int
  {
  }
}
