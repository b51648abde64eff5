// Hashes as hexadecimal text, and records as the bytes of a file.
module HashText {
  import opened Records

  type Byte = x: nat | x < 256

  // --- hexadecimal digits ---

  // -1 if c is not a hexadecimal digit
  function DecodeHex(c: char): (d: int)
    ensures -1 <= d < 16
  {
    if '0' <= c <= '9' then c as int - '0' as int
    else if 'a' <= c <= 'f' then c as int - 'a' as int + 10
    else if 'A' <= c <= 'F' then c as int - 'A' as int + 10
    else -1
  }

  function HexDigit(d: nat): char
    requires d < 16
  {
    if d < 10 then '0' + d as char else 'a' + (d - 10) as char
  }

  function Lower(c: char): char {
    if 'A' <= c <= 'Z' then c + 32 as char else c
  }

  function LowerAll(s: string): (t: string)
    ensures |t| == |s|
  {
    seq(|s|, i requires 0 <= i < |s| => Lower(s[i]))
  }

  predicate IsHex(s: string) {
    forall i :: 0 <= i < |s| ==> DecodeHex(s[i]) >= 0
  }

  // --- Hash::toString ---

  // x in n digits, as setw, setfill('0') and hex print it
  function ToHex(x: nat, n: nat): (s: string)
    ensures |s| == n
  {
    if n == 0 then [] else ToHex(x / 16, n - 1) + [HexDigit(x % 16)]
  }

  function ToString(h: Hash): (s: string)
    ensures |s| == 32
  {
    ToHex(h.upper, 16) + ToHex(h.lower, 16)
  }

  // --- Hash::fromHex ---

  function DecodePair(hi: char, lo: char): Option<Byte> {
    var h, l := DecodeHex(hi), DecodeHex(lo);
    if h >= 0 && l >= 0 then Some(h * 16 + l) else None
  }

  // The bytes that the digit pairs of s stand for, up to the first pair that is
  // not made of two hexadecimal digits.
  function Pairs(s: string): (bs: seq<Byte>)
    ensures 2 * |bs| <= |s|
  {
    if |s| < 2 then []
    else match DecodePair(s[0], s[1])
      case None => []
      case Some(b) => [b] + Pairs(s[2..])
  }

  function BigEndian(bs: seq<Byte>): nat {
    if bs == [] then 0 else 256 * BigEndian(bs[..|bs| - 1]) + bs[|bs| - 1]
  }

  function Zeros(n: nat): (bs: seq<Byte>)
    ensures |bs| == n
  {
    seq(n, _ => 0)
  }

  lemma BigEndianBound(bs: seq<Byte>)
    ensures |bs| == 8 ==> BigEndian(bs) < TWO64
    ensures |bs| < 8 ==> BigEndian(bs) * 256 < TWO64
    decreases bs
  {
    BigEndianSmall(bs, |bs|);
  }

  ghost function Pow256(n: nat): nat { if n == 0 then 1 else 256 * Pow256(n - 1) }

  lemma {:induction false} BigEndianSmall(bs: seq<Byte>, n: nat)
    requires |bs| == n
    ensures BigEndian(bs) < Pow256(n)
    ensures n <= 7 ==> Pow256(n) * 256 <= TWO64
    ensures n == 8 ==> Pow256(n) == TWO64
  {
    assert Pow256(8) == TWO64;
    if n > 0 {
      BigEndianSmall(bs[..n - 1], n - 1);
    }
  }

  // ntohll of both halves of the data bytes
  function HostOrder(data: seq<Byte>): Hash
    requires |data| == 16
  {
    BigEndianBound(data[..8]);
    BigEndianBound(data[8..]);
    Hash(BigEndian(data[..8]), BigEndian(data[8..]))
  }

  datatype Parsed = Parsed(hash: Hash, isValid: bool)

  // One pair more: either it adds a byte to those found, or they are all there are.
  lemma PairsStep(s: string, all: seq<Byte>, found: seq<Byte>, i: nat)
    requires i + 2 <= |s| && all == found + Pairs(s[i..])
    ensures match DecodePair(s[i], s[i + 1])
            case None => all == found
            case Some(b) => all == (found + [b]) + Pairs(s[i + 2..])
  {
    var t := s[i..];
    assert t[0] == s[i] && t[1] == s[i + 1] && t[2..] == s[i + 2..];
  }

  // The pairs from position i on are those still to be found.
  ghost predicate StillToFind(s: string, all: seq<Byte>, found: seq<Byte>, i: nat) {
    i <= |s| && all == found + Pairs(s[i..])
  }

  // The pair at position i; None if it is not made of two hexadecimal digits.
  method NextPair(s: string, i: nat, ghost all: seq<Byte>, ghost found: seq<Byte>) returns (b: Option<Byte>)
    requires i + 2 <= |s| && StillToFind(s, all, found, i)
    ensures b == DecodePair(s[i], s[i + 1])
    ensures if b == None then all == found else StillToFind(s, all, found + [b.value], i + 2)
  {
    PairsStep(s, all, found, i);
    b := DecodePair(s[i], s[i + 1]);
  }

  lemma FindStart(s: string)
    ensures StillToFind(s, Pairs(s), [], 0)
  {
    assert s[0..] == s && [] + Pairs(s) == Pairs(s);
  }

  lemma FindEnd(s: string, all: seq<Byte>, found: seq<Byte>)
    requires StillToFind(s, all, found, |s|)
    ensures all == found
  {
  }

  // The loop over the digit pairs; it stops at the first bad one.
  method FillBytes(s: string, data: array<Byte>) returns (j: nat)
    requires |s| == 32 && data.Length == 16 && forall k :: 0 <= k < 16 ==> data[k] == 0
    modifies data
    ensures j == |Pairs(s)| && data[..] == Pairs(s) + Zeros(16 - j)
  {
    var i := 0;
    j := 0;
    ghost var all, found: seq<Byte> := Pairs(s), [];
    FindStart(s);
    while i < |s|
      invariant i == 2 * j <= 32 && |found| == j && StillToFind(s, all, found, i)
      invariant forall k :: 0 <= k < j ==> data[k] == found[k]
      invariant forall k :: j <= k < 16 ==> data[k] == 0
    {
      var b := NextPair(s, i, all, found);
      if b == None { break; }
      data[j] := b.value;
      j := j + 1;
      found := found + [b.value];
      i := i + 2;
    }
    if i == |s| { FindEnd(s, all, found); }
    assert data[..] == found + Zeros(16 - j);
  }

  method FromHex(s: string) returns (p: Parsed)
    ensures p == ParsedHex(s)
  {
    var data := new Byte[16](_ => 0);
    var isValid := false;
    if |s| == 32 {
      var j := FillBytes(s, data);
      isValid := j == 16;
    } else {
      var none: seq<Byte> := [];
      assert data[..] == none + Zeros(16);
    }
    p := Parsed(HostOrder(data[..]), isValid);
  }

  // A text of the wrong length leaves all bytes zero; a text with a bad digit
  // leaves the bytes before it in place.
  function ParsedHex(s: string): Parsed {
    var bs := if |s| == 32 then Pairs(s) else [];
    Parsed(HostOrder(bs + Zeros(16 - |bs|)), |s| == 32 && |bs| == 16)
  }

  // --- reading back what was printed, and printing what was read ---

  lemma DecodeDigit(d: nat)
    requires d < 16
    ensures DecodeHex(HexDigit(d)) == d
  {
  }

  // A text of digit pairs has one byte for each pair.
  lemma {:induction false} PairsAll(s: string)
    requires IsHex(s) && |s| % 2 == 0
    ensures 2 * |Pairs(s)| == |s|
    ensures forall i :: 0 <= i < |Pairs(s)| ==> Pairs(s)[i] == DecodeHex(s[2 * i]) * 16 + DecodeHex(s[2 * i + 1])
  {
    if s != [] {
      PairsAll(s[2..]);
    }
  }

  lemma {:induction false} PairsConcat(s: string, t: string)
    requires IsHex(s) && |s| % 2 == 0
    ensures Pairs(s + t) == Pairs(s) + Pairs(t)
    decreases |s|
  {
    if s == [] {
      assert s + t == t;
    } else {
      assert (s + t)[2..] == s[2..] + t;
      PairsConcat(s[2..], t);
    }
  }

  lemma ToHexTwo(y: nat, d: nat, e: nat, n: nat)
    requires d < 16 && e < 16
    ensures ToHex(256 * y + d * 16 + e, n + 2) == ToHex(y, n) + [HexDigit(d), HexDigit(e)]
  {
    var x := 256 * y + d * 16 + e;
    assert x / 16 == 16 * y + d && x % 16 == e;
    assert x / 16 / 16 == y && x / 16 % 16 == d;
    assert ToHex(x, n + 2) == ToHex(x / 16, n + 1) + [HexDigit(e)];
    assert ToHex(x / 16, n + 1) == ToHex(y, n) + [HexDigit(d)];
  }

  lemma LastPair(head: string, last: string)
    requires IsHex(head) && |head| % 2 == 0 && IsHex(last) && |last| == 2
    ensures |Pairs(head + last)| == |Pairs(head)| + 1
    ensures BigEndian(Pairs(head + last)) ==
            256 * BigEndian(Pairs(head)) + DecodeHex(last[0]) * 16 + DecodeHex(last[1])
  {
    PairsConcat(head, last);
    assert Pairs(last[2..]) == [];
    var b: Byte := DecodeHex(last[0]) * 16 + DecodeHex(last[1]);
    assert Pairs(last) == [b];
    BigEndianSnoc(Pairs(head), b);
  }

  lemma BigEndianSnoc(bs: seq<Byte>, b: Byte)
    ensures BigEndian(bs + [b]) == 256 * BigEndian(bs) + b
  {
    assert (bs + [b])[..|bs + [b]| - 1] == bs;
  }

  // n bytes of digits spell the number that the digits spell.
  ghost predicate Spells(s: string, x: nat, n: nat) {
    |s| == 2 * n && IsHex(s) && |Pairs(s)| == n && BigEndian(Pairs(s)) == x
  }

  lemma SpellsStep(head: string, y: nat, n: nat, d: nat, e: nat)
    requires Spells(head, y, n) && d < 16 && e < 16
    ensures Spells(head + [HexDigit(d), HexDigit(e)], 256 * y + d * 16 + e, n + 1)
  {
    LastPair(head, [HexDigit(d), HexDigit(e)]);
  }

  lemma SplitByte(x: nat) returns (y: nat, d: nat, e: nat)
    ensures d < 16 && e < 16 && x == 256 * y + d * 16 + e
  {
    y, d, e := x / 256, x / 16 % 16, x % 16;
  }

  lemma {:induction false} PrintedPairs(x: nat, n: nat)
    requires x < Pow256(n)
    ensures Spells(ToHex(x, 2 * n), x, n)
  {
    if n > 0 {
      var y, d, e := SplitByte(x);
      PrintedPairs(y, n - 1);
      SpellsStep(ToHex(y, 2 * (n - 1)), y, n - 1, d, e);
      ToHexTwo(y, d, e, 2 * (n - 1));
    }
  }

  lemma HostOrderOf(u: seq<Byte>, l: seq<Byte>)
    requires |u| == 8 && |l| == 8
    ensures HostOrder(u + l).upper == BigEndian(u) && HostOrder(u + l).lower == BigEndian(l)
  {
    assert (u + l)[..8] == u && (u + l)[8..] == l;
  }

  lemma ParsedHalves(u: string, l: string)
    requires IsHex(u) && IsHex(l) && |u| == 16 && |l| == 16
    ensures var p := ParsedHex(u + l);
            && p.isValid && p.hash.upper == BigEndian(Pairs(u)) && p.hash.lower == BigEndian(Pairs(l))
  {
    PairsAll(u);
    PairsAll(l);
    PairsConcat(u, l);
    assert Pairs(u + l) + Zeros(0) == Pairs(u + l);
    HostOrderOf(Pairs(u), Pairs(l));
  }

  // fromHex(toString(h)) is h, and valid.
  lemma ParsePrinted(h: Hash)
    ensures ParsedHex(ToString(h)) == Parsed(h, true)
  {
    assert Pow256(8) == TWO64;
    PrintedPairs(h.upper, 8);
    PrintedPairs(h.lower, 8);
    ParsedHalves(ToHex(h.upper, 16), ToHex(h.lower, 16));
  }

  // Induction over head or last would not help here, and costs time.
  lemma {:induction false} ReprintedStep(head: string, last: string)
    requires IsHex(head) && |head| % 2 == 0 && IsHex(last) && |last| == 2
    requires ToHex(BigEndian(Pairs(head)), |head|) == LowerAll(head)
    ensures ToHex(BigEndian(Pairs(head + last)), |head| + 2) == LowerAll(head + last)
  {
    LastPair(head, last);
    ToHexTwo(BigEndian(Pairs(head)), DecodeHex(last[0]), DecodeHex(last[1]), |head|);
    LowerDigit(last[0]);
    LowerDigit(last[1]);
    assert LowerAll(head + last) == LowerAll(head) + [Lower(last[0]), Lower(last[1])];
  }

  lemma {:induction false} ReprintedPairs(s: string)
    requires IsHex(s) && |s| % 2 == 0
    ensures ToHex(BigEndian(Pairs(s)), |s|) == LowerAll(s)
    decreases |s|
  {
    if s != [] {
      var head, last := s[..|s| - 2], s[|s| - 2..];
      assert s == head + last;
      ReprintedPairs(head);
      ReprintedStep(head, last);
    }
  }

  lemma LowerDigit(c: char)
    requires DecodeHex(c) >= 0
    ensures HexDigit(DecodeHex(c)) == Lower(c)
  {
  }

  lemma ReprintedQuad(s: string)
    requires IsHex(s) && |s| == 16
    ensures ToHex(BigEndian(Pairs(s)), 16) == LowerAll(s)
  {
    ReprintedPairs(s);
  }

  lemma LowerAllConcat(u: string, l: string)
    ensures LowerAll(u + l) == LowerAll(u) + LowerAll(l)
  {
  }

  // fromHex(s).toString() is s in lower case, for every text of 32 digits.
  lemma PrintParsed(s: string)
    requires IsHex(s) && |s| == 32
    ensures ParsedHex(s).isValid && ToString(ParsedHex(s).hash) == LowerAll(s)
  {
    var u, l := s[..16], s[16..];
    assert s == u + l;
    ParsedHalves(u, l);
    ReprintedQuad(u);
    ReprintedQuad(l);
    LowerAllConcat(u, l);
  }

  // --- the order of hashes is the order of their texts ---

  predicate LexLess(s: string, t: string) {
    if s == [] || t == [] then s == [] && t != []
    else s[0] < t[0] || (s[0] == t[0] && LexLess(s[1..], t[1..]))
  }

  lemma {:induction false} LexSplit(s: string, t: string, a: string, b: string)
    requires |s| == |t|
    ensures LexLess(s + a, t + b) <==> LexLess(s, t) || (s == t && LexLess(a, b))
    decreases |s|
  {
    if s == [] {
      assert s + a == a && t + b == b;
    } else {
      assert (s + a)[1..] == s[1..] + a && (t + b)[1..] == t[1..] + b;
      LexSplit(s[1..], t[1..], a, b);
      assert s == t <==> s[0] == t[0] && s[1..] == t[1..];
    }
  }

  lemma {:induction false} HexOrder(x: nat, y: nat, n: nat)
    requires x < Pow16(n) && y < Pow16(n)
    ensures LexLess(ToHex(x, n), ToHex(y, n)) <==> x < y
    ensures ToHex(x, n) == ToHex(y, n) <==> x == y
  {
    if n > 0 {
      HexOrder(x / 16, y / 16, n - 1);
      var a, b := [HexDigit(x % 16)], [HexDigit(y % 16)];
      var s, t := ToHex(x / 16, n - 1), ToHex(y / 16, n - 1);
      LexSplit(s, t, a, b);
      assert s + a == t + b <==> s == t && a == b by {
        assert (s + a)[..n - 1] == s && (t + b)[..n - 1] == t;
        assert (s + a)[n - 1] == a[0] && (t + b)[n - 1] == b[0];
      }
      DecodeDigit(x % 16);
      DecodeDigit(y % 16);
    }
  }

  ghost function Pow16(n: nat): nat { if n == 0 then 1 else 16 * Pow16(n - 1) }

  lemma LessIsLexicographic(a: Hash, b: Hash)
    ensures Less(a, b) <==> LexLess(ToString(a), ToString(b))
  {
    assert Pow16(16) == TWO64 by { assert Pow16(8) == TWO32; }
    HexOrder(a.upper, b.upper, 16);
    HexOrder(a.lower, b.lower, 16);
    LexSplit(ToHex(a.upper, 16), ToHex(b.upper, 16), ToHex(a.lower, 16), ToHex(b.lower, 16));
  }

  // --- records in a file: both quads and the count, lowest byte first ---

  function LittleEndian(x: nat, n: nat): (bs: seq<Byte>)
    ensures |bs| == n
  {
    if n == 0 then [] else [x % 256] + LittleEndian(x / 256, n - 1)
  }

  // The lowest byte comes first.
  lemma {:induction false} LittleEndianBytes(x: nat, n: nat, i: nat)
    requires i < n
    ensures LittleEndian(x, n)[i] == ShiftedBytes(x, i) % 256
  {
    if i > 0 { LittleEndianBytes(x / 256, n - 1, i - 1); }
  }

  // x without its lowest i bytes
  function ShiftedBytes(x: nat, i: nat): nat { if i == 0 then x else ShiftedBytes(x / 256, i - 1) }

  function FromLittleEndian(bs: seq<Byte>): nat {
    if bs == [] then 0 else bs[0] + 256 * FromLittleEndian(bs[1..])
  }

  lemma {:induction false} LittleEndianInverse(x: nat, n: nat)
    requires x < Pow256(n)
    ensures FromLittleEndian(LittleEndian(x, n)) == x
  {
    if n > 0 {
      LittleEndianInverse(x / 256, n - 1);
      assert LittleEndian(x, n)[1..] == LittleEndian(x / 256, n - 1);
    }
  }

  lemma {:induction false} FromLittleEndianBound(bs: seq<Byte>)
    ensures FromLittleEndian(bs) < Pow256(|bs|)
  {
    if bs != [] { FromLittleEndianBound(bs[1..]); }
  }

  function Dump(r: Rec): (bs: seq<Byte>)
    ensures |bs| == RECORD_SIZE
  {
    LittleEndian(r.hash.upper, 8) + LittleEndian(r.hash.lower, 8) + LittleEndian(r.count, 4)
  }

  // The upper half of the hash, the lower half, and the count.
  lemma DumpBytes(r: Rec, i: nat)
    ensures i < 8 ==> Dump(r)[i] == ShiftedBytes(r.hash.upper, i) % 256
    ensures i < 8 ==> Dump(r)[8 + i] == ShiftedBytes(r.hash.lower, i) % 256
    ensures i < 4 ==> Dump(r)[16 + i] == ShiftedBytes(r.count, i) % 256
  {
    if i < 8 {
      LittleEndianBytes(r.hash.upper, 8, i);
      LittleEndianBytes(r.hash.lower, 8, i);
    }
    if i < 4 { LittleEndianBytes(r.count, 4, i); }
  }

  function DumpAll(rs: seq<Rec>): (bs: seq<Byte>)
    ensures |bs| == RECORD_SIZE * |rs|
  {
    if rs == [] then [] else Dump(rs[0]) + DumpAll(rs[1..])
  }

  function ParseRec(b: seq<Byte>): Rec
    requires |b| == RECORD_SIZE
  {
    assert Pow256(8) == TWO64 && Pow256(4) == TWO32;
    FromLittleEndianBound(b[..8]);
    FromLittleEndianBound(b[8..16]);
    FromLittleEndianBound(b[16..]);
    Rec(Hash(FromLittleEndian(b[..8]), FromLittleEndian(b[8..16])), FromLittleEndian(b[16..]))
  }

  // What a read at a byte offset delivers, if there are enough bytes left.
  function ReadAt(bs: seq<Byte>, pos: nat): Option<Rec> {
    if pos + RECORD_SIZE > |bs| then None else Some(ParseRec(bs[pos..pos + RECORD_SIZE]))
  }

  lemma ReadDumped(r: Rec)
    ensures ParseRec(Dump(r)) == r
  {
    var b := Dump(r);
    assert Pow256(8) == TWO64 && Pow256(4) == TWO32;
    LittleEndianInverse(r.hash.upper, 8);
    LittleEndianInverse(r.hash.lower, 8);
    LittleEndianInverse(r.count, 4);
    assert b[..8] == LittleEndian(r.hash.upper, 8);
    assert b[8..16] == LittleEndian(r.hash.lower, 8);
    assert b[16..] == LittleEndian(r.count, 4);
  }

  lemma SliceBehind(a: seq<Byte>, b: seq<Byte>, p: nat, q: nat)
    requires |a| <= p <= q <= |a| + |b|
    ensures (a + b)[p..q] == b[p - |a|..q - |a|]
  {
  }

  // A file of dumped records is the list of these records: offset 20 * i holds
  // record i, and there is nothing behind the last one.
  lemma {:induction false} FileIsRecords(rs: seq<Rec>, i: nat)
    ensures ReadAt(DumpAll(rs), RECORD_SIZE * i) == if i < |rs| then Some(rs[i]) else None
    decreases |rs|
  {
    var all := DumpAll(rs);
    if i < |rs| {
      if i == 0 {
        ReadDumped(rs[0]);
        assert all[0..RECORD_SIZE] == Dump(rs[0]);
      } else {
        FileIsRecords(rs[1..], i - 1);
        var p := RECORD_SIZE * i;
        SliceBehind(Dump(rs[0]), DumpAll(rs[1..]), p, p + RECORD_SIZE);
      }
    }
  }
}
