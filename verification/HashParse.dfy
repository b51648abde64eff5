// What Hash::fromHex makes of any text, in terms of the characters alone.
module HashParse {
  import opened Records
  import opened HashText

  ghost predicate HexText(s: string) {
    forall i :: 0 <= i < |s| ==> '0' <= s[i] <= '9' || 'a' <= s[i] <= 'f' || 'A' <= s[i] <= 'F'
  }

  lemma DecodeHexCases(c: char)
    ensures '0' <= c <= '9' ==> DecodeHex(c) == c as int - 48
    ensures 'a' <= c <= 'f' ==> DecodeHex(c) == c as int - 97 + 10
    ensures 'A' <= c <= 'F' ==> DecodeHex(c) == c as int - 65 + 10
    ensures DecodeHex(c) == -1 <==> !('0' <= c <= '9' || 'a' <= c <= 'f' || 'A' <= c <= 'F')
  {
  }

  lemma HexTextIsHex(s: string)
    ensures HexText(s) <==> IsHex(s)
  {
  }

  // The pairs end at the end of the text, or where the next two characters are not both
  // hexadecimal digits.
  lemma {:induction false} PairsStop(s: string)
    requires |s| % 2 == 0
    ensures var g := 2 * |Pairs(s)|;
            HexText(s[..g]) && (g < |s| ==> g + 2 <= |s| && !HexText(s[g..g + 2]))
  {
    if |s| >= 2 {
      var pair, rest := s[..2], s[2..];
      assert HexText(pair) <==> DecodePair(s[0], s[1]).Some? by { HexTextIsHex(pair); }
      if HexText(pair) {
        PairsStop(rest);
        var g := 2 * |Pairs(rest)|;
        assert s[..g + 2] == pair + rest[..g];
        assert g < |rest| ==> s[g + 2..g + 4] == rest[g..g + 2];
      } else {
        assert s[..0] == [] && s[0..2] == pair;
      }
    }
  }

  lemma PartOfHexText(s: string, i: nat, j: nat)
    requires i <= j <= |s|
    ensures !HexText(s[i..j]) ==> !HexText(s)
  {
  }

  // A text is a valid hash exactly if it is made of 32 hexadecimal digits.
  lemma ValidIff(s: string)
    ensures ParsedHex(s).isValid <==> |s| == 32 && HexText(s)
  {
    if |s| == 32 {
      PairsStop(s);
      var g := 2 * |Pairs(s)|;
      if g == 32 {
        assert s[..32] == s;
      } else {
        PartOfHexText(s, g, g + 2);
      }
    }
  }

  lemma {:induction false} BigEndianZeros(n: nat)
    ensures BigEndian(Zeros(n)) == 0
  {
    if n > 0 {
      assert Zeros(n)[..n - 1] == Zeros(n - 1);
      BigEndianZeros(n - 1);
    }
  }

  // A text of any other length gives the zero hash.
  lemma WrongLength(s: string)
    requires |s| != 32
    ensures ParsedHex(s) == Parsed(Hash(0, 0), false)
  {
    var none: seq<Byte> := [];
    assert none + Zeros(16) == Zeros(8) + Zeros(8);
    HostOrderOf(Zeros(8), Zeros(8));
    BigEndianZeros(8);
  }

  function ZeroDigits(n: nat): (t: string)
    ensures |t| == n
  {
    seq(n, _ => '0')
  }

  lemma {:induction false} PairsOfZeros(n: nat)
    ensures Pairs(ZeroDigits(2 * n)) == Zeros(n)
  {
    if n > 0 {
      assert ZeroDigits(2 * n)[2..] == ZeroDigits(2 * (n - 1));
      PairsOfZeros(n - 1);
      assert Zeros(n) == [0] + Zeros(n - 1);
    }
  }

  lemma PairsBefore(s: string, g: nat)
    requires |s| == 32 && 2 * g + 2 <= 32 && HexText(s[..2 * g]) && !HexText(s[2 * g..2 * g + 2])
    ensures Pairs(s) == Pairs(s[..2 * g]) && |Pairs(s)| == g
  {
    var good, bad := s[..2 * g], s[2 * g..];
    assert s == good + bad;
    HexTextIsHex(good);
    HexTextIsHex(s[2 * g..2 * g + 2]);
    PairsConcat(good, bad);
    PairsAll(good);
    assert Pairs(bad) == [];
  }

  // A text with a bad digit gives the digits of the good pairs before it, and zeros.
  lemma BadDigit(s: string, g: nat)
    requires |s| == 32 && 2 * g + 2 <= 32 && HexText(s[..2 * g]) && !HexText(s[2 * g..2 * g + 2])
    ensures !ParsedHex(s).isValid
    ensures ToString(ParsedHex(s).hash) == LowerAll(s[..2 * g]) + ZeroDigits(32 - 2 * g)
  {
    PairsBefore(s, g);
    var good, zeros := s[..2 * g], ZeroDigits(32 - 2 * g);
    var t := good + zeros;
    HexTextIsHex(t);
    assert Pairs(t) == Pairs(good) + Zeros(16 - g) by {
      HexTextIsHex(good);
      PairsConcat(good, zeros);
      PairsOfZeros(16 - g);
    }
    assert Pairs(t) + Zeros(0) == Pairs(t);
    assert ParsedHex(s).hash == ParsedHex(t).hash;
    PrintParsed(t);
    LowerAllConcat(good, zeros);
    assert LowerAll(zeros) == zeros;
  }
}
