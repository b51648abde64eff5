// What the reader takes for the password of a line, and what it hashes, in terms of the
// characters alone.
module Passwords {
  import opened Records
  import opened HashText
  import opened HashParse
  import opened Reader

  // --- dropping a character ---

  lemma {:induction false} WithoutConcat(s: string, t: string, c: char)
    ensures Without(s + t, c) == Without(s, c) + Without(t, c)
  {
    if s == [] {
      assert s + t == t;
    } else {
      assert (s + t)[1..] == s[1..] + t;
      WithoutConcat(s[1..], t, c);
    }
  }

  lemma WithoutOne(x: char, c: char)
    ensures Without([x], c) == if x == c then [] else [x]
  {
  }

  // All other characters stay, as often and in the order in which they are there.
  lemma {:induction false} WithoutKeeps(s: string, c: char)
    ensures c !in Without(s, c)
    ensures multiset(Without(s, c)) == multiset(s)[c := 0]
  {
    if s != [] {
      WithoutKeeps(s[1..], c);
      assert s == [s[0]] + s[1..];
    }
  }

  lemma WithoutOrder(a: string, x: char, m: string, y: char, e: string, c: char)
    requires x != c && y != c
    ensures Without(a + [x] + m + [y] + e, c) == Without(a, c) + [x] + Without(m, c) + [y] + Without(e, c)
  {
    WithoutConcat(a + [x] + m + [y], e, c);
    WithoutConcat(a + [x] + m, [y], c);
    WithoutConcat(a + [x], m, c);
    WithoutConcat(a, [x], c);
  }

  // --- the password of a line ---

  lemma {:induction false} BehindFirst(a: string, p: string, c: char)
    requires c !in a
    ensures Behind(a + [c] + p, c) == p
  {
    var s := a + [c] + p;
    assert s[|a|] == c;
    if a == [] {
      assert s == [c] + p;
    } else {
      assert s[1..] == a[1..] + [c] + p;
      BehindFirst(a[1..], p, c);
    }
  }

  // A line of 1 to 200 characters, without its carriage returns: the part behind the
  // first separator.
  lemma PasswordBehind(cfg: Settings, line: string, a: string, p: string)
    requires 1 <= |line| <= 200 && cfg.separator != '\0'
    requires Without(line, '\r') == a + [cfg.separator] + p && cfg.separator !in a
    ensures PasswordOf(cfg, line) == p
  {
    BehindFirst(a, p, cfg.separator);
  }

  // If there is no separator, the whole of it; any other line has no password.
  lemma PasswordWhole(cfg: Settings, line: string)
    ensures 1 <= |line| <= 200 && (cfg.separator == '\0' || cfg.separator !in Without(line, '\r')) ==>
              PasswordOf(cfg, line) == Without(line, '\r')
    ensures |line| == 0 || |line| > 200 ==> PasswordOf(cfg, line) == []
  {
  }

  lemma {:induction false} SplitAtFirst(l: string, c: char) returns (a: string, p: string)
    requires c in l
    ensures l == a + [c] + p && c !in a
  {
    if l[0] == c {
      a, p := [], l[1..];
    } else {
      a, p := SplitAtFirst(l[1..], c);
      a := [l[0]] + a;
    }
  }

  // So a line has a password exactly if there is something behind its first separator,
  // or no separator and something else than carriage returns.
  lemma PasswordIff(cfg: Settings, line: string)
    ensures PasswordOf(cfg, line) != [] <==>
            && 1 <= |line| <= 200
            && var l := Without(line, '\r');
               if cfg.separator == '\0' || cfg.separator !in l then l != []
               else exists a, p :: l == a + [cfg.separator] + p && cfg.separator !in a && p != []
  {
    var l := Without(line, '\r');
    if 1 <= |line| <= 200 && cfg.separator != '\0' && cfg.separator in l {
      var a, p := SplitAtFirst(l, cfg.separator);
      PasswordBehind(cfg, line, a, p);
      forall a', p' | l == a' + [cfg.separator] + p' && cfg.separator !in a' ensures p' == p {
        PasswordBehind(cfg, line, a', p');
      }
    }
  }

  // --- the hash of a password ---

  ghost predicate Alphanumeric(s: string) {
    forall i :: 0 <= i < |s| ==> 'a' <= s[i] <= 'z' || 'A' <= s[i] <= 'Z' || '0' <= s[i] <= '9'
  }

  // pwd is a text between $HEX[ and ].
  ghost predicate Wraps(pwd: string, x: string) {
    pwd == "$HEX[" + x + "]" && x != [] && |x| % 2 == 0 && Alphanumeric(x)
  }

  ghost predicate IsDigest(cfg: Settings, pwd: string) {
    cfg.forceMD5 && |pwd| == 32 && HexText(pwd)
  }

  lemma MatchesHexIff(pwd: string)
    ensures MatchesHex(pwd) <==> exists x :: Wraps(pwd, x)
    ensures MatchesHex(pwd) ==> Wraps(pwd, pwd[5..|pwd| - 1])
  {
    if MatchesHex(pwd) {
      assert pwd == pwd[..5] + pwd[5..|pwd| - 1] + [pwd[|pwd| - 1]];
      assert Wraps(pwd, pwd[5..|pwd| - 1]);
    }
    forall x | Wraps(pwd, x) ensures MatchesHex(pwd) {
      WrapsMatches(pwd, x);
    }
  }

  lemma WrapsMatches(pwd: string, x: string)
    requires Wraps(pwd, x)
    ensures MatchesHex(pwd) && pwd[5..|pwd| - 1] == x && pwd[0] == '$'
  {
    assert pwd[..5] == "$HEX[" && pwd[5..|pwd| - 1] == x;
  }

  // 32 hexadecimal digits are the hash that they print, if such are to be evaluated.
  lemma HashOfDigest(cfg: Settings, md5: string -> Hash, pwd: string)
    requires IsDigest(cfg, pwd)
    ensures HashOf(cfg, md5, pwd).Some? && ToString(HashOf(cfg, md5, pwd).value) == LowerAll(pwd)
  {
    ValidIff(pwd);
    HexTextIsHex(pwd);
    PrintParsed(pwd);
  }

  // The bytes that the good digit pairs of x spell.
  ghost predicate Spells(t: string, x: string) {
    && 2 * |t| <= |x|
    && HexText(x[..2 * |t|])
    && (2 * |t| < |x| ==> 2 * |t| + 2 <= |x| && !HexText(x[2 * |t|..2 * |t| + 2]))
    && forall i :: 0 <= i < |t| ==> t[i] as int == 16 * DecodeHex(x[2 * i]) + DecodeHex(x[2 * i + 1])
  }

  lemma DehexSpells(x: string)
    requires |x| % 2 == 0
    ensures Spells(HexToCharSeq(x), x)
    ensures HexText(x) ==> 2 * |HexToCharSeq(x)| == |x|
  {
    PairsStop(x);
    var g := 2 * |Pairs(x)|;
    var good, bad := x[..g], x[g..];
    assert x == good + bad;
    HexTextIsHex(good);
    PairsAll(good);
    PairsConcat(good, bad);
    assert Pairs(x) == Pairs(good);
    if g < |x| { PartOfHexText(x, g, g + 2); }
  }

  // A wrapped text is hashed by the bytes that it spells, if such are to be evaluated.
  lemma HashOfWrapped(cfg: Settings, md5: string -> Hash, pwd: string, x: string)
    requires cfg.forceHex && Wraps(pwd, x)
    ensures exists t :: Spells(t, x) && HashOf(cfg, md5, pwd) == Some(md5(t))
  {
    WrapsMatches(pwd, x);
    ValidIff(pwd);
    DehexSpells(x);
    assert HashOf(cfg, md5, pwd) == Some(md5(HexToCharSeq(x)));
  }

  lemma NoLonger(t: string, x: string, n: nat)
    requires Spells(t, x) && n <= |x| && n % 2 == 0
    ensures 2 * |t| < n ==> !HexText(x[..n])
  {
    if 2 * |t| < n {
      var g := 2 * |t|;
      assert x[..n][g..g + 2] == x[g..g + 2];
      PartOfHexText(x[..n], g, g + 2);
    }
  }

  // Only one text is spelled.
  lemma SpelledOnce(t: string, t': string, x: string)
    requires Spells(t, x) && Spells(t', x)
    ensures t == t'
  {
    NoLonger(t, x, 2 * |t'|);
    NoLonger(t', x, 2 * |t|);
  }

  // Anything else is hashed as it is; no password has no hash.
  lemma HashOfOther(cfg: Settings, md5: string -> Hash, pwd: string)
    requires !IsDigest(cfg, pwd) && !(cfg.forceHex && exists x :: Wraps(pwd, x))
    ensures HashOf(cfg, md5, pwd) == if pwd == [] then None else Some(md5(pwd))
  {
    ValidIff(pwd);
    MatchesHexIff(pwd);
  }

  // --- the first look ---

  lemma FirstLinesMeaning(text: string)
    ensures |Lines(text)| <= 500 ==> FirstLines(text) == Lines(text)
    ensures |Lines(text)| > 500 ==> |FirstLines(text)| == 500 && FirstLines(text) <= Lines(text)
  {
  }

  // No candidate splits more lines, and none that comes before it in the character set
  // splits as many; there is no separator exactly if no candidate splits any line.
  lemma SeparatorMeaning(lines: seq<string>, c: char, d: char)
    requires IsBestSeparator(lines, c) && (d == '\t' || d == ' ' || d == ':' || d == ';')
    ensures c == '\0' ==> Splits(lines, d) == 0
    ensures c != '\0' ==> (c == '\t' || c == ' ' || c == ':' || c == ';') && Splits(lines, c) > 0
    ensures c != '\0' ==> Splits(lines, d) <= Splits(lines, c) && (d < c ==> Splits(lines, d) < Splits(lines, c))
  {
    var k := if d == '\t' then 0 else if d == ' ' then 1 else if d == ':' then 2 else 3;
    assert SEPARATORS[k] == d && Tallies(lines)[k] == Splits(lines, d);
  }

  // 32 letters or digits in a row, once the carriage returns are dropped.
  ghost predicate HoldsDigest(l: string) {
    var k := Without(l, '\r');
    exists i, j :: 0 <= i <= j <= |k| && j - i == 32 && Alphanumeric(k[i..j])
  }

  ghost predicate HoldsWrapped(l: string) {
    exists i, j, x :: 0 <= i <= j <= |l| && Wraps(l[i..j], x)
  }

  // A hash or a wrapped text in one of the first lines that have the separator turns the
  // evaluation on, if it is to be found out.
  lemma SettingsMeaning(text: string, options: Settings, autoMD5: bool, autoHex: bool, cfg: Settings)
    requires IsSettings(text, options, autoMD5, autoHex, cfg)
    ensures cfg.forceMD5 <==>
            options.forceMD5 || (autoMD5 && exists l :: l in FirstLines(text) && cfg.separator in l && HoldsDigest(l))
    ensures cfg.forceHex <==>
            options.forceHex || (autoHex && exists l :: l in FirstLines(text) && cfg.separator in l && HoldsWrapped(l))
  {
    forall l ensures ContainsMD5WithoutCR(l) <==> HoldsDigest(l) { DigestIff(l); }
    forall l ensures ContainsHex(l) <==> HoldsWrapped(l) { WrappedIff(l); }
  }

  lemma DigestIff(l: string)
    ensures ContainsMD5WithoutCR(l) <==> HoldsDigest(l)
  {
    var k := Without(l, '\r');
    if i, j :| 0 <= i <= j <= |k| && MatchesMD5(k[i..j]) {
      assert j - i == 32 && Alphanumeric(k[i..j]);
    }
    if i, j :| 0 <= i <= j <= |k| && j - i == 32 && Alphanumeric(k[i..j]) {
      assert MatchesMD5(k[i..j]);
    }
  }

  lemma WrappedIff(l: string)
    ensures ContainsHex(l) <==> HoldsWrapped(l)
  {
    if i, j :| 0 <= i <= j <= |l| && MatchesHex(l[i..j]) { MatchesHexIff(l[i..j]); }
    if i, j, x :| 0 <= i <= j <= |l| && Wraps(l[i..j], x) { MatchesHexIff(l[i..j]); }
  }
}
