// UserPasswordReader: text lines to password hashes. MD5 is a parameter.
module Reader {
  import opened Records
  import opened HashText

  // --- lines ---

  // The next newline from pos on, or the end of the text.
  function LineEnd(text: string, pos: nat): (end: nat)
    requires pos <= |text|
    ensures pos <= end <= |text|
    decreases |text| - pos
  {
    if pos == |text| || text[pos] == '\n' then pos else LineEnd(text, pos + 1)
  }

  // What successive getline calls deliver from pos on.
  function LinesFrom(text: string, pos: nat): (ls: seq<string>)
    requires pos <= |text|
    decreases |text| - pos
  {
    var end := LineEnd(text, pos);
    if end == |text| then [text[pos..]] else [text[pos..end]] + LinesFrom(text, end + 1)
  }

  function Lines(text: string): seq<string> { LinesFrom(text, 0) }

  function Join(ls: seq<string>): string {
    if ls == [] then [] else if |ls| == 1 then ls[0] else ls[0] + ['\n'] + Join(ls[1..])
  }

  lemma JoinCons(l: string, rest: seq<string>)
    requires rest != []
    ensures Join([l] + rest) == l + ['\n'] + Join(rest)
  {
    assert ([l] + rest)[1..] == rest;
  }

  lemma SplitAtNewline(text: string, pos: nat, end: nat)
    requires pos <= end < |text| && text[end] == '\n'
    ensures text[pos..] == text[pos..end] + ['\n'] + text[end + 1..]
  {
  }

  // The lines joined by newlines are the text, and no line contains a newline.
  lemma {:induction false} LinesJoin(text: string, pos: nat)
    requires pos <= |text|
    ensures Join(LinesFrom(text, pos)) == text[pos..]
    decreases |text| - pos
  {
    var end := LineEnd(text, pos);
    if end < |text| {
      LinesJoin(text, end + 1);
      JoinLine(text, pos, end);
    }
  }

  lemma JoinLine(text: string, pos: nat, end: nat)
    requires pos <= |text| && end == LineEnd(text, pos) < |text|
    requires Join(LinesFrom(text, end + 1)) == text[end + 1..]
    ensures Join(LinesFrom(text, pos)) == text[pos..]
  {
    var line, rest := text[pos..end], LinesFrom(text, end + 1);
    assert text[end] == '\n' by { LineEndIsFirst(text, pos); }
    assert LinesFrom(text, pos) == [line] + rest;
    assert rest != [];
    JoinCons(line, rest);
    SplitAtNewline(text, pos, end);
  }

  lemma {:induction false} LinesClean(text: string, pos: nat)
    requires pos <= |text|
    ensures forall l :: l in LinesFrom(text, pos) ==> '\n' !in l
    decreases |text| - pos
  {
    var end := LineEnd(text, pos);
    LineEndIsFirst(text, pos);
    if end < |text| { LinesClean(text, end + 1); }
  }

  lemma {:induction false} LineEndIsFirst(text: string, pos: nat)
    requires pos <= |text|
    ensures '\n' !in text[pos..LineEnd(text, pos)]
    ensures LineEnd(text, pos) < |text| ==> text[LineEnd(text, pos)] == '\n'
    decreases |text| - pos
  {
    if pos < |text| && text[pos] != '\n' {
      LineEndIsFirst(text, pos + 1);
      var end := LineEnd(text, pos);
      assert text[pos..end] == [text[pos]] + text[pos + 1..end];
    }
  }

  // --- what a line means ---

  predicate IsAlnum(c: char) {
    'a' <= c <= 'z' || 'A' <= c <= 'Z' || '0' <= c <= '9'
  }

  predicate AllAlnum(s: string) {
    forall i :: 0 <= i < |s| ==> IsAlnum(s[i])
  }

  // regex_match with the pattern of an MD5 hash
  predicate MatchesMD5(s: string) {
    |s| == 32 && AllAlnum(s)
  }

  // regex_match with $HEX[...]: an even, positive number of characters inside
  predicate MatchesHex(s: string) {
    && |s| >= 8 && |s| % 2 == 0 && s[..5] == "$HEX[" && s[|s| - 1] == ']'
    && AllAlnum(s[5..|s| - 1])
  }

  // hexToCharSeq: for an odd length nothing; otherwise up to the first pair that is
  // not made of two hexadecimal digits.
  function HexToCharSeq(seq': string): string {
    if |seq'| % 2 == 0 then
      var bs := Pairs(seq');
      seq(|bs|, i requires 0 <= i < |bs| => bs[i] as char)
    else []
  }

  // hexToCharSeq as it runs; a text of odd length is not looked into, and reported as good.
  method Dehex(s: string) returns (ok: bool, result: string)
    ensures result == HexToCharSeq(s)
    ensures ok <==> |s| % 2 == 1 || 2 * |result| == |s|
  {
    result := [];
    if |s| % 2 == 0 {
      var i := 0;
      ghost var all, found: seq<Byte> := Pairs(s), [];
      FindStart(s);
      while i < |s|
        invariant i == 2 * |found| <= |s| && |result| == |found| && StillToFind(s, all, found, i)
        invariant forall k :: 0 <= k < |found| ==> result[k] == found[k] as char
      {
        var b := NextPair(s, i, all, found);
        if b == None { return false, result; }
        result := result + [b.value as char];
        found := found + [b.value];
        i := i + 2;
      }
      FindEnd(s, all, found);
    }
    ok := true;
  }

  function Without(s: string, c: char): string {
    if s == [] then [] else if s[0] == c then Without(s[1..], c) else [s[0]] + Without(s[1..], c)
  }

  // The part behind the first occurrence of c, or everything.
  function Behind(s: string, c: char): string
  {
    if c !in s then s else if s[0] == c then s[1..] else Behind(s[1..], c)
  }

  const NO_SEPARATOR: char := '\0'

  // What the first pass over the text has found out, and the command line options.
  datatype Settings = Settings(separator: char, forceMD5: bool, forceHex: bool)

  function ExtractPassword(cfg: Settings, line: string): string {
    var l := Without(line, '\r');
    if cfg.separator != NO_SEPARATOR then Behind(l, cfg.separator) else l
  }

  // nextPassword() for a given line
  function PasswordOf(cfg: Settings, line: string): string {
    if |line| > 200 || |line| < 1 then [] else ExtractPassword(cfg, line)
  }

  // nextPasswordHash() for a given password
  function HashOf(cfg: Settings, md5: string -> Hash, pwd: string): Option<Hash> {
    if pwd == [] then None
    else if cfg.forceMD5 && MatchesMD5(pwd) && ParsedHex(pwd).isValid then Some(ParsedHex(pwd).hash)
    else if cfg.forceHex && MatchesHex(pwd) then Some(md5(HexToCharSeq(pwd[5..|pwd| - 1])))
    else Some(md5(pwd))
  }

  function LineHash(cfg: Settings, md5: string -> Hash, line: string): Option<Hash> {
    HashOf(cfg, md5, PasswordOf(cfg, line))
  }

  function LineHashes(cfg: Settings, md5: string -> Hash): string -> Option<Hash> {
    (line: string) => LineHash(cfg, md5, line)
  }

  // A line is accepted exactly if its password is not empty.
  lemma AcceptedIff(cfg: Settings, md5: string -> Hash, line: string)
    ensures LineHash(cfg, md5, line).Some? <==> PasswordOf(cfg, line) != []
  {
  }

  // The hashes of the accepted lines, in order, for a given meaning of lines.
  function Hashes(hashOf: string -> Option<Hash>, lines: seq<string>): seq<Hash> {
    if lines == [] then []
    else
      var rest := Hashes(hashOf, lines[..|lines| - 1]);
      match hashOf(lines[|lines| - 1])
      case None => rest
      case Some(h) => rest + [h]
  }

  lemma {:induction false} HashesConcat(hashOf: string -> Option<Hash>, a: seq<string>, b: seq<string>)
    ensures Hashes(hashOf, a + b) == Hashes(hashOf, a) + Hashes(hashOf, b)
  {
    if b == [] {
      assert a + b == a;
    } else {
      assert (a + b)[..|a + b| - 1] == a + b[..|b| - 1];
      HashesConcat(hashOf, a, b[..|b| - 1]);
    }
  }

  lemma {:induction false} HashesShorter(hashOf: string -> Option<Hash>, lines: seq<string>)
    ensures |Hashes(hashOf, lines)| <= |lines|
  {
    if lines != [] { HashesShorter(hashOf, lines[..|lines| - 1]); }
  }

  ghost predicate SomeLine(hashOf: string -> Option<Hash>, lines: seq<string>, h: Hash) {
    exists l :: l in lines && hashOf(l) == Some(h)
  }

  lemma {:induction false} HashesMembers(hashOf: string -> Option<Hash>, lines: seq<string>, h: Hash)
    ensures h in Hashes(hashOf, lines) <==> SomeLine(hashOf, lines, h)
  {
    if lines != [] {
      var front, last := lines[..|lines| - 1], lines[|lines| - 1];
      HashesMembers(hashOf, front, h);
      assert forall l :: l in lines <==> l in front || l == last by {
        assert lines == front + [last];
      }
      if SomeLine(hashOf, lines, h) {
        var l :| l in lines && hashOf(l) == Some(h);
        assert l in front || l == last;
      }
    }
  }

  lemma TakeFirst(ls: seq<string>, n: nat, l: string, before: seq<string>, after: seq<string>)
    requires n <= |ls| && before == ls[n..] && before == [l] + after
    ensures n < |ls| && ls[n] == l && after == ls[n + 1..]
  {
    assert before[0] == l && before[1..] == after;
  }

  // --- the first look at a text ---

  const N_TRIES := 500

  function FirstLines(text: string): seq<string> {
    var ls := Lines(text);
    if |ls| > N_TRIES then ls[..N_TRIES] else ls
  }

  // regex_search with the two patterns
  predicate ContainsMD5(s: string) {
    exists i, j :: 0 <= i <= j <= |s| && MatchesMD5(s[i..j])
  }

  predicate ContainsHex(s: string) {
    exists i, j :: 0 <= i <= j <= |s| && MatchesHex(s[i..j])
  }

  // The candidates in the order of the map that counts them.
  const SEPARATORS: seq<char> := ['\t', ' ', ':', ';']

  // The number of lines that contain c.
  function Splits(lines: seq<string>, c: char): nat {
    if lines == [] then 0
    else Splits(lines[..|lines| - 1], c) + if c in Without(lines[|lines| - 1], '\r') then 1 else 0
  }

  function Tallies(lines: seq<string>): (t: seq<nat>)
    ensures |t| == 4
  {
    seq(4, c requires 0 <= c < 4 => Splits(lines, SEPARATORS[c]))
  }

  // The separator that splits the most lines, the first of several; none if no
  // candidate splits any.
  ghost predicate IsBestSeparator(lines: seq<string>, c: char) {
    if c == NO_SEPARATOR then forall i :: 0 <= i < 4 ==> Tallies(lines)[i] == 0
    else exists k :: 0 <= k < 4 && c == SEPARATORS[k] && Tallies(lines)[k] > 0 && IsFirstMaximum(Tallies(lines), k)
  }

  ghost predicate IsFirstMaximum(t: seq<nat>, k: nat) {
    && k < |t|
    && (forall i :: 0 <= i < |t| ==> t[i] <= t[k])
    && (forall i :: 0 <= i < k ==> t[i] < t[k])
  }

  // The settings that the first look at a text ends up with, for the options given.
  ghost predicate IsSettings(text: string, options: Settings, autoMD5: bool, autoHex: bool, cfg: Settings) {
    var ls := FirstLines(text);
    && IsBestSeparator(ls, cfg.separator)
    && (cfg.forceHex <==> options.forceHex || (autoHex && SomeLineMatches(ls, cfg.separator, ContainsHex)))
    && (cfg.forceMD5 <==> options.forceMD5 || (autoMD5 && SomeLineMatches(ls, cfg.separator, ContainsMD5WithoutCR)))
  }

  // What the pass for one of the two patterns finds out.
  ghost predicate SomeLineMatches(lines: seq<string>, separator: char, pattern: string -> bool) {
    exists l :: l in lines && separator in l && pattern(l)
  }

  // --- the reader ---

  class UserPasswordReader {
    const input: string
    const md5: string -> Hash
    var pos: nat
    var eof: bool
    var currentLine: string
    var lineNo: nat
    var validEntries: nat
    var cfg: Settings
    const autoMD5: bool
    const autoHex: bool

    ghost predicate Valid()
      reads this`pos
    {
      pos <= |input|
    }

    // The lines that have not been read yet.
    ghost function Remaining(): seq<string>
      reads this`pos, this`eof
      requires Valid()
    {
      if eof then [] else LinesFrom(input, pos)
    }

    // std::getline: reads up to a newline, which is dropped, or sets eof at the end.
    method GetLine() returns (line: string)
      requires Valid() && !eof
      modifies this`pos, this`eof
      ensures Valid() && old(Remaining()) == [line] + Remaining()
    {
      line := [];
      ghost var start := pos;
      while pos < |input| && input[pos] != '\n'
        invariant start <= pos <= |input| && !eof
        invariant line == input[start..pos] && LineEnd(input, start) == LineEnd(input, pos)
        decreases |input| - pos
      {
        line := line + [input[pos]];
        pos := pos + 1;
      }
      assert line == input[start..LineEnd(input, start)];
      if pos < |input| {
        pos := pos + 1;
      } else {
        assert line == input[start..];
        eof := true;
      }
    }

    // input.clear() and seekg(0)
    method Rewind()
      modifies this`pos, this`eof
      ensures Valid() && !eof && Remaining() == Lines(input)
    {
      pos, eof := 0, false;
    }

    method NextPassword() returns (pwd: string)
      requires Valid()
      modifies this`pos, this`eof, this`currentLine, this`lineNo
      ensures Valid()
      ensures if old(eof) then pwd == [] && eof && lineNo == old(lineNo)
              else old(Remaining()) == [currentLine] + Remaining() && pwd == PasswordOf(cfg, currentLine)
                   && lineNo == old(lineNo) + 1
    {
      if eof {
        return [];
      }
      currentLine := GetLine();
      lineNo := lineNo + 1;
      if |currentLine| > 200 || |currentLine| < 1 {
        return [];
      }
      pwd := ExtractPassword(cfg, currentLine);
    }

    method NextPasswordHash() returns (hash: Option<Hash>)
      requires Valid() && !eof
      modifies this`pos, this`eof, this`currentLine, this`lineNo, this`validEntries
      ensures Valid() && lineNo == old(lineNo) + 1
      ensures old(Remaining()) == [currentLine] + Remaining() && hash == LineHash(cfg, md5, currentLine)
      ensures validEntries == old(validEntries) + if hash.Some? then 1 else 0
    {
      var pwd := NextPassword();
      if pwd == [] {
        return None;
      }
      hash := None;
      if cfg.forceMD5 && MatchesMD5(pwd) {
        var p := FromHex(pwd);
        if p.isValid { hash := Some(p.hash); }
      }
      if hash == None {
        if cfg.forceHex && MatchesHex(pwd) {
          var _, dehexed := Dehex(pwd[5..|pwd| - 1]);
          hash := Some(md5(dehexed));
        } else {
          hash := Some(md5(pwd));
        }
      }
      validEntries := validEntries + 1;
    }

    // Reads the next of the first lines; looked says how many have been read.
    ghost predicate Looking(looked: nat)
      reads this`pos, this`eof
    {
      && Valid() && looked <= |FirstLines(input)|
      && Remaining() == Lines(input)[looked..]
    }

    lemma LookingEnds(looked: nat)
      requires Looking(looked) && (eof || looked == N_TRIES)
      ensures looked == |FirstLines(input)|
    {
    }

    method LookAtNext(ghost looked: nat) returns (line: string)
      requires Looking(looked) && !eof && looked < N_TRIES
      modifies this`pos, this`eof
      ensures Looking(looked + 1) && line == FirstLines(input)[looked]
    {
      ghost var before := Remaining();
      line := GetLine();
      TakeFirst(Lines(input), looked, line, before, Remaining());
    }

    // Counts one more line for every separator that it contains.
    static method Tally(counts: array<nat>, line: string, ghost seen: seq<string>)
      requires counts[..] == Tallies(seen)
      modifies counts
      ensures counts[..] == Tallies(seen + [line])
    {
      var l := Without(line, '\r');
      assert (seen + [line])[..|seen + [line]| - 1] == seen;
      for c := 0 to 4
        invariant forall k :: 0 <= k < 4 ==> counts[k] == Splits(if k < c then seen + [line] else seen, SEPARATORS[k])
      {
        if SEPARATORS[c] in l { counts[c] := counts[c] + 1; }
      }
    }

    // max_element: the first of the largest
    static method FirstMaximum(counts: array<nat>) returns (best: nat)
      requires counts.Length == 4
      ensures IsFirstMaximum(counts[..], best)
    {
      best := 0;
      for c := 1 to 4
        invariant 0 <= best < c
        invariant forall k :: 0 <= k < c ==> counts[k] <= counts[best]
        invariant forall k :: 0 <= k < best ==> counts[k] < counts[best]
      {
        if counts[best] < counts[c] { best := c; }
      }
    }

    method LookAndTally(counts: array<nat>, ghost seen: seq<string>) returns (line: string)
      requires Looking(|seen|) && !eof && |seen| < N_TRIES && seen <= FirstLines(input)
      requires counts[..] == Tallies(seen)
      modifies this`pos, this`eof, counts
      ensures Looking(|seen| + 1) && seen + [line] <= FirstLines(input)
      ensures counts[..] == Tallies(seen + [line])
    {
      line := LookAtNext(|seen|);
      Tally(counts, line, seen);
    }

    method CountSeparators() returns (counts: array<nat>)
      requires Looking(0)
      modifies this`pos, this`eof
      ensures Valid() && fresh(counts) && counts[..] == Tallies(FirstLines(input))
    {
      counts := new nat[4](_ => 0);
      var i := 0;
      ghost var ls, seen: seq<string> := FirstLines(input), [];
      assert counts[..] == Tallies(seen);
      while i < N_TRIES && !eof
        invariant Looking(i) && i <= N_TRIES && i == |seen| && seen <= ls
        invariant counts[..] == Tallies(seen)
        decreases N_TRIES - i
      {
        var line := LookAndTally(counts, seen);
        seen := seen + [line];
        i := i + 1;
      }
      assert i == |ls| by { LookingEnds(i); }
      assert seen == ls;
    }

    method GuessSeparator()
      requires Looking(0)
      modifies this`pos, this`eof, this`cfg
      ensures Looking(0) && !eof
      ensures cfg == old(cfg).(separator := cfg.separator)
      ensures old(cfg).separator == NO_SEPARATOR ==> IsBestSeparator(FirstLines(input), cfg.separator)
    {
      var counts := CountSeparators();
      ghost var t := counts[..];
      var best := FirstMaximum(counts);
      if counts[best] > 0 {
        assert t[best] > 0;
        cfg := cfg.(separator := SEPARATORS[best]);
      }
      Rewind();
    }

    // The loop of the two checks: is there a line with the separator that the
    // pattern is found in?
    method AnyLine(pattern: string -> bool) returns (found: bool)
      requires Looking(0)
      modifies this`pos, this`eof
      ensures Looking(0) && !eof
      ensures found <==> SomeLineMatches(FirstLines(input), cfg.separator, pattern)
    {
      found := false;
      var i := 0;
      ghost var ls, seen: seq<string> := FirstLines(input), [];
      while i < N_TRIES && !eof && !found
        invariant Looking(i) && i <= N_TRIES && i == |seen| && seen <= ls
        invariant found <==> SomeLineMatches(seen, cfg.separator, pattern)
        decreases N_TRIES - i
      {
        var line := LookAtNext(i);
        if cfg.separator in line && pattern(line) {
          found := true;
        }
        seen := seen + [line];
        i := i + 1;
      }
      if !found { LookingEnds(i); }
      assert found <==> SomeLineMatches(ls, cfg.separator, pattern) by {
        if found {
          assert forall l :: l in seen ==> l in ls;
        } else {
          assert seen == ls;
        }
      }
      Rewind();
    }

    // The constructor's look at the text. All lines are still to be read after it.
    method EvaluateContents()
      requires Looking(0) && cfg.separator == NO_SEPARATOR
      modifies this`pos, this`eof, this`cfg
      ensures Valid() && !eof && Remaining() == Lines(input)
      ensures IsSettings(input, old(cfg), autoMD5, autoHex, cfg)
    {
      GuessSeparator();
      if !cfg.forceHex && autoHex {
        var found := AnyLine(ContainsHex);
        cfg := cfg.(forceHex := found);
      }
      if !cfg.forceMD5 && autoMD5 {
        var found := AnyLine(ContainsMD5WithoutCR);
        cfg := cfg.(forceMD5 := found);
      }
      Rewind();
    }

    constructor (text: string, hash: string -> Hash, options: Settings, autoMD5: bool, autoHex: bool)
      requires options.separator == NO_SEPARATOR
      ensures input == text && md5 == hash && Valid() && !eof && Remaining() == Lines(text)
      ensures lineNo == 0 && validEntries == 0
      ensures IsSettings(text, options, autoMD5, autoHex, cfg)
    {
      input, md5 := text, hash;
      this.autoMD5, this.autoHex := autoMD5, autoHex;
      pos, eof, currentLine, lineNo, validEntries, cfg := 0, false, [], 0, 0, options;
      new;
      Rewind();
      EvaluateContents();
    }
  }

  predicate ContainsMD5WithoutCR(s: string) {
    ContainsMD5(Without(s, '\r'))
  }
}
