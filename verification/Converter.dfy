// pwned-converter-cli: counts the password hashes of a text in chunks that fit
// into memory, and writes each chunk as a sorted file.
module Converter {
  import opened Records
  import opened MergeFold
  import opened MergeLaw
  import Reader

  // sizeof(Hash) + sizeof(uint32_t) + sizeof(PasswordHashAndCount) + sizeof(uintptr_t)
  const MEM_USAGE_PER_ENTRY: nat := 24 + 4 + 32 + 8

  // The number of lines after which a chunk is full.
  function ChunkLines(maxMem: nat): nat {
    (maxMem + MEM_USAGE_PER_ENTRY - 1) / MEM_USAGE_PER_ENTRY
  }

  // It is full with the first line after which 68 bytes for each line reach the limit.
  lemma ChunkLinesMeaning(maxMem: nat)
    ensures 68 * ChunkLines(maxMem) >= maxMem
    ensures forall n: nat :: n < ChunkLines(maxMem) ==> 68 * n < maxMem
  {
  }

  // --- termination of the outer loop ---

  ghost function LinesAfter(n: nat, maxMem: nat, rounds: nat): nat {
    if rounds == 0 then n
    else
      var m := LinesAfter(n, maxMem, rounds - 1);
      if m > ChunkLines(maxMem) then m - ChunkLines(maxMem) else 0
  }

  ghost predicate Ends(n: nat, maxMem: nat) {
    exists rounds :: LinesAfter(n, maxMem, rounds) == 0
  }

  lemma {:induction false} LinesAfterBound(n: nat, maxMem: nat, rounds: nat)
    requires maxMem > 0
    ensures LinesAfter(n, maxMem, rounds) <= if n > rounds then n - rounds else 0
  {
    if rounds > 0 { LinesAfterBound(n, maxMem, rounds - 1); }
  }

  lemma {:induction false} NoMemoryNoProgress(n: nat, rounds: nat)
    ensures LinesAfter(n, 0, rounds) == n
  {
    if rounds > 0 { NoMemoryNoProgress(n, rounds - 1); }
  }

  // A text has at least one line, so without memory the loop runs for ever.
  lemma EndsIff(n: nat, maxMem: nat)
    requires n > 0
    ensures Ends(n, maxMem) <==> maxMem > 0
  {
    if maxMem > 0 {
      LinesAfterBound(n, maxMem, n);
    } else {
      forall rounds ensures LinesAfter(n, maxMem, rounds) == n { NoMemoryNoProgress(n, rounds); }
    }
  }

  // --- one chunk ---

  // The file for a chunk whose accepted lines have the hashes hs.
  ghost predicate IsSplit(file: seq<Rec>, hs: seq<Hash>) {
    && StrictlySorted(file)
    && (forall h :: h in KeySet(file) <==> h in hs)
    && forall r :: r in file ==> r.count == multiset(hs)[r.hash] % TWO32
  }

  ghost predicate CountsHashes(counts: map<Hash, U32>, hs: seq<Hash>) {
    && (forall h :: h in counts <==> h in hs)
    && forall h :: h in counts ==> counts[h] == multiset(hs)[h] % TWO32
  }

  lemma CountOneMore(counts: map<Hash, U32>, hs: seq<Hash>, h: Hash, n: U32)
    requires CountsHashes(counts, hs)
    requires n == ((if h in counts then counts[h] else 0) + 1) % TWO32
    ensures CountsHashes(counts[h := n], hs + [h])
  {
    var now := counts[h := n];
    assert forall k :: k in hs + [h] <==> k in hs || k == h;
    forall k | k in now ensures now[k] == multiset(hs + [h])[k] % TWO32 {
      assert multiset(hs + [h])[k] == multiset(hs)[k] + if k == h then 1 else 0;
      if k == h { AddModulo(multiset(hs)[h], 1); }
    }
  }

  // passwordCountSet[hash] += 1, for a valid hash
  function Counted(counts: map<Hash, U32>, hash: Option<Hash>): map<Hash, U32> {
    match hash
    case None => counts
    case Some(h) => counts[h := ((if h in counts then counts[h] else 0) + 1) % TWO32]
  }

  lemma CountLine(counts: map<Hash, U32>, hashOf: string -> Option<Hash>, lines: seq<string>, line: string)
    requires CountsHashes(counts, Reader.Hashes(hashOf, lines))
    ensures CountsHashes(Counted(counts, hashOf(line)), Reader.Hashes(hashOf, lines + [line]))
  {
    assert (lines + [line])[..|lines + [line]| - 1] == lines;
    var hash := hashOf(line);
    if hash.Some? {
      CountOneMore(counts, Reader.Hashes(hashOf, lines), hash.value, Counted(counts, hash)[hash.value]);
    }
  }

  lemma {:induction false} SmallestHash(s: set<Hash>) returns (h: Hash)
    requires s != {}
    ensures h in s && forall k :: k in s ==> AtMost(h, k)
  {
    h :| h in s;
    if s != {h} {
      var k := SmallestHash(s - {h});
      assert forall x :: x in s ==> x == h || x in s - {h};
      h := if AtMost(h, k) then h else k;
    }
  }

  // The records of the map, in the order of its keys.
  method InOrder(counts: map<Hash, U32>) returns (list: seq<Rec>)
    ensures StrictlySorted(list) && KeySet(list) == counts.Keys
    ensures forall r :: r in list ==> r.hash in counts && r.count == counts[r.hash]
  {
    list := [];
    var left := counts.Keys;
    while left != {}
      invariant left <= counts.Keys && StrictlySorted(list)
      invariant KeySet(list) == counts.Keys - left
      invariant forall r :: r in list ==> r.hash in counts && r.count == counts[r.hash]
      invariant forall i, k :: 0 <= i < |list| && k in left ==> Less(list[i].hash, k)
      decreases left
    {
      ghost var s := SmallestHash(left);
      var h :| h in left && forall k :: k in left ==> AtMost(h, k);
      var r := Rec(h, counts[h]);
      assert KeySet(list + [r]) == KeySet(list) + {h} by {
        assert forall x :: x in list + [r] <==> x in list || x == r;
      }
      forall k | k in left - {h} ensures Less(h, k) {
        assert k in left && AtMost(h, k) && k != h;
      }
      list := list + [r];
      left := left - {h};
    }
  }

  // Where the inner loop stands after reading some of all lines.
  ghost predicate ChunkInv(hashOf: string -> Option<Hash>, all: seq<string>, lines: seq<string>,
                           rest: seq<string>, counts: map<Hash, U32>, memUsage: nat, maxMem: nat) {
    && all == lines + rest
    && CountsHashes(counts, Reader.Hashes(hashOf, lines))
    && memUsage == MEM_USAGE_PER_ENTRY * |lines| < maxMem + MEM_USAGE_PER_ENTRY
  }

  lemma ChunkStart(hashOf: string -> Option<Hash>, all: seq<string>, maxMem: nat)
    ensures ChunkInv(hashOf, all, [], all, map[], 0, maxMem)
  {
  }

  lemma ChunkStep(hashOf: string -> Option<Hash>, all: seq<string>, lines: seq<string>,
                  rest: seq<string>, counts: map<Hash, U32>, memUsage: nat, maxMem: nat)
    requires ChunkInv(hashOf, all, lines, rest, counts, memUsage, maxMem)
    requires rest != [] && memUsage < maxMem
    ensures ChunkInv(hashOf, all, lines + [rest[0]], rest[1..],
                     Counted(counts, hashOf(rest[0])), memUsage + MEM_USAGE_PER_ENTRY, maxMem)
  {
    CountLine(counts, hashOf, lines, rest[0]);
    assert lines + [rest[0]] + rest[1..] == lines + rest;
  }

  // The inner loop: reads lines until the chunk is full or the text ends.
  method ReadChunk(reader: Reader.UserPasswordReader, maxMem: nat)
    returns (counts: map<Hash, U32>, ghost lines: seq<string>)
    requires reader.Valid() && !reader.eof && maxMem > 0
    modifies reader`pos, reader`eof, reader`currentLine, reader`lineNo, reader`validEntries
    ensures reader.Valid() && old(reader.Remaining()) == lines + reader.Remaining()
    ensures CountsHashes(counts, Reader.Hashes(Reader.LineHashes(reader.cfg, reader.md5), lines))
    ensures 0 < |lines| <= ChunkLines(maxMem)
    ensures !reader.eof ==> |lines| == ChunkLines(maxMem)
  {
    ghost var hashOf := Reader.LineHashes(reader.cfg, reader.md5);
    ghost var all, rest := reader.Remaining(), reader.Remaining();
    var memUsage: nat := 0;
    counts, lines := map[], [];
    ChunkStart(hashOf, all, maxMem);
    while !reader.eof && memUsage < maxMem
      invariant reader.Valid() && rest == reader.Remaining()
      invariant ChunkInv(hashOf, all, lines, rest, counts, memUsage, maxMem)
      invariant reader.eof ==> lines != []
      decreases |rest|
    {
      var hash := reader.NextPasswordHash();
      assert rest[0] == reader.currentLine && rest[1..] == reader.Remaining();
      ChunkStep(hashOf, all, lines, rest, counts, memUsage, maxMem);
      lines := lines + [rest[0]];
      rest := rest[1..];
      counts := Counted(counts, hash);
      memUsage := memUsage + MEM_USAGE_PER_ENTRY;
    }
  }

  ghost function Flatten(parts: seq<seq<Hash>>): seq<Hash> {
    if parts == [] then [] else Flatten(parts[..|parts| - 1]) + parts[|parts| - 1]
  }

  // The split files are those of consecutive parts of the accepted hashes.
  ghost predicate IsConversion(splits: seq<seq<Rec>>, parts: seq<seq<Hash>>, hs: seq<Hash>, maxMem: nat) {
    && |splits| == |parts| && Flatten(parts) == hs
    && forall i :: 0 <= i < |parts| ==>
         parts[i] != [] && |parts[i]| <= ChunkLines(maxMem) && IsSplit(splits[i], parts[i])
  }

  lemma EmptyIff(counts: map<Hash, U32>, hs: seq<Hash>)
    requires CountsHashes(counts, hs)
    ensures counts == map[] <==> hs == []
  {
    if hs == [] {
      assert counts.Keys == {};
    } else {
      assert hs[0] in counts;
    }
  }

  lemma ConversionSnoc(splits: seq<seq<Rec>>, parts: seq<seq<Hash>>, hs: seq<Hash>, maxMem: nat,
                       file: seq<Rec>, part: seq<Hash>)
    requires IsConversion(splits, parts, hs, maxMem)
    requires part != [] && |part| <= ChunkLines(maxMem) && IsSplit(file, part)
    ensures IsConversion(splits + [file], parts + [part], hs + part, maxMem)
  {
    assert (parts + [part])[..|parts + [part]| - 1] == parts;
  }

  lemma SplitOfCounts(file: seq<Rec>, counts: map<Hash, U32>, hs: seq<Hash>)
    requires CountsHashes(counts, hs) && StrictlySorted(file) && KeySet(file) == counts.Keys
    requires forall r :: r in file ==> r.hash in counts && r.count == counts[r.hash]
    ensures IsSplit(file, hs)
  {
  }

  // A chunk that holds no hash leaves no file, any other chunk one file.
  ghost predicate IsChunkFile(file: Option<seq<Rec>>, part: seq<Hash>, maxMem: nat) {
    match file
    case None => part == []
    case Some(f) => part != [] && |part| <= ChunkLines(maxMem) && IsSplit(f, part)
  }

  // One pass through the outer loop.
  method ConvertChunk(reader: Reader.UserPasswordReader, maxMem: nat)
    returns (file: Option<seq<Rec>>, ghost lines: seq<string>)
    requires reader.Valid() && !reader.eof && maxMem > 0
    modifies reader`pos, reader`eof, reader`currentLine, reader`lineNo, reader`validEntries
    ensures reader.Valid() && old(reader.Remaining()) == lines + reader.Remaining() && lines != []
    ensures IsChunkFile(file, Reader.Hashes(Reader.LineHashes(reader.cfg, reader.md5), lines), maxMem)
  {
    var counts;
    counts, lines := ReadChunk(reader, maxMem);
    ghost var part := Reader.Hashes(Reader.LineHashes(reader.cfg, reader.md5), lines);
    EmptyIff(counts, part);
    if counts == map[] {
      return None, lines;
    }
    Reader.HashesShorter(Reader.LineHashes(reader.cfg, reader.md5), lines);
    var passwordList := InOrder(counts);
    SplitOfCounts(passwordList, counts, part);
    file := Some(passwordList);
  }

  function Added<T>(s: seq<T>, x: Option<T>): seq<T> {
    match x case None => s case Some(v) => s + [v]
  }

  // The files so far, after some of all lines have been read.
  ghost predicate Converted(hashOf: string -> Option<Hash>, all: seq<string>, rest: seq<string>,
                            splits: seq<seq<Rec>>, parts: seq<seq<Hash>>, maxMem: nat) {
    exists read :: all == read + rest && IsConversion(splits, parts, Reader.Hashes(hashOf, read), maxMem)
  }

  lemma ConvertedStep(hashOf: string -> Option<Hash>, all: seq<string>, lines: seq<string>, rest: seq<string>,
                      splits: seq<seq<Rec>>, parts: seq<seq<Hash>>, maxMem: nat, file: Option<seq<Rec>>)
    requires Converted(hashOf, all, lines + rest, splits, parts, maxMem)
    requires IsChunkFile(file, Reader.Hashes(hashOf, lines), maxMem)
    ensures Converted(hashOf, all, rest, Added(splits, file),
                      if file == None then parts else parts + [Reader.Hashes(hashOf, lines)], maxMem)
  {
    var read :| all == read + (lines + rest) && IsConversion(splits, parts, Reader.Hashes(hashOf, read), maxMem);
    assert all == (read + lines) + rest;
    Reader.HashesConcat(hashOf, read, lines);
    var hs, part := Reader.Hashes(hashOf, read), Reader.Hashes(hashOf, lines);
    if file == None {
      assert hs + part == hs;
    } else {
      ConversionSnoc(splits, parts, hs, maxMem, file.value, part);
    }
  }

  lemma ConvertedStart(hashOf: string -> Option<Hash>, all: seq<string>, maxMem: nat)
    ensures Converted(hashOf, all, all, [], [], maxMem)
  {
    assert all == [] + all;
    assert IsConversion([], [], Reader.Hashes(hashOf, []), maxMem);
  }

  lemma ConvertedEnd(hashOf: string -> Option<Hash>, all: seq<string>,
                     splits: seq<seq<Rec>>, parts: seq<seq<Hash>>, maxMem: nat)
    requires Converted(hashOf, all, [], splits, parts, maxMem)
    ensures IsConversion(splits, parts, Reader.Hashes(hashOf, all), maxMem)
  {
    var read :| all == read + [] && IsConversion(splits, parts, Reader.Hashes(hashOf, read), maxMem);
    assert all == read;
  }

  method Execute(reader: Reader.UserPasswordReader, maxMem: nat)
    returns (splits: seq<seq<Rec>>, ghost parts: seq<seq<Hash>>)
    requires reader.Valid() && !reader.eof
    requires Ends(|reader.Remaining()|, maxMem)
    modifies reader
    ensures maxMem > 0 && reader.eof && reader.cfg == old(reader.cfg)
    ensures IsConversion(splits, parts,
                         Reader.Hashes(Reader.LineHashes(reader.cfg, reader.md5), old(reader.Remaining())), maxMem)
  {
    EndsIff(|reader.Remaining()|, maxMem);
    ghost var all := reader.Remaining();
    ghost var hashOf := Reader.LineHashes(reader.cfg, reader.md5);
    ConvertedStart(hashOf, all, maxMem);
    splits, parts := [], [];
    while !reader.eof
      invariant reader.Valid() && reader.cfg == old(reader.cfg)
      invariant Converted(hashOf, all, reader.Remaining(), splits, parts, maxMem)
      decreases |reader.Remaining()|
    {
      var file, lines := ConvertChunk(reader, maxMem);
      ConvertedStep(hashOf, all, lines, reader.Remaining(), splits, parts, maxMem, file);
      splits := Added(splits, file);
      if file.Some? { parts := parts + [Reader.Hashes(hashOf, lines)]; }
    }
    ConvertedEnd(hashOf, all, splits, parts, maxMem);
  }

  // --- what the files hold ---

  lemma MultisetCount(hs: seq<Hash>, h: Hash)
    ensures multiset(hs)[h] <= |hs|
  {
  }

  lemma SplitSum(file: seq<Rec>, part: seq<Hash>, h: Hash)
    requires IsSplit(file, part)
    ensures KeySum(file, h) == multiset(part)[h] % TWO32
  {
    StrictKeySum(file, h);
    if h in KeySet(file) {
      var i :| 0 <= i < |file| && file[i].hash == h;
      LinearScanFinds(file, i);
    } else {
      LinearScanMisses(file, h);
    }
  }

  lemma {:induction false} ConversionSums(splits: seq<seq<Rec>>, parts: seq<seq<Hash>>, hs: seq<Hash>,
                                          maxMem: nat, h: Hash)
    requires IsConversion(splits, parts, hs, maxMem)
    ensures TrueSum(splits, h) % TWO32 == multiset(hs)[h] % TWO32
    ensures ChunkLines(maxMem) < TWO32 ==> TrueSum(splits, h) == multiset(hs)[h]
  {
    if splits != [] {
      var n := |splits| - 1;
      var before := Flatten(parts[..n]);
      ConversionSums(splits[..n], parts[..n], before, maxMem, h);
      SplitSum(splits[n], parts[n], h);
      MultisetCount(parts[n], h);
      assert multiset(before + parts[n])[h] == multiset(before)[h] + multiset(parts[n])[h];
      AddToBoth(TrueSum(splits[..n], h), multiset(before)[h], multiset(parts[n])[h]);
    }
  }

  lemma AddToBoth(t: nat, b: nat, k: nat)
    requires t % TWO32 == b % TWO32
    ensures (t + k % TWO32) % TWO32 == (b + k) % TWO32
    ensures k < TWO32 ==> k % TWO32 == k
  {
  }

  // Over all files together the counts for a hash add up to the number of lines
  // that yield it; modulo 2^32 if a chunk can hold more lines than a count can.
  lemma Conservation(splits: seq<seq<Rec>>, parts: seq<seq<Hash>>, hashOf: string -> Option<Hash>,
                     lines: seq<string>, maxMem: nat, h: Hash)
    requires IsConversion(splits, parts, Reader.Hashes(hashOf, lines), maxMem)
    ensures TrueSum(splits, h) % TWO32 == LinesWith(hashOf, lines, h) % TWO32
    ensures ChunkLines(maxMem) < TWO32 ==> TrueSum(splits, h) == LinesWith(hashOf, lines, h)
  {
    ConversionSums(splits, parts, Reader.Hashes(hashOf, lines), maxMem, h);
    LinesWithIsCount(hashOf, lines, h);
  }

  // The number of lines that yield h.
  function LinesWith(hashOf: string -> Option<Hash>, lines: seq<string>, h: Hash): nat {
    if lines == [] then 0
    else LinesWith(hashOf, lines[..|lines| - 1], h) + if hashOf(lines[|lines| - 1]) == Some(h) then 1 else 0
  }

  lemma {:induction false} LinesWithIsCount(hashOf: string -> Option<Hash>, lines: seq<string>, h: Hash)
    ensures multiset(Reader.Hashes(hashOf, lines))[h] == LinesWith(hashOf, lines, h)
  {
    if lines != [] {
      LinesWithIsCount(hashOf, lines[..|lines| - 1], h);
    }
  }

  // Every file is sorted, and no count in it is 0 unless a chunk can hold more
  // lines than a count can.
  lemma SplitFiles(splits: seq<seq<Rec>>, parts: seq<seq<Hash>>, hs: seq<Hash>, maxMem: nat)
    requires IsConversion(splits, parts, hs, maxMem)
    ensures forall i :: 0 <= i < |splits| ==> StrictlySorted(splits[i]) && splits[i] != []
    ensures ChunkLines(maxMem) < TWO32 ==>
              forall i, r :: 0 <= i < |splits| && r in splits[i] ==> r.count >= 1
  {
    forall i | 0 <= i < |splits|
      ensures StrictlySorted(splits[i]) && splits[i] != []
    {
      assert IsSplit(splits[i], parts[i]) && parts[i][0] in parts[i];
      assert parts[i][0] in KeySet(splits[i]);
    }
    forall i, r | 0 <= i < |splits| && r in splits[i] && ChunkLines(maxMem) < TWO32
      ensures r.count >= 1
    {
      assert IsSplit(splits[i], parts[i]) && r.hash in KeySet(splits[i]);
      MultisetCount(parts[i], r.hash);
    }
  }

  // The keys of all files together are the hashes of the accepted lines.
  lemma ConversionKeys(splits: seq<seq<Rec>>, parts: seq<seq<Hash>>, hs: seq<Hash>,
                                          maxMem: nat, h: Hash)
    requires IsConversion(splits, parts, hs, maxMem)
    ensures h in AllKeys(splits) <==> h in hs
  {
    SplitFiles(splits, parts, hs, maxMem);
    AllKeysMeaning(splits, h);
    FlattenMembers(parts, h);
    assert forall i :: 0 <= i < |splits| ==> (h in KeySet(splits[i]) <==> h in parts[i]);
  }

  lemma {:induction false} FlattenMembers(parts: seq<seq<Hash>>, h: Hash)
    ensures h in Flatten(parts) <==> exists i :: 0 <= i < |parts| && h in parts[i]
  {
    if parts != [] {
      var front := parts[..|parts| - 1];
      FlattenMembers(front, h);
      assert forall i :: 0 <= i < |front| ==> front[i] == parts[i];
    }
  }
}
