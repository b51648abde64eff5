// From a text to an answer: convert, merge, index and look up.
module EndToEnd {
  import opened Records
  import opened MergeFold
  import opened MergeLaw
  import Reader
  import Converter
  import opened MergeRounds
  import MergeDriver
  import Index
  import Inspector

  lemma {:induction false} LengthIsKeys(s: seq<Rec>)
    requires StrictlySorted(s)
    ensures |KeySet(s)| == |s|
  {
    if s != [] {
      var front, h := Front(s), Last(s).hash;
      assert forall r :: r in s <==> r in front || r == Last(s) by { assert s == front + [Last(s)]; }
      assert KeySet(s) == KeySet(front) + {h};
      assert h !in KeySet(front);
      LengthIsKeys(front);
    }
  }

  lemma {:induction false} FewHashes(hs: seq<Hash>)
    ensures |set h | h in hs| <= |hs|
  {
    if hs != [] {
      var front := hs[..|hs| - 1];
      assert hs == front + [hs[|hs| - 1]];
      assert (set h | h in hs) == (set h | h in front) + {hs[|hs| - 1]};
      FewHashes(front);
    }
  }

  lemma KeysAreHashes(splits: seq<seq<Rec>>, parts: seq<seq<Hash>>, hs: seq<Hash>, maxMem: nat)
    requires Converter.IsConversion(splits, parts, hs, maxMem)
    ensures AllKeys(splits) == (set h | h in hs)
  {
    forall h ensures h in AllKeys(splits) <==> h in hs {
      Converter.ConversionKeys(splits, parts, hs, maxMem, h);
    }
  }

  // The merged file has no more records than the text has lines.
  lemma MergedSize(file: seq<Rec>, splits: seq<seq<Rec>>, parts: seq<seq<Hash>>,
                   hashOf: string -> Option<Hash>, lines: seq<string>, maxMem: nat)
    requires StrictlySorted(file) && KeySet(file) == AllKeys(splits)
    requires Converter.IsConversion(splits, parts, Reader.Hashes(hashOf, lines), maxMem)
    ensures |file| <= |lines|
  {
    var hs := Reader.Hashes(hashOf, lines);
    LengthIsKeys(file);
    KeysAreHashes(splits, parts, hs, maxMem);
    FewHashes(hs);
    Reader.HashesShorter(hashOf, lines);
  }

  // What a lookup in the merged file says about a text that n lines of yield the hash:
  // n and all copies that the merges have added, modulo 2^32. If that does not wrap
  // around, the count is positive exactly if some line yields the hash.
  ghost predicate Answers(count: nat, n: nat, inflation: nat, some: bool) {
    && count == (n + inflation) % TWO32
    && (n + inflation < TWO32 ==> n <= count && (count > 0 <==> some))
    && (!some ==> count == 0)
  }

  lemma MergedAnswers(file: seq<Rec>, splits: seq<seq<Rec>>, parts: seq<seq<Hash>>, k: nat, rounds: seq<Round>,
                      hashOf: string -> Option<Hash>, lines: seq<string>, maxMem: nat, h: Hash)
    requires IsMerge(splits, k, rounds, file)
    requires Converter.IsConversion(splits, parts, Reader.Hashes(hashOf, lines), maxMem)
    ensures Answers(LinearScan(file, h), Converter.LinesWith(hashOf, lines, h), Inflation(splits, k, rounds, h),
                    Reader.SomeLine(hashOf, lines, h))
  {
    Converter.SplitFiles(splits, parts, Reader.Hashes(hashOf, lines), maxMem);
    var n, inflation := Converter.LinesWith(hashOf, lines, h), Inflation(splits, k, rounds, h);
    assert LinearScan(file, h) == (n + inflation) % TWO32 by {
      FinalCounts(splits, k, rounds, file, h);
      Converter.Conservation(splits, parts, hashOf, lines, maxMem, h);
      SameRemainder(TrueSum(splits, h), n, inflation);
    }
    assert n > 0 <==> Reader.SomeLine(hashOf, lines, h) by { LinesWithSome(hashOf, lines, h); }
    if n == 0 { NoLineNoCount(file, splits, parts, k, rounds, hashOf, lines, maxMem, h); }
    AnswersHold(LinearScan(file, h), n, inflation, Reader.SomeLine(hashOf, lines, h));
  }

  lemma AnswersHold(count: nat, n: nat, inflation: nat, some: bool)
    requires count == (n + inflation) % TWO32 && (some <==> n > 0) && (n == 0 ==> count == 0)
    ensures Answers(count, n, inflation, some)
  {
    if n + inflation < TWO32 { BelowModulus(n + inflation); }
  }

  // Without wrap-around a positive count in the database means that some line yields
  // the hash.
  lemma PositiveIff(file: seq<Rec>, o: Origin, hashOf: string -> Option<Hash>, lines: seq<string>, maxMem: nat,
                    k: nat, h: Hash)
    requires IsDatabase(file, o, hashOf, lines, maxMem, k)
    requires Converter.LinesWith(hashOf, lines, h) + Inflation(o.splits, k, o.rounds, h) < TWO32
    ensures LinearScan(file, h) > 0 <==> Reader.SomeLine(hashOf, lines, h)
    ensures LinearScan(file, h) >= Converter.LinesWith(hashOf, lines, h)
  {
    MergedAnswers(file, o.splits, o.parts, k, o.rounds, hashOf, lines, maxMem, h);
  }

  lemma SameRemainder(x: nat, y: nat, c: nat)
    requires x % TWO32 == y % TWO32
    ensures (x + c) % TWO32 == (y + c) % TWO32
  {
    AddModulo(x, c);
    AddModulo(y, c);
  }

  lemma LinesWithSome(hashOf: string -> Option<Hash>, lines: seq<string>, h: Hash)
    ensures Converter.LinesWith(hashOf, lines, h) > 0 <==> Reader.SomeLine(hashOf, lines, h)
  {
    Converter.LinesWithIsCount(hashOf, lines, h);
    Reader.HashesMembers(hashOf, lines, h);
  }

  lemma NoLineNoCount(file: seq<Rec>, splits: seq<seq<Rec>>, parts: seq<seq<Hash>>, k: nat, rounds: seq<Round>,
                      hashOf: string -> Option<Hash>, lines: seq<string>, maxMem: nat, h: Hash)
    requires IsMerge(splits, k, rounds, file) && AllSorted(splits)
    requires Converter.IsConversion(splits, parts, Reader.Hashes(hashOf, lines), maxMem)
    requires Converter.LinesWith(hashOf, lines, h) == 0
    ensures LinearScan(file, h) == 0
  {
    FinalKeys(splits, k, rounds, file);
    Converter.LinesWithIsCount(hashOf, lines, h);
    Converter.ConversionKeys(splits, parts, Reader.Hashes(hashOf, lines), maxMem, h);
    LinearScanMisses(file, h);
  }

  lemma {:induction false} LinesBound(text: string, pos: nat)
    requires pos <= |text|
    ensures |Reader.LinesFrom(text, pos)| <= |text| - pos + 1
    decreases |text| - pos
  {
    var end := Reader.LineEnd(text, pos);
    if end < |text| { LinesBound(text, end + 1); }
  }

  // How a database came about: the split files, the hashes of the lines in each, and the
  // merges.
  datatype Origin = Origin(splits: seq<seq<Rec>>, parts: seq<seq<Hash>>, rounds: seq<Round>)

  ghost predicate IsDatabase(file: seq<Rec>, o: Origin, hashOf: string -> Option<Hash>, lines: seq<string>,
                             maxMem: nat, k: nat) {
    && Converter.IsConversion(o.splits, o.parts, Reader.Hashes(hashOf, lines), maxMem)
    && IsMerge(o.splits, k, o.rounds, file)
    && StrictlySorted(file) && |file| <= |lines|
  }

  // A text through the converter and the merger. There is no file exactly if no line is
  // accepted.
  method MakeDatabase(text: string, md5: string -> Hash, options: Reader.Settings, autoMD5: bool, autoHex: bool,
                      maxMem: nat, maxFilesAtOnce: nat)
    returns (file: Option<seq<Rec>>, cfg: Reader.Settings, ghost o: Origin)
    requires options.separator == Reader.NO_SEPARATOR && 0 < maxMem && maxFilesAtOnce >= 2
    ensures Reader.IsSettings(text, options, autoMD5, autoHex, cfg)
    ensures file == None <==> forall k :: !Reader.SomeLine(Reader.LineHashes(cfg, md5), Reader.Lines(text), k)
    ensures file.Some? ==>
              IsDatabase(file.value, o, Reader.LineHashes(cfg, md5), Reader.Lines(text), maxMem, maxFilesAtOnce)
  {
    var reader := new Reader.UserPasswordReader(text, md5, options, autoMD5, autoHex);
    cfg := reader.cfg;
    ghost var lines, hashOf := Reader.Lines(text), Reader.LineHashes(cfg, md5);
    assert Converter.Ends(|lines|, maxMem) by { Converter.EndsIff(|lines|, maxMem); }
    var splits, parts := Converter.Execute(reader, maxMem);
    Nothing(splits, parts, hashOf, lines, maxMem);
    if splits == [] {
      return None, cfg, Origin([], [], []);
    }
    var merged, rounds := MergeSplits(splits, parts, hashOf, lines, maxMem, maxFilesAtOnce);
    file, o := Some(merged), Origin(splits, parts, rounds);
  }

  method MergeSplits(splits: seq<seq<Rec>>, ghost parts: seq<seq<Hash>>, ghost hashOf: string -> Option<Hash>,
                     ghost lines: seq<string>, ghost maxMem: nat, maxFilesAtOnce: nat)
    returns (file: seq<Rec>, ghost rounds: seq<Round>)
    requires splits != [] && maxFilesAtOnce >= 2
    requires Converter.IsConversion(splits, parts, Reader.Hashes(hashOf, lines), maxMem)
    ensures IsDatabase(file, Origin(splits, parts, rounds), hashOf, lines, maxMem, maxFilesAtOnce)
  {
    Converter.SplitFiles(splits, parts, Reader.Hashes(hashOf, lines), maxMem);
    MergeDriver.TerminatesIff(|splits|, maxFilesAtOnce);
    var merges;
    ghost var consumed;
    file, merges, consumed, rounds := MergeDriver.MergeAll(splits, maxFilesAtOnce);
    FinalKeys(splits, maxFilesAtOnce, rounds, file);
    MergedSize(file, splits, parts, hashOf, lines, maxMem);
  }

  lemma Nothing(splits: seq<seq<Rec>>, parts: seq<seq<Hash>>, hashOf: string -> Option<Hash>, lines: seq<string>,
                maxMem: nat)
    requires Converter.IsConversion(splits, parts, Reader.Hashes(hashOf, lines), maxMem)
    ensures splits == [] <==> forall k :: !Reader.SomeLine(hashOf, lines, k)
  {
    if splits == [] {
      forall k ensures !Reader.SomeLine(hashOf, lines, k) { Reader.HashesMembers(hashOf, lines, k); }
    } else {
      Converter.SplitFiles(splits, parts, Reader.Hashes(hashOf, lines), maxMem);
      var k := splits[0][0].hash;
      assert k in KeySet(splits[0]);
      AllKeysMeaning(splits, k);
      Converter.ConversionKeys(splits, parts, Reader.Hashes(hashOf, lines), maxMem, k);
      Reader.HashesMembers(hashOf, lines, k);
    }
  }

  // What a lookup may come to: there is no file to search; it does not end; a count.
  datatype Outcome = NoFile | NeverEnds | Count(count: U32)

  ghost predicate CountAnswers(count: U32, o: Origin, hashOf: string -> Option<Hash>, lines: seq<string>,
                               k: nat, h: Hash) {
    && IsChain(o.splits, k, o.rounds)
    && Answers(count, Converter.LinesWith(hashOf, lines, h), Inflation(o.splits, k, o.rounds, h),
               Reader.SomeLine(hashOf, lines, h))
  }

  // The whole way of a text through the programs. With an index of some bits the lookup
  // may not end.
  method Pipeline(text: string, md5: string -> Hash, options: Reader.Settings, autoMD5: bool, autoHex: bool,
                  maxMem: nat, maxFilesAtOnce: nat, bits: Option<nat>, h: Hash)
    returns (outcome: Outcome, cfg: Reader.Settings, ghost file: seq<Rec>, ghost o: Origin, ghost index: seq<U64>)
    requires options.separator == Reader.NO_SEPARATOR && 0 < maxMem && maxFilesAtOnce >= 2
    requires RECORD_SIZE * (|text| + 1) < Inspector.MAX_OFFSET && (bits.Some? ==> 1 <= bits.value <= 63)
    ensures Reader.IsSettings(text, options, autoMD5, autoHex, cfg)
    ensures var hashOf := Reader.LineHashes(cfg, md5);
            var lines := Reader.Lines(text);
            && (outcome.NoFile? <==> forall k :: !Reader.SomeLine(hashOf, lines, k))
            && (!outcome.NoFile? ==> IsDatabase(file, o, hashOf, lines, maxMem, maxFilesAtOnce))
            && (outcome.NeverEnds? ==> bits.Some?)
            && (!outcome.NoFile? && bits.Some? ==> IndexOutcome(file, index, bits.value, h, outcome))
            && (outcome.Count? ==> CountAnswers(outcome.count, o, hashOf, lines, maxFilesAtOnce, h))
  {
    var database;
    database, cfg, o := MakeDatabase(text, md5, options, autoMD5, autoHex, maxMem, maxFilesAtOnce);
    file, index := [], [];
    if database == None { return NoFile, cfg, file, o, index; }
    file := database.value;
    ghost var lines, hashOf := Reader.Lines(text), Reader.LineHashes(cfg, md5);
    LinesBound(text, 0);
    MergedAnswers(file, o.splits, o.parts, maxFilesAtOnce, o.rounds, hashOf, lines, maxMem, h);
    outcome, index := LookUp(database.value, bits, h);
  }

  // A lookup with or without an index; index is the one built, if there is to be one.
  method LookUp(file: seq<Rec>, bits: Option<nat>, h: Hash) returns (outcome: Outcome, ghost index: seq<U64>)
    requires StrictlySorted(file) && RECORD_SIZE * |file| < Inspector.MAX_OFFSET
    requires bits.Some? ==> 1 <= bits.value <= 63
    ensures !outcome.NoFile?
    ensures bits == None ==> outcome.Count?
    ensures bits.Some? ==> IndexOutcome(file, index, bits.value, h, outcome)
    ensures outcome.Count? ==> outcome.count == LinearScan(file, h)
  {
    index := [];
    if bits == None {
      var count := Find(file, h);
      return Count(count), index;
    }
    var slots := Index.Build(file, bits.value);
    index := slots[..];
    LookupEndsIff(file, slots[..], bits.value, h);
    if !LookupEnds(file, bits.value, h) { return NeverEnds, index; }
    var count := FindWithIndex(file, slots[..], bits.value, h);
    outcome := Count(count);
  }

  // A lookup with the index does not end exactly if one of the loops over its slots does
  // not.
  ghost predicate IndexOutcome(file: seq<Rec>, index: seq<U64>, bits: nat, h: Hash, outcome: Outcome)
    requires 1 <= bits <= 63
  {
    && Index.IsIndex(index, file, bits)
    && (outcome.NeverEnds? <==>
          !Inspector.LoopsEnd(index, Index.Bucket(h, 64 - bits), RECORD_SIZE * |file|, false))
  }

  // The exact condition for a lookup with an index of some bits to end.
  predicate LookupEnds(file: seq<Rec>, bits: nat, h: Hash)
    requires 1 <= bits <= 63
  {
    var b := Index.Bucket(h, 64 - bits);
    && Inspector.LowBucket(file, 64 - bits) <= b
    && (b + 1 == Index.Pow2(bits) || b < Inspector.HighBucket(file, 64 - bits))
  }

  // It holds exactly if the two loops over the slots of an index of the file end.
  lemma LookupEndsIff(file: seq<Rec>, index: seq<U64>, bits: nat, h: Hash)
    requires 1 <= bits <= 63 && StrictlySorted(file) && Index.IsIndex(index, file, bits)
    ensures LookupEnds(file, bits, h) <==>
            Inspector.LoopsEnd(index, Index.Bucket(h, 64 - bits), RECORD_SIZE * |file|, false)
  {
    var b := Index.Bucket(h, 64 - bits);
    Index.BucketInRange(h, bits);
    Inspector.LoopsEndIff(index, file, bits, b, RECORD_SIZE * |file|, false);
  }

  method Find(file: seq<Rec>, h: Hash) returns (count: U32)
    requires StrictlySorted(file) && RECORD_SIZE * |file| < Inspector.MAX_OFFSET
    ensures count == LinearScan(file, h)
  {
    var inspector := new Inspector.PasswordInspector(file);
    var phc, n := inspector.Binsearch(h);
    count := phc.count;
  }

  method FindWithIndex(file: seq<Rec>, index: seq<U64>, bits: nat, h: Hash) returns (count: U32)
    requires StrictlySorted(file) && RECORD_SIZE * |file| < Inspector.MAX_OFFSET && 1 <= bits <= 63
    requires Index.IsIndex(index, file, bits)
    requires Inspector.LoopsEnd(index, Index.Bucket(h, 64 - bits), RECORD_SIZE * |file|, false)
    ensures count == LinearScan(file, h)
  {
    var inspector := new Inspector.PasswordInspector.WithIndex(file, index, bits);
    var phc, n := inspector.Binsearch(h);
    count := phc.count;
  }

  // Index construction and an indexed lookup together. The condition is the exact
  // one for the lookup to end.
  method IndexAndFind(file: seq<Rec>, bits: nat, h: Hash) returns (count: U32)
    requires StrictlySorted(file) && RECORD_SIZE * |file| < Inspector.MAX_OFFSET && 1 <= bits <= 63
    requires LookupEnds(file, bits, h)
    ensures count == LinearScan(file, h)
  {
    var slots := Index.Build(file, bits);
    LookupEndsIff(file, slots[..], bits, h);
    count := FindWithIndex(file, slots[..], bits, h);
  }
}
