// The files that one merge after the other leaves, and what the counts add up to over
// all of them.
module MergeRounds {
  import opened Records
  import opened MergeFold
  import opened MergeLaw

  lemma AllKeysConcat(a: seq<seq<Rec>>, b: seq<seq<Rec>>)
    ensures AllKeys(a + b) == AllKeys(a) + AllKeys(b)
  {
    forall h ensures h in AllKeys(a + b) <==> h in AllKeys(a) || h in AllKeys(b) {
      if h in AllKeys(a + b) {
        var i, r :| 0 <= i < |a + b| && r in Deliveries((a + b)[i]) && h == r.hash;
        if i < |a| { assert r in Deliveries(a[i]); } else { assert r in Deliveries(b[i - |a|]); }
      }
      if h in AllKeys(a) {
        var i, r :| 0 <= i < |a| && r in Deliveries(a[i]) && h == r.hash;
        assert r in Deliveries((a + b)[i]);
      }
      if h in AllKeys(b) {
        var i, r :| 0 <= i < |b| && r in Deliveries(b[i]) && h == r.hash;
        assert r in Deliveries((a + b)[i + |a|]);
      }
    }
  }

  lemma AllKeysSingle(f: seq<Rec>)
    requires f != []
    ensures AllKeys([f]) == KeySet(f)
  {
    forall h ensures h in AllKeys([f]) <==> h in KeySet(f) {
      AllKeysMeaning([f], h);
      assert [f][0] == f;
    }
  }

  lemma {:induction false} TrueSumConcat(a: seq<seq<Rec>>, b: seq<seq<Rec>>, h: Hash)
    ensures TrueSum(a + b, h) == TrueSum(a, h) + TrueSum(b, h)
  {
    if b == [] {
      assert a + b == a;
    } else {
      assert (a + b)[..|a + b| - 1] == a + b[..|b| - 1];
      TrueSumConcat(a, b[..|b| - 1], h);
    }
  }

  lemma SingleSum(f: seq<Rec>, h: Hash)
    ensures TrueSum([f], h) == KeySum(f, h)
  {
    WeighAllUpdate([f], 0, [], CountFor(h));
    WeighAllDrained([[]], CountFor(h));
    assert [f][0 := []] == [[]];
  }

  // --- one round ---

  // A merge of the first files of a list: the list before it, the records handed out,
  // the file written, and the input exhausted last.
  datatype Round = Round(pool: seq<seq<Rec>>, F: seq<Rec>, out: seq<Rec>, last: nat)

  function Taken(n: nat, k: nat): nat { if n < k then n else k }

  function Slice(r: Round, k: nat): seq<seq<Rec>> { r.pool[..Taken(|r.pool|, k)] }

  // The list after the round: the files not taken, and the new one behind them.
  function After(r: Round, k: nat): seq<seq<Rec>> { r.pool[Taken(|r.pool|, k)..] + [r.out] }

  ghost predicate IsRound(r: Round, k: nat) {
    FullMerge(Slice(r, k), r.F, r.out) && EndsWith(Slice(r, k), r.F, r.last)
  }

  // What the round adds for a key: its seed once more, and the last record of every
  // input but one once more.
  ghost function Copies(r: Round, k: nat, h: Hash): nat
    requires r.F != []
  {
    CountFor(h)(r.F[0]) + Extras(Slice(r, k), r.last, CountFor(h))
  }

  lemma RoundKeys(r: Round, k: nat)
    requires IsRound(r, k) && AllSorted(r.pool)
    ensures r.out != [] && StrictlySorted(r.out) && AllSorted(After(r, k))
    ensures AllKeys(After(r, k)) == AllKeys(r.pool)
  {
    var b := Taken(|r.pool|, k);
    MergeSorted(r.pool[..b], r.F, r.out);
    MergeKeys(r.pool[..b], r.F, r.out);
    assert r.pool == r.pool[..b] + r.pool[b..];
    AllKeysConcat(r.pool[..b], r.pool[b..]);
    AllKeysConcat(r.pool[b..], [r.out]);
    AllKeysSingle(r.out);
  }

  // The sums of the list and of the list after the round, without the files that are
  // in both.
  lemma RoundSplit(r: Round, k: nat, h: Hash) returns (rest: nat)
    requires IsRound(r, k) && AllSorted(r.pool)
    ensures TrueSum(r.pool, h) == TrueSum(Slice(r, k), h) + rest
    ensures TrueSum(After(r, k), h) == LinearScan(r.out, h) + rest
  {
    var b := Taken(|r.pool|, k);
    rest := TrueSum(r.pool[b..], h);
    assert r.pool == r.pool[..b] + r.pool[b..];
    TrueSumConcat(r.pool[..b], r.pool[b..], h);
    TrueSumConcat(r.pool[b..], [r.out], h);
    SingleSum(r.out, h);
    RoundKeys(r, k);
    StrictKeySum(r.out, h);
  }

  // The exact law of a round; wraps counts how often the sum of its key has wrapped
  // around, which only a sum over the files that are merged can do.
  lemma RoundSums(r: Round, k: nat, h: Hash) returns (wraps: nat)
    requires IsRound(r, k) && AllSorted(r.pool)
    ensures TrueSum(After(r, k), h) + TWO32 * wraps == TrueSum(r.pool, h) + Copies(r, k, h)
    ensures wraps == (TrueSum(Slice(r, k), h) + Copies(r, k, h)) / TWO32
    ensures Copies(r, k, h) <= 2 * TrueSum(r.pool, h)
  {
    var rest := RoundSplit(r, k, h);
    var total := InflatedSum(Slice(r, k), r.F[0], r.last, h);
    MergeCount(Slice(r, k), r.F, r.out, r.last, h);
    wraps := Wraps(total);
    CopiesBound(Slice(r, k), r.F, r.out, r.last, h);
  }

  lemma Wraps(x: nat) returns (wraps: nat)
    ensures wraps == x / TWO32 && x % TWO32 + TWO32 * wraps == x
  {
    wraps := x / TWO32;
  }

  // --- many rounds ---

  ghost function PoolAfter(originals: seq<seq<Rec>>, k: nat, rounds: seq<Round>): seq<seq<Rec>> {
    if rounds == [] then originals else After(Last(rounds), k)
  }

  // Each round takes the files that the rounds before it have left.
  ghost predicate IsChain(originals: seq<seq<Rec>>, k: nat, rounds: seq<Round>) {
    rounds != [] ==>
      && IsChain(originals, k, Front(rounds))
      && Last(rounds).pool == PoolAfter(originals, k, Front(rounds))
      && IsRound(Last(rounds), k)
  }

  // What all rounds together add for a key.
  ghost function AllCopies(rounds: seq<Round>, k: nat, h: Hash): nat
    requires forall i :: 0 <= i < |rounds| ==> rounds[i].F != []
  {
    if rounds == [] then 0 else AllCopies(Front(rounds), k, h) + Copies(Last(rounds), k, h)
  }

  lemma {:induction false} ChainRounds(originals: seq<seq<Rec>>, k: nat, rounds: seq<Round>)
    requires IsChain(originals, k, rounds)
    ensures forall i :: 0 <= i < |rounds| ==> IsRound(rounds[i], k) && rounds[i].F != []
  {
    if rounds != [] {
      ChainRounds(originals, k, Front(rounds));
      assert forall i :: 0 <= i < |rounds| - 1 ==> rounds[i] == Front(rounds)[i];
    }
  }

  ghost function Inflation(originals: seq<seq<Rec>>, k: nat, rounds: seq<Round>, h: Hash): nat
    requires IsChain(originals, k, rounds)
  {
    ChainRounds(originals, k, rounds);
    AllCopies(rounds, k, h)
  }

  // What the true sums and all copies together come to.
  ghost function Total(originals: seq<seq<Rec>>, k: nat, rounds: seq<Round>, h: Hash): nat
    requires IsChain(originals, k, rounds)
  {
    TrueSum(originals, h) + Inflation(originals, k, rounds, h)
  }

  lemma ChainSnoc(originals: seq<seq<Rec>>, k: nat, rounds: seq<Round>, r: Round)
    requires IsChain(originals, k, rounds) && r.pool == PoolAfter(originals, k, rounds) && IsRound(r, k)
    ensures IsChain(originals, k, rounds + [r]) && PoolAfter(originals, k, rounds + [r]) == After(r, k)
  {
    assert Front(rounds + [r]) == rounds;
  }

  lemma TotalStep(originals: seq<seq<Rec>>, k: nat, rounds: seq<Round>, h: Hash)
    requires rounds != [] && IsChain(originals, k, rounds)
    ensures Total(originals, k, rounds, h) == Total(originals, k, Front(rounds), h) + Copies(Last(rounds), k, h)
  {
  }

  // The keys are those of the originals throughout.
  lemma {:induction false} ChainKeys(originals: seq<seq<Rec>>, k: nat, rounds: seq<Round>)
    requires AllSorted(originals) && IsChain(originals, k, rounds)
    ensures AllSorted(PoolAfter(originals, k, rounds))
    ensures AllKeys(PoolAfter(originals, k, rounds)) == AllKeys(originals)
  {
    if rounds != [] {
      ChainKeys(originals, k, Front(rounds));
      RoundKeys(Last(rounds), k);
    }
  }

  // The sums are those of the originals and all copies, but for what has wrapped
  // around.
  lemma {:induction false} ChainSums(originals: seq<seq<Rec>>, k: nat, rounds: seq<Round>, h: Hash)
    returns (wraps: nat)
    requires AllSorted(originals) && IsChain(originals, k, rounds)
    ensures TrueSum(PoolAfter(originals, k, rounds), h) + TWO32 * wraps == Total(originals, k, rounds, h)
  {
    wraps := 0;
    if rounds != [] {
      var before := ChainSums(originals, k, Front(rounds), h);
      ChainKeys(originals, k, Front(rounds));
      TotalStep(originals, k, rounds, h);
      var more := RoundSums(Last(rounds), k, h);
      wraps := before + more;
    }
  }

  // If the total stays below 2^32 nothing has wrapped around.
  lemma ChainExact(originals: seq<seq<Rec>>, k: nat, rounds: seq<Round>, h: Hash)
    requires AllSorted(originals) && IsChain(originals, k, rounds)
    requires Total(originals, k, rounds, h) < TWO32
    ensures TrueSum(PoolAfter(originals, k, rounds), h) == Total(originals, k, rounds, h)
  {
    var wraps := ChainSums(originals, k, rounds, h);
    NoWraps(TrueSum(PoolAfter(originals, k, rounds), h), wraps, Total(originals, k, rounds, h));
  }

  lemma NoWraps(x: nat, wraps: nat, total: nat)
    requires x + TWO32 * wraps == total < TWO32
    ensures x == total
  {
  }

  // x tripled n times
  ghost function Tripled(x: nat, n: nat): nat { if n == 0 then x else 3 * Tripled(x, n - 1) }

  lemma {:induction false} TripledGrows(x: nat, n: nat)
    ensures x <= Tripled(x, n)
  {
    if n > 0 { TripledGrows(x, n - 1); }
  }

  lemma AtMostTriple(originals: seq<seq<Rec>>, k: nat, rounds: seq<Round>, h: Hash)
    requires AllSorted(originals) && rounds != [] && IsChain(originals, k, rounds)
    requires Total(originals, k, Front(rounds), h) < TWO32
    ensures Total(originals, k, rounds, h) <= 3 * Total(originals, k, Front(rounds), h)
  {
    ChainKeys(originals, k, Front(rounds));
    ChainExact(originals, k, Front(rounds), h);
    var _ := RoundSums(Last(rounds), k, h);
    TotalStep(originals, k, rounds, h);
  }

  // Then every round has at most tripled the sums.
  lemma {:induction false} ChainBound(originals: seq<seq<Rec>>, k: nat, rounds: seq<Round>, h: Hash)
    requires AllSorted(originals) && IsChain(originals, k, rounds)
    requires Total(originals, k, rounds, h) < TWO32
    ensures Total(originals, k, rounds, h) <= Tripled(TrueSum(originals, h), |rounds|)
  {
    if rounds != [] {
      TotalStep(originals, k, rounds, h);
      ChainBound(originals, k, Front(rounds), h);
      AtMostTriple(originals, k, rounds, h);
    }
  }

  // A bound that can be tested before: if the true sum tripled m times does not wrap,
  // nothing does in m rounds.
  lemma {:induction false} ThirdsSuffice(originals: seq<seq<Rec>>, k: nat, rounds: seq<Round>, h: Hash)
    requires AllSorted(originals) && IsChain(originals, k, rounds)
    requires Tripled(TrueSum(originals, h), |rounds|) < TWO32
    ensures Total(originals, k, rounds, h) < TWO32
  {
    if rounds != [] {
      TripledGrows(TrueSum(originals, h), |rounds| - 1);
      ThirdsSuffice(originals, k, Front(rounds), h);
      ChainBound(originals, k, Front(rounds), h);
      AtMostTriple(originals, k, rounds, h);
    }
  }

  // --- the file that is left ---

  // What the merger does to a list of files: rounds, each with what the ones before it
  // have left, down to a single file.
  ghost predicate IsMerge(originals: seq<seq<Rec>>, k: nat, rounds: seq<Round>, dstFile: seq<Rec>) {
    rounds != [] && IsChain(originals, k, rounds) && PoolAfter(originals, k, rounds) == [dstFile]
  }

  lemma FinalKeys(originals: seq<seq<Rec>>, k: nat, rounds: seq<Round>, dstFile: seq<Rec>)
    requires AllSorted(originals) && IsMerge(originals, k, rounds, dstFile)
    ensures dstFile != [] && StrictlySorted(dstFile) && KeySet(dstFile) == AllKeys(originals)
  {
    ChainKeys(originals, k, Front(rounds));
    RoundKeys(Last(rounds), k);
    ChainKeys(originals, k, rounds);
    assert After(Last(rounds), k)[|After(Last(rounds), k)| - 1] == dstFile;
    AllKeysSingle(dstFile);
  }

  lemma Remainder(x: nat, wraps: nat, total: nat)
    requires x < TWO32 && x + TWO32 * wraps == total
    ensures total % TWO32 == x
  {
  }

  // Its counts are the true sums and all copies, modulo 2^32.
  lemma FinalCounts(originals: seq<seq<Rec>>, k: nat, rounds: seq<Round>, dstFile: seq<Rec>, h: Hash)
    requires AllSorted(originals) && IsMerge(originals, k, rounds, dstFile)
    ensures LinearScan(dstFile, h) == Total(originals, k, rounds, h) % TWO32
  {
    FinalKeys(originals, k, rounds, dstFile);
    SingleSum(dstFile, h);
    StrictKeySum(dstFile, h);
    var wraps := ChainSums(originals, k, rounds, h);
    Remainder(LinearScan(dstFile, h), wraps, Total(originals, k, rounds, h));
  }

  // Without wrap-around nothing is lost, and every round at most triples a count.
  lemma FinalBounds(originals: seq<seq<Rec>>, k: nat, rounds: seq<Round>, dstFile: seq<Rec>, h: Hash)
    requires AllSorted(originals) && IsMerge(originals, k, rounds, dstFile)
    requires Total(originals, k, rounds, h) < TWO32
    ensures TrueSum(originals, h) <= LinearScan(dstFile, h) == Total(originals, k, rounds, h)
    ensures LinearScan(dstFile, h) <= Tripled(TrueSum(originals, h), |rounds|)
  {
    FinalCounts(originals, k, rounds, dstFile, h);
    BelowModulus(Total(originals, k, rounds, h));
    ChainBound(originals, k, rounds, h);
  }
}
