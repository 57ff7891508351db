/** Trimming a proposal to the byte limit, in 64-bit saturating arithmetic. */
module PrepareProposal {

  import opened Abci

  const USIZE_MAX := 0xFFFF_FFFF_FFFF_FFFF
  const I64_MIN := -0x8000_0000_0000_0000
  const I64_MAX := 0x7FFF_FFFF_FFFF_FFFF

  type Usize = n: int | 0 <= n <= USIZE_MAX
  type Int64 = n: int | I64_MIN <= n <= I64_MAX

  // The limit of a request, a negative one counting as zero.
  type Limit = n: int | 0 <= n <= I64_MAX

  // A transaction is as long as an in-memory buffer can be.
  type Tx = t: Bytes | |t| <= I64_MAX

  function SaturatingAdd(a: Usize, b: Usize): Usize {
    if a + b > USIZE_MAX then USIZE_MAX else a + b
  }

  function SaturatingSub(a: Usize, b: Usize): Usize {
    if a < b then 0 else a - b
  }

  // The exact total size.
  function Total(txs: seq<Tx>): nat {
    if txs == [] then 0 else Total(txs[..|txs| - 1]) + |txs[|txs| - 1]|
  }

  // How far the exact total is beyond what the running total can hold.
  function Overflow(txs: seq<Tx>): nat {
    if Total(txs) > USIZE_MAX then Total(txs) - USIZE_MAX else 0
  }

  ghost predicate LongestPrefixWithin(txs: seq<Tx>, r: seq<Tx>, budget: nat) {
    && r <= txs && Total(r) <= budget
    && forall k :: |r| < k <= |txs| ==> Total(txs[..k]) > budget
  }

  lemma {:induction false} TotalMonotone(txs: seq<Tx>, j: nat, k: nat)
    requires j <= k <= |txs|
    ensures Total(txs[..j]) <= Total(txs[..k])
    decreases k
  {
    if j < k {
      assert txs[..k][..k - 1] == txs[..k - 1];
      TotalMonotone(txs, j, k - 1);
    }
  }

  /** What a total is: nothing for no transaction, a length for one, and a sum for parts. */
  lemma {:induction false} TotalAppend(a: seq<Tx>, b: seq<Tx>, tx: Tx)
    ensures Total([]) == 0 && Total([tx]) == |tx| && Total(a + b) == Total(a) + Total(b)
    decreases |b|
  {
    assert [tx][..0] == [];
    if b == [] {
      assert a + b == a;
    } else {
      var n := |b| - 1;
      assert (a + b)[..|a + b| - 1] == a + b[..n];
      TotalAppend(a, b[..n], tx);
    }
  }

  lemma TotalStep(txs: seq<Tx>, k: nat)
    requires k < |txs|
    ensures Total(txs[..k + 1]) == Total(txs[..k]) + |txs[k]|
  {
    assert txs[..k + 1][..k] == txs[..k];
  }

  /**
   For any sizes and any limit the loop ends with the longest prefix whose exact size is within the
   limit plus the overflow: what the saturated total lost comes back as extra room. When the exact sum
   fits 64 bits that is the longest prefix within the limit. A negative limit counts as zero.
   */
  method PrepareProposal(txs: seq<Tx>, maxTxBytes: Int64) returns (kept: seq<Tx>)
    ensures maxTxBytes >= 0 ==> LongestPrefixWithin(txs, kept, maxTxBytes + Overflow(txs))
    ensures maxTxBytes < 0 ==> LongestPrefixWithin(txs, kept, Overflow(txs))
    ensures Total(txs) <= USIZE_MAX && maxTxBytes >= 0 ==> LongestPrefixWithin(txs, kept, maxTxBytes)
    ensures Total(txs) <= USIZE_MAX && maxTxBytes < 0 ==> LongestPrefixWithin(txs, kept, 0)
  {
    var limit: Usize := if maxTxBytes < 0 then 0 else maxTxBytes;
    var total: Usize := 0;
    assert txs[..0] == [];
    for i := 0 to |txs|
      invariant total == if Total(txs[..i]) > USIZE_MAX then USIZE_MAX else Total(txs[..i])
    {
      TotalStep(txs, i);
      total := SaturatingAdd(total, |txs[i]|);
    }
    assert txs[..|txs|] == txs;
    kept := txs;
    while total > limit
      invariant kept <= txs
      invariant total == if Total(kept) < Overflow(txs) then 0 else Total(kept) - Overflow(txs)
      invariant forall k :: |kept| < k <= |txs| ==> Total(txs[..k]) > limit + Overflow(txs)
      decreases |kept|
    {
      if kept == [] {
        break;
      }
      var tx := kept[|kept| - 1];
      assert txs[..|kept|] == kept;
      kept := kept[..|kept| - 1];
      total := SaturatingSub(total, |tx|);
    }
  }

  lemma LongestUnique(txs: seq<Tx>, r: seq<Tx>, r': seq<Tx>, budget: nat)
    requires LongestPrefixWithin(txs, r, budget) && LongestPrefixWithin(txs, r', budget)
    ensures r == r'
  {
    assert r == txs[..|r|] && r' == txs[..|r'|];
  }

  // No prefix total lies beyond the limit but within the overflow.
  ghost predicate ExtraRoomUnused(txs: seq<Tx>, limit: Limit) {
    forall k :: 0 <= k <= |txs| ==> !(limit < Total(txs[..k]) <= limit + Overflow(txs))
  }

  /** The result respects the limit exactly when no prefix of the request falls in the extra room. */
  lemma RespectsLimitIff(txs: seq<Tx>, limit: Limit, kept: seq<Tx>)
    requires LongestPrefixWithin(txs, kept, limit + Overflow(txs))
    ensures Total(kept) <= limit <==> ExtraRoomUnused(txs, limit)
  {
    assert kept == txs[..|kept|];
    if Total(kept) <= limit {
      forall k | 0 <= k <= |txs|
        ensures !(limit < Total(txs[..k]) <= limit + Overflow(txs))
      {
        if k <= |kept| { TotalMonotone(txs, k, |kept|); }
      }
    }
  }

  /** The result is the longest prefix within the limit under the same condition, and only then. */
  lemma IsLongestIff(txs: seq<Tx>, limit: Limit, kept: seq<Tx>, longest: seq<Tx>)
    requires LongestPrefixWithin(txs, kept, limit + Overflow(txs))
    requires LongestPrefixWithin(txs, longest, limit)
    ensures kept == longest <==> ExtraRoomUnused(txs, limit)
  {
    RespectsLimitIff(txs, limit, kept);
    if Total(kept) <= limit {
      LongestUnique(txs, kept, longest, limit);
    }
  }

  /** Saturation does break the limit: three huge transactions and a limit one byte short of the first. */
  lemma SaturationBreaksLimit(huge: Tx, kept: seq<Tx>)
    requires |huge| == I64_MAX
    requires LongestPrefixWithin([huge, huge, huge], kept, I64_MAX - 1 + Overflow([huge, huge, huge]))
    ensures Total(kept) > I64_MAX - 1
  {
    var txs := [huge, huge, huge];
    assert txs[..0] == [];
    TotalStep(txs, 0);
    TotalStep(txs, 1);
    TotalStep(txs, 2);
    assert txs[..3] == txs;
  }

  /** Preparing a prepared proposal again changes nothing exactly when the first result respects the
      limit - always, when sums stay exact. */
  lemma IdempotentIff(txs: seq<Tx>, limit: Limit, once: seq<Tx>, twice: seq<Tx>)
    requires LongestPrefixWithin(txs, once, limit + Overflow(txs))
    requires LongestPrefixWithin(once, twice, limit + Overflow(once))
    ensures twice == once <==> Total(once) <= limit
    ensures Total(txs) <= USIZE_MAX ==> twice == once
  {
    assert once == txs[..|once|] && txs[..|txs|] == txs && once[..|once|] == once;
    TotalMonotone(txs, |once|, |txs|);
  }

  /** A larger limit never drops a transaction a smaller one kept. */
  lemma GrowsWithLimit(txs: seq<Tx>, small: Limit, large: Limit, few: seq<Tx>, many: seq<Tx>)
    requires small <= large
    requires LongestPrefixWithin(txs, few, small + Overflow(txs))
    requires LongestPrefixWithin(txs, many, large + Overflow(txs))
    ensures few <= many
  {
    assert few == txs[..|few|] && many == txs[..|many|];
  }
}
