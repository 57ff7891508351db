/** Choosing benchmark hosts over regions, and the committee addresses built from them. */
module HostSelection {

  import opened Arithmetic
  import opened Sequences
  import opened Committee

  // The hosts of each region, in the dictionary's order.
  type Regions = seq<seq<string>>

  function Total(regions: Regions): nat {
    if regions == [] then 0 else |regions[0]| + Total(regions[1..])
  }

  function Smallest(regions: Regions): nat {
    if regions == [] then 0
    else if |regions| == 1 then |regions[0]|
    else var rest := Smallest(regions[1..]); if |regions[0]| < rest then |regions[0]| else rest
  }

  lemma {:induction false} SmallestBound(regions: Regions)
    ensures forall r :: 0 <= r < |regions| ==> Smallest(regions) <= |regions[r]|
    ensures regions != [] ==> exists r :: 0 <= r < |regions| && |regions[r]| == Smallest(regions)
    decreases regions
  {
    if |regions| > 1 {
      SmallestBound(regions[1..]);
      forall r | 0 <= r < |regions|
        ensures Smallest(regions) <= |regions[r]|
      {
        if r > 0 { assert regions[r] == regions[1..][r - 1]; }
      }
      var r :| 0 <= r < |regions[1..]| && |regions[1..][r]| == Smallest(regions[1..]);
      assert regions[1..][r] == regions[r + 1];
      assert |regions[0]| == Smallest(regions) || |regions[r + 1]| == Smallest(regions);
    } else if |regions| == 1 {
      assert |regions[0]| == Smallest(regions);
    }
  }

  // zip(*regions): row k holds host k of every region, as long as all regions have one.
  function Rows(regions: Regions): seq<seq<string>> {
    SmallestBound(regions);
    seq(Smallest(regions), k requires 0 <= k < Smallest(regions) =>
      seq(|regions|, r requires 0 <= r < |regions| => regions[r][k]))
  }

  function Interleaved(regions: Regions): seq<string> {
    Concat(Rows(regions))
  }

  /** Primary and workers of a node on one machine. */
  function SelectCollocated(regions: Regions, nodes: nat): seq<string> {
    if Total(regions) < nodes then [] else Take(Interleaved(regions), nodes)
  }

  // Host k of the interleaving is host k / R of region k mod R.
  ghost predicate HostAt(regions: Regions, k: nat, host: string) {
    && regions != []
    && k / |regions| < |regions[k % |regions|]|
    && host == regions[k % |regions|][k / |regions|]
  }

  lemma InterleavedRow(regions: Regions, k: nat, row: nat, at: nat)
    requires row < Smallest(regions) && at < |regions| && k == row * |regions| + at
    ensures k < |Interleaved(regions)|
    ensures row < |regions[at]| && Interleaved(regions)[k] == regions[at][row]
  {
    SmallestBound(regions);
    ConcatAt(Rows(regions), |regions|, row, at);
    assert Rows(regions)[row][at] == regions[at][row];
  }

  lemma InterleavedOne(regions: Regions, k: nat)
    requires k < Smallest(regions) * |regions|
    ensures k < |Interleaved(regions)| && HostAt(regions, k, Interleaved(regions)[k])
  {
    if regions != [] {
      var row, at := Locate(k, Smallest(regions), |regions|);
      InterleavedRow(regions, k, row, at);
    }
  }

  lemma InterleavedAt(regions: Regions)
    ensures |Interleaved(regions)| == Smallest(regions) * |regions|
    ensures forall k :: 0 <= k < |Interleaved(regions)| ==> HostAt(regions, k, Interleaved(regions)[k])
  {
    ConcatLength(Rows(regions), |regions|);
    forall k | 0 <= k < |Interleaved(regions)|
      ensures HostAt(regions, k, Interleaved(regions)[k])
    {
      InterleavedOne(regions, k);
    }
  }

  /** When the host count check passes, min(nodes, R * m) hosts are selected, host k being number k / R
      of region k mod R; so all requested hosts are found exactly when nodes <= R * m. */
  lemma CollocatedSelection(regions: Regions, nodes: nat)
    requires nodes <= Total(regions)
    ensures
      var selected, available := SelectCollocated(regions, nodes), Smallest(regions) * |regions|;
      && |selected| == (if nodes < available then nodes else available)
      && (|selected| == nodes <==> nodes <= available)
      && forall k :: 0 <= k < |selected| ==> HostAt(regions, k, selected[k])
  {
    InterleavedAt(regions);
  }

  lemma {:induction false} TotalIsConcat(regions: Regions)
    ensures Total(regions) == |Concat(regions)|
    decreases regions
  {
    if regions != [] { TotalIsConcat(regions[1..]); }
  }

  /** No host is selected exactly when more are asked for than all regions have together, none is asked for,
      there is no region, or some region has no host. */
  lemma NothingSelectedIff(regions: Regions, nodes: nat)
    ensures SelectCollocated(regions, nodes) == [] <==>
      nodes > |Concat(regions)| || nodes == 0 || regions == [] || exists r :: 0 <= r < |regions| && regions[r] == []
  {
    TotalIsConcat(regions);
    SmallestBound(regions);
    if nodes <= Total(regions) {
      CollocatedSelection(regions, nodes);
      if regions != [] {
        var r :| 0 <= r < |regions| && |regions[r]| == Smallest(regions);
        if Smallest(regions) == 0 {
          assert regions[r] == [];
        } else {
          assert Smallest(regions) * |regions| > 0;
        }
      }
    }
  }

  ghost predicate AllDistinct(regions: Regions) {
    forall r, k, r', k' ::
      (0 <= r < |regions| && 0 <= k < |regions[r]| && 0 <= r' < |regions| && 0 <= k' < |regions[r']| &&
       regions[r][k] == regions[r'][k']) ==>
      (r == r' && k == k')
  }

  /** Distinct hosts stay distinct. */
  lemma SelectionDistinct(regions: Regions, nodes: nat)
    requires AllDistinct(regions) && nodes <= Total(regions)
    ensures
      var selected := SelectCollocated(regions, nodes);
      forall i, j :: 0 <= i < j < |selected| ==> selected[i] != selected[j]
  {
    var selected := SelectCollocated(regions, nodes);
    CollocatedSelection(regions, nodes);
    forall i, j | 0 <= i < j < |selected|
      ensures selected[i] != selected[j]
    {
      if selected[i] == selected[j] { OnePlace(regions, i, j, selected[i]); }
    }
  }

  lemma OnePlace(regions: Regions, i: nat, j: nat, host: string)
    requires AllDistinct(regions) && HostAt(regions, i, host) && HostAt(regions, j, host)
    ensures i == j
  {
    var R := |regions|;
    SamePlace(regions, i % R, i / R, j % R, j / R);
    SplitIsInjective(i, j, R);
  }

  lemma SamePlace(regions: Regions, r: nat, k: nat, r': nat, k': nat)
    requires AllDistinct(regions) && r < |regions| && k < |regions[r]| && r' < |regions| && k' < |regions[r']|
    requires regions[r][k] == regions[r'][k']
    ensures r == r' && k == k'
  {
  }

  // How many of the first n hosts belong to a region.
  function Uses(hosts: seq<string>, n: nat, region: seq<string>): nat
    requires n <= |hosts|
  {
    if n == 0 then 0 else Uses(hosts, n - 1, region) + if hosts[n - 1] in region then 1 else 0
  }

  // Host k of the selection belongs to region k mod R and to no other.
  lemma RegionOfHost(regions: Regions, k: nat, host: string, r: nat)
    requires AllDistinct(regions) && HostAt(regions, k, host) && r < |regions|
    ensures host in regions[r] <==> r == k % |regions|
  {
    if host in regions[r] {
      var at :| 0 <= at < |regions[r]| && regions[r][at] == host;
      SamePlace(regions, r, at, k % |regions|, k / |regions|);
    }
  }

  // Region r's part of n hosts dealt out in turn over R regions.
  function Quota(n: nat, R: nat, r: nat): nat
    requires R > 0
  {
    n / R + if r < n % R then 1 else 0
  }

  lemma QuotaStep(n: nat, R: nat, r: nat)
    requires r < R
    ensures Quota(n + 1, R, r) == Quota(n, R, r) + if r == n % R then 1 else 0
  {
    DivideSuccessor(n, R);
  }

  lemma QuotaZero(R: nat, r: nat)
    requires r < R
    ensures Quota(0, R, r) == 0
  {
  }

  lemma {:induction false} UsesClosed(regions: Regions, hosts: seq<string>, n: nat, r: nat)
    requires AllDistinct(regions) && n <= |hosts| && r < |regions|
    requires forall k :: 0 <= k < |hosts| ==> HostAt(regions, k, hosts[k])
    ensures Uses(hosts, n, regions[r]) == Quota(n, |regions|, r)
    decreases n
  {
    if n == 0 {
      QuotaZero(|regions|, r);
    } else {
      UsesClosed(regions, hosts, n - 1, r);
      RegionOfHost(regions, n - 1, hosts[n - 1], r);
      QuotaStep(n - 1, |regions|, r);
    }
  }

  /** After any number n of selected hosts, region r has been used n / R times, and once more when r is
      below n mod R; so any two regions are used alike, to within one. */
  lemma RegionsBalanced(regions: Regions, nodes: nat, n: nat, r: nat, r': nat)
    requires AllDistinct(regions) && n <= |SelectCollocated(regions, nodes)| && r < |regions| && r' < |regions|
    ensures
      var selected := SelectCollocated(regions, nodes);
      && Uses(selected, n, regions[r]) == Quota(n, |regions|, r)
      && Uses(selected, n, regions[r]) <= Uses(selected, n, regions[r']) + 1
  {
    InterleavedAt(regions);
    UsesClosed(regions, SelectCollocated(regions, nodes), n, r);
    UsesClosed(regions, SelectCollocated(regions, nodes), n, r');
  }

  /** The smallest failing case: three hosts in two regions pass the check for three nodes, and two are
      selected. */
  lemma TooFewSelected()
    ensures Total([["a", "b"], ["c"]]) == 3 && SelectCollocated([["a", "b"], ["c"]], 3) == ["a", "c"]
  {
    var regions: Regions := [["a", "b"], ["c"]];
    assert regions[1..] == [["c"]] && regions[1..][1..] == [];
    assert Smallest(regions) == 1;
    CollocatedSelection(regions, 3);
    var selected := SelectCollocated(regions, 3);
    assert HostAt(regions, 0, selected[0]) && HostAt(regions, 1, selected[1]);
  }

  /** Primary and workers on different machines of one region. */
  method SelectSpread(regions: Regions, primaries: nat, workers: nat) returns (selected: seq<seq<string>>)
    ensures (primaries <= |regions| && forall r :: 0 <= r < |regions| ==> |regions[r]| >= workers + 1) ==>
      |selected| == primaries && forall i :: 0 <= i < primaries ==> selected[i] == regions[i][..workers + 1]
    ensures !(primaries <= |regions| && forall r :: 0 <= r < |regions| ==> |regions[r]| >= workers + 1) ==>
      selected == []
  {
    if |regions| < primaries {
      return [];
    }
    for r := 0 to |regions|
      invariant forall q :: 0 <= q < r ==> |regions[q]| >= workers + 1
    {
      if |regions[r]| < workers + 1 {
        return [];
      }
    }
    selected := [];
    for i := 0 to primaries
      invariant |selected| == i
      invariant forall j :: 0 <= j < i ==> selected[j] == regions[j][..workers + 1]
    {
      selected := selected + [regions[i][..workers + 1]];
    }
  }

  // ----- from hosts to a committee -----

  function Repeat(host: string, n: int): seq<string> {
    if n <= 0 then [] else seq(n, i => host)
  }

  // One name per selected host; zip stops at the shorter list.
  function CollocatedAddresses(names: seq<string>, hosts: seq<string>, workers: int): seq<Entry> {
    var n := if |names| < |hosts| then |names| else |hosts|;
    seq(n, i requires 0 <= i < n => (names[i], Repeat(hosts[i], workers + 1)))
  }

  /** Each selected host serves the primary and all workers of the node it is zipped with. */
  lemma CollocatedAddressesAre(names: seq<string>, hosts: seq<string>, workers: nat, i: nat)
    requires i < |names| && i < |hosts|
    ensures
      var addresses := CollocatedAddresses(names, hosts, workers);
      && |addresses| == (if |names| < |hosts| then |names| else |hosts|)
      && addresses[i].0 == names[i] && |addresses[i].1| == workers + 1
      && forall host :: host in addresses[i].1 ==> host == hosts[i]
  {
  }

  // ... and with machines of their own, the hosts selected for each node.
  function SpreadAddresses(names: seq<string>, hosts: seq<seq<string>>): seq<Entry> {
    var n := if |names| < |hosts| then |names| else |hosts|;
    seq(n, i requires 0 <= i < n => (names[i], hosts[i]))
  }

  /** The spread addresses satisfy the committee's assertions exactly when some node was selected and each
      has a worker. */
  lemma SpreadAcceptableIff(names: seq<string>, hosts: seq<seq<string>>, workers: nat, basePort: int)
    requires |names| == |hosts| && basePort > 1024
    requires forall i, j :: 0 <= i < j < |names| ==> names[i] != names[j]
    requires forall i :: 0 <= i < |hosts| ==> |hosts[i]| == workers + 1
    ensures Acceptable(SpreadAddresses(names, hosts), basePort) <==> hosts != [] && workers >= 1
    ensures forall i :: 0 <= i < |hosts| ==> SpreadAddresses(names, hosts)[i] == (names[i], hosts[i])
  {
    if hosts != [] {
      assert SpreadAddresses(names, hosts)[0].1 == hosts[0];
    }
  }

  /** The collocated addresses satisfy the committee's assertions exactly when some host was selected
      and each node has a worker. */
  lemma CollocatedAcceptableIff(names: seq<string>, hosts: seq<string>, workers: int, basePort: int)
    requires |names| == |hosts| && basePort > 1024
    requires forall i, j :: 0 <= i < j < |names| ==> names[i] != names[j]
    ensures Acceptable(CollocatedAddresses(names, hosts, workers), basePort) <==> hosts != [] && workers >= 1
  {
    var addresses := CollocatedAddresses(names, hosts, workers);
    if hosts != [] {
      assert addresses[0].1 == Repeat(hosts[0], workers + 1);
    }
  }

  /** A benchmark round for n of the committee's nodes runs on min(n, selected) nodes: fewer than asked
      for, without an error, exactly when the smallest region is too small. */
  lemma RoundSize(regions: Regions, asked: nat, n: nat, authorities: seq<Authority>)
    requires 1 <= n <= asked <= Total(regions) && |authorities| == |SelectCollocated(regions, asked)| > 0
    ensures |Remaining(authorities, |authorities| - n)| == n <==> n <= Smallest(regions) * |regions|
  {
    CollocatedSelection(regions, asked);
  }
}
