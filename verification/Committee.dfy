/** The committee file: ports, address listings and the removal of nodes. */
module Committee {

  import opened Arithmetic
  import opened Sequences
  import opened DecimalText

  datatype Address = Address(host: string, port: int)

  datatype PrimaryAddresses = PrimaryAddresses(primaryToPrimary: Address, workerToPrimary: Address,
                                               apiRpc: Address, apiAbci: Address)

  datatype WorkerAddresses = WorkerAddresses(primaryToWorker: Address, transactions: Address, workerToWorker: Address)

  datatype Authority = Authority(name: string, stake: int, primary: PrimaryAddresses, workers: seq<WorkerAddresses>)

  // A name with its hosts: the primary's first, then one per worker.
  type Entry = (string, seq<string>)

  // ----- address strings -----

  function Render(a: Address): string {
    a.host + ":" + Numeral(a.port)
  }

  // The text before the first ':'.
  function Ip(address: string): string {
    if address == "" || address[0] == ':' then "" else [address[0]] + Ip(address[1..])
  }

  /** The host is recovered from an address string exactly when it holds no ':' itself. */
  lemma {:induction false} IpOfRender(host: string, port: int)
    ensures Ip(Render(Address(host, port))) == host <==> ':' !in host
    decreases host
  {
    var s := Render(Address(host, port));
    if host == "" {
      assert s[0] == ':';
    } else if host[0] != ':' {
      IpOfRender(host[1..], port);
      assert s[1..] == Render(Address(host[1..], port));
      assert host == [host[0]] + host[1..];
    } else {
      assert s[0] == host[0];
    }
  }

  /** What follows the host is a colon and the port in decimal. */
  lemma RenderReads(a: Address)
    requires a.port >= 0
    ensures
      var s := Render(a);
      && |a.host| < |s| && s[..|a.host|] == a.host && s[|a.host|] == ':'
      && AllDigits(s[|a.host| + 1..]) && ParseDecimal(s[|a.host| + 1..]) == a.port
  {
    ParseDecimalOf(a.port);
    assert Render(a)[|a.host| + 1..] == Numeral(a.port);
  }

  /** Address strings tell addresses apart as long as no host holds a colon. */
  lemma RenderIff(a: Address, b: Address)
    requires ':' !in a.host && ':' !in b.host
    ensures Render(a) == Render(b) <==> a == b
  {
    IpOfRender(a.host, a.port);
    IpOfRender(b.host, b.port);
    if Render(a) == Render(b) {
      assert Render(a)[|a.host| + 1..] == Numeral(a.port) && Render(b)[|b.host| + 1..] == Numeral(b.port);
      NumeralInjective(a.port, b.port);
    }
  }

  // ----- the layout -----

  // What the constructor asserts of its arguments; names are the keys of a dictionary.
  predicate Acceptable(addresses: seq<Entry>, basePort: int) {
    && addresses != [] && basePort > 1024
    && (forall i :: 0 <= i < |addresses| ==> |addresses[i].1| > 1 && |addresses[i].1| == |addresses[0].1|)
    && (forall i, j :: 0 <= i < j < |addresses| ==> addresses[i].0 != addresses[j].0)
  }

  // Ports one authority takes: four for the primary, three for each worker.
  function Width(hosts: nat): nat
    requires hosts > 0
  {
    4 + 3 * (hosts - 1)
  }

  function PrimaryAt(host: string, port: int): PrimaryAddresses {
    PrimaryAddresses(Address(host, port), Address(host, port + 1), Address(host, port + 2), Address(host, port + 3))
  }

  function WorkerAt(host: string, port: int): WorkerAddresses {
    WorkerAddresses(Address(host, port), Address(host, port + 1), Address(host, port + 2))
  }

  function AuthorityAt(e: Entry, port: int): Authority
    requires |e.1| > 0
  {
    Authority(e.0, 1, PrimaryAt(e.1[0], port),
              seq(|e.1| - 1, j requires 0 <= j < |e.1| - 1 => WorkerAt(e.1[j + 1], port + 4 + 3 * j)))
  }

  function Layout(addresses: seq<Entry>, basePort: int): seq<Authority>
    requires Acceptable(addresses, basePort)
  {
    var width := Width(|addresses[0].1|);
    seq(|addresses|, i requires 0 <= i < |addresses| => AuthorityAt(addresses[i], basePort + i * width))
  }

  /** Every address of every authority, on its entry: the hosts in their order, on the ports of its block. */
  lemma LayoutAt(addresses: seq<Entry>, basePort: int, i: nat)
    requires Acceptable(addresses, basePort) && i < |addresses|
    ensures
      var (name, hosts) := addresses[i];
      var a, w := Layout(addresses, basePort)[i], |hosts| - 1;
      var start := basePort + i * (4 + 3 * w);
      && |Layout(addresses, basePort)| == |addresses| && a.name == name && a.stake == 1
      && a.primary.primaryToPrimary == Address(hosts[0], start)
      && a.primary.workerToPrimary == Address(hosts[0], start + 1)
      && a.primary.apiRpc == Address(hosts[0], start + 2) && a.primary.apiAbci == Address(hosts[0], start + 3)
      && |a.workers| == w
      && forall j :: 0 <= j < w ==>
           && a.workers[j].primaryToWorker == Address(hosts[j + 1], start + 4 + 3 * j)
           && a.workers[j].transactions == Address(hosts[j + 1], start + 5 + 3 * j)
           && a.workers[j].workerToWorker == Address(hosts[j + 1], start + 6 + 3 * j)
  {
  }

  // ----- listings -----

  // The authorities left when the last `faults` are taken away, as a list slice clamps.
  function Good(authorities: seq<Authority>, faults: int): seq<Authority>
    requires faults < |authorities|
  {
    Take(authorities, |authorities| - faults)
  }

  function Remaining(authorities: seq<Authority>, nodes: int): seq<Authority>
    requires nodes < |authorities|
  {
    if nodes <= 0 then authorities else authorities[..|authorities| - nodes]
  }

  function Primaries(authorities: seq<Authority>, faults: int): seq<Address>
    requires faults < |authorities|
  {
    var good := Good(authorities, faults);
    seq(|good|, i requires 0 <= i < |good| => good[i].primary.primaryToPrimary)
  }

  function Rpcs(authorities: seq<Authority>, faults: int): seq<Address>
    requires faults < |authorities|
  {
    var good := Good(authorities, faults);
    seq(|good|, i requires 0 <= i < |good| => good[i].primary.apiRpc)
  }

  function Apps(authorities: seq<Authority>, faults: int): seq<Address>
    requires faults < |authorities|
  {
    var good := Good(authorities, faults);
    seq(|good|, i requires 0 <= i < |good| => good[i].primary.apiAbci)
  }

  // The workers' ids with their transaction addresses.
  function Transactions(workers: seq<WorkerAddresses>): seq<(nat, Address)> {
    seq(|workers|, id requires 0 <= id < |workers| => (id, workers[id].transactions))
  }

  function Workers(authorities: seq<Authority>, faults: int): seq<seq<(nat, Address)>>
    requires faults < |authorities|
  {
    var good := Good(authorities, faults);
    seq(|good|, i requires 0 <= i < |good| => Transactions(good[i].workers))
  }

  function WithoutFirst(e: Entry): Entry {
    if e.1 == [] then e else (e.0, e.1[1..])
  }

  class Committee {
    var authorities: seq<Authority>

    /** Lays the authorities out, taking the primary's host out of every list of the caller. */
    constructor (book: array<Entry>, basePort: int)
      requires Acceptable(book[..], basePort)
      modifies book
      ensures authorities == Layout(old(book[..]), basePort)
      ensures forall i :: 0 <= i < book.Length ==> book[i] == WithoutFirst(old(book[i]))
    {
      ghost var addresses := book[..];
      var port := basePort;
      var built: seq<Authority> := [];
      ghost var width := Width(|addresses[0].1|);
      for i := 0 to book.Length
        invariant port == basePort + i * width
        invariant built == Layout(addresses, basePort)[..i]
        invariant forall k :: 0 <= k < i ==> book[k] == WithoutFirst(addresses[k])
        invariant forall k :: i <= k < book.Length ==> book[k] == addresses[k]
      {
        var (name, hosts) := book[i];
        var host := hosts[0];
        hosts := hosts[1..];
        book[i] := (name, hosts);
        var start := port;
        var primary := PrimaryAddresses(Address(host, port), Address(host, port + 1),
                                        Address(host, port + 2), Address(host, port + 3));
        port := port + 4;
        var workers: seq<WorkerAddresses> := [];
        for j := 0 to |hosts|
          invariant port == start + 4 + 3 * j
          invariant workers == AuthorityAt(addresses[i], start).workers[..j]
        {
          workers := workers + [WorkerAddresses(Address(hosts[j], port), Address(hosts[j], port + 1),
                                                Address(hosts[j], port + 2))];
          port := port + 3;
        }
        assert workers == AuthorityAt(addresses[i], start).workers;
        built := built + [Authority(name, 1, primary, workers)];
        assert (i + 1) * width == i * width + width;
      }
      authorities := built;
    }

    method PrimaryAddressesOf(faults: int) returns (listed: seq<Address>)
      requires faults < |authorities|
      ensures listed == Primaries(authorities, faults)
    {
      listed := [];
      var good := Good(authorities, faults);
      for i := 0 to |good|
        invariant listed == Primaries(authorities, faults)[..i]
      {
        listed := listed + [good[i].primary.primaryToPrimary];
      }
    }

    method RpcAddresses(faults: int) returns (listed: seq<Address>)
      requires faults < |authorities|
      ensures listed == Rpcs(authorities, faults)
    {
      listed := [];
      var good := Good(authorities, faults);
      for i := 0 to |good|
        invariant listed == Rpcs(authorities, faults)[..i]
      {
        listed := listed + [good[i].primary.apiRpc];
      }
    }

    method AppAddresses(faults: int) returns (listed: seq<Address>)
      requires faults < |authorities|
      ensures listed == Apps(authorities, faults)
    {
      listed := [];
      var good := Good(authorities, faults);
      for i := 0 to |good|
        invariant listed == Apps(authorities, faults)[..i]
      {
        listed := listed + [good[i].primary.apiAbci];
      }
    }

    /** For each good authority, its workers' ids with their transaction addresses. */
    method WorkersAddresses(faults: int) returns (listed: seq<seq<(nat, Address)>>)
      requires faults < |authorities|
      ensures listed == Workers(authorities, faults)
    {
      listed := [];
      var good := Good(authorities, faults);
      for i := 0 to |good|
        invariant listed == Workers(authorities, faults)[..i]
      {
        var mine: seq<(nat, Address)> := [];
        for id := 0 to |good[i].workers|
          invariant mine == Transactions(good[i].workers)[..id]
        {
          mine := mine + [(id, good[i].workers[id].transactions)];
        }
        assert mine == Transactions(good[i].workers);
        listed := listed + [mine];
      }
    }

    method RemoveNodes(nodes: int)
      requires nodes < |authorities|
      modifies this
      ensures authorities == Remaining(old(authorities), nodes)
    {
      var k := 0;
      while k < nodes
        invariant 0 <= k && (nodes > 0 ==> k <= nodes) && (nodes <= 0 ==> k == 0)
        invariant authorities == old(authorities)[..|old(authorities)| - k]
      {
        authorities := authorities[..|authorities| - 1];
        k := k + 1;
      }
    }
  }

  // ----- ports -----

  function WorkerPorts(w: WorkerAddresses): seq<int> {
    [w.primaryToWorker.port, w.transactions.port, w.workerToWorker.port]
  }

  function PortsOf(a: Authority): seq<int> {
    var p := a.primary;
    [p.primaryToPrimary.port, p.workerToPrimary.port, p.apiRpc.port, p.apiAbci.port] +
    Concat(seq(|a.workers|, j requires 0 <= j < |a.workers| => WorkerPorts(a.workers[j])))
  }

  function AllPorts(authorities: seq<Authority>): seq<int> {
    Concat(seq(|authorities|, i requires 0 <= i < |authorities| => PortsOf(authorities[i])))
  }

  function Range(from: int, n: nat): seq<int> {
    seq(n, k => from + k)
  }

  lemma PortsOfAuthority(e: Entry, port: int)
    requires |e.1| > 0
    ensures PortsOf(AuthorityAt(e, port)) == Range(port, Width(|e.1|))
  {
    var a := AuthorityAt(e, port);
    var parts := seq(|a.workers|, j requires 0 <= j < |a.workers| => WorkerPorts(a.workers[j]));
    ConcatLength(parts, 3);
    var ports := PortsOf(a);
    forall k | 0 <= k < Width(|e.1|)
      ensures ports[k] == port + k
    {
      if k >= 4 {
        ConcatAt(parts, 3, (k - 4) / 3, (k - 4) % 3);
        assert ports[k] == Concat(parts)[k - 4] == parts[(k - 4) / 3][(k - 4) % 3];
      }
    }
  }

  lemma PortsOfLayout(addresses: seq<Entry>, basePort: int, i: nat)
    requires Acceptable(addresses, basePort) && i < |addresses|
    ensures
      var width := Width(|addresses[0].1|);
      PortsOf(Layout(addresses, basePort)[i]) == Range(basePort + i * width, width)
  {
    PortsOfAuthority(addresses[i], basePort + i * Width(|addresses[0].1|));
  }

  /** Every port of base .. base + n(4 + 3w) - 1 is used exactly once, in order: authority i owns the
      i-th block. */
  lemma PortsAreConsecutive(addresses: seq<Entry>, basePort: int)
    requires Acceptable(addresses, basePort)
    ensures
      var width := Width(|addresses[0].1|);
      && AllPorts(Layout(addresses, basePort)) == Range(basePort, |addresses| * width)
      && forall i :: 0 <= i < |addresses| ==>
           PortsOf(Layout(addresses, basePort)[i]) == Range(basePort + i * width, width)
  {
    var width, layout := Width(|addresses[0].1|), Layout(addresses, basePort);
    var parts := seq(|layout|, i requires 0 <= i < |layout| => PortsOf(layout[i]));
    forall i | 0 <= i < |layout|
      ensures parts[i] == PortsOf(layout[i]) == Range(basePort + i * width, width)
    {
      PortsOfLayout(addresses, basePort, i);
    }
    ConcatRanges(parts, basePort, width);
  }

  lemma RangeSplit(from: int, m: nat, n: nat)
    ensures Range(from, m) + Range(from + m, n) == Range(from, m + n)
  {
  }

  lemma BlockAfter(i: nat, width: nat)
    ensures (i + 1) * width == i * width + width
  {
  }

  lemma {:induction false} ConcatRanges(parts: seq<seq<int>>, from: int, width: nat)
    requires forall i :: 0 <= i < |parts| ==> parts[i] == Range(from + i * width, width)
    ensures Concat(parts) == Range(from, |parts| * width)
    decreases |parts|
  {
    if parts != [] {
      var rest := parts[1..];
      forall i | 0 <= i < |rest|
        ensures rest[i] == Range(from + width + i * width, width)
      {
        assert rest[i] == parts[i + 1];
        BlockAfter(i, width);
      }
      ConcatRanges(rest, from + width, width);
      BlockAfter(|rest|, width);
      RangeSplit(from, width, |rest| * width);
    }
  }

  /** All ports lie in the range the firewall opens exactly when n(4 + 3w) <= 2001. */
  lemma FitsFirewallIff(addresses: seq<Entry>, basePort: int)
    requires Acceptable(addresses, basePort)
    ensures (forall p :: p in AllPorts(Layout(addresses, basePort)) ==> basePort <= p <= basePort + 2000) <==>
      |addresses| * Width(|addresses[0].1|) <= 2001
  {
    PortsAreConsecutive(addresses, basePort);
    var n := |addresses| * Width(|addresses[0].1|);
    var ports := AllPorts(Layout(addresses, basePort));
    assert ports == Range(basePort, n);
    if n > 2001 {
      assert ports[2001] == basePort + 2001;
      assert ports[2001] in ports;
    }
  }

  // ----- removal and listing -----

  // The two counts do not pull in opposite directions.
  predicate SameDirection(nodes: int, faults: int) {
    nodes == 0 || (nodes > 0 && faults >= 0) || (nodes < 0 && faults <= 0)
  }

  /** Removing k nodes and then listing with f faults gives, in each of the four listings, what k + f faults
      give, exactly when the two counts do not pull in opposite directions. */
  lemma RemoveThenListIff(authorities: seq<Authority>, nodes: int, faults: int)
    requires nodes < |authorities| && faults < |Remaining(authorities, nodes)| && nodes + faults < |authorities|
    ensures
      var left := Remaining(authorities, nodes);
      && (Primaries(left, faults) == Primaries(authorities, nodes + faults) <==> SameDirection(nodes, faults))
      && (Rpcs(left, faults) == Rpcs(authorities, nodes + faults) <==> SameDirection(nodes, faults))
      && (Apps(left, faults) == Apps(authorities, nodes + faults) <==> SameDirection(nodes, faults))
      && (Workers(left, faults) == Workers(authorities, nodes + faults) <==> SameDirection(nodes, faults))
  {
  }

  /** The smallest failing case: of two nodes one is removed, and -1 faults list one node, where 1 + -1 faults
      list both. */
  lemma OppositeCountsDiffer(a: Authority, b: Authority)
    ensures Primaries(Remaining([a, b], 1), -1) == [a.primary.primaryToPrimary]
    ensures Primaries([a, b], 0) == [a.primary.primaryToPrimary, b.primary.primaryToPrimary]
  {
  }

  /** More faults list a prefix of what fewer faults list, in all four listings. */
  lemma MoreFaultsListLess(authorities: seq<Authority>, faults: int, more: int)
    requires faults <= more < |authorities|
    ensures Primaries(authorities, more) <= Primaries(authorities, faults)
    ensures Rpcs(authorities, more) <= Rpcs(authorities, faults)
    ensures Apps(authorities, more) <= Apps(authorities, faults)
    ensures Workers(authorities, more) <= Workers(authorities, faults)
  {
  }

  /** The four listings of a laid-out committee have one length and describe the same authority at every
      index: the primary at its block's first port, the rpc and app addresses on the same host two and
      three ports above, and each worker's id with its own host and port. */
  lemma ListingsAligned(addresses: seq<Entry>, basePort: int, faults: int)
    requires Acceptable(addresses, basePort) && faults < |addresses|
    ensures
      var layout, width := Layout(addresses, basePort), Width(|addresses[0].1|);
      var primaries, workers := Primaries(layout, faults), Workers(layout, faults);
      && |primaries| == |Rpcs(layout, faults)| == |Apps(layout, faults)| == |workers|
      && |primaries| == (if faults <= 0 then |addresses| else |addresses| - faults)
      && forall i :: 0 <= i < |primaries| ==>
           && primaries[i] == Address(addresses[i].1[0], basePort + i * width)
           && Rpcs(layout, faults)[i] == Address(primaries[i].host, primaries[i].port + 2)
           && Apps(layout, faults)[i] == Address(primaries[i].host, primaries[i].port + 3)
           && |workers[i]| == |addresses[i].1| - 1
           && forall id :: 0 <= id < |workers[i]| ==>
                workers[i][id] == (id, Address(addresses[i].1[id + 1], primaries[i].port + 5 + 3 * id))
  {
  }

  // ----- what the clients are pointed at -----

  // All transaction addresses, node by node and worker by worker.
  function Targets(listed: seq<seq<(nat, Address)>>): seq<Address> {
    Concat(seq(|listed|, i requires 0 <= i < |listed| => Seconds(listed[i])))
  }

  function Seconds(pairs: seq<(nat, Address)>): seq<Address> {
    seq(|pairs|, k requires 0 <= k < |pairs| => pairs[k].1)
  }

  lemma TargetAt(addresses: seq<Entry>, basePort: int, faults: int, i: nat, id: nat)
    requires Acceptable(addresses, basePort) && faults < |addresses|
    requires i < |Workers(Layout(addresses, basePort), faults)| && id < |addresses[0].1| - 1
    ensures
      var w := |addresses[0].1| - 1;
      var listed := Workers(Layout(addresses, basePort), faults);
      && |Targets(listed)| == |listed| * w && i * w + id < |Targets(listed)|
      && Targets(listed)[i * w + id].port == basePort + i * (4 + 3 * w) + 5 + 3 * id
  {
    var w := |addresses[0].1| - 1;
    var listed := Workers(Layout(addresses, basePort), faults);
    var parts := seq(|listed|, j requires 0 <= j < |listed| => Seconds(listed[j]));
    ListingsAligned(addresses, basePort, faults);
    ConcatAt(parts, w, i, id);
    assert parts[i][id] == listed[i][id].1;
  }

  /** The clients' targets are one per good worker, on rising ports, so no worker is listed twice. */
  lemma TargetsDistinct(addresses: seq<Entry>, basePort: int, faults: int)
    requires Acceptable(addresses, basePort) && faults < |addresses|
    ensures
      var listed := Workers(Layout(addresses, basePort), faults);
      && |Targets(listed)| == |listed| * (|addresses[0].1| - 1)
      && forall j, k :: 0 <= j < k < |Targets(listed)| ==> Targets(listed)[j].port < Targets(listed)[k].port
  {
    var w := |addresses[0].1| - 1;
    var listed := Workers(Layout(addresses, basePort), faults);
    TargetAt(addresses, basePort, faults, 0, 0);
    forall j, k | 0 <= j < k < |Targets(listed)|
      ensures Targets(listed)[j].port < Targets(listed)[k].port
    {
      var i, id := Locate(j, |listed|, w);
      var i', id' := Locate(k, |listed|, w);
      TargetAt(addresses, basePort, faults, i, id);
      TargetAt(addresses, basePort, faults, i', id');
      BlocksRise(i, id, i', id', w);
    }
  }

  lemma BlocksRise(i: nat, id: nat, i': nat, id': nat, w: nat)
    requires id < w && id' < w && i * w + id < i' * w + id'
    ensures i * (4 + 3 * w) + 3 * id < i' * (4 + 3 * w) + 3 * id'
  {
    if i' < i {
      MulMonotone(w, i' + 1, i);
    } else {
      MulMonotone(4 + 3 * w, i, i');
      if i < i' { MulMonotone(4 + 3 * w, i + 1, i'); }
    }
  }
}
