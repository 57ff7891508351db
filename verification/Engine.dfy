/** The engine that turns ordered certificates into the ABCI call sequence. */
module Engine {

  import opened Options
  import opened Abci

  type Digest = Bytes
  type WorkerId = nat

  // The worker databases: what is readable under a digest in the database of a worker.
  type Stores = map<(Digest, WorkerId), Bytes>

  // A certificate's payload in its own order, with the stores as they are when it is handled.
  datatype Certificate = Certificate(payload: seq<(Digest, WorkerId)>, stores: Stores)

  // What happens to one request: answered, or lost before or after the application handled it.
  datatype Answer = Answered | LostBefore | LostAfter

  // What the engine cannot choose: the batch decoder, and the fate of the n-th request on the
  // consensus connection.
  datatype Env = Env(decode: Bytes -> Option<seq<Bytes>>, link: nat -> Answer)

  datatype Event =
    | Cert(cert: Certificate)
    | Query(answered: bool, receiverWaiting: bool)

  datatype State = State(height: int, log: seq<Call>, running: bool)

  // ----- specification: one block -----

  function BatchOf(env: Env, stores: Stores, entry: (Digest, WorkerId)): Option<seq<Bytes>> {
    if entry in stores then env.decode(stores[entry]) else None
  }

  function Delivers(txs: seq<Bytes>): seq<Call> {
    seq(|txs|, i requires 0 <= i < |txs| => DeliverTx(txs[i]))
  }

  datatype Plan = Plan(txs: seq<Bytes>, complete: bool)

  // The transactions of the batches before the first missing or malformed one.
  function PlanOf(env: Env, stores: Stores, payload: seq<(Digest, WorkerId)>): Plan {
    if payload == [] then Plan([], true)
    else match BatchOf(env, stores, payload[0])
      case None => Plan([], false)
      case Some(txs) =>
        var rest := PlanOf(env, stores, payload[1..]);
        Plan(txs + rest.txs, rest.complete)
  }

  function Block(h: int, plan: Plan): seq<Call> {
    [BeginBlock(h)] + Delivers(plan.txs) + if plan.complete then [EndBlock(h), Commit] else []
  }

  datatype Sent = Sent(log: seq<Call>, ok: bool)

  // Requests go out one at a time until one is not answered.
  function Transmit(link: nat -> Answer, log: seq<Call>, calls: seq<Call>): Sent
    decreases calls
  {
    if calls == [] then Sent(log, true)
    else if link(|log|).Answered? then Transmit(link, log + [calls[0]], calls[1..])
    else Sent(log + [calls[0]], false)
  }

  function AfterCert(env: Env, s: State, cert: Certificate): State {
    var plan := PlanOf(env, cert.stores, cert.payload);
    var sent := Transmit(env.link, s.log, Block(s.height + 1, plan));
    State(s.height + 1, sent.log, sent.ok && plan.complete)
  }

  function AfterEvent(env: Env, s: State, e: Event): State {
    match e
    case Cert(cert) => AfterCert(env, s, cert)
    case Query(answered, receiverWaiting) => s.(running := answered && receiverWaiting)
  }

  /** The event loop: any interleaving of certificates and queries, ended by the first error. */
  function AfterEvents(env: Env, s: State, events: seq<Event>): State
    decreases events
  {
    if !s.running || events == [] then s else AfterEvents(env, AfterEvent(env, s, events[0]), events[1..])
  }

  // The reply to InitChain, sent on a connection of its own before the loop starts.
  datatype InitReply = Initialized | AlreadyInitialized | InitFailed

  function AfterRun(env: Env, s: State, init: InitReply, events: seq<Event>): State {
    if init.InitFailed? then s.(running := false) else AfterEvents(env, s, events)
  }

  lemma {:induction false} TransmitAppend(link: nat -> Answer, log: seq<Call>, a: seq<Call>, b: seq<Call>)
    ensures Transmit(link, log, a + b) ==
      var first := Transmit(link, log, a); if first.ok then Transmit(link, first.log, b) else first
    decreases a
  {
    if a == [] {
      assert a + b == b;
    } else {
      assert (a + b)[1..] == a[1..] + b;
      if link(|log|).Answered? { TransmitAppend(link, log + [a[0]], a[1..], b); }
    }
  }

  lemma TransmitOne(link: nat -> Answer, log: seq<Call>, c: Call)
    ensures Transmit(link, log, [c]) == Sent(log + [c], link(|log|).Answered?)
  {
    assert [c][1..] == [];
    assert Transmit(link, log + [c], []) == Sent(log + [c], true);
  }

  lemma DeliversAppend(a: seq<Bytes>, b: seq<Bytes>)
    ensures Delivers(a + b) == Delivers(a) + Delivers(b)
  {
  }

  lemma {:induction false} PlanAppend(env: Env, stores: Stores, p: seq<(Digest, WorkerId)>, q: seq<(Digest, WorkerId)>)
    ensures PlanOf(env, stores, p + q) ==
      var first := PlanOf(env, stores, p);
      if first.complete then var rest := PlanOf(env, stores, q); Plan(first.txs + rest.txs, rest.complete) else first
    decreases p
  {
    if p == [] {
      assert p + q == q;
    } else {
      assert (p + q)[1..] == p[1..] + q;
      PlanAppend(env, stores, p[1..], q);
    }
  }

  // ----- the engine -----

  /** The consensus connection: every request is issued; some are not answered. */
  class AbciClient {
    const link: nat -> Answer
    var log: seq<Call>

    constructor (link: nat -> Answer)
      ensures this.link == link && log == []
    {
      this.link := link;
      log := [];
    }

    method Send(c: Call) returns (ok: bool)
      modifies this
      ensures Sent(log, ok) == Transmit(link, old(log), [c])
    {
      TransmitOne(link, log, c);
      ok := link(|log|).Answered?;
      log := log + [c];
    }
  }

  class Engine {
    const env: Env
    const client: AbciClient
    var lastBlockHeight: int

    ghost predicate Valid() {
      client.link == env.link
    }

    /** Starts from the height the application reports, or from 0 when Info is not answered. */
    constructor (env: Env, reported: Option<int>)
      ensures Valid() && fresh(client) && this.env == env && client.log == []
      ensures lastBlockHeight == if reported.Some? then reported.value else 0
    {
      this.env := env;
      client := new AbciClient(env.link);
      lastBlockHeight := if reported.Some? then reported.value else 0;
    }

    method DeliverBatch(batch: Bytes) returns (ok: bool)
      requires Valid()
      modifies client
      ensures env.decode(batch) == None ==> !ok && client.log == old(client.log)
      ensures env.decode(batch).Some? ==>
        Sent(client.log, ok) == Transmit(env.link, old(client.log), Delivers(env.decode(batch).value))
    {
      var decoded := env.decode(batch);
      if decoded == None {
        return false;
      }
      var txs := decoded.value;
      ok := true;
      var i := 0;
      assert Delivers(txs[..0]) == [];
      while i < |txs| && ok
        invariant 0 <= i <= |txs|
        invariant ok ==> Sent(client.log, true) == Transmit(env.link, old(client.log), Delivers(txs[..i]))
        invariant !ok ==> Sent(client.log, false) == Transmit(env.link, old(client.log), Delivers(txs))
        decreases |txs| - i, ok
      {
        ghost var before := client.log;
        ok := client.Send(DeliverTx(txs[i]));
        assert Delivers(txs[..i + 1]) == Delivers(txs[..i]) + [DeliverTx(txs[i])];
        TransmitAppend(env.link, old(client.log), Delivers(txs[..i]), [DeliverTx(txs[i])]);
        assert Delivers(txs) == Delivers(txs[..i + 1]) + Delivers(txs[i + 1..]);
        TransmitAppend(env.link, old(client.log), Delivers(txs[..i + 1]), Delivers(txs[i + 1..]));
        i := i + 1;
      }
      assert txs[..|txs|] == txs;
    }

    /** The bytes stored under a certified digest in the database of its worker, if there are any. */
    method ReconstructBatch(stores: Stores, entry: (Digest, WorkerId)) returns (batch: Option<Bytes>)
      ensures batch.Some? <==> entry in stores
      ensures batch.Some? ==> batch.value == stores[entry]
    {
      if entry in stores {
        batch := Some(stores[entry]);
      } else {
        batch := None;
      }
    }

    /** Reads every batch first, then delivers them in payload order up to the first error. */
    method ReconstructAndDeliverTxs(cert: Certificate) returns (ok: bool)
      requires Valid()
      modifies client
      ensures
        var plan := PlanOf(env, cert.stores, cert.payload);
        var sent := Transmit(env.link, old(client.log), Delivers(plan.txs));
        client.log == sent.log && ok == (sent.ok && plan.complete)
    {
      var payload := cert.payload;
      ghost var start := client.log;
      var batches: seq<Option<Bytes>> := [];
      for i := 0 to |payload|
        invariant |batches| == i && client.log == start
        invariant forall j :: 0 <= j < i ==> (batches[j].Some? <==> payload[j] in cert.stores)
        invariant forall j :: 0 <= j < i && batches[j].Some? ==> batches[j].value == cert.stores[payload[j]]
      {
        var batch := ReconstructBatch(cert.stores, payload[i]);
        batches := batches + [batch];
      }

      ok := true;
      var i := 0;
      while i < |batches| && ok
        invariant 0 <= i <= |batches| == |payload|
        invariant ok ==> DeliveredUpTo(cert, start, i)
        invariant !ok ==> StoppedBy(cert, start)
        decreases |batches| - i, ok
      {
        ghost var before := client.log;
        ghost var txs := PlanOf(env, cert.stores, payload[..i]).txs;
        PlanStep(cert, i);
        if batches[i] == None {
          ok := false;
        } else {
          ok := DeliverBatch(batches[i].value);
          if env.decode(batches[i].value).Some? {
            ghost var next := env.decode(batches[i].value).value;
            DeliversAppend(txs, next);
            TransmitAppend(env.link, start, Delivers(txs), Delivers(next));
            PlanPrefix(cert, i + 1);
            ghost var more := PlanOf(env, cert.stores, payload[i + 1..]).txs;
            DeliversAppend(txs + next, more);
            TransmitAppend(env.link, start, Delivers(txs + next), Delivers(more));
          }
        }
        i := i + 1;
      }
      assert payload[..|payload|] == payload;
    }

    // The batches before index i are all good and were all delivered.
    ghost predicate DeliveredUpTo(cert: Certificate, start: seq<Call>, i: nat)
      requires i <= |cert.payload|
      reads client
    {
      var plan := PlanOf(env, cert.stores, cert.payload[..i]);
      plan.complete && Sent(client.log, true) == Transmit(env.link, start, Delivers(plan.txs))
    }

    ghost predicate StoppedBy(cert: Certificate, start: seq<Call>)
      reads client
    {
      var plan := PlanOf(env, cert.stores, cert.payload);
      var sent := Transmit(env.link, start, Delivers(plan.txs));
      client.log == sent.log && !(sent.ok && plan.complete)
    }

    lemma PlanPrefix(cert: Certificate, i: nat)
      requires i <= |cert.payload|
      ensures PlanOf(env, cert.stores, cert.payload) ==
        var first := PlanOf(env, cert.stores, cert.payload[..i]);
        if first.complete then
          var rest := PlanOf(env, cert.stores, cert.payload[i..]); Plan(first.txs + rest.txs, rest.complete)
        else first
    {
      assert cert.payload == cert.payload[..i] + cert.payload[i..];
      PlanAppend(env, cert.stores, cert.payload[..i], cert.payload[i..]);
    }

    lemma PlanStep(cert: Certificate, i: nat)
      requires i < |cert.payload| && PlanOf(env, cert.stores, cert.payload[..i]).complete
      ensures
        var first := PlanOf(env, cert.stores, cert.payload[..i]);
        match BatchOf(env, cert.stores, cert.payload[i])
        case None => PlanOf(env, cert.stores, cert.payload) == Plan(first.txs, false)
        case Some(txs) => PlanOf(env, cert.stores, cert.payload[..i + 1]) == Plan(first.txs + txs, true)
    {
      PlanPrefix(cert, i);
      assert cert.payload[..i + 1] == cert.payload[..i] + [cert.payload[i]];
      PlanAppend(env, cert.stores, cert.payload[..i], [cert.payload[i]]);
    }

    /** One certificate: the height is taken before anything is sent, and errors stop the block. */
    method HandleCert(cert: Certificate) returns (ok: bool)
      requires Valid()
      modifies this, client
      ensures Valid()
      ensures State(lastBlockHeight, client.log, ok) ==
        AfterCert(env, State(old(lastBlockHeight), old(client.log), true), cert)
    {
      var proposed := lastBlockHeight + 1;
      lastBlockHeight := proposed;
      ghost var start := client.log;
      ghost var plan := PlanOf(env, cert.stores, cert.payload);
      BlockSplit(env.link, start, proposed, plan);

      ok := client.Send(BeginBlock(proposed));
      if !ok {
        return;
      }
      ok := ReconstructAndDeliverTxs(cert);
      if !ok {
        return;
      }
      ok := client.Send(EndBlock(proposed));
      if !ok {
        return;
      }
      ok := client.Send(Commit);
    }

    /** Initializes the chain, then serves events until both channels close or one event fails. */
    method Run(init: InitReply, events: seq<Event>) returns (ok: bool)
      requires Valid()
      modifies this, client
      ensures Valid()
      ensures State(lastBlockHeight, client.log, ok) ==
        AfterRun(env, State(old(lastBlockHeight), old(client.log), true), init, events)
    {
      if init.InitFailed? {
        return false;
      }
      ghost var start := State(lastBlockHeight, client.log, true);
      ok := true;
      var i := 0;
      while i < |events| && ok
        invariant Valid() && 0 <= i <= |events|
        invariant AfterEvents(env, start, events) ==
          AfterEvents(env, State(lastBlockHeight, client.log, ok), events[i..])
        decreases |events| - i
      {
        assert events[i..][0] == events[i] && events[i..][1..] == events[i + 1..];
        match events[i] {
          case Cert(cert) =>
            ok := HandleCert(cert);
          case Query(answered, receiverWaiting) =>
            ok := answered && receiverWaiting;
        }
        i := i + 1;
      }
    }
  }

  // Where a block can stop: after BeginBlock, in the deliveries, after EndBlock, at Commit.
  lemma BlockSplit(link: nat -> Answer, log: seq<Call>, h: int, plan: Plan)
    ensures
      var begin := Transmit(link, log, [BeginBlock(h)]);
      var txs := Transmit(link, begin.log, Delivers(plan.txs));
      var end := Transmit(link, txs.log, [EndBlock(h)]);
      Transmit(link, log, Block(h, plan)) ==
        if !begin.ok then begin
        else if !txs.ok || !plan.complete then txs
        else if !end.ok then end
        else Transmit(link, end.log, [Commit])
  {
    var tail := if plan.complete then [EndBlock(h), Commit] else [];
    var begin := Transmit(link, log, [BeginBlock(h)]);
    assert Block(h, plan) == [BeginBlock(h)] + (Delivers(plan.txs) + tail);
    TransmitAppend(link, log, [BeginBlock(h)], Delivers(plan.txs) + tail);
    TransmitAppend(link, begin.log, Delivers(plan.txs), tail);
    if plan.complete {
      var txs := Transmit(link, begin.log, Delivers(plan.txs));
      assert tail == [EndBlock(h)] + [Commit];
      TransmitAppend(link, txs.log, [EndBlock(h)], [Commit]);
    }
  }
}
