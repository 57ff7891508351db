/** Which transactions reach the application, and what a bad batch does. */
module EngineLedger {

  import opened Options
  import opened Abci
  import opened Engine
  import opened EngineSafety
  import opened Sequences

  function Certs(events: seq<Event>): seq<Certificate> {
    if events == [] then []
    else (if events[0].Cert? then [events[0].cert] else []) + Certs(events[1..])
  }

  /** The ledger a list of certificates fixes: every batch in order, up to the first bad one. */
  function Ledger(env: Env, certs: seq<Certificate>): seq<Bytes> {
    if certs == [] then [] else
    var plan := PlanOf(env, certs[0].stores, certs[0].payload);
    plan.txs + if plan.complete then Ledger(env, certs[1..]) else []
  }

  // ----- the ledger is the flattening -----

  predicate BatchGood(env: Env, cert: Certificate, i: nat)
    requires i < |cert.payload|
  {
    BatchOf(env, cert.stores, cert.payload[i]).Some?
  }

  predicate Intact(env: Env, cert: Certificate) {
    forall i :: 0 <= i < |cert.payload| ==> BatchGood(env, cert, i)
  }

  // The batches of a certificate below index n, in payload order.
  function Batches(env: Env, cert: Certificate, n: nat): seq<seq<Bytes>>
    requires n <= |cert.payload| && forall i :: 0 <= i < n ==> BatchGood(env, cert, i)
  {
    seq(n, i requires 0 <= i < n => assert BatchGood(env, cert, i); BatchOf(env, cert.stores, cert.payload[i]).value)
  }

  /** A plan is complete exactly when every batch is good, and then it is all of them in order. */
  lemma {:induction false} PlanOfIntact(env: Env, cert: Certificate)
    ensures PlanOf(env, cert.stores, cert.payload).complete <==> Intact(env, cert)
    ensures Intact(env, cert) ==>
      PlanOf(env, cert.stores, cert.payload).txs == Concat(Batches(env, cert, |cert.payload|))
    decreases |cert.payload|
  {
    if cert.payload != [] {
      var rest := cert.(payload := cert.payload[1..]);
      PlanOfIntact(env, rest);
      assert forall i :: 0 <= i < |rest.payload| ==> BatchGood(env, rest, i) == BatchGood(env, cert, i + 1);
      if Intact(env, cert) {
        assert BatchGood(env, cert, 0);
        forall i | 0 <= i < |rest.payload|
          ensures BatchGood(env, rest, i)
        {
          assert BatchGood(env, cert, i + 1);
        }
        assert Batches(env, cert, |cert.payload|)[1..] == Batches(env, rest, |rest.payload|);
      } else if BatchGood(env, cert, 0) {
        var i :| 0 <= i < |cert.payload| && !BatchGood(env, cert, i);
        assert !BatchGood(env, rest, i - 1);
      }
    }
  }

  // ----- the ledger on the stores -----

  // The stored bytes of the first entries decode to these transactions.
  predicate Stored(env: Env, stores: Stores, entries: seq<(Digest, WorkerId)>, txs: seq<seq<Bytes>>) {
    && |txs| == |entries|
    && forall i :: 0 <= i < |txs| ==> entries[i] in stores && env.decode(stores[entries[i]]) == Some(txs[i])
  }

  // An entry that stops a block: not in the stores, or its stored bytes do not decode.
  predicate Unreadable(env: Env, stores: Stores, entry: (Digest, WorkerId)) {
    entry !in stores || env.decode(stores[entry]) == None
  }

  lemma {:induction false} PlanOnStores(env: Env, stores: Stores, payload: seq<(Digest, WorkerId)>,
                                        txs: seq<seq<Bytes>>)
    requires |txs| <= |payload| && Stored(env, stores, payload[..|txs|], txs)
    requires |txs| == |payload| || Unreadable(env, stores, payload[|txs|])
    ensures PlanOf(env, stores, payload) == Plan(Concat(txs), |txs| == |payload|)
    decreases payload
  {
    if txs != [] {
      assert payload[..|txs|][0] == payload[0];
      forall i | 0 <= i < |txs[1..]|
        ensures payload[1..][i] in stores && env.decode(stores[payload[1..][i]]) == Some(txs[1..][i])
      {
        assert payload[..|txs|][i + 1] == payload[1..][i];
      }
      PlanOnStores(env, stores, payload[1..], txs[1..]);
    }
  }

  /** One certificate on a connection that answers, in terms of the stored bytes: the transactions of the
      batches before the first unreadable one are delivered in payload order; with none unreadable the block
      is ended and committed, otherwise the engine stops. */
  lemma BlockOnStores(env: Env, s: State, cert: Certificate, txs: seq<seq<Bytes>>)
    requires |txs| <= |cert.payload| && Stored(env, cert.stores, cert.payload[..|txs|], txs)
    requires |txs| == |cert.payload| || Unreadable(env, cert.stores, cert.payload[|txs|])
    requires AllAnswered(env.link, |s.log| + |Concat(txs)| + if |txs| == |cert.payload| then 3 else 1)
    ensures
      var whole, h := |txs| == |cert.payload|, s.height + 1;
      var tail := if whole then [EndBlock(h), Commit] else [];
      AfterCert(env, s, cert) == State(h, s.log + [BeginBlock(h)] + Deliveries(Concat(txs)) + tail, whole)
  {
    var plan, h := Plan(Concat(txs), |txs| == |cert.payload|), s.height + 1;
    PlanOnStores(env, cert.stores, cert.payload, txs);
    WholeBlockSent(env.link, s.log, Block(h, plan));
    DeliveriesAre(Concat(txs));
    var tail := if plan.complete then [EndBlock(h), Commit] else [];
    Associate4(s.log, [BeginBlock(h)], Deliveries(Concat(txs)), tail);
  }

  lemma Associate4(a: seq<Call>, b: seq<Call>, c: seq<Call>, d: seq<Call>)
    ensures a + (b + c + d) == a + b + c + d
  {
  }

  lemma WholeBlockSent(link: nat -> Answer, log: seq<Call>, block: seq<Call>)
    requires AllAnswered(link, |log| + |block|)
    ensures Transmit(link, log, block) == Sent(log + block, true)
  {
    var k := TransmitPrefix(link, log, block);
    assert block[..|block|] == block;
  }

  lemma {:induction false} DeliveriesAre(txs: seq<Bytes>)
    ensures Delivers(txs) == Deliveries(txs)
    decreases txs
  {
    if txs != [] {
      DeliveriesAre(txs[1..]);
      assert Delivers(txs) == [DeliverTx(txs[0])] + Delivers(txs[1..]);
    }
  }

  /** Every certificate has its batches or has an entry that stops it. */
  lemma {:induction false} ReadsOrStops(env: Env, stores: Stores, payload: seq<(Digest, WorkerId)>)
      returns (txs: seq<seq<Bytes>>)
    ensures |txs| <= |payload| && Stored(env, stores, payload[..|txs|], txs)
    ensures |txs| == |payload| || Unreadable(env, stores, payload[|txs|])
    decreases payload
  {
    if payload == [] || Unreadable(env, stores, payload[0]) {
      txs := [];
    } else {
      var rest := ReadsOrStops(env, stores, payload[1..]);
      txs := [env.decode(stores[payload[0]]).value] + rest;
      forall i | 0 <= i < |txs|
        ensures payload[i] in stores && env.decode(stores[payload[i]]) == Some(txs[i])
      {
        if i > 0 { assert payload[1..][..|rest|][i - 1] == payload[i]; }
      }
    }
  }

  /** With every entry stored and readable the ledger is certificate by certificate, batch by batch, in order. */
  lemma {:induction false} LedgerIsFlattening(env: Env, certs: seq<Certificate>, txs: seq<seq<seq<Bytes>>>)
    requires |txs| == |certs|
    requires forall c :: 0 <= c < |certs| ==> Stored(env, certs[c].stores, certs[c].payload, txs[c])
    ensures Ledger(env, certs) == Concat(Concat(txs))
    decreases |certs|
  {
    if certs != [] {
      var payload := certs[0].payload;
      assert Stored(env, certs[0].stores, payload, txs[0]) && payload[..|payload|] == payload;
      PlanOnStores(env, certs[0].stores, payload, txs[0]);
      LedgerIsFlattening(env, certs[1..], txs[1..]);
      ConcatAppend(txs[0], Concat(txs[1..]));
    }
  }

  // ----- what is delivered -----

  lemma {:induction false} DeliveredOfDelivers(txs: seq<Bytes>)
    ensures Delivered(Delivers(txs)) == txs
    decreases txs
  {
    if txs != [] {
      assert Delivers(txs)[1..] == Delivers(txs[1..]);
      DeliveredOfDelivers(txs[1..]);
    }
  }

  lemma DeliveredOfBlock(h: int, plan: Plan)
    ensures Delivered(Block(h, plan)) == plan.txs
  {
    var tail := if plan.complete then [EndBlock(h), Commit] else [];
    DeliveredOfDelivers(plan.txs);
    DeliveredAppend([BeginBlock(h)] + Delivers(plan.txs), tail);
    DeliveredAppend([BeginBlock(h)], Delivers(plan.txs));
    assert Delivered(tail) == [] by {
      if plan.complete { assert tail[1..] == [Commit] && [Commit][1..] == []; }
    }
  }

  lemma DeliveredPrefix(calls: seq<Call>, k: nat)
    requires k <= |calls|
    ensures Delivered(calls[..k]) <= Delivered(calls)
  {
    assert calls == calls[..k] + calls[k..];
    DeliveredAppend(calls[..k], calls[k..]);
  }

  lemma CertDelivers(env: Env, s: State, cert: Certificate)
    requires AllAnswered(env.link, |s.log|)
    ensures
      var plan, s' := PlanOf(env, cert.stores, cert.payload), AfterCert(env, s, cert);
      && Delivered(s.log) <= Delivered(s'.log) <= Delivered(s.log) + plan.txs
      && (s'.running ==> plan.complete && Delivered(s'.log) == Delivered(s.log) + plan.txs)
  {
    var plan := PlanOf(env, cert.stores, cert.payload);
    var block := Block(s.height + 1, plan);
    var k := TransmitPrefix(env.link, s.log, block);
    DeliveredAppend(s.log, block[..k]);
    DeliveredOfBlock(s.height + 1, plan);
    DeliveredPrefix(block, k);
    if k == |block| { assert block[..k] == block; }
  }

  /** Every run delivers a prefix of the ledger its certificates fix; a run that goes on, all of it. */
  lemma {:induction false} RunDeliversLedger(env: Env, s: State, events: seq<Event>)
    requires s.running && AllAnswered(env.link, |s.log|)
    ensures
      var r := AfterEvents(env, s, events);
      && Delivered(s.log) <= Delivered(r.log) <= Delivered(s.log) + Ledger(env, Certs(events))
      && (r.running ==> Delivered(r.log) == Delivered(s.log) + Ledger(env, Certs(events)))
    decreases events
  {
    if events != [] {
      var s', rest := AfterEvent(env, s, events[0]), events[1..];
      if events[0].Cert? {
        CertDelivers(env, s, events[0].cert);
        assert Certs(events)[1..] == Certs(rest);
        if s'.running {
          CertKeepsAnswered(env, s, events[0].cert);
          RunDeliversLedger(env, s', rest);
          LedgerSplit(env, Certs(events), Delivered(s.log));
        }
      } else {
        assert Certs(events) == Certs(rest);
        if s'.running {
          RunDeliversLedger(env, s', rest);
        }
      }
    }
  }

  lemma LedgerSplit(env: Env, certs: seq<Certificate>, before: seq<Bytes>)
    requires certs != [] && PlanOf(env, certs[0].stores, certs[0].payload).complete
    ensures before + Ledger(env, certs) ==
      (before + PlanOf(env, certs[0].stores, certs[0].payload).txs) + Ledger(env, certs[1..])
  {
  }

  lemma CertKeepsAnswered(env: Env, s: State, cert: Certificate)
    requires AllAnswered(env.link, |s.log|) && AfterCert(env, s, cert).running
    ensures AllAnswered(env.link, |AfterCert(env, s, cert).log|)
  {
    var block := Block(s.height + 1, PlanOf(env, cert.stores, cert.payload));
    var k := TransmitPrefix(env.link, s.log, block);
  }

  // ----- agreement -----

  ghost predicate SameBatches(env: Env, a: Certificate, b: Certificate) {
    && a.payload == b.payload
    && forall e :: e in a.payload ==> BatchOf(env, a.stores, e) == BatchOf(env, b.stores, e)
  }

  lemma {:induction false} SamePlan(env: Env, a: Certificate, b: Certificate)
    requires SameBatches(env, a, b)
    ensures PlanOf(env, a.stores, a.payload) == PlanOf(env, b.stores, b.payload)
    decreases |a.payload|
  {
    if a.payload != [] {
      assert a.payload[0] in a.payload;
      SamePlan(env, a.(payload := a.payload[1..]), b.(payload := b.payload[1..]));
    }
  }

  lemma {:induction false} SameLedger(env: Env, a: seq<Certificate>, b: seq<Certificate>)
    requires |a| == |b| && forall i :: 0 <= i < |a| ==> SameBatches(env, a[i], b[i])
    ensures Ledger(env, a) == Ledger(env, b)
    decreases |a|
  {
    if a != [] {
      SamePlan(env, a[0], b[0]);
      SameLedger(env, a[1..], b[1..]);
    }
  }

  /** Two engines served the same certificates, with stores that agree on the certified digests,
      deliver the same ledger - whatever queries each served and whatever its connection did. */
  lemma EnginesAgree(env0: Env, s0: State, events0: seq<Event>, env1: Env, s1: State, events1: seq<Event>)
    requires env0.decode == env1.decode
    requires s0.running && s0.log == [] && s1.running && s1.log == []
    requires |Certs(events0)| == |Certs(events1)|
    requires forall i :: 0 <= i < |Certs(events0)| ==> SameBatches(env0, Certs(events0)[i], Certs(events1)[i])
    ensures
      var r0, r1 := AfterEvents(env0, s0, events0), AfterEvents(env1, s1, events1);
      && (Delivered(r0.log) <= Delivered(r1.log) || Delivered(r1.log) <= Delivered(r0.log))
      && (r0.running && r1.running ==> Delivered(r0.log) == Delivered(r1.log))
  {
    RunDeliversLedger(env0, s0, events0);
    RunDeliversLedger(env1, s1, events1);
    SameLedger(env0, Certs(events0), Certs(events1));
    LedgerIgnoresLink(env0, env1, Certs(events1));
    var l := Ledger(env0, Certs(events0));
    assert Delivered([]) + l == l;
  }

  lemma {:induction false} PlanIgnoresLink(env0: Env, env1: Env, stores: Stores, payload: seq<(Digest, WorkerId)>)
    requires env0.decode == env1.decode
    ensures PlanOf(env0, stores, payload) == PlanOf(env1, stores, payload)
    decreases payload
  {
    if payload != [] { PlanIgnoresLink(env0, env1, stores, payload[1..]); }
  }

  lemma {:induction false} LedgerIgnoresLink(env0: Env, env1: Env, certs: seq<Certificate>)
    requires env0.decode == env1.decode
    ensures Ledger(env0, certs) == Ledger(env1, certs)
    decreases certs
  {
    if certs != [] {
      PlanIgnoresLink(env0, env1, certs[0].stores, certs[0].payload);
      LedgerIgnoresLink(env0, env1, certs[1..]);
    }
  }

  /** More certificates never change what the earlier ones delivered. */
  lemma {:induction false} LedgerPrefix(env: Env, certs: seq<Certificate>, more: seq<Certificate>)
    ensures Ledger(env, certs) <= Ledger(env, certs + more)
    decreases certs
  {
    if certs != [] {
      assert (certs + more)[1..] == certs[1..] + more;
      LedgerPrefix(env, certs[1..], more);
    }
  }

  // ----- a missing or malformed batch -----

  /**
   A bad batch, on a connection that answers the requests of its block: exactly the batches before the
   first bad one are delivered, no EndBlock or Commit follows, later events are not served, and
   last_block_height is one above the last committed height.
   */
  lemma BadBatchStops(env: Env, h0: int, s: State, cert: Certificate, rest: seq<Event>) returns (bad: nat)
    requires s.running && Sound(env, h0, s) && !Intact(env, cert)
    requires AllAnswered(env.link, |s.log| + 1 + |PlanOf(env, cert.stores, cert.payload).txs|)
    ensures bad < |cert.payload| && !BatchGood(env, cert, bad)
    ensures forall i :: 0 <= i < bad ==> BatchGood(env, cert, i)
    ensures
      var r := AfterEvents(env, s, [Cert(cert)] + rest);
      && !r.running
      && r.log == s.log + [BeginBlock(s.height + 1)] + Delivers(Concat(Batches(env, cert, bad)))
      && Accept(Idle(h0), r.log) == Some(Open(r.height)) && r.height == s.height + 1 == Settled(Open(r.height)) + 1
  {
    var plan := PlanOf(env, cert.stores, cert.payload);
    PlanOfIntact(env, cert);
    bad := FirstBad(env, cert);
    var block := Block(s.height + 1, plan);
    var k := TransmitPrefix(env.link, s.log, block);
    assert block[..k] == block;
    BlockAccepted(s.height, plan);
    AcceptAppend(Idle(h0), s.log, block);
    var events := [Cert(cert)] + rest;
    assert events[0] == Cert(cert) && events[1..] == rest;
    assert AfterEvents(env, s, events) == AfterCert(env, s, cert);
  }

  lemma {:induction false} FirstBad(env: Env, cert: Certificate) returns (bad: nat)
    requires !PlanOf(env, cert.stores, cert.payload).complete
    ensures bad < |cert.payload| && !BatchGood(env, cert, bad)
    ensures forall i :: 0 <= i < bad ==> BatchGood(env, cert, i)
    ensures PlanOf(env, cert.stores, cert.payload).txs == Concat(Batches(env, cert, bad))
    decreases |cert.payload|
  {
    if BatchOf(env, cert.stores, cert.payload[0]) == None {
      bad := 0;
      assert !BatchGood(env, cert, 0);
    } else {
      var rest := cert.(payload := cert.payload[1..]);
      var j := FirstBad(env, rest);
      bad := j + 1;
      assert BatchGood(env, rest, j) == BatchGood(env, cert, bad);
      forall i | 0 <= i < bad
        ensures BatchGood(env, cert, i)
      {
        if i > 0 { assert BatchGood(env, rest, i - 1); }
      }
      assert Batches(env, cert, bad)[1..] == Batches(env, rest, j);
    }
  }
}
