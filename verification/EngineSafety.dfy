/** What every run of the engine keeps, over any interleaving, failures and restarts. */
module EngineSafety {

  import opened Options
  import opened Abci
  import opened Engine

  // ----- requests on the wire -----

  // All requests but possibly the last were answered.
  ghost predicate OnlyLastLost(link: nat -> Answer, log: seq<Call>) {
    forall i {:trigger link(i)} :: 0 <= i < |log| - 1 ==> link(i).Answered?
  }

  ghost predicate AllAnswered(link: nat -> Answer, n: nat) {
    forall i {:trigger link(i)} :: 0 <= i < n ==> link(i).Answered?
  }

  lemma {:induction false} TransmitPrefix(link: nat -> Answer, log: seq<Call>, calls: seq<Call>) returns (k: nat)
    requires AllAnswered(link, |log|)
    ensures k <= |calls| && Transmit(link, log, calls).log == log + calls[..k]
    ensures Transmit(link, log, calls).ok ==> k == |calls| && AllAnswered(link, |log| + k)
    ensures !Transmit(link, log, calls).ok ==>
      k > 0 && OnlyLastLost(link, log + calls[..k]) && !link(|log| + k - 1).Answered?
    decreases calls
  {
    if calls == [] {
      k := 0;
    } else if link(|log|).Answered? {
      var j := TransmitPrefix(link, log + [calls[0]], calls[1..]);
      k := j + 1;
      assert log + calls[..k] == log + [calls[0]] + calls[1..][..j];
    } else {
      k := 1;
      assert log + calls[..1] == log + [calls[0]];
    }
  }

  // ----- the trace is a sequence of blocks -----

  lemma {:induction false} DeliversStayOpen(h: int, txs: seq<Bytes>)
    ensures Accept(Open(h), Delivers(txs)) == Some(Open(h))
    decreases txs
  {
    if txs != [] {
      assert Delivers(txs)[1..] == Delivers(txs[1..]);
      DeliversStayOpen(h, txs[1..]);
    }
  }

  lemma BlockAccepted(h: int, plan: Plan)
    ensures Accept(Idle(h), Block(h + 1, plan)) == Some(if plan.complete then Idle(h + 1) else Open(h + 1))
  {
    var txs, tail := Delivers(plan.txs), if plan.complete then [EndBlock(h + 1), Commit] else [];
    assert Block(h + 1, plan) == [BeginBlock(h + 1)] + (txs + tail);
    assert Block(h + 1, plan)[1..] == txs + tail;
    DeliversStayOpen(h + 1, plan.txs);
    AcceptAppend(Open(h + 1), txs, tail);
    assert plan.complete ==> tail[1..] == [Commit] && [Commit][1..] == [];
  }

  // The height of a phase never goes down, and inside a block it is that block's height.
  lemma {:induction false} PhaseOfPrefix(p: Phase, calls: seq<Call>, k: nat, h: int)
    requires k <= |calls| && Accept(p, calls).Some? && Accept(p, calls).value.height == h
    requires p.height == h
    ensures Accept(p, calls[..k]).Some? && Accept(p, calls[..k]).value.height == h
    decreases k
  {
    AcceptPrefix(p, calls, k);
    assert calls == calls[..k] + calls[k..];
    AcceptAppend(p, calls[..k], calls[k..]);
    HeightGrows(p, calls[..k]);
    HeightGrows(Accept(p, calls[..k]).value, calls[k..]);
  }

  lemma {:induction false} HeightGrows(p: Phase, calls: seq<Call>)
    requires Accept(p, calls).Some?
    ensures p.height <= Accept(p, calls).value.height
    decreases calls
  {
    if calls != [] {
      HeightGrows(Advance(p, calls[0]).value, calls[1..]);
    }
  }

  // What holds of the engine between events: whole blocks up to its height, all answered.
  ghost predicate Sound(env: Env, h0: int, s: State) {
    && Accept(Idle(h0), s.log).Some?
    && Accept(Idle(h0), s.log).value.height == s.height
    && OnlyLastLost(env.link, s.log)
    && (s.running ==> Accept(Idle(h0), s.log) == Some(Idle(s.height)) && AllAnswered(env.link, |s.log|))
  }

  lemma DropFirst(calls: seq<Call>, k: nat)
    requires 0 < k <= |calls|
    ensures calls[..k][1..] == calls[1..][..k - 1]
  {
  }

  lemma {:induction false} CertKeepsSound(env: Env, h0: int, s: State, cert: Certificate)
    requires s.running && Sound(env, h0, s)
    ensures Sound(env, h0, AfterCert(env, s, cert))
  {
    var plan, h := PlanOf(env, cert.stores, cert.payload), s.height + 1;
    var block := Block(h, plan);
    var k := TransmitPrefix(env.link, s.log, block);
    BlockAccepted(s.height, plan);
    AcceptPrefix(Idle(s.height), block, k);
    AcceptAppend(Idle(h0), s.log, block[..k]);
    if k == |block| {
      assert block[..k] == block;
    }
    if k > 0 {
      DropFirst(block, k);
      PhaseOfPrefix(Open(h), block[1..], k - 1, h);
    }
  }

  /**
   Over every interleaving of certificates and queries and every pattern of lost requests, the trace
   is complete blocks BeginBlock(h), DeliverTx*, EndBlock(h), Commit, h rising by one from the starting
   height, followed by at most one unfinished block, whose height is then last_block_height.
   */
  lemma {:induction false} RunObeysGrammar(env: Env, h0: int, s: State, events: seq<Event>)
    requires Sound(env, h0, s)
    ensures Sound(env, h0, AfterEvents(env, s, events))
    decreases events
  {
    if s.running && events != [] {
      match events[0] {
        case Cert(cert) => CertKeepsSound(env, h0, s, cert);
        case Query(_, _) =>
      }
      RunObeysGrammar(env, h0, AfterEvent(env, s, events[0]), events[1..]);
    }
  }

  // ----- queries -----

  ghost predicate FailingQuery(e: Event) {
    e.Query? && !(e.answered && e.receiverWaiting)
  }

  // The certificates that precede the first failing query.
  ghost function CertsServed(events: seq<Event>): seq<Event> {
    if events == [] || FailingQuery(events[0]) then []
    else (if events[0].Cert? then [events[0]] else []) + CertsServed(events[1..])
  }

  ghost predicate AllQueriesServed(events: seq<Event>) {
    forall e :: e in events ==> !FailingQuery(e)
  }

  /** Queries never change what the application is told; a failing one only ends the run. */
  lemma {:induction false} QueriesDoNotInterfere(env: Env, s: State, events: seq<Event>)
    requires s.running
    ensures
      var with, without := AfterEvents(env, s, events), AfterEvents(env, s, CertsServed(events));
      && with.log == without.log && with.height == without.height
      && with.running == (without.running && AllQueriesServed(events))
    decreases events
  {
    if events != [] && !FailingQuery(events[0]) {
      var s', rest := AfterEvent(env, s, events[0]), events[1..];
      assert AllQueriesServed(events) <==> AllQueriesServed(rest) by {
        assert forall e :: e in events <==> e == events[0] || e in rest;
      }
      if s'.running {
        QueriesDoNotInterfere(env, s', rest);
      }
      if events[0].Cert? {
        assert CertsServed(events)[1..] == CertsServed(rest);
      } else {
        assert CertsServed(events) == CertsServed(rest);
      }
    }
  }
}
