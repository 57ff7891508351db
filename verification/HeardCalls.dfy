/** What the application hears of a run of the engine, worked out from the run's inputs. */
module HeardCalls {

  import opened Abci
  import opened Engine
  import opened EngineSafety

  // The requests that reached the application.
  function Handled(link: nat -> Answer, log: seq<Call>): seq<Call> {
    if log == [] then [] else
    var n := |log| - 1;
    Handled(link, log[..n]) + if link(n).LostBefore? then [] else [log[n]]
  }

  lemma {:induction false} HandledAll(link: nat -> Answer, log: seq<Call>)
    requires AllAnswered(link, |log|)
    ensures Handled(link, log) == log
    decreases log
  {
    if log != [] {
      var n := |log| - 1;
      HandledAll(link, log[..n]);
      assert log == log[..n] + [log[n]];
    }
  }

  // ----- one block -----

  // How many of m requests, the first being number n of the connection, reach the application: sending
  // stops at the first that is not answered.
  function Arrivals(link: nat -> Answer, n: nat, m: nat): (k: nat)
    ensures k <= m
    decreases m
  {
    if m == 0 then 0
    else match link(n)
      case Answered => 1 + Arrivals(link, n + 1, m - 1)
      case LostBefore => 0
      case LostAfter => 1
  }

  // All of them are answered.
  ghost predicate Through(link: nat -> Answer, n: nat, m: nat) {
    forall i {:trigger link(i)} :: n <= i < n + m ==> link(i).Answered?
  }

  lemma {:induction false} AllArriveIff(link: nat -> Answer, n: nat, m: nat)
    requires m > 0
    ensures Arrivals(link, n, m) == m <==> Through(link, n, m - 1) && !link(n + m - 1).LostBefore?
    decreases m
  {
    if m > 1 {
      AllArriveIff(link, n + 1, m - 1);
    } else {
      assert Arrivals(link, n + 1, 0) == 0;
    }
  }

  lemma TakeNext(log: seq<Call>, calls: seq<Call>, k: nat)
    requires k < |calls|
    ensures (log + [calls[0]]) + calls[1..][..k] == log + calls[..k + 1]
  {
  }

  lemma MoveNext(log: seq<Call>, calls: seq<Call>)
    requires calls != []
    ensures (log + [calls[0]]) + calls[1..] == log + calls
  {
  }

  lemma TakeFew(log: seq<Call>, calls: seq<Call>)
    requires calls != []
    ensures log + calls[..0] == log && log + calls[..1] == log + [calls[0]]
  {
  }

  // One request: it is handled unless it is lost before.
  lemma HandledNext(link: nat -> Answer, log: seq<Call>, c: Call)
    requires AllAnswered(link, |log|)
    ensures Handled(link, log + [c]) == if link(|log|).LostBefore? then log else log + [c]
  {
    HandledAll(link, log);
    assert (log + [c])[..|log|] == log;
  }

  lemma {:induction false} TransmitArrives(link: nat -> Answer, log: seq<Call>, calls: seq<Call>)
    requires AllAnswered(link, |log|)
    ensures
      var sent := Transmit(link, log, calls);
      && Handled(link, sent.log) == log + calls[..Arrivals(link, |log|, |calls|)]
      && (sent.ok <==> Through(link, |log|, |calls|))
      && (sent.ok ==> sent.log == log + calls)
    decreases calls
  {
    if calls == [] {
      HandledAll(link, log);
      assert log + [] == log;
    } else if link(|log|).Answered? {
      TransmitArrives(link, log + [calls[0]], calls[1..]);
      MoveNext(log, calls);
      TakeNext(log, calls, Arrivals(link, |log| + 1, |calls| - 1));
    } else {
      HandledNext(link, log, calls[0]);
      TakeFew(log, calls);
    }
  }

  // ----- a whole run -----

  // The certificates before the first failing query.
  ghost function Served(events: seq<Event>): seq<Certificate> {
    if events == [] || FailingQuery(events[0]) then []
    else (if events[0].Cert? then [events[0].cert] else []) + Served(events[1..])
  }

  // How many requests a block takes.
  function Size(plan: Plan): nat {
    |plan.txs| + if plan.complete then 3 else 1
  }

  /** Block after block, as far as it arrives; the first block that is not answered to the end, or not
      complete, is the last. */
  ghost function HeardFrom(env: Env, h: int, n: nat, certs: seq<Certificate>): seq<Call>
    decreases |certs|
  {
    if certs == [] then [] else
    var plan := PlanOf(env, certs[0].stores, certs[0].payload);
    var m := Size(plan);
    Block(h + 1, plan)[..Arrivals(env.link, n, m)] +
      if plan.complete && Through(env.link, n, m) then HeardFrom(env, h + 1, n + m, certs[1..]) else []
  }

  // An engine that goes on after a certificate has sent its whole block.
  lemma {:induction false} CertSends(env: Env, s: State, cert: Certificate)
    requires AllAnswered(env.link, |s.log|) && AfterCert(env, s, cert).running
    ensures
      var s', plan := AfterCert(env, s, cert), PlanOf(env, cert.stores, cert.payload);
      && s'.log == s.log + Block(s.height + 1, plan) && |s'.log| == |s.log| + Size(plan)
      && plan.complete && Through(env.link, |s.log|, Size(plan)) && AllAnswered(env.link, |s'.log|)
  {
    TransmitArrives(env.link, s.log, Block(s.height + 1, PlanOf(env, cert.stores, cert.payload)));
  }

  // ... and what follows is heard after it.
  lemma {:induction false} HeardWhole(env: Env, h: int, n: nat, certs: seq<Certificate>)
    requires certs != [] && PlanOf(env, certs[0].stores, certs[0].payload).complete
    requires Through(env.link, n, Size(PlanOf(env, certs[0].stores, certs[0].payload)))
    ensures
      var plan := PlanOf(env, certs[0].stores, certs[0].payload);
      HeardFrom(env, h, n, certs) == Block(h + 1, plan) + HeardFrom(env, h + 1, n + Size(plan), certs[1..])
  {
    var plan := PlanOf(env, certs[0].stores, certs[0].payload);
    AllArriveIff(env.link, n, Size(plan));
    assert Block(h + 1, plan)[..Size(plan)] == Block(h + 1, plan);
  }

  lemma Regroup(a: seq<Call>, b: seq<Call>, c: seq<Call>, ab: seq<Call>, bc: seq<Call>)
    requires ab == a + b && bc == b + c
    ensures ab + c == a + bc
  {
  }

  lemma {:induction false} CertGoesOn(env: Env, s: State, certs: seq<Certificate>)
    requires certs != [] && AllAnswered(env.link, |s.log|) && AfterCert(env, s, certs[0]).running
    ensures
      var s' := AfterCert(env, s, certs[0]);
      s'.log + HeardFrom(env, s'.height, |s'.log|, certs[1..]) == s.log + HeardFrom(env, s.height, |s.log|, certs)
  {
    var plan, s' := PlanOf(env, certs[0].stores, certs[0].payload), AfterCert(env, s, certs[0]);
    CertSends(env, s, certs[0]);
    HeardWhole(env, s.height, |s.log|, certs);
    Regroup(s.log, Block(s.height + 1, plan), HeardFrom(env, s'.height, |s'.log|, certs[1..]),
            s'.log, HeardFrom(env, s.height, |s.log|, certs));
  }

  // A certificate at which it stops.
  lemma {:induction false} CertStops(env: Env, s: State, certs: seq<Certificate>)
    requires certs != [] && AllAnswered(env.link, |s.log|) && !AfterCert(env, s, certs[0]).running
    ensures Handled(env.link, AfterCert(env, s, certs[0]).log) == s.log + HeardFrom(env, s.height, |s.log|, certs)
  {
    TransmitArrives(env.link, s.log, Block(s.height + 1, PlanOf(env, certs[0].stores, certs[0].payload)));
  }

  lemma ServedNext(events: seq<Event>)
    requires events != [] && !FailingQuery(events[0])
    ensures events[0].Cert? ==>
      Served(events) != [] && Served(events)[0] == events[0].cert && Served(events)[1..] == Served(events[1..])
    ensures events[0].Query? ==> Served(events) == Served(events[1..])
  {
  }

  /** The application handles exactly these calls: the links, the certificates served and their stores fix
      them. */
  lemma {:induction false} RunHears(env: Env, s: State, events: seq<Event>)
    requires s.running && AllAnswered(env.link, |s.log|)
    ensures Handled(env.link, AfterEvents(env, s, events).log) ==
      s.log + HeardFrom(env, s.height, |s.log|, Served(events))
    decreases events
  {
    if events == [] || FailingQuery(events[0]) {
      HandledAll(env.link, s.log);
      assert s.log + [] == s.log;
    } else {
      var s', rest := AfterEvent(env, s, events[0]), events[1..];
      ServedNext(events);
      if events[0].Query? {
        RunHears(env, s', rest);
      } else if s'.running {
        CertSends(env, s, events[0].cert);
        CertGoesOn(env, s, Served(events));
        RunHears(env, s', rest);
      } else {
        CertStops(env, s, Served(events));
      }
    }
  }

  // Every block is complete and answered to the end.
  ghost predicate AllWhole(env: Env, n: nat, certs: seq<Certificate>)
    decreases |certs|
  {
    certs != [] ==>
      var plan := PlanOf(env, certs[0].stores, certs[0].payload);
      plan.complete && Through(env.link, n, Size(plan)) && AllWhole(env, n + Size(plan), certs[1..])
  }

  /** A run ends without an error exactly when the chain was initialized, every query was served, and every
      block was complete and answered to the end. */
  lemma RunSucceedsIff(env: Env, h: int, init: InitReply, events: seq<Event>)
    ensures AfterRun(env, State(h, [], true), init, events).running <==>
      !init.InitFailed? && AllQueriesServed(events) && AllWhole(env, 0, Served(events))
  {
    RunGoesOnIff(env, State(h, [], true), events);
  }

  lemma {:induction false} RunGoesOnIff(env: Env, s: State, events: seq<Event>)
    requires s.running && AllAnswered(env.link, |s.log|)
    ensures AfterEvents(env, s, events).running <==>
      AllQueriesServed(events) && AllWhole(env, |s.log|, Served(events))
    decreases events
  {
    if events != [] {
      var s', rest := AfterEvent(env, s, events[0]), events[1..];
      assert AllQueriesServed(events) <==> !FailingQuery(events[0]) && AllQueriesServed(rest) by {
        assert forall e :: e in events <==> e == events[0] || e in rest;
      }
      if !FailingQuery(events[0]) {
        ServedNext(events);
        if events[0].Query? {
          RunGoesOnIff(env, s', rest);
        } else if s'.running {
          CertSends(env, s, events[0].cert);
          RunGoesOnIff(env, s', rest);
        } else {
          CertEnds(env, s, events[0].cert);
        }
      }
    }
  }

  lemma CertEnds(env: Env, s: State, cert: Certificate)
    requires AllAnswered(env.link, |s.log|) && !AfterCert(env, s, cert).running
    ensures
      var plan := PlanOf(env, cert.stores, cert.payload); !(plan.complete && Through(env.link, |s.log|, Size(plan)))
  {
    TransmitArrives(env.link, s.log, Block(s.height + 1, PlanOf(env, cert.stores, cert.payload)));
  }
}
