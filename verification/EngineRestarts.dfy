/** Heights over any number of engine lives, each ended by an error, against one application. */
module EngineRestarts {

  import opened Options
  import opened Abci
  import opened Engine
  import opened EngineSafety
  import opened EngineLedger
  import opened HeardCalls

  // One life of the engine process: the reply to Info, the reply to InitChain, and what it is served.
  datatype Life = Life(infoAnswered: bool, init: InitReply, env: Env, events: seq<Event>)

  // The height a new engine starts from, when the application has committed `committed` blocks.
  function StartHeight(life: Life, committed: int): int {
    if life.infoAnswered then committed else 0
  }

  function LogOf(life: Life, committed: int): seq<Call> {
    AfterRun(life.env, State(StartHeight(life, committed), [], true), life.init, life.events).log
  }

  // What the application handles in one life.
  function HeardIn(life: Life, committed: int): seq<Call> {
    Handled(life.env.link, LogOf(life, committed))
  }

  /** It is fixed by the life's inputs: the connection, the certificates served, and the replies to Info and
      InitChain. */
  lemma LifeHears(life: Life, committed: int)
    ensures HeardIn(life, committed) ==
      if life.init.InitFailed? then []
      else HeardFrom(life.env, StartHeight(life, committed), 0, Served(life.events))
  {
    if !life.init.InitFailed? {
      RunHears(life.env, State(StartHeight(life, committed), [], true), life.events);
    }
  }

  // Only the last request can be unhandled, so the application sees a prefix.
  lemma HandledPrefix(link: nat -> Answer, log: seq<Call>) returns (k: nat)
    requires OnlyLastLost(link, log)
    ensures k <= |log| && Handled(link, log) == log[..k]
  {
    if log == [] {
      k := 0;
    } else {
      var n := |log| - 1;
      HandledAll(link, log[..n]);
      k := if link(n).LostBefore? then n else n + 1;
      assert log == log[..n] + [log[n]];
    }
  }

  /** Every life is heard by the application as well-formed calls, committing consecutive heights
      from wherever the engine started. */
  lemma LifeHeard(life: Life, committed: int)
    ensures var start := StartHeight(life, committed);
      var heard := HeardIn(life, committed);
      && Accept(Idle(start), heard).Some?
      && CommittedHeights(Idle(start), heard) == From(start, Commits(heard))
  {
    var start := StartHeight(life, committed);
    var s := State(start, [], true);
    RunObeysGrammar(life.env, start, s, life.events);
    var log := LogOf(life, committed);
    var k := HandledPrefix(life.env.link, log);
    AcceptPrefix(Idle(start), log, k);
    CommittedConsecutive(Idle(start), log[..k]);
  }

  function HeightsOf(life: Life, committed: int): seq<int> {
    LifeHeard(life, committed);
    CommittedHeights(Idle(StartHeight(life, committed)), HeardIn(life, committed))
  }

  // The application counts the commits it handles, and reports that count.
  function Committed(life: Life, committed: int): int {
    committed + |HeightsOf(life, committed)|
  }

  // ----- when a life commits anything -----

  // What decides it: the chain is initialized, a certificate is served before the first failing query, all
  // its batches are good, its transactions and the BeginBlock and EndBlock around them are answered, and
  // the Commit after them reaches the application.
  ghost predicate Productive(life: Life) {
    !life.init.InitFailed? && Served(life.events) != [] && FirstCommits(life.env, Served(life.events)[0])
  }

  ghost predicate FirstCommits(env: Env, cert: Certificate) {
    Intact(env, cert) &&
    var t := |PlanOf(env, cert.stores, cert.payload).txs|;
    AllAnswered(env.link, t + 2) && !env.link(t + 2).LostBefore?
  }

  lemma {:induction false} DeliversCommitNothing(txs: seq<Bytes>)
    ensures Commits(Delivers(txs)) == 0
    decreases txs
  {
    if txs != [] {
      assert Delivers(txs)[1..] == Delivers(txs[1..]);
      DeliversCommitNothing(txs[1..]);
    }
  }

  lemma CommitsOfTail(h: int, j: nat)
    requires j <= 2
    ensures Commits([EndBlock(h), Commit][..j]) == if j == 2 then 1 else 0
  {
    var tail := [EndBlock(h), Commit];
    assert tail[..0] == [] && tail[..1] == [EndBlock(h)] && tail[..2] == tail;
    assert tail[1..] == [Commit] && [Commit][1..] == [] && [EndBlock(h)][1..] == [];
  }

  lemma TakeFromSum(a: seq<Call>, b: seq<Call>, k: nat)
    requires k <= |a + b|
    ensures (a + b)[..k] == if k <= |a| then a[..k] else a + b[..k - |a|]
  {
  }

  // A block commits with its last call and not before.
  lemma CommitsOfBlock(h: int, plan: Plan, k: nat)
    requires k <= |Block(h, plan)|
    ensures Commits(Block(h, plan)[..k]) == if plan.complete && k == |plan.txs| + 3 then 1 else 0
  {
    var body, tail := [BeginBlock(h)] + Delivers(plan.txs), if plan.complete then [EndBlock(h), Commit] else [];
    DeliversCommitNothing(plan.txs);
    CommitsAppend([BeginBlock(h)], Delivers(plan.txs));
    TakeFromSum(body, tail, k);
    if k <= |body| {
      assert body == body[..k] + body[k..];
      CommitsAppend(body[..k], body[k..]);
    } else {
      CommitsAppend(body, tail[..k - |body|]);
      CommitsOfTail(h, k - |body|);
    }
  }

  /** Whether a life commits anything depends on its inputs only, as spelt out above. */
  lemma CommitsSomeIff(life: Life, committed: int)
    ensures HeightsOf(life, committed) != [] <==> Productive(life)
  {
    LifeHeard(life, committed);
    LifeHears(life, committed);
    if !life.init.InitFailed? && Served(life.events) != [] {
      FirstDecides(life.env, StartHeight(life, committed), Served(life.events));
    }
  }

  // Whether anything is committed is settled with the first certificate.
  lemma {:induction false} FirstDecides(env: Env, h: int, certs: seq<Certificate>)
    requires certs != []
    ensures Commits(HeardFrom(env, h, 0, certs)) > 0 <==> FirstCommits(env, certs[0])
  {
    var plan := PlanOf(env, certs[0].stores, certs[0].payload);
    var k, m := Arrivals(env.link, 0, Size(plan)), Size(plan);
    PlanOfIntact(env, certs[0]);
    AllArriveIff(env.link, 0, m);
    CommitsOfBlock(h + 1, plan, k);
    if plan.complete && Through(env.link, 0, m) {
      CommitsAppend(Block(h + 1, plan)[..k], HeardFrom(env, h + 1, m, certs[1..]));
    } else {
      assert Block(h + 1, plan)[..k] + [] == Block(h + 1, plan)[..k];
    }
  }

  // ----- heights over a history -----

  /** All heights committed over a history of lives. */
  function History(committed: int, lives: seq<Life>): seq<int>
    decreases |lives|
  {
    if lives == [] then []
    else HeightsOf(lives[0], committed) + History(Committed(lives[0], committed), lives[1..])
  }

  // The engine was told the height, or 0 is right, or the life commits nothing.
  ghost predicate Harmless(life: Life, committed: int) {
    life.infoAnswered || committed == 0 || !Productive(life)
  }

  ghost predicate AllHarmless(committed: int, lives: seq<Life>)
    decreases |lives|
  {
    lives == [] || (Harmless(lives[0], committed) && AllHarmless(Committed(lives[0], committed), lives[1..]))
  }

  lemma FromSplit(h: int, m: nat, n: nat)
    ensures From(h, m + n) == From(h, m) + From(h + m, n)
    ensures From(h, m + n)[..m] == From(h, m) && From(h, m + n)[m..] == From(h + m, n)
  {
  }

  /** A life continues the application's heights exactly when it was told them: an unanswered Info
      restarts at height 1, which is wrong unless nothing was committed before or will be in that life. */
  lemma LifeContinues(life: Life, committed: int)
    ensures HeightsOf(life, committed) == From(committed, |HeightsOf(life, committed)|) <==>
      Harmless(life, committed)
  {
    LifeHeard(life, committed);
    CommitsSomeIff(life, committed);
    var heights := HeightsOf(life, committed);
    assert heights == From(StartHeight(life, committed), |heights|);
    if heights != [] {
      assert heights[0] == StartHeight(life, committed) + 1;
      assert From(committed, |heights|)[0] == committed + 1;
    }
  }

  /** Over any number of failures and restarts the committed heights stay consecutive exactly when every
      life is harmless. */
  lemma {:induction false} RestartsConsecutiveIff(committed: int, lives: seq<Life>)
    ensures History(committed, lives) == From(committed, |History(committed, lives)|) <==>
      AllHarmless(committed, lives)
    decreases |lives|
  {
    if lives != [] {
      var heights := HeightsOf(lives[0], committed);
      var after := Committed(lives[0], committed);
      var rest := History(after, lives[1..]);
      LifeContinues(lives[0], committed);
      RestartsConsecutiveIff(after, lives[1..]);
      FromSplit(committed, |heights|, |rest|);
      assert (heights + rest)[..|heights|] == heights && (heights + rest)[|heights|..] == rest;
    }
  }

  ghost predicate NoneProductive(lives: seq<Life>) {
    forall life :: life in lives ==> !Productive(life)
  }

  ghost predicate HarmlessAt(committed: int, lives: seq<Life>, i: nat)
    requires i < |lives|
  {
    lives[i].infoAnswered || !Productive(lives[i]) || (committed == 0 && NoneProductive(lives[..i]))
  }

  /** Said of the inputs alone, from a height that is not negative: each life was told its height, or
      commits nothing, or is the first to commit anything at all. */
  lemma {:induction false} AllHarmlessIff(committed: nat, lives: seq<Life>)
    ensures AllHarmless(committed, lives) <==> forall i :: 0 <= i < |lives| ==> HarmlessAt(committed, lives, i)
    decreases |lives|
  {
    if lives != [] {
      var rest, after := lives[1..], Committed(lives[0], committed);
      CommitsSomeIff(lives[0], committed);
      AllHarmlessIff(after, rest);
      assert HarmlessAt(committed, lives, 0) == Harmless(lives[0], committed);
      forall i | 0 < i < |lives|
        ensures HarmlessAt(committed, lives, i) == HarmlessAt(after, rest, i - 1)
      {
        assert lives[..i] == [lives[0]] + rest[..i - 1];
      }
      assert forall j :: 0 <= j < |rest| ==> HarmlessAt(after, rest, j) == HarmlessAt(committed, lives, j + 1);
    }
  }

  /** The failing case exists: one empty certificate after an unanswered Info commits height 1 again. */
  lemma UninformedLifeRepeatsHeight(decode: Bytes -> Option<seq<Bytes>>, committed: int) returns (life: Life)
    requires committed > 0
    ensures !life.infoAnswered && life.env.decode == decode
    ensures HeightsOf(life, committed) == [1]
  {
    var env := Env(decode, (n: nat) => Answered);
    var cert := Certificate([], map[]);
    life := Life(false, Initialized, env, [Cert(cert)]);
    var heard := [BeginBlock(1), EndBlock(1), Commit];
    LifeHears(life, committed);
    assert Served(life.events) == [cert];
    EmptyBlock(env, cert);
    LifeHeard(life, committed);
    assert heard[1..] == [EndBlock(1), Commit] && heard[1..][1..] == [Commit];
    assert Commits([Commit]) == 1 && Commits(heard[1..]) == 1;
  }

  lemma {:induction false} EmptyBlock(env: Env, cert: Certificate)
    requires cert.payload == [] && forall n :: env.link(n).Answered?
    ensures HeardFrom(env, 0, 0, [cert]) == [BeginBlock(1), EndBlock(1), Commit]
  {
    var plan := PlanOf(env, cert.stores, cert.payload);
    AllArriveIff(env.link, 0, 3);
    assert Block(1, plan)[..3] == [BeginBlock(1), EndBlock(1), Commit];
    assert [cert][1..] == [] && HeardFrom(env, 1, 3, []) == [];
  }
}
