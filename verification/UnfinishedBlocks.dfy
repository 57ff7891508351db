/** What a run of the engine leaves uncommitted at the application, worked out from the run's inputs. */
module UnfinishedBlocks {

  import opened Options
  import opened Abci
  import opened Engine
  import opened EngineLedger
  import opened HeardCalls
  import opened EngineRestarts

  // ----- up to the last commit -----

  // The length up to and with the last Commit, 0 when there is none.
  function LastCommit(calls: seq<Call>): (k: nat)
    ensures k <= |calls|
  {
    if calls == [] then 0
    else if calls[|calls| - 1] == Commit then |calls|
    else LastCommit(calls[..|calls| - 1])
  }

  lemma {:induction false} LastCommitAppend(a: seq<Call>, b: seq<Call>)
    ensures LastCommit(a + b) == if LastCommit(b) == 0 then LastCommit(a) else |a| + LastCommit(b)
    decreases b
  {
    if b == [] {
      assert a + b == a;
    } else {
      var n := |b| - 1;
      assert (a + b)[..|a + b| - 1] == a + b[..n];
      LastCommitAppend(a, b[..n]);
    }
  }

  lemma {:induction false} NoCommit(calls: seq<Call>)
    requires Commits(calls) == 0
    ensures LastCommit(calls) == 0
    decreases calls
  {
    if calls != [] {
      var n := |calls| - 1;
      assert calls == calls[..n] + [calls[n]];
      CommitsAppend(calls[..n], [calls[n]]);
      NoCommit(calls[..n]);
    }
  }

  // ----- one block -----

  // The transactions among the first k calls of a block.
  function TxsWithin(plan: Plan, k: nat): seq<Bytes> {
    if k == 0 then [] else if k - 1 < |plan.txs| then plan.txs[..k - 1] else plan.txs
  }

  lemma DeliveredWithin(h: int, plan: Plan, k: nat)
    requires k <= Size(plan)
    ensures Delivered(Block(h, plan)[..k]) == TxsWithin(plan, k)
  {
    var begin, txs := [BeginBlock(h)], Delivers(plan.txs);
    var tail := if plan.complete then [EndBlock(h), Commit] else [];
    TakeFromSum(begin + txs, tail, k);
    if k == 0 {
      assert Block(h, plan)[..0] == [];
    } else if k <= |begin + txs| {
      TakeFromSum(begin, txs, k);
      assert begin[..1] == begin && txs[..k - 1] == Delivers(plan.txs[..k - 1]) && plan.txs[..|plan.txs|] == plan.txs;
      DeliveredAppend(begin, Delivers(plan.txs[..k - 1]));
      DeliveredOfDelivers(plan.txs[..k - 1]);
    } else {
      DeliveredAppend(begin + txs, tail[..k - |begin + txs|]);
      DeliveredAppend(begin, txs);
      DeliveredOfDelivers(plan.txs);
      NothingInTail(h, k - |begin + txs|);
    }
  }

  lemma NothingInTail(h: int, j: nat)
    requires j <= 2
    ensures Delivered([EndBlock(h), Commit][..j]) == []
  {
    var tail := [EndBlock(h), Commit];
    assert tail[..0] == [] && tail[..1] == [EndBlock(h)] && tail[..2] == tail;
    assert tail[1..] == [Commit] && [Commit][1..] == [] && [EndBlock(h)][1..] == [];
  }

  lemma LastCommitWithin(h: int, plan: Plan, k: nat)
    requires k <= Size(plan)
    ensures LastCommit(Block(h, plan)[..k]) == if plan.complete && k == Size(plan) then k else 0
  {
    CommitsOfBlock(h, plan, k);
    if plan.complete && k == Size(plan) {
      assert Block(h, plan)[..k][k - 1] == Commit;
    } else {
      NoCommit(Block(h, plan)[..k]);
    }
  }

  // ----- a whole run -----

  /** The transactions of the block a run leaves open at the application; None when it leaves none open. */
  ghost function OpenFrom(env: Env, n: nat, certs: seq<Certificate>): Option<seq<Bytes>>
    decreases |certs|
  {
    if certs == [] then None else
    var plan := PlanOf(env, certs[0].stores, certs[0].payload);
    var k := Arrivals(env.link, n, Size(plan));
    if plan.complete && k == Size(plan) then
      if Through(env.link, n, k) then OpenFrom(env, n + k, certs[1..]) else None
    else if k == 0 then None
    else Some(TxsWithin(plan, k))
  }

  /** The transactions of the blocks it commits. */
  ghost function CommittedFrom(env: Env, n: nat, certs: seq<Certificate>): seq<Bytes>
    decreases |certs|
  {
    if certs == [] then [] else
    var plan := PlanOf(env, certs[0].stores, certs[0].payload);
    var m := Size(plan);
    if plan.complete && Arrivals(env.link, n, m) == m then
      plan.txs + if Through(env.link, n, m) then CommittedFrom(env, n + m, certs[1..]) else []
    else []
  }

  function OrNone(txs: Option<seq<Bytes>>): seq<Bytes> {
    if txs == None then [] else txs.value
  }

  // The transactions among calls up to their last Commit, and those after it when anything is.
  ghost predicate Leaves(calls: seq<Call>, committed: seq<Bytes>, open: Option<seq<Bytes>>) {
    var k := LastCommit(calls);
    && Delivered(calls[..k]) == committed
    && Delivered(calls[k..]) == OrNone(open)
    && (k == |calls| <==> open == None)
  }

  lemma CutSum(a: seq<Call>, b: seq<Call>, j: nat)
    requires j <= |b|
    ensures (a + b)[..|a| + j] == a + b[..j] && (a + b)[|a| + j..] == b[j..]
  {
  }

  // A committed block before them.
  lemma {:induction false} LeavesAfter(block: seq<Call>, rest: seq<Call>, committed: seq<Bytes>,
                                       open: Option<seq<Bytes>>, all: seq<Call>, allCommitted: seq<Bytes>)
    requires LastCommit(block) == |block| && Leaves(rest, committed, open)
    requires all == block + rest && allCommitted == Delivered(block) + committed
    ensures Leaves(all, allCommitted, open)
  {
    var j := LastCommit(rest);
    LastCommitAppend(block, rest);
    CutSum(block, rest, j);
    DeliveredAppend(block, rest[..j]);
  }

  /** The calls heard up to the last Commit and after it carry just these. */
  lemma {:induction false} RunLeaves(env: Env, h: int, n: nat, certs: seq<Certificate>)
    ensures Leaves(HeardFrom(env, h, n, certs), CommittedFrom(env, n, certs), OpenFrom(env, n, certs))
    decreases |certs|
  {
    if certs != [] {
      var plan := PlanOf(env, certs[0].stores, certs[0].payload);
      if plan.complete && Through(env.link, n, Size(plan)) {
        var rest := HeardFrom(env, h + 1, n + Size(plan), certs[1..]);
        var committed := CommittedFrom(env, n + Size(plan), certs[1..]);
        RunLeaves(env, h + 1, n + Size(plan), certs[1..]);
        WholeBlock(env, h, n, certs, rest, committed, OpenFrom(env, n + Size(plan), certs[1..]));
      } else {
        LastBlock(env, h, n, certs);
      }
    }
  }

  // The first block is the last that is heard at all.
  lemma {:induction false} LastBlock(env: Env, h: int, n: nat, certs: seq<Certificate>)
    requires certs != []
    requires
      var plan := PlanOf(env, certs[0].stores, certs[0].payload);
      !(plan.complete && Through(env.link, n, Size(plan)))
    ensures Leaves(HeardFrom(env, h, n, certs), CommittedFrom(env, n, certs), OpenFrom(env, n, certs))
  {
    var plan := PlanOf(env, certs[0].stores, certs[0].payload);
    var k := Arrivals(env.link, n, Size(plan));
    var heard := Block(h + 1, plan)[..k];
    assert HeardFrom(env, h, n, certs) == heard + [] == heard;
    LastCommitWithin(h + 1, plan, k);
    DeliveredWithin(h + 1, plan, k);
    assert heard[..0] == [] && heard[0..] == heard && heard[..k] == heard && heard[k..] == [];
  }

  lemma {:induction false} WholeUnfolds(env: Env, n: nat, certs: seq<Certificate>)
    requires certs != [] && PlanOf(env, certs[0].stores, certs[0].payload).complete
    requires Through(env.link, n, Size(PlanOf(env, certs[0].stores, certs[0].payload)))
    ensures
      var plan := PlanOf(env, certs[0].stores, certs[0].payload);
      && CommittedFrom(env, n, certs) == plan.txs + CommittedFrom(env, n + Size(plan), certs[1..])
      && OpenFrom(env, n, certs) == OpenFrom(env, n + Size(plan), certs[1..])
  {
    AllArriveIff(env.link, n, Size(PlanOf(env, certs[0].stores, certs[0].payload)));
  }

  // It is committed, and the rest decides what is left open.
  lemma {:induction false} WholeBlock(env: Env, h: int, n: nat, certs: seq<Certificate>, rest: seq<Call>,
                                      committed: seq<Bytes>, open: Option<seq<Bytes>>)
    requires certs != [] && PlanOf(env, certs[0].stores, certs[0].payload).complete
    requires
      var m := Size(PlanOf(env, certs[0].stores, certs[0].payload));
      && Through(env.link, n, m) && rest == HeardFrom(env, h + 1, n + m, certs[1..])
      && committed == CommittedFrom(env, n + m, certs[1..]) && open == OpenFrom(env, n + m, certs[1..])
    requires Leaves(rest, committed, open)
    ensures Leaves(HeardFrom(env, h, n, certs), CommittedFrom(env, n, certs), open)
    ensures OpenFrom(env, n, certs) == open
  {
    var plan := PlanOf(env, certs[0].stores, certs[0].payload);
    HeardWhole(env, h, n, certs);
    WholeUnfolds(env, n, certs);
    BlockCommits(h + 1, plan);
    LeavesAfter(Block(h + 1, plan), rest, committed, open, HeardFrom(env, h, n, certs), CommittedFrom(env, n, certs));
  }

  lemma BlockCommits(h: int, plan: Plan)
    requires plan.complete
    ensures LastCommit(Block(h, plan)) == |Block(h, plan)| && Delivered(Block(h, plan)) == plan.txs
  {
    LastCommitWithin(h, plan, Size(plan));
    assert Block(h, plan)[..Size(plan)] == Block(h, plan);
    DeliveredOfBlock(h, plan);
  }

  // ----- a life -----

  // The block a life leaves open.
  ghost function LeftOpen(life: Life): Option<seq<Bytes>> {
    if life.init.InitFailed? then None else OpenFrom(life.env, 0, Served(life.events))
  }

  // The transactions it commits.
  ghost function CommittedTxs(life: Life): seq<Bytes> {
    if life.init.InitFailed? then [] else CommittedFrom(life.env, 0, Served(life.events))
  }

  // Anything at all reaches the application.
  ghost predicate IsHeard(life: Life) {
    !life.init.InitFailed? && Served(life.events) != [] && !life.env.link(0).LostBefore?
  }

  /** What a life's calls carry up to their last Commit and after it depends on its inputs only. */
  lemma LifeLeaves(life: Life, committed: int)
    ensures Leaves(HeardIn(life, committed), CommittedTxs(life), LeftOpen(life))
  {
    LifeHears(life, committed);
    if !life.init.InitFailed? {
      RunLeaves(life.env, StartHeight(life, committed), 0, Served(life.events));
    }
  }

  lemma IsHeardIff(life: Life, committed: int)
    ensures HeardIn(life, committed) != [] <==> IsHeard(life)
  {
    LifeHears(life, committed);
    if !life.init.InitFailed? && Served(life.events) != [] {
      HeardAtAll(life.env, StartHeight(life, committed), Served(life.events));
    }
  }

  lemma {:induction false} HeardAtAll(env: Env, h: int, certs: seq<Certificate>)
    requires certs != []
    ensures HeardFrom(env, h, 0, certs) != [] <==> !env.link(0).LostBefore?
  {
    var plan := PlanOf(env, certs[0].stores, certs[0].payload);
    assert Through(env.link, 0, Size(plan)) ==> env.link(0).Answered?;
    assert Arrivals(env.link, 0, Size(plan)) > 0 <==> !env.link(0).LostBefore?;
  }
}
