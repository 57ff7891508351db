/** One application, and its height file, over the lives of the engines that talk to it. */
module SurvivingApplication {

  import opened Options
  import opened Abci
  import opened Engine
  import opened HeardCalls
  import opened EngineRestarts
  import opened UnfinishedBlocks
  import opened Transactions
  import opened StarknetApp
  import opened AppProperties

  /**
   After a life of the engine that the application survives, the height file holds the height before
   plus the blocks committed in that life - also when the last Commit was handled but not answered -
   and the next Info, even of a restarted application, reports it.
   */
  lemma ReportsCommitted(lib: Library, s: AppState, life: Life, committed: int)
    requires s.file == Height(committed)
    requires AfterCalls(lib, s, HeardIn(life, committed)).Some?
    ensures
      var r := AfterCalls(lib, s, HeardIn(life, committed)).value;
      ReadOrCreate(r.file) == Some((r.file, Committed(life, committed)))
  {
    StateAfterCalls(lib, s, HeardIn(life, committed));
    LifeHeard(life, committed);
  }

  // ----- a history of lives, heard as one sequence of calls -----

  function Heard(committed: int, lives: seq<Life>): seq<Call>
    decreases |lives|
  {
    if lives == [] then []
    else HeardIn(lives[0], committed) + Heard(Committed(lives[0], committed), lives[1..])
  }

  ghost predicate NoneHeard(lives: seq<Life>) {
    forall life :: life in lives ==> !IsHeard(life)
  }

  // Every life that is heard starts from the height the application has, and only the last of them may
  // leave a block open.
  ghost predicate Orderly(committed: int, lives: seq<Life>)
    decreases |lives|
  {
    lives != [] ==>
      && (!IsHeard(lives[0]) || lives[0].infoAnswered || committed == 0)
      && (LeftOpen(lives[0]) == None || NoneHeard(lives[1..]))
      && Orderly(Committed(lives[0], committed), lives[1..])
  }

  lemma EndsIdleIff(h: int, calls: seq<Call>)
    requires Accept(Idle(h), calls).Some?
    ensures Accept(Idle(h), calls).value.Idle? <==> LastCommit(calls) == |calls|
  {
    if calls != [] {
      var n := |calls| - 1;
      assert calls == calls[..n] + [calls[n]];
      AcceptPrefix(Idle(h), calls, n);
      AcceptAppend(Idle(h), calls[..n], [calls[n]]);
      assert [calls[n]][1..] == [];
    }
  }

  lemma {:induction false} FinishesIsIdle(life: Life, committed: int)
    ensures Accept(Idle(StartHeight(life, committed)), HeardIn(life, committed)).Some?
    ensures LeftOpen(life) == None <==>
      Accept(Idle(StartHeight(life, committed)), HeardIn(life, committed)).value.Idle?
  {
    LifeHeard(life, committed);
    LifeLeaves(life, committed);
    EndsIdleIff(StartHeight(life, committed), HeardIn(life, committed));
  }

  lemma {:induction false} NoneHeardIff(committed: int, lives: seq<Life>)
    ensures Heard(committed, lives) == [] <==> NoneHeard(lives)
    decreases |lives|
  {
    if lives != [] {
      IsHeardIff(lives[0], committed);
      NoneHeardIff(Committed(lives[0], committed), lives[1..]);
      assert forall life :: life in lives <==> life == lives[0] || life in lives[1..];
    }
  }

  lemma {:induction false} HeardBegins(committed: int, lives: seq<Life>)
    requires Heard(committed, lives) != []
    ensures Heard(committed, lives)[0].BeginBlock?
    decreases |lives|
  {
    if HeardIn(lives[0], committed) == [] {
      HeardBegins(Committed(lives[0], committed), lives[1..]);
    } else {
      LifeHeard(lives[0], committed);
    }
  }

  /** Heard as a whole, the engines obey the block grammar exactly when each that is heard starts from the
      application's height and none that leaves a block open is followed by another: that one begins the
      same height again. */
  lemma {:induction false} HeardAcceptedIff(committed: int, lives: seq<Life>)
    ensures Accept(Idle(committed), Heard(committed, lives)).Some? <==> Orderly(committed, lives)
    decreases |lives|
  {
    if lives != [] {
      var heard, after := HeardIn(lives[0], committed), Committed(lives[0], committed);
      var rest := Heard(after, lives[1..]);
      LifeHeard(lives[0], committed);
      HeardAcceptedIff(after, lives[1..]);
      IsHeardIff(lives[0], committed);
      NoneHeardIff(after, lives[1..]);
      FinishesIsIdle(lives[0], committed);
      if heard == [] {
        assert heard + rest == rest;
      } else if StartHeight(lives[0], committed) == committed {
        CommittedConsecutive(Idle(committed), heard);
        AcceptAppend(Idle(committed), heard, rest);
        if rest != [] { HeardBegins(after, lives[1..]); }
      } else {
        assert Heard(committed, lives)[0] == heard[0];
      }
    }
  }

  // What the inputs say of life i: it is not heard, or starts right; and it leaves no block open, or none
  // after it is heard.
  ghost predicate OrderlyAt(committed: int, lives: seq<Life>, i: nat)
    requires i < |lives|
  {
    && (!IsHeard(lives[i]) || lives[i].infoAnswered || (committed == 0 && NoneProductive(lives[..i])))
    && (LeftOpen(lives[i]) == None || NoneHeard(lives[i + 1..]))
  }

  /** The condition in terms of the inputs alone, from a height that is not negative. */
  lemma {:induction false} OrderlyIff(committed: nat, lives: seq<Life>)
    ensures Orderly(committed, lives) <==> forall i :: 0 <= i < |lives| ==> OrderlyAt(committed, lives, i)
    decreases |lives|
  {
    if lives != [] {
      var rest, after := lives[1..], Committed(lives[0], committed);
      CommitsSomeIff(lives[0], committed);
      OrderlyIff(after, rest);
      forall i | 0 < i < |lives|
        ensures OrderlyAt(committed, lives, i) == OrderlyAt(after, rest, i - 1)
      {
        assert lives[..i] == [lives[0]] + rest[..i - 1] && lives[i + 1..] == rest[i..];
      }
      assert forall j :: 0 <= j < |rest| ==> OrderlyAt(after, rest, j) == OrderlyAt(committed, lives, j + 1);
      assert OrderlyAt(committed, lives, 0) <==>
        && (!IsHeard(lives[0]) || lives[0].infoAnswered || committed == 0)
        && (LeftOpen(lives[0]) == None || NoneHeard(rest));
    }
  }

  // ----- what the application is left with -----

  // The transactions handled in each life, unfinished blocks included.
  function DeliveredOver(committed: int, lives: seq<Life>): seq<Bytes>
    decreases |lives|
  {
    if lives == [] then []
    else Delivered(HeardIn(lives[0], committed)) + DeliveredOver(Committed(lives[0], committed), lives[1..])
  }

  lemma {:induction false} HeardCarries(committed: int, lives: seq<Life>)
    ensures Delivered(Heard(committed, lives)) == DeliveredOver(committed, lives)
    ensures Commits(Heard(committed, lives)) == |History(committed, lives)|
    decreases |lives|
  {
    if lives != [] {
      var heard, after := HeardIn(lives[0], committed), Committed(lives[0], committed);
      LifeHeard(lives[0], committed);
      DeliveredAppend(heard, Heard(after, lives[1..]));
      CommitsAppend(heard, Heard(after, lives[1..]));
      HeardCarries(after, lives[1..]);
    }
  }

  /** An application that survives every life has hashed the accepted transactions of all of them, those of
      unfinished blocks as well, and its file counts the blocks committed in all of them. */
  lemma StateOverLives(lib: Library, s: AppState, committed: int, lives: seq<Life>)
    requires s.file == Height(committed) && AfterCalls(lib, s, Heard(committed, lives)).Some?
    ensures
      var r := AfterCalls(lib, s, Heard(committed, lives)).value;
      var txs := AcceptedTxs(lib, DeliveredOver(committed, lives));
      && r.hashed == s.hashed + HashesOf(txs)
      && TablesOf(lib, s.tables, txs) == Some(r.tables)
      && r.file == Height(committed + |History(committed, lives)|)
  {
    StateAfterCalls(lib, s, Heard(committed, lives));
    HeardCarries(committed, lives);
  }

  // ----- committed and uncommitted transactions -----

  // The transactions of the blocks committed in each life.
  function CommittedOver(committed: int, lives: seq<Life>): seq<Bytes>
    decreases |lives|
  {
    if lives == [] then [] else
    var heard := HeardIn(lives[0], committed);
    Delivered(heard[..LastCommit(heard)]) + CommittedOver(Committed(lives[0], committed), lives[1..])
  }

  // What a sequence of raw transactions adds to the hashed bytes.
  function HashedBy(lib: Library, raws: seq<Bytes>): string {
    HashesOf(AcceptedTxs(lib, raws))
  }

  lemma {:induction false} AcceptedAppend(lib: Library, a: seq<Bytes>, b: seq<Bytes>)
    ensures AcceptedTxs(lib, a + b) == AcceptedTxs(lib, a) + AcceptedTxs(lib, b)
    decreases a
  {
    if a == [] {
      assert a + b == b;
    } else {
      assert (a + b)[1..] == a[1..] + b;
      AcceptedAppend(lib, a[1..], b);
    }
  }

  lemma {:induction false} HashesAppend(a: seq<Transaction>, b: seq<Transaction>)
    ensures HashesOf(a + b) == HashesOf(a) + HashesOf(b)
    decreases a
  {
    if a == [] {
      assert a + b == b;
    } else {
      assert (a + b)[1..] == a[1..] + b;
      HashesAppend(a[1..], b);
    }
  }

  lemma {:induction false} HashedAppend(lib: Library, a: seq<Bytes>, b: seq<Bytes>)
    ensures HashedBy(lib, a + b) == HashedBy(lib, a) + HashedBy(lib, b)
  {
    AcceptedAppend(lib, a, b);
    HashesAppend(AcceptedTxs(lib, a), AcceptedTxs(lib, b));
  }

  ghost predicate NoneAccepted(lib: Library, raws: seq<Bytes>) {
    forall raw :: raw in raws ==> !Judge(lib, raw).Accepted?
  }

  // An accepted transaction's hash is never empty.
  lemma {:induction false} HashedNothingIff(lib: Library, raws: seq<Bytes>)
    ensures HashedBy(lib, raws) == "" <==> NoneAccepted(lib, raws)
    decreases raws
  {
    if raws != [] {
      HashedNothingIff(lib, raws[1..]);
      HashedAppend(lib, [raws[0]], raws[1..]);
      assert [raws[0]] + raws[1..] == raws;
      HashedOne(lib, raws[0]);
      assert forall raw :: raw in raws <==> raw == raws[0] || raw in raws[1..];
    }
  }

  lemma HashedOne(lib: Library, raw: Bytes)
    ensures HashedBy(lib, [raw]) == if Judge(lib, raw).Accepted? then Judge(lib, raw).tx.hash else ""
    ensures Judge(lib, raw).Accepted? ==> Judge(lib, raw).tx.hash != ""
  {
    assert [raw][1..] == [];
    if Judge(lib, raw).Accepted? {
      var tx := Judge(lib, raw).tx;
      HashNonempty(lib, raw);
      assert AcceptedTxs(lib, [raw]) == [tx] + [] == [tx];
      assert [tx][1..] == [] && HashesOf([]) == "";
      assert HashesOf([tx]) == tx.hash + "" == tx.hash;
    } else {
      assert AcceptedTxs(lib, [raw]) == [] + [] == [];
    }
  }

  // No transaction of the block a life leaves open is accepted.
  ghost predicate OpenIdle(lib: Library, life: Life) {
    NoneAccepted(lib, OrNone(LeftOpen(life)))
  }

  ghost predicate AllOpenIdle(lib: Library, lives: seq<Life>) {
    forall life :: life in lives ==> OpenIdle(lib, life)
  }

  lemma {:induction false} LifeHashes(lib: Library, life: Life, committed: int)
    ensures HashedBy(lib, Delivered(HeardIn(life, committed))) ==
      HashedBy(lib, CommittedTxs(life)) + HashedBy(lib, OrNone(LeftOpen(life)))
    ensures HashedBy(lib, OrNone(LeftOpen(life))) == "" <==> OpenIdle(lib, life)
  {
    var heard := HeardIn(life, committed);
    var k := LastCommit(heard);
    LifeLeaves(life, committed);
    assert heard == heard[..k] + heard[k..];
    DeliveredAppend(heard[..k], heard[k..]);
    HashedAppend(lib, CommittedTxs(life), OrNone(LeftOpen(life)));
    HashedNothingIff(lib, OrNone(LeftOpen(life)));
  }

  // What was open shows in the length.
  lemma OpenShows(some: string, open: string, moreSome: string, moreAll: string)
    requires |moreSome| <= |moreAll|
    ensures |some + moreSome| <= |(some + open) + moreAll|
    ensures open == "" && moreSome == moreAll ==> some + moreSome == (some + open) + moreAll
    ensures open != "" || |moreSome| < |moreAll| ==> |some + moreSome| < |(some + open) + moreAll|
  {
    if open == "" { assert some + open == some; }
  }

  // Whatever is hashed beyond the committed blocks shows in the length.
  ghost predicate Shows(idle: bool, some: string, all: string) {
    |some| <= |all| && (if idle then some == all else |some| < |all|)
  }

  lemma {:induction false} CommittedPart(lib: Library, committed: int, lives: seq<Life>)
    ensures Shows(AllOpenIdle(lib, lives), HashedBy(lib, CommittedOver(committed, lives)),
                  HashedBy(lib, DeliveredOver(committed, lives)))
    decreases |lives|
  {
    if lives != [] {
      var after, rest := Committed(lives[0], committed), lives[1..];
      CommittedPart(lib, after, rest);
      LifeHashes(lib, lives[0], committed);
      LifeLeaves(lives[0], committed);
      HashedAppend(lib, Delivered(HeardIn(lives[0], committed)), DeliveredOver(after, rest));
      HashedAppend(lib, CommittedTxs(lives[0]), CommittedOver(after, rest));
      OpenShows(HashedBy(lib, CommittedTxs(lives[0])), HashedBy(lib, OrNone(LeftOpen(lives[0]))),
                HashedBy(lib, CommittedOver(after, rest)), HashedBy(lib, DeliveredOver(after, rest)));
      AllIdleSplit(lib, lives);
    }
  }

  lemma AllIdleSplit(lib: Library, lives: seq<Life>)
    requires lives != []
    ensures AllOpenIdle(lib, lives) <==> OpenIdle(lib, lives[0]) && AllOpenIdle(lib, lives[1..])
  {
    assert forall life :: life in lives <==> life == lives[0] || life in lives[1..];
  }

  /**
   After any history of lives the hashed bytes - and so what the next commit returns the digest of - are
   those of the committed blocks exactly when no life leaves a block open with an accepted transaction
   in it. Which block that is depends on the lives' inputs only.
   */
  lemma {:induction false} HashIsCommittedIff(lib: Library, s: AppState, committed: int, lives: seq<Life>)
    requires AfterCalls(lib, s, Heard(committed, lives)).Some?
    ensures
      var hashed := AfterCalls(lib, s, Heard(committed, lives)).value.hashed;
      hashed == s.hashed + HashesOf(AcceptedTxs(lib, CommittedOver(committed, lives))) <==> AllOpenIdle(lib, lives)
  {
    StateAfterCalls(lib, s, Heard(committed, lives));
    HeardCarries(committed, lives);
    CommittedPart(lib, committed, lives);
  }

  // ----- a restart inside a block changes the app hash -----

  // One certificate with one batch.
  function OneBatch(batch: Bytes): Certificate {
    Certificate([([], 0)], map[([], 0) := batch])
  }

  // A life that serves it, told the height, on the given connection.
  function Serves(decode: Bytes -> Option<seq<Bytes>>, link: nat -> Answer, batch: Bytes): Life {
    Life(true, Initialized, Env(decode, link), [Cert(OneBatch(batch))])
  }

  lemma OnePlan(env: Env, batch: Bytes, raw: Bytes)
    requires env.decode(batch) == Some([raw])
    ensures PlanOf(env, OneBatch(batch).stores, OneBatch(batch).payload) == Plan([raw], true)
  {
    var cert := OneBatch(batch);
    assert BatchOf(env, cert.stores, cert.payload[0]) == Some([raw]) && cert.payload[1..] == [];
    assert PlanOf(env, cert.stores, []) == Plan([], true);
    assert [raw] + [] == [raw];
  }

  // The block is heard as far as it arrives.
  lemma {:induction false} OneBlock(life: Life, batch: Bytes, raw: Bytes, committed: int)
    requires life == Serves(life.env.decode, life.env.link, batch) && life.env.decode(batch) == Some([raw])
    ensures HeardIn(life, committed) ==
      [BeginBlock(committed + 1), DeliverTx(raw), EndBlock(committed + 1), Commit][..Arrivals(life.env.link, 0, 4)]
  {
    var certs, h := Served(life.events), committed + 1;
    LifeHears(life, committed);
    OnePlan(life.env, batch, raw);
    assert certs == [OneBatch(batch)];
    assert Block(h, Plan([raw], true)) == [BeginBlock(h), DeliverTx(raw), EndBlock(h), Commit];
    assert HeardFrom(life.env, h, 4, certs[1..]) == [];
  }

  // The calls of one block with one transaction, up to the EndBlock or all of them.
  lemma OneBlockCarries(h: int, raw: Bytes)
    ensures Commits([BeginBlock(h), DeliverTx(raw)]) == 0
    ensures Commits([BeginBlock(h), DeliverTx(raw), EndBlock(h), Commit]) == 1
  {
    var begin, tail := [BeginBlock(h), DeliverTx(raw)], [EndBlock(h), Commit];
    assert begin[1..] == [DeliverTx(raw)] && [DeliverTx(raw)][1..] == [];
    assert tail[1..] == [Commit] && [Commit][1..] == [];
    assert begin + tail == [BeginBlock(h), DeliverTx(raw), EndBlock(h), Commit];
    CommitsAppend(begin, tail);
  }

  lemma OneBlockState(lib: Library, s: AppState, h: int, raw: Bytes)
    requires AfterTx(lib, s, raw).Some? && s.file.Height?
    ensures
      var s' := AfterTx(lib, s, raw).value.0;
      && AfterCalls(lib, s, [BeginBlock(h), DeliverTx(raw)]) == Some(s') && s'.file == s.file
      && AfterCalls(lib, s, [BeginBlock(h), DeliverTx(raw), EndBlock(h), Commit]) ==
           Some(s'.(file := Height(s.file.h + 1)))
  {
    var s', begin, tail := AfterTx(lib, s, raw).value.0, [BeginBlock(h), DeliverTx(raw)], [EndBlock(h), Commit];
    assert begin[1..] == [DeliverTx(raw)] && [DeliverTx(raw)][1..] == [] && AfterCalls(lib, s', []) == Some(s');
    assert AfterCalls(lib, s, [DeliverTx(raw)]) == Some(s');
    assert begin + tail == [BeginBlock(h), DeliverTx(raw), EndBlock(h), Commit];
    CallsAppend(lib, s, begin, tail);
    var t := s'.(file := Height(s.file.h + 1));
    assert tail[1..] == [Commit] && [Commit][1..] == [] && AfterCalls(lib, t, []) == Some(t);
    assert AfterCalls(lib, s', [Commit]) == Some(t);
  }

  // Two lives on the same certificate: the first loses the EndBlock, the second is answered.
  lemma TwoLives(decode: Bytes -> Option<seq<Bytes>>, batch: Bytes, raw: Bytes, h: int)
      returns (lost: Life, whole: Life)
    requires decode(batch) == Some([raw])
    ensures lost == Serves(decode, lost.env.link, batch) && whole == Serves(decode, whole.env.link, batch)
    ensures HeardIn(lost, h) == [BeginBlock(h + 1), DeliverTx(raw)]
    ensures HeardIn(whole, h) == [BeginBlock(h + 1), DeliverTx(raw), EndBlock(h + 1), Commit]
  {
    lost := Serves(decode, (n: nat) => if n == 2 then LostBefore else Answered, batch);
    whole := Serves(decode, (n: nat) => Answered, batch);
    var block := [BeginBlock(h + 1), DeliverTx(raw), EndBlock(h + 1), Commit];
    OneBlock(lost, batch, raw, h);
    OneBlock(whole, batch, raw, h);
    AllArriveIff(whole.env.link, 0, 4);
    ArrivalsOfLost(lost.env.link);
    assert block[..2] == [BeginBlock(h + 1), DeliverTx(raw)] && block[..4] == block;
  }

  lemma ArrivalsOfLost(link: nat -> Answer)
    requires link(0).Answered? && link(1).Answered? && link(2).LostBefore?
    ensures Arrivals(link, 0, 4) == 2
  {
    assert Arrivals(link, 2, 2) == 0 && Arrivals(link, 1, 3) == 1;
  }

  lemma {:induction false} HistoryOfTwo(lost: Life, whole: Life, h: int, raw: Bytes)
    requires HeardIn(lost, h) == [BeginBlock(h + 1), DeliverTx(raw)]
    requires HeardIn(whole, h) == [BeginBlock(h + 1), DeliverTx(raw), EndBlock(h + 1), Commit]
    requires whole.infoAnswered
    ensures History(h, [whole]) == [h + 1] && Heard(h, [whole]) == HeardIn(whole, h)
    ensures History(h, [lost, whole]) == [h + 1] && Heard(h, [lost, whole]) == HeardIn(lost, h) + HeardIn(whole, h)
  {
    OneBlockCarries(h + 1, raw);
    LifeHeard(lost, h);
    LifeHeard(whole, h);
    assert HeightsOf(lost, h) == [] && HeightsOf(whole, h) == [h + 1];
    assert [whole][1..] == [] && [lost, whole][1..] == [whole];
    assert History(h + 1, []) == [] && Heard(h + 1, []) == [];
  }

  /**
   The failing case, from any height and for any accepted transaction that can be handled twice. One replica
   serves a certificate in one life; another loses the EndBlock, restarts from the reported height and serves
   it again. Both survive and commit the same heights, but they have hashed different bytes.
   */
  lemma RestartChangesHash(lib: Library, s: AppState, decode: Bytes -> Option<seq<Bytes>>, batch: Bytes, raw: Bytes)
      returns (lost: Life, whole: Life)
    requires s.file.Height? && decode(batch) == Some([raw]) && Judge(lib, raw).Accepted?
    requires AfterCalls(lib, s, [DeliverTx(raw), DeliverTx(raw)]).Some?
    ensures lost.infoAnswered && whole.infoAnswered && lost.events == whole.events
    ensures History(s.file.h, [lost, whole]) == History(s.file.h, [whole]) == [s.file.h + 1]
    ensures
      var twice := AfterCalls(lib, s, Heard(s.file.h, [lost, whole]));
      var once := AfterCalls(lib, s, Heard(s.file.h, [whole]));
      twice.Some? && once.Some? && twice.value.file == once.value.file && twice.value.hashed != once.value.hashed
  {
    var h := s.file.h;
    lost, whole := TwoLives(decode, batch, raw, h);
    HistoryOfTwo(lost, whole, h, raw);
    assert [DeliverTx(raw), DeliverTx(raw)][1..] == [DeliverTx(raw)];
    var s1 := AfterTx(lib, s, raw).value.0;
    OneCall(lib, s1, DeliverTx(raw));
    OneBlockState(lib, s, h + 1, raw);
    OneBlockState(lib, s1, h + 1, raw);
    CallsAppend(lib, s, HeardIn(lost, h), HeardIn(whole, h));
    HashedOne(lib, raw);
    assert |AfterTx(lib, s1, raw).value.0.hashed| == |s1.hashed| + |Judge(lib, raw).tx.hash|;
  }
}
