/** The consensus connection of an ABCI application, as both crates see it. */
module Abci {

  import opened Options

  type Byte = bv8
  type Bytes = seq<Byte>

  datatype Call = BeginBlock(height: int) | DeliverTx(tx: Bytes) | EndBlock(height: int) | Commit

  // ----- the call grammar -----

  datatype Phase = Idle(height: int) | Open(height: int) | Ended(height: int)

  // What may follow what: BeginBlock(h + 1), DeliverTx*, EndBlock(h + 1), Commit, and so on from h.
  function Advance(p: Phase, c: Call): Option<Phase> {
    match (p, c)
    case (Idle(h), BeginBlock(g)) => if g == h + 1 then Some(Open(g)) else None
    case (Open(h), DeliverTx(_)) => Some(p)
    case (Open(h), EndBlock(g)) => if g == h then Some(Ended(h)) else None
    case (Ended(h), Commit) => Some(Idle(h))
    case _ => None
  }

  /** The phase after a sequence of calls, None when the sequence breaks the grammar. */
  function Accept(p: Phase, calls: seq<Call>): Option<Phase>
    decreases calls
  {
    if calls == [] then Some(p)
    else match Advance(p, calls[0])
      case None => None
      case Some(q) => Accept(q, calls[1..])
  }

  lemma {:induction false} AcceptAppend(p: Phase, a: seq<Call>, b: seq<Call>)
    requires Accept(p, a).Some?
    ensures Accept(p, a + b) == Accept(Accept(p, a).value, b)
    decreases a
  {
    if a == [] {
      assert a + b == b;
    } else {
      assert (a + b)[1..] == a[1..] + b;
      AcceptAppend(Advance(p, a[0]).value, a[1..], b);
    }
  }

  // A prefix of an accepted sequence is accepted.
  lemma {:induction false} AcceptPrefix(p: Phase, a: seq<Call>, k: nat)
    requires k <= |a| && Accept(p, a).Some?
    ensures Accept(p, a[..k]).Some?
    decreases a
  {
    if k > 0 {
      assert a[..k][1..] == a[1..][..k - 1];
      AcceptPrefix(Advance(p, a[0]).value, a[1..], k - 1);
    }
  }

  // ----- the grammar as the blocks it generates -----

  function Deliveries(txs: seq<Bytes>): seq<Call> {
    if txs == [] then [] else [DeliverTx(txs[0])] + Deliveries(txs[1..])
  }

  // Complete blocks on top of height h, one for each list of transactions.
  function WholeBlocks(h: int, blocks: seq<seq<Bytes>>): seq<Call>
    decreases |blocks|, 0
  {
    if blocks == [] then [] else [BeginBlock(h + 1)] + RestOfBlock(h + 1, blocks[0], blocks[1..])
  }

  // What follows the BeginBlock of height h.
  function RestOfBlock(h: int, txs: seq<Bytes>, blocks: seq<seq<Bytes>>): seq<Call>
    decreases |blocks|, 1
  {
    Deliveries(txs) + ([EndBlock(h), Commit] + WholeBlocks(h, blocks))
  }

  lemma {:induction false} DeliveriesAccepted(h: int, txs: seq<Bytes>)
    ensures Accept(Open(h), Deliveries(txs)) == Some(Open(h))
    decreases txs
  {
    if txs != [] {
      assert ([DeliverTx(txs[0])] + Deliveries(txs[1..]))[1..] == Deliveries(txs[1..]);
      DeliveriesAccepted(h, txs[1..]);
    }
  }

  lemma {:induction false} BlocksAccepted(h: int, blocks: seq<seq<Bytes>>)
    ensures Accept(Idle(h), WholeBlocks(h, blocks)) == Some(Idle(h + |blocks|))
    decreases blocks
  {
    if blocks != [] {
      var rest := RestOfBlock(h + 1, blocks[0], blocks[1..]);
      var after := WholeBlocks(h + 1, blocks[1..]);
      assert WholeBlocks(h, blocks)[1..] == rest;
      DeliveriesAccepted(h + 1, blocks[0]);
      AcceptAppend(Open(h + 1), Deliveries(blocks[0]), [EndBlock(h + 1), Commit] + after);
      assert ([EndBlock(h + 1), Commit] + after)[1..] == [Commit] + after && ([Commit] + after)[1..] == after;
      BlocksAccepted(h + 1, blocks[1..]);
    }
  }

  lemma {:induction false} IdleForm(h: int, calls: seq<Call>) returns (blocks: seq<seq<Bytes>>)
    requires Accept(Idle(h), calls).Some?
    ensures calls <= WholeBlocks(h, blocks)
    decreases calls
  {
    if calls == [] {
      blocks := [];
    } else {
      var txs, more := OpenForm(h + 1, calls[1..]);
      blocks := [txs] + more;
      assert blocks[1..] == more && calls == [calls[0]] + calls[1..];
    }
  }

  lemma {:induction false} OpenForm(h: int, calls: seq<Call>) returns (txs: seq<Bytes>, blocks: seq<seq<Bytes>>)
    requires Accept(Open(h), calls).Some?
    ensures calls <= RestOfBlock(h, txs, blocks)
    decreases calls
  {
    if calls == [] {
      txs, blocks := [], [];
    } else if calls[0].DeliverTx? {
      var others;
      others, blocks := OpenForm(h, calls[1..]);
      txs := [calls[0].tx] + others;
      assert txs[1..] == others && calls == [calls[0]] + calls[1..];
      assert RestOfBlock(h, txs, blocks) == [calls[0]] + RestOfBlock(h, others, blocks);
    } else {
      txs := [];
      blocks := EndedForm(h, calls[1..]);
      assert calls == [calls[0]] + calls[1..];
      assert RestOfBlock(h, txs, blocks) == [EndBlock(h)] + ([Commit] + WholeBlocks(h, blocks));
    }
  }

  lemma {:induction false} EndedForm(h: int, calls: seq<Call>) returns (blocks: seq<seq<Bytes>>)
    requires Accept(Ended(h), calls).Some?
    ensures calls <= [Commit] + WholeBlocks(h, blocks)
    decreases calls
  {
    if calls == [] {
      blocks := [];
    } else {
      blocks := IdleForm(h, calls[1..]);
      assert calls == [Commit] + calls[1..];
    }
  }

  /** The grammar accepts exactly the beginnings of sequences of complete blocks with heights rising by one. */
  lemma AcceptedIff(h: int, calls: seq<Call>)
    ensures Accept(Idle(h), calls).Some? <==> exists blocks :: calls <= WholeBlocks(h, blocks)
  {
    if Accept(Idle(h), calls).Some? {
      var blocks := IdleForm(h, calls);
    }
    forall blocks | calls <= WholeBlocks(h, blocks)
      ensures Accept(Idle(h), calls).Some?
    {
      BlocksAccepted(h, blocks);
      AcceptPrefix(Idle(h), WholeBlocks(h, blocks), |calls|);
      assert calls == WholeBlocks(h, blocks)[..|calls|];
    }
  }

  // ----- what a sequence of calls carries -----

  function Delivered(calls: seq<Call>): seq<Bytes> {
    if calls == [] then [] else
    (if calls[0].DeliverTx? then [calls[0].tx] else []) + Delivered(calls[1..])
  }

  function Commits(calls: seq<Call>): nat {
    if calls == [] then 0 else (if calls[0].Commit? then 1 else 0) + Commits(calls[1..])
  }

  lemma {:induction false} DeliveredAppend(a: seq<Call>, b: seq<Call>)
    ensures Delivered(a + b) == Delivered(a) + Delivered(b)
  {
    if a == [] {
      assert a + b == b;
    } else {
      var head := if a[0].DeliverTx? then [a[0].tx] else [];
      assert (a + b)[1..] == a[1..] + b && (a + b)[0] == a[0];
      DeliveredAppend(a[1..], b);
      Associate(head, Delivered(a[1..]), Delivered(b));
    }
  }

  lemma Associate(a: seq<Bytes>, b: seq<Bytes>, c: seq<Bytes>)
    ensures a + (b + c) == (a + b) + c
  {
  }

  lemma {:induction false} CommitsAppend(a: seq<Call>, b: seq<Call>)
    ensures Commits(a + b) == Commits(a) + Commits(b)
  {
    if a == [] {
      assert a + b == b;
    } else {
      assert (a + b)[1..] == a[1..] + b;
      CommitsAppend(a[1..], b);
    }
  }

  // The heights at which Commit is processed, given the phase the calls start from.
  function CommittedHeights(p: Phase, calls: seq<Call>): seq<int>
    requires Accept(p, calls).Some?
    decreases calls
  {
    if calls == [] then [] else
    var q := Advance(p, calls[0]).value;
    (if calls[0].Commit? then [q.height] else []) + CommittedHeights(q, calls[1..])
  }

  // The height committed so far in a phase.
  function Settled(p: Phase): int {
    if p.Idle? then p.height else p.height - 1
  }

  function From(h: int, n: nat): seq<int> {
    seq(n, i => h + 1 + i)
  }

  /** In any accepted sequence the committed heights rise one by one. */
  lemma {:induction false} CommittedConsecutive(p: Phase, calls: seq<Call>)
    requires Accept(p, calls).Some?
    ensures CommittedHeights(p, calls) == From(Settled(p), Commits(calls))
    ensures Settled(Accept(p, calls).value) == Settled(p) + Commits(calls)
    decreases calls
  {
    if calls != [] {
      var q, n := Advance(p, calls[0]).value, Commits(calls[1..]);
      CommittedConsecutive(q, calls[1..]);
      if calls[0].Commit? {
        assert From(Settled(p), n + 1) == [q.height] + From(Settled(q), n);
      }
    }
  }
}
