/** What the application's tables, running hash and height file are after any calls. */
module AppProperties {

  import opened Options
  import opened Field
  import opened FeltText
  import opened Abci
  import opened Transactions
  import opened StarknetApp

  // ----- the accepted transactions -----

  function AcceptedTxs(lib: Library, raws: seq<Bytes>): seq<Transaction> {
    if raws == [] then []
    else (match Judge(lib, raws[0]) case Accepted(tx) => [tx] case _ => []) + AcceptedTxs(lib, raws[1..])
  }

  function HashesOf(txs: seq<Transaction>): string {
    if txs == [] then "" else txs[0].hash + HashesOf(txs[1..])
  }

  // The tables as a fold, None once a transaction panics.
  function TablesOf(lib: Library, t: Tables, txs: seq<Transaction>): Option<Tables>
    decreases txs
  {
    if txs == [] then Some(t)
    else if !ComputeAndHash(lib, txs[0].kind).Done? then None
    else match ApplyKind(lib, t, txs[0].kind)
      case None => None
      case Some(t') => TablesOf(lib, t', txs[1..])
  }

  /**
   After any calls that do not crash: the hashed bytes are the hashes of all accepted transactions in
   order, the tables are the fold of those transactions, and the height file counts the commits.
   Rejected transactions and block boundaries contribute nothing.
   */
  lemma {:induction false} StateAfterCalls(lib: Library, s: AppState, calls: seq<Call>)
    requires AfterCalls(lib, s, calls).Some?
    ensures
      var r, txs := AfterCalls(lib, s, calls).value, AcceptedTxs(lib, Delivered(calls));
      && r.hashed == s.hashed + HashesOf(txs)
      && TablesOf(lib, s.tables, txs) == Some(r.tables)
      && (s.file.Height? ==> r.file == Height(s.file.h + Commits(calls)))
      && (!s.file.Height? ==> Commits(calls) == 0 && r.file == s.file)
    decreases calls
  {
    if calls != [] {
      var s' := AfterCall(lib, s, calls[0]).value.0;
      StateAfterCalls(lib, s', calls[1..]);
      AcceptedStep(lib, calls);
      FoldStep(lib, s, calls[0], AcceptedTxs(lib, Delivered(calls[1..])));
    }
  }

  // The transaction a call contributes.
  function AcceptedBy(lib: Library, c: Call): seq<Transaction> {
    if c.DeliverTx? && Judge(lib, c.tx).Accepted? then [Judge(lib, c.tx).tx] else []
  }

  lemma AcceptedStep(lib: Library, calls: seq<Call>)
    requires calls != []
    ensures AcceptedTxs(lib, Delivered(calls)) ==
      AcceptedBy(lib, calls[0]) + AcceptedTxs(lib, Delivered(calls[1..]))
  {
    var rest := Delivered(calls[1..]);
    if calls[0].DeliverTx? {
      assert Delivered(calls) == [calls[0].tx] + rest && ([calls[0].tx] + rest)[1..] == rest;
    } else {
      assert Delivered(calls) == rest;
    }
  }

  lemma FoldStep(lib: Library, s: AppState, c: Call, txs: seq<Transaction>)
    requires AfterCall(lib, s, c).Some?
    ensures var s' := AfterCall(lib, s, c).value.0;
      && TablesOf(lib, s.tables, AcceptedBy(lib, c) + txs) == TablesOf(lib, s'.tables, txs)
      && s.hashed + HashesOf(AcceptedBy(lib, c) + txs) == s'.hashed + HashesOf(txs)
  {
    var mine, s' := AcceptedBy(lib, c), AfterCall(lib, s, c).value.0;
    if mine == [] {
      assert mine + txs == txs;
      assert s'.hashed == s.hashed && s'.tables == s.tables;
    } else {
      var tx := mine[0];
      UnfoldOne(lib, s.tables, tx, txs);
      assert mine == [tx] && s'.hashed == s.hashed + tx.hash;
      Associate(s.hashed, tx.hash, HashesOf(txs));
    }
  }

  lemma Associate(a: string, b: string, c: string)
    ensures a + (b + c) == (a + b) + c
  {
  }

  lemma UnfoldOne(lib: Library, t: Tables, tx: Transaction, txs: seq<Transaction>)
    requires ComputeAndHash(lib, tx.kind).Done? && ApplyKind(lib, t, tx.kind).Some?
    ensures TablesOf(lib, t, [tx] + txs) == TablesOf(lib, ApplyKind(lib, t, tx.kind).value, txs)
    ensures HashesOf([tx] + txs) == tx.hash + HashesOf(txs)
  {
    assert ([tx] + txs)[1..] == txs;
  }

  /** An application started with its height file, or without one, reports the file's height, or 0, plus the
      commits since. */
  lemma ReportsCommits(lib: Library, disk: HeightFile, calls: seq<Call>)
    requires ReadOrCreate(disk).Some?
    requires AfterCalls(lib, AppState(NO_TABLES, "", ReadOrCreate(disk).value.0), calls).Some?
    ensures
      var r := AfterCalls(lib, AppState(NO_TABLES, "", ReadOrCreate(disk).value.0), calls).value;
      ReadOrCreate(r.file).Some? &&
      ReadOrCreate(r.file).value.1 == (if disk.Missing? then 0 else disk.h) + Commits(calls)
  {
    StateAfterCalls(lib, AppState(NO_TABLES, "", ReadOrCreate(disk).value.0), calls);
  }

  /** Any commit returns the digest of the hashes accepted so far. */
  lemma CommitReturnsDigest(lib: Library, s: AppState, before: seq<Call>)
    requires AfterCalls(lib, s, before).Some? && AfterCall(lib, AfterCalls(lib, s, before).value, Commit).Some?
    ensures AfterCall(lib, AfterCalls(lib, s, before).value, Commit).value.1 ==
      AppHash(lib.sha256(s.hashed + HashesOf(AcceptedTxs(lib, Delivered(before)))))
  {
    StateAfterCalls(lib, s, before);
  }

  /** Replicas that start alike and are fed the same transactions, cut into blocks in any two ways,
      end with the same tables and return the same app hash. */
  lemma ReplicasAgree(lib: Library, s0: AppState, calls0: seq<Call>, s1: AppState, calls1: seq<Call>)
    requires s0.tables == s1.tables && s0.hashed == s1.hashed && Delivered(calls0) == Delivered(calls1)
    requires AfterCalls(lib, s0, calls0).Some? && AfterCalls(lib, s1, calls1).Some?
    ensures
      var r0, r1 := AfterCalls(lib, s0, calls0).value, AfterCalls(lib, s1, calls1).value;
      && r0.tables == r1.tables && r0.hashed == r1.hashed
      && (AfterCall(lib, r0, Commit).Some? && AfterCall(lib, r1, Commit).Some? ==>
            AfterCall(lib, r0, Commit).value.1 == AfterCall(lib, r1, Commit).value.1)
  {
    StateAfterCalls(lib, s0, calls0);
    StateAfterCalls(lib, s1, calls1);
  }

  // ----- invocations -----

  predicate RunsInvoke(lib: Library, c: Call) {
    c.DeliverTx? && Judge(lib, c.tx).Accepted? && Judge(lib, c.tx).tx.kind.Invoke?
  }

  function WithoutInvokes(lib: Library, calls: seq<Call>): seq<Call> {
    if calls == [] then []
    else (if RunsInvoke(lib, calls[0]) then [] else [calls[0]]) + WithoutInvokes(lib, calls[1..])
  }

  // The same state but for the running hash.
  predicate SameTables(s: AppState, s': AppState) {
    s.tables == s'.tables && s.file == s'.file
  }

  /** Deleting every accepted Invoke leaves tables and heights as they are, and shortens the hashed
      bytes exactly when there was one. */
  lemma {:induction false} InvokesTouchOnlyTheHash(lib: Library, s: AppState, t: AppState, calls: seq<Call>)
    requires SameTables(s, t) && AfterCalls(lib, s, calls).Some?
    ensures AfterCalls(lib, t, WithoutInvokes(lib, calls)).Some?
    ensures
      var r, r' := AfterCalls(lib, s, calls).value, AfterCalls(lib, t, WithoutInvokes(lib, calls)).value;
      && SameTables(r, r')
      && |r'.hashed| - |t.hashed| <= |r.hashed| - |s.hashed|
      && (|r'.hashed| - |t.hashed| == |r.hashed| - |s.hashed| <==>
            forall c :: c in calls ==> !RunsInvoke(lib, c))
    decreases calls
  {
    if calls != [] {
      var c, rest := calls[0], calls[1..];
      var s' := AfterCall(lib, s, c).value.0;
      assert forall d :: d in calls <==> d == c || d in rest;
      if RunsInvoke(lib, c) {
        InvokesTouchOnlyTheHash(lib, s', t, rest);
        assert WithoutInvokes(lib, calls) == WithoutInvokes(lib, rest);
        HashNonempty(lib, c.tx);
      } else {
        var t' := AfterCall(lib, t, c).value.0;
        InvokesTouchOnlyTheHash(lib, s', t', rest);
        assert WithoutInvokes(lib, calls)[1..] == WithoutInvokes(lib, rest);
      }
    }
  }

  lemma HashNonempty(lib: Library, raw: Bytes)
    requires Judge(lib, raw).Accepted?
    ensures |Judge(lib, raw).tx.hash| > 0
  {
  }

  // ----- declare, deploy, invoke -----

  // What is assumed of the library: its reader of class hashes agrees with the parser where both
  // succeed, and deploying stores unless the address is taken.
  ghost predicate Lawful(lib: Library) {
    && (forall text :: lib.stringToHash(text).Some? && ArgumentFelt(text).Done? ==>
          lib.stringToHash(text).value == ArgumentFelt(text).value)
    && (forall m, a, c :: lib.deploy(m, a, c) == m[a := c] || (a in m && lib.deploy(m, a, c) == m))
  }

  ghost predicate IsAddressOf(lib: Library, a: Felt, c: Felt) {
    exists f, d :: lib.contractAddress(f, c, d, 0) == Some(a)
  }

  // Every class is filed under its own hash, every contract under an address computed from its class.
  ghost predicate Consistent(lib: Library, t: Tables) {
    && (forall h :: h in t.classes ==> lib.classHash(t.classes[h]) == Some(h))
    && (forall a :: a in t.contracts ==> IsAddressOf(lib, a, t.contracts[a]))
  }

  ghost predicate Grows(t: Tables, t': Tables) {
    t.classes.Keys <= t'.classes.Keys && t.contracts.Keys <= t'.contracts.Keys
  }

  lemma ApplyKeepsConsistent(lib: Library, t: Tables, kind: TransactionType)
    requires Lawful(lib) && Consistent(lib, t)
    requires ComputeAndHash(lib, kind).Done? && ApplyKind(lib, t, kind).Some?
    ensures Consistent(lib, ApplyKind(lib, t, kind).value) && Grows(t, ApplyKind(lib, t, kind).value)
  {
    if kind.DeployAccount? {
      var c := ArgumentFelt(kind.classHash).value;
      var a := DeployAddress(lib, c, kind.salt, kind.inputs).value;
      assert lib.contractAddress(FeltOf(kind.salt), c, Calldata(kind.inputs), 0) == Some(a);
      assert IsAddressOf(lib, a, c);
    }
  }

  lemma {:induction false} RunKeepsConsistent(lib: Library, s: AppState, calls: seq<Call>)
    requires Lawful(lib) && Consistent(lib, s.tables)
    requires AfterCalls(lib, s, calls).Some?
    ensures Consistent(lib, AfterCalls(lib, s, calls).value.tables)
    ensures Grows(s.tables, AfterCalls(lib, s, calls).value.tables)
    decreases calls
  {
    if calls != [] {
      var s' := AfterCall(lib, s, calls[0]).value.0;
      if calls[0].DeliverTx? && Judge(lib, calls[0].tx).Accepted? {
        assert calls[0] in calls;
        ApplyKeepsConsistent(lib, s.tables, Judge(lib, calls[0].tx).tx.kind);
      }
      assert Consistent(lib, s'.tables) && Grows(s.tables, s'.tables);
      RunKeepsConsistent(lib, s', calls[1..]);
    }
  }

  // An accepted call declares a class under a hash.
  predicate Declares(lib: Library, c: Call, hash: string) {
    c.DeliverTx? && Judge(lib, c.tx).Accepted? && Judge(lib, c.tx).tx.hash == hash && Judge(lib, c.tx).tx.kind.Declare?
  }

  // ... or deploys a contract under one.
  predicate Deploys(lib: Library, c: Call, hash: string) {
    c.DeliverTx? && Judge(lib, c.tx).Accepted? && Judge(lib, c.tx).tx.hash == hash &&
    Judge(lib, c.tx).tx.kind.DeployAccount?
  }

  // The class of the last declare under the identifier of h, `start` when there is none.
  function LastDeclared(lib: Library, start: Option<ContractClass>, calls: seq<Call>, h: Felt): Option<ContractClass>
    decreases calls
  {
    if calls == [] then start
    else LastDeclared(lib, if Declares(lib, calls[0], Identifier(h))
                           then lib.parseClass(Judge(lib, calls[0].tx).tx.kind.program) else start, calls[1..], h)
  }

  // Every deploy among the calls that yields the address is of class hash h.
  ghost predicate NoRivalContract(lib: Library, calls: seq<Call>, address: Felt, h: Felt) {
    forall c :: c in calls && Deploys(lib, c, Identifier(address)) ==>
      ArgumentFelt(Judge(lib, c.tx).tx.kind.classHash) == Done(h)
  }

  function Filed(t: Tables, h: Felt): Option<ContractClass> {
    if h in t.classes then Some(t.classes[h]) else None
  }

  ghost predicate ContractIfAny(t: Tables, address: Felt, h: Felt) {
    address in t.contracts ==> t.contracts[address] == h
  }

  /** After any calls a class hash leads to the class last declared under its identifier. */
  lemma {:induction false} FiledIsLastDeclared(lib: Library, s: AppState, calls: seq<Call>, h: Felt)
    requires AfterCalls(lib, s, calls).Some?
    ensures Filed(AfterCalls(lib, s, calls).value.tables, h) == LastDeclared(lib, Filed(s.tables, h), calls, h)
    decreases calls
  {
    if calls != [] {
      FiledStep(lib, s, calls[0], h);
      FiledIsLastDeclared(lib, AfterCall(lib, s, calls[0]).value.0, calls[1..], h);
    }
  }

  lemma FiledStep(lib: Library, s: AppState, c: Call, h: Felt)
    requires AfterCall(lib, s, c).Some?
    ensures Filed(AfterCall(lib, s, c).value.0.tables, h) ==
      if Declares(lib, c, Identifier(h)) then lib.parseClass(Judge(lib, c.tx).tx.kind.program) else Filed(s.tables, h)
  {
    if c.DeliverTx? && Judge(lib, c.tx).Accepted? && Judge(lib, c.tx).tx.kind.Declare? {
      var class_ := lib.parseClass(Judge(lib, c.tx).tx.kind.program).value;
      if Declares(lib, c, Identifier(h)) { IdentifierInjective(lib.classHash(class_).value, h); }
    }
  }

  lemma {:induction false} ContractStays(lib: Library, s: AppState, calls: seq<Call>, address: Felt, h: Felt)
    requires Lawful(lib) && NoRivalContract(lib, calls, address, h) && ContractIfAny(s.tables, address, h)
    requires AfterCalls(lib, s, calls).Some?
    ensures ContractIfAny(AfterCalls(lib, s, calls).value.tables, address, h)
    decreases calls
  {
    if calls != [] {
      var s' := AfterCall(lib, s, calls[0]).value.0;
      assert calls[0] in calls;
      assert ContractIfAny(s'.tables, address, h) by {
        if calls[0].DeliverTx? && Judge(lib, calls[0].tx).Accepted? && Judge(lib, calls[0].tx).tx.kind.DeployAccount? {
          assert Deploys(lib, calls[0], Judge(lib, calls[0].tx).tx.hash);
          IdentifierOfDeploy(lib, Judge(lib, calls[0].tx).tx);
        }
      }
      ContractStays(lib, s', calls[1..], address, h);
    }
  }

  lemma {:induction false} ContractsGrow(lib: Library, s: AppState, calls: seq<Call>)
    requires Lawful(lib) && AfterCalls(lib, s, calls).Some?
    ensures s.tables.contracts.Keys <= AfterCalls(lib, s, calls).value.tables.contracts.Keys
    decreases calls
  {
    if calls != [] {
      ContractsGrow(lib, AfterCall(lib, s, calls[0]).value.0, calls[1..]);
    }
  }

  lemma IdentifierOfDeploy(lib: Library, tx: Transaction)
    requires tx.kind.DeployAccount? && ComputeAndHash(lib, tx.kind) == Done(tx.hash)
    ensures ArgumentFelt(tx.kind.classHash).Done?
    ensures
      var a := DeployAddress(lib, ArgumentFelt(tx.kind.classHash).value, tx.kind.salt, tx.kind.inputs);
      a.Some? && tx.hash == Identifier(a.value)
  {
  }

  /**
   The hash string of an accepted Declare, used as class_hash, and the hash string of that accepted
   deploy, used as address, make an invocation run on the deployed contract under that class hash,
   whatever else is delivered before, between and after them, as long as every deploy under that address
   in the run - this one included - reads its class_hash as that of the declare. The class found there is
   the declared one exactly when the last declare that follows under the same hash string, if there is
   any, declares the same class.
   */
  lemma DeclareDeployInvoke(lib: Library, s0: AppState, calls1: seq<Call>, declare: Bytes,
                            calls2: seq<Call>, deploy: Bytes, calls3: seq<Call>, h: Felt, address: Felt,
                            function_: string, inputs: Option<seq<Int32>>)
    requires Lawful(lib) && Declares(lib, DeliverTx(declare), Identifier(h))
    requires Deploys(lib, DeliverTx(deploy), Identifier(address))
    requires
      var run := calls1 + [DeliverTx(declare)] + (calls2 + [DeliverTx(deploy)] + calls3);
      && AfterCalls(lib, s0, run).Some?
      && NoRivalContract(lib, run, address, h) && ContractIfAny(s0.tables, address, h)
    ensures
      var later := calls2 + [DeliverTx(deploy)] + calls3;
      var t := AfterCalls(lib, s0, calls1 + [DeliverTx(declare)] + later).value.tables;
      var class_ := lib.parseClass(Judge(lib, declare).tx.kind.program);
      && RunInvoke(lib, t, Identifier(address), function_, inputs) ==
           Done(lib.execute(t, Invocation(address, h, function_, Calldata(inputs))).1)
      && (Filed(t, h) == class_ <==> LastDeclared(lib, class_, later, h) == class_)
  {
    var later := calls2 + [DeliverTx(deploy)] + calls3;
    var run, before := calls1 + [DeliverTx(declare)] + later, calls1 + [DeliverTx(declare)] + calls2;
    ClassAtEnd(lib, s0, calls1, declare, later, h);
    AssociateRun(calls1 + [DeliverTx(declare)], calls2, [DeliverTx(deploy)], calls3);
    ContractAtEnd(lib, s0, run, before, deploy, calls3, address, h);
    IdentifierIsArgument(address);
  }

  lemma AssociateRun(a: seq<Call>, b: seq<Call>, c: seq<Call>, d: seq<Call>)
    ensures a + (b + c + d) == (a + b) + c + d
  {
  }

  lemma {:induction false} ClassAtEnd(lib: Library, s: AppState, before: seq<Call>, declare: Bytes, later: seq<Call>,
                                      h: Felt)
    requires Declares(lib, DeliverTx(declare), Identifier(h))
    requires AfterCalls(lib, s, before + [DeliverTx(declare)] + later).Some?
    ensures
      var t := AfterCalls(lib, s, before + [DeliverTx(declare)] + later).value.tables;
      && h in t.classes
      && Filed(t, h) == LastDeclared(lib, lib.parseClass(Judge(lib, declare).tx.kind.program), later, h)
  {
    CallsAppend(lib, s, before + [DeliverTx(declare)], later);
    CallsAppend(lib, s, before, [DeliverTx(declare)]);
    var s1 := AfterCalls(lib, s, before).value;
    OneCall(lib, s1, DeliverTx(declare));
    FiledStep(lib, s1, DeliverTx(declare), h);
    var s2 := AfterCall(lib, s1, DeliverTx(declare)).value.0;
    FiledIsLastDeclared(lib, s2, later, h);
    LastDeclaredSome(lib, Filed(s2.tables, h), later, h);
  }

  lemma {:induction false} LastDeclaredSome(lib: Library, start: Option<ContractClass>, calls: seq<Call>, h: Felt)
    requires start.Some?
    ensures LastDeclared(lib, start, calls, h).Some?
    decreases calls
  {
    if calls != [] {
      LastDeclaredSome(lib, if Declares(lib, calls[0], Identifier(h))
                            then lib.parseClass(Judge(lib, calls[0].tx).tx.kind.program) else start, calls[1..], h);
    }
  }

  lemma {:induction false} ContractAtEnd(lib: Library, s: AppState, run: seq<Call>, before: seq<Call>, deploy: Bytes,
                                         later: seq<Call>, address: Felt, h: Felt)
    requires Lawful(lib) && Deploys(lib, DeliverTx(deploy), Identifier(address))
    requires run == before + [DeliverTx(deploy)] + later && AfterCalls(lib, s, run).Some?
    requires NoRivalContract(lib, run, address, h) && ContractIfAny(s.tables, address, h)
    ensures
      var t := AfterCalls(lib, s, run).value.tables;
      address in t.contracts && t.contracts[address] == h
  {
    var upTo := before + [DeliverTx(deploy)];
    ContractStays(lib, s, run, address, h);
    CallsAppend(lib, s, upTo, later);
    CallsAppend(lib, s, before, [DeliverTx(deploy)]);
    var s1, s2 := AfterCalls(lib, s, before).value, AfterCalls(lib, s, upTo).value;
    DeployStores(lib, s1, deploy, address, s2);
    ContractsGrow(lib, s2, later);
  }

  lemma DeployStores(lib: Library, s: AppState, deploy: Bytes, address: Felt, s': AppState)
    requires Lawful(lib) && Deploys(lib, DeliverTx(deploy), Identifier(address))
    requires AfterCalls(lib, s, [DeliverTx(deploy)]) == Some(s')
    ensures address in s'.tables.contracts
  {
    var tx := Judge(lib, deploy).tx;
    OneCall(lib, s, DeliverTx(deploy));
    IdentifierOfDeploy(lib, tx);
    IdentifierInjective(DeployAddress(lib, ArgumentFelt(tx.kind.classHash).value, tx.kind.salt, tx.kind.inputs).value,
                        address);
  }

  lemma {:induction false} CallsAppend(lib: Library, s: AppState, a: seq<Call>, b: seq<Call>)
    ensures AfterCalls(lib, s, a + b) ==
      match AfterCalls(lib, s, a) case None => None case Some(s') => AfterCalls(lib, s', b)
    decreases a
  {
    if a == [] {
      assert a + b == b;
    } else {
      assert (a + b)[1..] == a[1..] + b;
      if AfterCall(lib, s, a[0]).Some? { CallsAppend(lib, AfterCall(lib, s, a[0]).value.0, a[1..], b); }
    }
  }

  lemma OneCall(lib: Library, s: AppState, c: Call)
    requires AfterCalls(lib, s, [c]).Some?
    ensures AfterCall(lib, s, c).Some? && AfterCalls(lib, s, [c]).value == AfterCall(lib, s, c).value.0
  {
    assert [c][1..] == [];
    assert AfterCalls(lib, AfterCall(lib, s, c).value.0, []) == Some(AfterCall(lib, s, c).value.0);
  }
}
