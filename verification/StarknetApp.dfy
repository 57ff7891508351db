/** The ABCI application: class and contract tables, running hash and height file. */
module StarknetApp {

  import opened Options
  import opened Field
  import opened FeltText
  import opened Abci
  import opened Transactions

  // The file that survives a restart.
  datatype HeightFile = Missing | Unreadable | Height(h: int)

  datatype AppState = AppState(tables: Tables, hashed: string, file: HeightFile)

  datatype Response = Empty | TxAccepted(data: string) | TxRejected | AppHash(hash: Bytes)

  // ----- specification -----

  const NO_TABLES: Tables := Tables(map[], map[])

  function AfterDeclare(lib: Library, t: Tables, program: string): Tables
    requires lib.parseClass(program).Some? && lib.classHash(lib.parseClass(program).value).Some?
  {
    var class_ := lib.parseClass(program).value;
    t.(classes := t.classes[lib.classHash(class_).value := class_])
  }

  function AfterDeploy(lib: Library, t: Tables, address: Felt, classHash: Felt): Tables {
    t.(contracts := lib.deploy(t.contracts, address, classHash))
  }

  // The class hash an address resolves to, by way of the library's answer for an absent contract.
  function ClassHashAt(lib: Library, t: Tables, address: Felt): Option<Felt> {
    if address in t.contracts then Some(t.contracts[address]) else lib.absentClassHash
  }

  /** An invocation: Done(true) when it ran, Done(false) or Failed when it was refused; execution works
      on a clone, so no outcome carries tables. */
  function RunInvoke(lib: Library, t: Tables, address: string, function_: string,
                     inputs: Option<seq<Int32>>): Outcome<bool> {
    match ArgumentFelt(address)
    case Panics => Panics
    case Failed => Failed
    case Done(a) =>
      match ClassHashAt(lib, t, a)
      case None => Panics
      case Some(c) =>
        if c !in t.classes then Failed
        else Done(lib.execute(t, Invocation(a, c, function_, Calldata(inputs))).1)
  }

  // The tables after an accepted transaction, None when it panics.
  function ApplyKind(lib: Library, t: Tables, kind: TransactionType): Option<Tables>
    requires ComputeAndHash(lib, kind).Done?
  {
    match kind
    case Declare(program) => Some(AfterDeclare(lib, t, program))
    case DeployAccount(classHash, salt, inputs) =>
      var address := DeployAddress(lib, ArgumentFelt(classHash).value, salt, inputs).value;
      if lib.stringToHash(classHash) == None || lib.deployHash(address, Calldata(inputs)) == None then None
      else Some(AfterDeploy(lib, t, address, lib.stringToHash(classHash).value))
    case Invoke(address, function_, inputs) =>
      if RunInvoke(lib, t, address, function_, inputs).Panics? then None else Some(t)
  }

  // What a raw transaction is worth: accepted, rejected with code 1, or a panic.
  datatype Verdict = Accepted(tx: Transaction) | Rejected | Crash

  function Judge(lib: Library, raw: Bytes): Verdict {
    match lib.decodeTx(raw)
    case None => Crash
    case Some(tx) =>
      match ComputeAndHash(lib, tx.kind)
      case Panics => Crash
      case Failed => Rejected
      case Done(h) => if h == tx.hash then Accepted(tx) else Rejected
  }

  /** One delivered transaction; None is a crash. */
  function AfterTx(lib: Library, s: AppState, raw: Bytes): Option<(AppState, Response)> {
    match Judge(lib, raw)
    case Crash => None
    case Rejected => Some((s, TxRejected))
    case Accepted(tx) =>
      match ApplyKind(lib, s.tables, tx.kind)
      case None => None
      case Some(t) => Some((AppState(t, s.hashed + tx.hash, s.file), TxAccepted(tx.hash)))
  }

  function AfterCall(lib: Library, s: AppState, c: Call): Option<(AppState, Response)> {
    match c
    case BeginBlock(_) => Some((s, Empty))
    case DeliverTx(raw) => AfterTx(lib, s, raw)
    case EndBlock(_) => Some((s, Empty))
    case Commit =>
      match s.file
      case Height(h) => Some((s.(file := Height(h + 1)), AppHash(lib.sha256(s.hashed))))
      case _ => None
  }

  /** A sequence of consensus calls; None when one of them crashes the application. */
  function AfterCalls(lib: Library, s: AppState, calls: seq<Call>): Option<AppState>
    decreases calls
  {
    if calls == [] then Some(s)
    else match AfterCall(lib, s, calls[0])
      case None => None
      case Some((s', _)) => AfterCalls(lib, s', calls[1..])
  }

  // The height file after it is read, and what was read: a missing file is created at zero.
  function ReadOrCreate(f: HeightFile): Option<(HeightFile, int)> {
    match f
    case Missing => Some((Height(0), 0))
    case Unreadable => None
    case Height(h) => Some((f, h))
  }

  // ----- the answer to a transaction -----

  // The bytes hold a transaction whose computed hash string is the one it carries.
  predicate Matches(lib: Library, raw: Bytes) {
    lib.decodeTx(raw).Some? &&
    ComputeAndHash(lib, lib.decodeTx(raw).value.kind) == Done(lib.decodeTx(raw).value.hash)
  }

  // They hold one whose hash string cannot be computed, or is another.
  predicate Refuted(lib: Library, raw: Bytes) {
    lib.decodeTx(raw).Some? &&
    var computed := ComputeAndHash(lib, lib.decodeTx(raw).value.kind);
    computed.Failed? || (computed.Done? && computed.value != lib.decodeTx(raw).value.hash)
  }

  // The class hash of a deploy has no two characters to skip, or the rest is not hexadecimal.
  predicate UnreadableClassHash(kind: TransactionType) {
    kind.DeployAccount? && (|kind.classHash| < 2 || ParseFelt(kind.classHash[2..]) == None)
  }

  // Handling panics after the hash check: a deploy whose class hash or transaction hash the library does
  // not make, or an invocation of a text too short for an address or of an address without any answer.
  predicate HandlingPanics(lib: Library, t: Tables, kind: TransactionType) {
    match kind
    case Declare(_) => false
    case DeployAccount(classHash, salt, inputs) =>
      lib.stringToHash(classHash) == None ||
      (|classHash| >= 2 && ParseFelt(classHash[2..]).Some? &&
       var address := lib.contractAddress(FeltOf(salt), ParseFelt(classHash[2..]).value, Calldata(inputs), 0);
       address.Some? && lib.deployHash(address.value, Calldata(inputs)) == None)
    case Invoke(address, _, _) =>
      |address| < 2 ||
      (ParseFelt(address[2..]).Some? && ParseFelt(address[2..]).value !in t.contracts && lib.absentClassHash == None)
  }

  /** A transaction is answered with its own hash exactly when its hash string is right and nothing panics,
      with a rejection and no effect exactly when it is wrong, and otherwise the application crashes: on bytes
      that hold no transaction, on an unreadable class hash, and on a panic in handling. */
  lemma TxAnswers(lib: Library, s: AppState, raw: Bytes)
    ensures Refuted(lib, raw) <==> (AfterTx(lib, s, raw).Some? && AfterTx(lib, s, raw).value.1 == TxRejected)
    ensures Refuted(lib, raw) ==> AfterTx(lib, s, raw).value.0 == s
    ensures
      AfterTx(lib, s, raw) == None <==>
        || lib.decodeTx(raw) == None || UnreadableClassHash(lib.decodeTx(raw).value.kind)
        || (Matches(lib, raw) && HandlingPanics(lib, s.tables, lib.decodeTx(raw).value.kind))
    ensures
      Matches(lib, raw) && !HandlingPanics(lib, s.tables, lib.decodeTx(raw).value.kind) <==>
        (AfterTx(lib, s, raw).Some? && AfterTx(lib, s, raw).value.1.TxAccepted?)
    ensures AfterTx(lib, s, raw).Some? && AfterTx(lib, s, raw).value.1.TxAccepted? ==>
      var (s', answer) := AfterTx(lib, s, raw).value;
      var tx := lib.decodeTx(raw).value;
      && answer == TxAccepted(tx.hash) && s'.hashed == s.hashed + tx.hash && s'.file == s.file
      && (tx.kind.Invoke? ==> s'.tables == s.tables)
      && (tx.kind.Declare? ==> s'.tables.contracts == s.tables.contracts)
      && (tx.kind.DeployAccount? ==> s'.tables.classes == s.tables.classes)
  {
  }

  // ----- the application -----

  class StarknetApp {
    const lib: Library
    var classes: map<Felt, ContractClass>
    var contracts: map<Felt, Felt>
    var hashed: string
    var file: HeightFile

    function State(): AppState
      reads this
    {
      AppState(Tables(classes, contracts), hashed, file)
    }

    constructor (lib: Library, disk: HeightFile)
      requires !disk.Unreadable?
      ensures this.lib == lib
      ensures State() == AppState(NO_TABLES, "", ReadOrCreate(disk).value.0)
    {
      this.lib := lib;
      classes, contracts, hashed := map[], map[], "";
      file := if disk.Missing? then Height(0) else disk;
    }

    /** Starting the application: an unreadable height file is a crash, a missing one is created at 0. */
    static method Start(lib: Library, disk: HeightFile) returns (app: StarknetApp?)
      ensures app == null <==> disk.Unreadable?
      ensures app != null ==> fresh(app) && app.lib == lib
      ensures app != null ==> app.State() == AppState(NO_TABLES, "", if disk.Missing? then Height(0) else disk)
    {
      if disk.Unreadable? {
        return null;
      }
      app := new StarknetApp(lib, disk);
    }

    method Info() returns (lastBlockHeight: Option<int>)
      modifies this`file
      ensures lastBlockHeight.Some? == !old(file).Unreadable?
      ensures lastBlockHeight.Some? ==> ReadOrCreate(old(file)) == Some((file, lastBlockHeight.value))
      ensures lastBlockHeight == None ==> file == old(file)
      ensures old(file).Missing? ==> lastBlockHeight == Some(0) && file == Height(0)
      ensures old(file).Height? ==> lastBlockHeight == Some(old(file).h) && file == old(file)
    {
      match file {
        case Missing =>
          file := Height(0);
          lastBlockHeight := Some(0);
        case Unreadable =>
          lastBlockHeight := None;
        case Height(h) =>
          lastBlockHeight := Some(h);
      }
    }

    method DeliverTx(raw: Bytes) returns (response: Option<Response>)
      modifies this
      ensures response == None ==> AfterTx(lib, old(State()), raw) == None
      ensures response.Some? ==> AfterTx(lib, old(State()), raw) == Some((State(), response.value))
      ensures response == Some(TxRejected) <==> Refuted(lib, raw)
      ensures response == Some(TxRejected) ==> State() == old(State())
      ensures response == (
        if Refuted(lib, raw) then Some(TxRejected)
        else if Matches(lib, raw) && !HandlingPanics(lib, old(State().tables), lib.decodeTx(raw).value.kind) then
          Some(TxAccepted(lib.decodeTx(raw).value.hash))
        else None)
    {
      TxAnswers(lib, State(), raw);
      var decoded := lib.decodeTx(raw);
      if decoded == None {
        return None;
      }
      var tx := decoded.value;
      var computed := ComputeAndHash(lib, tx.kind);
      match computed {
        case Panics => return None;
        case Failed => return Some(TxRejected);
        case Done(h) =>
          if h != tx.hash {
            return Some(TxRejected);
          }
      }
      hashed := hashed + tx.hash;
      match tx.kind {
        case Declare(program) =>
          var class_ := lib.parseClass(program).value;
          classes := classes[lib.classHash(class_).value := class_];
        case DeployAccount(classHash, salt, inputs) =>
          var address := DeployAddress(lib, ArgumentFelt(classHash).value, salt, inputs).value;
          var key := lib.stringToHash(classHash);
          if key == None {
            return None;
          }
          contracts := lib.deploy(contracts, address, key.value);
          if lib.deployHash(address, Calldata(inputs)) == None {
            return None;
          }
        case Invoke(address, function_, inputs) =>
          var clone := Tables(classes, contracts);
          var ran := RunInvoke(lib, clone, address, function_, inputs);
          if ran.Panics? {
            return None;
          }
      }
      return Some(TxAccepted(tx.hash));
    }

    method Commit() returns (response: Option<Response>)
      modifies this`file
      ensures response == None ==> AfterCall(lib, old(State()), Call.Commit) == None && file == old(file)
      ensures response.Some? ==> AfterCall(lib, old(State()), Call.Commit) == Some((State(), response.value))
    {
      var appHash := lib.sha256(hashed);
      if !file.Height? {
        return None;
      }
      file := Height(file.h + 1);
      return Some(AppHash(appHash));
    }

    /** The consensus connection: calls in order until one crashes. */
    method Serve(calls: seq<Call>) returns (ok: bool)
      modifies this
      ensures ok == AfterCalls(lib, old(State()), calls).Some?
      ensures ok ==> Some(State()) == AfterCalls(lib, old(State()), calls)
    {
      ghost var start := State();
      var i := 0;
      while i < |calls|
        invariant 0 <= i <= |calls|
        invariant AfterCalls(lib, start, calls) == AfterCalls(lib, State(), calls[i..])
      {
        assert calls[i..][0] == calls[i] && calls[i..][1..] == calls[i + 1..];
        var response: Option<Response> := Some(Empty);
        match calls[i] {
          case DeliverTx(raw) => response := DeliverTx(raw);
          case Commit => response := Commit();
          case _ =>
        }
        if response == None {
          return false;
        }
        i := i + 1;
      }
      return true;
    }
  }
}
