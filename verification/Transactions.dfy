/** Transactions and the hash strings that tie them together. */
module Transactions {

  import opened Options
  import opened Field
  import opened FeltText
  import opened DecimalText
  import opened Abci

  type Int32 = n: int | -0x8000_0000 <= n < 0x8000_0000

  // A parsed contract program; its contents matter only to the library.
  type ContractClass(==, !new)

  datatype TransactionType =
    | Declare(program: string)
    | DeployAccount(classHash: string, salt: Int32, inputs: Option<seq<Int32>>)
    | Invoke(address: string, function_: string, inputs: Option<seq<Int32>>)

  datatype Transaction = Transaction(kind: TransactionType, hash: string, id: string)

  // Declared classes by class hash, and the class hash of each deployed contract by address.
  datatype Tables = Tables(classes: map<Felt, ContractClass>, contracts: map<Felt, Felt>)

  datatype Invocation = Invocation(address: Felt, classHash: Felt, entryPoint: string, calldata: seq<Felt>)

  /** The library functions the sequencer calls, as uninterpreted functions. */
  datatype Library = Library(
    decodeTx: Bytes -> Option<Transaction>,
    parseClass: string -> Option<ContractClass>,
    classHash: ContractClass -> Option<Felt>,
    contractAddress: (Felt, Felt, seq<Felt>, Felt) -> Option<Felt>,
    deployHash: (Felt, seq<Felt>) -> Option<Felt>,
    stringToHash: string -> Option<Felt>,
    deploy: (map<Felt, Felt>, Felt, Felt) -> map<Felt, Felt>,
    absentClassHash: Option<Felt>,
    execute: (Tables, Invocation) -> (Tables, bool),
    sha256: string -> Bytes)

  // A value, an error returned to the caller, or a panic.
  datatype Outcome<+T> = Done(value: T) | Failed | Panics

  function FeltOf(n: Int32): Felt {
    Reduce(n)
  }

  function Calldata(inputs: Option<seq<Int32>>): seq<Felt> {
    match inputs
    case None => []
    case Some(ns) => seq(|ns|, i requires 0 <= i < |ns| => FeltOf(ns[i]))
  }

  // A hash or address argument: two characters are skipped unread, the rest must be hexadecimal.
  function ArgumentFelt(s: string): Outcome<Felt> {
    if |s| < 2 then Panics
    else match ParseFelt(s[2..])
      case None => Failed
      case Some(v) => Done(v)
  }

  function JoinNumerals(ns: seq<Int32>): string {
    if ns == [] then ""
    else if |ns| == 1 then Numeral(ns[0])
    else Numeral(ns[0]) + ", " + JoinNumerals(ns[1..])
  }

  function ShowInputs(inputs: Option<seq<Int32>>): string {
    match inputs
    case None => "None"
    case Some(ns) => "Some([" + JoinNumerals(ns) + "])"
  }

  function DeployAddress(lib: Library, classHash: Felt, salt: Int32, inputs: Option<seq<Int32>>): Option<Felt> {
    lib.contractAddress(FeltOf(salt), classHash, Calldata(inputs), 0)
  }

  /** The hash string of a transaction: class hash, contract address, or a description of the call. */
  function ComputeAndHash(lib: Library, kind: TransactionType): Outcome<string> {
    match kind
    case Declare(program) =>
      (match lib.parseClass(program)
       case None => Failed
       case Some(class_) =>
         match lib.classHash(class_)
         case None => Failed
         case Some(h) => Done(Identifier(h)))
    case DeployAccount(classHash, salt, inputs) =>
      (match ArgumentFelt(classHash)
       case Done(c) =>
         (match DeployAddress(lib, c, salt, inputs)
          case None => Failed
          case Some(a) => Done(Identifier(a)))
       case _ => Panics)
    case Invoke(address, function_, inputs) =>
      Done("Invoked " + function_ + " with inputs " + ShowInputs(inputs) + " for contract in address " + address)
  }

  /** The identifier a declare or deploy produces is read back as the felt it names. */
  lemma IdentifierIsArgument(v: Felt)
    ensures ArgumentFelt(Identifier(v)) == Done(v)
  {
    ParseIdentifier(v);
  }

  lemma FeltOfInjective(m: Int32, n: Int32)
    requires FeltOf(m) == FeltOf(n)
    ensures m == n
  {
    FeltOfSigned(m);
    FeltOfSigned(n);
  }

  // A negative number is taken from the top of the field.
  lemma FeltOfSigned(n: Int32)
    ensures FeltOf(n) == if n < 0 then P + n else n
  {
    if n < 0 {
      QuotientUnique(n, -1, P + n);
    } else {
      ReduceSmall(n);
    }
  }

  function Numbers(inputs: Option<seq<Int32>>): seq<Int32> {
    if inputs == None then [] else inputs.value
  }

  /** Calldata holds the inputs in order, a negative one as its distance below the prime. */
  lemma CalldataAt(inputs: seq<Int32>, i: nat)
    requires i < |inputs|
    ensures |Calldata(Some(inputs))| == |inputs|
    ensures Calldata(Some(inputs))[i] == if inputs[i] < 0 then P + inputs[i] else inputs[i]
  {
    FeltOfSigned(inputs[i]);
  }

  /** Calldata determines the inputs, except that no inputs and an empty list are alike. */
  lemma CalldataIff(a: Option<seq<Int32>>, b: Option<seq<Int32>>)
    ensures Calldata(a) == Calldata(b) <==> Numbers(a) == Numbers(b)
  {
    if Calldata(a) == Calldata(b) {
      var m, n := Numbers(a), Numbers(b);
      assert |m| == |Calldata(a)| == |n|;
      forall i | 0 <= i < |m|
        ensures m[i] == n[i]
      {
        assert Calldata(a)[i] == FeltOf(m[i]) && Calldata(b)[i] == FeltOf(n[i]);
        FeltOfInjective(m[i], n[i]);
      }
    }
  }

  // ----- the hash string of an invocation -----

  lemma JoinShape(a: seq<Int32>)
    ensures JoinNumerals(a) == "" <==> a == []
    ensures ',' in JoinNumerals(a) <==> |a| > 1
  {
    if a != [] { NumeralSign(a[0]); }
    if |a| > 1 {
      var s := Numeral(a[0]) + ", " + JoinNumerals(a[1..]);
      assert JoinNumerals(a) == s && s[|Numeral(a[0])|] == ',';
    }
  }

  // The first of the joined numerals ends at the first comma.
  lemma {:induction false} JoinInjective(a: seq<Int32>, b: seq<Int32>)
    requires JoinNumerals(a) == JoinNumerals(b)
    ensures a == b
    decreases |a|
  {
    JoinShape(a);
    JoinShape(b);
    if |a| == 1 {
      NumeralInjective(a[0], b[0]);
    } else if |a| > 1 {
      NumeralSign(a[0]);
      NumeralSign(b[0]);
      SameHead(Numeral(a[0]), JoinNumerals(a[1..]), Numeral(b[0]), JoinNumerals(b[1..]));
      NumeralInjective(a[0], b[0]);
      JoinInjective(a[1..], b[1..]);
      assert a == [a[0]] + a[1..] && b == [b[0]] + b[1..];
    }
  }

  // The text before the first comma.
  function BeforeComma(s: string): string {
    if s == "" || s[0] == ',' then "" else [s[0]] + BeforeComma(s[1..])
  }

  lemma {:induction false} BeforeCommaOf(x: string, rest: string)
    requires ',' !in x
    ensures BeforeComma(x + ", " + rest) == x
    decreases x
  {
    if x != "" {
      assert x[0] in x;
      assert (x + ", " + rest)[1..] == x[1..] + ", " + rest;
      BeforeCommaOf(x[1..], rest);
    }
  }

  lemma SameHead(x: string, s: string, y: string, t: string)
    requires ',' !in x && ',' !in y && x + ", " + s == y + ", " + t
    ensures x == y && s == t
  {
    BeforeCommaOf(x, s);
    BeforeCommaOf(y, t);
    assert (x + ", " + s)[|x| + 2..] == s && (y + ", " + t)[|y| + 2..] == t;
  }

  lemma ShowInjective(a: Option<seq<Int32>>, b: Option<seq<Int32>>)
    requires ShowInputs(a) == ShowInputs(b)
    ensures a == b
  {
    assert ShowInputs(a)[0] == if a == None then 'N' else 'S';
    assert ShowInputs(b)[0] == if b == None then 'N' else 'S';
    if a.Some? {
      var s, t := JoinNumerals(a.value), JoinNumerals(b.value);
      assert ("Some([" + s + "])")[6..6 + |s|] == s;
      assert ("Some([" + t + "])")[6..6 + |t|] == t;
      JoinInjective(a.value, b.value);
    }
  }

  lemma SameMiddle(before: string, x: string, y: string, after: string)
    requires before + x + after == before + y + after
    ensures x == y
  {
    var s, t := before + x + after, before + y + after;
    assert |x| == |y|;
    assert s[|before|..|before| + |x|] == x && t[|before|..|before| + |y|] == y;
  }

  /** How the hash string of an invocation reads. */
  lemma InvokeHash(lib: Library, address: string, function_: string, inputs: Option<seq<Int32>>)
    ensures ComputeAndHash(lib, Invoke(address, function_, inputs)) ==
      Done(("Invoked " + function_ + " with inputs ") + ShowInputs(inputs) + (" for contract in address " + address))
    ensures ShowInputs(None) == "None" && ShowInputs(Some([])) == "Some([])"
    ensures ShowInputs(Some([1, -2, 30])) == "Some([1, -2, 30])"
  {
    var s := "Invoked " + function_ + " with inputs " + ShowInputs(inputs);
    assert s + " for contract in address " + address == s + (" for contract in address " + address);
    ShowReads();
  }

  lemma ShowReads()
    ensures ShowInputs(Some([1, -2, 30])) == "Some([1, -2, 30])"
  {
    var inputs: seq<Int32> := [1, -2, 30];
    assert inputs[1..] == [-2, 30] && inputs[1..][1..] == [30];
    assert Decimal(1) == "1" && Decimal(2) == "2" && Decimal(3) == "3" && Decimal(30) == "3" + "0" == "30";
    assert Numeral(-2) == "-" + "2" == "-2";
    assert JoinNumerals([30]) == "30" && JoinNumerals([-2, 30]) == "-2" + ", " + "30" == "-2, 30";
    assert JoinNumerals(inputs) == "1" + ", " + "-2, 30" == "1, -2, 30";
    assert "Some([" + "1, -2, 30" + "])" == "Some([1, -2, 30])";
  }

  /** For one function and address the hash strings of two invocations agree exactly when their inputs do,
      absent inputs being other than an empty list - although both give the same calldata. */
  lemma InvokeHashIff(lib: Library, address: string, function_: string, a: Option<seq<Int32>>, b: Option<seq<Int32>>)
    ensures
      var s := ComputeAndHash(lib, Invoke(address, function_, a));
      var t := ComputeAndHash(lib, Invoke(address, function_, b));
      s == t <==> a == b
  {
    InvokeHash(lib, address, function_, a);
    InvokeHash(lib, address, function_, b);
    if ComputeAndHash(lib, Invoke(address, function_, a)) == ComputeAndHash(lib, Invoke(address, function_, b)) {
      SameMiddle("Invoked " + function_ + " with inputs ", ShowInputs(a), ShowInputs(b),
                 " for contract in address " + address);
      ShowInjective(a, b);
    }
  }
}
