/** Printing summaries and reading them back. */
module SummaryRoundTrip {

  import opened Options
  import opened DecimalText
  import opened TextSearch
  import opened TpsSelection
  import opened Summary
  import opened SummaryLabels

  // ----- one field -----

  // A character a value with its unit never holds.
  predicate Reserved(c: char) {
    c == ':' || c == '\n' || c == ',' || c == 'Y'
  }

  predicate NoneReserved(s: string) {
    forall c :: c in s ==> !Reserved(c)
  }

  lemma UnitShape(n: Name)
    ensures NoneReserved(UnitOf(n)) && (UnitOf(n) == "" || UnitOf(n)[0] == ' ')
  {
  }

  lemma NumeralShape(v: int)
    ensures NoneReserved(Numeral(v)) && Numeral(v) != ""
    ensures IsDigit(Numeral(v)[0]) <==> v >= 0
  {
  }

  lemma ValueShape(r: Report, n: Name)
    requires Complete(r)
    ensures NoneReserved(ValueText(r, n, false))
  {
    if n == Collocate {
      assert NoneReserved("True") && NoneReserved("False");
    } else {
      NumeralShape(r.figures[n]);
    }
  }

  // The value of a field with its unit, as read after the label.
  function Tail(r: Report, n: Name): string
    requires Complete(r)
  {
    ValueText(r, n, false) + UnitOf(n)
  }

  lemma TailShape(r: Report, n: Name)
    requires Complete(r)
    ensures NoneReserved(Tail(r, n)) && ':' !in Tail(r, n) && '\n' !in Tail(r, n)
  {
    ValueShape(r, n);
    UnitShape(n);
    assert Reserved(':') && Reserved('\n');
  }

  lemma NumberReads(r: Report, n: Name, more: string)
    requires Complete(r) && n != Collocate
    ensures StartsWithDigit(Tail(r, n) + "\n" + more) <==> r.figures[n] >= 0
    ensures r.figures[n] >= 0 ==> ParseDecimal(LeadingDigits(Tail(r, n) + "\n" + more)) == r.figures[n]
  {
    var v := r.figures[n];
    NumeralShape(v);
    UnitShape(n);
    var after := UnitOf(n) + "\n" + more;
    assert Tail(r, n) + "\n" + more == Numeral(v) + after;
    if v >= 0 {
      assert !IsDigit(after[0]);
      LeadingDigitsOf(Numeral(v), after);
      ParseDecimalOf(v);
    }
  }

  lemma BoolReads(r: Report, more: string)
    requires Complete(r)
    ensures StartsWithBool(Tail(r, Collocate) + "\n" + more)
    ensures "True" <= Tail(r, Collocate) + "\n" + more <==> r.collocate
  {
    var text := Tail(r, Collocate) + "\n" + more;
    if r.collocate { assert "True" <= text; } else { assert "False" <= text; assert text[0] == 'F'; }
  }

  // ----- the printed lines -----

  /** The lines that hold no figure. */
  lemma PrintedPlain(r: Report)
    requires Complete(r)
    ensures LineText(r, Colon, true) == ":" && LineText(r, Blank, true) == ""
    ensures LineText(r, ConfigTitle, true) == " + CONFIG:" && LineText(r, ResultsTitle, true) == " + RESULTS:"
    ensures LineText(r, Dashes, true) == "-----------------------------------------"
  {
  }

  /** The places of the plain lines. */
  lemma PlacesOfPlain()
    ensures |BODY| == 28 && BODY[0] == Colon && BODY[1] == BODY[27] == Dashes
    ensures BODY[2] == ConfigTitle && BODY[19] == ResultsTitle && BODY[10] == BODY[18] == BODY[23] == Blank
  {
  }

  /** The places of the figures above the results. */
  lemma PlacesOfConfig()
    ensures BODY[3] == Field(Faults) && BODY[4] == Field(CommitteeSize) && BODY[5] == Field(Workers)
    ensures BODY[6] == Field(Collocate) && BODY[7] == Field(InputRate) && BODY[8] == Field(TxSize)
    ensures BODY[9] == Field(ExecutionTime) && BODY[11] == Field(HeaderSize) && BODY[12] == Field(MaxHeaderDelay)
  {
  }

  /** The places of the other parameters. */
  lemma PlacesOfParameters()
    ensures BODY[13] == Field(GcDepth) && BODY[14] == Field(SyncRetryDelay) && BODY[15] == Field(SyncRetryNodes)
    ensures BODY[16] == Field(BatchSize) && BODY[17] == Field(MaxBatchDelay)
  {
  }

  /** The places of the results. */
  lemma PlacesOfResults()
    ensures BODY[20] == Field(ConsensusTps) && BODY[21] == Field(ConsensusBps) && BODY[22] == Field(ConsensusLatency)
    ensures BODY[24] == Field(EndToEndTps) && BODY[25] == Field(EndToEndBps) && BODY[26] == Field(EndToEndLatency)
  {
  }

  /** The lines of the committee. */
  lemma PrintedCommittee(r: Report)
    requires Complete(r)
    ensures LineText(r, Field(Faults), true) ==
      " Faults: " + (Numeral(r.figures[Faults]) + " node(s)")
    ensures LineText(r, Field(CommitteeSize), true) ==
      " Committee size: " + (Numeral(r.figures[CommitteeSize]) + " node(s)")
    ensures LineText(r, Field(Workers), true) ==
      " Worker(s) per node: " + (Numeral(r.figures[Workers]) + " worker(s)")
  {
  }

  lemma PrintedCollocate(r: Report)
    requires Complete(r)
    ensures LineText(r, Field(Collocate), true) ==
      " Collocate primary and workers: " + (if r.collocate then "True" else "False")
  {
    var value := if r.collocate then "True" else "False";
    assert LineText(r, Field(Collocate), true) == LabelOf(Collocate) + (value + "");
    assert value + "" == value;
  }

  /** The lines of the load. */
  lemma PrintedLoad(r: Report)
    requires Complete(r)
    ensures LineText(r, Field(InputRate), true) ==
      " Input rate: " + (Grouped(r.figures[InputRate]) + " tx/s")
    ensures LineText(r, Field(TxSize), true) ==
      " Transaction size: " + (Grouped(r.figures[TxSize]) + " B")
    ensures LineText(r, Field(ExecutionTime), true) ==
      " Execution time: " + (Grouped(r.figures[ExecutionTime]) + " s")
  {
  }

  /** The lines of the header parameters. */
  lemma PrintedHeaders(r: Report)
    requires Complete(r)
    ensures LineText(r, Field(HeaderSize), true) ==
      " Header size: " + (Grouped(r.figures[HeaderSize]) + " B")
    ensures LineText(r, Field(MaxHeaderDelay), true) ==
      " Max header delay: " + (Grouped(r.figures[MaxHeaderDelay]) + " ms")
    ensures LineText(r, Field(GcDepth), true) ==
      " GC depth: " + (Grouped(r.figures[GcDepth]) + " round(s)")
  {
  }

  /** The lines of the synchronizer parameters. */
  lemma PrintedSync(r: Report)
    requires Complete(r)
    ensures LineText(r, Field(SyncRetryDelay), true) ==
      " Sync retry delay: " + (Grouped(r.figures[SyncRetryDelay]) + " ms")
    ensures LineText(r, Field(SyncRetryNodes), true) ==
      " Sync retry nodes: " + (Grouped(r.figures[SyncRetryNodes]) + " node(s)")
  {
  }

  /** The lines of the batch parameters. */
  lemma PrintedBatches(r: Report)
    requires Complete(r)
    ensures LineText(r, Field(BatchSize), true) ==
      " batch size: " + (Grouped(r.figures[BatchSize]) + " B")
    ensures LineText(r, Field(MaxBatchDelay), true) ==
      " Max batch delay: " + (Grouped(r.figures[MaxBatchDelay]) + " ms")
  {
  }

  /** The lines of the consensus results. */
  lemma PrintedConsensus(r: Report)
    requires Complete(r)
    ensures LineText(r, Field(ConsensusTps), true) ==
      " Consensus TPS: " + (Grouped(r.figures[ConsensusTps]) + " tx/s")
    ensures LineText(r, Field(ConsensusBps), true) ==
      " Consensus BPS: " + (Grouped(r.figures[ConsensusBps]) + " B/s")
    ensures LineText(r, Field(ConsensusLatency), true) ==
      " Consensus latency: " + (Grouped(r.figures[ConsensusLatency]) + " ms")
  {
  }

  /** The lines of the end-to-end results. */
  lemma PrintedEndToEnd(r: Report)
    requires Complete(r)
    ensures LineText(r, Field(EndToEndTps), true) ==
      " End-to-end TPS: " + (Grouped(r.figures[EndToEndTps]) + " tx/s")
    ensures LineText(r, Field(EndToEndBps), true) ==
      " End-to-end BPS: " + (Grouped(r.figures[EndToEndBps]) + " B/s")
  {
  }

  /** The line of the end-to-end latency. */
  lemma PrintedLatency(r: Report)
    requires Complete(r)
    ensures LineText(r, Field(EndToEndLatency), true) ==
      " End-to-end latency: " + (Grouped(r.figures[EndToEndLatency]) + " ms")
  {
  }

  // ----- searching the lines -----

  // A plain line has no colon but possibly its last character, no comma and no 'Y'.
  predicate PlainShaped(text: string) {
    forall i :: 0 <= i < |text| ==>
      text[i] != '\n' && text[i] != ',' && text[i] != 'Y' && (i < |text| - 1 ==> text[i] != ':')
  }

  lemma TitlesShaped()
    ensures PlainShaped(":") && PlainShaped("") && PlainShaped(" + CONFIG:") && PlainShaped(" + RESULTS:")
  {
  }

  lemma DashesShaped()
    ensures PlainShaped(DASHES)
  {
  }

  lemma PlainShape(l: Line)
    requires !l.Field?
    ensures PlainShaped(PlainText(l))
  {
    TitlesShaped();
    DashesShaped();
  }

  lemma LineSkipped(r: Report, l: Line, k: Name, ok: string -> bool, rest: string)
    requires Complete(r) && IsRead(k) && l != Field(k)
    ensures Find(KeyOf(k), ok, LineText(r, l, false) + "\n" + rest) == Find(KeyOf(k), ok, rest)
  {
    LabelIsLabel(k);
    if l.Field? {
      var n := l.name;
      LabelIsLabel(n);
      TailShape(r, n);
      LabelsApart(k, n);
      LabelMisses(LabelOf(n), Tail(r, n), KeyOf(k));
      FindSkipsLine(KeyOf(k), ok, LabelOf(n) + Tail(r, n), rest);
    } else {
      PlainShape(l);
      PlainMisses(PlainText(l), KeyOf(k));
      FindSkipsLine(KeyOf(k), ok, PlainText(l), rest);
    }
  }

  lemma {:induction false} LinesSkipped(r: Report, lines: seq<Line>, k: Name, ok: string -> bool, rest: string)
    requires Complete(r) && IsRead(k) && Field(k) !in lines
    ensures Find(KeyOf(k), ok, LinesText(r, lines, false) + rest) == Find(KeyOf(k), ok, rest)
    decreases lines
  {
    if lines == [] {
      assert "" + rest == rest;
    } else {
      var tail := LinesText(r, lines[1..], false);
      LineSkipped(r, lines[0], k, ok, tail + rest);
      LinesSkipped(r, lines[1..], k, ok, rest);
      assert LinesText(r, lines, false) + rest == LineText(r, lines[0], false) + "\n" + (tail + rest);
    }
  }

  lemma {:induction false} FieldFirst(r: Report, others: seq<Line>, k: Name, ok: string -> bool, rest: string)
    requires Complete(r) && IsRead(k) && Field(k) !in others
    ensures
      var more := LinesText(r, others, false) + rest;
      Find(KeyOf(k), ok, LineText(r, Field(k), false) + "\n" + more) ==
        if ok(Tail(r, k) + "\n" + more) then Some(Tail(r, k) + "\n" + more) else Find(KeyOf(k), ok, rest)
  {
    LabelIsLabel(k);
    TailShape(r, k);
    FindAtLabel(LabelOf(k), Tail(r, k), KeyOf(k), ok, LinesText(r, others, false) + rest);
    LinesSkipped(r, others, k, ok, rest);
  }

  /** The search stops at the field's own line if its value is acceptable, and otherwise goes on. */
  lemma {:induction false} FieldFound(r: Report, lines: seq<Line>, at: nat, k: Name, ok: string -> bool, rest: string)
    requires Complete(r) && IsRead(k) && at < |lines| && lines[at] == Field(k)
    requires Field(k) !in lines[..at] && Field(k) !in lines[at + 1..]
    ensures
      var more := LinesText(r, lines[at + 1..], false) + rest;
      Find(KeyOf(k), ok, LinesText(r, lines, false) + rest) ==
        if ok(Tail(r, k) + "\n" + more) then Some(Tail(r, k) + "\n" + more) else Find(KeyOf(k), ok, rest)
    decreases at
  {
    var tail := LinesText(r, lines[1..], false);
    assert LinesText(r, lines, false) + rest == LineText(r, lines[0], false) + "\n" + (tail + rest);
    if at == 0 {
      FieldFirst(r, lines[1..], k, ok, rest);
    } else {
      assert lines[0] in lines[..at];
      LineSkipped(r, lines[0], k, ok, tail + rest);
      assert lines[1..][..at - 1] == lines[..at][1..];
      assert lines[1..][at - 1 + 1..] == lines[at + 1..];
      FieldFound(r, lines[1..], at - 1, k, ok, rest);
    }
  }

  // ----- one chunk -----

  // What may follow a summary in its chunk: nothing, or the head of the next summary.
  lemma NothingElse(k: Name, ok: string -> bool, rest: string)
    requires IsRead(k) && (rest == "" || rest == HEAD)
    ensures Find(KeyOf(k), ok, rest) == None
  {
    LabelIsLabel(k);
    if rest == HEAD {
      DashesShaped();
      PlainMisses("", KeyOf(k));
      PlainMisses(DASHES, KeyOf(k));
      HeadLines();
      FindSkipsLine(KeyOf(k), ok, "", DASHES + "\n" + " ");
      FindSkipsLine(KeyOf(k), ok, DASHES, " ");
      FindInShortText(KeyOf(k), ok, " ");
    }
  }

  lemma HeadLines()
    ensures HEAD == "" + "\n" + (DASHES + "\n" + " ")
  {
  }

  // The line each figure is printed on.
  function Position(n: Name): nat {
    match n
    case Faults => 3
    case CommitteeSize => 4
    case Workers => 5
    case Collocate => 6
    case InputRate => 7
    case TxSize => 8
    case ExecutionTime => 9
    case HeaderSize => 11
    case MaxHeaderDelay => 12
    case GcDepth => 13
    case SyncRetryDelay => 14
    case SyncRetryNodes => 15
    case BatchSize => 16
    case MaxBatchDelay => 17
    case ConsensusTps => 20
    case ConsensusBps => 21
    case ConsensusLatency => 22
    case EndToEndTps => 24
    case EndToEndBps => 25
    case EndToEndLatency => 26
  }

  lemma BodyLines()
    ensures |BODY| == 28
    ensures forall i :: 0 <= i < |BODY| && BODY[i].Field? ==> Position(BODY[i].name) == i
  {
  }

  lemma BodyHolds(n: Name)
    ensures Position(n) < |BODY| && BODY[Position(n)] == Field(n)
  {
  }

  lemma OnlyAt(lines: seq<Line>, at: nat, l: Line)
    requires at < |lines| && forall i :: 0 <= i < |lines| && lines[i] == l ==> i == at
    ensures l !in lines[..at] && l !in lines[at + 1..]
  {
  }

  lemma BodyPosition(n: Name)
    ensures Position(n) < |BODY| && BODY[Position(n)] == Field(n)
    ensures Field(n) !in BODY[..Position(n)] && Field(n) !in BODY[Position(n) + 1..]
  {
    BodyLines();
    BodyHolds(n);
    OnlyAt(BODY, Position(n), Field(n));
  }

  function Body(r: Report): string
    requires Complete(r)
  {
    LinesText(r, BODY, false)
  }

  // A search over a whole chunk stops at the field's line or goes past the summary.
  lemma {:induction false} FieldIn(r: Report, lines: seq<Line>, k: Name, ok: string -> bool, rest: string)
      returns (more: string)
    requires Complete(r) && IsRead(k) && lines == BODY
    ensures Find(KeyOf(k), ok, LinesText(r, lines, false) + rest) ==
      if ok(Tail(r, k) + "\n" + more) then Some(Tail(r, k) + "\n" + more) else Find(KeyOf(k), ok, rest)
  {
    BodyPosition(k);
    more := FieldAtPosition(r, lines, Position(k), k, ok, rest);
  }

  lemma {:induction false} FieldAtPosition(r: Report, lines: seq<Line>, at: nat, k: Name, ok: string -> bool,
                                           rest: string) returns (more: string)
    requires Complete(r) && IsRead(k) && at < |lines| && lines[at] == Field(k)
    requires Field(k) !in lines[..at] && Field(k) !in lines[at + 1..]
    ensures Find(KeyOf(k), ok, LinesText(r, lines, false) + rest) ==
      if ok(Tail(r, k) + "\n" + more) then Some(Tail(r, k) + "\n" + more) else Find(KeyOf(k), ok, rest)
  {
    FieldFound(r, lines, at, k, ok, rest);
    more := LinesText(r, lines[at + 1..], false) + rest;
  }

  lemma {:induction false} NumberField(r: Report, k: Name, rest: string)
    requires Complete(r) && IsRead(k) && k != Collocate && (rest == "" || rest == HEAD)
    ensures ReadNumber(KeyOf(k), Body(r) + rest) == Checked(r.figures[k])
  {
    var more := FieldIn(r, BODY, k, StartsWithDigit, rest);
    NumberReads(r, k, more);
    NothingElse(k, StartsWithDigit, rest);
  }

  lemma {:induction false} BoolField(r: Report, rest: string)
    requires Complete(r)
    ensures ReadBool(KeyOf(Collocate), Body(r) + rest) == Some(r.collocate)
  {
    var more := FieldIn(r, BODY, Collocate, StartsWithBool, rest);
    BoolReads(r, more);
  }

  // No figure that is read back is negative.
  predicate Readable(r: Report)
    requires Complete(r)
  {
    forall n :: IsRead(n) && n != Collocate ==> r.figures[n] >= 0
  }

  function RecordOf(r: Report): (Setup, Result)
    requires Complete(r)
  {
    (Setup(r.figures[Faults], r.figures[CommitteeSize], r.figures[Workers], r.collocate, r.figures[InputRate],
           r.figures[TxSize]),
     Result(r.figures[EndToEndTps], r.figures[EndToEndLatency], 0, 0))
  }

  predicate SetupReadable(r: Report)
    requires Complete(r)
  {
    r.figures[Faults] >= 0 && r.figures[CommitteeSize] >= 0 && r.figures[Workers] >= 0 && r.figures[InputRate] >= 0 &&
    r.figures[TxSize] >= 0
  }

  lemma SetupReads(r: Report, rest: string)
    requires Complete(r) && (rest == "" || rest == HEAD)
    ensures ReadSetup(Body(r) + rest) == if SetupReadable(r) then Some(RecordOf(r).0) else None
  {
    NumberField(r, Faults, rest);
    NumberField(r, CommitteeSize, rest);
    NumberField(r, Workers, rest);
    BoolField(r, rest);
    NumberField(r, InputRate, rest);
    NumberField(r, TxSize, rest);
    SetupFromFields(r, Body(r) + rest);
  }

  function Checked(v: int): Option<nat> {
    if v >= 0 then Some(v) else None
  }

  lemma SetupFromFields(r: Report, raw: string)
    requires Complete(r)
    requires ReadNumber(KeyOf(Faults), raw) == Checked(r.figures[Faults])
    requires ReadNumber(KeyOf(CommitteeSize), raw) == Checked(r.figures[CommitteeSize])
    requires ReadNumber(KeyOf(Workers), raw) == Checked(r.figures[Workers])
    requires ReadBool(KeyOf(Collocate), raw) == Some(r.collocate)
    requires ReadNumber(KeyOf(InputRate), raw) == Checked(r.figures[InputRate])
    requires ReadNumber(KeyOf(TxSize), raw) == Checked(r.figures[TxSize])
    ensures ReadSetup(raw) == if SetupReadable(r) then Some(RecordOf(r).0) else None
  {
  }

  lemma ResultReads(r: Report, rest: string)
    requires Complete(r) && (rest == "" || rest == HEAD)
    ensures ReadResult(Body(r) + rest) ==
      if r.figures[EndToEndTps] >= 0 && r.figures[EndToEndLatency] >= 0 then Some(RecordOf(r).1) else None
  {
    NumberField(r, EndToEndTps, rest);
    NumberField(r, EndToEndLatency, rest);
  }

  /** A chunk gives its setup and result back exactly when no figure read is negative. */
  lemma ChunkReads(r: Report, rest: string)
    requires Complete(r) && (rest == "" || rest == HEAD)
    ensures ReadChunk(Body(r) + rest) == if Readable(r) then Some(RecordOf(r)) else None
  {
    SetupReads(r, rest);
    ResultReads(r, rest);
    ReadableFields(r);
  }

  lemma ReadableFields(r: Report)
    requires Complete(r)
    ensures Readable(r) <==> (SetupReadable(r) && r.figures[EndToEndTps] >= 0 && r.figures[EndToEndLatency] >= 0)
  {
    assert IsRead(Faults) && IsRead(CommitteeSize) && IsRead(Workers) && IsRead(InputRate) && IsRead(TxSize);
    assert IsRead(EndToEndTps) && IsRead(EndToEndLatency);
  }

  // ----- commas -----

  lemma DigitsHaveNoComma(s: string)
    requires AllDigits(s)
    ensures StripCommas(s) == s
  {
    StripNothing(s);
  }

  lemma {:induction false} StripThousands(n: nat)
    ensures StripCommas(Thousands(n)) == Decimal(n)
    decreases n
  {
    if n < 1000 {
      DigitsHaveNoComma(Decimal(n));
    } else {
      StripThousands(n / 1000);
      DecimalByThousands(n);
      var high, low := Thousands(n / 1000), Pad3(n % 1000);
      DigitsHaveNoComma(low);
      StripAppend(high + ",", low);
      StripAppend(high, ",");
      assert StripCommas(",") == "" by { assert ","[1..] == ""; }
    }
  }

  lemma StripGrouped(v: int)
    ensures StripCommas(Grouped(v)) == Numeral(v)
  {
    if v < 0 {
      StripThousands(-v);
      StripAppend("-", Thousands(-v));
      StripNothing("-");
    } else {
      StripThousands(v);
    }
  }

  lemma NoCommaWhenUnreserved(s: string)
    requires NoneReserved(s)
    ensures StripCommas(s) == s && 'Y' !in s
  {
    assert Reserved(',') && Reserved('Y');
    StripNothing(s);
  }

  lemma StripValue(r: Report, n: Name)
    requires Complete(r)
    ensures StripCommas(ValueText(r, n, true)) == ValueText(r, n, false)
  {
    ValueShape(r, n);
    NoCommaWhenUnreserved(ValueText(r, n, false));
    if n != Collocate && !IsPlain(n) { StripGrouped(r.figures[n]); }
  }

  lemma StripLine(r: Report, l: Line)
    requires Complete(r)
    ensures StripCommas(LineText(r, l, true)) == LineText(r, l, false) && 'Y' !in LineText(r, l, false)
  {
    if l.Field? {
      var n := l.name;
      LabelIsLabel(n);
      UnitShape(n);
      TailShape(r, n);
      StripNothing(LabelOf(n));
      StripValue(r, n);
      NoCommaWhenUnreserved(UnitOf(n));
      NoCommaWhenUnreserved(Tail(r, n));
      StripAppend(ValueText(r, n, true), UnitOf(n));
      StripAppend(LabelOf(n), ValueText(r, n, true) + UnitOf(n));
    } else {
      PlainShape(l);
      StripNothing(PlainText(l));
    }
  }

  lemma {:induction false} StripLines(r: Report, lines: seq<Line>)
    requires Complete(r)
    ensures StripCommas(LinesText(r, lines, true)) == LinesText(r, lines, false)
    ensures 'Y' !in LinesText(r, lines, false)
    decreases lines
  {
    if lines != [] {
      StripLine(r, lines[0]);
      StripLines(r, lines[1..]);
      StripNothing("\n");
      StripAppend(LineText(r, lines[0], true), "\n");
      StripAppend(LineText(r, lines[0], true) + "\n", LinesText(r, lines[1..], true));
    }
  }

  lemma StripPrint(r: Report)
    requires Complete(r)
    ensures StripCommas(Print(r, true)) == Print(r, false) && 'Y' !in Body(r)
  {
    SeparatorShape();
    StripLines(r, BODY);
    StripNothing(HEAD + SEPARATOR);
    StripAppend(HEAD + SEPARATOR, LinesText(r, BODY, true));
  }

  lemma {:induction false} StripAll(rs: seq<Report>)
    requires forall r :: r in rs ==> Complete(r)
    ensures StripCommas(PrintAll(rs, true)) == PrintAll(rs, false)
    decreases rs
  {
    if rs != [] {
      StripPrint(rs[0]);
      StripAll(rs[1..]);
      StripAppend(Print(rs[0], true), PrintAll(rs[1..], true));
    }
  }

  // ----- the chunks -----

  function Chunks(rs: seq<Report>): seq<string>
    requires forall r :: r in rs ==> Complete(r)
  {
    if rs == [] then []
    else [Body(rs[0]) + if |rs| == 1 then "" else HEAD] + Chunks(rs[1..])
  }

  lemma SplitHead(after: string)
    ensures Split(HEAD + SEPARATOR + after, SEPARATOR) == [HEAD] + Split(after, SEPARATOR)
  {
    SeparatorShape();
    SplitAt(HEAD, SEPARATOR, after);
  }

  // The text after a first HEAD and separator splits into the chunks.
  lemma {:induction false} SplitRest(rs: seq<Report>)
    requires rs != [] && forall r :: r in rs ==> Complete(r)
    ensures Split(Body(rs[0]) + PrintAll(rs[1..], false), SEPARATOR) == Chunks(rs)
    decreases rs
  {
    var body, rest := Body(rs[0]), rs[1..];
    StripPrint(rs[0]);
    SeparatorShape();
    if rest == [] {
      assert body + "" == body;
      SplitNone(body, SEPARATOR);
    } else {
      var after := Body(rest[0]) + PrintAll(rest[1..], false);
      SplitRest(rest);
      PrintFirst(rest);
      assert body + (HEAD + SEPARATOR + after) == (body + HEAD) + SEPARATOR + after;
      SplitAt(body + HEAD, SEPARATOR, after);
    }
  }

  lemma {:induction false} PrintFirst(rs: seq<Report>)
    requires rs != [] && forall r :: r in rs ==> Complete(r)
    ensures PrintAll(rs, false) == HEAD + SEPARATOR + (Body(rs[0]) + PrintAll(rs[1..], false))
  {
  }

  lemma SplitAll(rs: seq<Report>)
    requires rs != [] && forall r :: r in rs ==> Complete(r)
    ensures Split(PrintAll(rs, false), SEPARATOR) == [HEAD] + Chunks(rs)
  {
    PrintFirst(rs);
    SplitHead(Body(rs[0]) + PrintAll(rs[1..], false));
    SplitRest(rs);
  }

  lemma SeparatorShape()
    ensures IsSeparator(SEPARATOR) && SEPARATOR[|SEPARATOR| - 1] == 'Y' && 'Y' !in HEAD
    ensures ',' !in HEAD + SEPARATOR
  {
    assert ',' !in HEAD && ',' !in SEPARATOR;
  }

  function Records(rs: seq<Report>): seq<(Setup, Result)>
    requires forall r :: r in rs ==> Complete(r)
  {
    if rs == [] then [] else [RecordOf(rs[0])] + Records(rs[1..])
  }

  lemma BodyNonempty(r: Report)
    requires Complete(r)
    ensures Body(r) != ""
  {
  }

  lemma {:induction false} ChunksRead(rs: seq<Report>)
    requires forall r :: r in rs ==> Complete(r)
    ensures ReadChunks(Chunks(rs)) == if forall r :: r in rs ==> Readable(r) then Some(Records(rs)) else None
    decreases rs
  {
    if rs != [] {
      var rest := rs[1..];
      ChunksRead(rest);
      ChunkReads(rs[0], if |rs| == 1 then "" else HEAD);
      assert Chunks(rs)[1..] == Chunks(rest);
      BodyNonempty(rs[0]);
      AllReadableSplit(rs);
    }
  }

  lemma AllReadableSplit(rs: seq<Report>)
    requires rs != [] && forall r :: r in rs ==> Complete(r)
    ensures (forall r :: r in rs ==> Readable(r)) <==> Readable(rs[0]) && (forall r :: r in rs[1..] ==> Readable(r))
  {
    assert forall r :: r in rs <==> r == rs[0] || r in rs[1..];
  }

  /**
   Printing any summaries with thousands separators, appending them to one text, stripping commas,
   splitting at SUMMARY and reading every chunk gives every setup and result back in order - exactly
   when no figure that is read is negative. One negative figure makes the reader fail.
   */
  lemma ReadBackAll(rs: seq<Report>)
    requires forall r :: r in rs ==> Complete(r)
    ensures ReadAll(PrintAll(rs, true)) == if forall r :: r in rs ==> Readable(r) then Some(Records(rs)) else None
  {
    StripAll(rs);
    ChunksRead(rs);
    if rs != [] {
      SplitAll(rs);
      assert ([HEAD] + Chunks(rs))[1..] == Chunks(rs);
    }
  }

  lemma NegativeFails(r: Report, k: Name)
    requires Complete(r) && IsRead(k) && k != Collocate && r.figures[k] < 0
    ensures ReadAll(PrintAll([r], true)) == None
  {
    ReadBackAll([r]);
    assert r in [r] && !Readable(r);
  }

  predicate IsFigure(n: Name) {
    n != Collocate
  }

  // Zero but for a latency that clock skew has made negative.
  function Skewed(n: Name): int {
    if n == EndToEndLatency then -1 else 0
  }

  /** A concrete summary on which the reader fails. */
  lemma SkewedFails() returns (r: Report)
    ensures Complete(r) && (forall n :: n in r.figures ==> r.figures[n] == Skewed(n))
    ensures ReadAll(PrintAll([r], true)) == None
  {
    r := Report(true, map n: Name | IsFigure(n) :: Skewed(n));
    assert forall n :: IsFigure(n) ==> n in r.figures;
    NegativeFails(r, EndToEndLatency);
  }
}
