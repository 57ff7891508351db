/** The benchmark summary as the log parser prints it and as the aggregator reads it back. */
module Summary {

  import opened Options
  import opened DecimalText
  import opened TextSearch
  import opened TpsSelection

  datatype Name =
    | Faults | CommitteeSize | Workers | Collocate | InputRate | TxSize | ExecutionTime
    | HeaderSize | MaxHeaderDelay | GcDepth | SyncRetryDelay | SyncRetryNodes | BatchSize | MaxBatchDelay
    | ConsensusTps | ConsensusBps | ConsensusLatency | EndToEndTps | EndToEndBps | EndToEndLatency

  /** One run's figures, rounded as printed; Collocate is kept apart as the only boolean. */
  datatype Report = Report(collocate: bool, figures: map<Name, int>)

  predicate Complete(r: Report) {
    forall n :: n != Collocate ==> n in r.figures
  }

  // ----- printing -----

  function LabelOf(n: Name): string {
    match n
    case Faults => " Faults: "
    case CommitteeSize => " Committee size: "
    case Workers => " Worker(s) per node: "
    case Collocate => " Collocate primary and workers: "
    case InputRate => " Input rate: "
    case TxSize => " Transaction size: "
    case ExecutionTime => " Execution time: "
    case HeaderSize => " Header size: "
    case MaxHeaderDelay => " Max header delay: "
    case GcDepth => " GC depth: "
    case SyncRetryDelay => " Sync retry delay: "
    case SyncRetryNodes => " Sync retry nodes: "
    case BatchSize => " batch size: "
    case MaxBatchDelay => " Max batch delay: "
    case ConsensusTps => " Consensus TPS: "
    case ConsensusBps => " Consensus BPS: "
    case ConsensusLatency => " Consensus latency: "
    case EndToEndTps => " End-to-end TPS: "
    case EndToEndBps => " End-to-end BPS: "
    case EndToEndLatency => " End-to-end latency: "
  }

  function UnitOf(n: Name): string {
    match n
    case Faults => " node(s)"
    case CommitteeSize => " node(s)"
    case Workers => " worker(s)"
    case Collocate => ""
    case InputRate => " tx/s"
    case TxSize => " B"
    case ExecutionTime => " s"
    case HeaderSize => " B"
    case MaxHeaderDelay => " ms"
    case GcDepth => " round(s)"
    case SyncRetryDelay => " ms"
    case SyncRetryNodes => " node(s)"
    case BatchSize => " B"
    case MaxBatchDelay => " ms"
    case ConsensusTps => " tx/s"
    case ConsensusBps => " B/s"
    case ConsensusLatency => " ms"
    case EndToEndTps => " tx/s"
    case EndToEndBps => " B/s"
    case EndToEndLatency => " ms"
  }

  // The first three figures are printed plainly, the others with thousands separators.
  predicate IsPlain(n: Name) {
    n == Faults || n == CommitteeSize || n == Workers
  }

  function ValueText(r: Report, n: Name, separators: bool): string
    requires Complete(r)
  {
    if n == Collocate then (if r.collocate then "True" else "False")
    else if separators && !IsPlain(n) then Grouped(r.figures[n])
    else Numeral(r.figures[n])
  }

  datatype Line = Colon | Dashes | ConfigTitle | ResultsTitle | Blank | Field(name: Name)

  const DASHES: string := "-----------------------------------------"

  // The text of the lines that hold no figure.
  function PlainText(l: Line): string
    requires !l.Field?
  {
    match l
    case Colon => ":"
    case Dashes => DASHES
    case ConfigTitle => " + CONFIG:"
    case ResultsTitle => " + RESULTS:"
    case Blank => ""
  }

  // The lines from the word SUMMARY on.
  const BODY: seq<Line> := [
    Colon, Dashes, ConfigTitle,
    Field(Faults), Field(CommitteeSize), Field(Workers), Field(Collocate), Field(InputRate), Field(TxSize),
    Field(ExecutionTime), Blank,
    Field(HeaderSize), Field(MaxHeaderDelay), Field(GcDepth), Field(SyncRetryDelay), Field(SyncRetryNodes),
    Field(BatchSize), Field(MaxBatchDelay), Blank, ResultsTitle,
    Field(ConsensusTps), Field(ConsensusBps), Field(ConsensusLatency), Blank,
    Field(EndToEndTps), Field(EndToEndBps), Field(EndToEndLatency), Dashes]

  function LineText(r: Report, l: Line, separators: bool): string
    requires Complete(r)
  {
    match l
    case Field(n) => LabelOf(n) + (ValueText(r, n, separators) + UnitOf(n))
    case _ => PlainText(l)
  }

  function LinesText(r: Report, lines: seq<Line>, separators: bool): string
    requires Complete(r)
  {
    if lines == [] then ""
    else LineText(r, lines[0], separators) + "\n" + LinesText(r, lines[1..], separators)
  }

  const HEAD: string := "\n" + DASHES + "\n "
  const SEPARATOR: string := "SUMMARY"

  /** The printed summary. */
  function Print(r: Report, separators: bool): string
    requires Complete(r)
  {
    HEAD + SEPARATOR + LinesText(r, BODY, separators)
  }

  // Appending every run's summary to one text.
  function PrintAll(rs: seq<Report>, separators: bool): string
    requires forall r :: r in rs ==> Complete(r)
  {
    if rs == [] then "" else Print(rs[0], separators) + PrintAll(rs[1..], separators)
  }

  // ----- reading -----

  // The fields the aggregator searches for.
  predicate IsRead(n: Name) {
    n in {Faults, CommitteeSize, Workers, Collocate, InputRate, TxSize, EndToEndTps, EndToEndLatency}
  }

  // The text in front of the value in the pattern of each.
  function KeyOf(n: Name): string
    requires IsRead(n)
  {
    match n
    case Faults => "Faults: "
    case CommitteeSize => "Committee size: "
    case Workers => "Worker(s) per node: "
    case Collocate => "Collocate primary and workers: "
    case InputRate => "Input rate: "
    case TxSize => "Transaction size: "
    case EndToEndTps => "End-to-end TPS: "
    case EndToEndLatency => "End-to-end latency: "
  }

  function ReadNumber(key: string, text: string): Option<nat> {
    match Find(key, StartsWithDigit, text)
    case None => None
    case Some(after) => Some(ParseDecimal(LeadingDigits(after)))
  }

  predicate StartsWithDigit(s: string) {
    s != "" && IsDigit(s[0])
  }

  predicate StartsWithBool(s: string) {
    "True" <= s || "False" <= s
  }

  function ReadBool(key: string, text: string): Option<bool> {
    match Find(key, StartsWithBool, text)
    case None => None
    case Some(after) => Some("True" <= after)
  }

  function ReadSetup(raw: string): Option<Setup> {
    match (ReadNumber(KeyOf(Faults), raw), ReadNumber(KeyOf(CommitteeSize), raw), ReadNumber(KeyOf(Workers), raw),
           ReadBool(KeyOf(Collocate), raw), ReadNumber(KeyOf(InputRate), raw), ReadNumber(KeyOf(TxSize), raw))
    case (Some(faults), Some(nodes), Some(workers), Some(collocate), Some(rate), Some(size)) =>
      Some(Setup(faults, nodes, workers, collocate, rate, size))
    case _ => None
  }

  function ReadResult(raw: string): Option<Result> {
    match (ReadNumber(KeyOf(EndToEndTps), raw), ReadNumber(KeyOf(EndToEndLatency), raw))
    case (Some(tps), Some(latency)) => Some(Result(tps, latency, 0, 0))
    case _ => None
  }

  /** Setup and result of one chunk; None when a search finds nothing, which is an exception. */
  function ReadChunk(chunk: string): Option<(Setup, Result)> {
    match (ReadSetup(chunk), ReadResult(chunk))
    case (Some(setup), Some(result)) => Some((setup, result))
    case _ => None
  }

  function ReadChunks(chunks: seq<string>): Option<seq<(Setup, Result)>> {
    if chunks == [] then Some([])
    else if chunks[0] == "" then ReadChunks(chunks[1..])
    else match (ReadChunk(chunks[0]), ReadChunks(chunks[1..]))
      case (Some(record), Some(rest)) => Some([record] + rest)
      case _ => None
  }

  /** Commas out, split at SUMMARY, the text before the first one dropped, every chunk read. */
  function ReadAll(data: string): Option<seq<(Setup, Result)>> {
    ReadChunks(Split(StripCommas(data), SEPARATOR)[1..])
  }
}
