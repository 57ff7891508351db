/** The labels of the summary: one colon each, and no searched key at the end of another label. */
module SummaryLabels {

  import opened TextSearch
  import opened Summary

  predicate Ordinary(c: char) {
    c != ':' && c != '\n' && c != ',' && c != 'Y'
  }

  predicate WellShaped(s: string) {
    && |s| > 8 && s[0] == ' ' && s[|s| - 2] == ':' && s[|s| - 1] == ' '
    && forall i :: 0 <= i < |s| - 2 ==> Ordinary(s[i])
  }

  lemma ShapeOfSetup()
    ensures WellShaped(LabelOf(Faults)) && WellShaped(LabelOf(CommitteeSize)) && WellShaped(LabelOf(Workers))
    ensures WellShaped(LabelOf(Collocate)) && WellShaped(LabelOf(InputRate))
  {
  }

  lemma ShapeOfSizes()
    ensures WellShaped(LabelOf(TxSize)) && WellShaped(LabelOf(ExecutionTime)) && WellShaped(LabelOf(HeaderSize))
    ensures WellShaped(LabelOf(MaxHeaderDelay)) && WellShaped(LabelOf(GcDepth))
  {
  }

  lemma ShapeOfSync()
    ensures WellShaped(LabelOf(SyncRetryDelay)) && WellShaped(LabelOf(SyncRetryNodes)) && WellShaped(LabelOf(BatchSize))
    ensures WellShaped(LabelOf(MaxBatchDelay)) && WellShaped(LabelOf(ConsensusTps))
  {
  }

  lemma ShapeOfResults()
    ensures WellShaped(LabelOf(ConsensusBps)) && WellShaped(LabelOf(ConsensusLatency))
    ensures WellShaped(LabelOf(EndToEndTps))
    ensures WellShaped(LabelOf(EndToEndBps)) && WellShaped(LabelOf(EndToEndLatency))
  {
  }

  lemma LabelShape(n: Name)
    ensures WellShaped(LabelOf(n))
  {
    ShapeOfSetup();
    ShapeOfSizes();
    ShapeOfSync();
    ShapeOfResults();
  }

  lemma LabelIsLabel(n: Name)
    ensures IsLabel(LabelOf(n)) && ',' !in LabelOf(n) && 'Y' !in LabelOf(n)
    ensures IsRead(n) ==> IsLabel(KeyOf(n)) && EndsWith(LabelOf(n), KeyOf(n))
  {
    LabelShape(n);
    if IsRead(n) { KeyEndsLabel(n); }
    ShapeGivesLabel(LabelOf(n));
  }

  lemma ShapeGivesLabel(s: string)
    requires WellShaped(s)
    ensures IsLabel(s) && ',' !in s && 'Y' !in s
    ensures IsLabel(s[1..]) && EndsWith(s, s[1..])
  {
    forall i | 0 <= i < |s|
      ensures s[i] != '\n' && s[i] != ',' && s[i] != 'Y' && (i < |s| - 2 ==> s[i] != ':')
    {
      if i < |s| - 2 { assert Ordinary(s[i]); }
    }
  }

  /** What is searched for is what is printed, but for the space in front. */
  lemma KeyEndsLabel(n: Name)
    requires IsRead(n)
    ensures KeyOf(n) == LabelOf(n)[1..]
  {
    match n
    case Faults =>
    case CommitteeSize =>
    case Workers =>
    case Collocate =>
    case InputRate =>
    case TxSize =>
    case EndToEndTps =>
    case EndToEndLatency =>
  }

  // ----- telling labels apart -----

  // Two labels with different characters at one of these distances from their ends.
  predicate Differ(s: string, t: string) {
    && |s| > 8 && |t| > 8
    && (s[|s| - 3] != t[|t| - 3] || s[|s| - 4] != t[|t| - 4] || s[|s| - 5] != t[|t| - 5] || s[|s| - 8] != t[|t| - 8])
  }

  lemma DifferMeansApart(s: string, t: string)
    requires Differ(s, t)
    ensures !EndsWith(s, t[1..])
  {
    var key := t[1..];
    var n := |key|;
    assert key[n - 3] == t[|t| - 3] && key[n - 4] == t[|t| - 4] && key[n - 5] == t[|t| - 5] && key[n - 8] == t[|t| - 8];
    if n <= |s| {
      var end := s[|s| - n..];
      assert end[n - 3] == s[|s| - 3] && end[n - 4] == s[|s| - 4];
      assert end[n - 5] == s[|s| - 5] && end[n - 8] == s[|s| - 8];
    }
  }

  lemma FaultsApart(n: Name)
    requires n != Faults
    ensures Differ(LabelOf(n), LabelOf(Faults))
  {
  }

  lemma CommitteeSizeApart(n: Name)
    requires n != CommitteeSize
    ensures Differ(LabelOf(n), LabelOf(CommitteeSize))
  {
  }

  lemma WorkersApart(n: Name)
    requires n != Workers
    ensures Differ(LabelOf(n), LabelOf(Workers))
  {
  }

  lemma CollocateApart(n: Name)
    requires n != Collocate
    ensures Differ(LabelOf(n), LabelOf(Collocate))
  {
  }

  lemma InputRateApart(n: Name)
    requires n != InputRate
    ensures Differ(LabelOf(n), LabelOf(InputRate))
  {
  }

  lemma TxSizeApart(n: Name)
    requires n != TxSize
    ensures Differ(LabelOf(n), LabelOf(TxSize))
  {
  }

  lemma TpsApart(n: Name)
    requires n != EndToEndTps
    ensures Differ(LabelOf(n), LabelOf(EndToEndTps))
  {
  }

  lemma LatencyApart(n: Name)
    requires n != EndToEndLatency && n != ConsensusLatency
    ensures Differ(LabelOf(n), LabelOf(EndToEndLatency))
  {
  }

  lemma LatenciesApart()
    ensures !EndsWith(LabelOf(ConsensusLatency), KeyOf(EndToEndLatency))
  {
    var s, key := LabelOf(ConsensusLatency), KeyOf(EndToEndLatency);
    KeyEndsLabel(EndToEndLatency);
    var d := |s| - |key|;
    assert s[d..][|key| - 11] == s[|s| - 11] == 's';
    assert key[|key| - 11] == 'd';
  }

  /** No label but its own ends with a key that is searched for. */
  lemma LabelsApart(k: Name, n: Name)
    requires IsRead(k) && n != k
    ensures !EndsWith(LabelOf(n), KeyOf(k))
  {
    KeyEndsLabel(k);
    if k == EndToEndLatency && n == ConsensusLatency {
      LatenciesApart();
    } else {
      AllDiffer(k, n);
      DifferMeansApart(LabelOf(n), LabelOf(k));
    }
  }

  lemma AllDiffer(k: Name, n: Name)
    requires IsRead(k) && n != k && !(k == EndToEndLatency && n == ConsensusLatency)
    ensures Differ(LabelOf(n), LabelOf(k))
  {
    match k
    case Faults => FaultsApart(n);
    case CommitteeSize => CommitteeSizeApart(n);
    case Workers => WorkersApart(n);
    case Collocate => CollocateApart(n);
    case InputRate => InputRateApart(n);
    case TxSize => TxSizeApart(n);
    case EndToEndTps => TpsApart(n);
    case EndToEndLatency => LatencyApart(n);
  }
}
