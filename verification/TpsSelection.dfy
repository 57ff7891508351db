/** Selecting the best throughput per latency bound from the aggregated benchmark records. */
module TpsSelection {

  import opened Options

  datatype Setup = Setup(faults: int, nodes: int, workers: int, collocate: bool, rate: int, txSize: int)

  datatype Result = Result(meanTps: int, meanLatency: int, stdTps: int, stdLatency: int)

  // A setup with its rate set to 'any', one of nodes and workers to 'x' (None), and a latency bound.
  datatype Group = Group(faults: int, nodes: Option<int>, workers: Option<int>, collocate: bool,
                         txSize: int, maxLatency: int)

  // One entry of a group: the value of the 'x' and the record kept for it.
  datatype Point = Point(variable: int, result: Result)

  type Records = seq<(Setup, Result)>

  function GroupOf(s: Setup, maxLatency: int, scalability: bool): Group {
    if scalability then Group(s.faults, Some(s.nodes), None, s.collocate, s.txSize, maxLatency)
    else Group(s.faults, None, Some(s.workers), s.collocate, s.txSize, maxLatency)
  }

  function VariableOf(s: Setup, scalability: bool): int {
    if scalability then s.workers else s.nodes
  }

  // ----- specification -----

  predicate Belongs(record: (Setup, Result), g: Group, scalability: bool) {
    record.1.meanLatency <= g.maxLatency && GroupOf(record.0, g.maxLatency, scalability) == g
  }

  /** The records of a group within its latency bound, in record order. */
  function Candidates(records: Records, g: Group, scalability: bool): seq<Point> {
    if records == [] then [] else
    var last := records[|records| - 1];
    Candidates(records[..|records| - 1], g, scalability) +
    if Belongs(last, g, scalability) then [Point(VariableOf(last.0, scalability), last.1)] else []
  }

  predicate Unique(list: seq<Point>) {
    forall i, j :: 0 <= i < j < |list| ==> list[i].variable != list[j].variable
  }

  // The highest throughput among the points with its variable, and the first of those.
  ghost predicate FirstBest(points: seq<Point>, p: Point) {
    exists j :: IsFirstBest(points, p, j)
  }

  ghost predicate IsFirstBest(points: seq<Point>, p: Point, j: int) {
    && 0 <= j < |points| && points[j] == p
    && forall k :: 0 <= k < |points| && points[k].variable == p.variable ==>
         points[k].result.meanTps <= p.result.meanTps &&
         (k < j ==> points[k].result.meanTps < p.result.meanTps)
  }

  predicate Covers(list: seq<Point>, variable: int) {
    exists i :: 0 <= i < |list| && list[i].variable == variable
  }

  /** Exactly one entry per variable value that occurs, being its first best point. */
  ghost predicate Selection(points: seq<Point>, list: seq<Point>) {
    && Unique(list)
    && (forall p :: p in list ==> FirstBest(points, p))
    && (forall k :: 0 <= k < |points| ==> Covers(list, points[k].variable))
  }

  // ----- one point -----

  function IndexOf(list: seq<Point>, p: Point): (i: nat)
    requires p in list
    ensures i < |list| && list[i] == p && forall j :: 0 <= j < i ==> list[j] != p
  {
    if list[0] == p then 0 else 1 + IndexOf(list[1..], p)
  }

  // list.remove(p)
  function Remove(list: seq<Point>, p: Point): seq<Point>
    requires p in list
  {
    var i := IndexOf(list, p);
    list[..i] + list[i + 1..]
  }

  // Keeping the better of the old and the new point of a variable; the newer one goes last.
  ghost predicate Kept(list: seq<Point>, p: Point, list': seq<Point>) {
    if !Covers(list, p.variable) then list' == list + [p]
    else exists i :: 0 <= i < |list| && KeptAt(list, p, i, list')
  }

  predicate KeptAt(list: seq<Point>, p: Point, i: nat, list': seq<Point>)
    requires i < |list|
  {
    && list[i].variable == p.variable
    && list' == if p.result.meanTps > list[i].result.meanTps then list[..i] + list[i + 1..] + [p] else list
  }

  /**
   The body of the innermost loop: it removes from the list it is iterating over, which skips the
   element after the removed one. With one entry per variable nothing is missed.
   */
  method KeepBest(list: seq<Point>, p: Point) returns (kept: seq<Point>)
    requires Unique(list)
    ensures Kept(list, p, kept)
  {
    kept := list;
    var newPoint := !Covers(list, p.variable);
    var highestTps := false;
    var i := 0;
    ghost var at := 0;
    while i < |kept|
      invariant 0 <= i
      invariant !highestTps ==> kept == list
      invariant !highestTps ==> forall j :: 0 <= j < i && j < |list| && list[j].variable == p.variable ==>
        p.result.meanTps <= list[j].result.meanTps
      invariant highestTps ==> 0 <= at < |list| && KeptAt(list, p, at, kept + [p])
      invariant highestTps ==> p.result.meanTps > list[at].result.meanTps && kept == list[..at] + list[at + 1..]
      decreases |kept| - i
    {
      var q := kept[i];
      if p.result.meanTps > q.result.meanTps && p.variable == q.variable {
        at := i;
        assert IndexOf(kept, q) == i;
        kept := Remove(kept, q);
        highestTps := true;
      }
      i := i + 1;
    }
    if newPoint || highestTps {
      kept := kept + [p];
    } else {
      var j :| 0 <= j < |list| && list[j].variable == p.variable;
      assert KeptAt(list, p, j, list);
    }
  }

  lemma FirstBestExtends(points: seq<Point>, p: Point, q: Point)
    requires FirstBest(points, q) && (p.variable == q.variable ==> p.result.meanTps <= q.result.meanTps)
    ensures FirstBest(points + [p], q)
  {
    var j :| IsFirstBest(points, q, j);
    assert IsFirstBest(points + [p], q, j);
  }

  lemma KeptIsUnique(list: seq<Point>, p: Point, list': seq<Point>)
    requires Unique(list) && Kept(list, p, list')
    ensures Unique(list')
    ensures forall q :: q in list' ==> q == p || q in list
  {
  }

  /** Keeping the better point maintains the selection. */
  lemma KeptSelects(points: seq<Point>, list: seq<Point>, p: Point, list': seq<Point>)
    requires Selection(points, list) && Kept(list, p, list')
    ensures Selection(points + [p], list')
  {
    KeptIsUnique(list, p, list');
    if !Covers(list, p.variable) {
      KeptNew(points, list, p);
    } else {
      var i :| 0 <= i < |list| && KeptAt(list, p, i, list');
      if p.result.meanTps > list[i].result.meanTps {
        KeptReplaced(points, list, p, i);
      } else {
        KeptOld(points, list, p, i);
      }
    }
  }

  lemma KeptNew(points: seq<Point>, list: seq<Point>, p: Point)
    requires Selection(points, list) && !Covers(list, p.variable)
    requires Unique(list + [p])
    ensures Selection(points + [p], list + [p])
  {
    var list' := list + [p];
    forall q | q in list'
      ensures FirstBest(points + [p], q)
    {
      if q in list { FirstBestExtends(points, p, q); } else { assert IsFirstBest(points + [p], p, |points|); }
    }
    forall k | 0 <= k < |points + [p]|
      ensures Covers(list', (points + [p])[k].variable)
    {
      if k < |points| {
        var i :| 0 <= i < |list| && list[i].variable == points[k].variable;
        assert list'[i].variable == points[k].variable;
      } else {
        assert list'[|list|].variable == p.variable;
      }
    }
  }

  lemma KeptReplaced(points: seq<Point>, list: seq<Point>, p: Point, i: nat)
    requires Selection(points, list) && i < |list| && list[i].variable == p.variable
    requires p.result.meanTps > list[i].result.meanTps && Unique(list[..i] + list[i + 1..] + [p])
    ensures Selection(points + [p], list[..i] + list[i + 1..] + [p])
  {
    var list' := list[..i] + list[i + 1..] + [p];
    assert list[i] in list;
    forall q | q in list'
      ensures FirstBest(points + [p], q)
    {
      if q != p {
        assert q in list && q.variable != p.variable;
        FirstBestExtends(points, p, q);
      } else {
        var j :| IsFirstBest(points, list[i], j);
        assert IsFirstBest(points + [p], p, |points|);
      }
    }
    forall k | 0 <= k < |points + [p]|
      ensures Covers(list', (points + [p])[k].variable)
    {
      var v := (points + [p])[k].variable;
      if v == p.variable {
        assert list'[|list| - 1].variable == v;
      } else {
        var m :| 0 <= m < |list| && list[m].variable == v;
        assert list'[if m < i then m else m - 1].variable == v;
      }
    }
  }

  lemma KeptOld(points: seq<Point>, list: seq<Point>, p: Point, i: nat)
    requires Selection(points, list) && i < |list| && list[i].variable == p.variable
    requires p.result.meanTps <= list[i].result.meanTps
    ensures Selection(points + [p], list)
  {
    forall q | q in list
      ensures FirstBest(points + [p], q)
    {
      FirstBestExtends(points, p, q);
    }
  }

  // ----- sorting a group -----

  predicate Ascending(list: seq<Point>) {
    forall i, j :: 0 <= i < j < |list| ==> list[i].variable < list[j].variable
  }

  // Python's stable sort by variable.
  function Insert(p: Point, list: seq<Point>): seq<Point> {
    if list == [] || p.variable < list[0].variable then [p] + list else [list[0]] + Insert(p, list[1..])
  }

  function Sort(list: seq<Point>): seq<Point> {
    if list == [] then [] else Insert(list[|list| - 1], Sort(list[..|list| - 1]))
  }

  lemma {:induction false} InsertKeeps(p: Point, list: seq<Point>)
    requires Ascending(list) && forall q :: q in list ==> q.variable != p.variable
    ensures Ascending(Insert(p, list))
    ensures forall q :: q in Insert(p, list) <==> q == p || q in list
    decreases list
  {
    if list != [] && list[0].variable <= p.variable {
      var rest := list[1..];
      InsertKeeps(p, rest);
      assert list == [list[0]] + rest;
      assert list[0] in list;
      assert forall q :: q in Insert(p, rest) ==> list[0].variable < q.variable;
      AscendingCons(list[0], Insert(p, rest));
    }
  }

  lemma AscendingCons(p: Point, list: seq<Point>)
    requires Ascending(list) && forall q :: q in list ==> p.variable < q.variable
    ensures Ascending([p] + list)
  {
  }

  lemma {:induction false} SortKeeps(list: seq<Point>)
    requires Unique(list)
    ensures Ascending(Sort(list)) && forall q :: q in Sort(list) <==> q in list
    decreases list
  {
    if list != [] {
      var n := |list| - 1;
      SortKeeps(list[..n]);
      assert list == list[..n] + [list[n]];
      forall q | q in Sort(list[..n])
        ensures q.variable != list[n].variable
      {
        assert q in list[..n];
      }
      InsertKeeps(list[n], Sort(list[..n]));
    }
  }

  lemma SortSelects(points: seq<Point>, list: seq<Point>)
    requires Selection(points, list)
    ensures Selection(points, Sort(list)) && Ascending(Sort(list))
  {
    SortKeeps(list);
    var sorted := Sort(list);
    forall k | 0 <= k < |points|
      ensures Covers(sorted, points[k].variable)
    {
      var i :| 0 <= i < |list| && list[i].variable == points[k].variable;
      assert list[i] in sorted;
    }
  }

  // ----- the whole selection -----

  type Organized = map<Group, seq<Point>>

  ghost predicate Holds(points: seq<Point>, organized: Organized, g: Group) {
    if points == [] then g !in organized else g in organized && Selection(points, organized[g])
  }

  // Where the passes stand: latencies before `done` fully, the one at `done` up to record i.
  ghost predicate Progress(records: Records, maxLatencies: seq<int>, scalability: bool, done: nat, i: nat,
                           organized: Organized, g: Group)
    requires done <= |maxLatencies| && i <= |records| && (done == |maxLatencies| ==> i == 0)
  {
    if g.maxLatency in maxLatencies[..done] then Holds(Candidates(records, g, scalability), organized, g)
    else if i > 0 && g.maxLatency == maxLatencies[done] then
      Holds(Candidates(records[..i], g, scalability), organized, g)
    else g !in organized
  }

  ghost predicate AllProgress(records: Records, maxLatencies: seq<int>, scalability: bool, done: nat, i: nat,
                              organized: Organized)
    requires done <= |maxLatencies| && i <= |records| && (done == |maxLatencies| ==> i == 0)
  {
    forall g :: Progress(records, maxLatencies, scalability, done, i, organized, g)
  }

  lemma CandidatesStep(records: Records, i: nat, g: Group, scalability: bool)
    requires i < |records|
    ensures Candidates(records[..i + 1], g, scalability) == Candidates(records[..i], g, scalability) +
      if Belongs(records[i], g, scalability) then [Point(VariableOf(records[i].0, scalability), records[i].1)] else []
  {
    assert records[..i + 1][..i] == records[..i];
  }

  lemma {:induction false} CandidateOf(records: Records, i: nat, g: Group, scalability: bool)
    requires i < |records| && Belongs(records[i], g, scalability)
    ensures Point(VariableOf(records[i].0, scalability), records[i].1) in Candidates(records, g, scalability)
    decreases |records|
  {
    var n := |records| - 1;
    if i < n { CandidateOf(records[..n], i, g, scalability); }
  }

  // A point that was already weighed changes nothing.
  lemma KeptAgain(points: seq<Point>, list: seq<Point>, p: Point, list': seq<Point>)
    requires Selection(points, list) && p in points && Kept(list, p, list')
    ensures list' == list
  {
    var k :| 0 <= k < |points| && points[k] == p;
    assert Covers(list, points[k].variable);
    var i :| 0 <= i < |list| && KeptAt(list, p, i, list');
    assert list[i] in list && FirstBest(points, list[i]);
  }

  // ----- the selection on the records' own fields -----

  // A record of a group, the value of the 'x' being v: workers vary under scalability, nodes otherwise.
  predicate Fits(record: (Setup, Result), g: Group, scalability: bool, v: int) {
    var (s, r) := record;
    && s.faults == g.faults && s.collocate == g.collocate && s.txSize == g.txSize && r.meanLatency <= g.maxLatency
    && if scalability then v == s.workers && g.workers == None && g.nodes == Some(s.nodes)
       else v == s.nodes && g.nodes == None && g.workers == Some(s.workers)
  }

  // Record j is the entry's: no record with its value has a higher throughput, and no earlier one as high.
  ghost predicate IsBestRecord(records: Records, g: Group, scalability: bool, p: Point, j: int) {
    && 0 <= j < |records| && Fits(records[j], g, scalability, p.variable) && records[j].1 == p.result
    && forall k :: 0 <= k < |records| && Fits(records[k], g, scalability, p.variable) ==>
         records[k].1.meanTps <= p.result.meanTps && (k < j ==> records[k].1.meanTps < p.result.meanTps)
  }

  // One entry per value that occurs, being the first best record with it.
  ghost predicate Selects(records: Records, g: Group, scalability: bool, list: seq<Point>) {
    && Unique(list)
    && (forall p :: p in list ==> exists j :: IsBestRecord(records, g, scalability, p, j))
    && (forall j, v :: 0 <= j < |records| && Fits(records[j], g, scalability, v) ==> Covers(list, v))
  }

  ghost predicate HasRecord(records: Records, g: Group, scalability: bool) {
    exists j, v :: 0 <= j < |records| && Fits(records[j], g, scalability, v)
  }

  lemma FitsIff(record: (Setup, Result), g: Group, scalability: bool, v: int)
    ensures Fits(record, g, scalability, v) <==>
      Belongs(record, g, scalability) && v == VariableOf(record.0, scalability)
  {
  }

  lemma {:induction false} BestCandidateIsRecord(records: Records, g: Group, scalability: bool, p: Point, c: nat)
      returns (j: nat)
    requires IsFirstBest(Candidates(records, g, scalability), p, c)
    ensures IsBestRecord(records, g, scalability, p, j)
    decreases |records|
  {
    var n := |records| - 1;
    var before, last := Candidates(records[..n], g, scalability), records[n];
    FitsIff(last, g, scalability, p.variable);
    if c < |before| {
      assert IsFirstBest(before, p, c) by {
        assert forall k :: 0 <= k < |before| ==> before[k] == Candidates(records, g, scalability)[k];
      }
      j := BestCandidateIsRecord(records[..n], g, scalability, p, c);
      if Fits(last, g, scalability, p.variable) {
        assert Candidates(records, g, scalability)[|before|] == Point(p.variable, last.1);
      }
      assert forall k :: 0 <= k < n ==> records[..n][k] == records[k];
    } else {
      j := n;
      forall k | 0 <= k < n && Fits(records[k], g, scalability, p.variable)
        ensures records[k].1.meanTps < p.result.meanTps
      {
        FitsIff(records[k], g, scalability, p.variable);
        assert records[..n][k] == records[k];
        CandidateOf(records[..n], k, g, scalability);
        var i :| 0 <= i < |before| && before[i] == Point(p.variable, records[k].1);
        assert Candidates(records, g, scalability)[i] == before[i];
      }
    }
  }

  lemma {:induction false} HasRecordIff(records: Records, g: Group, scalability: bool)
    ensures HasRecord(records, g, scalability) <==> Candidates(records, g, scalability) != []
    decreases |records|
  {
    if HasRecord(records, g, scalability) {
      var j, v :| 0 <= j < |records| && Fits(records[j], g, scalability, v);
      FitsIff(records[j], g, scalability, v);
      CandidateOf(records, j, g, scalability);
    } else if records != [] {
      var n := |records| - 1;
      forall v
        ensures !Fits(records[n], g, scalability, v)
      {
      }
      FitsIff(records[n], g, scalability, VariableOf(records[n].0, scalability));
      assert !HasRecord(records[..n], g, scalability) by {
        assert forall j, v :: 0 <= j < n && Fits(records[..n][j], g, scalability, v) ==>
          Fits(records[j], g, scalability, v);
      }
      HasRecordIff(records[..n], g, scalability);
    }
  }

  /** A selection of the candidates selects among the records themselves. */
  lemma {:induction false} SelectionOfRecords(records: Records, g: Group, scalability: bool, list: seq<Point>)
    requires Selection(Candidates(records, g, scalability), list)
    ensures Selects(records, g, scalability, list)
  {
    var points := Candidates(records, g, scalability);
    forall p | p in list
      ensures exists j :: IsBestRecord(records, g, scalability, p, j)
    {
      var c :| IsFirstBest(points, p, c);
      var j := BestCandidateIsRecord(records, g, scalability, p, c);
    }
    forall j, v | 0 <= j < |records| && Fits(records[j], g, scalability, v)
      ensures Covers(list, v)
    {
      FitsIff(records[j], g, scalability, v);
      CandidateOf(records, j, g, scalability);
      var k :| 0 <= k < |points| && points[k] == Point(v, records[j].1);
      assert Covers(list, points[k].variable);
    }
  }

  /**
   One group per latency bound and projected setup that has a record within the bound; in each, one
   entry per variable value, ascending, being the highest-throughput record, the first on ties.
   */
  method PrintTps(records: Records, maxLatencies: seq<int>, scalability: bool) returns (organized: Organized)
    ensures forall g :: g in organized <==>
      g.maxLatency in maxLatencies && Candidates(records, g, scalability) != []
    ensures forall g :: g in organized ==>
      Ascending(organized[g]) && Selection(Candidates(records, g, scalability), organized[g])
    ensures forall g :: g in organized <==> g.maxLatency in maxLatencies && HasRecord(records, g, scalability)
    ensures forall g :: g in organized ==> Selects(records, g, scalability, organized[g])
  {
    var found: Organized := map[];
    for done := 0 to |maxLatencies|
      invariant AllProgress(records, maxLatencies, scalability, done, 0, found)
    {
      for i := 0 to |records|
        invariant AllProgress(records, maxLatencies, scalability, done, i, found)
      {
        found := WeighRecord(records, maxLatencies, scalability, done, i, found);
      }
      NextLatency(records, maxLatencies, scalability, done, found);
    }
    organized := map g | g in found :: Sort(found[g]);
    assert maxLatencies[..|maxLatencies|] == maxLatencies;
    forall g | g in organized
      ensures Ascending(organized[g]) && Selection(Candidates(records, g, scalability), organized[g])
      ensures Selects(records, g, scalability, organized[g])
    {
      assert Progress(records, maxLatencies, scalability, |maxLatencies|, 0, found, g);
      SortSelects(Candidates(records, g, scalability), found[g]);
      SelectionOfRecords(records, g, scalability, organized[g]);
    }
    forall g
      ensures g in organized <==> g.maxLatency in maxLatencies && Candidates(records, g, scalability) != []
      ensures HasRecord(records, g, scalability) <==> Candidates(records, g, scalability) != []
    {
      HasRecordIff(records, g, scalability);
      assert Progress(records, maxLatencies, scalability, |maxLatencies|, 0, found, g);
    }
  }

  method WeighRecord(records: Records, maxLatencies: seq<int>, scalability: bool, done: nat, i: nat, found: Organized)
    returns (found': Organized)
    requires done < |maxLatencies| && i < |records|
    requires AllProgress(records, maxLatencies, scalability, done, i, found)
    ensures AllProgress(records, maxLatencies, scalability, done, i + 1, found')
  {
    var (setup, result) := records[i];
    var maxLatency := maxLatencies[done];
    var group := GroupOf(setup, maxLatency, scalability);
    found' := found;
    var p := Point(VariableOf(setup, scalability), result);
    if result.meanLatency <= maxLatency {
      assert Progress(records, maxLatencies, scalability, done, i, found, group);
      var list := if group in found then found[group] else [];
      var kept := KeepBest(list, p);
      found' := found[group := kept];
      WeighedGroup(records, maxLatencies, scalability, done, i, found, group, p, kept);
    }
    var next := i + 1;
    forall g
      ensures Progress(records, maxLatencies, scalability, done, next, found', g)
    {
      if g != group || result.meanLatency > maxLatency {
        assert Progress(records, maxLatencies, scalability, done, i, found, g);
        OtherGroup(records, maxLatencies, scalability, done, i, found, found', g);
      }
    }
  }

  lemma OtherGroup(records: Records, maxLatencies: seq<int>, scalability: bool, done: nat, i: nat,
                   found: Organized, found': Organized, g: Group)
    requires done < |maxLatencies| && i < |records|
    requires Progress(records, maxLatencies, scalability, done, i, found, g)
    requires g.maxLatency == maxLatencies[done] ==> !Belongs(records[i], g, scalability)
    requires (g in found' <==> g in found) && (g in found ==> found'[g] == found[g])
    ensures Progress(records, maxLatencies, scalability, done, i + 1, found', g)
  {
    CandidatesStep(records, i, g, scalability);
    if g.maxLatency == maxLatencies[done] {
      var before := Candidates(records[..i], g, scalability);
      assert Candidates(records[..i + 1], g, scalability) == before + [] == before;
      assert i == 0 ==> before == [];
    }
  }

  lemma WeighedGroup(records: Records, maxLatencies: seq<int>, scalability: bool, done: nat, i: nat,
                     found: Organized, g: Group, p: Point, kept: seq<Point>)
    requires done < |maxLatencies| && i < |records|
    requires Progress(records, maxLatencies, scalability, done, i, found, g)
    requires g == GroupOf(records[i].0, maxLatencies[done], scalability) && Belongs(records[i], g, scalability)
    requires p == Point(VariableOf(records[i].0, scalability), records[i].1)
    requires Kept(if g in found then found[g] else [], p, kept)
    ensures Progress(records, maxLatencies, scalability, done, i + 1, found[g := kept], g)
  {
    CandidatesStep(records, i, g, scalability);
    if g.maxLatency in maxLatencies[..done] {
      CandidateOf(records, i, g, scalability);
      KeptAgain(Candidates(records, g, scalability), found[g], p, kept);
    } else {
      var before := Candidates(records[..i], g, scalability);
      if before == [] {
        assert Selection([], []);
        assert before + [p] == [p];
      }
      KeptSelects(before, if g in found then found[g] else [], p, kept);
    }
  }

  lemma NextLatency(records: Records, maxLatencies: seq<int>, scalability: bool, done: nat, found: Organized)
    requires done < |maxLatencies|
    requires AllProgress(records, maxLatencies, scalability, done, |records|, found)
    ensures AllProgress(records, maxLatencies, scalability, done + 1, 0, found)
  {
    assert records[..|records|] == records;
    assert maxLatencies[..done + 1] == maxLatencies[..done] + [maxLatencies[done]];
    var next := done + 1;
    forall g
      ensures Progress(records, maxLatencies, scalability, next, 0, found, g)
    {
      assert Progress(records, maxLatencies, scalability, done, |records|, found, g);
    }
  }

  // ----- what the selection means -----

  /** The selection of a group is determined: ascending lists with the property are equal. */
  lemma {:induction false} SelectionUnique(points: seq<Point>, a: seq<Point>, b: seq<Point>)
    requires Selection(points, a) && Selection(points, b) && Ascending(a) && Ascending(b)
    ensures a == b
  {
    SelectionContains(points, a, b);
    SelectionContains(points, b, a);
    SameMembersSameList(a, b);
  }

  lemma SelectionContains(points: seq<Point>, a: seq<Point>, b: seq<Point>)
    requires Selection(points, a) && Selection(points, b)
    ensures forall p :: p in a ==> p in b
  {
    forall p | p in a
      ensures p in b
    {
      var j :| IsFirstBest(points, p, j);
      assert Covers(b, points[j].variable);
      var i :| 0 <= i < |b| && b[i].variable == p.variable;
      assert b[i] in b;
      var j' :| IsFirstBest(points, b[i], j');
    }
  }

  lemma {:induction false} SameMembersSameList(a: seq<Point>, b: seq<Point>)
    requires Ascending(a) && Ascending(b) && forall p :: p in a <==> p in b
    ensures a == b
    decreases |a|
  {
    if a == [] {
      assert forall i :: 0 <= i < |b| ==> b[i] in b;
    } else {
      assert a[0] in b && b[0] in a;
      assert a[0] == b[0];
      forall p
        ensures p in a[1..] <==> p in b[1..]
      {
        assert p in a <==> p == a[0] || p in a[1..];
        assert p in b <==> p == b[0] || p in b[1..];
        assert p in a[1..] ==> p.variable > a[0].variable;
        assert p in b[1..] ==> p.variable > b[0].variable;
      }
      SameMembersSameList(a[1..], b[1..]);
    }
  }

  lemma {:induction false} MoreCandidates(records: Records, g: Group, h: Group, scalability: bool)
    requires g.maxLatency <= h.maxLatency && h == g.(maxLatency := h.maxLatency)
    ensures forall p :: p in Candidates(records, g, scalability) ==> p in Candidates(records, h, scalability)
    decreases |records|
  {
    if records != [] {
      MoreCandidates(records[..|records| - 1], g, h, scalability);
    }
  }

  /** Raising the latency bound never loses a variable value and never lowers its throughput. */
  lemma RaisingTheBound(records: Records, g: Group, h: Group, scalability: bool, low: seq<Point>, high: seq<Point>)
    requires g.maxLatency <= h.maxLatency && h == g.(maxLatency := h.maxLatency)
    requires Selection(Candidates(records, g, scalability), low)
    requires Selection(Candidates(records, h, scalability), high)
    ensures forall p :: p in low ==>
      exists q :: q in high && q.variable == p.variable && q.result.meanTps >= p.result.meanTps
  {
    var wide := Candidates(records, h, scalability);
    MoreCandidates(records, g, h, scalability);
    forall p | p in low
      ensures exists q :: q in high && q.variable == p.variable && q.result.meanTps >= p.result.meanTps
    {
      var narrow := Candidates(records, g, scalability);
      var j :| IsFirstBest(narrow, p, j);
      assert narrow[j] in narrow;
      var k :| 0 <= k < |wide| && wide[k] == p;
      assert Covers(high, wide[k].variable);
      var i :| 0 <= i < |high| && high[i].variable == p.variable;
      assert high[i] in high;
      var j' :| IsFirstBest(wide, high[i], j');
    }
  }
}
