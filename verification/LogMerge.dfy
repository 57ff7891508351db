/** Merging the timestamps of several logs, earliest first. */
module LogMerge {

  import opened Sequences

  type Entry = (string, real)

  // Exactly the keys that occur, each with its least timestamp.
  ghost predicate Earliest(entries: seq<Entry>, merged: map<string, real>) {
    && (forall e :: e in entries ==> e.0 in merged && merged[e.0] <= e.1)
    && (forall k :: k in merged ==> (k, merged[k]) in entries)
  }

  method MergeResults(input: seq<seq<Entry>>) returns (merged: map<string, real>)
    ensures Earliest(Concat(input), merged)
  {
    merged := map[];
    for i := 0 to |input|
      invariant Earliest(Concat(input[..i]), merged)
    {
      var entries := input[i];
      assert input[..i + 1] == input[..i] + [entries];
      ConcatAppend(input[..i], [entries]);
      ConcatOne(entries);
      for j := 0 to |entries|
        invariant Earliest(Concat(input[..i]) + entries[..j], merged)
      {
        var (k, v) := entries[j];
        assert entries[..j + 1] == entries[..j] + [(k, v)];
        if k !in merged || merged[k] > v {
          merged := merged[k := v];
        }
      }
      assert entries[..|entries|] == entries;
    }
    assert input[..|input|] == input;
  }

  /** Order and repetition do not matter: the same entries merge to the same map. */
  lemma EarliestUnique(a: seq<Entry>, b: seq<Entry>, m: map<string, real>, n: map<string, real>)
    requires Earliest(a, m) && Earliest(b, n) && forall e :: e in a <==> e in b
    ensures m == n
  {
    forall k | k in m
      ensures k in n && n[k] == m[k]
    {
      assert (k, m[k]) in b;
      assert (k, n[k]) in a;
    }
    forall k | k in n
      ensures k in m
    {
      assert (k, n[k]) in a;
    }
  }

  // items() of a dictionary, in some order.
  ghost predicate Items(m: map<string, real>, items: seq<Entry>) {
    forall k, v :: (k, v) in items <==> k in m && m[k] == v
  }

  /** Merging each log first and then the merged logs is one flat merge. */
  lemma TwoLevelMerge(logs: seq<seq<Entry>>, perLog: seq<map<string, real>>, items: seq<seq<Entry>>,
                      merged: map<string, real>)
    requires |logs| == |perLog| == |items|
    requires forall j :: 0 <= j < |logs| ==> Earliest(logs[j], perLog[j]) && Items(perLog[j], items[j])
    requires Earliest(Concat(items), merged)
    ensures Earliest(Concat(logs), merged)
  {
    forall e | e in Concat(logs)
      ensures e.0 in merged && merged[e.0] <= e.1
    {
      InConcat(logs, e);
      var j :| 0 <= j < |logs| && e in logs[j];
      var first := (e.0, perLog[j][e.0]);
      assert first in items[j];
      InConcat(items, first);
      assert first in Concat(items);
    }
    forall k | k in merged
      ensures (k, merged[k]) in Concat(logs)
    {
      var e := (k, merged[k]);
      InConcat(items, e);
      var j :| 0 <= j < |items| && e in items[j];
      assert k in perLog[j] && perLog[j][k] == merged[k];
      InConcat(logs, e);
      assert e in logs[j];
    }
  }

  /** The parser's own use: per-log merges handed on as dictionaries, whatever order they list. */
  method MergeLogs(logs: seq<seq<Entry>>) returns (merged: map<string, real>)
    ensures Earliest(Concat(logs), merged)
  {
    var items: seq<seq<Entry>> := [];
    ghost var perLog: seq<map<string, real>> := [];
    for j := 0 to |logs|
      invariant |items| == |perLog| == j
      invariant forall i :: 0 <= i < j ==> Earliest(logs[i], perLog[i]) && Items(perLog[i], items[i])
    {
      var one := MergeResults([logs[j]]);
      ConcatOne(logs[j]);
      var listed := ListItems(one);
      items, perLog := items + [listed], perLog + [one];
    }
    merged := MergeResults(items);
    TwoLevelMerge(logs, perLog, items, merged);
  }

  method ListItems(m: map<string, real>) returns (items: seq<Entry>)
    ensures Items(m, items)
  {
    items := [];
    var keys := m.Keys;
    while keys != {}
      invariant keys <= m.Keys
      invariant forall k, v :: (k, v) in items <==> k in m && k !in keys && m[k] == v
      decreases |keys|
    {
      var k :| k in keys;
      items := items + [(k, m[k])];
      keys := keys - {k};
    }
  }
}
