/** Sequence helpers. */
module Sequences {

  function Concat<T>(parts: seq<seq<T>>): seq<T> {
    if parts == [] then [] else parts[0] + Concat(parts[1..])
  }

  lemma {:induction false} ConcatAppend<T>(a: seq<seq<T>>, b: seq<seq<T>>)
    ensures Concat(a + b) == Concat(a) + Concat(b)
  {
    if a == [] {
      assert a + b == b;
    } else {
      assert (a + b)[1..] == a[1..] + b;
      ConcatAppend(a[1..], b);
    }
  }

  lemma ConcatOne<T>(part: seq<T>)
    ensures Concat([part]) == part
  {
    assert [part][1..] == [];
  }

  lemma {:induction false} InConcat<T>(parts: seq<seq<T>>, x: T)
    ensures x in Concat(parts) <==> exists i :: 0 <= i < |parts| && x in parts[i]
    decreases |parts|
  {
    if parts != [] {
      InConcat(parts[1..], x);
      if x in Concat(parts) && x !in parts[0] {
        var i :| 0 <= i < |parts[1..]| && x in parts[1..][i];
        assert x in parts[i + 1];
      }
    }
  }

  /** With parts of one length, element i of the concatenation is found by division. */
  lemma {:induction false} ConcatAt<T>(parts: seq<seq<T>>, width: nat, part: nat, at: nat)
    requires forall i :: 0 <= i < |parts| ==> |parts[i]| == width
    requires part < |parts| && at < width
    ensures |Concat(parts)| == |parts| * width
    ensures 0 <= part * width + at < |Concat(parts)|
    ensures Concat(parts)[part * width + at] == parts[part][at]
    decreases part
  {
    ConcatLength(parts, width);
    if part > 0 {
      ConcatAt(parts[1..], width, part - 1, at);
      assert part * width == (part - 1) * width + width;
    } else {
      assert |parts| * width >= width;
    }
  }

  lemma {:induction false} ConcatLength<T>(parts: seq<seq<T>>, width: nat)
    requires forall i :: 0 <= i < |parts| ==> |parts[i]| == width
    ensures |Concat(parts)| == |parts| * width
    decreases |parts|
  {
    if parts != [] {
      ConcatLength(parts[1..], width);
      assert |parts| * width == (|parts| - 1) * width + width;
    }
  }

  // s[:k] for an index that may lie beyond the end.
  function Take<T>(s: seq<T>, k: nat): seq<T> {
    if k < |s| then s[..k] else s
  }
}
