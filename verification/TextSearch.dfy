/** Searching a text for a labelled value, and splitting it at a separator. */
module TextSearch {

  import opened Options

  // What re.search finds for a fixed key followed by something acceptable: the text after the
  // leftmost such key.
  function Find(key: string, ok: string -> bool, text: string): Option<string>
    decreases text
  {
    if text == "" then None
    else if key <= text && ok(text[|key|..]) then Some(text[|key|..])
    else Find(key, ok, text[1..])
  }

  predicate FoundAt(key: string, ok: string -> bool, text: string, i: nat) {
    i + |key| <= |text| && text[i..i + |key|] == key && ok(text[i + |key|..])
  }

  lemma FoundShifted(key: string, ok: string -> bool, text: string, i: nat)
    requires text != "" && i > 0
    ensures FoundAt(key, ok, text, i) == FoundAt(key, ok, text[1..], i - 1)
  {
    if i + |key| <= |text| {
      assert text[i..i + |key|] == text[1..][i - 1..i - 1 + |key|];
      assert text[i + |key|..] == text[1..][i - 1 + |key|..];
    }
  }

  lemma FoundAtFront(key: string, ok: string -> bool, text: string)
    ensures FoundAt(key, ok, text, 0) <==> key <= text && ok(text[|key|..])
  {
    assert key <= text ==> text[0..|key|] == key;
  }

  /** The search fails only when there is no place ... */
  lemma {:induction false} FindNone(key: string, ok: string -> bool, text: string, i: nat)
    requires key != "" && Find(key, ok, text) == None
    ensures !FoundAt(key, ok, text, i)
    decreases text
  {
    if text != "" {
      if i == 0 {
        FoundAtFront(key, ok, text);
      } else {
        FoundShifted(key, ok, text, i);
        FindNone(key, ok, text[1..], i - 1);
      }
    }
  }

  /** ... and otherwise gives what follows the leftmost. */
  lemma {:induction false} FindLeftmost(key: string, ok: string -> bool, text: string, i: nat) returns (at: nat)
    requires Find(key, ok, text).Some?
    ensures FoundAt(key, ok, text, at) && Find(key, ok, text).value == text[at + |key|..]
    ensures FoundAt(key, ok, text, i) ==> at <= i
    decreases text
  {
    FoundAtFront(key, ok, text);
    if key <= text && ok(text[|key|..]) {
      at := 0;
    } else {
      var k := FindLeftmost(key, ok, text[1..], if i > 0 then i - 1 else 0);
      at := k + 1;
      FoundShifted(key, ok, text, at);
      if i > 0 { FoundShifted(key, ok, text, i); }
      assert text[1..][k + |key|..] == text[at + |key|..];
    }
  }

  // A tag: one colon, second to last, then a space.
  predicate IsLabel(s: string) {
    && |s| > 2 && s[|s| - 2] == ':' && s[|s| - 1] == ' ' && '\n' !in s
    && forall i :: 0 <= i < |s| - 2 ==> s[i] != ':'
  }

  predicate EndsWith(s: string, key: string) {
    |key| <= |s| && s[|s| - |key|..] == key
  }

  // The key does not occur in the line.
  ghost predicate Misses(line: string, key: string) {
    forall i :: 0 <= i <= |line| - |key| ==> !OccursAt(line, key, i)
  }

  predicate OccursAt(line: string, key: string, i: nat)
    requires i + |key| <= |line|
  {
    line[i..i + |key|] == key
  }

  lemma {:induction false} FindSkipsLine(key: string, ok: string -> bool, line: string, rest: string)
    requires IsLabel(key) && '\n' !in line && Misses(line, key)
    ensures Find(key, ok, line + "\n" + rest) == Find(key, ok, rest)
    decreases line
  {
    var text := line + "\n" + rest;
    assert text[|line|] == '\n';
    if |line| < |key| {
      assert key[|line|] in key;
      assert key[|line|] != text[|line|];
    } else {
      assert !OccursAt(line, key, 0);
      assert line[0..|key|] == text[..|key|];
    }
    assert !(key <= text);
    if line == "" {
      assert text[1..] == rest;
    } else {
      var tail := line[1..];
      forall i | 0 <= i <= |tail| - |key|
        ensures !OccursAt(tail, key, i)
      {
        assert tail[i..i + |key|] == line[i + 1..i + 1 + |key|];
        assert !OccursAt(line, key, i + 1);
      }
      assert text[1..] == tail + "\n" + rest;
      FindSkipsLine(key, ok, tail, rest);
    }
  }

  lemma {:induction false} FindInShortText(key: string, ok: string -> bool, text: string)
    requires |text| < |key|
    ensures Find(key, ok, text) == None
    decreases text
  {
    if text != "" { FindInShortText(key, ok, text[1..]); }
  }

  // A line without ": " holds no key.
  lemma PlainMisses(line: string, key: string)
    requires IsLabel(key) && forall i :: 0 <= i < |line| - 1 ==> line[i] != ':'
    ensures Misses(line, key)
  {
    forall i | 0 <= i <= |line| - |key|
      ensures !OccursAt(line, key, i)
    {
      assert line[i..i + |key|][|key| - 2] == line[i + |key| - 2];
    }
  }

  // In a labelled line a key can only end where the tag ends.
  lemma LabelMisses(tag: string, value: string, key: string)
    requires IsLabel(key) && IsLabel(tag) && ':' !in value && !EndsWith(tag, key)
    ensures Misses(tag + value, key)
  {
    var line := tag + value;
    forall i | 0 <= i <= |line| - |key|
      ensures !OccursAt(line, key, i)
    {
      if i + |key| == |tag| {
        assert line[i..i + |key|] == tag[i..];
      } else {
        assert line[i..i + |key|][|key| - 2] == line[i + |key| - 2] != ':';
      }
    }
  }

  // ... and there it is found, if what follows is acceptable.
  lemma {:induction false} FindAtLabel(tag: string, value: string, key: string, ok: string -> bool, rest: string)
    requires IsLabel(key) && IsLabel(tag) && EndsWith(tag, key) && ':' !in value && '\n' !in value
    ensures Find(key, ok, tag + value + "\n" + rest) ==
      if ok(value + "\n" + rest) then Some(value + "\n" + rest) else Find(key, ok, rest)
    decreases |tag|
  {
    if |tag| == |key| {
      FindAtKey(value, key, ok, rest);
    } else {
      var text := tag + value + "\n" + rest;
      assert text[|key| - 2] == tag[|key| - 2] != ':';
      assert text[..|key|][|key| - 2] == text[|key| - 2];
      assert text[1..] == tag[1..] + value + "\n" + rest;
      assert tag[1..][|tag| - 1 - |key|..] == tag[|tag| - |key|..];
      FindAtLabel(tag[1..], value, key, ok, rest);
    }
  }

  lemma FindAtKey(value: string, key: string, ok: string -> bool, rest: string)
    requires IsLabel(key) && ':' !in value && '\n' !in value
    ensures Find(key, ok, key + value + "\n" + rest) ==
      if ok(value + "\n" + rest) then Some(value + "\n" + rest) else Find(key, ok, rest)
  {
    var text, after := key + value + "\n" + rest, value + "\n" + rest;
    assert text == key + after;
    assert key <= text && text[|key|..] == after;
    if !ok(after) {
      var tail := key[1..] + value;
      assert text[1..] == tail + "\n" + rest;
      SuffixMisses(key, value, key);
      FindSkipsLine(key, ok, tail, rest);
    }
  }

  lemma SuffixMisses(tag: string, value: string, key: string)
    requires IsLabel(tag) && key == tag && ':' !in value
    ensures Misses(tag[1..] + value, key)
  {
    var tail := tag[1..] + value;
    forall i | 0 <= i <= |tail| - |key|
      ensures !OccursAt(tail, key, i)
    {
      assert tail[i..i + |key|][|key| - 2] == tail[i + |key| - 2];
    }
  }

  // ----- splitting -----

  // text.split(sep)
  function Split(text: string, sep: string): (parts: seq<string>)
    requires sep != ""
    ensures |parts| > 0
    decreases text
  {
    if text == "" then [""]
    else if sep <= text then [""] + Split(text[|sep|..], sep)
    else var rest := Split(text[1..], sep); [[text[0]] + rest[0]] + rest[1..]
  }

  function Join(parts: seq<string>, sep: string): string
    requires parts != []
  {
    if |parts| == 1 then parts[0] else parts[0] + (sep + Join(parts[1..], sep))
  }

  /** Joining the parts gives the text back, and no part holds the separator. */
  lemma {:induction false} SplitJoins(text: string, sep: string)
    requires sep != ""
    ensures Join(Split(text, sep), sep) == text
    ensures forall k :: 0 <= k < |Split(text, sep)| ==> Misses(Split(text, sep)[k], sep)
    decreases text
  {
    var parts := Split(text, sep);
    if text == "" {
    } else if sep <= text {
      var rest := Split(text[|sep|..], sep);
      SplitJoins(text[|sep|..], sep);
      assert parts[1..] == rest && text == sep + text[|sep|..];
      assert "" + (sep + Join(rest, sep)) == sep + Join(rest, sep);
    } else {
      var rest := Split(text[1..], sep);
      SplitJoins(text[1..], sep);
      JoinPushes(text[0], rest, sep);
      assert text == [text[0]] + text[1..];
      FirstMisses(text, rest[0], sep, rest);
    }
  }

  lemma JoinPushes(c: char, parts: seq<string>, sep: string)
    requires parts != []
    ensures Join([[c] + parts[0]] + parts[1..], sep) == [c] + Join(parts, sep)
    ensures parts[0] <= Join(parts, sep)
  {
    var longer := [[c] + parts[0]] + parts[1..];
    if |parts| > 1 {
      assert longer[1..] == parts[1..];
      assert [c] + parts[0] + (sep + Join(parts[1..], sep)) == [c] + (parts[0] + (sep + Join(parts[1..], sep)));
    }
  }

  lemma FirstMisses(text: string, part: string, sep: string, parts: seq<string>)
    requires text != "" && sep != "" && !(sep <= text) && part <= text[1..] && Misses(part, sep)
    ensures Misses([text[0]] + part, sep)
  {
    var longer := [text[0]] + part;
    assert longer == text[..|longer|];
    forall i | 0 <= i <= |longer| - |sep|
      ensures !OccursAt(longer, sep, i)
    {
      if i == 0 {
        assert longer[0..|sep|] == text[..|sep|];
      } else {
        assert longer[i..i + |sep|] == part[i - 1..i - 1 + |sep|];
        assert !OccursAt(part, sep, i - 1);
      }
    }
  }

  // A separator whose last character occurs nowhere else in it.
  predicate IsSeparator(sep: string) {
    sep != "" && sep[|sep| - 1] !in sep[..|sep| - 1]
  }

  lemma {:induction false} SplitNone(text: string, sep: string)
    requires IsSeparator(sep) && sep[|sep| - 1] !in text
    ensures Split(text, sep) == [text]
    decreases text
  {
    if text != "" {
      if |sep| <= |text| {
        assert text[|sep| - 1] in text;
        assert text[..|sep|][|sep| - 1] == text[|sep| - 1];
      }
      SplitNone(text[1..], sep);
      assert [text[0]] + text[1..] == text;
    }
  }

  lemma {:induction false} SplitAt(before: string, sep: string, after: string)
    requires IsSeparator(sep) && sep[|sep| - 1] !in before
    ensures Split(before + sep + after, sep) == [before] + Split(after, sep)
    decreases before
  {
    var text := before + sep + after;
    if before == "" {
      assert text[|sep|..] == after;
      assert sep <= text;
    } else {
      var last := |sep| - 1;
      assert text[..|sep|][last] == text[last];
      if last < |before| {
        assert text[last] == before[last] && before[last] in before;
      } else {
        assert text[last] == sep[..last][last - |before|] && sep[..last][last - |before|] in sep[..last];
      }
      assert !(sep <= text);
      assert text[1..] == before[1..] + sep + after;
      SplitAt(before[1..], sep, after);
      assert [text[0]] + before[1..] == before;
    }
  }

  // ----- removing a character -----

  // text.replace(',', '')
  function StripCommas(text: string): string {
    if text == "" then "" else (if text[0] == ',' then "" else [text[0]]) + StripCommas(text[1..])
  }

  lemma {:induction false} StripAppend(a: string, b: string)
    ensures StripCommas(a + b) == StripCommas(a) + StripCommas(b)
    decreases a
  {
    if a == "" {
      assert a + b == b;
    } else {
      assert (a + b)[1..] == a[1..] + b;
      StripAppend(a[1..], b);
    }
  }

  lemma {:induction false} StripNothing(a: string)
    requires ',' !in a
    ensures StripCommas(a) == a
    decreases a
  {
    if a != "" { StripNothing(a[1..]); }
  }
}
