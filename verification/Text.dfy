/**
 Searching and splitting of byte strings, as std::string::find and the loops over
 path segments do it.
 */
module Text {
  import opened SortedMap

  /** std::string::find from a position on; None is npos. */
  function IndexOf(s: string, c: char, from: nat): (r: Option<nat>)
    requires from <= |s|
    ensures r.Some? ==> from <= r.value < |s| && s[r.value] == c
    ensures r.Some? ==> forall i :: from <= i < r.value ==> s[i] != c
    ensures r.None? ==> forall i :: from <= i < |s| ==> s[i] != c
    decreases |s| - from
  {
    if from == |s| then None
    else if s[from] == c then Some(from)
    else IndexOf(s, c, from + 1)
  }

  /** The parts of `s` between the separators, from position `start` on. */
  function SplitFrom(s: string, c: char, start: nat): (parts: seq<string>)
    requires start <= |s|
    ensures parts != []
    decreases |s| - start
  {
    match IndexOf(s, c, start)
    case None => [s[start..]]
    case Some(next) => [s[start..next]] + SplitFrom(s, c, next + 1)
  }

  function Split(s: string, c: char): (parts: seq<string>)
    ensures parts != []
  {
    SplitFrom(s, c, 0)
  }

  /** The loop of the splitter. */
  method SplitText(value: string, separator: char) returns (result: seq<string>)
    ensures result == Split(value, separator)
  {
    result := [];
    var start := 0;
    while true
      invariant start <= |value| && Split(value, separator) == result + SplitFrom(value, separator, start)
      decreases |value| - start
    {
      var next := IndexOf(value, separator, start);
      if next == None { return result + [value[start..]]; }
      result := result + [value[start..next.value]];
      start := next.value + 1;
    }
  }

  function Join(parts: seq<string>, c: char): string
    requires parts != []
  {
    if |parts| == 1 then parts[0] else parts[0] + [c] + Join(parts[1..], c)
  }

  ghost predicate Free(parts: seq<string>, c: char)
  {
    forall i :: 0 <= i < |parts| ==> c !in parts[i]
  }

  lemma {:induction false} SplitFromJoins(s: string, c: char, start: nat)
    requires start <= |s|
    ensures Free(SplitFrom(s, c, start), c) && Join(SplitFrom(s, c, start), c) == s[start..]
    decreases |s| - start
  {
    var r := IndexOf(s, c, start);
    if r.Some? {
      SplitFromJoins(s, c, r.value + 1);
      var rest := SplitFrom(s, c, r.value + 1);
      var parts := SplitFrom(s, c, start);
      assert parts[0] == s[start..r.value] && parts[1..] == rest;
      assert s[start..] == s[start..r.value] + [c] + s[r.value + 1..];
    }
  }

  /** Splitting a text and joining the parts gives the text back. */
  lemma SplitJoins(s: string, c: char)
    ensures Free(Split(s, c), c) && Join(Split(s, c), c) == s
  {
    SplitFromJoins(s, c, 0);
    assert s[0..] == s;
  }

  /** A part that is free of the separator and followed by one is what `find` finds. */
  lemma FindAfter(s: string, c: char, start: nat, head: string, rest: string)
    requires start <= |s| && c !in head && s[start..] == head + [c] + rest
    ensures IndexOf(s, c, start) == Some(start + |head|)
    ensures s[start..start + |head|] == head && s[start + |head| + 1..] == rest
  {
    hide IndexOf;
    var next := start + |head|;
    var tail := s[start..];
    assert s[next] == tail[|head|] == c;
    forall i | start <= i < next
      ensures s[i] != c
    {
      assert s[i] == tail[i - start] == head[i - start];
    }
    assert s[start..next] == tail[..|head|] == head;
    assert s[next + 1..] == tail[|head| + 1..] == rest;
  }

  lemma FindNothing(s: string, c: char, start: nat)
    requires start <= |s| && c !in s[start..]
    ensures IndexOf(s, c, start).None?
  {
    hide IndexOf;
    forall i | start <= i < |s|
      ensures s[i] != c
    {
      assert s[i] == s[start..][i - start];
    }
  }

  lemma {:induction false} JoinSplitsFrom(s: string, c: char, start: nat, parts: seq<string>)
    requires start <= |s| && parts != [] && Free(parts, c) && s[start..] == Join(parts, c)
    ensures SplitFrom(s, c, start) == parts
    decreases |parts|
  {
    hide IndexOf;
    if |parts| == 1 {
      FindNothing(s, c, start);
    } else {
      FindAfter(s, c, start, parts[0], Join(parts[1..], c));
      JoinSplitsFrom(s, c, start + |parts[0]| + 1, parts[1..]);
    }
  }

  /** Joining parts that are free of the separator and splitting gives the parts back. */
  lemma JoinSplits(parts: seq<string>, c: char)
    requires parts != [] && Free(parts, c)
    ensures Split(Join(parts, c), c) == parts
  {
    var s := Join(parts, c);
    assert s[0..] == s;
    JoinSplitsFrom(s, c, 0, parts);
  }

  lemma SplitUnfolds(s: string, c: char, start: nat)
    requires start <= |s|
    ensures SplitFrom(s, c, start) ==
            match IndexOf(s, c, start)
            case None => [s[start..]]
            case Some(next) => [s[start..next]] + SplitFrom(s, c, next + 1)
  {
  }

  lemma {:induction false} JoinMore(a: seq<string>, b: seq<string>, c: char)
    requires a != [] && b != []
    ensures Join(a + b, c) == Join(a, c) + [c] + Join(b, c)
  {
    if |a| > 1 {
      JoinMore(a[1..], b, c);
      assert (a + b)[1..] == a[1..] + b;
    } else {
      assert (a + b)[1..] == b;
    }
  }

  /** A character other than the separator is in the joined text exactly if it is in a part. */
  lemma {:induction false} JoinFree(parts: seq<string>, c: char, other: char)
    requires parts != [] && other != c && Free(parts, other)
    ensures other !in Join(parts, c)
  {
    if |parts| > 1 { JoinFree(parts[1..], c, other); }
  }

  lemma {:induction false} PartsFree(parts: seq<string>, c: char, other: char)
    requires parts != [] && other !in Join(parts, c)
    ensures Free(parts, other)
  {
    if |parts| > 1 {
      PartsFree(parts[1..], c, other);
      forall i | 0 <= i < |parts|
        ensures other !in parts[i]
      {
        if i > 0 { assert parts[i] == parts[1..][i - 1]; }
      }
    }
  }
}
