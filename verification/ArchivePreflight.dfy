/**
 The checks an archive passes before anything is extracted
 (native_runtime/cpp/artifact_stager.cc).  None stands for a throw.
 */
module ArchivePreflight {
  import opened Primitives
  import opened SortedMap
  import opened Text

  //
  // Paths
  //

  function Slashes(s: string): (t: string)
    ensures |t| == |s| && forall i :: 0 <= i < |s| ==> t[i] == if s[i] == '\\' then '/' else s[i]
  {
    seq(|s|, i requires 0 <= i < |s| => if s[i] == '\\' then '/' else s[i])
  }

  /** The segments that count. */
  function Kept(segments: seq<string>): seq<string>
  {
    if segments == [] then []
    else
      var last := segments[|segments| - 1];
      var front := Kept(segments[..|segments| - 1]);
      if last == "" || last == "." then front else front + [last]
  }

  lemma {:induction false} KeptMembers(segments: seq<string>)
    ensures forall s <- Kept(segments) :: s != "" && s != "." && s in segments
    ensures forall s <- segments :: s != "" && s != "." ==> s in Kept(segments)
  {
    if segments != [] {
      var front, last := segments[..|segments| - 1], segments[|segments| - 1];
      KeptMembers(front);
      assert segments == front + [last];
    }
  }

  function NormalSegments(segments: seq<string>): Option<seq<string>>
  {
    if ".." in segments || Kept(segments) == [] || (exists s <- Kept(segments) :: ':' in s) then None
    else Some(Kept(segments))
  }

  /** NormalizeSafeArchivePath */
  function NormalPath(input: string): Option<string>
  {
    var n := Slashes(input);
    if '\0' in input || n == "" || n[0] == '/' || IsDrivePrefixed(n) then None
    else
      match NormalSegments(Split(n, '/'))
      case None => None
      case Some(kept) => if kept == [] then None else Some(Join(kept, '/'))
  }

  method NormalizeSafeArchivePath(input: string) returns (r: Option<string>)
    ensures r == NormalPath(input)
  {
    hide Split, Kept, Slashes;
    if '\0' in input { return None; }
    var normalized := Slashes(input);
    if normalized == "" || normalized[0] == '/' || IsDrivePrefixed(normalized) { return None; }
    var kept := KeepSegments(normalized);
    if kept == None || kept.value == [] { return None; }
    var segments := kept.value;
    KeptMembers(Split(normalized, '/'));
    var result := "";
    for i := 0 to |segments|
      invariant Free(segments[..i], ':')
      invariant if i == 0 then result == "" else result == Join(segments[..i], '/') && result != ""
    {
      assert segments[i] in segments && segments[i] != "";
      if ':' in segments[i] { return None; }
      assert segments[..i + 1] == segments[..i] + [segments[i]];
      if i > 0 {
        JoinMore(segments[..i], [segments[i]], '/');
      }
      if result != "" { result := result + "/"; }
      result := result + segments[i];
    }
    assert segments[..|segments|] == segments;
    NoDrive(segments);
    if IsDrivePrefixed(result) { return None; }
    return Some(result);
  }

  /** The first loop: the segments that count, unless one leads upwards. */
  method KeepSegments(normalized: string) returns (r: Option<seq<string>>)
    ensures r == if ".." in Split(normalized, '/') then None else Some(Kept(Split(normalized, '/')))
  {
    hide Kept, SplitFrom, NoUp, Split;
    var segments: seq<string> := [];
    var start := 0;
    ghost var all, done := Split(normalized, '/'), [];
    KeptNothing(normalized);
    while start <= |normalized|
      invariant start <= |normalized| && NoUp(done) && segments == Kept(done)
      invariant all == done + SplitFrom(normalized, '/', start)
      decreases |normalized| - start
    {
      var separator := IndexOf(normalized, '/', start);
      var segment := if separator == None then normalized[start..] else normalized[start..separator.value];
      ghost var rest := SplitStep(normalized, start, separator, segment);
      Regroup(all, done, segment, rest);
      if segment == ".." { return None; }
      KeptMore(done, segment);
      if segment != "" && segment != "." { segments := segments + [segment]; }
      done := done + [segment];
      if separator == None { return Some(segments); }
      start := separator.value + 1;
    }
  }

  lemma Regroup(all: seq<string>, done: seq<string>, segment: string, rest: seq<string>)
    requires all == done + ([segment] + rest) && NoUp(done)
    ensures all == done + [segment] + rest
    ensures segment == ".." ==> ".." in all
    ensures segment != ".." ==> NoUp(done + [segment])
    ensures segment != ".." && rest == [] ==> all == done + [segment] && ".." !in all
  {
    assert all[|done|] == segment;
  }

  ghost predicate NoUp(segments: seq<string>) { ".." !in segments }

  lemma KeptNothing(s: string)
    ensures Kept([]) == [] && NoUp([]) && Split(s, '/') == [] + SplitFrom(s, '/', 0)
  {
  }

  lemma SplitStep(s: string, start: nat, separator: Option<nat>, segment: string) returns (rest: seq<string>)
    requires start <= |s| && separator == IndexOf(s, '/', start)
    requires segment == if separator == None then s[start..] else s[start..separator.value]
    ensures SplitFrom(s, '/', start) == [segment] + rest
    ensures rest == if separator == None then [] else SplitFrom(s, '/', separator.value + 1)
  {
    SplitUnfolds(s, '/', start);
    rest := if separator == None then [] else SplitFrom(s, '/', separator.value + 1);
  }

  lemma KeptMore(done: seq<string>, segment: string)
    ensures Kept(done + [segment]) == if segment == "" || segment == "." then Kept(done) else Kept(done) + [segment]
  {
    assert (done + [segment])[..|done|] == done;
  }

  /** The segments that count are those that are neither empty nor a dot, in their order. */
  lemma {:induction false} KeptFilters(a: seq<string>, b: seq<string>)
    ensures Kept(a + b) == Kept(a) + Kept(b)
    decreases |b|
  {
    hide Kept;
    KeptNothing("");
    if b == [] {
      assert a + b == a && b == [];
    } else {
      var front, last := b[..|b| - 1], b[|b| - 1];
      KeptFilters(a, front);
      KeptMore(a + front, last);
      KeptMore(front, last);
      assert a + b == a + front + [last] && b == front + [last];
    }
  }

  lemma KeptOne(s: string)
    ensures Kept([s]) == if s == "" || s == "." then [] else [s]
  {
    KeptMore([], s);
    assert [] + [s] == [s];
  }

  /** Exactly these paths are accepted: no NUL and no colon anywhere, not empty and not rooted, no
      segment that leads upwards, and some segment that counts; both slashes separate segments. */
  lemma NormalPathExactly(input: string)
    ensures NormalPath(input).Some? <==>
            && '\0' !in input && ':' !in input && input != "" && input[0] !in {'/', '\\'}
            && var segments := Split(Slashes(input), '/');
               ".." !in segments && exists s <- segments :: s != "" && s != "."
    ensures NormalPath(input).Some? ==> NormalPath(input).value == Join(Kept(Split(Slashes(input), '/')), '/')
  {
    hide Split, Kept, Slashes, Join;
    var n := Slashes(input);
    if input != "" {
      var segments := Split(n, '/');
      KeptMembers(segments);
      SplitJoins(n, '/');
      if Kept(segments) != [] { assert Kept(segments)[0] in Kept(segments); }
      assert ':' in input <==> ':' in n by { SlashesKeep(input, ':'); }
      if ':' !in n {
        PartsFree(segments, '/', ':');
        KeptFree(segments, ':');
      } else if Free(segments, ':') {
        JoinFree(segments, '/', ':');
      } else {
        var i :| 0 <= i < |segments| && ':' in segments[i];
        assert segments[i] in Kept(segments);
      }
      assert n[0] == (if input[0] == '\\' then '/' else input[0]);
    }
  }

  lemma SlashesKeep(s: string, c: char)
    requires c !in {'/', '\\'}
    ensures c in s <==> c in Slashes(s)
  {
    var t := Slashes(s);
    if c in s {
      var i :| 0 <= i < |s| && s[i] == c;
      assert t[i] == c;
    }
    if c in t {
      var i :| 0 <= i < |t| && t[i] == c;
      assert s[i] == c;
    }
  }

  lemma NoDrive(parts: seq<string>)
    requires parts != [] && Free(parts, ':')
    ensures !IsDrivePrefixed(Join(parts, '/'))
  {
    JoinFree(parts, '/', ':');
  }

  /** A normalised path is relative, and all its segments are plain names. */
  predicate IsNormal(path: string)
  {
    && path != "" && path[0] != '/' && '\\' !in path && '\0' !in path && ':' !in path
    && forall s <- Split(path, '/') :: s != "" && s != "." && s != ".."
  }

  lemma NormalPathIsNormal(input: string)
    requires NormalPath(input).Some?
    ensures IsNormal(NormalPath(input).value)
    ensures NormalPath(NormalPath(input).value) == NormalPath(input)
  {
    hide Split, Join, Slashes, Kept;
    var n := Slashes(input);
    var segments := Split(n, '/');
    var kept := Kept(segments);
    KeptMembers(segments);
    SplitJoins(n, '/');
    assert '\\' !in n && '\0' !in n;
    PartsFree(segments, '/', '\\');
    PartsFree(segments, '/', '\0');
    KeptFree(segments, '/');
    KeptFree(segments, '\\');
    KeptFree(segments, '\0');
    JoinFree(kept, '/', '\\');
    JoinFree(kept, '/', '\0');
    assert forall i :: 0 <= i < |kept| ==> kept[i] in kept;
    JoinFree(kept, '/', ':');
    JoinSplits(kept, '/');
    assert kept[0] in kept;
    FirstByte(kept);
    NormalIsFixed(Join(kept, '/'));
  }

  lemma FirstByte(parts: seq<string>)
    requires parts != [] && parts[0] != "" && Free(parts, '/')
    ensures Join(parts, '/') != "" && Join(parts, '/')[0] != '/'
  {
  }

  lemma {:induction false} KeptAll(segments: seq<string>)
    requires forall i :: 0 <= i < |segments| ==> segments[i] != "" && segments[i] != "."
    ensures Kept(segments) == segments
  {
    if segments != [] {
      KeptAll(segments[..|segments| - 1]);
      assert segments == segments[..|segments| - 1] + [segments[|segments| - 1]];
    }
  }

  lemma KeptFree(segments: seq<string>, c: char)
    requires Free(segments, c)
    ensures Free(Kept(segments), c)
  {
    hide Kept;
    var kept := Kept(segments);
    KeptMembers(segments);
    forall i | 0 <= i < |kept|
      ensures c !in kept[i]
    {
      assert kept[i] in kept;
    }
  }

  /** A normal path is its own normal form. */
  lemma NormalIsFixed(path: string)
    requires IsNormal(path)
    ensures NormalPath(path) == Some(path)
  {
    hide Split, Join, Kept;
    assert Slashes(path) == path;
    SplitJoins(path, '/');
    var segments := Split(path, '/');
    assert forall i :: 0 <= i < |segments| ==> segments[i] in segments;
    KeptAll(segments);
    PartsFree(segments, '/', ':');
  }

  //
  // Conflicts
  //

  type Known = seq<Entry<bool>>    // the key of an entry, and whether it is a directory

  /** `inner` lies below the path `outer`. */
  predicate Below(outer: string, inner: string) { outer + "/" <= inner }

  /** Two entries cannot both be extracted: the same path, or one below a file. */
  predicate Conflict(a: Entry<bool>, b: Entry<bool>)
  {
    a.key == b.key || (!a.value && Below(a.key, b.key)) || (!b.value && Below(b.key, a.key))
  }

  /** Below, in terms of segments. */
  lemma BelowBySegments(a: string, b: string)
    ensures Below(a, b) <==> |Split(a, '/')| < |Split(b, '/')| && Split(b, '/')[..|Split(a, '/')|] == Split(a, '/')
  {
    hide Split, Join;
    var x, y := Split(a, '/'), Split(b, '/');
    SplitJoins(a, '/');
    SplitJoins(b, '/');
    if Below(a, b) {
      var rest := b[|a| + 1..];
      var z := Split(rest, '/');
      SplitJoins(rest, '/');
      JoinMore(x, z, '/');
      assert b == a + "/" + rest;
      JoinSplits(x + z, '/');
    }
    if |x| < |y| && y[..|x|] == x {
      JoinMore(x, y[|x|..], '/');
      assert y == x + y[|x|..];
      assert b == a + "/" + Join(y[|x|..], '/');
    }
  }

  lemma {:induction false} PrefixNotAbove(p: string, s: string)
    requires p <= s
    ensures !Less(s, p)
  {
    if p != "" {
      assert p[1..] <= s[1..];
      PrefixNotAbove(p[1..], s[1..]);
    }
  }

  /** The strings that start with `p` are the ones from `p` on without a gap. */
  lemma {:induction false} PrefixBlock(p: string, l: string, s: string)
    requires p <= s && !Less(l, p) && !Less(s, l)
    ensures p <= l
  {
    if p != "" {
      assert s[0] == p[0] && p[1..] <= s[1..];
      assert l != "" && l[0] == p[0];
      PrefixBlock(p[1..], l[1..], s[1..]);
    }
  }

  /** The lower_bound probe finds a key with the prefix whenever there is one. */
  lemma ProbeFindsChild(m: Known, p: string)
    requires Sorted(m)
    ensures var i := LowerBound(m, p);
            (i < |m| && p <= m[i].key) <==> exists k :: 0 <= k < |m| && p <= m[k].key
  {
    hide Less, LowerBound;
    var i := LowerBound(m, p);
    if k :| 0 <= k < |m| && p <= m[k].key {
      PrefixNotAbove(p, m[k].key);
      assert i <= k;
      if i < k {
        if Less(m[k].key, m[i].key) {
          LessTransitive(m[i].key, m[k].key, m[i].key);
          LessIrreflexive(m[i].key);
        }
        PrefixBlock(p, m[i].key, m[k].key);
      }
    }
  }

  method CheckDuplicateConflict(key: string, directory: bool, entries: Known) returns (r: Option<Known>)
    requires Sorted(entries)
    ensures r.Some? <==> forall i :: 0 <= i < |entries| ==> !Conflict(entries[i], Entry(key, directory))
    ensures r.Some? ==> r.value == Emplace(entries, key, directory)
  {
    hide Less, LowerBound, Emplace;
    ghost var entry := Entry(key, directory);
    FindSound(entries, key);
    if Find(entries, key).Some? {
      return None;
    }
    var parent := FileAbove(key, entries);
    if parent {
      return None;
    }
    if !directory {
      var prefix := key + "/";
      var child := LowerBound(entries, prefix);
      ProbeFindsChild(entries, prefix);
      if child < |entries| && prefix <= entries[child].key {
        assert Conflict(entries[child], entry);
        return None;
      }
    }
    return Some(Emplace(entries, key, directory));
  }

  /** The loop over the separators of the key: is one of its parents known as a file? */
  method FileAbove(key: string, entries: Known) returns (found: bool)
    requires Sorted(entries)
    ensures found <==> exists i :: 0 <= i < |entries| && !entries[i].value && Below(entries[i].key, key)
  {
    hide Less, LowerBound, Find;
    var separator := IndexOf(key, '/', 0);
    ghost var seen: nat := 0;
    while separator.Some?
      invariant seen <= |key| && separator == IndexOf(key, '/', seen)
      invariant forall i :: 0 <= i < |entries| && !entries[i].value && Below(entries[i].key, key) ==> |entries[i].key| >= seen
      decreases |key| - seen
    {
      var parent := Find(entries, key[..separator.value]);
      ParentKnown(entries, key, separator.value);
      if parent == Some(false) { return true; }
      forall i | 0 <= i < |entries| && !entries[i].value && Below(entries[i].key, key)
        ensures |entries[i].key| >= separator.value + 1
      {
        assert key[|entries[i].key|] == '/';
        FindIndex(entries, i);
        assert entries[i].key == key[..|entries[i].key|];
      }
      seen := separator.value + 1;
      separator := IndexOf(key, '/', separator.value + 1);
    }
    assert forall i :: 0 <= i < |entries| && Below(entries[i].key, key) ==> key[|entries[i].key|] == '/';
    return false;
  }

  lemma ParentKnown(entries: Known, key: string, at: nat)
    requires Sorted(entries) && at < |key| && key[at] == '/'
    ensures Find(entries, key[..at]) == Some(false) ==>
              exists i :: 0 <= i < |entries| && !entries[i].value && Below(entries[i].key, key)
  {
    hide Less, LowerBound;
    if Find(entries, key[..at]) == Some(false) {
      var i := LowerBound(entries, key[..at]);
      assert entries[i].key + "/" == key[..at + 1];
    }
  }

  //
  // The loop over the entries
  //

  /** What the archive says about an entry; `mode` is the upper half of the attributes. */
  datatype Stat = Stat(
    readable: bool, encrypted: bool, supported: bool, name: string, directory: bool, mode: nat, size: uint64)

  datatype Limits = Limits(entries: int64, bytes: int64, single: int64)

  datatype Staged = Staged(index: nat, path: string, directory: bool, mode: nat)

  /** ArchiveComparisonKey */
  function ComparisonKey(path: string, windows: bool): string
  {
    if windows then LowerText(path) else path
  }

  /** On Windows two paths are the same entry exactly if they differ at most in the case of
      letters, elsewhere only if they are equal. */
  lemma KeysExactly(a: string, b: string)
    ensures ComparisonKey(a, false) == ComparisonKey(b, false) <==> a == b
    ensures ComparisonKey(a, true) == ComparisonKey(b, true) <==>
            |a| == |b| && forall i :: 0 <= i < |a| ==> Lower(a[i]) == Lower(b[i])
  {
    hide Lower;
    var x, y := LowerText(a), LowerText(b);
    if x == y {
      forall i | 0 <= i < |a|
        ensures Lower(a[i]) == Lower(b[i])
      {
        assert x[i] == y[i];
      }
    }
  }

  /** A regular file, a directory, or no type at all: the bits of the mode under 0170000. */
  predicate PlainType(mode: nat) { mode / 0x1000 % 0x10 in {0, 4, 8} }

  predicate EntryAllowed(s: Stat, limits: Limits)
  {
    && s.readable && !s.encrypted && s.supported && NormalPath(s.name).Some?
    && PlainType(s.mode) && s.size <= limits.single
  }

  function EntryOf(s: Stat, windows: bool): Entry<bool>
  {
    Entry(if NormalPath(s.name).Some? then ComparisonKey(NormalPath(s.name).value, windows) else "", s.directory)
  }

  predicate Clash(a: Stat, b: Stat, windows: bool) { Conflict(EntryOf(a, windows), EntryOf(b, windows)) }

  function TotalSize(stats: seq<Stat>): nat
  {
    if stats == [] then 0 else TotalSize(stats[..|stats| - 1]) + stats[|stats| - 1].size
  }

  /** The keys are pairwise distinct and none lies below a file. */
  ghost predicate Compatible(stats: seq<Stat>, windows: bool)
  {
    forall i, j :: 0 <= i < j < |stats| ==> !Clash(stats[i], stats[j], windows)
  }

  ghost predicate Acceptable(stats: seq<Stat>, limits: Limits, windows: bool)
  {
    && limits.entries > 0 && limits.bytes > 0 && limits.single > 0
    && 0 < |stats| <= limits.entries
    && (forall i :: 0 <= i < |stats| ==>
          && stats[i].readable && !stats[i].encrypted && stats[i].supported && stats[i].size <= limits.single
          && stats[i].mode / 0x1000 % 0x10 in {0, 4, 8} && NormalPath(stats[i].name).Some?)
    && TotalSize(stats) <= limits.bytes
    && Compatible(stats, windows)
  }

  lemma AcceptableByEntry(stats: seq<Stat>, limits: Limits, windows: bool)
    ensures Acceptable(stats, limits, windows) <==>
            && limits.entries > 0 && limits.bytes > 0 && limits.single > 0
            && 0 < |stats| <= limits.entries
            && (forall i :: 0 <= i < |stats| ==> EntryAllowed(stats[i], limits))
            && TotalSize(stats) <= limits.bytes
            && Compatible(stats, windows)
  {
    hide NormalPath, TotalSize, Compatible;
  }

  /** The map holds exactly the keys of these entries. */
  ghost predicate Holds(entries: Known, stats: seq<Stat>, windows: bool)
  {
    && (forall k :: 0 <= k < |stats| ==> EntryOf(stats[k], windows) in entries)
    && (forall e <- entries :: exists k :: 0 <= k < |stats| && EntryOf(stats[k], windows) == e)
  }

  lemma EmplaceHolds(entries: Known, stats: seq<Stat>, next: Stat, windows: bool)
    requires Sorted(entries) && Holds(entries, stats, windows)
    requires forall i :: 0 <= i < |entries| ==> entries[i].key != EntryOf(next, windows).key
    ensures var e := EntryOf(next, windows);
            Sorted(Emplace(entries, e.key, e.value)) && Holds(Emplace(entries, e.key, e.value), stats + [next], windows)
  {
    hide Less, LowerBound, EntryOf;
    var e := EntryOf(next, windows);
    EmplaceSorted(entries, e.key, e.value);
    var b := LowerBound(entries, e.key);
    assert entries == entries[..b] + entries[b..];
    assert Emplace(entries, e.key, e.value) == entries[..b] + [e] + entries[b..];
    var more := stats + [next];
    forall x | x in Emplace(entries, e.key, e.value)
      ensures exists k :: 0 <= k < |more| && EntryOf(more[k], windows) == x
    {
      if x == e {
        assert more[|stats|] == next;
      } else {
        assert x in entries;
        var k :| 0 <= k < |stats| && EntryOf(stats[k], windows) == x;
        assert more[k] == stats[k];
      }
    }
  }

  lemma NoConflictMeansNoClash(entries: Known, stats: seq<Stat>, next: Stat, windows: bool)
    requires Holds(entries, stats, windows)
    ensures (forall i :: 0 <= i < |entries| ==> !Conflict(entries[i], EntryOf(next, windows))) <==>
            (forall k :: 0 <= k < |stats| ==> !Clash(stats[k], next, windows))
  {
    hide EntryOf, Conflict;
    var e := EntryOf(next, windows);
    if forall k :: 0 <= k < |stats| ==> !Clash(stats[k], next, windows) {
      forall i | 0 <= i < |entries|
        ensures !Conflict(entries[i], e)
      {
        assert entries[i] in entries;
        var k :| 0 <= k < |stats| && EntryOf(stats[k], windows) == entries[i];
        assert !Clash(stats[k], next, windows);
      }
    }
    if forall i :: 0 <= i < |entries| ==> !Conflict(entries[i], e) {
      forall k | 0 <= k < |stats|
        ensures !Clash(stats[k], next, windows)
      {
        var i :| 0 <= i < |entries| && entries[i] == EntryOf(stats[k], windows);
      }
    }
  }

  lemma {:induction false} TotalGrows(stats: seq<Stat>, i: nat)
    requires i < |stats|
    ensures TotalSize(stats[..i + 1]) == TotalSize(stats[..i]) + stats[i].size && TotalSize(stats[..i + 1]) <= TotalSize(stats)
    decreases |stats| - i
  {
    assert stats[..i + 1][..i] == stats[..i];
    if i + 1 < |stats| {
      TotalGrows(stats, i + 1);
    } else {
      assert stats[..i + 1] == stats;
    }
  }

  /** The checks at the head of StageZipArchive and its first loop. */
  method Preflight(stats: seq<Stat>, limits: Limits, windows: bool) returns (r: Option<seq<Staged>>)
    ensures r.Some? <==> Acceptable(stats, limits, windows)
    ensures r.Some? ==> |r.value| == |stats| && forall i :: 0 <= i < |stats| ==>
              NormalPath(stats[i].name).Some? &&
              r.value[i] == Staged(i, NormalPath(stats[i].name).value, stats[i].directory, stats[i].mode)
  {
    hide NormalPath, Less, LowerBound, Emplace, Conflict, TotalSize, Holds, Sorted, PlainType, Acceptable;
    AcceptableByEntry(stats, limits, windows);
    if limits.entries <= 0 || limits.bytes <= 0 || limits.single <= 0 { return None; }
    if |stats| == 0 || |stats| > limits.entries { return None; }
    var total: uint64 := 0;
    var entries: Known := [];
    var staged: seq<Staged> := [];
    StartsEmpty(windows);
    assert stats[..0] == [];
    for index := 0 to |stats|
      invariant forall k :: 0 <= k < index ==> EntryAllowed(stats[k], limits)
      invariant total == TotalSize(stats[..index]) <= limits.bytes
      invariant Sorted(entries) && Holds(entries, stats[..index], windows)
      invariant Compatible(stats[..index], windows)
      invariant |staged| == index
      invariant forall k :: 0 <= k < index ==>
                  staged[k] == Staged(k, NormalPath(stats[k].name).value, stats[k].directory, stats[k].mode)
    {
      var stat := stats[index];
      TotalGrows(stats, index);
      assert stats[..index + 1] == stats[..index] + [stat];
      if !stat.readable || stat.encrypted || !stat.supported { return None; }
      var path := NormalizeSafeArchivePath(stat.name);
      if path == None { return None; }
      if !PlainType(stat.mode) { return None; }
      if stat.size > limits.single { return None; }
      if stat.size > limits.bytes || total > limits.bytes - stat.size { return None; }
      total := (total + stat.size) % (UINT64_MAX + 1);
      var checked := CheckDuplicateConflict(ComparisonKey(path.value, windows), stat.directory, entries);
      NoConflictMeansNoClash(entries, stats[..index], stat, windows);
      CompatibleMore(stats, index, windows);
      if checked == None { return None; }
      ConflictByKey(entries, EntryOf(stat, windows));
      EmplaceHolds(entries, stats[..index], stat, windows);
      entries := checked.value;
      staged := staged + [Staged(index, path.value, stat.directory, stat.mode)];
    }
    assert stats[..|stats|] == stats;
    return Some(staged);
  }

  lemma StartsEmpty(windows: bool)
    ensures TotalSize([]) == 0 && Sorted<bool>([]) && Holds([], [], windows)
  {
  }

  lemma ConflictByKey(entries: Known, e: Entry<bool>)
    requires forall i :: 0 <= i < |entries| ==> !Conflict(entries[i], e)
    ensures forall i :: 0 <= i < |entries| ==> entries[i].key != e.key
  {
  }

  lemma CompatibleMore(stats: seq<Stat>, i: nat, windows: bool)
    requires i < |stats| && Compatible(stats[..i], windows)
    ensures (forall k :: 0 <= k < i ==> !Clash(stats[..i][k], stats[i], windows)) <==> Compatible(stats[..i + 1], windows)
    ensures Compatible(stats, windows) ==> Compatible(stats[..i + 1], windows)
  {
    hide Clash;
    var more := stats[..i + 1];
    assert forall k :: 0 <= k < i ==> more[k] == stats[k] == stats[..i][k];
    if Compatible(more, windows) {
      assert forall k :: 0 <= k < i ==> !Clash(more[k], more[i], windows);
    }
  }

  //
  // The order of the entries does not matter
  //

  lemma ClashSymmetric(a: Stat, b: Stat, windows: bool)
    ensures Clash(a, b, windows) == Clash(b, a, windows) && Clash(a, a, windows)
  {
    hide NormalPath;
  }

  /** Compatible, said without an order. */
  ghost predicate CompatibleSet(m: multiset<Stat>, windows: bool)
  {
    && (forall a :: m[a] <= 1)
    && (forall a, b :: a in m && b in m && a != b ==> !Clash(a, b, windows))
  }

  lemma {:induction false} TwoPlaces(stats: seq<Stat>, a: Stat)
    requires multiset(stats)[a] >= 2
    ensures exists i, j :: 0 <= i < j < |stats| && stats[i] == a && stats[j] == a
  {
    var front, last := stats[..|stats| - 1], |stats| - 1;
    assert stats == front + [stats[last]];
    if stats[last] == a {
      assert a in multiset(front);
      var i :| 0 <= i < |front| && front[i] == a;
      assert stats[i] == a;
    } else {
      TwoPlaces(front, a);
      var i, j :| 0 <= i < j < |front| && front[i] == a && front[j] == a;
      assert stats[i] == a && stats[j] == a;
    }
  }

  lemma CountedTwice(stats: seq<Stat>, i: nat, j: nat)
    requires i < j < |stats| && stats[i] == stats[j]
    ensures multiset(stats)[stats[i]] >= 2
  {
    assert stats == stats[..j] + stats[j..];
    assert stats[..j][i] == stats[i] && stats[j..][0] == stats[j];
    assert stats[i] in multiset(stats[..j]) && stats[i] in multiset(stats[j..]);
  }

  lemma CompatibleAsSet(stats: seq<Stat>, windows: bool)
    ensures Compatible(stats, windows) <==> CompatibleSet(multiset(stats), windows)
  {
    hide Clash;
    var m := multiset(stats);
    if Compatible(stats, windows) {
      forall a
        ensures m[a] <= 1
      {
        if m[a] >= 2 {
          TwoPlaces(stats, a);
          var i, j :| 0 <= i < j < |stats| && stats[i] == a && stats[j] == a;
          assert !Clash(stats[i], stats[j], windows);
          ClashSymmetric(a, a, windows);
        }
      }
      forall a, b | a in m && b in m && a != b
        ensures !Clash(a, b, windows)
      {
        var i :| 0 <= i < |stats| && stats[i] == a;
        var j :| 0 <= j < |stats| && stats[j] == b;
        ClashSymmetric(a, b, windows);
        assert i < j ==> !Clash(stats[i], stats[j], windows);
        assert j < i ==> !Clash(stats[j], stats[i], windows);
      }
    }
    if CompatibleSet(m, windows) {
      forall i, j | 0 <= i < j < |stats|
        ensures !Clash(stats[i], stats[j], windows)
      {
        assert stats[i] in m && stats[j] in m;
        if stats[i] == stats[j] { CountedTwice(stats, i, j); }
      }
    }
  }

  lemma {:induction false} TotalWithout(stats: seq<Stat>, i: nat)
    requires i < |stats|
    ensures TotalSize(stats) == TotalSize(stats[..i] + stats[i + 1..]) + stats[i].size
  {
    var rest := stats[..i] + stats[i + 1..];
    var last := |stats| - 1;
    if i == last {
      assert rest == stats[..last];
    } else {
      var front := stats[..last];
      TotalWithout(front, i);
      assert rest[..|rest| - 1] == front[..i] + front[i + 1..];
      assert rest[|rest| - 1] == stats[last];
    }
  }

  lemma SameRest(a: seq<Stat>, b: seq<Stat>, i: nat)
    requires multiset(a) == multiset(b) && a != [] && i < |b| && b[i] == a[|a| - 1]
    ensures multiset(a[..|a| - 1]) == multiset(b[..i] + b[i + 1..])
  {
    var front, x, rest := a[..|a| - 1], a[|a| - 1], b[..i] + b[i + 1..];
    assert a == front + [x];
    assert b == b[..i] + [x] + b[i + 1..];
    assert multiset(a) == multiset(front) + multiset{x};
    assert multiset(b) == multiset(rest) + multiset{x};
    assert multiset(front) == multiset(a) - multiset{x};
    assert multiset(rest) == multiset(b) - multiset{x};
  }

  lemma {:induction false} TotalUnordered(a: seq<Stat>, b: seq<Stat>)
    requires multiset(a) == multiset(b)
    ensures TotalSize(a) == TotalSize(b) && |a| == |b|
    decreases |a|
  {
    assert |a| == |multiset(a)| && |b| == |multiset(b)|;
    if a != [] {
      assert a[|a| - 1] in multiset(b);
      var i :| 0 <= i < |b| && b[i] == a[|a| - 1];
      SameRest(a, b, i);
      TotalUnordered(a[..|a| - 1], b[..i] + b[i + 1..]);
      TotalWithout(b, i);
    }
  }

  /** The verdict does not depend on the order of the entries. */
  lemma VerdictUnordered(a: seq<Stat>, b: seq<Stat>, limits: Limits, windows: bool)
    requires multiset(a) == multiset(b)
    ensures Acceptable(a, limits, windows) == Acceptable(b, limits, windows)
  {
    hide EntryAllowed, Compatible, TotalSize, Acceptable;
    AcceptableByEntry(a, limits, windows);
    AcceptableByEntry(b, limits, windows);
    TotalUnordered(a, b);
    CompatibleAsSet(a, windows);
    CompatibleAsSet(b, windows);
    if forall i :: 0 <= i < |a| ==> EntryAllowed(a[i], limits) { AllowedUnordered(a, b, limits); }
    if forall i :: 0 <= i < |b| ==> EntryAllowed(b[i], limits) { AllowedUnordered(b, a, limits); }
  }

  lemma AllowedUnordered(a: seq<Stat>, b: seq<Stat>, limits: Limits)
    requires multiset(a) == multiset(b) && forall i :: 0 <= i < |a| ==> EntryAllowed(a[i], limits)
    ensures forall i :: 0 <= i < |b| ==> EntryAllowed(b[i], limits)
  {
    hide EntryAllowed;
    forall i | 0 <= i < |b|
      ensures EntryAllowed(b[i], limits)
    {
      assert b[i] in multiset(a);
      var j :| 0 <= j < |a| && a[j] == b[i];
    }
  }
}
