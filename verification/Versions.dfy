/**
 Desktop versions: parsing and comparison (native_runtime/cpp/release_contract.cc).
 None stands for a throw.
 */
module Versions {
  import opened Primitives
  import opened SortedMap
  import opened Json
  import opened Text
  import opened Instants

  /** `build` is Some when has_build_number is set. */
  datatype Version = Version(major: int, minor: int, patch: int, prerelease: seq<string>, build: Option<int>)

  //
  // Parsing
  //

  function TrimLeft(t: string): string
  {
    if t == [] || !IsSpace(t[0]) then t else TrimLeft(t[1..])
  }

  function TrimRight(t: string): string
  {
    if t == [] || !IsSpace(t[|t| - 1]) then t else TrimRight(t[..|t| - 1])
  }

  /** Trim */
  function Trimmed(t: string): string { TrimRight(TrimLeft(t)) }

  method Trim(value: string) returns (r: string)
    ensures r == Trimmed(value)
  {
    hide TrimLeft, TrimRight;
    var start := 0;
    assert value[0..] == value;
    while start < |value| && IsSpace(value[start])
      invariant start <= |value| && TrimLeft(value) == TrimLeft(value[start..])
    {
      LeftStep(value, start);
      start := start + 1;
    }
    LeftStop(value, start);
    var end := |value|;
    while end > start && IsSpace(value[end - 1])
      invariant start <= end <= |value| && Trimmed(value) == TrimRight(value[start..end])
    {
      RightStep(value, start, end);
      end := end - 1;
    }
    RightStop(value, start, end);
    return value[start..end];
  }

  lemma LeftStep(t: string, start: nat)
    requires start < |t| && IsSpace(t[start])
    ensures TrimLeft(t[start..]) == TrimLeft(t[start + 1..])
  {
    assert t[start..][1..] == t[start + 1..];
  }

  lemma LeftStop(t: string, start: nat)
    requires start <= |t| && (start < |t| ==> !IsSpace(t[start]))
    ensures TrimLeft(t[start..]) == t[start..|t|]
  {
  }

  lemma RightStep(t: string, start: nat, end: nat)
    requires start < end <= |t| && IsSpace(t[end - 1])
    ensures TrimRight(t[start..end]) == TrimRight(t[start..end - 1])
  {
    assert t[start..end][..end - start - 1] == t[start..end - 1];
  }

  lemma RightStop(t: string, start: nat, end: nat)
    requires start <= end <= |t| && (start < end ==> !IsSpace(t[end - 1]))
    ensures TrimRight(t[start..end]) == t[start..end]
  {
  }

  predicate Numeric(t: string) { t != [] && AllDigits(t) }

  /** The build number that the build metadata carries, if it starts with digits only. */
  function MetadataBuild(parts: seq<string>): Option<int>
  {
    if |parts| == 2 && Numeric(Split(parts[1], '.')[0]) then Component(Split(parts[1], '.')[0]) else None
  }

  function ParseCore(core: string, prerelease: seq<string>, build: Option<int>): Option<Version>
  {
    var c := Split(core, '.');
    if |c| != 3 || Component(c[0]).None? || Component(c[1]).None? || Component(c[2]).None? then None
    else if exists i :: 0 <= i < |prerelease| && prerelease[i] == "" then None
    else if build.Some? && build.value < 0 then None
    else Some(Version(Component(c[0]).value, Component(c[1]).value, Component(c[2]).value, prerelease, build))
  }

  /** ParseDesktopVersion; `given` is the build number argument if there is one. */
  function ParseVersion(value: string, given: Option<int>): Option<Version>
  {
    var normalized := Trimmed(value);
    var parts := Split(normalized, '+');
    if normalized == "" || |parts| > 2 then None
    else
      var build := if given.Some? then given else MetadataBuild(parts);
      match IndexOf(parts[0], '-', 0)
      case None => ParseCore(parts[0], [], build)
      case Some(dash) => ParseCore(parts[0][..dash], Split(parts[0][dash + 1..], '.'), build)
  }

  predicate IsIdentifierByte(c: char)
  {
    '0' <= c <= '9' || 'A' <= c <= 'Z' || 'a' <= c <= 'z' || c == '-'
  }

  /** A version as section 2, 9 and 10 of Semantic Versioning 2.0.0 write it, with a number
      for build metadata. */
  ghost predicate WellFormed(v: Version)
  {
    && 0 <= v.major <= INT64_MAX && 0 <= v.minor <= INT64_MAX && 0 <= v.patch <= INT64_MAX
    && (v.build.Some? ==> 0 <= v.build.value <= INT64_MAX)
    && forall i :: 0 <= i < |v.prerelease| ==> v.prerelease[i] != "" && forall c <- v.prerelease[i] :: IsIdentifierByte(c)
  }

  function CoreText(v: Version): string
    requires WellFormed(v)
  {
    Join([NatText(v.major), NatText(v.minor), NatText(v.patch)], '.')
  }

  function FrontText(v: Version): string
    requires WellFormed(v)
  {
    CoreText(v) + if v.prerelease == [] then "" else "-" + Join(v.prerelease, '.')
  }

  function VersionText(v: Version): string
    requires WellFormed(v)
  {
    FrontText(v) + if v.build == None then "" else "+" + NatText(v.build.value)
  }

  lemma {:induction false} JoinBytes(parts: seq<string>, c: char)
    requires parts != []
    ensures forall b <- Join(parts, c) :: b == c || exists i :: 0 <= i < |parts| && b in parts[i]
  {
    if |parts| > 1 {
      JoinBytes(parts[1..], c);
      forall b | b in Join(parts, c) && b != c
        ensures exists i :: 0 <= i < |parts| && b in parts[i]
      {
        if b !in parts[0] {
          assert b in Join(parts[1..], c);
          var i :| 0 <= i < |parts[1..]| && b in parts[1..][i];
          assert b in parts[i + 1];
        }
      }
    }
  }

  lemma DigitText(n: nat)
    requires n <= INT64_MAX
    ensures Numeric(NatText(n)) && Component(NatText(n)) == Some(n)
    ensures '.' !in NatText(n) && '-' !in NatText(n) && '+' !in NatText(n)
    ensures forall c <- NatText(n) :: IsIdentifierByte(c)
  {
    hide NatText, DigitsValue;
    NatTextValue(n);
  }

  lemma CoreTextParses(v: Version)
    requires WellFormed(v)
    ensures Split(CoreText(v), '.') == [NatText(v.major), NatText(v.minor), NatText(v.patch)]
    ensures CoreText(v) != "" && '-' !in CoreText(v) && '+' !in CoreText(v)
    ensures forall c <- CoreText(v) :: c == '.' || IsIdentifierByte(c)
  {
    hide NatText, DigitsValue, Component, Split;
    var parts := [NatText(v.major), NatText(v.minor), NatText(v.patch)];
    DigitText(v.major);
    DigitText(v.minor);
    DigitText(v.patch);
    JoinSplits(parts, '.');
    assert Join(parts[1..], '.') == parts[1] + ['.'] + parts[2];
  }

  lemma PrereleaseParses(v: Version)
    requires WellFormed(v) && v.prerelease != []
    ensures Split(Join(v.prerelease, '.'), '.') == v.prerelease
    ensures Join(v.prerelease, '.') != ""
    ensures forall c <- Join(v.prerelease, '.') :: c == '.' || IsIdentifierByte(c)
  {
    hide Split;
    JoinSplits(v.prerelease, '.');
    JoinBytes(v.prerelease, '.');
  }

  lemma FrontTextParses(v: Version)
    requires WellFormed(v)
    ensures FrontText(v) != "" && forall c <- FrontText(v) :: c == '.' || IsIdentifierByte(c)
    ensures IndexOf(FrontText(v), '-', 0) == if v.prerelease == [] then None else Some(|CoreText(v)|)
  {
    hide CoreText, Join, IndexOf;
    var t := FrontText(v);
    CoreTextParses(v);
    assert t[0..] == t;
    if v.prerelease == [] {
      FindNothing(t, '-', 0);
    } else {
      PrereleaseParses(v);
      assert t == CoreText(v) + ['-'] + Join(v.prerelease, '.');
      FindAfter(t, '-', 0, CoreText(v), Join(v.prerelease, '.'));
    }
  }

  lemma TrimNothing(t: string)
    requires t == "" || (!IsSpace(t[0]) && !IsSpace(t[|t| - 1]))
    ensures Trimmed(t) == t
  {
  }

  lemma NoSpace(t: string)
    requires forall c <- t :: c == '+' || c == '.' || IsIdentifierByte(c)
    ensures Trimmed(t) == t
  {
    if t != "" {
      assert t[0] in t && t[|t| - 1] in t;
      TrimNothing(t);
    }
  }

  lemma TextSplits(v: Version)
    requires WellFormed(v)
    ensures Split(VersionText(v), '+') ==
            if v.build == None then [FrontText(v)] else [FrontText(v), NatText(v.build.value)]
  {
    hide FrontText, NatText, Split;
    FrontTextParses(v);
    assert '+' !in FrontText(v);
    if v.build == None {
      assert VersionText(v) == FrontText(v);
      JoinSplits([FrontText(v)], '+');
    } else {
      DigitText(v.build.value);
      var parts := [FrontText(v), NatText(v.build.value)];
      assert Join(parts[1..], '+') == parts[1];
      assert VersionText(v) == Join(parts, '+');
      JoinSplits(parts, '+');
    }
  }

  lemma MetadataRead(n: nat)
    requires n <= INT64_MAX
    ensures Split(NatText(n), '.') == [NatText(n)]
  {
    hide NatText, Split;
    DigitText(n);
    JoinSplits([NatText(n)], '.');
  }

  /** Every well-formed version is read from its text, and a build number argument
      replaces the one in the text. */
  lemma ParseInvertsText(v: Version, given: Option<int>)
    requires WellFormed(v) && (given.Some? ==> given.value >= 0)
    ensures ParseVersion(VersionText(v), given) == Some(if given.Some? then v.(build := given) else v)
  {
    hide FrontText, CoreText, Split, NatText, Component, IndexOf, Trimmed, Join;
    TextSplits(v);
    FrontTextParses(v);
    if v.build.Some? { DigitText(v.build.value); MetadataRead(v.build.value); }
    assert forall c <- VersionText(v) :: c == '+' || c == '.' || IsIdentifierByte(c);
    NoSpace(VersionText(v));
    CoreRead(v, if given.Some? then given else v.build);
  }

  lemma CoreRead(v: Version, build: Option<int>)
    requires WellFormed(v) && (build.Some? ==> build.value >= 0)
    ensures match IndexOf(FrontText(v), '-', 0)
            case None => ParseCore(FrontText(v), [], build) == Some(v.(build := build))
            case Some(dash) =>
              ParseCore(FrontText(v)[..dash], Split(FrontText(v)[dash + 1..], '.'), build) == Some(v.(build := build))
  {
    hide CoreText, Split, NatText, Component, IndexOf, Join;
    FrontTextParses(v);
    CoreTextParses(v);
    DigitText(v.major);
    DigitText(v.minor);
    DigitText(v.patch);
    if v.prerelease == [] {
      assert FrontText(v) == CoreText(v);
    } else {
      PrereleaseParses(v);
      var dash := |CoreText(v)|;
      assert FrontText(v)[..dash] == CoreText(v) && FrontText(v)[dash + 1..] == Join(v.prerelease, '.');
    }
  }

  /** What an accepted version is like: numbers that fit, no empty identifier, a build number
      that is not negative and is the argument if there is one, and one '+' at most. */
  lemma ParsedIsSound(value: string, given: Option<int>)
    requires ParseVersion(value, given).Some?
    ensures var v := ParseVersion(value, given).value;
            && 0 <= v.major <= INT64_MAX && 0 <= v.minor <= INT64_MAX && 0 <= v.patch <= INT64_MAX
            && "" !in v.prerelease
            && (v.build.Some? ==> v.build.value >= 0) && (given.Some? ==> v.build == given)
            && |Split(Trimmed(value), '+')| <= 2
  {
    hide Split, IndexOf, Trimmed, DigitsValue;
  }

  //
  // Comparison
  //

  function Sign(a: int, b: int): int { if a == b then 0 else if a < b then -1 else 1 }

  function IdentifierOrder(a: string, b: string): int
  {
    if Numeric(a) && Numeric(b) then (if Component(a).value < Component(b).value then -1 else 1)
    else if Numeric(a) != Numeric(b) then (if Numeric(a) then -1 else 1)
    else if Less(a, b) then -1 else 1
  }

  /** The order of two identifier lists that agree before position `k`. */
  function ListOrder(l: seq<string>, r: seq<string>, k: nat): int
    requires k <= |l| && k <= |r|
    decreases |l| - k
  {
    if k == |l| || k == |r| then Sign(|l|, |r|)
    else if l[k] == r[k] then ListOrder(l, r, k + 1)
    else IdentifierOrder(l[k], r[k])
  }

  function PrereleaseOrder(l: seq<string>, r: seq<string>): int
  {
    if (l == []) != (r == []) then (if l == [] then 1 else -1) else ListOrder(l, r, 0)
  }

  method ComparePrerelease(left: seq<string>, right: seq<string>) returns (c: int)
    ensures c == PrereleaseOrder(left, right)
  {
    if (left == []) != (right == []) { return if left == [] then 1 else -1; }
    var count := if |left| < |right| then |left| else |right|;
    for index := 0 to count
      invariant ListOrder(left, right, 0) == ListOrder(left, right, index)
    {
      if left[index] == right[index] { continue; }
      return IdentifierOrder(left[index], right[index]);
    }
    if |left| == |right| { return 0; }
    return if |left| < |right| then -1 else 1;
  }

  /** The comparison without build numbers. */
  function NumberOrder(l: Version, r: Version): int
  {
    if l.major != r.major then Sign(l.major, r.major)
    else if l.minor != r.minor then Sign(l.minor, r.minor)
    else if l.patch != r.patch then Sign(l.patch, r.patch)
    else PrereleaseOrder(l.prerelease, r.prerelease)
  }

  /** CompareDesktopVersions */
  function Compare(l: Version, r: Version): int
  {
    if l.build.Some? && r.build.Some? then Sign(l.build.value, r.build.value) else NumberOrder(l, r)
  }

  //
  // Precedence as section 11 of Semantic Versioning 2.0.0 defines it
  //

  ghost predicate IdentifierBelow(a: string, b: string)
  {
    if Numeric(a) then (Numeric(b) ==> DigitsValue(a) < DigitsValue(b))
    else !Numeric(b) && Less(a, b)
  }

  /** A longer list of identifiers is above its own prefixes; otherwise the first
      difference decides. */
  ghost predicate ListBelow(l: seq<string>, r: seq<string>)
  {
    exists k :: 0 <= k <= |l| && k < |r| && l[..k] == r[..k] && (k < |l| ==> l[k] != r[k] && IdentifierBelow(l[k], r[k]))
  }

  ghost predicate Below(a: Version, b: Version)
  {
    || a.major < b.major
    || (a.major == b.major && a.minor < b.minor)
    || (a.major == b.major && a.minor == b.minor && a.patch < b.patch)
    || (a.major == b.major && a.minor == b.minor && a.patch == b.patch && a.prerelease != []
        && (b.prerelease == [] || ListBelow(a.prerelease, b.prerelease)))
  }

  /** Numeric identifiers have no leading zeros (section 9) and fit into 64 bits. */
  predicate CanonicalIdentifier(t: string)
  {
    Numeric(t) ==> (t[0] != '0' || |t| == 1) && DigitsValue(t) <= INT64_MAX
  }

  ghost predicate Canonical(v: Version)
  {
    forall i :: 0 <= i < |v.prerelease| ==> CanonicalIdentifier(v.prerelease[i])
  }

  lemma {:induction false} CanonicalText(t: string)
    requires Numeric(t) && (t[0] != '0' || |t| == 1)
    ensures NatText(DigitsValue(t)) == t
  {
    if |t| == 1 {
      assert t[..0] == [];
    } else {
      var front := t[..|t| - 1];
      CanonicalText(front);
      NatTextValue(DigitsValue(front));
      assert DigitsValue(front) > 0;
      assert t == front + [t[|t| - 1]];
    }
  }

  /** On canonical identifiers the code decides as section 11 does. */
  lemma IdentifiersDecided(a: string, b: string)
    requires CanonicalIdentifier(a) && CanonicalIdentifier(b) && a != b
    ensures IdentifierOrder(a, b) == -1 <==> IdentifierBelow(a, b)
    ensures IdentifierOrder(a, b) == -IdentifierOrder(b, a)
  {
    hide Less, DigitsValue, NatText;
    if Numeric(a) && Numeric(b) {
      CanonicalText(a);
      CanonicalText(b);
    } else if !Numeric(a) && !Numeric(b) {
      LessTotal(a, b);
      if Less(a, b) && Less(b, a) {
        LessTransitive(a, b, a);
        LessIrreflexive(a);
      }
    }
  }

  ghost predicate CanonicalList(l: seq<string>)
  {
    forall i :: 0 <= i < |l| ==> CanonicalIdentifier(l[i])
  }

  lemma {:induction false} ListDecided(l: seq<string>, r: seq<string>, k: nat)
    requires CanonicalList(l) && CanonicalList(r) && k <= |l| && k <= |r| && l[..k] == r[..k]
    ensures ListOrder(l, r, k) == -1 <==> ListBelow(l, r)
    ensures ListOrder(l, r, k) == -ListOrder(r, l, k)
    ensures ListOrder(l, r, k) == 0 <==> l == r
    decreases |l| - k
  {
    hide CanonicalIdentifier, IdentifierOrder, IdentifierBelow, Less;
    if k == |l| || k == |r| {
      if k == |l| && k == |r| { assert l == l[..k] && r == r[..k]; }
      if ListBelow(l, r) { FirstDifference(l, r, k); }
    } else if l[k] == r[k] {
      assert l[..k + 1] == l[..k] + [l[k]] && r[..k + 1] == r[..k] + [r[k]];
      ListDecided(l, r, k + 1);
    } else {
      IdentifiersDecided(l[k], r[k]);
      IdentifierRange(l[k], r[k]);
      if ListBelow(l, r) { FirstDifference(l, r, k); }
    }
  }

  lemma SamePrefix(l: seq<string>, r: seq<string>, k: nat, m: nat)
    requires m < k <= |l| && k <= |r| && l[..k] == r[..k]
    ensures l[m] == r[m]
  {
    assert l[m] == l[..k][m] && r[m] == r[..k][m];
  }

  lemma FirstDifference(l: seq<string>, r: seq<string>, k: nat)
    requires ListBelow(l, r) && k <= |l| && k <= |r| && l[..k] == r[..k]
    requires k < |l| && k < |r| ==> l[k] != r[k]
    ensures k < |r| && (k < |l| ==> IdentifierBelow(l[k], r[k]))
  {
    hide IdentifierBelow;
    var m :| 0 <= m <= |l| && m < |r| && l[..m] == r[..m] && (m < |l| ==> l[m] != r[m] && IdentifierBelow(l[m], r[m]));
    if m < k {
      SamePrefix(l, r, k, m);
    } else if k < m {
      SamePrefix(l, r, m, k);
    }
  }

  /** Without build numbers, and on canonical identifiers, the code implements the
      precedence of section 11. */
  lemma ComparesAsSemVer(a: Version, b: Version)
    requires Canonical(a) && Canonical(b) && (a.build.None? || b.build.None?)
    ensures Compare(a, b) == -1 <==> Below(a, b)
    ensures Compare(a, b) == 1 <==> Below(b, a)
    ensures Compare(a, b) == 0 <==> a.(build := None) == b.(build := None)
    ensures Compare(a, b) in {-1, 0, 1}
  {
    hide ListOrder, ListBelow, CanonicalIdentifier;
    var l, r := a.prerelease, b.prerelease;
    ListDecided(l, r, 0);
    ListDecided(r, l, 0);
    OrderRange(l, r, 0);
  }

  lemma {:induction false} OrderRange(l: seq<string>, r: seq<string>, k: nat)
    requires k <= |l| && k <= |r|
    ensures ListOrder(l, r, k) in {-1, 0, 1}
    decreases |l| - k
  {
    hide Less, AllDigits, DigitsValue;
    if k < |l| && k < |r| && l[k] == r[k] { OrderRange(l, r, k + 1); }
  }

  //
  // When the comparison is an order
  //

  /** Both orders of two versions, compared exactly when each is the mirror of the other. */
  predicate Mirrored(a: Version, b: Version) { Compare(a, b) == -Compare(b, a) }

  /** The first difference is between two numerals with the same (saturated) value. */
  ghost predicate SameNumeral(a: Version, b: Version)
  {
    && (a.build.None? || b.build.None?)
    && a.major == b.major && a.minor == b.minor && a.patch == b.patch
    && exists k :: 0 <= k < |a.prerelease| && k < |b.prerelease| && a.prerelease[..k] == b.prerelease[..k]
                   && a.prerelease[k] != b.prerelease[k] && Numeric(a.prerelease[k]) && Numeric(b.prerelease[k])
                   && Component(a.prerelease[k]) == Component(b.prerelease[k])
  }

  lemma IdentifierMirror(a: string, b: string)
    requires a != b
    ensures IdentifierOrder(a, b) == -IdentifierOrder(b, a) <==>
            !(Numeric(a) && Numeric(b) && Component(a) == Component(b))
  {
    hide Less, DigitsValue;
    if !Numeric(a) && !Numeric(b) {
      LessTotal(a, b);
      if Less(a, b) && Less(b, a) {
        LessTransitive(a, b, a);
        LessIrreflexive(a);
      }
    }
  }

  lemma {:induction false} ListMirror(l: seq<string>, r: seq<string>, k: nat)
    requires k <= |l| && k <= |r| && l[..k] == r[..k]
    ensures ListOrder(l, r, k) == -ListOrder(r, l, k) <==>
            !exists m :: 0 <= m < |l| && m < |r| && l[..m] == r[..m] && l[m] != r[m]
                         && Numeric(l[m]) && Numeric(r[m]) && Component(l[m]) == Component(r[m])
    decreases |l| - k
  {
    hide Numeric, IdentifierOrder, Component;
    if k < |l| && k < |r| && l[k] == r[k] {
      assert l[..k + 1] == l[..k] + [l[k]] && r[..k + 1] == r[..k] + [r[k]];
      ListMirror(l, r, k + 1);
    } else {
      if k < |l| && k < |r| { IdentifierMirror(l[k], r[k]); }
      forall m | 0 <= m < |l| && m < |r| && l[..m] == r[..m] && l[m] != r[m]
        ensures m == k && k < |l| && k < |r|
      {
        if m < k {
          SamePrefix(l, r, k, m);
        } else if k < m {
          SamePrefix(l, r, m, k);
        }
      }
    }
  }

  /** The comparison contradicts itself exactly on numerals of the same value: then each
      version is newer than the other. */
  lemma MirroredExactly(a: Version, b: Version)
    ensures Mirrored(a, b) <==> !SameNumeral(a, b)
  {
    hide ListOrder, Numeric, Component;
    ListMirror(a.prerelease, b.prerelease, 0);
  }

  lemma LeadingZerosContradict()
    ensures var a, b := Version(1, 0, 0, ["01"], None), Version(1, 0, 0, ["1"], None);
            Compare(a, b) == 1 && Compare(b, a) == 1
  {
    assert "01"[..1] == "0" && "0"[..0] == [] && "1"[..0] == [];
    assert DigitsValue("0") == 0 && DigitsValue("01") == 1 && DigitsValue("1") == 1;
  }

  ghost predicate Transitive(a: Version, b: Version, c: Version)
  {
    Compare(a, b) <= 0 && Compare(b, c) <= 0 ==> Compare(a, c) <= 0
  }

  /** Compare is a total preorder on these versions. */
  ghost predicate OrderedBy(vs: seq<Version>)
  {
    && (forall i, j :: 0 <= i < |vs| && 0 <= j < |vs| ==> Mirrored(vs[i], vs[j]))
    && (forall i, j, k :: 0 <= i < |vs| && 0 <= j < |vs| && 0 <= k < |vs| ==> Transitive(vs[i], vs[j], vs[k]))
  }

  lemma IdentifiersTransitive(a: string, b: string, c: string)
    requires a != b && b != c
    requires IdentifierOrder(a, b) == -1 && IdentifierOrder(b, c) == -1
    ensures a != c && IdentifierOrder(a, c) == -1
  {
    hide Less, DigitsValue, AllDigits;
    if !Numeric(a) && !Numeric(b) && !Numeric(c) {
      LessTransitive(a, b, c);
      LessIrreflexive(a);
    }
  }

  lemma {:induction false} ListTransitive(a: seq<string>, b: seq<string>, c: seq<string>, k: nat)
    requires k <= |a| && k <= |b| && k <= |c|
    requires ListOrder(a, b, k) <= 0 && ListOrder(b, c, k) <= 0
    ensures ListOrder(a, c, k) <= 0
    decreases |a| - k
  {
    hide IdentifierOrder;
    if k < |a| && k < |b| && k < |c| {
      IdentifierRange(a[k], b[k]);
      IdentifierRange(b[k], c[k]);
      if a[k] == b[k] && b[k] == c[k] {
        ListTransitive(a, b, c, k + 1);
      } else if a[k] != b[k] && b[k] != c[k] {
        IdentifiersTransitive(a[k], b[k], c[k]);
      }
    }
  }

  lemma IdentifierRange(a: string, b: string)
    ensures IdentifierOrder(a, b) in {-1, 1}
  {
  }

  /** The comparison by numbers alone is transitive on all versions. */
  lemma NumbersTransitive(a: Version, b: Version, c: Version)
    requires NumberOrder(a, b) <= 0 && NumberOrder(b, c) <= 0
    ensures NumberOrder(a, c) <= 0
  {
    hide ListOrder;
    if ListOrder(a.prerelease, b.prerelease, 0) <= 0 && ListOrder(b.prerelease, c.prerelease, 0) <= 0 {
      ListTransitive(a.prerelease, b.prerelease, c.prerelease, 0);
    }
  }

  /** On canonical versions it is a total preorder. */
  lemma NumbersOrdered(a: Version, b: Version, c: Version)
    requires Canonical(a) && Canonical(b) && Canonical(c)
    ensures NumberOrder(a, b) == -NumberOrder(b, a)
    ensures NumberOrder(a, b) <= 0 && NumberOrder(b, c) <= 0 ==> NumberOrder(a, c) <= 0
  {
    hide ListOrder, CanonicalIdentifier;
    ListDecided(a.prerelease, b.prerelease, 0);
    if NumberOrder(a, b) <= 0 && NumberOrder(b, c) <= 0 { NumbersTransitive(a, b, c); }
  }

  //
  // Exactly when
  //

  /** Two versions with builds and one without that form a cycle: by its number the third
      lies between the two, or is level with only one of them, against their builds. */
  predicate Between(a: Version, b: Version, c: Version)
  {
    && a.build.Some? && b.build.Some? && c.build.None?
    && if a.build.value < b.build.value then NumberOrder(b, c) <= 0 && NumberOrder(c, a) <= 0
       else if a.build.value > b.build.value then NumberOrder(a, c) <= 0 && NumberOrder(c, b) <= 0
       else NumberOrder(a, c) != NumberOrder(b, c)
  }

  ghost predicate Comparable(vs: seq<Version>)
  {
    && (forall i, j :: 0 <= i < |vs| && 0 <= j < |vs| ==> !SameNumeral(vs[i], vs[j]))
    && (forall i, j, k :: 0 <= i < |vs| && 0 <= j < |vs| && 0 <= k < |vs| ==> !Between(vs[i], vs[j], vs[k]))
  }

  ghost predicate TransitiveAmong(a: Version, b: Version, c: Version)
  {
    Transitive(a, b, c) && Transitive(b, a, c) && Transitive(a, c, b) && Transitive(c, a, b)
    && Transitive(b, c, a) && Transitive(c, b, a)
  }

  /** Two versions with builds and one without are in order exactly if it is not between them. */
  lemma TripleExactly(a: Version, b: Version, c: Version)
    requires a.build.Some? && b.build.Some? && c.build.None? && Mirrored(a, c) && Mirrored(b, c)
    ensures TransitiveAmong(a, b, c) <==> !Between(a, b, c)
  {
    hide NumberOrder;
    NumberRange(a, c);
    NumberRange(b, c);
  }

  /** All other triples are in order. */
  lemma OtherTriples(a: Version, b: Version, c: Version)
    requires (a.build.Some? && b.build.Some? && c.build.Some?)
          || (a.build.None? && b.build.None?) || (b.build.None? && c.build.None?) || (a.build.None? && c.build.None?)
    ensures Transitive(a, b, c)
  {
    hide NumberOrder;
    if !(a.build.Some? && b.build.Some? && c.build.Some?) && NumberOrder(a, b) <= 0 && NumberOrder(b, c) <= 0 {
      NumbersTransitive(a, b, c);
    }
  }

  lemma InOrder(a: Version, b: Version, c: Version)
    requires Mirrored(a, b) && Mirrored(b, c) && Mirrored(a, c)
    requires !Between(a, b, c) && !Between(a, c, b) && !Between(b, c, a)
    ensures Transitive(a, b, c)
  {
    hide NumberOrder, Between, Compare;
    if a.build.Some? && b.build.Some? && c.build.None? {
      TripleExactly(a, b, c);
    } else if a.build.Some? && b.build.None? && c.build.Some? {
      TripleExactly(a, c, b);
    } else if a.build.None? && b.build.Some? && c.build.Some? {
      TripleExactly(b, c, a);
    } else {
      OtherTriples(a, b, c);
    }
  }

  /** On any list of versions the comparison is a total preorder exactly if no two of them
      differ first in numerals of the same value and no third is between two with builds. */
  lemma OrderedExactly(vs: seq<Version>)
    ensures OrderedBy(vs) <==> Comparable(vs)
  {
    hide Compare, Between, SameNumeral, Mirrored, Transitive;
    forall i, j | 0 <= i < |vs| && 0 <= j < |vs|
      ensures Mirrored(vs[i], vs[j]) <==> !SameNumeral(vs[i], vs[j])
    {
      MirroredExactly(vs[i], vs[j]);
    }
    if Comparable(vs) {
      forall i, j, k | 0 <= i < |vs| && 0 <= j < |vs| && 0 <= k < |vs|
        ensures Transitive(vs[i], vs[j], vs[k])
      {
        InOrder(vs[i], vs[j], vs[k]);
      }
    }
    if OrderedBy(vs) {
      forall i, j, k | 0 <= i < |vs| && 0 <= j < |vs| && 0 <= k < |vs|
        ensures !Between(vs[i], vs[j], vs[k])
      {
        if vs[i].build.Some? && vs[j].build.Some? && vs[k].build.None? {
          TripleExactly(vs[i], vs[j], vs[k]);
        } else {
          BetweenBuilds(vs[i], vs[j], vs[k]);
        }
      }
    }
  }

  lemma BetweenBuilds(a: Version, b: Version, c: Version)
    ensures Between(a, b, c) ==> a.build.Some? && b.build.Some? && c.build.None?
  {
  }

  //
  // Sufficient conditions
  //

  ghost predicate AllBuilds(vs: seq<Version>) { forall i :: 0 <= i < |vs| ==> vs[i].build.Some? }

  ghost predicate NoBuilds(vs: seq<Version>) { forall i :: 0 <= i < |vs| ==> vs[i].build.None? && Canonical(vs[i]) }

  /** Where two builds are ordered, the version numbers are ordered alike. */
  predicate Agree(a: Version, b: Version)
    requires a.build.Some? && b.build.Some?
  {
    Sign(a.build.value, b.build.value) == NumberOrder(a, b)
  }

  ghost predicate BuildsAgree(vs: seq<Version>)
  {
    && (forall i :: 0 <= i < |vs| ==> Canonical(vs[i]))
    && forall i, j :: 0 <= i < |vs| && 0 <= j < |vs| && vs[i].build.Some? && vs[j].build.Some? ==> Agree(vs[i], vs[j])
  }

  /** With builds throughout, without any, or with builds that agree with the numbers, the
      versions are comparable. */
  lemma ComparesInOrder(vs: seq<Version>)
    requires AllBuilds(vs) || NoBuilds(vs) || BuildsAgree(vs)
    ensures OrderedBy(vs) && Comparable(vs)
  {
    OrderedExactly(vs);
    hide NumberOrder, Canonical;
    forall i, j, k | 0 <= i < |vs| && 0 <= j < |vs| && 0 <= k < |vs|
      ensures Mirrored(vs[i], vs[j]) && Transitive(vs[i], vs[j], vs[k])
    {
      if !AllBuilds(vs) {
        NumbersOrdered(vs[i], vs[j], vs[k]);
        NumbersOrdered(vs[j], vs[k], vs[i]);
      }
    }
    assert forall i, j :: 0 <= i < |vs| && 0 <= j < |vs| ==> Mirrored(vs[i], vs[j]) by {
      forall i, j | 0 <= i < |vs| && 0 <= j < |vs|
        ensures Mirrored(vs[i], vs[j])
      {
        assert Transitive(vs[i], vs[j], vs[i]);
      }
    }
  }

  /** Two versions with builds can be mixed with every version without a build exactly when
      their builds and their numbers agree. */
  lemma MixedExactly(a: Version, b: Version)
    requires Canonical(a) && Canonical(b) && a.build.Some? && b.build.Some?
    ensures (forall c: Version :: Canonical(c) && c.build.None? ==> TransitiveAmong(a, b, c)) <==> Agree(a, b)
  {
    hide NumberOrder, Canonical;
    if Agree(a, b) {
      forall c: Version | Canonical(c) && c.build.None?
        ensures TransitiveAmong(a, b, c)
      {
        MixedWith(a, b, c);
      }
    } else {
      var c, d := a.(build := None), b.(build := None);
      MixedBreaks(a, b);
      assert Canonical(c) && Canonical(d) by { StillCanonical(a); StillCanonical(b); }
      assert !TransitiveAmong(a, b, c) || !TransitiveAmong(a, b, d);
    }
  }

  lemma StillCanonical(v: Version)
    requires Canonical(v)
    ensures Canonical(v.(build := None))
  {
  }

  lemma MixedWith(a: Version, b: Version, c: Version)
    requires Canonical(a) && Canonical(b) && Canonical(c) && a.build.Some? && b.build.Some? && c.build.None? && Agree(a, b)
    ensures TransitiveAmong(a, b, c)
  {
    hide NumberOrder, Canonical;
    NumbersOrdered(a, b, c);
    NumbersOrdered(b, a, c);
    NumbersOrdered(a, c, b);
    NumbersOrdered(c, a, b);
    NumbersOrdered(b, c, a);
    NumbersOrdered(c, b, a);
  }

  lemma MixedBreaks(a: Version, b: Version)
    requires Canonical(a) && Canonical(b) && a.build.Some? && b.build.Some? && !Agree(a, b)
    ensures !TransitiveAmong(a, b, a.(build := None)) || !TransitiveAmong(a, b, b.(build := None))
  {
    hide NumberOrder, Canonical;
    var c, d := a.(build := None), b.(build := None);
    SameNumbers(a, b);
    NumbersOrdered(a, b, a);
    NumberRange(a, b);
  }

  lemma SameNumbers(a: Version, b: Version)
    requires Canonical(a) && Canonical(b)
    ensures var c, d := a.(build := None), b.(build := None);
            && NumberOrder(a, c) == 0 && NumberOrder(c, a) == 0 && NumberOrder(b, d) == 0 && NumberOrder(d, b) == 0
            && NumberOrder(a, d) == NumberOrder(a, b) == NumberOrder(c, b)
            && NumberOrder(d, a) == NumberOrder(b, a) == NumberOrder(b, c)
  {
    hide ListOrder, CanonicalIdentifier;
    ListDecided(a.prerelease, a.prerelease, 0);
    ListDecided(b.prerelease, b.prerelease, 0);
  }

  lemma NumberRange(a: Version, b: Version)
    ensures NumberOrder(a, b) in {-1, 0, 1}
  {
    hide ListOrder;
    OrderRange(a.prerelease, b.prerelease, 0);
  }

  /** The cycle 3.0.0 build 1 < 1.0.0 build 2 < 2.0.0 < 3.0.0 build 1. */
  lemma MixedCycle()
    ensures var a, b, c := Version(3, 0, 0, [], Some(1)), Version(1, 0, 0, [], Some(2)), Version(2, 0, 0, [], None);
            Compare(a, b) == -1 && Compare(b, c) == -1 && Compare(c, a) == -1
  {
  }
}
