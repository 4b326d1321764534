/**
 Choosing a release for an installation: rollout cohorts, the selection loop and the two
 stages of the update check that are built on it
 (native_runtime/cpp/release_contract.cc, native_runtime/cpp/update_client_core.cc).
 */
module ReleaseSelection {
  import opened Primitives
  import opened SortedMap
  import opened Text
  import opened Versions

  datatype Rollout = Rollout(percentage: int, salt: string)

  datatype Item = Item(version: string, build: Option<int>, platform: string, channel: string, rollout: Option<Rollout>)

  /** What the installation asks for; `sha256` is the digest provider. */
  datatype Query = Query(
    platform: string, channel: string, current: Version, identity: string, sha256: string -> seq<byte>)

  /** What ParseReleaseIndexItem guarantees of an item. */
  predicate ValidItem(item: Item)
  {
    && ParseVersion(item.version, None).Some?
    && (item.build.Some? ==> item.build.value >= 0)
    && (item.rollout.Some? ==> 0 <= item.rollout.value.percentage <= 100)
  }

  /** The version under which an item is compared: a build number of zero does not count. */
  function ItemVersion(item: Item): Option<Version>
  {
    ParseVersion(item.version, if item.build.Some? && item.build.value > 0 then item.build else None)
  }

  /** The items of a parsed index all have a version. */
  lemma ValidItemHasVersion(item: Item)
    requires ValidItem(item)
    ensures ItemVersion(item).Some?
  {
  }

  /** A positive build number of the item decides over the text, any other does not count. */
  lemma ItemBuild(item: Item)
    requires ItemVersion(item).Some?
    ensures item.build.Some? && item.build.value > 0 ==> ItemVersion(item).value.build == item.build
    ensures !(item.build.Some? && item.build.value > 0) ==> ItemVersion(item) == ItemVersion(item.(build := None))
  {
    hide ParseVersion;
    if item.build.Some? && item.build.value > 0 { ParsedIsSound(item.version, item.build); }
  }

  //
  // Cohorts
  //

  function CohortText(item: Item, identity: string): string
    requires item.rollout.Some?
  {
    item.rollout.value.salt + "\n" + item.channel + "\n" + Trimmed(identity)
  }

  /** The text that is digested has exactly the salt, the channel and the trimmed identity as its lines. */
  lemma CohortTextLines(item: Item, identity: string)
    requires item.rollout.Some? && '\n' !in item.rollout.value.salt && '\n' !in item.channel && '\n' !in Trimmed(identity)
    ensures Split(CohortText(item, identity), '\n') == [item.rollout.value.salt, item.channel, Trimmed(identity)]
  {
    hide Trimmed, Split;
    var lines := [item.rollout.value.salt, item.channel, Trimmed(identity)];
    assert Join(lines, '\n') == lines[0] + ['\n'] + Join(lines[1..], '\n');
    assert Join(lines[1..], '\n') == lines[1] + ['\n'] + Join(lines[1..][1..], '\n');
    assert CohortText(item, identity) == Join(lines, '\n');
    JoinSplits(lines, '\n');
  }

  /** The first four bytes of a digest as a big-endian number. */
  function Leading(digest: seq<byte>): nat
    requires |digest| == 32
  {
    var number: seq<int> := digest;
    number[0] * 0x100_0000 + number[1] * 0x1_0000 + number[2] * 0x100 + number[3]
  }

  /** Its bytes are those of the digest, the most significant first. */
  lemma LeadingBytes(digest: seq<byte>)
    requires |digest| == 32
    ensures var n := Leading(digest);
            && n % 0x100 == digest[3] && n / 0x100 % 0x100 == digest[2]
            && n / 0x100 / 0x100 % 0x100 == digest[1] && n / 0x100 / 0x100 / 0x100 == digest[0]
  {
    var a: int, b: int, c: int, d: int := digest[0], digest[1], digest[2], digest[3];
    assert Leading(digest) == ((a * 0x100 + b) * 0x100 + c) * 0x100 + d;
    LastByte((a * 0x100 + b) * 0x100 + c, d);
    LastByte(a * 0x100 + b, c);
    LastByte(a, b);
  }

  lemma LastByte(n: int, b: int)
    requires n >= 0 && 0 <= b < 0x100
    ensures (n * 0x100 + b) / 0x100 == n && (n * 0x100 + b) % 0x100 == b
  {
  }

  /** The cohort of an installation, a number below 100, does not depend on the percentage. */
  function Cohort(item: Item, q: Query): nat
    requires item.rollout.Some? && |q.sha256(CohortText(item, q.identity))| == 32
  {
    Leading(q.sha256(CohortText(item, q.identity))) % 100
  }

  /** RolloutIncludes; None is a digest of the wrong size. */
  function Includes(item: Item, q: Query): Option<bool>
  {
    if item.rollout.None? || item.rollout.value.percentage == 100 then Some(true)
    else if item.rollout.value.percentage <= 0 || Trimmed(q.identity) == "" then Some(false)
    else if |q.sha256(CohortText(item, q.identity))| != 32 then None
    else Some(Cohort(item, q) < item.rollout.value.percentage)
  }

  method RolloutIncludes(item: Item, q: Query) returns (r: Option<bool>)
    ensures r == Includes(item, q)
  {
    if item.rollout.None? || item.rollout.value.percentage == 100 { return Some(true); }
    var normalized := Trim(q.identity);
    if item.rollout.value.percentage <= 0 || normalized == "" { return Some(false); }
    var digest := q.sha256(item.rollout.value.salt + "\n" + item.channel + "\n" + normalized);
    if |digest| != 32 { return None; }
    var value: nat := 0;
    for index := 0 to 4
      invariant value == (if index == 0 then 0 else if index == 1 then digest[0]
                          else if index == 2 then digest[0] * 0x100 + digest[1]
                          else if index == 3 then digest[0] * 0x1_0000 + digest[1] * 0x100 + digest[2]
                          else Leading(digest))
    {
      value := (value * 0x100 + digest[index]) % 0x1_0000_0000;
    }
    return Some(value % 100 < item.rollout.value.percentage);
  }

  /** Of the hundred cohorts a percentage admits exactly the lowest ones, as many as it says;
      the shortcuts for 0 and 100 agree with that.  An installation without an identity is only
      in full rollouts. */
  lemma SharesAreExact(item: Item, q: Query)
    requires ValidItem(item) && HonestDigest(q, item)
    ensures Includes(item, q) == Some(
              || item.rollout.None?
              || if Trimmed(q.identity) == "" then item.rollout.value.percentage == 100
                 else Cohort(item, q) < item.rollout.value.percentage)
  {
    hide ParseVersion, Trimmed, Leading;
  }

  //
  // Selection
  //

  /** The item is published for the platform and the channel of the installation. */
  ghost predicate ForThis(item: Item, q: Query)
  {
    item.platform == q.platform && item.channel == q.channel
  }

  /** The version of the item is above the given one. */
  ghost predicate Above(item: Item, current: Version)
  {
    ItemVersion(item).Some? && Compare(ItemVersion(item).value, current) > 0
  }

  predicate Matches(item: Item, q: Query) { item.platform == q.platform && item.channel == q.channel }

  /** IsNewer, of an item with a version. */
  predicate Newer(item: Item, q: Query)
  {
    ItemVersion(item).Some? && Compare(ItemVersion(item).value, q.current) > 0
  }

  predicate Eligible(item: Item, q: Query)
  {
    Matches(item, q) && Includes(item, q) == Some(true) && Newer(item, q)
  }

  /** The loop throws on this item. */
  predicate Throws(item: Item, q: Query)
  {
    && Matches(item, q)
    && (Includes(item, q).None? || (Includes(item, q) == Some(true) && ItemVersion(item).None?))
  }

  datatype Selection = Threw | Chosen(at: Option<nat>)

  /** The selection among the first `n` items. */
  function SelectAmong(items: seq<Item>, q: Query, n: nat): (s: Selection)
    requires n <= |items|
    ensures s.Chosen? && s.at.Some? ==> s.at.value < n && Eligible(items[s.at.value], q)
  {
    if n == 0 then Chosen(None)
    else
      var s := SelectAmong(items, q, n - 1);
      if s.Threw? then s
      else if Throws(items[n - 1], q) then Threw
      else if !Eligible(items[n - 1], q) then s
      else if s.at.None? || Compare(ItemVersion(items[n - 1]).value, ItemVersion(items[s.at.value]).value) > 0
      then Chosen(Some(n - 1))
      else s
  }

  /** The selection throws exactly if some item does. */
  lemma {:induction false} SelectThrows(items: seq<Item>, q: Query, n: nat)
    requires n <= |items|
    ensures SelectAmong(items, q, n).Threw? <==> exists i :: 0 <= i < n && Throws(items[i], q)
  {
    hide Throws, Eligible, Compare, ItemVersion;
    if n > 0 { SelectThrows(items, q, n - 1); }
  }

  /** Nothing is selected only if nothing is eligible. */
  lemma {:induction false} SelectsSomething(items: seq<Item>, q: Query, n: nat)
    requires n <= |items| && SelectAmong(items, q, n) == Chosen(None)
    ensures forall i :: 0 <= i < n ==> !Eligible(items[i], q)
  {
    hide Throws, Eligible, Compare, ItemVersion;
    if n > 0 { SelectsSomething(items, q, n - 1); }
  }

  function Select(items: seq<Item>, q: Query): Selection { SelectAmong(items, q, |items|) }

  method SelectReleaseIndexItem(items: seq<Item>, q: Query) returns (s: Selection)
    ensures s == Select(items, q)
    ensures s.Chosen? && s.at.Some? ==> s.at.value < |items| && ForThis(items[s.at.value], q) && Above(items[s.at.value], q.current)
    ensures s.Threw? <==>
              exists i ::
                && 0 <= i < |items| && ForThis(items[i], q)
                && (Includes(items[i], q).None? || (Includes(items[i], q) == Some(true) && ItemVersion(items[i]).None?))
  {
    hide ParseVersion, Compare, Includes;
    SelectThrows(items, q, |items|);
    var selected: Option<nat> := None;
    for i := 0 to |items|
      invariant SelectAmong(items, q, i) == Chosen(selected)
    {
      var item := items[i];
      assert Throws(item, q) ==> Select(items, q).Threw?;
      if item.platform != q.platform || item.channel != q.channel { continue; }
      var included := RolloutIncludes(item, q);
      if included == None { return Threw; }
      if !included.value { continue; }
      var candidate := ItemVersion(item);
      if candidate == None { return Threw; }
      if Compare(candidate.value, q.current) <= 0 { continue; }
      if selected == None || Compare(candidate.value, ItemVersion(items[selected.value]).value) > 0 {
        selected := Some(i);
      }
    }
    return Chosen(selected);
  }

  /** The versions of the items for this platform and channel. */
  function Candidates(items: seq<Item>, q: Query): seq<Version>
  {
    if items == [] then []
    else
      var item := items[|items| - 1];
      var rest := Candidates(items[..|items| - 1], q);
      if Matches(item, q) && ItemVersion(item).Some? then rest + [ItemVersion(item).value] else rest
  }

  lemma {:induction false} CandidatesHold(items: seq<Item>, q: Query, i: nat)
    requires i < |items| && Matches(items[i], q) && ItemVersion(items[i]).Some?
    ensures ItemVersion(items[i]).value in Candidates(items, q)
  {
    hide ItemVersion;
    if i < |items| - 1 { CandidatesHold(items[..|items| - 1], q, i); }
  }

  /** The comparison is an order on the candidates, by OrderedExactly. */
  ghost predicate ComparableItems(items: seq<Item>, q: Query) { Comparable(Candidates(items, q)) }

  /** Item `k` is eligible, no eligible item is above it and all eligible ones before it are below it. */
  ghost predicate FirstMaximal(items: seq<Item>, q: Query, n: nat, k: nat)
    requires n <= |items|
  {
    && k < n && Eligible(items[k], q)
    && forall i :: 0 <= i < n && Eligible(items[i], q) ==>
         var c := Compare(ItemVersion(items[i]).value, ItemVersion(items[k]).value);
         c <= 0 && (i < k ==> c < 0)
  }

  lemma CandidatesOrdered(items: seq<Item>, q: Query, i: nat, j: nat, k: nat)
    requires i < |items| && j < |items| && k < |items| && ComparableItems(items, q)
    requires Eligible(items[i], q) && Eligible(items[j], q) && Eligible(items[k], q)
    ensures var a, b, c := ItemVersion(items[i]).value, ItemVersion(items[j]).value, ItemVersion(items[k]).value;
            Compare(a, b) == -Compare(b, a) && (Compare(a, b) <= 0 && Compare(b, c) <= 0 ==> Compare(a, c) <= 0)
  {
    hide Compare, ItemVersion, Includes, Newer;
    var vs := Candidates(items, q);
    EligibleHasVersion(items[i], q);
    EligibleHasVersion(items[j], q);
    EligibleHasVersion(items[k], q);
    var a, b, c := ItemVersion(items[i]).value, ItemVersion(items[j]).value, ItemVersion(items[k]).value;
    CandidatesHold(items, q, i);
    CandidatesHold(items, q, j);
    CandidatesHold(items, q, k);
    OrderedExactly(vs);
    var x :| 0 <= x < |vs| && vs[x] == a;
    var y :| 0 <= y < |vs| && vs[y] == b;
    var z :| 0 <= z < |vs| && vs[z] == c;
    assert Mirrored(vs[x], vs[y]) && Transitive(vs[x], vs[y], vs[z]);
  }

  lemma EligibleHasVersion(item: Item, q: Query)
    requires Eligible(item, q)
    ensures ItemVersion(item).Some?
  {
  }

  lemma {:induction false} SelectsFirstMaximalAmong(items: seq<Item>, q: Query, n: nat)
    requires n <= |items| && ComparableItems(items, q)
    ensures var s := SelectAmong(items, q, n); s.Chosen? && s.at.Some? ==> FirstMaximal(items, q, n, s.at.value)
  {
    hide Compare, ItemVersion, Includes, ComparableItems, Newer, Eligible;
    var s := SelectAmong(items, q, n);
    if n > 0 && s.Chosen? && s.at.Some? {
      SelectsFirstMaximalAmong(items, q, n - 1);
      var before := SelectAmong(items, q, n - 1);
      if before.at.None? { SelectsSomething(items, q, n - 1); }
      EligibleHasVersion(items[s.at.value], q);
      forall i | 0 <= i < n && Eligible(items[i], q)
        ensures ItemVersion(items[i]).Some?
        ensures var c := Compare(ItemVersion(items[i]).value, ItemVersion(items[s.at.value]).value);
                c <= 0 && (i < s.at.value ==> c < 0)
      {
        EligibleHasVersion(items[i], q);
        if s.at.value == n - 1 {
          CandidatesOrdered(items, q, i, n - 1, i);
          CandidatesOrdered(items, q, n - 1, n - 1, n - 1);
          if before.at.Some? {
            EligibleHasVersion(items[before.at.value], q);
            CandidatesOrdered(items, q, n - 1, i, before.at.value);
          }
        }
      }
    }
  }

  /** Where the candidates are comparable, the loop selects the first of the newest eligible ones. */
  lemma SelectsFirstMaximal(items: seq<Item>, q: Query)
    requires ComparableItems(items, q) && Select(items, q).Chosen?
    ensures var s := Select(items, q);
            if s.at.Some? then FirstMaximal(items, q, |items|, s.at.value)
            else forall i :: 0 <= i < |items| ==> !Eligible(items[i], q)
  {
    hide Compare, ItemVersion, Includes, ComparableItems, Eligible, SelectAmong;
    SelectsFirstMaximalAmong(items, q, |items|);
    if Select(items, q).at.None? { SelectsSomething(items, q, |items|); }
  }

  //
  // Raising a rollout
  //

  /** The same item, offered to at least as many installations. */
  predicate Raised(before: Item, after: Item)
  {
    && after.(rollout := before.rollout) == before
    && match (before.rollout, after.rollout)
       case (None, r) => r == None
       case (Some(p), Some(p')) => p.salt == p'.salt && p.percentage <= p'.percentage
       case (Some(_), None) => true
  }

  predicate HonestDigest(q: Query, item: Item)
  {
    item.rollout.Some? ==> |q.sha256(CohortText(item, q.identity))| == 32
  }

  lemma RaisedStaysEligible(before: Item, after: Item, q: Query)
    requires Raised(before, after) && ValidItem(after) && HonestDigest(q, after) && Eligible(before, q)
    ensures Eligible(after, q) && ItemVersion(after) == ItemVersion(before)
  {
    hide ParseVersion, Compare;
  }

  /** Raising rollout percentages never lowers the version that is selected. */
  lemma RaisingNeverLowers(before: seq<Item>, after: seq<Item>, q: Query)
    requires |before| == |after| && forall i :: 0 <= i < |after| ==>
               Raised(before[i], after[i]) && ValidItem(after[i]) && HonestDigest(q, after[i])
    requires ComparableItems(after, q)
    requires Select(before, q).Chosen? && Select(before, q).at.Some?
    ensures Select(after, q).Chosen? && Select(after, q).at.Some?
    ensures Compare(ItemVersion(before[Select(before, q).at.value]).value,
                    ItemVersion(after[Select(after, q).at.value]).value) <= 0
  {
    hide Compare, ItemVersion, Includes, ComparableItems, Eligible, Throws, SelectAmong, ValidItem, HonestDigest, Raised;
    var k := Select(before, q).at.value;
    forall i | 0 <= i < |after|
      ensures !Throws(after[i], q)
    {
      NeverThrows(after[i], q);
    }
    SelectThrows(after, q, |after|);
    RaisedStaysEligible(before[k], after[k], q);
    EligibleHasVersion(before[k], q);
    SelectsFirstMaximal(after, q);
  }

  lemma NeverThrows(item: Item, q: Query)
    requires ValidItem(item) && HonestDigest(q, item)
    ensures !Throws(item, q)
  {
    hide ParseVersion;
    ValidItemHasVersion(item);
  }

  //
  // The update check
  //

  datatype Outcome = NoUpdate | RolloutIneligible | InvalidDescriptor | Offered(at: nat)

  /** There is a newer release for this platform and channel. */
  ghost predicate NewerExists(items: seq<Item>, q: Query)
  {
    exists i :: 0 <= i < |items| && Matches(items[i], q) && Newer(items[i], q)
  }

  /** This installation is in the cohort of no newer release. */
  ghost predicate OutsideCohorts(items: seq<Item>, q: Query)
  {
    forall i :: 0 <= i < |items| && Matches(items[i], q) && Newer(items[i], q) ==> Includes(items[i], q) == Some(false)
  }

  lemma NewerIsAbove(item: Item, q: Query)
    ensures Matches(item, q) && Newer(item, q) <==> ForThis(item, q) && Above(item, q.current)
  {
    hide ItemVersion, Compare;
  }

  lemma NothingSelected(items: seq<Item>, q: Query)
    requires Select(items, q).Chosen?
    ensures Select(items, q).at.None? <==> OutsideCohorts(items, q)
  {
    hide Includes, Newer, SelectAmong;
    SelectThrows(items, q, |items|);
    if Select(items, q).at.None? { SelectsSomething(items, q, |items|); }
    if !OutsideCohorts(items, q) {
      var i :| 0 <= i < |items| && Matches(items[i], q) && Newer(items[i], q) && Includes(items[i], q) != Some(false);
      if !Throws(items[i], q) {
        var included := Includes(items[i], q);
        assert included == Some(included.value) && included.value;
        assert Eligible(items[i], q);
      }
    }
  }

  lemma ThrowsOnDigest(items: seq<Item>, q: Query)
    requires forall i :: 0 <= i < |items| ==> ValidItem(items[i])
    requires Select(items, q).Threw?
    ensures exists i :: 0 <= i < |items| && Matches(items[i], q) && Includes(items[i], q).None?
  {
    hide Includes, SelectAmong, ItemVersion, ValidItem;
    SelectThrows(items, q, |items|);
    var i :| 0 <= i < |items| && Throws(items[i], q);
    ValidItemHasVersion(items[i]);
  }

  /** The stages of CheckForUpdateCore between the support policy and the descriptor: is
      there anything newer, and is one of them for this installation? */
  method CheckStages(items: seq<Item>, q: Query) returns (r: Outcome)
    requires forall i :: 0 <= i < |items| ==> ValidItem(items[i])
    ensures r == NoUpdate <==> forall i :: 0 <= i < |items| && ForThis(items[i], q) ==> !Above(items[i], q.current)
    ensures r.Offered? ==> r.at < |items| && ForThis(items[r.at], q) && Above(items[r.at], q.current)
    ensures r == NoUpdate <==> !NewerExists(items, q)
    ensures r != InvalidDescriptor ==> (r == RolloutIneligible <==> NewerExists(items, q) && OutsideCohorts(items, q))
    ensures r.Offered? ==> r.at < |items| && Eligible(items[r.at], q) && Select(items, q) == Chosen(Some(r.at))
    ensures r == InvalidDescriptor ==> exists i :: 0 <= i < |items| && Matches(items[i], q) && Includes(items[i], q).None?
  {
    hide ItemVersion, Includes, Newer, SelectAmong, OutsideCohorts, ValidItem, Above, ForThis;
    var hasNewer := false;
    for i := 0 to |items|
      invariant hasNewer <==> exists j :: 0 <= j < i && Matches(items[j], q) && Newer(items[j], q)
    {
      if Matches(items[i], q) && Newer(items[i], q) { hasNewer := true; }
    }
    forall i | 0 <= i < |items|
      ensures Matches(items[i], q) && Newer(items[i], q) <==> ForThis(items[i], q) && Above(items[i], q.current)
    {
      NewerIsAbove(items[i], q);
    }
    if !hasNewer { return NoUpdate; }
    var s := SelectReleaseIndexItem(items, q);
    if s.Threw? {
      ThrowsOnDigest(items, q);
      return InvalidDescriptor;
    }
    NothingSelected(items, q);
    if s.at == None { return RolloutIneligible; }
    return Offered(s.at.value);
  }
}
