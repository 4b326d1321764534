/**
 The provenance marker of a staged tree: encoding, decoding, writing and verifying
 (native_runtime/cpp/stage_provenance.cc).  None stands for a throw.
 */
module StageMarker {
  import opened Primitives
  import opened SortedMap
  import opened Json
  import opened JsonParser
  import opened JsonRoundTrip
  import opened CanonicalObject
  import opened WireMessages
  import opened Text
  import opened StageTree

  type Listing = seq<Entry<Info>>

  datatype Marker = Marker(
    nonce: string, packageId: string, descriptorSha256: string, artifactSha256: string, entries: Listing)

  const STAGE_PREFIX := "desktop_updater_stage_"

  /** A lower-case version 4 UUID. */
  predicate ValidNonce(t: string)
  {
    && |t| == 36 && t[8] == '-' && t[13] == '-' && t[18] == '-' && t[23] == '-' && t[14] == '4'
    && t[19] in {'8', '9', 'a', 'b'}
    && forall i :: 0 <= i < 36 && i !in {8, 13, 18, 23} ==> IsLowerHex(t[i])
  }

  predicate AllLowerHex(t: string) { forall i :: 0 <= i < |t| ==> IsLowerHex(t[i]) }

  /** Groups of eight, four, four, four and twelve digits, the third of them starting with the version
      and the fourth with the variant (section 4 of RFC 9562). */
  lemma NonceExactly(t: string)
    ensures ValidNonce(t) <==>
            && |t| == 36 && t == t[..8] + "-" + t[9..13] + "-4" + t[15..18] + "-" + t[19..23] + "-" + t[24..]
            && AllLowerHex(t[..8]) && AllLowerHex(t[9..13]) && AllLowerHex(t[15..18]) && AllLowerHex(t[19..23]) && AllLowerHex(t[24..])
            && t[19] in {'8', '9', 'a', 'b'}
  {
    hide IsLowerHex;
    if |t| == 36 {
      NonceGroups(t);
    }
  }

  lemma NonceGroups(t: string)
    requires |t| == 36
    ensures t == t[..8] + "-" + t[9..13] + "-4" + t[15..18] + "-" + t[19..23] + "-" + t[24..] <==>
            t[8] == '-' && t[13] == '-' && t[14] == '4' && t[18] == '-' && t[23] == '-'
    ensures t[14] == '4' ==> ((forall i :: 0 <= i < 36 && i !in {8, 13, 18, 23} ==> IsLowerHex(t[i])) <==>
              && AllLowerHex(t[..8]) && AllLowerHex(t[9..13]) && AllLowerHex(t[15..18]) && AllLowerHex(t[19..23]) && AllLowerHex(t[24..]))
  {
    var u := t[..8] + "-" + t[9..13] + "-4" + t[15..18] + "-" + t[19..23] + "-" + t[24..];
    assert |u| == 36 && u[8] == '-' && u[13] == '-' && u[14] == '4' && u[18] == '-' && u[23] == '-';
    assert forall i :: 0 <= i < 36 && i !in {8, 13, 14, 18, 23} ==> u[i] == t[i];
    assert IsLowerHex('4');
    if AllLowerHex(t[..8]) && AllLowerHex(t[9..13]) && AllLowerHex(t[15..18]) && AllLowerHex(t[19..23]) && AllLowerHex(t[24..]) && t[14] == '4' {
      forall i | 0 <= i < 36 && i !in {8, 13, 18, 23}
        ensures IsLowerHex(t[i])
      {
        if i < 8 { assert t[i] == t[..8][i]; }
        else if i < 13 { assert t[i] == t[9..13][i - 9]; }
        else if 14 < i < 18 { assert t[i] == t[15..18][i - 15]; }
        else if 18 < i < 23 { assert t[i] == t[19..23][i - 19]; }
        else if i > 23 { assert t[i] == t[24..][i - 24]; }
      }
    }
  }

  predicate ValidIdentity(m: Marker)
  {
    ValidNonce(m.nonce) && m.packageId != "" && IsSha256(m.descriptorSha256) && IsSha256(m.artifactSha256)
  }

  //
  // Encoding
  //

  function EntryFields(e: Entry<Info>): Fields
  {
    [Entry("path", String(e.key)), Entry("kind", String(e.value.kind)), Entry("length", Integer(e.value.length))]
    + (if e.value.kind == "file" then [Entry("sha256", String(e.value.sha256))] else [])
    + (if e.value.kind == "symlink" then [Entry("target", String(e.value.target))] else [])
  }

  function EntryValue(e: Entry<Info>): JsonValue { Object(Inserted(EntryFields(e))) }

  function EntryValues(entries: Listing): (values: seq<JsonValue>)
    ensures |values| == |entries| && forall i :: 0 <= i < |entries| ==> values[i] == EntryValue(entries[i])
  {
    if entries == [] then [] else EntryValues(entries[..|entries| - 1]) + [EntryValue(entries[|entries| - 1])]
  }

  function MarkerFields(m: Marker): Fields
  {
    [Entry("schemaVersion", Integer(1)), Entry("nonce", String(m.nonce)), Entry("packageId", String(m.packageId)),
     Entry("descriptorSha256", String(m.descriptorSha256)), Entry("artifactSha256", String(m.artifactSha256)),
     Entry("entries", Array(EntryValues(m.entries)))]
  }

  function EncodeMarker(m: Marker): JsonValue { Object(Inserted(MarkerFields(m))) }

  //
  // Decoding
  //

  function Member(v: JsonValue, key: string): Option<JsonValue>
  {
    if v.Object? then Find(v.members, key) else None
  }

  function TextMember(v: JsonValue, key: string): Option<string>
  {
    match Member(v, key) case Some(String(t)) => Some(t) case _ => None
  }

  function IntegerMember(v: JsonValue, key: string): Option<int>
  {
    match Member(v, key) case Some(Integer(n)) => Some(n) case _ => None
  }

  /** One turn of the loop of DecodeMarker, apart from the order of the paths. */
  function DecodeEntry(v: JsonValue): (r: Option<Entry<Info>>)
    ensures r.Some? ==> r.value.key != ""
  {
    var path, kind, length := TextMember(v, "path"), TextMember(v, "kind"), IntegerMember(v, "length");
    if path.None? || kind.None? || length.None? || !ValidRelative(path.value) then None
    else if kind.value == "file" then
      var sha256 := TextMember(v, "sha256");
      if sha256.None? || length.value < 0 || !IsSha256(sha256.value) || Member(v, "target").Some? then None
      else Some(Entry(path.value, Info("file", length.value, sha256.value, "")))
    else if kind.value == "directory" then
      if length.value != 0 || Member(v, "sha256").Some? || Member(v, "target").Some? then None
      else Some(Entry(path.value, Info("directory", 0, "", "")))
    else if kind.value == "symlink" then
      var target := TextMember(v, "target");
      if target.None? || !ValidRelative(target.value) || length.value != 0 || Member(v, "sha256").Some? then None
      else Some(Entry(path.value, Info("symlink", 0, "", target.value)))
    else None
  }

  /** The first n entries, in strictly ascending order. */
  function DecodeEntries(values: seq<JsonValue>, n: nat): (r: Option<Listing>)
    requires n <= |values|
    ensures r.Some? ==> |r.value| == n
  {
    if n == 0 then Some([])
    else
      var front, e := DecodeEntries(values, n - 1), DecodeEntry(values[n - 1]);
      if front.None? || e.None? || (n > 1 && !Less(front.value[n - 2].key, e.value.key)) then None
      else Some(front.value + [e.value])
  }

  function DecodeMarker(root: JsonValue): Option<Marker>
  {
    var nonce, packageId := TextMember(root, "nonce"), TextMember(root, "packageId");
    var descriptor, artifact := TextMember(root, "descriptorSha256"), TextMember(root, "artifactSha256");
    var entries := Member(root, "entries");
    if IntegerMember(root, "schemaVersion") != Some(1) || nonce.None? || packageId.None? || descriptor.None? || artifact.None?
    then None
    else
      var m := Marker(nonce.value, packageId.value, descriptor.value, artifact.value, []);
      if !ValidIdentity(m) || entries.None? || !entries.value.Array? then None
      else
        match DecodeEntries(entries.value.items, |entries.value.items|)
        case None => None
        case Some(listing) => Some(m.(entries := listing))
  }

  ghost predicate Listed(entries: Listing, path: string)
  {
    exists k :: 0 <= k < |entries| && entries[k].key == path
  }

  lemma ListedStill(entries: Listing, e: Entry<Info>, path: string)
    requires Listed(entries, path) || path == e.key
    ensures Listed(entries + [e], path)
  {
    var more := entries + [e];
    if path == e.key {
      assert more[|entries|].key == path;
    } else {
      var k :| 0 <= k < |entries| && entries[k].key == path;
      assert more[k].key == path;
    }
  }

  /** The loop of DecodeMarker, with its set of paths and its previous path: since paths are
      not empty, the order alone decides. */
  method DecodeListing(values: seq<JsonValue>) returns (r: Option<Listing>)
    ensures r == DecodeEntries(values, |values|)
  {
    hide DecodeEntry, Less;
    var paths: set<string> := {};
    var previous := "";
    var entries: Listing := [];
    for i := 0 to |values|
      invariant DecodeEntries(values, i) == Some(entries)
      invariant if i == 0 then previous == "" else previous == entries[i - 1].key != ""
      invariant forall p <- paths :: Listed(entries, p)
    {
      DecodeStops(values, i);
      var e := DecodeEntry(values[i]);
      if e == None { return None; }
      if e.value.key in paths {
        var k :| 0 <= k < |entries| && entries[k].key == e.value.key;
        ListingSorted(values, i, k, e.value.key);
        return None;
      }
      paths := paths + {e.value.key};
      if previous != "" && !Less(previous, e.value.key) { return None; }
      previous := e.value.key;
      forall p | Listed(entries, p) || p == e.value.key
        ensures Listed(entries + [e.value], p)
      {
        ListedStill(entries, e.value, p);
      }
      entries := entries + [e.value];
    }
    return Some(entries);
  }

  lemma {:induction false} DecodeShrinks(values: seq<JsonValue>, n: nat, m: nat)
    requires n <= m <= |values| && DecodeEntries(values, m).Some?
    ensures DecodeEntries(values, n).Some?
    decreases m
  {
    hide DecodeEntry, Less;
    if n < m { DecodeShrinks(values, n, m - 1); }
  }

  /** If the first i + 1 entries are refused then so are all. */
  lemma DecodeStops(values: seq<JsonValue>, i: nat)
    requires i < |values|
    ensures DecodeEntries(values, i + 1).None? ==> DecodeEntries(values, |values|).None?
  {
    hide DecodeEntry, Less;
    if DecodeEntries(values, |values|).Some? { DecodeShrinks(values, i + 1, |values|); }
  }

  lemma {:induction false} ListingAscends(values: seq<JsonValue>, n: nat, i: nat, j: nat)
    requires i < j < n <= |values| && DecodeEntries(values, n).Some?
    ensures Less(DecodeEntries(values, n).value[i].key, DecodeEntries(values, n).value[j].key)
    decreases n
  {
    hide DecodeEntry, Less;
    var all, front := DecodeEntries(values, n).value, DecodeEntries(values, n - 1).value;
    assert all[..n - 1] == front;
    if j < n - 1 {
      ListingAscends(values, n - 1, i, j);
    } else if i < n - 2 {
      ListingAscends(values, n - 1, i, n - 2);
      LessTransitive(all[i].key, all[n - 2].key, all[j].key);
    }
  }

  /** A path that is listed already cannot follow. */
  lemma ListingSorted(values: seq<JsonValue>, n: nat, k: nat, path: string)
    requires k < n < |values| && DecodeEntries(values, n).Some? && DecodeEntries(values, n).value[k].key == path
    requires DecodeEntry(values[n]).Some? && DecodeEntry(values[n]).value.key == path
    ensures DecodeEntries(values, n + 1).None?
  {
    hide DecodeEntry, Less;
    LessIrreflexive(path);
    var listing := DecodeEntries(values, n).value;
    if k < n - 1 {
      ListingAscends(values, n, k, n - 1);
      if Less(listing[n - 1].key, path) { LessTransitive(path, listing[n - 1].key, path); }
    }
  }

  //
  // Decoding inverts encoding
  //

  /** An entry as an inventory makes it. */
  predicate Shaped(e: Info)
  {
    && INT64_MIN <= e.length <= INT64_MAX
    && if e.kind == "file" then e.length >= 0 && IsSha256(e.sha256) && e.target == ""
       else if e.kind == "directory" then e.length == 0 && e.sha256 == "" && e.target == ""
       else e.kind == "symlink" && e.length == 0 && e.sha256 == "" && ValidRelative(e.target)
  }

  ghost predicate ShapedListing(entries: Listing)
  {
    Sorted(entries) && forall i :: 0 <= i < |entries| ==> Shaped(entries[i].value)
  }

  ghost predicate RelativeListing(entries: Listing)
  {
    forall i :: 0 <= i < |entries| ==> ValidRelative(entries[i].key)
  }

  lemma FieldsDistinct(e: Entry<Info>)
    ensures DistinctKeys(EntryFields(e))
  {
    assert "path"[0] != "kind"[0] && "path"[0] != "length"[0] && "kind"[0] != "length"[0];
    assert "sha256"[0] !in {"path"[0], "kind"[0], "length"[0]} && "target"[0] !in {"path"[0], "kind"[0], "length"[0]};
    var keys := seq(|EntryFields(e)|, i requires 0 <= i < |EntryFields(e)| => EntryFields(e)[i].key[0]);
    assert |EntryFields(e)| in {3, 4, 5};
    assert "file" != "symlink";
  }

  /** What `find` returns on an encoded entry. */
  lemma EntryMembers(e: Entry<Info>)
    ensures var v := EntryValue(e);
            && TextMember(v, "path") == Some(e.key) && TextMember(v, "kind") == Some(e.value.kind)
            && IntegerMember(v, "length") == Some(e.value.length)
            && Member(v, "sha256") == (if e.value.kind == "file" then Some(String(e.value.sha256)) else None)
            && Member(v, "target") == (if e.value.kind == "symlink" then Some(String(e.value.target)) else None)
  {
    hide Inserted, Find, DistinctKeys;
    var f := EntryFields(e);
    FieldsDistinct(e);
    InsertedFind(f, "path");
    InsertedFind(f, "kind");
    InsertedFind(f, "length");
    InsertedFind(f, "sha256");
    InsertedFind(f, "target");
    assert f[0].key == "path" && f[1].key == "kind" && f[2].key == "length";
    EntryLast(e);
  }

  /** The fourth field, if there is one. */
  lemma EntryLast(e: Entry<Info>)
    ensures var f := EntryFields(e);
            && (e.value.kind == "file" ==> |f| == 4 && f[3] == Entry("sha256", String(e.value.sha256)))
            && (e.value.kind == "symlink" ==> |f| == 4 && f[3] == Entry("target", String(e.value.target)))
            && (e.value.kind != "file" && e.value.kind != "symlink" ==> |f| == 3)
            && (forall i :: 0 <= i < |f| && f[i].key == "sha256" ==> e.value.kind == "file")
            && (forall i :: 0 <= i < |f| && f[i].key == "target" ==> e.value.kind == "symlink")
  {
    assert "file" != "symlink";
    assert "path" != "sha256" && "kind" != "sha256" && "length" != "sha256" && "target" != "sha256";
    assert "path" != "target" && "kind" != "target" && "length" != "target";
  }

  lemma EntryDecodes(e: Entry<Info>)
    requires Shaped(e.value)
    ensures DecodeEntry(EntryValue(e)) == if ValidRelative(e.key) then Some(e) else None
  {
    hide EntryValue, Member, ValidRelative, IsSha256;
    EntryMembers(e);
    assert "file" != "symlink" && "file" != "directory" && "symlink" != "directory";
  }

  lemma {:induction false} EntriesDecode(entries: Listing, n: nat)
    requires ShapedListing(entries) && n <= |entries|
    ensures DecodeEntries(EntryValues(entries), n) == if RelativeListing(entries[..n]) then Some(entries[..n]) else None
  {
    hide DecodeEntry, EntryValue, Less, ValidRelative, Shaped;
    if n > 0 {
      EntriesDecode(entries, n - 1);
      EntryDecodes(entries[n - 1]);
      assert entries[..n] == entries[..n - 1] + [entries[n - 1]];
      assert Sorted(entries) && (n > 1 ==> Less(entries[n - 2].key, entries[n - 1].key));
    }
  }

  lemma MarkerFieldsDistinct(m: Marker)
    ensures DistinctKeys(MarkerFields(m))
  {
    assert "schemaVersion"[0] == 's' && "nonce"[0] == 'n' && "packageId"[0] == 'p'
           && "descriptorSha256"[0] == 'd' && "artifactSha256"[0] == 'a' && "entries"[0] == 'e';
  }

  lemma MarkerMembers(m: Marker)
    ensures var v := EncodeMarker(m);
            && IntegerMember(v, "schemaVersion") == Some(1) && TextMember(v, "nonce") == Some(m.nonce)
            && TextMember(v, "packageId") == Some(m.packageId)
            && TextMember(v, "descriptorSha256") == Some(m.descriptorSha256)
            && TextMember(v, "artifactSha256") == Some(m.artifactSha256)
            && Member(v, "entries") == Some(Array(EntryValues(m.entries)))
  {
    hide Inserted, Find, DistinctKeys, EntryValues;
    var f := MarkerFields(m);
    MarkerFieldsDistinct(m);
    InsertedFind(f, "schemaVersion");
    InsertedFind(f, "nonce");
    InsertedFind(f, "packageId");
    InsertedFind(f, "descriptorSha256");
    InsertedFind(f, "artifactSha256");
    InsertedFind(f, "entries");
    assert f[0].key == "schemaVersion" && f[1].key == "nonce" && f[2].key == "packageId"
           && f[3].key == "descriptorSha256" && f[4].key == "artifactSha256" && f[5].key == "entries";
  }

  /** A marker with a valid identity and an inventory is read back exactly when its paths
      are acceptable, and otherwise not at all. */
  lemma MarkerDecodes(m: Marker)
    requires ValidIdentity(m) && ShapedListing(m.entries)
    ensures DecodeMarker(EncodeMarker(m)) == if RelativeListing(m.entries) then Some(m) else None
  {
    hide EncodeMarker, Member, TextMember, IntegerMember, DecodeEntries, EntryValues, ValidNonce, IsSha256;
    MarkerMembers(m);
    EntriesDecode(m.entries, |m.entries|);
    assert m.entries[..|m.entries|] == m.entries;
  }

  lemma InsertedValid(fields: Fields)
    requires DistinctKeys(fields) && forall i :: 0 <= i < |fields| ==> Valid(fields[i].value)
    ensures Valid(Object(Inserted(fields)))
  {
    hide Inserted, Find, DistinctKeys, Less, LowerBound;
    InsertedFind(fields, "");
    var o := Inserted(fields);
    forall i | 0 <= i < |o|
      ensures Valid(o[i].value)
    {
      FindIndex(o, i);
      InsertedFind(fields, o[i].key);
    }
  }

  lemma EntryValid(e: Entry<Info>)
    requires Shaped(e.value)
    ensures Valid(EntryValue(e))
  {
    hide Inserted, DistinctKeys, ValidRelative, IsSha256;
    FieldsDistinct(e);
    InsertedValid(EntryFields(e));
  }

  lemma MarkerValid(m: Marker)
    requires ShapedListing(m.entries)
    ensures Valid(EncodeMarker(m))
  {
    hide Inserted, DistinctKeys, Shaped, EntryValue, Less;
    MarkerFieldsDistinct(m);
    forall i | 0 <= i < |m.entries|
      ensures Valid(EntryValue(m.entries[i]))
    {
      EntryValid(m.entries[i]);
    }
    assert Valid(Array(EntryValues(m.entries)));
    InsertedValid(MarkerFields(m));
  }

  //
  // Reading, writing and verifying
  //

  /** ReadCanonicalMarker without the file: a canonical text that decodes. */
  function ReadMarker(text: string): Option<Marker>
  {
    match ParseText(text)
    case Threw(_) => None
    case Value(v) =>
      match DecodeMarker(v)
      case None => None
      case Some(m) => if EncodeText(EncodeMarker(m)) == text then Some(m) else None
  }

  lemma ReadInvertsEncode(m: Marker)
    requires ValidIdentity(m) && ShapedListing(m.entries)
    ensures ReadMarker(EncodeText(EncodeMarker(m))) == if RelativeListing(m.entries) then Some(m) else None
  {
    hide EncodeMarker, DecodeMarker, ParseText, EncodeText, ValidIdentity, ShapedListing, RelativeListing;
    MarkerValid(m);
    ParseInvertsEncode(EncodeMarker(m));
    MarkerDecodes(m);
  }

  lemma DecodedIsShaped(v: JsonValue)
    requires Valid(v) && DecodeEntry(v).Some?
    ensures Shaped(DecodeEntry(v).value.value) && ValidRelative(DecodeEntry(v).value.key)
  {
    hide Less, LowerBound, ValidRelative, IsSha256;
    var length := Find(v.members, "length");
    FindPlace(v.members, "length");
    assert "file" != "directory" && "file" != "symlink" && "directory" != "symlink";
  }

  lemma {:induction false} DecodedEach(values: seq<JsonValue>, n: nat)
    requires n <= |values| && DecodeEntries(values, n).Some? && forall i :: 0 <= i < n ==> Valid(values[i])
    ensures forall i :: 0 <= i < n ==>
              Shaped(DecodeEntries(values, n).value[i].value) && ValidRelative(DecodeEntries(values, n).value[i].key)
  {
    hide DecodeEntry, Less, Valid, Shaped, ValidRelative;
    if n > 0 {
      DecodedEach(values, n - 1);
      DecodedIsShaped(values[n - 1]);
    }
  }

  /** Whatever is read is the marker of an inventory: its identity is valid, its entries are
      sorted, shaped and relative, and the text is its canonical encoding. */
  lemma ReadMarkersAreValid(text: string)
    requires ReadMarker(text).Some?
    ensures var m := ReadMarker(text).value;
            ValidIdentity(m) && ShapedListing(m.entries) && RelativeListing(m.entries) && EncodeText(EncodeMarker(m)) == text
  {
    hide ParseText, EncodeText, EncodeMarker, DecodeEntries, Find, Less, ValidNonce, IsSha256, Shaped, ValidRelative;
    ParseTextValid(text);
    var root := ParseText(text).value;
    var entries := Member(root, "entries").value;
    FindPlaceValid(root, "entries");
    var n := |entries.items|;
    DecodedEach(entries.items, n);
    var listing := DecodeEntries(entries.items, n).value;
    forall i, j | 0 <= i < j < |listing|
      ensures Less(listing[i].key, listing[j].key)
    {
      ListingAscends(entries.items, n, i, j);
    }
  }

  lemma FindPlaceValid(v: JsonValue, key: string)
    requires Valid(v) && Member(v, key).Some?
    ensures Valid(Member(v, key).value)
  {
    hide Less, LowerBound;
    FindPlace(v.members, key);
  }

  /** The bytes of the marker in the root of a stage. */
  function MarkerBytes(root: Tree): Option<string>
  {
    if MARKER in root && root[MARKER].File? then Some(root[MARKER].bytes) else None
  }

  datatype Written = Written(root: Tree, marker: Marker, markerSha256: string)

  /** Whether the file system fails to list, read or write. */
  method Fails(reliable: bool) returns (fails: bool)
    ensures reliable ==> !fails
  {
    fails := *;
    fails := fails && !reliable;
  }

  /** What writing a marker asks of the stage and of the metadata. */
  ghost predicate Writable(
    name: string, root: Tree, nonce: string, packageId: string, descriptorSha256: string, artifactSha256: string)
  {
    && ValidIdentity(Marker(nonce, packageId, descriptorSha256, artifactSha256, []))
    && name == STAGE_PREFIX + nonce && Stageable(root - {MARKER}) && MARKER !in root
  }

  method WriteStageProvenance(
    name: string, root: Tree, nonce: string, packageId: string, descriptorSha256: string, artifactSha256: string,
    sha256: Digest, reliable: bool)
    returns (r: Option<Written>)
    requires ValidNames(root)
    ensures reliable ==> (r.Some? <==> Writable(name, root, nonce, packageId, descriptorSha256, artifactSha256))
    ensures r.Some? ==> Writable(name, root, nonce, packageId, descriptorSha256, artifactSha256)
    ensures r.Some? ==>
              var w := r.value;
              var bytes := EncodeText(EncodeMarker(w.marker));
              && w.marker == Marker(nonce, packageId, descriptorSha256, artifactSha256, w.marker.entries)
              && IsInventory(w.marker.entries, root, sha256)
              && w.root == root[MARKER := File(bytes)] && w.markerSha256 == sha256(bytes)
  {
    hide EncodeText, EncodeMarker, ValidNames, Stageable, IsInventory;
    if !ValidIdentity(Marker(nonce, packageId, descriptorSha256, artifactSha256, [])) || name != STAGE_PREFIX + nonce {
      return None;
    }
    var fails := Fails(reliable);
    if fails { return None; }
    var inventory := Inventory(root, sha256);
    if inventory == None { return None; }
    var marker := Marker(nonce, packageId, descriptorSha256, artifactSha256, inventory.value);
    var bytes := EncodeText(EncodeMarker(marker));
    fails := Fails(reliable);
    if fails || MARKER in root { return None; }
    assert root - {MARKER} == root;
    return Some(Written(root[MARKER := File(bytes)], marker, sha256(bytes)));
  }

  method EqualEntries(first: Listing, second: Listing) returns (equal: bool)
    ensures equal == (first == second)
  {
    if |first| != |second| { return false; }
    for i := 0 to |first|
      invariant first[..i] == second[..i]
    {
      if first[i] != second[i] { return false; }
      assert first[..i + 1] == first[..i] + [first[i]] && second[..i + 1] == second[..i] + [second[i]];
    }
    assert first == first[..|first|] && second == second[..|first|];
    return true;
  }

  /** What a successful verification establishes. */
  ghost predicate Verified(name: string, root: Tree, expected: string, sha256: Digest)
  {
    && IsSha256(expected) && MarkerBytes(root).Some?
    && var text := MarkerBytes(root).value;
       && ReadMarker(text).Some? && name == STAGE_PREFIX + ReadMarker(text).value.nonce
       && sha256(text) == expected
       && Stageable(root - {MARKER}) && IsInventory(ReadMarker(text).value.entries, root - {MARKER}, sha256)
  }

  method VerifyStageProvenance(name: string, root: Tree, expected: string, sha256: Digest, reliable: bool)
    returns (r: Option<Marker>)
    requires ValidNames(root)
    ensures r.Some? ==> Verified(name, root, expected, sha256)
    ensures reliable && Verified(name, root, expected, sha256) ==> r.Some?
    ensures r.Some? ==> MarkerBytes(root).Some? && r == ReadMarker(MarkerBytes(root).value)
  {
    hide ReadMarker, ValidNames, Stageable, IsInventory, IsSha256;
    if !IsSha256(expected) { return None; }
    var fails := Fails(reliable);
    var bytes := MarkerBytes(root);
    if fails || bytes == None { return None; }
    var marker := ReadMarker(bytes.value);
    if marker == None || name != STAGE_PREFIX + marker.value.nonce { return None; }
    if sha256(bytes.value) != expected { return None; }
    fails := Fails(reliable);
    if fails { return None; }
    var inventory := Inventory(root, sha256);
    if inventory == None { return None; }
    var equal := EqualEntries(marker.value.entries, inventory.value);
    if !equal {
      if IsInventory(marker.value.entries, root - {MARKER}, sha256) {
        InventoryUnique(marker.value.entries, inventory.value, root - {MARKER}, sha256);
      }
      return None;
    }
    return marker;
  }

  //
  // Verifying after writing
  //

  ghost predicate HonestDigest(sha256: Digest) { forall x: string :: IsSha256(sha256(x)) }

  /** Every path of the tree is acceptable to the decoder of the marker. */
  ghost predicate RelativeTree(tree: Tree)
  {
    forall names :: Present(tree, names) ==> names != [] && ValidRelative(Join(names, '/'))
  }

  ghost predicate FitsInt64(tree: Tree)
  {
    forall names :: Present(tree, names) && Lookup(tree, names).value.File? ==> |Lookup(tree, names).value.bytes| <= INT64_MAX
  }

  lemma {:induction false} StageableBelow(tree: Tree, names: seq<string>)
    requires Stageable(tree) && Present(tree, names)
    ensures NodeStageable(Lookup(tree, names).value)
    decreases |names|
  {
    assert NodeStageable(tree[names[0]]);
    if |names| > 1 { StageableBelow(tree[names[0]].children, names[1..]); }
  }

  lemma InventoryEntry(inventory: Listing, tree: Tree, sha256: Digest, i: nat)
    requires IsInventory(inventory, tree, sha256) && i < |inventory|
    ensures var names := Split(inventory[i].key, '/');
            Present(tree, names) && inventory[i].value == InfoOf(Lookup(tree, names).value, sha256)
  {
    hide Less, LowerBound, Find, Split, Lookup, InfoOf;
    FindIndex(inventory, i);
    assert Find(inventory, inventory[i].key) == InfoAt(tree, inventory[i].key, sha256);
  }

  lemma InventoryShaped(inventory: Listing, tree: Tree, sha256: Digest)
    requires IsInventory(inventory, tree, sha256) && Stageable(tree) && HonestDigest(sha256) && FitsInt64(tree)
    ensures ShapedListing(inventory)
  {
    hide Less, Find, Split, Lookup, ValidRelative, Stageable, InfoAt, IsSha256;
    forall i | 0 <= i < |inventory|
      ensures Shaped(inventory[i].value)
    {
      var names := Split(inventory[i].key, '/');
      InventoryEntry(inventory, tree, sha256, i);
      StageableBelow(tree, names);
      InfoShaped(Lookup(tree, names).value, sha256);
    }
  }

  lemma InfoShaped(n: Node, sha256: Digest)
    requires NodeStageable(n) && HonestDigest(sha256) && (n.File? ==> |n.bytes| <= INT64_MAX)
    ensures Shaped(InfoOf(n, sha256))
  {
    hide ValidRelative, Stageable, IsSha256;
    assert "file" != "symlink" && "file" != "directory" && "symlink" != "directory";
  }

  lemma InventoryRelative(inventory: Listing, tree: Tree, sha256: Digest)
    requires IsInventory(inventory, tree, sha256) && ValidNames(tree)
    ensures RelativeListing(inventory) <==> RelativeTree(tree)
  {
    hide Less, Find, Split, Lookup, ValidRelative, InfoAt, Join, ValidNames;
    if RelativeTree(tree) {
      forall i | 0 <= i < |inventory|
        ensures ValidRelative(inventory[i].key)
      {
        InventoryEntry(inventory, tree, sha256, i);
        SplitJoins(inventory[i].key, '/');
      }
    }
    if RelativeListing(inventory) {
      forall names | Present(tree, names)
        ensures names != [] && ValidRelative(Join(names, '/'))
      {
        PresentNames(tree, names);
        JoinSplits(names, '/');
        ListedPath(inventory, tree, sha256, Join(names, '/'));
      }
    }
  }

  lemma ListedPath(inventory: Listing, tree: Tree, sha256: Digest, path: string)
    requires IsInventory(inventory, tree, sha256) && Present(tree, Split(path, '/'))
    ensures exists i :: 0 <= i < |inventory| && inventory[i].key == path
  {
    hide Less, Split, Lookup, LowerBound, InfoOf;
    assert Find(inventory, path) == InfoAt(tree, path, sha256);
    FindSound(inventory, path);
  }

  lemma {:induction false} AlikeStageable(a: Tree, b: Tree, sha256: Digest)
    requires Alike(a, b, sha256) && Stageable(a)
    ensures Stageable(b)
    decreases Directory(a)
  {
    forall n | n in b
      ensures NodeStageable(b[n])
    {
      assert n in a && AlikeNodes(a[n], b[n], sha256) && NodeStageable(a[n]);
      if a[n].Directory? { AlikeStageable(a[n].children, b[n].children, sha256); }
    }
  }

  /**
   After a marker has been written for `tree`, and as long as it lies unchanged in the
   root of the stage, verification succeeds exactly when the rest of the stage is the
   tree it was written for, up to digests, provided that the decoder accepts the paths;
   for a tree with a path that it does not accept, it never succeeds.
   */
  lemma VerifiesExactlyUnchanged(tree: Tree, marker: Marker, later: Tree, sha256: Digest)
    requires ValidNames(tree) && ValidNames(later) && MARKER !in tree && Stageable(tree)
    requires HonestDigest(sha256) && FitsInt64(tree)
    requires ValidIdentity(marker) && IsInventory(marker.entries, tree, sha256)
    requires MarkerBytes(later) == Some(EncodeText(EncodeMarker(marker)))
    ensures Verified(STAGE_PREFIX + marker.nonce, later, sha256(EncodeText(EncodeMarker(marker))), sha256) <==>
            RelativeTree(tree) && Alike(tree, later - {MARKER}, sha256)
  {
    hide ReadMarker, EncodeText, EncodeMarker, ValidNames, Stageable, IsInventory, RelativeTree, Alike, RelativeListing,
         ShapedListing, MarkerBytes, IsSha256, FitsInt64, ValidNonce;
    InventoryShaped(marker.entries, tree, sha256);
    InventoryRelative(marker.entries, tree, sha256);
    ReadInvertsEncode(marker);
    FewerNames(later);
    InventoryPinsTree(marker.entries, tree, later - {MARKER}, sha256);
    if Alike(tree, later - {MARKER}, sha256) { AlikeStageable(tree, later - {MARKER}, sha256); }
  }

  /** The same where the digest tells the files of the two trees apart: verification succeeds
      exactly when the rest of the stage is the very tree that the marker was written for. */
  lemma VerifiesExactlyEqual(tree: Tree, marker: Marker, later: Tree, sha256: Digest)
    requires ValidNames(tree) && ValidNames(later) && MARKER !in tree && Stageable(tree)
    requires HonestDigest(sha256) && FitsInt64(tree) && Separates(sha256, tree, later - {MARKER})
    requires ValidIdentity(marker) && IsInventory(marker.entries, tree, sha256)
    requires MarkerBytes(later) == Some(EncodeText(EncodeMarker(marker)))
    ensures Verified(STAGE_PREFIX + marker.nonce, later, sha256(EncodeText(EncodeMarker(marker))), sha256) <==>
            RelativeTree(tree) && later - {MARKER} == tree
  {
    hide Verified, EncodeText, EncodeMarker, ValidNames, Stageable, IsInventory, RelativeTree, Alike, MarkerBytes, FitsInt64,
         ValidIdentity, Separates, HonestDigest;
    VerifiesExactlyUnchanged(tree, marker, later, sha256);
    AlikeExactlyEqual(tree, later - {MARKER}, sha256);
  }

  /** The stage that holds one file with a backslash in its name. */
  function BackslashStage(bytes: string): Tree { map["a\\b" := File(bytes)] }

  lemma BackslashIsNotRelative(bytes: string)
    ensures var tree := BackslashStage(bytes);
            ValidNames(tree) && MARKER !in tree && Stageable(tree) && !RelativeTree(tree)
  {
    var tree := BackslashStage(bytes);
    var names := ["a\\b"];
    assert "a\\b"[0] != MARKER[0];
    assert Lookup(tree, names) == Some(File(bytes)) && Present(tree, names);
    assert Join(names, '/') == "a\\b" && "a\\b"[1] == '\\';
    assert !ValidRelative(Join(names, '/'));
  }

  /** Its marker can be written, but no stage that holds the marker ever verifies: not this
      one either, as it was left. */
  lemma BackslashNeverVerifies(bytes: string, marker: Marker, later: Tree, sha256: Digest)
    requires |bytes| <= INT64_MAX && HonestDigest(sha256) && ValidNames(later)
    requires ValidIdentity(marker) && IsInventory(marker.entries, BackslashStage(bytes), sha256)
    requires MarkerBytes(later) == Some(EncodeText(EncodeMarker(marker)))
    ensures Writable(STAGE_PREFIX + marker.nonce, BackslashStage(bytes), marker.nonce, marker.packageId,
                     marker.descriptorSha256, marker.artifactSha256)
    ensures !Verified(STAGE_PREFIX + marker.nonce, later, sha256(EncodeText(EncodeMarker(marker))), sha256)
  {
    hide Verified, EncodeText, EncodeMarker, IsInventory, RelativeTree, MarkerBytes, HonestDigest, ValidNonce, IsSha256,
         ValidNames, Stageable, Alike;
    var tree := BackslashStage(bytes);
    BackslashIsNotRelative(bytes);
    assert tree - {MARKER} == tree;
    forall names | Present(tree, names) && Lookup(tree, names).value.File?
      ensures |Lookup(tree, names).value.bytes| <= INT64_MAX
    {
      assert names[0] == "a\\b";
    }
    VerifiesExactlyUnchanged(tree, marker, later, sha256);
  }
}
