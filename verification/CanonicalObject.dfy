/**
 Canonical JSON objects with an exact set of keys, the common part of the wire
 codecs (native_install_wire.cc, native_install_request.cc).

 A key list is given in ascending order, and an object with exactly those keys is
 then determined by the list of its values in the same order.
 */
module CanonicalObject {
  import opened SortedMap
  import opened Json
  import opened JsonParser
  import opened JsonRoundTrip

  type Fields = seq<Entry<JsonValue>>

  ghost predicate Ascending(keys: seq<string>)
  {
    forall i, j :: 0 <= i < j < |keys| ==> Less(keys[i], keys[j])
  }

  lemma {:induction false} AscendingFromNeighbours(keys: seq<string>)
    requires forall i :: 0 <= i < |keys| - 1 ==> Less(keys[i], keys[i + 1])
    ensures Ascending(keys)
  {
    hide Less;
    if |keys| > 1 {
      var front := keys[..|keys| - 1];
      AscendingFromNeighbours(front);
      var last := keys[|keys| - 1];
      forall i | 0 <= i < |keys| - 1
        ensures Less(keys[i], last)
      {
        if i < |keys| - 2 { LessTransitive(front[i], front[|front| - 1], last); }
      }
      assert forall i :: 0 <= i < |front| ==> front[i] == keys[i];
    }
  }

  /** A key between two neighbours keeps the list ascending. */
  lemma AscendingBetween(keys: seq<string>, at: nat, key: string)
    requires Ascending(keys) && at <= |keys|
    requires at > 0 ==> Less(keys[at - 1], key)
    requires at < |keys| ==> Less(key, keys[at])
    ensures Ascending(keys[..at] + [key] + keys[at..])
  {
    hide Less;
    var more := keys[..at] + [key] + keys[at..];
    forall i | 0 <= i < |more| - 1
      ensures Less(more[i], more[i + 1])
    {
      if i > at { assert more[i] == keys[i - 1] && more[i + 1] == keys[i]; }
    }
    AscendingFromNeighbours(more);
  }

  /** The object with these keys and values. */
  function Assemble(keys: seq<string>, values: seq<JsonValue>): (o: Fields)
    requires |keys| == |values|
    ensures |o| == |keys|
    ensures forall i :: 0 <= i < |o| ==> o[i] == Entry(keys[i], values[i])
  {
    if keys == [] then [] else [Entry(keys[0], values[0])] + Assemble(keys[1..], values[1..])
  }

  /** The object after inserting the fields one after the other. */
  function Inserted(fields: Fields): Fields
  {
    if fields == [] then []
    else Emplace(Inserted(fields[..|fields| - 1]), fields[|fields| - 1].key, fields[|fields| - 1].value)
  }

  /** RequireExactKeys */
  predicate HasExactKeys(o: Fields, keys: seq<string>)
  {
    |o| == |keys| && forall i :: 0 <= i < |keys| ==> Find(o, keys[i]).Some?
  }

  function ValuesOf(o: Fields, keys: seq<string>): (values: seq<JsonValue>)
    requires HasExactKeys(o, keys)
    ensures |values| == |keys| && forall i :: 0 <= i < |keys| ==> Some(values[i]) == Find(o, keys[i])
  {
    seq(|keys|, i requires 0 <= i < |keys| => Find(o, keys[i]).value)
  }

  /** The members of a JSON value that is an object with exactly these keys. */
  function Members(v: JsonValue, keys: seq<string>): (r: Option<seq<JsonValue>>)
    ensures r.Some? ==> |r.value| == |keys|
  {
    if v.Object? && HasExactKeys(v.members, keys) then Some(ValuesOf(v.members, keys)) else None
  }

  /** ParseCanonicalObject and RequireExactKeys: the text must be its own canonical form. */
  function ReadObject(text: string, keys: seq<string>): (r: Option<seq<JsonValue>>)
    ensures r.Some? ==> |r.value| == |keys|
  {
    match ParseText(text)
    case Threw(_) => None
    case Value(v) => if EncodeText(v) != text then None else Members(v, keys)
  }

  function WriteObject(keys: seq<string>, values: seq<JsonValue>): string
    requires |keys| == |values|
  {
    EncodeText(Object(Assemble(keys, values)))
  }

  ghost predicate AllValid(values: seq<JsonValue>)
  {
    forall i :: 0 <= i < |values| ==> Valid(values[i])
  }

  lemma AssembleMembers(keys: seq<string>, values: seq<JsonValue>)
    requires |keys| == |values| && Ascending(keys)
    ensures Sorted(Assemble(keys, values))
    ensures Members(Object(Assemble(keys, values)), keys) == Some(values)
  {
    hide Less, Find, Assemble;
    var o := Assemble(keys, values);
    forall i | 0 <= i < |keys|
      ensures Find(o, keys[i]) == Some(values[i])
    {
      FindIndex(o, i);
    }
    assert ValuesOf(o, keys) == values;
  }

  /** An object with exactly the keys of an ascending list has them in that order. */
  lemma MembersAssemble(v: JsonValue, keys: seq<string>)
    requires Valid(v) && Ascending(keys) && Members(v, keys).Some?
    ensures v == Object(Assemble(keys, Members(v, keys).value))
  {
    hide Less, Find, Assemble, LowerBound;
    var o, values := v.members, Members(v, keys).value;
    forall i | 0 <= i < |keys|
      ensures o[i] == Entry(keys[i], values[i])
    {
      KeyAtItsPlace(o, keys, i);
    }
    assert o == Assemble(keys, values);
  }

  lemma FindPlace(o: Fields, key: string)
    requires Sorted(o) && Find(o, key).Some?
    ensures var p := LowerBound(o, key); p < |o| && o[p] == Entry(key, Find(o, key).value)
  {
  }

  lemma {:induction false} PlacesIncrease(o: Fields, keys: seq<string>, i: nat)
    requires Sorted(o) && Ascending(keys) && i < |keys|
    requires forall k :: 0 <= k < |keys| ==> Find(o, keys[k]).Some?
    ensures i <= LowerBound(o, keys[i]) <= |o| - (|keys| - i)
    decreases |keys| - i
  {
    hide Less, Find, LowerBound;
    PlaceAtLeast(o, keys, i);
    FindPlace(o, keys[i]);
    if i + 1 < |keys| {
      PlacesIncrease(o, keys, i + 1);
      FindPlace(o, keys[i + 1]);
      PlacesOrdered(o, keys[i], keys[i + 1]);
    }
  }

  lemma {:induction false} PlaceAtLeast(o: Fields, keys: seq<string>, i: nat)
    requires Sorted(o) && Ascending(keys) && i < |keys|
    requires forall k :: 0 <= k < |keys| ==> Find(o, keys[k]).Some?
    ensures i <= LowerBound(o, keys[i])
  {
    hide Less, Find, LowerBound;
    if i > 0 {
      PlaceAtLeast(o, keys, i - 1);
      FindPlace(o, keys[i - 1]);
      FindPlace(o, keys[i]);
      PlacesOrdered(o, keys[i - 1], keys[i]);
    }
  }

  lemma PlacesOrdered(o: Fields, a: string, b: string)
    requires Sorted(o) && Less(a, b)
    requires LowerBound(o, a) < |o| && o[LowerBound(o, a)].key == a
    requires LowerBound(o, b) < |o| && o[LowerBound(o, b)].key == b
    ensures LowerBound(o, a) < LowerBound(o, b)
  {
    hide Less, LowerBound;
    LessIrreflexive(a);
    if LowerBound(o, b) < LowerBound(o, a) {
      LessTransitive(a, b, a);
    }
  }

  lemma KeyAtItsPlace(o: Fields, keys: seq<string>, i: nat)
    requires Sorted(o) && Ascending(keys) && HasExactKeys(o, keys) && i < |keys|
    ensures o[i] == Entry(keys[i], Find(o, keys[i]).value)
  {
    hide Less, Find, LowerBound;
    PlacesIncrease(o, keys, i);
    FindPlace(o, keys[i]);
  }

  /** Reading back what was written, and writing back what was read. */
  lemma ReadInvertsWrite(keys: seq<string>, values: seq<JsonValue>)
    requires |keys| == |values| && Ascending(keys) && AllValid(values)
    ensures ReadObject(WriteObject(keys, values), keys) == Some(values)
  {
    hide ParseText, EncodeText, Members, Assemble, Less;
    AssembleMembers(keys, values);
    ParseInvertsEncode(Object(Assemble(keys, values)));
  }

  lemma ReadOtherSize(keys: seq<string>, values: seq<JsonValue>, other: seq<string>)
    requires |keys| == |values| && Ascending(keys) && AllValid(values) && |other| != |keys|
    ensures ReadObject(WriteObject(keys, values), other) == None
  {
    hide ParseText, EncodeText, Assemble, Less;
    AssembleMembers(keys, values);
    ParseInvertsEncode(Object(Assemble(keys, values)));
  }

  lemma WriteInvertsRead(text: string, keys: seq<string>)
    requires Ascending(keys) && ReadObject(text, keys).Some?
    ensures WriteObject(keys, ReadObject(text, keys).value) == text
    ensures AllValid(ReadObject(text, keys).value)
  {
    hide ParseText, EncodeText, Assemble, Less, Find;
    ParseTextValid(text);
    var v := ParseText(text).value;
    MembersAssemble(v, keys);
    MembersValid(v, keys);
  }

  lemma MembersValid(v: JsonValue, keys: seq<string>)
    requires Valid(v) && Members(v, keys).Some?
    ensures AllValid(Members(v, keys).value)
  {
    hide Less, LowerBound;
    var values := Members(v, keys).value;
    forall i | 0 <= i < |keys|
      ensures Valid(values[i])
    {
      assert Find(v.members, keys[i]).Some?;
      FindPlace(v.members, keys[i]);
    }
  }

  //
  // The order of insertion does not matter
  //

  ghost predicate DistinctKeys(fields: Fields)
  {
    forall i, j :: 0 <= i < j < |fields| ==> fields[i].key != fields[j].key
  }

  lemma {:induction false} InsertedFind(fields: Fields, key: string)
    requires DistinctKeys(fields)
    ensures Sorted(Inserted(fields))
    ensures Find(Inserted(fields), key).Some? <==> exists i :: 0 <= i < |fields| && fields[i].key == key
    ensures forall i :: 0 <= i < |fields| && fields[i].key == key ==> Find(Inserted(fields), key) == Some(fields[i].value)
    decreases |fields|
  {
    hide Less, Find, Emplace, LowerBound;
    if fields == [] {
      FindSound(Inserted(fields), key);
    } else {
      var front, last := fields[..|fields| - 1], fields[|fields| - 1];
      InsertedFind(front, key);
      InsertedFind(front, last.key);
      EmplaceSorted(Inserted(front), last.key, last.value);
      EmplaceFind(Inserted(front), last.key, last.value, key);
      assert forall i :: 0 <= i < |front| ==> fields[i] == front[i];
      assert fields[|fields| - 1].key == last.key;
    }
  }

  /** `order` gives the place of each inserted field among the ascending keys, and
      `place` is its inverse. */
  ghost predicate Rearranges(
    fields: Fields, keys: seq<string>, values: seq<JsonValue>, order: seq<nat>, place: seq<nat>)
  {
    && |fields| == |keys| == |values| == |order| == |place|
    && (forall i :: 0 <= i < |order| ==>
          order[i] < |place| && place[order[i]] == i && fields[i] == Entry(keys[order[i]], values[order[i]]))
    && (forall k :: 0 <= k < |place| ==> place[k] < |order| && order[place[k]] == k)
  }

  lemma InsertionOrder(
    fields: Fields, keys: seq<string>, values: seq<JsonValue>, order: seq<nat>, place: seq<nat>)
    requires Rearranges(fields, keys, values, order, place) && Ascending(keys)
    ensures Inserted(fields) == Assemble(keys, values)
  {
    hide Less, Find, Inserted, Assemble, LowerBound;
    AssembleMembers(keys, values);
    RearrangedDistinct(fields, keys, values, order, place);
    InsertedFind(fields, "");
    forall key
      ensures Find(Inserted(fields), key) == Find(Assemble(keys, values), key)
    {
      SameFind(fields, keys, values, order, place, key);
    }
    Extensional(Inserted(fields), Assemble(keys, values));
  }

  lemma RearrangedDistinct(
    fields: Fields, keys: seq<string>, values: seq<JsonValue>, order: seq<nat>, place: seq<nat>)
    requires Rearranges(fields, keys, values, order, place) && Ascending(keys)
    ensures DistinctKeys(fields)
  {
    hide Less;
    AscendingDistinct(keys);
    forall i, j | 0 <= i < j < |fields|
      ensures fields[i].key != fields[j].key
    {
      assert order[i] != order[j];
      assert keys[order[i]] != keys[order[j]];
    }
  }

  lemma SameFind(
    fields: Fields, keys: seq<string>, values: seq<JsonValue>, order: seq<nat>, place: seq<nat>, key: string)
    requires Rearranges(fields, keys, values, order, place)
    requires DistinctKeys(fields) && Sorted(Assemble(keys, values))
    ensures Find(Inserted(fields), key) == Find(Assemble(keys, values), key)
  {
    hide Less, Find, Inserted, Assemble, LowerBound, DistinctKeys;
    var o := Assemble(keys, values);
    InsertedFind(fields, key);
    FindSound(o, key);
    if k :| 0 <= k < |o| && o[k].key == key {
      FindIndex(o, k);
      assert fields[place[k]] == o[k];
    } else {
      assert forall i :: 0 <= i < |fields| ==> fields[i].key == o[order[i]].key;
    }
  }

  /** A key between two neighbours is inserted between them. */
  lemma EmplaceBetween(keys: seq<string>, values: seq<JsonValue>, at: nat, key: string, v: JsonValue)
    requires |keys| == |values| && Ascending(keys) && at <= |keys|
    requires at > 0 ==> Less(keys[at - 1], key)
    requires at < |keys| ==> Less(key, keys[at])
    ensures Emplace(Assemble(keys, values), key, v) ==
            Assemble(keys[..at] + [key] + keys[at..], values[..at] + [v] + values[at..])
  {
    hide Less, Assemble, LowerBound, Ascending;
    PlaceBetween(keys, values, at, key);
    if at < |keys| { LessIrreflexive(key); }
    AssembleBetween(keys, values, at, key, v);
  }

  lemma AssembleBetween(keys: seq<string>, values: seq<JsonValue>, at: nat, key: string, v: JsonValue)
    requires |keys| == |values| && at <= |keys|
    ensures var o := Assemble(keys, values);
            Assemble(keys[..at] + [key] + keys[at..], values[..at] + [v] + values[at..])
            == o[..at] + [Entry(key, v)] + o[at..]
  {
    hide Assemble;
    var o := Assemble(keys, values);
    var ks, vs := keys[..at] + [key] + keys[at..], values[..at] + [v] + values[at..];
    var n := o[..at] + [Entry(key, v)] + o[at..];
    forall i | 0 <= i < |n|
      ensures n[i] == Entry(ks[i], vs[i])
    {
      Spliced(o, at, Entry(key, v), i);
      Spliced(keys, at, key, i);
      Spliced(values, at, v, i);
    }
    SameEntries(ks, vs, n);
  }

  lemma Spliced<T>(s: seq<T>, at: nat, x: T, i: nat)
    requires at <= |s| && i <= |s|
    ensures (s[..at] + [x] + s[at..])[i] == if i < at then s[i] else if i == at then x else s[i - 1]
  {
  }

  lemma SameEntries(keys: seq<string>, values: seq<JsonValue>, o: Fields)
    requires |keys| == |values| == |o| && forall i :: 0 <= i < |o| ==> o[i] == Entry(keys[i], values[i])
    ensures Assemble(keys, values) == o
  {
    hide Assemble;
  }

  lemma PlaceBetween(keys: seq<string>, values: seq<JsonValue>, at: nat, key: string)
    requires |keys| == |values| && Ascending(keys) && at <= |keys|
    requires at > 0 ==> Less(keys[at - 1], key)
    requires at < |keys| ==> Less(key, keys[at])
    ensures LowerBound(Assemble(keys, values), key) == at
  {
    hide Less, Assemble, LowerBound;
    var o := Assemble(keys, values);
    var b := LowerBound(o, key);
    if b < at {
      if b < at - 1 { LessTransitive(keys[b], keys[at - 1], key); }
    } else if at < b {
      LessTransitive(key, o[at].key, key);
      LessIrreflexive(key);
    }
  }

  lemma AscendingDistinct(keys: seq<string>)
    requires Ascending(keys)
    ensures forall i, j :: 0 <= i < j < |keys| ==> keys[i] != keys[j]
  {
    hide Less;
    forall i, j | 0 <= i < j < |keys|
      ensures keys[i] != keys[j]
    {
      LessIrreflexive(keys[i]);
    }
  }

  //
  // Records
  //

  /** How a record is written and read: its keys in ascending order; the insertions of the
      encoder, whose i-th one is at order[i] among the keys; the values in the order of the
      keys; which records are valid; and what is read from such values. */
  datatype Codec<!T> = Codec(
    keys: seq<string>,
    order: seq<nat>,
    place: seq<nat>,
    fields: T -> Fields,
    values: T -> seq<JsonValue>,
    valid: T -> bool,
    read: seq<JsonValue> -> Option<T>)

  ghost predicate WritesRecord<T>(c: Codec<T>, r: T)
  {
    && Rearranges(c.fields(r), c.keys, c.values(r), c.order, c.place) && AllValid(c.values(r))
    && c.read(c.values(r)) == if c.valid(r) then Some(r) else None
  }

  ghost predicate ReadsRecord<T>(c: Codec<T>, values: seq<JsonValue>)
  {
    |values| == |c.keys| && c.read(values).Some? ==>
      c.values(c.read(values).value) == values && c.valid(c.read(values).value)
  }

  ghost predicate Faithful<T(!new)>(c: Codec<T>)
  {
    Ascending(c.keys) && (forall r :: WritesRecord(c, r)) && (forall values :: ReadsRecord(c, values))
  }

  function ToObject<T>(c: Codec<T>, r: T): JsonValue { Object(Inserted(c.fields(r))) }

  function FromObject<T>(c: Codec<T>, v: JsonValue): Option<T>
  {
    match Members(v, c.keys)
    case None => None
    case Some(values) => c.read(values)
  }

  function ParseRecord<T>(c: Codec<T>, text: string): Option<T>
  {
    match ReadObject(text, c.keys)
    case None => None
    case Some(values) => c.read(values)
  }

  function EncodeRecord<T>(c: Codec<T>, r: T): Option<string>
  {
    if c.valid(r) then Some(EncodeText(ToObject(c, r))) else None
  }

  lemma RecordShape<T(!new)>(c: Codec<T>, r: T)
    requires Faithful(c)
    ensures |c.keys| == |c.values(r)| && AllValid(c.values(r))
    ensures ToObject(c, r) == Object(Assemble(c.keys, c.values(r))) && Valid(ToObject(c, r))
    ensures Members(ToObject(c, r), c.keys) == Some(c.values(r))
  {
    hide Inserted, Assemble, Members, Less, Ascending, Find;
    assert WritesRecord(c, r);
    InsertionOrder(c.fields(r), c.keys, c.values(r), c.order, c.place);
    AssembleMembers(c.keys, c.values(r));
  }

  /** A record in an object is read back, if it is valid. */
  lemma ObjectReads<T(!new)>(c: Codec<T>, r: T)
    requires Faithful(c)
    ensures FromObject(c, ToObject(c, r)) == if c.valid(r) then Some(r) else None
  {
    hide ToObject, Members, Valid, AllValid, Rearranges, Ascending, Assemble;
    RecordShape(c, r);
    assert WritesRecord(c, r);
  }

  /** And an object that is read as a record is the object of that record. */
  lemma ObjectWrites<T(!new)>(c: Codec<T>, v: JsonValue)
    requires Faithful(c) && Valid(v) && FromObject(c, v).Some?
    ensures ToObject(c, FromObject(c, v).value) == v && c.valid(FromObject(c, v).value)
  {
    hide ToObject, Members, Valid, AllValid, Rearranges, Ascending, Assemble;
    MembersAssemble(v, c.keys);
    RecordShape(c, FromObject(c, v).value);
    assert ReadsRecord(c, Members(v, c.keys).value);
  }

  /** Every record that encodes is read back unchanged. */
  lemma ParseRecordInvertsEncode<T(!new)>(c: Codec<T>, r: T)
    requires Faithful(c) && EncodeRecord(c, r).Some?
    ensures ParseRecord(c, EncodeRecord(c, r).value) == Some(r)
  {
    hide ToObject, ReadObject, EncodeText, Valid, AllValid, Rearranges, Ascending, Assemble, Members;
    RecordShape(c, r);
    ReadInvertsWrite(c.keys, c.values(r));
    assert WritesRecord(c, r);
  }

  /** Every accepted text is the encoding of the record that it is read as. */
  lemma EncodeRecordInvertsParse<T(!new)>(c: Codec<T>, text: string)
    requires Faithful(c) && ParseRecord(c, text).Some?
    ensures EncodeRecord(c, ParseRecord(c, text).value) == Some(text)
  {
    hide ToObject, ReadObject, EncodeText, Valid, AllValid, Rearranges, Ascending, Assemble, Members;
    WriteInvertsRead(text, c.keys);
    RecordShape(c, ParseRecord(c, text).value);
    assert ReadsRecord(c, ReadObject(text, c.keys).value);
  }
}
