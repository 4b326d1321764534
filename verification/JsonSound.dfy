/**
 Every text that the parser of native_runtime/cpp/json_value.cc accepts is a written form of
 the value that it is read as.
 */
module JsonSound {
  import opened Primitives
  import opened SortedMap
  import opened Json
  import opened JsonParser
  import opened JsonRoundTrip
  import opened JsonGrammar
  import opened JsonComplete

  lemma Joins(s: string, a: nat, b: nat, c: nat)
    requires a <= b <= c <= |s|
    ensures s[a..b] + s[b..c] == s[a..c]
  {
  }

  lemma {:induction false} BlankSound(s: string, p: nat)
    requires p <= |s|
    ensures AllBlank(s[p..Blank(s, p)])
    decreases |s| - p
  {
    hide IsSpace;
    if p < |s| && IsSpace(s[p]) {
      SpacesAreBlanks(s[p]);
      BlankSound(s, p + 1);
      assert s[p..Blank(s, p)] == [s[p]] + s[p + 1..Blank(s, p + 1)];
    }
  }

  //
  // Strings
  //

  lemma HexCharSound(c: char) returns (h: Hex)
    requires HexValue(c).Some?
    ensures h.value < 16 && h.value == HexValue(c).value
    ensures (if h.upper then "0123456789ABCDEF" else "0123456789abcdef")[h.value] == c
  {
    h := Hex(HexValue(c).value, 'A' <= c <= 'F');
  }

  lemma HexSound(s: string, p: nat) returns (h: seq<Hex>)
    requires p <= |s| && Hex4At(s, p).Ok?
    ensures p + 4 <= |s| && IsHex4(h) && HexText(h) == s[p..p + 4] && HexNumber(h) == Hex4At(s, p).value
  {
    hide HexValue;
    HexUnrolled(s, p);
    var h0 := HexCharSound(s[p]);
    var h1 := HexCharSound(s[p + 1]);
    var h2 := HexCharSound(s[p + 2]);
    var h3 := HexCharSound(s[p + 3]);
    h := [h0, h1, h2, h3];
    assert s[p..p + 4] == [s[p], s[p + 1], s[p + 2], s[p + 3]];
    assert HexText(h) == [HexText(h)[0], HexText(h)[1], HexText(h)[2], HexText(h)[3]];
  }

  lemma HexUnrolled(s: string, p: nat)
    requires p <= |s| && Hex4At(s, p).Ok?
    ensures p + 4 <= |s| && HexValue(s[p]).Some? && HexValue(s[p + 1]).Some? && HexValue(s[p + 2]).Some? && HexValue(s[p + 3]).Some?
    ensures Hex4At(s, p).value == 0x1000 * HexValue(s[p]).value + 0x100 * HexValue(s[p + 1]).value
                                  + 0x10 * HexValue(s[p + 2]).value + HexValue(s[p + 3]).value
  {
    hide HexValue;
    var r := Hex4At(s, p);
    assert r == HexDigitsAt(s, p, 4, 0);
    var a := HexValue(s[p]).value;
    assert r == HexDigitsAt(s, p + 1, 3, a);
    var b := a * 16 + HexValue(s[p + 1]).value;
    assert r == HexDigitsAt(s, p + 2, 2, b);
    var c := b * 16 + HexValue(s[p + 2]).value;
    assert r == HexDigitsAt(s, p + 3, 1, c);
    assert r == HexDigitsAt(s, p + 4, 0, c * 16 + HexValue(s[p + 3]).value);
  }

  lemma ScalarSound(s: string, p: nat) returns (x: Piece)
    requires p + 1 < |s| && s[p] == '\\' && s[p + 1] == 'u' && ScalarAt(s, p + 2).Ok?
    ensures var r := ScalarAt(s, p + 2);
            IsPiece(x) && PieceText(x) == s[p..r.next] && PieceBytes(x) == CodePointBytes(r.value)
  {
    hide Hex4At, HexText, HexNumber, CodePointBytes;
    var r := ScalarAt(s, p + 2);
    var h := HexSound(s, p + 2);
    assert s[p..p + 2] == "\\u";
    Joins(s, p, p + 2, p + 6);
    if HexNumber(h) < 0xD800 || HexNumber(h) > 0xDFFF {
      x := Unicode(h);
    } else {
      var l := HexSound(s, p + 8);
      x := Surrogates(h, l);
      assert s[p + 6..p + 8] == "\\u";
      Joins(s, p, p + 6, p + 8);
      Joins(s, p, p + 8, p + 12);
    }
  }

  /** One step of the loop of ParseString that does not end it. */
  lemma PieceSound(s: string, p: nat, result: string) returns (x: Piece, n: nat)
    requires p < |s| && s[p] != '"' && StringFrom(s, p, result).Ok?
    ensures p < n <= |s| && IsPiece(x) && PieceText(x) == s[p..n]
    ensures StringFrom(s, p, result) == StringFrom(s, n, result + PieceBytes(x))
  {
    hide ScalarAt, CodePointBytes, HexText, HexNumber;
    if s[p] != '\\' {
      x, n := Plain(s[p]), p + 1;
    } else if s[p + 1] == 'u' {
      x := ScalarSound(s, p);
      n := ScalarAt(s, p + 2).next;
    } else {
      x, n := Short(s[p + 1]), p + 2;
      assert s[p..n] == [s[p], s[p + 1]];
    }
  }

  lemma {:induction false} PiecesSound(s: string, p: nat, result: string) returns (ps: seq<Piece>)
    requires p <= |s| && StringFrom(s, p, result).Ok?
    ensures var r := StringFrom(s, p, result);
            ArePieces(ps) && PiecesText(ps) + "\"" == s[p..r.next] && r.value == result + PiecesBytes(ps)
    decreases |s| - p
  {
    hide PieceText, PieceBytes, IsPiece, ScalarAt, CodePointBytes;
    if s[p] == '"' {
      ps := [];
      assert s[p..p + 1] == "\"" && result + [] == result;
    } else {
      hide StringFrom;
      var r := StringFrom(s, p, result);
      var x, n := PieceSound(s, p, result);
      var rest := PiecesSound(s, n, result + PieceBytes(x));
      ps := [x] + rest;
      assert ps[1..] == rest;
      Joins(s, p, n, r.next);
      assert PiecesText(ps) + "\"" == PieceText(x) + (PiecesText(rest) + "\"");
      assert result + PiecesBytes(ps) == result + PieceBytes(x) + PiecesBytes(rest);
    }
  }

  lemma StringSound(s: string, p: nat) returns (ps: seq<Piece>)
    requires p <= |s| && StringAt(s, p).Ok?
    ensures var r := StringAt(s, p);
            ArePieces(ps) && "\"" + PiecesText(ps) + "\"" == s[p..r.next] && r.value == PiecesBytes(ps)
  {
    hide StringFrom, PiecesText, PiecesBytes;
    ps := PiecesSound(s, p + 1, []);
    var r := StringAt(s, p);
    Joins(s, p, p + 1, r.next);
    assert s[p..p + 1] == "\"" && [] + PiecesBytes(ps) == PiecesBytes(ps);
    assert "\"" + PiecesText(ps) + "\"" == "\"" + (PiecesText(ps) + "\"");
  }

  //
  // Leaves
  //

  lemma NumberSound(s: string, p: nat) returns (f: Form)
    requires p <= |s| && IntegerAt(s, p).Ok?
    ensures var r := IntegerAt(s, p);
            f.NumberForm? && IsForm(f) && FormText(f) == s[p..r.next] && Meaning(f) == r.value
  {
    hide DigitRun, DigitsValue;
    var r := IntegerAt(s, p);
    var negative := Has(s, p, '-');
    var d := if negative then p + 1 else p;
    f := NumberForm(negative, s[d..r.next]);
    Joins(s, p, d, r.next);
    assert s[p..d] == if negative then "-" else "";
    assert s[d..r.next][0] == s[d];
  }

  lemma LiteralSound(s: string, p: nat, literal: string, v: JsonValue)
    requires p <= |s| && LiteralAt(s, p, literal, v).Ok?
    ensures LiteralAt(s, p, literal, v) == Ok(v, p + |literal|) && s[p..p + |literal|] == literal
  {
    assert s[p..][..|literal|] == s[p..p + |literal|];
  }

  /** The form that was read as a value. */
  ghost predicate FormOf(f: Form, text: string, v: JsonValue)
  {
    IsForm(f) && FormText(f) == text && Meaning(f) == v
  }

  lemma LeafSound(s: string, p: nat) returns (f: Form)
    requires p < |s| && s[p] !in {'[', '{'} && ValueAt(s, p).Ok?
    ensures FormOf(f, s[p..ValueAt(s, p).next], ValueAt(s, p).value)
  {
    hide StringAt, LiteralAt, IntegerAt, PiecesText, PiecesBytes, IsNumber;
    if s[p] == 'n' {
      LiteralSound(s, p, "null", Null);
      f := NullForm;
    } else if s[p] == 't' {
      LiteralSound(s, p, "true", Boolean(true));
      f := BooleanForm(true);
    } else if s[p] == 'f' {
      LiteralSound(s, p, "false", Boolean(false));
      f := BooleanForm(false);
    } else if s[p] == '"' {
      var ps := StringSound(s, p);
      f := StringForm(ps);
    } else {
      f := NumberSound(s, p);
    }
  }

  //
  // Containers
  //

  lemma EmptySound(s: string, p: nat, open: char, close: char) returns (f: Form)
    requires (open == '[' && close == ']') || (open == '{' && close == '}')
    requires Has(s, p, open) && Has(s, Blank(s, p + 1), close)
    ensures FormOf(f, s[p..ValueAt(s, p).next], ValueAt(s, p).value) && ValueAt(s, p).Ok?
  {
    hide Blank, ValueAt;
    var q := Blank(s, p + 1);
    BlankSound(s, p + 1);
    Joins(s, p, p + 1, q);
    Joins(s, p, q, q + 1);
    assert s[p..p + 1] == [open] && s[q..q + 1] == [close];
    if open == '[' {
      ArrayOpens(s, p);
      f := EmptyArray(s[p + 1..q]);
    } else {
      ObjectOpens(s, p);
      f := EmptyObject(s[p + 1..q]);
    }
  }

  lemma {:induction false} ValueSound(s: string, p: nat) returns (f: Form)
    requires p <= |s| && ValueAt(s, p).Ok?
    ensures FormOf(f, s[p..ValueAt(s, p).next], ValueAt(s, p).value)
    decreases |s| - p, 1
  {
    hide FormOf, Blank;
    assert p < |s|;
    hide ValueAt;
    if s[p] !in {'[', '{'} {
      f := LeafSound(s, p);
    } else {
      var close := if s[p] == '[' then ']' else '}';
      if Has(s, Blank(s, p + 1), close) {
        f := EmptySound(s, p, s[p], close);
      } else if s[p] == '[' {
        ArrayOpens(s, p);
        var items := ItemsSound(s, p + 1, []);
        f := ArrayForm(items);
        ArrayFormOf(s, p, items);
      } else {
        ObjectOpens(s, p);
        var ms := MembersSound(s, p + 1, []);
        f := ObjectForm(ms);
        ObjectFormOf(s, p, ms);
      }
    }
  }

  /** The items that the loop of ParseArray has read. */
  ghost predicate ItemsOf(items: seq<Item>, text: string, result: seq<JsonValue>, v: JsonValue)
  {
    && items != [] && (forall i :: 0 <= i < |items| ==> IsItem(items[i]))
    && ListText(items) + "]" == text && v == Array(result + ListMeaning(items))
  }

  lemma ArrayFormOf(s: string, p: nat, items: seq<Item>)
    requires Has(s, p, '[') && ValueAt(s, p).Ok?
    requires ItemsOf(items, s[p + 1..ValueAt(s, p).next], [], ValueAt(s, p).value)
    ensures FormOf(ArrayForm(items), s[p..ValueAt(s, p).next], ValueAt(s, p).value)
  {
    hide ValueAt, ListText, ListMeaning, IsItem;
    Joins(s, p, p + 1, ValueAt(s, p).next);
    assert s[p..p + 1] == "[";
    assert "[" + ListText(items) + "]" == "[" + (ListText(items) + "]");
    assert [] + ListMeaning(items) == ListMeaning(items);
  }

  lemma {:induction false} ItemsSound(s: string, p: nat, result: seq<JsonValue>) returns (items: seq<Item>)
    requires p <= |s| && ItemsFrom(s, p, result).Ok?
    ensures ItemsOf(items, s[p..ItemsFrom(s, p, result).next], result, ItemsFrom(s, p, result).value)
    decreases |s| - p, 2
  {
    hide ValueAt, Blank, ItemsOf, FormOf;
    var r := ItemsFrom(s, p, result);
    var a := Blank(s, p);
    var v := ValueAt(s, a);
    var q := Blank(s, v.next);
    var f := ValueSound(s, a);
    var x := Item(s[p..a], f, s[v.next..q]);
    ItemSound(s, p, x);
    if Has(s, q, ']') {
      items := [x];
      LastItem(s, p, q, x, result, v.value);
    } else {
      var rest := ItemsSound(s, q + 1, result + [v.value]);
      items := [x] + rest;
      MoreItems(s, p, q, r.next, x, rest, result, v.value, r.value);
    }
  }

  lemma ItemSound(s: string, p: nat, x: Item)
    requires p <= |s| && ValueAt(s, Blank(s, p)).Ok?
    requires var v := ValueAt(s, Blank(s, p));
             && x == Item(s[p..Blank(s, p)], x.item, s[v.next..Blank(s, v.next)])
             && FormOf(x.item, s[Blank(s, p)..v.next], v.value)
    ensures var v := ValueAt(s, Blank(s, p));
            IsItem(x) && ItemText(x) == s[p..Blank(s, v.next)] && Meaning(x.item) == v.value
  {
    hide ValueAt, Blank, IsForm, FormText, Meaning;
    var v := ValueAt(s, Blank(s, p));
    BlankSound(s, p);
    BlankSound(s, v.next);
    Joins(s, p, Blank(s, p), v.next);
    Joins(s, p, v.next, Blank(s, v.next));
  }

  lemma LastItem(s: string, p: nat, q: nat, x: Item, result: seq<JsonValue>, v: JsonValue)
    requires p <= q && Has(s, q, ']') && IsItem(x) && ItemText(x) == s[p..q] && Meaning(x.item) == v
    ensures ItemsOf([x], s[p..q + 1], result, Array(result + [v]))
  {
    hide IsItem, ItemText, IsForm, Meaning, ListMeaning;
    ListMeaningOn([x]);
    Joins(s, p, q, q + 1);
  }

  lemma MoreItems(s: string, p: nat, q: nat, n: nat, x: Item, rest: seq<Item>, result: seq<JsonValue>, v: JsonValue, all: JsonValue)
    requires p <= q && Has(s, q, ',') && q + 1 <= n <= |s| && IsItem(x) && ItemText(x) == s[p..q] && Meaning(x.item) == v
    requires ItemsOf(rest, s[q + 1..n], result + [v], all)
    ensures ItemsOf([x] + rest, s[p..n], result, all)
  {
    hide ItemText, IsForm, IsItem, Meaning, ListMeaning;
    var items := [x] + rest;
    assert items[1..] == rest;
    Joins(s, p, q, q + 1);
    Joins(s, p, q + 1, n);
    assert s[q..q + 1] == ",";
    assert ListText(items) + "]" == ItemText(x) + "," + (ListText(rest) + "]");
    ListMeaningOn(items);
    assert result + ListMeaning(items) == result + [v] + ListMeaning(rest);
  }

  /** The members that the loop of ParseObject has read. */
  ghost predicate MembersOf(ms: seq<Member>, text: string, known: seq<Entry<JsonValue>>, v: JsonValue)
  {
    && ms != [] && (forall i :: 0 <= i < |ms| ==> IsMember(ms[i])) && Fresh(known, ms)
    && RecordText(ms) + "}" == text && v == Object(RecordMeaning(known, ms))
  }

  lemma ObjectFormOf(s: string, p: nat, ms: seq<Member>)
    requires Has(s, p, '{') && ValueAt(s, p).Ok?
    requires MembersOf(ms, s[p + 1..ValueAt(s, p).next], [], ValueAt(s, p).value)
    ensures FormOf(ObjectForm(ms), s[p..ValueAt(s, p).next], ValueAt(s, p).value)
  {
    hide ValueAt, RecordText, RecordMeaning, IsMember, PiecesBytes;
    Joins(s, p, p + 1, ValueAt(s, p).next);
    assert s[p..p + 1] == "{";
    assert "{" + RecordText(ms) + "}" == "{" + (RecordText(ms) + "}");
  }

  /** A key, its colon and the blanks around them. */
  lemma NameSound(s: string, p: nat, value: Form, after: string) returns (m: Member)
    requires p <= |s| && KeyAt(s, p).Ok?
    ensures m.value == value && m.after == after
    ensures AllBlank(m.before) && ArePieces(m.key) && AllBlank(m.colon) && AllBlank(m.gap)
    ensures NameText(m) == s[p..KeyAt(s, p).next] && PiecesBytes(m.key) == KeyAt(s, p).value
  {
    hide Blank, StringAt, PiecesText, PiecesBytes;
    var k := Blank(s, p);
    var n := StringAt(s, k).next;
    var c := Blank(s, n);
    var a := Blank(s, c + 1);
    var ps := StringSound(s, k);
    m := Member(s[p..k], ps, s[n..c], s[c + 1..a], value, after);
    BlankSound(s, p);
    BlankSound(s, n);
    BlankSound(s, c + 1);
    Joins(s, p, k, n);
    Joins(s, p, n, c);
    Joins(s, p, c, c + 1);
    Joins(s, p, c + 1, a);
    assert s[c..c + 1] == ":";
  }

  lemma {:induction false} MembersSound(s: string, p: nat, known: seq<Entry<JsonValue>>) returns (ms: seq<Member>)
    requires p <= |s| && MembersFrom(s, p, known).Ok? && Sorted(known)
    ensures MembersOf(ms, s[p..MembersFrom(s, p, known).next], known, MembersFrom(s, p, known).value)
    decreases |s| - p, 2
  {
    hide ValueAt, KeyAt, Blank, MembersOf, FormOf, Find, Emplace, Less;
    var r := MembersFrom(s, p, known);
    var k := KeyAt(s, p);
    var v := ValueAt(s, k.next);
    var q := Blank(s, v.next);
    var grown := Emplace(known, k.value, v.value);
    var f := ValueSound(s, k.next);
    var m := NameSound(s, p, f, s[v.next..q]);
    MemberSound(s, p, m);
    if Has(s, q, '}') {
      ms := [m];
      LastMember(s, p, q, m, known, v.value);
    } else {
      EmplaceSorted(known, k.value, v.value);
      var rest := MembersSound(s, q + 1, grown);
      ms := [m] + rest;
      MoreMembers(s, p, q, r.next, m, rest, known, v.value, r.value);
    }
  }

  lemma MemberSound(s: string, p: nat, m: Member)
    requires p <= |s| && KeyAt(s, p).Ok? && ValueAt(s, KeyAt(s, p).next).Ok?
    requires AllBlank(m.before) && ArePieces(m.key) && AllBlank(m.colon) && AllBlank(m.gap)
    requires var a := KeyAt(s, p).next;
             var v := ValueAt(s, a);
             && NameText(m) == s[p..a] && FormOf(m.value, s[a..v.next], v.value) && m.after == s[v.next..Blank(s, v.next)]
    ensures var v := ValueAt(s, KeyAt(s, p).next);
            IsMember(m) && PairText(m) == s[p..Blank(s, v.next)] && Meaning(m.value) == v.value
  {
    hide ValueAt, KeyAt, Blank, IsForm, FormText, Meaning, NameText;
    var a := KeyAt(s, p).next;
    var v := ValueAt(s, a);
    BlankSound(s, v.next);
    Joins(s, p, a, v.next);
    Joins(s, p, v.next, Blank(s, v.next));
  }

  lemma RecordMeaningOn(known: seq<Entry<JsonValue>>, ms: seq<Member>)
    requires ms != [] && forall i :: 0 <= i < |ms| ==> IsMember(ms[i])
    ensures IsForm(ms[0].value) && ArePieces(ms[0].key)
    ensures RecordMeaning(known, ms) == RecordMeaning(Emplace(known, PiecesBytes(ms[0].key), Meaning(ms[0].value)), ms[1..])
    ensures |ms| == 1 ==> RecordMeaning(known, ms) == Emplace(known, PiecesBytes(ms[0].key), Meaning(ms[0].value))
  {
    hide Meaning, IsForm, Emplace, PiecesBytes;
    assert IsMember(ms[0]);
  }

  lemma LastMember(s: string, p: nat, q: nat, m: Member, known: seq<Entry<JsonValue>>, v: JsonValue)
    requires p <= q && Has(s, q, '}') && IsMember(m) && PairText(m) == s[p..q] && Meaning(m.value) == v
    requires Sorted(known) && Find(known, PiecesBytes(m.key)).None?
    ensures MembersOf([m], s[p..q + 1], known, Object(Emplace(known, PiecesBytes(m.key), v)))
  {
    hide PairText, IsForm, Meaning, Find, Emplace, PiecesBytes, Less, RecordMeaning;
    Joins(s, p, q, q + 1);
    assert s[q..q + 1] == "}";
    assert RecordText([m]) == PairText(m);
    RecordMeaningOn(known, [m]);
  }

  lemma MoreMembers(
    s: string, p: nat, q: nat, n: nat, m: Member, rest: seq<Member>, known: seq<Entry<JsonValue>>, v: JsonValue, all: JsonValue)
    requires p <= q && Has(s, q, ',') && q + 1 <= n <= |s| && IsMember(m) && PairText(m) == s[p..q] && Meaning(m.value) == v
    requires Sorted(known) && Find(known, PiecesBytes(m.key)).None?
    requires MembersOf(rest, s[q + 1..n], Emplace(known, PiecesBytes(m.key), v), all)
    ensures MembersOf([m] + rest, s[p..n], known, all)
  {
    hide PairText, IsForm, IsMember, Meaning, Find, Emplace, PiecesBytes, Less, RecordMeaning, Fresh;
    var ms := [m] + rest;
    assert ms[1..] == rest;
    Joins(s, p, q, q + 1);
    Joins(s, p, q + 1, n);
    assert s[q..q + 1] == ",";
    assert RecordText(ms) + "}" == PairText(m) + "," + (RecordText(rest) + "}");
    RecordMeaningOn(known, ms);
    FreshBefore(known, m, rest, v);
  }

  lemma FreshBefore(known: seq<Entry<JsonValue>>, m: Member, rest: seq<Member>, v: JsonValue)
    requires IsMember(m) && forall i :: 0 <= i < |rest| ==> IsMember(rest[i])
    requires Sorted(known) && Find(known, PiecesBytes(m.key)).None? && Fresh(Emplace(known, PiecesBytes(m.key), v), rest)
    ensures forall i :: 0 <= i < |[m] + rest| ==> IsMember(([m] + rest)[i])
    ensures Fresh(known, [m] + rest)
  {
    hide Find, Emplace, PiecesBytes, Less, IsForm;
    var ms, key := [m] + rest, PiecesBytes(m.key);
    forall i | 0 <= i < |rest|
      ensures ArePieces(rest[i].key) && PiecesBytes(rest[i].key) != key && Find(known, PiecesBytes(rest[i].key)).None?
    {
      assert IsMember(rest[i]);
      EmplaceFind(known, key, v, PiecesBytes(rest[i].key));
    }
    assert forall i :: 0 < i < |ms| ==> ms[i] == rest[i - 1];
  }

  //
  // The main theorems
  //

  /** ParseJson accepts exactly the written forms, each as the value that it is a form of. */
  lemma AcceptsExactlyForms(s: string, v: JsonValue)
    ensures ParseText(s) == Value(v) <==> Denotes(s, v)
  {
    hide ValueAt, Blank, FormText, IsForm, Meaning;
    if ParseText(s) == Value(v) {
      var p := Blank(s, 0);
      var n := ValueAt(s, p).next;
      var f := ValueSound(s, p);
      BlankSound(s, 0);
      BlankSound(s, n);
      assert s == s[0..p] + s[p..n] + s[n..|s|];
    }
    if Denotes(s, v) {
      var before, f, after :|
        AllBlank(before) && IsForm(f) && AllBlank(after) && s == before + FormText(f) + after && v == Meaning(f);
      FormsAreRead(before, f, after);
    }
  }

  /** What an object means: a sorted map in which each key has its value, and no other key. */
  lemma {:induction false} ObjectMeans(known: seq<Entry<JsonValue>>, ms: seq<Member>, key: string)
    requires (forall i :: 0 <= i < |ms| ==> IsMember(ms[i])) && Fresh(known, ms)
    ensures Sorted(RecordMeaning(known, ms))
    ensures forall i :: 0 <= i < |ms| && ArePieces(ms[i].key) && IsForm(ms[i].value) && PiecesBytes(ms[i].key) == key ==>
              Find(RecordMeaning(known, ms), key) == Some(Meaning(ms[i].value))
    ensures (forall i :: 0 <= i < |ms| && ArePieces(ms[i].key) ==> PiecesBytes(ms[i].key) != key) ==>
              Find(RecordMeaning(known, ms), key) == Find(known, key)
    decreases |ms|
  {
    hide Find, Emplace, PiecesBytes, Less, IsForm, Meaning, RecordMeaning;
    if ms == [] {
      NothingMeans(known);
    } else {
      RecordMeaningOn(known, ms);
      var name, v, rest := PiecesBytes(ms[0].key), Meaning(ms[0].value), ms[1..];
      FreshOn(known, ms, v);
      EmplaceFind(known, name, v, key);
      ObjectMeans(Emplace(known, name, v), rest, key);
      assert forall i :: 0 < i < |ms| ==> ms[i] == rest[i - 1];
      assert forall i :: 0 <= i < |rest| ==> rest[i] == ms[i + 1];
    }
  }

  lemma NothingMeans(known: seq<Entry<JsonValue>>)
    ensures RecordMeaning(known, []) == known
  {
  }
}
