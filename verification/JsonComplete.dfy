/**
 Every written form of a value is read as that value (native_runtime/cpp/json_value.cc).
 */
module JsonComplete {
  import opened Primitives
  import opened SortedMap
  import opened Json
  import opened JsonParser
  import opened JsonRoundTrip
  import opened JsonGrammar

  //
  // Blanks
  //

  lemma SpacesAreBlanks(c: char)
    ensures IsSpace(c) <==> c as int in BLANKS
  {
  }

  lemma {:induction false} BlankOver(s: string, p: nat, b: string)
    requires At(s, p, b) && AllBlank(b)
    ensures Blank(s, p) == Blank(s, p + |b|)
    decreases |b|
  {
    hide IsSpace;
    if b != [] {
      AtHead(s, p, b);
      SpacesAreBlanks(b[0]);
      assert b == [b[0]] + b[1..];
      AtSplit(s, p, [b[0]], b[1..]);
      BlankOver(s, p + 1, b[1..]);
    }
  }

  /** A run of blanks is skipped up to what stops it. */
  lemma SkipsBlanks(s: string, p: nat, b: string)
    requires At(s, p, b) && AllBlank(b) && (p + |b| < |s| ==> !IsSpace(s[p + |b|]))
    ensures Blank(s, p) == p + |b|
  {
    BlankOver(s, p, b);
  }

  lemma {:induction false} BlankTwice(s: string, p: nat)
    requires p <= |s|
    ensures Blank(s, Blank(s, p)) == Blank(s, p)
    decreases |s| - p
  {
    if p < |s| && IsSpace(s[p]) { BlankTwice(s, p + 1); }
  }

  /** Blanks and the token after them: a number before them has ended. */
  lemma TokenFollows(s: string, p: nat, b: string, c: char)
    requires At(s, p, b + [c]) && AllBlank(b) && c in {',', ']', '}', ':'}
    ensures Ends(s, p) && Blank(s, p) == p + |b| && Has(s, p + |b|, c)
  {
    hide Blank;
    AtSplit(s, p, b, [c]);
    AtHead(s, p + |b|, [c]);
    SkipsBlanks(s, p, b);
    if b != [] { AtHead(s, p, b); }
  }

  //
  // Strings
  //

  lemma HexCharValue(h: Hex)
    requires h.value < 16
    ensures HexValue((if h.upper then "0123456789ABCDEF" else "0123456789abcdef")[h.value]) == Some(h.value)
  {
  }

  lemma HexComplete(s: string, p: nat, h: seq<Hex>)
    requires IsHex4(h) && At(s, p, HexText(h))
    ensures Hex4At(s, p) == Ok(HexNumber(h), p + 4)
  {
    hide HexValue;
    AtIndex(s, p, HexText(h));
    forall i | 0 <= i < 4
      ensures HexValue(s[p + i]) == Some(h[i].value)
    {
      assert s[p + i] == HexText(h)[i];
      HexCharValue(h[i]);
    }
    var n1 := h[0].value;
    var n2 := n1 * 16 + h[1].value;
    var n3 := n2 * 16 + h[2].value;
    var n4 := n3 * 16 + h[3].value;
    assert HexDigitsAt(s, p + 4, 0, n4) == Ok(n4, p + 4);
    assert HexValue(s[p + 3]) == Some(h[3].value);
    assert HexDigitsAt(s, p + 3, 1, n3) == Ok(n4, p + 4);
    assert HexValue(s[p + 2]) == Some(h[2].value);
    assert HexDigitsAt(s, p + 2, 2, n2) == Ok(n4, p + 4);
    assert HexValue(s[p + 1]) == Some(h[1].value);
    assert HexDigitsAt(s, p + 1, 3, n1) == Ok(n4, p + 4);
    assert HexValue(s[p + 0]) == Some(h[0].value);
    assert HexDigitsAt(s, p, 4, 0) == Ok(n4, p + 4);
  }

  lemma EscapeHead(s: string, p: nat, rest: string)
    requires At(s, p, "\\u" + rest)
    ensures p + 1 < |s| && s[p] == '\\' && s[p + 1] == 'u' && At(s, p + 2, rest)
  {
    AtSplit(s, p, "\\u", rest);
    AtIndex(s, p, "\\u");
    assert "\\u"[0] == '\\' && "\\u"[1] == 'u';
  }

  lemma UnicodeComplete(s: string, p: nat, u: seq<Hex>)
    requires IsPiece(Unicode(u)) && At(s, p, HexText(u))
    ensures ScalarAt(s, p) == Ok(HexNumber(u), p + 4)
  {
    hide Hex4At;
    HexComplete(s, p, u);
  }

  lemma SurrogatesComplete(s: string, p: nat, h: seq<Hex>, l: seq<Hex>)
    requires IsPiece(Surrogates(h, l)) && At(s, p, HexText(h) + ("\\u" + HexText(l)))
    ensures ScalarAt(s, p) == Ok(0x10000 + (HexNumber(h) - 0xD800) * 0x400 + (HexNumber(l) - 0xDC00), p + 10)
  {
    hide Hex4At, HexText, HexNumber;
    AtSplit(s, p, HexText(h), "\\u" + HexText(l));
    HexComplete(s, p, h);
    HexLength(h);
    EscapeHead(s, p + 4, HexText(l));
    HexComplete(s, p + 6, l);
  }

  lemma HexLength(h: seq<Hex>)
    requires IsHex4(h)
    ensures |HexText(h)| == 4
  {
  }

  lemma PieceComplete(s: string, p: nat, x: Piece, result: string)
    requires IsPiece(x) && At(s, p, PieceText(x))
    ensures StringFrom(s, p, result) == StringFrom(s, p + |PieceText(x)|, result + PieceBytes(x))
  {
    hide StringFrom, HexText, HexNumber, CodePointBytes, At;
    match x
    case Plain(c) => PlainComplete(s, p, c, result);
    case Short(c) => ShortComplete(s, p, c, result);
    case Unicode(u) => UnicodePiece(s, p, u, result);
    case Surrogates(h, l) =>
      SurrogatesText(h, l);
      SurrogatesPiece(s, p, h, l, result);
  }

  lemma UnicodePiece(s: string, p: nat, u: seq<Hex>, result: string)
    requires IsPiece(Unicode(u)) && At(s, p, "\\u" + HexText(u))
    ensures StringFrom(s, p, result) == StringFrom(s, p + |"\\u" + HexText(u)|, result + CodePointBytes(HexNumber(u)))
  {
    hide StringFrom, ScalarAt, HexText, HexNumber, CodePointBytes, At;
    EscapeHead(s, p, HexText(u));
    UnicodeComplete(s, p + 2, u);
    HexLength(u);
    ScalarRead(s, p, result);
  }

  lemma SurrogatesText(h: seq<Hex>, l: seq<Hex>)
    requires IsPiece(Surrogates(h, l))
    ensures PieceText(Surrogates(h, l)) == "\\u" + (HexText(h) + ("\\u" + HexText(l)))
    ensures |PieceText(Surrogates(h, l))| == 12
  {
    hide HexText, HexNumber;
    HexLength(h);
    HexLength(l);
  }

  lemma SurrogatesPiece(s: string, p: nat, h: seq<Hex>, l: seq<Hex>, result: string)
    requires IsPiece(Surrogates(h, l)) && At(s, p, "\\u" + (HexText(h) + ("\\u" + HexText(l))))
    ensures p + 12 <= |s| && StringFrom(s, p, result) == StringFrom(s, p + 12, result + PieceBytes(Surrogates(h, l)))
  {
    hide StringFrom, ScalarAt, HexText, HexNumber, CodePointBytes, At;
    EscapeHead(s, p, HexText(h) + ("\\u" + HexText(l)));
    SurrogatesComplete(s, p + 2, h, l);
    ScalarRead(s, p, result);
  }

  lemma PlainComplete(s: string, p: nat, c: char, result: string)
    requires IsPiece(Plain(c)) && At(s, p, [c])
    ensures StringFrom(s, p, result) == StringFrom(s, p + 1, result + [c])
  {
    AtHead(s, p, [c]);
  }

  lemma ScalarRead(s: string, p: nat, result: string)
    requires p + 1 < |s| && s[p] == '\\' && s[p + 1] == 'u' && ScalarAt(s, p + 2).Ok?
    ensures var r := ScalarAt(s, p + 2);
            StringFrom(s, p, result) == StringFrom(s, r.next, result + CodePointBytes(r.value))
  {
    hide ScalarAt, CodePointBytes;
  }

  lemma ShortComplete(s: string, p: nat, c: char, result: string)
    requires c in SHORT && At(s, p, "\\" + [c])
    ensures StringFrom(s, p, result) == StringFrom(s, p + 2, result + [SHORT[c] as char])
  {
    AtIndex(s, p, "\\" + [c]);
    assert ("\\" + [c])[0] == '\\' && ("\\" + [c])[1] == c;
  }

  lemma {:induction false} PiecesComplete(s: string, p: nat, ps: seq<Piece>, result: string)
    requires ArePieces(ps) && At(s, p, PiecesText(ps) + "\"")
    ensures StringFrom(s, p, result) == Ok(result + PiecesBytes(ps), p + |PiecesText(ps)| + 1)
    decreases |ps|
  {
    hide StringFrom, PieceText, PieceBytes, IsPiece;
    if ps == [] {
      assert PiecesText(ps) + "\"" == "\"" && result + PiecesBytes(ps) == result;
      StringFromEnd(s, p, result);
    } else {
      var t, rest := PieceText(ps[0]), PiecesText(ps[1..]);
      assert PiecesText(ps) + "\"" == t + (rest + "\"");
      AtSplit(s, p, t, rest + "\"");
      PieceComplete(s, p, ps[0], result);
      PiecesComplete(s, p + |t|, ps[1..], result + PieceBytes(ps[0]));
      assert result + PiecesBytes(ps) == result + PieceBytes(ps[0]) + PiecesBytes(ps[1..]);
    }
  }

  lemma StringComplete(s: string, p: nat, ps: seq<Piece>)
    requires ArePieces(ps) && At(s, p, "\"" + PiecesText(ps) + "\"")
    ensures StringAt(s, p) == Ok(PiecesBytes(ps), p + |PiecesText(ps)| + 2) && Has(s, p, '"')
  {
    hide StringFrom, PiecesText, PiecesBytes;
    assert "\"" + PiecesText(ps) + "\"" == "\"" + (PiecesText(ps) + "\"");
    AtSplit(s, p, "\"", PiecesText(ps) + "\"");
    AtHead(s, p, "\"");
    PiecesComplete(s, p + 1, ps, []);
    assert [] + PiecesBytes(ps) == PiecesBytes(ps);
  }

  //
  // Numbers
  //

  lemma NumberComplete(s: string, p: nat, negative: bool, digits: string)
    requires IsNumber(negative, digits)
    requires var t := (if negative then "-" else "") + digits; At(s, p, t) && Ends(s, p + |t|)
    ensures IntegerAt(s, p) ==
            Ok(Integer(Signed(negative, DigitsValue(digits))), p + (if negative then 1 else 0) + |digits|)
  {
    hide DigitRun, DigitsValue;
    var sign := if negative then "-" else "";
    AtSplit(s, p, sign, digits);
    var d := p + |sign|;
    if negative { AtHead(s, p, sign); }
    AtHead(s, d, digits);
    DigitRunAt(s, d, digits);
  }

  //
  // Values
  //

  /** A form starts neither with a blank nor with a closing bracket. */
  lemma FormHead(f: Form)
    requires IsForm(f)
    ensures FormText(f) != [] && !IsSpace(FormText(f)[0]) && FormText(f)[0] !in {']', '}'}
    ensures f.ArrayForm? || f.EmptyArray? <==> FormText(f)[0] == '['
    ensures f.ObjectForm? || f.EmptyObject? <==> FormText(f)[0] == '{'
  {
    hide PiecesText, ListText, RecordText, DigitsValue;
  }

  lemma LeafComplete(s: string, p: nat, f: Form)
    requires IsForm(f) && (f.NullForm? || f.BooleanForm? || f.NumberForm? || f.StringForm?)
    requires At(s, p, FormText(f)) && Ends(s, p + |FormText(f)|)
    ensures ValueAt(s, p) == Ok(Meaning(f), p + |FormText(f)|)
  {
    hide ItemsFrom, MembersFrom, StringAt, Blank, LiteralAt, IntegerAt, At, Ends, PiecesText, PiecesBytes, DigitsValue;
    FormHead(f);
    AtHead(s, p, FormText(f));
    match f
    case NullForm => LiteralRoundTrip(s, p, "null", Null);
    case BooleanForm(b) => LiteralRoundTrip(s, p, if b then "true" else "false", Boolean(b));
    case NumberForm(negative, digits) => NumberComplete(s, p, negative, digits);
    case StringForm(ps) => StringComplete(s, p, ps);
  }

  lemma ItemsAfterBlank(s: string, p: nat, result: seq<JsonValue>)
    requires p <= |s|
    ensures ItemsFrom(s, Blank(s, p), result) == ItemsFrom(s, p, result)
  {
    hide ValueAt, Blank;
    BlankTwice(s, p);
  }

  lemma MembersAfterBlank(s: string, p: nat, known: seq<Entry<JsonValue>>)
    requires p <= |s|
    ensures MembersFrom(s, Blank(s, p), known) == MembersFrom(s, p, known)
  {
    hide ValueAt, Blank, KeyAt, Find, Emplace;
    KeyAfterBlank(s, p);
  }

  lemma KeyAfterBlank(s: string, p: nat)
    requires p <= |s|
    ensures KeyAt(s, Blank(s, p)) == KeyAt(s, p)
  {
    hide Blank, StringAt;
    BlankTwice(s, p);
  }

  /** An opening bracket and what the parser makes of what follows. */
  lemma ArrayOpens(s: string, p: nat)
    requires Has(s, p, '[')
    ensures Has(s, Blank(s, p + 1), ']') ==> ValueAt(s, p) == Ok(Array([]), Blank(s, p + 1) + 1)
    ensures !Has(s, Blank(s, p + 1), ']') ==> ValueAt(s, p) == ItemsFrom(s, p + 1, [])
  {
    hide ItemsFrom, MembersFrom, StringAt, LiteralAt, IntegerAt, Blank;
    ItemsAfterBlank(s, p + 1, []);
  }

  lemma ObjectOpens(s: string, p: nat)
    requires Has(s, p, '{')
    ensures Has(s, Blank(s, p + 1), '}') ==> ValueAt(s, p) == Ok(Object([]), Blank(s, p + 1) + 1)
    ensures !Has(s, Blank(s, p + 1), '}') ==> ValueAt(s, p) == MembersFrom(s, p + 1, [])
  {
    hide ItemsFrom, MembersFrom, StringAt, LiteralAt, IntegerAt, Blank;
    MembersAfterBlank(s, p + 1, []);
  }

  lemma {:induction false} ValueComplete(s: string, p: nat, f: Form)
    requires IsForm(f) && At(s, p, FormText(f)) && Ends(s, p + |FormText(f)|)
    ensures ValueAt(s, p) == Ok(Meaning(f), p + |FormText(f)|)
    decreases f, 3
  {
    hide ValueAt, IsForm, FormText, Meaning, At, Ends;
    match f
    case ArrayForm(_) => ArrayComplete(s, p, f);
    case ObjectForm(_) => ObjectComplete(s, p, f);
    case EmptyArray(_) => EmptyComplete(s, p, f);
    case EmptyObject(_) => EmptyComplete(s, p, f);
    case _ => LeafComplete(s, p, f);
  }

  lemma EmptyComplete(s: string, p: nat, f: Form)
    requires IsForm(f) && (f.EmptyArray? || f.EmptyObject?) && At(s, p, FormText(f))
    ensures ValueAt(s, p) == Ok(Meaning(f), p + |FormText(f)|)
  {
    hide ValueAt, Blank, At;
    var open, close := if f.EmptyArray? then '[' else '{', if f.EmptyArray? then ']' else '}';
    assert FormText(f) == [open] + (f.blank + [close]);
    AtSplit(s, p, [open], f.blank + [close]);
    AtHead(s, p, [open]);
    TokenFollows(s, p + 1, f.blank, close);
    if f.EmptyArray? { ArrayOpens(s, p); } else { ObjectOpens(s, p); }
  }

  lemma {:induction false} ArrayComplete(s: string, p: nat, f: Form)
    requires IsForm(f) && f.ArrayForm? && At(s, p, FormText(f))
    ensures ValueAt(s, p) == Ok(Meaning(f), p + |FormText(f)|)
    decreases f, 2
  {
    hide ValueAt, ItemsFrom, Blank, At, ListText, ListMeaning, IsItem;
    var items, rest := f.items, ListText(f.items) + "]";
    assert FormText(f) == "[" + rest;
    AtSplit(s, p, "[", rest);
    AtHead(s, p, "[");
    ItemsComplete(s, p + 1, items, []);
    assert [] + ListMeaning(items) == ListMeaning(items);
    ItemStarts(s, p + 1, items, "]");
    ArrayOpens(s, p);
  }

  /** After the blanks before the first item stands the item. */
  lemma ItemStarts(s: string, p: nat, items: seq<Item>, close: string)
    requires items != [] && (forall i :: 0 <= i < |items| ==> IsItem(items[i])) && At(s, p, ListText(items) + close)
    ensures Blank(s, p) == p + |items[0].before| && At(s, p + |items[0].before|, FormText(items[0].item)) && !Has(s, Blank(s, p), ']')
  {
    hide Blank, At, FormText, IsForm;
    var x := items[0];
    assert IsItem(x);
    var head := x.before + (FormText(x.item) + x.after);
    var tail := (if |items| == 1 then [] else "," + ListText(items[1..])) + close;
    assert ListText(items) + close == head + tail;
    AtSplit(s, p, head, tail);
    AtSplit(s, p, x.before, FormText(x.item) + x.after);
    AtSplit(s, p + |x.before|, FormText(x.item), x.after);
    FormHead(x.item);
    AtHead(s, p + |x.before|, FormText(x.item));
    SkipsBlanks(s, p, x.before);
  }

  lemma ItemsOn(s: string, p: nat, result: seq<JsonValue>, v: JsonValue, n: nat)
    requires p <= |s| && ValueAt(s, Blank(s, p)) == Ok(v, n)
    ensures Has(s, Blank(s, n), ']') ==> ItemsFrom(s, p, result) == Ok(Array(result + [v]), Blank(s, n) + 1)
    ensures Has(s, Blank(s, n), ',') ==> ItemsFrom(s, p, result) == ItemsFrom(s, Blank(s, n) + 1, result + [v])
  {
    hide ValueAt, Blank;
  }

  /** One item and the token after it, if the item is read as what it means. */
  lemma ItemTail(s: string, p: nat, items: seq<Item>)
    requires items != [] && (forall i :: 0 <= i < |items| ==> IsItem(items[i])) && At(s, p, ListText(items) + "]")
    ensures var x := items[0];
            var n := p + |x.before| + |FormText(x.item)|;
            && n <= |s| && Ends(s, n) && Blank(s, n) == n + |x.after|
            && Has(s, n + |x.after|, if |items| == 1 then ']' else ',')
            && (|items| > 1 ==> At(s, n + |x.after| + 1, ListText(items[1..]) + "]"))
            && |ListText(items)| == |x.before| + |FormText(x.item)| + |x.after| + (if |items| == 1 then 0 else 1 + |ListText(items[1..])|)
  {
    hide Blank, At, Ends, FormText, IsForm, Has;
    var x := items[0];
    assert IsItem(x);
    var head := x.before + FormText(x.item);
    if |items| == 1 {
      assert ListText(items) + "]" == head + (x.after + "]");
      AtSplit(s, p, head, x.after + "]");
      TokenFollows(s, p + |head|, x.after, ']');
    } else {
      var more := ListText(items[1..]) + "]";
      assert ListText(items) + "]" == head + (x.after + "," + more);
      AtSplit(s, p, head, x.after + "," + more);
      AtSplit(s, p + |head|, x.after + ",", more);
      TokenFollows(s, p + |head|, x.after, ',');
    }
  }

  lemma ListMeaningOn(items: seq<Item>)
    requires items != [] && forall i :: 0 <= i < |items| ==> IsItem(items[i])
    ensures IsForm(items[0].item)
    ensures ListMeaning(items) == [Meaning(items[0].item)] + ListMeaning(items[1..])
    ensures |items| == 1 ==> ListMeaning(items) == [Meaning(items[0].item)]
  {
    hide Meaning, IsForm;
    assert IsItem(items[0]);
  }

  lemma {:induction false} ItemsComplete(s: string, p: nat, items: seq<Item>, result: seq<JsonValue>)
    requires items != [] && (forall i :: 0 <= i < |items| ==> IsItem(items[i])) && At(s, p, ListText(items) + "]")
    ensures ItemsFrom(s, p, result) == Ok(Array(result + ListMeaning(items)), p + |ListText(items)| + 1)
    decreases items, 1
  {
    hide ValueAt, ItemsFrom, Blank, At, Ends, ListText, ListMeaning, FormText, IsForm, IsItem, Meaning;
    ListMeaningOn(items);
    var x := items[0];
    var v, n := Meaning(x.item), p + |x.before| + |FormText(x.item)|;
    ItemStarts(s, p, items, "]");
    ItemTail(s, p, items);
    ValueComplete(s, p + |x.before|, x.item);
    ItemsOn(s, p, result, v, n);
    if |items| > 1 {
      ItemsComplete(s, n + |x.after| + 1, items[1..], result + [v]);
      assert result + ListMeaning(items) == result + [v] + ListMeaning(items[1..]);
    }
  }

  //
  // Objects
  //

  function KeyText(m: Member): string
    requires ArePieces(m.key)
  {
    "\"" + PiecesText(m.key) + "\""
  }

  /** Where the parts of a name stand. */
  lemma NameParts(s: string, p: nat, m: Member, value: string)
    requires ArePieces(m.key) && At(s, p, NameText(m) + value)
    ensures var k := p + |m.before|;
            var c := k + |KeyText(m)|;
            && At(s, p, m.before) && At(s, k, KeyText(m)) && At(s, c, m.colon + ":")
            && At(s, c + |m.colon| + 1, m.gap) && At(s, p + |NameText(m)|, value)
            && |NameText(m)| == |m.before| + |KeyText(m)| + |m.colon| + 1 + |m.gap|
  {
    hide At, PiecesText;
    var k := p + |m.before|;
    var c := k + |KeyText(m)|;
    var rest := m.gap + value;
    assert NameText(m) + value == m.before + (KeyText(m) + (m.colon + ":" + rest));
    AtSplit(s, p, m.before, KeyText(m) + (m.colon + ":" + rest));
    AtSplit(s, k, KeyText(m), m.colon + ":" + rest);
    AtSplit(s, c, m.colon + ":", rest);
    AtSplit(s, c + |m.colon| + 1, m.gap, value);
  }

  lemma NameComplete(s: string, p: nat, m: Member)
    requires IsMember(m) && At(s, p, NameText(m) + FormText(m.value))
    ensures KeyAt(s, p) == Ok(PiecesBytes(m.key), p + |NameText(m)|) && At(s, p + |NameText(m)|, FormText(m.value))
    ensures !Has(s, Blank(s, p), '}')
  {
    hide Blank, At, FormText, IsForm, StringAt, PiecesText, PiecesBytes, NameText;
    var k := p + |m.before|;
    var c := k + |KeyText(m)|;
    NameParts(s, p, m, FormText(m.value));
    StringComplete(s, k, m.key);
    SkipsBlanks(s, p, m.before);
    TokenFollows(s, c, m.colon, ':');
    FormHead(m.value);
    AtHead(s, p + |NameText(m)|, FormText(m.value));
    SkipsBlanks(s, c + |m.colon| + 1, m.gap);
  }

  /** One member and the token after it. */
  lemma MemberTail(s: string, p: nat, ms: seq<Member>)
    requires ms != [] && (forall i :: 0 <= i < |ms| ==> IsMember(ms[i])) && At(s, p, RecordText(ms) + "}")
    ensures var m := ms[0];
            var n := p + |NameText(m)| + |FormText(m.value)|;
            && At(s, p, NameText(m) + FormText(m.value))
            && n <= |s| && Ends(s, n) && Blank(s, n) == n + |m.after|
            && Has(s, n + |m.after|, if |ms| == 1 then '}' else ',')
            && (|ms| > 1 ==> At(s, n + |m.after| + 1, RecordText(ms[1..]) + "}"))
            && |RecordText(ms)| == |NameText(m)| + |FormText(m.value)| + |m.after| + (if |ms| == 1 then 0 else 1 + |RecordText(ms[1..])|)
  {
    hide Blank, At, Ends, FormText, IsForm, Has, NameText;
    var m := ms[0];
    assert IsMember(m);
    var head := NameText(m) + FormText(m.value);
    if |ms| == 1 {
      assert RecordText(ms) + "}" == head + (m.after + "}");
      AtSplit(s, p, head, m.after + "}");
      TokenFollows(s, p + |head|, m.after, '}');
    } else {
      var more := RecordText(ms[1..]) + "}";
      assert RecordText(ms) + "}" == head + (m.after + "," + more);
      AtSplit(s, p, head, m.after + "," + more);
      AtSplit(s, p + |head|, m.after + ",", more);
      TokenFollows(s, p + |head|, m.after, ',');
    }
  }

  lemma MembersOn(s: string, p: nat, known: seq<Entry<JsonValue>>, key: string, a: nat, v: JsonValue, n: nat)
    requires p <= |s| && KeyAt(s, p) == Ok(key, a) && ValueAt(s, a) == Ok(v, n) && Find(known, key).None?
    ensures Has(s, Blank(s, n), '}') ==> MembersFrom(s, p, known) == Ok(Object(Emplace(known, key, v)), Blank(s, n) + 1)
    ensures Has(s, Blank(s, n), ',') ==> MembersFrom(s, p, known) == MembersFrom(s, Blank(s, n) + 1, Emplace(known, key, v))
  {
    hide ValueAt, Blank, KeyAt, Find, Emplace;
  }

  /** None of the names is known yet. */
  ghost predicate Fresh(known: seq<Entry<JsonValue>>, ms: seq<Member>)
    requires forall i :: 0 <= i < |ms| ==> IsMember(ms[i])
  {
    Sorted(known) && DistinctNames(ms) && forall i :: 0 <= i < |ms| && ArePieces(ms[i].key) ==> Find(known, PiecesBytes(ms[i].key)).None?
  }

  lemma FreshOn(known: seq<Entry<JsonValue>>, ms: seq<Member>, v: JsonValue)
    requires ms != [] && (forall i :: 0 <= i < |ms| ==> IsMember(ms[i])) && Fresh(known, ms)
    ensures Fresh(Emplace(known, PiecesBytes(ms[0].key), v), ms[1..])
  {
    hide Find, Emplace, PiecesBytes, Less, IsForm;
    var key := PiecesBytes(ms[0].key);
    EmplaceSorted(known, key, v);
    var rest := ms[1..];
    forall i | 0 <= i < |rest|
      ensures Find(Emplace(known, key, v), PiecesBytes(rest[i].key)).None?
    {
      assert rest[i] == ms[i + 1];
      EmplaceFind(known, key, v, PiecesBytes(rest[i].key));
    }
  }

  lemma {:induction false} MembersComplete(s: string, p: nat, ms: seq<Member>, known: seq<Entry<JsonValue>>)
    requires ms != [] && (forall i :: 0 <= i < |ms| ==> IsMember(ms[i])) && At(s, p, RecordText(ms) + "}")
    requires Fresh(known, ms)
    ensures MembersFrom(s, p, known) == Ok(Object(RecordMeaning(known, ms)), p + |RecordText(ms)| + 1)
    ensures !Has(s, Blank(s, p), '}')
    decreases ms, 1
  {
    hide ValueAt, MembersFrom, Blank, At, Ends, RecordText, FormText, IsForm, Meaning, NameText, KeyAt, PiecesBytes, Find, Emplace, Less;
    var m := ms[0];
    assert IsMember(m);
    var key, v, n := PiecesBytes(m.key), Meaning(m.value), p + |NameText(m)| + |FormText(m.value)|;
    MemberTail(s, p, ms);
    NameComplete(s, p, m);
    ValueComplete(s, p + |NameText(m)|, m.value);
    MembersOn(s, p, known, key, p + |NameText(m)|, v, n);
    if |ms| > 1 {
      FreshOn(known, ms, v);
      MembersComplete(s, n + |m.after| + 1, ms[1..], Emplace(known, key, v));
    }
  }

  lemma {:induction false} ObjectComplete(s: string, p: nat, f: Form)
    requires IsForm(f) && f.ObjectForm? && At(s, p, FormText(f))
    ensures ValueAt(s, p) == Ok(Meaning(f), p + |FormText(f)|)
    decreases f, 2
  {
    hide ValueAt, MembersFrom, Blank, At, RecordText, RecordMeaning, IsMember, PiecesBytes, Less;
    var ms, rest := f.members, RecordText(f.members) + "}";
    assert FormText(f) == "{" + rest;
    AtSplit(s, p, "{", rest);
    AtHead(s, p, "{");
    MembersComplete(s, p + 1, ms, []);
    ObjectOpens(s, p);
  }

  /** Every written form of a value, with blanks around it, is read as that value. */
  lemma FormsAreRead(before: string, f: Form, after: string)
    requires AllBlank(before) && IsForm(f) && AllBlank(after)
    ensures ParseText(before + FormText(f) + after) == Value(Meaning(f))
  {
    hide ValueAt, Blank, FormText, IsForm, Meaning;
    var s, p := before + FormText(f) + after, |before|;
    var n := p + |FormText(f)|;
    assert At(s, 0, before) && At(s, p, FormText(f)) && At(s, n, after);
    FormHead(f);
    SkipsBlanks(s, 0, before);
    SkipsBlanks(s, n, after);
    if after != [] { AtHead(s, n, after); }
    ValueComplete(s, p, f);
  }
}
