/**
 Parsing and canonical encoding are inverse (native_runtime/cpp/json_value.cc).
 */
module JsonRoundTrip {
  import opened Primitives
  import opened SortedMap
  import opened Json
  import opened JsonParser

  /** The text `t` stands in `s` at position `p`. */
  ghost predicate At(s: string, p: nat, t: string)
  {
    p + |t| <= |s| && s[p..p + |t|] == t
  }

  lemma AtSplit(s: string, p: nat, a: string, b: string)
    requires At(s, p, a + b)
    ensures At(s, p, a) && At(s, p + |a|, b)
  {
    assert s[p..p + |a|] == s[p..p + |a + b|][..|a|];
    assert s[p + |a|..p + |a| + |b|] == s[p..p + |a + b|][|a|..];
  }

  lemma AtHead(s: string, p: nat, t: string)
    requires At(s, p, t) && t != []
    ensures Has(s, p, t[0])
  {
    assert s[p] == s[p..p + |t|][0];
  }

  /** A number ends at `p` if nothing there could continue or qualify it. */
  predicate Ends(s: string, p: nat)
  {
    p < |s| ==> !IsDigit(s[p]) && s[p] !in {'.', 'e', 'E'}
  }

  //
  // Numbers
  //

  lemma {:induction false} DigitRunAt(s: string, p: nat, t: string)
    requires At(s, p, t) && AllDigits(t)
    requires p + |t| < |s| ==> !IsDigit(s[p + |t|])
    ensures DigitRun(s, p) == p + |t|
    decreases |t|
  {
    if t != [] {
      AtHead(s, p, t);
      assert t == [t[0]] + t[1..];
      AtSplit(s, p, [t[0]], t[1..]);
      DigitRunAt(s, p + 1, t[1..]);
    }
  }

  lemma IntegerRoundTrip(s: string, p: nat, n: int)
    requires INT64_MIN <= n <= INT64_MAX
    requires At(s, p, IntText(n)) && Ends(s, p + |IntText(n)|)
    ensures IntegerAt(s, p) == Ok(Integer(n), p + |IntText(n)|)
  {
    hide NatText, IntegerAt, At, Ends;
    if n < 0 {
      NegativeRoundTrip(s, p, n);
    } else {
      DigitsRoundTrip(s, p, n);
      SignedDigits(s, p, false, n);
    }
  }

  lemma NegativeRoundTrip(s: string, p: nat, n: int)
    requires INT64_MIN <= n < 0
    requires At(s, p, "-" + NatText(-n)) && Ends(s, p + 1 + |NatText(-n)|)
    ensures IntegerAt(s, p) == Ok(Integer(n), p + 1 + |NatText(-n)|)
  {
    hide NatText, IntegerAt, At, Ends;
    AtSplit(s, p, "-", NatText(-n));
    AtHead(s, p, "-");
    DigitsRoundTrip(s, p + 1, -n);
    SignedDigits(s, p, true, -n);
  }

  function Signed(negative: bool, magnitude: nat): int { var n: int := magnitude; if negative then -n else n }

  /** The parser on an optional sign and digits that end. */
  lemma SignedDigits(s: string, p: nat, negative: bool, magnitude: nat)
    requires p < |s| && Has(s, p, '-') == negative
    requires var d := if negative then p + 1 else p;
             DigitsFound(s, d, magnitude) && Ends(s, d + |NatText(magnitude)|)
    requires INT64_MIN <= Signed(negative, magnitude) <= INT64_MAX
    ensures IntegerAt(s, p) ==
            Ok(Integer(Signed(negative, magnitude)), (if negative then p + 1 else p) + |NatText(magnitude)|)
  {
    hide NatText, DigitRun, DigitsValue;
  }

  /** What the digits of a number at `d` are to the parser. */
  ghost predicate DigitsFound(s: string, d: nat, magnitude: nat)
  {
    var q := d + |NatText(magnitude)|;
    && q <= |s| && d < |s| && IsDigit(s[d]) && (q > d + 1 ==> s[d] != '0')
    && DigitRun(s, d) == q && s[d..q] == NatText(magnitude) && DigitsValue(s[d..q]) == magnitude
  }

  lemma DigitsRoundTrip(s: string, d: nat, magnitude: nat)
    requires At(s, d, NatText(magnitude)) && Ends(s, d + |NatText(magnitude)|)
    ensures DigitsFound(s, d, magnitude)
  {
    hide NatText, DigitRun, DigitsValue;
    var digits := NatText(magnitude);
    AtHead(s, d, digits);
    NatTextValue(magnitude);
    DigitRunAt(s, d, digits);
    assert s[d..d + |digits|] == digits;
  }

  //
  // Strings
  //

  lemma AtIndex(s: string, p: nat, t: string)
    requires At(s, p, t)
    ensures p + |t| <= |s| && forall i :: 0 <= i < |t| ==> t[i] == s[p + i]
  {
    forall i | 0 <= i < |t|
      ensures t[i] == s[p + i]
    {
      assert s[p..p + |t|][i] == s[p + i];
    }
  }

  lemma EscapeAt(s: string, p: nat, c: char, result: string)
    requires At(s, p, Escape(c))
    ensures StringFrom(s, p, result) == StringFrom(s, p + |Escape(c)|, result + [c])
  {
    hide At;
    var e := Escape(c);
    AtIndex(s, p, e);
    if |e| == 6 { UnicodeEscapeAt(s, p, c, result); }
    else { assert e[0] == s[p] && (|e| == 2 ==> e[1] == s[p + 1]); }
  }

  lemma HexDigitValue(d: nat)
    requires d < 16
    ensures HexValue(HexDigit(d)) == Some(d)
  {
  }

  /** The `\u00xx` form that EncodeString uses for the other control bytes. */
  lemma UnicodeEscapeAt(s: string, p: nat, c: char, result: string)
    requires |Escape(c)| == 6 && p + 6 <= |s|
    requires forall i :: 0 <= i < 6 ==> s[p + i] == Escape(c)[i]
    ensures StringFrom(s, p, result) == StringFrom(s, p + 6, result + [c])
  {
    hide HexDigit, ScalarAt;
    var v := c as int;
    var e := Escape(c);
    assert e == "\\u00" + [HexDigit(v / 16), HexDigit(v % 16)];
    assert s[p] == e[0] && s[p + 1] == e[1] && s[p + 2] == e[2];
    assert s[p + 3] == e[3] && s[p + 4] == e[4] && s[p + 5] == e[5];
    HexEscapeAt(s, p + 2, v);
    assert CodePointBytes(v) == [c];
  }

  lemma HexEscapeAt(s: string, p: nat, v: nat)
    requires v < 32 && p + 4 <= |s|
    requires s[p] == s[p + 1] == '0'
    requires s[p + 2] == HexDigit(v / 16) && s[p + 3] == HexDigit(v % 16)
    ensures ScalarAt(s, p) == Ok(v, p + 4)
  {
    HexDigitValue(v / 16);
    HexDigitValue(v % 16);
    assert HexDigitsAt(s, p + 4, 0, v) == Ok(v, p + 4);
    assert HexDigitsAt(s, p + 3, 1, v / 16) == Ok(v, p + 4);
    assert HexDigitsAt(s, p + 2, 2, 0) == Ok(v, p + 4);
    assert HexDigitsAt(s, p + 1, 3, 0) == Ok(v, p + 4);
    assert HexDigitsAt(s, p, 4, 0) == Ok(v, p + 4);
  }

  lemma StringFromEnd(s: string, p: nat, result: string)
    requires At(s, p, "\"")
    ensures StringFrom(s, p, result) == Ok(result, p + 1)
  {
    AtHead(s, p, "\"");
  }

  lemma {:induction false} StringFromAt(s: string, p: nat, t: string, result: string)
    requires At(s, p, EscapeAll(t) + "\"")
    ensures StringFrom(s, p, result) == Ok(result + t, p + |EscapeAll(t)| + 1)
    decreases |t|
  {
    hide StringFrom, Escape;
    if t == [] {
      assert EscapeAll(t) + "\"" == "\"" && result + t == result;
      StringFromEnd(s, p, result);
    } else {
      var e, rest := Escape(t[0]), EscapeAll(t[1..]);
      assert EscapeAll(t) == e + rest;
      assert EscapeAll(t) + "\"" == e + (rest + "\"");
      AtSplit(s, p, e, rest + "\"");
      EscapeAt(s, p, t[0], result);
      StringFromAt(s, p + |e|, t[1..], result + [t[0]]);
      assert result + t == result + [t[0]] + t[1..];
    }
  }

  lemma StringRoundTrip(s: string, p: nat, t: string)
    requires At(s, p, QuotedText(t))
    ensures StringAt(s, p) == Ok(t, p + |QuotedText(t)|)
  {
    hide StringFrom, EscapeAll;
    assert QuotedText(t) == "\"" + (EscapeAll(t) + "\"");
    AtSplit(s, p, "\"", EscapeAll(t) + "\"");
    AtHead(s, p, "\"");
    StringFromAt(s, p + 1, t, []);
    assert [] + t == t;
  }

  //
  // Values
  //

  /** No value starts with a blank or a closing bracket. */
  lemma EncodeHead(v: JsonValue)
    ensures EncodeText(v) != [] && !IsSpace(EncodeText(v)[0]) && EncodeText(v)[0] != ']'
  {
    if v.Integer? { NatTextValue(if v.integer < 0 then -v.integer else v.integer); }
  }

  lemma NoBlank(s: string, p: nat)
    requires p < |s| && !IsSpace(s[p])
    ensures Blank(s, p) == p
  {
  }

  /** A closing bracket or a comma ends every number and is no blank. */
  lemma PunctuationEnds(s: string, p: nat)
    requires Has(s, p, ',') || Has(s, p, ']') || Has(s, p, '}')
    ensures Ends(s, p) && Blank(s, p) == p
  {
  }

  lemma LiteralRoundTrip(s: string, p: nat, literal: string, v: JsonValue)
    requires At(s, p, literal)
    ensures LiteralAt(s, p, literal, v) == Ok(v, p + |literal|)
  {
    assert s[p..][..|literal|] == literal;
  }

  /** The values that are not containers. */
  lemma LeafRoundTrip(s: string, p: nat, v: JsonValue)
    requires Valid(v) && !v.Array? && !v.Object?
    requires At(s, p, EncodeText(v)) && Ends(s, p + |EncodeText(v)|)
    ensures ValueAt(s, p) == Ok(v, p + |EncodeText(v)|)
  {
    hide ItemsFrom, MembersFrom, StringAt, Blank, LiteralAt, QuotedText, IntegerAt;
    EncodeHead(v);
    AtHead(s, p, EncodeText(v));
    match v
    case Null => LiteralRoundTrip(s, p, "null", v);
    case Boolean(b) => LiteralRoundTrip(s, p, if b then "true" else "false", v);
    case Integer(n) =>
      NatTextValue(if n < 0 then -n else n);
      IntegerRoundTrip(s, p, n);
    case String(t) => 
      QuotedHead(t);
      StringRoundTrip(s, p, t);
  }

  lemma QuotedHead(t: string)
    ensures QuotedText(t) != [] && QuotedText(t)[0] == '"'
  {
  }

  lemma ArrayStart(s: string, p: nat)
    requires Has(s, p, '[') && p + 1 < |s| && !IsSpace(s[p + 1])
    ensures s[p + 1] == ']' ==> ValueAt(s, p) == Ok(Array([]), p + 2)
    ensures s[p + 1] != ']' ==> ValueAt(s, p) == ItemsFrom(s, p + 1, [])
  {
    hide ItemsFrom, MembersFrom, StringAt, LiteralAt, IntegerAt;
  }

  lemma ObjectStart(s: string, p: nat)
    requires Has(s, p, '{') && p + 1 < |s| && !IsSpace(s[p + 1])
    ensures s[p + 1] == '}' ==> ValueAt(s, p) == Ok(Object([]), p + 2)
    ensures s[p + 1] != '}' ==> ValueAt(s, p) == MembersFrom(s, p + 1, [])
  {
    hide ItemsFrom, MembersFrom, StringAt, LiteralAt, IntegerAt;
  }

  lemma {:induction false} ValueRoundTrip(s: string, p: nat, v: JsonValue)
    requires Valid(v)
    requires At(s, p, EncodeText(v)) && Ends(s, p + |EncodeText(v)|)
    ensures ValueAt(s, p) == Ok(v, p + |EncodeText(v)|)
    decreases v, 3
  {
    hide ValueAt, EncodeText, At, Ends;
    match v
    case Array(_) => ArrayRoundTrip(s, p, v);
    case Object(_) => ObjectRoundTrip(s, p, v);
    case _ => LeafRoundTrip(s, p, v);
  }

  lemma {:induction false} ArrayRoundTrip(s: string, p: nat, v: JsonValue)
    requires Valid(v) && v.Array?
    requires At(s, p, EncodeText(v)) && Ends(s, p + |EncodeText(v)|)
    ensures ValueAt(s, p) == Ok(v, p + |EncodeText(v)|)
    decreases v, 2
  {
    hide ValueAt, ItemsFrom, MembersFrom, ItemsRest, MembersRest, QuotedText, At, Ends, Blank, IntText;
    var items, rest := v.items, ItemsText(v.items) + "]";
    assert EncodeText(v) == "[" + rest;
    AtSplit(s, p, "[", rest);
    AtHead(s, p, "[");
    AtHead(s, p + 1, rest);
    if items != [] {
      EncodeHead(items[0]);
      ItemsRoundTrip(s, p + 1, items, []);
      assert [] + items == items;
    }
    ArrayStart(s, p);
  }

  lemma {:induction false} ObjectRoundTrip(s: string, p: nat, v: JsonValue)
    requires Valid(v) && v.Object?
    requires At(s, p, EncodeText(v)) && Ends(s, p + |EncodeText(v)|)
    ensures ValueAt(s, p) == Ok(v, p + |EncodeText(v)|)
    decreases v, 2
  {
    hide ValueAt, ItemsFrom, MembersFrom, ItemsRest, MembersRest, QuotedText, At, Ends, Blank, IntText;
    var members, rest := v.members, MembersText(v.members) + "}";
    assert EncodeText(v) == "{" + rest;
    AtSplit(s, p, "{", rest);
    AtHead(s, p, "{");
    AtHead(s, p + 1, rest);
    if members != [] {
      QuotedHead(members[0].key);
      assert [] + members == members;
      MembersRoundTrip(s, p + 1, members, []);
    }
    ObjectStart(s, p);
  }

  lemma ItemsStep(s: string, p: nat, result: seq<JsonValue>, v: JsonValue, n: nat)
    requires p < |s| && !IsSpace(s[p]) && ValueAt(s, p) == Ok(v, n)
    ensures Has(s, n, ']') ==> ItemsFrom(s, p, result) == Ok(Array(result + [v]), n + 1)
    ensures Has(s, n, ',') ==> ItemsFrom(s, p, result) == ItemsFrom(s, n + 1, result + [v])
  {
    hide ValueAt;
    NoBlank(s, p);
  }

  lemma {:induction false} ItemsRoundTrip(s: string, p: nat, items: seq<JsonValue>, result: seq<JsonValue>)
    requires items != [] && forall i :: 0 <= i < |items| ==> Valid(items[i])
    requires At(s, p, ItemsText(items) + "]")
    ensures ItemsFrom(s, p, result) == Ok(Array(result + items), p + |ItemsText(items)| + 1)
    decreases items, 1
  {
    hide ValueAt, EncodeText, Valid, IsSpace, ItemsFrom, At, Ends, Blank;
    var head, rest := EncodeText(items[0]), ItemsRest(items[1..]) + "]";
    assert ItemsText(items) + "]" == head + rest;
    AtSplit(s, p, head, rest);
    EncodeHead(items[0]);
    AtHead(s, p, head);
    AtHead(s, p + |head|, rest);
    PunctuationEnds(s, p + |head|);
    ValueRoundTrip(s, p, items[0]);
    ItemsStep(s, p, result, items[0], p + |head|);
    if |items| == 1 {
      assert result + items == result + [items[0]];
    } else {
      var tail := items[1..];
      assert rest == "," + (ItemsText(tail) + "]");
      AtSplit(s, p + |head|, ",", ItemsText(tail) + "]");
      ItemsRoundTrip(s, p + |head| + 1, tail, result + [items[0]]);
      assert result + items == result + [items[0]] + tail;
    }
  }

  lemma KeyRoundTrip(s: string, p: nat, key: string, v: JsonValue)
    requires At(s, p, QuotedText(key) + ":" + EncodeText(v))
    ensures KeyAt(s, p) == Ok(key, p + |QuotedText(key)| + 1)
    ensures At(s, p + |QuotedText(key)| + 1, EncodeText(v))
  {
    hide StringAt, EncodeText, QuotedText, Blank;
    var k := |QuotedText(key)|;
    AtSplit(s, p, QuotedText(key) + ":", EncodeText(v));
    AtSplit(s, p, QuotedText(key), ":");
    QuotedHead(key);
    AtHead(s, p, QuotedText(key));
    AtHead(s, p + k, ":");
    StringRoundTrip(s, p, key);
    EncodeHead(v);
    AtHead(s, p + k + 1, EncodeText(v));
    NoBlank(s, p);
    NoBlank(s, p + k);
    NoBlank(s, p + k + 1);
  }

  lemma MembersStep(s: string, p: nat, result: seq<Entry<JsonValue>>, key: string, a: nat, v: JsonValue, n: nat)
    requires p <= |s| && KeyAt(s, p) == Ok(key, a) && ValueAt(s, a) == Ok(v, n)
    requires forall i :: 0 <= i < |result| ==> Less(result[i].key, key)
    ensures Has(s, n, '}') ==> MembersFrom(s, p, result) == Ok(Object(result + [Entry(key, v)]), n + 1)
    ensures Has(s, n, ',') ==> MembersFrom(s, p, result) == MembersFrom(s, n + 1, result + [Entry(key, v)])
  {
    hide ValueAt, KeyAt, Less, Find, Emplace;
    EmplaceLast(result, key, v);
  }

  lemma {:induction false} MembersRoundTrip(
    s: string, p: nat, members: seq<Entry<JsonValue>>, result: seq<Entry<JsonValue>>)
    requires members != [] && Sorted(result + members)
    requires forall i :: 0 <= i < |members| ==> Valid(members[i].value)
    requires At(s, p, MembersText(members) + "}")
    ensures MembersFrom(s, p, result) == Ok(Object(result + members), p + |MembersText(members)| + 1)
    decreases members, 1
  {
    hide ValueAt, EncodeText, Valid, KeyAt, QuotedText, Less, MembersFrom, At, Ends, Blank;
    var m := members[0];
    var head, rest := MemberText(m), MembersRest(members[1..]) + "}";
    assert MembersText(members) + "}" == head + rest;
    AtSplit(s, p, head, rest);
    KeyRoundTrip(s, p, m.key, m.value);
    AtHead(s, p + |head|, rest);
    PunctuationEnds(s, p + |head|);
    ValueRoundTrip(s, p + |QuotedText(m.key)| + 1, m.value);
    assert forall i :: 0 <= i < |result| ==> (result + members)[i] == result[i];
    assert (result + members)[|result|] == m;
    MembersStep(s, p, result, m.key, p + |QuotedText(m.key)| + 1, m.value, p + |head|);
    assert m == Entry(m.key, m.value);
    if |members| == 1 {
      assert result + members == result + [m];
    } else {
      var tail := members[1..];
      assert rest == "," + (MembersText(tail) + "}");
      AtSplit(s, p + |head|, ",", MembersText(tail) + "}");
      assert result + members == result + [m] + tail;
      MembersRoundTrip(s, p + |head| + 1, tail, result + [m]);
    }
  }

  //
  // The main theorems
  //

  /** Parsing the canonical text of any value returns that value and uses up the text. */
  lemma ParseInvertsEncode(v: JsonValue)
    requires Valid(v)
    ensures ParseText(EncodeText(v)) == Value(v)
  {
    hide ValueAt, EncodeText, Valid;
    var s := EncodeText(v);
    EncodeHead(v);
    assert At(s, 0, s);
    ValueRoundTrip(s, 0, v);
  }

  /** Distinct values have distinct canonical texts. */
  lemma EncodeInjective(v: JsonValue, w: JsonValue)
    requires Valid(v) && Valid(w) && EncodeText(v) == EncodeText(w)
    ensures v == w
  {
    ParseInvertsEncode(v);
    ParseInvertsEncode(w);
  }

  /** One pass of parse and encode reaches a text that further passes leave alone. */
  lemma CanonicalFixedPoint(s: string)
    requires ParseText(s).Value?
    ensures var canonical := EncodeText(ParseText(s).value);
            ParseText(canonical) == ParseText(s)
  {
    ParseTextValid(s);
    ParseInvertsEncode(ParseText(s).value);
  }
}
