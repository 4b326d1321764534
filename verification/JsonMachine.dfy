/**
 The parser and encoder of native_runtime/cpp/json_value.cc as they run: a
 parser object that advances `position`, and an encoder that appends to one
 output stream.  Both are proved against the functions of JsonParser and Json.
 */
module JsonMachine {
  import opened Primitives
  import opened SortedMap
  import opened Json
  import opened JsonParser

  /** The outcome `r` and the position `now` are those that the grammar gives. */
  ghost predicate Follows<T>(r: Parsed<T>, now: nat, step: Step<T>)
  {
    match step
    case Ok(v, n) => r == Value(v) && now == n
    case Err(e) => r == Threw(e)
  }

  class Parser {
    const input: string
    var position: nat

    constructor (input: string)
      ensures this.input == input && position == 0
    {
      this.input := input;
      position := 0;
    }

    ghost predicate Within() reads this { position <= |input| }

    method Parse() returns (r: Parsed<JsonValue>)
      requires position == 0
      modifies this
      ensures r == ParseText(input)
    {
      SkipWhitespace();
      r := ParseValue();
      if r.Value? {
        SkipWhitespace();
        if position != |input| { r := Threw(TrailingData); }
      }
    }

    method SkipWhitespace()
      requires Within()
      modifies this
      ensures Within() && position == Blank(input, old(position))
    {
      while position < |input| && IsSpace(input[position])
        invariant Within() && Blank(input, position) == Blank(input, old(position))
      {
        position := position + 1;
      }
    }

    method ConsumeIf(c: char) returns (found: bool)
      requires Within()
      modifies this
      ensures Within() && found == Has(input, old(position), c)
      ensures position == if found then old(position) + 1 else old(position)
    {
      found := position < |input| && input[position] == c;
      if found { position := position + 1; }
    }

    method ConsumeLiteral(literal: string, v: JsonValue) returns (r: Parsed<JsonValue>)
      requires Within()
      modifies this
      ensures Within() && Follows(r, position, LiteralAt(input, old(position), literal, v))
    {
      if literal <= input[position..] {
        position := position + |literal|;
        r := Value(v);
      } else {
        r := Threw(InvalidLiteral);
      }
    }

    method ParseValue() returns (r: Parsed<JsonValue>)
      requires Within()
      modifies this
      ensures Within() && Follows(r, position, ValueAt(input, old(position)))
      decreases |input| - position, 1
    {
      hide ItemsFrom, MembersFrom, StringFrom, IntegerAt, LiteralAt;
      if position >= |input| { return Threw(EndOfInput); }
      match input[position]
      case 'n' => r := ConsumeLiteral("null", Null);
      case 't' => r := ConsumeLiteral("true", Boolean(true));
      case 'f' => r := ConsumeLiteral("false", Boolean(false));
      case '"' =>
        var t := ParseString();
        r := if t.Value? then Value(String(t.value)) else Threw(t.error);
      case '[' => r := ParseArray();
      case '{' => r := ParseObject();
      case _ => r := ParseInteger();
    }

    method ParseArray() returns (r: Parsed<JsonValue>)
      requires Has(input, position, '[')
      modifies this
      ensures Within() && Follows(r, position, ValueAt(input, old(position)))
      decreases |input| - position, 0
    {
      hide MembersFrom, StringFrom, IntegerAt, LiteralAt;
      position := position + 1;
      SkipWhitespace();
      var result: seq<JsonValue> := [];
      var closed := ConsumeIf(']');
      if closed { return Value(Array(result)); }
      ghost var start := position;
      assert ValueAt(input, old(position)) == ItemsFrom(input, start, []);
      while true
        invariant Within() && start <= position
        invariant ItemsFrom(input, position, result) == ItemsFrom(input, start, [])
        decreases |input| - position
      {
        hide ValueAt, Blank;
        SkipWhitespace();
        var v := ParseValue();
        if v.Threw? { return Threw(v.error); }
        result := result + [v.value];
        SkipWhitespace();
        closed := ConsumeIf(']');
        if closed { return Value(Array(result)); }
        var comma := ConsumeIf(',');
        if !comma { return Threw(ExpectedToken(',')); }
      }
    }

    method ParseKey() returns (r: Parsed<string>)
      requires Within()
      modifies this
      ensures Within() && Follows(r, position, KeyAt(input, old(position)))
    {
      hide Blank, StringFrom;
      SkipWhitespace();
      if position >= |input| || input[position] != '"' { return Threw(KeyNotString); }
      r := ParseString();
      if r.Threw? { return; }
      SkipWhitespace();
      var colon := ConsumeIf(':');
      if !colon { return Threw(ExpectedToken(':')); }
      SkipWhitespace();
    }

    method ParseObject() returns (r: Parsed<JsonValue>)
      requires Has(input, position, '{')
      modifies this
      ensures Within() && Follows(r, position, ValueAt(input, old(position)))
      decreases |input| - position, 0
    {
      hide ItemsFrom, StringFrom, IntegerAt, LiteralAt, Find, Emplace, KeyAt;
      position := position + 1;
      SkipWhitespace();
      var result: seq<Entry<JsonValue>> := [];
      var closed := ConsumeIf('}');
      if closed { return Value(Object(result)); }
      ghost var start := position;
      assert ValueAt(input, old(position)) == MembersFrom(input, start, []);
      while true
        invariant Within() && start <= position
        invariant MembersFrom(input, position, result) == MembersFrom(input, start, [])
        decreases |input| - position
      {
        hide ValueAt, Blank, KeyAt;
        var key := ParseKey();
        if key.Threw? { return Threw(key.error); }
        var v := ParseValue();
        if v.Threw? { return Threw(v.error); }
        if Find(result, key.value).Some? { return Threw(DuplicateKey(key.value)); }
        result := Emplace(result, key.value, v.value);
        SkipWhitespace();
        closed := ConsumeIf('}');
        if closed { return Value(Object(result)); }
        var comma := ConsumeIf(',');
        if !comma { return Threw(ExpectedToken(',')); }
      }
    }

    method ParseInteger() returns (r: Parsed<JsonValue>)
      requires Within()
      modifies this
      ensures Within() && Follows(r, position, IntegerAt(input, old(position)))
    {
      hide DigitsValue;
      var negative := ConsumeIf('-');
      if position >= |input| { return Threw(InvalidNumber); }
      var first := position;
      if input[position] == '0' {
        position := position + 1;
      } else {
        if !IsDigit(input[position]) { return Threw(InvalidValue); }
        while position < |input| && IsDigit(input[position])
          invariant Within() && first <= position
          invariant DigitRun(input, position) == DigitRun(input, first)
        {
          position := position + 1;
        }
      }
      if position < |input| && input[position] in {'.', 'e', 'E'} { return Threw(NotInteger); }
      var magnitude: int := DigitsValue(input[first..position]);
      var n := if negative then -magnitude else magnitude;
      if n < INT64_MIN || n > INT64_MAX { return Threw(OutOfRange); }
      r := Value(Integer(n));
    }

    method ParseString() returns (r: Parsed<string>)
      requires Within()
      modifies this
      ensures Within() && Follows(r, position, StringAt(input, old(position)))
    {
      hide ScalarAt, CodePointBytes;
      var quote := ConsumeIf('"');
      if !quote { return Threw(ExpectedToken('"')); }
      var result: string := [];
      ghost var start := position;
      while position < |input|
        invariant Within() && start <= position
        invariant StringFrom(input, position, result) == StringFrom(input, start, [])
        decreases |input| - position
      {
        var byte := input[position];
        position := position + 1;
        if byte == '"' { return Value(result); }
        if byte as int < 0x20 { return Threw(ControlByte); }
        if byte != '\\' {
          result := result + [byte];
        } else if position >= |input| {
          return Threw(IncompleteEscape);
        } else {
          var escape := input[position];
          position := position + 1;
          if escape == 'u' {
            var scalar := ParseUnicodeScalar();
            if scalar.Threw? { return Threw(scalar.error); }
            result := result + CodePointBytes(scalar.value);
          } else {
            var simple := SimpleEscape(escape);
            if simple.None? { return Threw(UnsupportedEscape); }
            result := result + [simple.value];
          }
        }
      }
      r := Threw(Unterminated);
    }

    method ParseUnicodeScalar() returns (r: Parsed<nat>)
      requires Within()
      modifies this
      ensures Within() && Follows(r, position, ScalarAt(input, old(position)))
    {
      hide HexDigitsAt;
      var first := ParseHex4();
      if first.Threw? || first.value < 0xD800 || first.value > 0xDFFF { return first; }
      if first.value > 0xDBFF || position + 2 > |input| ||
         input[position] != '\\' || input[position + 1] != 'u' {
        return Threw(BadSurrogatePair);
      }
      position := position + 2;
      var second := ParseHex4();
      if second.Threw? { return second; }
      if second.value < 0xDC00 || second.value > 0xDFFF { return Threw(BadSurrogatePair); }
      r := Value(0x10000 + (first.value - 0xD800) * 1024 + (second.value - 0xDC00));
    }

    method ParseHex4() returns (r: Parsed<nat>)
      requires Within()
      modifies this
      ensures Within() && Follows(r, position, Hex4At(input, old(position)))
    {
      if position + 4 > |input| { return Threw(IncompleteUnicode); }
      var value := 0;
      ghost var limits := [0x10000, 0x1000, 0x100, 0x10, 1];
      for index := 0 to 4
        invariant position == old(position) + index && position + 4 - index <= |input|
        invariant value < limits[4 - index]
        invariant HexDigitsAt(input, position, 4 - index, value) == Hex4At(input, old(position))
      {
        var digit := HexValue(input[position]);
        position := position + 1;
        if digit.None? { return Threw(BadUnicode); }
        value := value * 16 + digit.value;
      }
      r := Value(value);
    }
  }

  /** The std::ostringstream that Encode writes to. */
  class Encoder {
    var output: string

    constructor ()
      ensures output == []
    {
      output := [];
    }

    method EncodeString(text: string)
      modifies this
      ensures output == old(output) + QuotedText(text)
    {
      hide Escape;
      output := output + "\"";
      for i := 0 to |text|
        invariant output + EscapeAll(text[i..]) == old(output) + "\"" + EscapeAll(text)
      {
        assert text[i..] == [text[i]] + text[i + 1..];
        output := output + Escape(text[i]);
      }
      assert old(output) + "\"" + EscapeAll(text) + "\"" == old(output) + QuotedText(text);
      output := output + "\"";
    }

    method Encode(v: JsonValue)
      modifies this
      ensures output == old(output) + EncodeText(v)
      decreases v
    {
      hide QuotedText, IntText;
      match v
      case Null => output := output + "null";
      case Boolean(b) => output := output + if b then "true" else "false";
      case Integer(n) => output := output + IntText(n);
      case String(t) => EncodeString(t);
      case Array(items) =>
        output := output + "[";
        EncodeItems(items);
        output := output + "]";
      case Object(members) =>
        output := output + "{";
        EncodeMembers(members);
        output := output + "}";
    }

    /** The element loop of Encode, whose `first` flag places the commas. */
    method EncodeItems(items: seq<JsonValue>)
      modifies this
      ensures output == old(output) + ItemsText(items)
      decreases items
    {
      hide EncodeText, ItemsText, ItemsRest;
      var first := true;
      for i := 0 to |items|
        invariant first <==> i == 0
        invariant output + ItemsLeft(items, i) == old(output) + ItemsText(items)
      {
        ItemsLeftStep(output, items, i);
        if !first { output := output + ","; }
        first := false;
        Encode(items[i]);
      }
    }

    method EncodeMembers(members: seq<Entry<JsonValue>>)
      modifies this
      ensures output == old(output) + MembersText(members)
      decreases members
    {
      hide EncodeText, QuotedText, MembersText, MembersRest;
      var first := true;
      for i := 0 to |members|
        invariant first <==> i == 0
        invariant output + MembersLeft(members, i) == old(output) + MembersText(members)
      {
        MembersLeftStep(output, members, i);
        if !first { output := output + ","; }
        first := false;
        EncodeString(members[i].key);
        output := output + ":";
        Encode(members[i].value);
      }
    }
  }

  /** What the element loop has still to write before element `i`. */
  ghost function ItemsLeft(items: seq<JsonValue>, i: nat): (r: string)
    requires i <= |items|
    ensures i == 0 ==> r == ItemsText(items)
    ensures i == |items| ==> r == []
  {
    if i == 0 then ItemsText(items) else ItemsRest(items[i..])
  }

  lemma ItemsLeftStep(written: string, items: seq<JsonValue>, i: nat)
    requires i < |items|
    ensures var comma := if i == 0 then written else written + ",";
            written + ItemsLeft(items, i) == comma + EncodeText(items[i]) + ItemsLeft(items, i + 1)
  {
    hide EncodeText;
    assert items[i..][1..] == items[i + 1..];
  }

  ghost function MembersLeft(members: seq<Entry<JsonValue>>, i: nat): (r: string)
    requires i <= |members|
    ensures i == 0 ==> r == MembersText(members)
    ensures i == |members| ==> r == []
  {
    if i == 0 then MembersText(members) else MembersRest(members[i..])
  }

  lemma MembersLeftStep(written: string, members: seq<Entry<JsonValue>>, i: nat)
    requires i < |members|
    ensures var comma := if i == 0 then written else written + ",";
            var m := members[i];
            written + MembersLeft(members, i) ==
            comma + QuotedText(m.key) + ":" + EncodeText(m.value) + MembersLeft(members, i + 1)
  {
    hide EncodeText, QuotedText;
    assert members[i..][1..] == members[i + 1..];
    var comma := if i == 0 then written else written + ",";
    var m := members[i];
    assert written + MembersLeft(members, i) == comma + MemberText(m) + MembersLeft(members, i + 1);
    assert comma + MemberText(m) == comma + QuotedText(m.key) + ":" + EncodeText(m.value);
  }

  /** ParseJson */
  method ParseJson(input: string) returns (r: Parsed<JsonValue>)
    ensures r == ParseText(input)
  {
    var parser := new Parser(input);
    r := parser.Parse();
  }

  /** EncodeCanonicalJson */
  method EncodeCanonicalJson(v: JsonValue) returns (text: string)
    ensures text == EncodeText(v)
  {
    var encoder := new Encoder();
    encoder.Encode(v);
    text := encoder.output;
  }
}
