/**
 The JSON grammar of native_runtime/cpp/json_value.cc as functions of the text and a
 position, and their errors.  JsonMachine has the class that advances `position`.
 */
module JsonParser {
  import opened Primitives
  import opened SortedMap
  import opened Json

  /** One constructor per throw statement of the parser. */
  datatype JsonError =
    | TrailingData
    | EndOfInput
    | KeyNotString
    | DuplicateKey(key: string)
    | InvalidNumber
    | InvalidValue
    | NotInteger
    | OutOfRange
    | ControlByte
    | IncompleteEscape
    | UnsupportedEscape
    | Unterminated
    | BadSurrogatePair
    | IncompleteUnicode
    | BadUnicode
    | ExpectedToken(token: char)
    | InvalidLiteral

  /** What a parsing function yields at a position: a value and where it ends, or a throw. */
  datatype Step<+T> = Ok(value: T, next: nat) | Err(error: JsonError)

  predicate Has(s: string, p: nat, c: char) { p < |s| && s[p] == c }

  function Blank(s: string, p: nat): (q: nat)
    requires p <= |s|
    ensures p <= q <= |s|
    decreases |s| - p
  {
    if p < |s| && IsSpace(s[p]) then Blank(s, p + 1) else p
  }

  function DigitRun(s: string, p: nat): (q: nat)
    requires p <= |s|
    ensures p <= q <= |s| && AllDigits(s[p..q])
    ensures q < |s| ==> !IsDigit(s[q])
    ensures p < |s| && IsDigit(s[p]) ==> p < q
    decreases |s| - p
  {
    if p < |s| && IsDigit(s[p]) then
      var q := DigitRun(s, p + 1);
      assert s[p..q] == [s[p]] + s[p + 1..q];
      q
    else p
  }

  function LiteralAt(s: string, p: nat, literal: string, v: JsonValue): (r: Step<JsonValue>)
    requires p <= |s|
    ensures r.Ok? ==> r.next <= |s| && r.next == p + |literal|
  {
    if literal <= s[p..] then Ok(v, p + |literal|) else Err(InvalidLiteral)
  }

  /** strtoll on an optional sign and digits: out-of-range numbers are rejected. */
  function IntegerAt(s: string, p: nat): (r: Step<JsonValue>)
    requires p <= |s|
    ensures r.Ok? ==> p < r.next <= |s| && Valid(r.value)
  {
    var negative := Has(s, p, '-');
    var d := if negative then p + 1 else p;
    if d >= |s| then Err(InvalidNumber)
    else if !IsDigit(s[d]) then Err(InvalidValue)
    else
      var q := if s[d] == '0' then d + 1 else DigitRun(s, d);
      if q < |s| && s[q] in {'.', 'e', 'E'} then Err(NotInteger)
      else
        var magnitude: int := DigitsValue(s[d..q]);
        var n: int := if negative then -magnitude else magnitude;
        if n < INT64_MIN || n > INT64_MAX then Err(OutOfRange) else Ok(Integer(n), q)
  }

  function HexValue(c: char): (v: Option<nat>)
    ensures v.Some? ==> v.value < 16
  {
    if '0' <= c <= '9' then Some(c as int - '0' as int)
    else if 'a' <= c <= 'f' then Some(c as int - 'a' as int + 10)
    else if 'A' <= c <= 'F' then Some(c as int - 'A' as int + 10)
    else None
  }

  function Hex4At(s: string, p: nat): (r: Step<nat>)
    requires p <= |s|
    ensures r.Ok? ==> r.next == p + 4 <= |s| && r.value <= 0xFFFF
  {
    if p + 4 > |s| then Err(IncompleteUnicode)
    else HexDigitsAt(s, p, 4, 0)
  }

  /** The loop of ParseHex4, with `count` digits to go and `value` read so far. */
  function HexDigitsAt(s: string, p: nat, count: nat, value: nat): (r: Step<nat>)
    requires p + count <= |s| && count <= 4
    requires value < [0x10000, 0x1000, 0x100, 0x10, 1][count]
    ensures r.Ok? ==> r.next == p + count && r.value <= 0xFFFF
    decreases count
  {
    if count == 0 then Ok(value, p)
    else match HexValue(s[p])
      case None => Err(BadUnicode)
      case Some(d) => HexDigitsAt(s, p + 1, count - 1, value * 16 + d)
  }

  /** ParseUnicodeScalar: the position is just after `\u`. */
  function ScalarAt(s: string, p: nat): (r: Step<nat>)
    requires p <= |s|
    ensures r.Ok? ==> p < r.next <= |s|
    ensures r.Ok? ==> r.value <= 0x10FFFF && !(0xD800 <= r.value <= 0xDFFF)
  {
    match Hex4At(s, p)
    case Err(e) => Err(e)
    case Ok(first, q) =>
      if first < 0xD800 || first > 0xDFFF then Ok(first, q)
      else if first > 0xDBFF || q + 2 > |s| || s[q] != '\\' || s[q + 1] != 'u' then
        Err(BadSurrogatePair)
      else match Hex4At(s, q + 2)
        case Err(e) => Err(e)
        case Ok(second, n) =>
          if second < 0xDC00 || second > 0xDFFF then Err(BadSurrogatePair)
          else Ok(0x10000 + (first - 0xD800) * 1024 + (second - 0xDC00), n)
  }

  /** The bytes that AppendCodePoint pushes for a scalar value. */
  function CodePointBytes(v: nat): string
    requires v <= 0x10FFFF
  {
    if v <= 0x7F then [v as char]
    else if v <= 0x7FF then
      [(0xC0 + v / 64) as char, (0x80 + v % 64) as char]
    else if v <= 0xFFFF then
      [(0xE0 + v / 4096) as char, (0x80 + v / 64 % 64) as char, (0x80 + v % 64) as char]
    else
      [(0xF0 + v / 262144) as char, (0x80 + v / 4096 % 64) as char,
       (0x80 + v / 64 % 64) as char, (0x80 + v % 64) as char]
  }

  /** The byte that a two-character escape stands for. */
  function SimpleEscape(c: char): Option<char>
  {
    if c == '"' || c == '\\' || c == '/' then Some(c)
    else if c == 'b' then Some(8 as char)
    else if c == 'f' then Some(12 as char)
    else if c == 'n' then Some('\n')
    else if c == 'r' then Some('\r')
    else if c == 't' then Some('\t')
    else None
  }

  /** The loop of ParseString, with `result` read so far. */
  function StringFrom(s: string, p: nat, result: string): (r: Step<string>)
    requires p <= |s|
    ensures r.Ok? ==> p < r.next <= |s|
    decreases |s| - p
  {
    if p >= |s| then Err(Unterminated)
    else if s[p] == '"' then Ok(result, p + 1)
    else if s[p] as int < 0x20 then Err(ControlByte)
    else if s[p] != '\\' then StringFrom(s, p + 1, result + [s[p]])
    else if p + 1 >= |s| then Err(IncompleteEscape)
    else if s[p + 1] == 'u' then
      match ScalarAt(s, p + 2)
      case Err(e) => Err(e)
      case Ok(v, n) => StringFrom(s, n, result + CodePointBytes(v))
    else match SimpleEscape(s[p + 1])
      case None => Err(UnsupportedEscape)
      case Some(c) => StringFrom(s, p + 2, result + [c])
  }

  function StringAt(s: string, p: nat): (r: Step<string>)
    requires p <= |s|
    ensures r.Ok? ==> p < r.next <= |s|
  {
    if Has(s, p, '"') then StringFrom(s, p + 1, []) else Err(ExpectedToken('"'))
  }

  function ValueAt(s: string, p: nat): (r: Step<JsonValue>)
    requires p <= |s|
    ensures r.Ok? ==> p < r.next <= |s|
    decreases |s| - p, 1
  {
    if p >= |s| then Err(EndOfInput)
    else if s[p] == 'n' then LiteralAt(s, p, "null", Null)
    else if s[p] == 't' then LiteralAt(s, p, "true", Boolean(true))
    else if s[p] == 'f' then LiteralAt(s, p, "false", Boolean(false))
    else if s[p] == '"' then
      match StringAt(s, p)
      case Err(e) => Err(e)
      case Ok(t, n) => Ok(String(t), n)
    else if s[p] == '[' then
      var q := Blank(s, p + 1);
      if Has(s, q, ']') then Ok(Array([]), q + 1) else ItemsFrom(s, q, [])
    else if s[p] == '{' then
      var q := Blank(s, p + 1);
      if Has(s, q, '}') then Ok(Object([]), q + 1) else MembersFrom(s, q, [])
    else IntegerAt(s, p)
  }

  /** The loop of ParseArray, with `result` read so far. */
  function ItemsFrom(s: string, p: nat, result: seq<JsonValue>): (r: Step<JsonValue>)
    requires p <= |s|
    ensures r.Ok? ==> p < r.next <= |s|
    decreases |s| - p, 2
  {
    match ValueAt(s, Blank(s, p))
    case Err(e) => Err(e)
    case Ok(v, n) =>
      var q := Blank(s, n);
      if Has(s, q, ']') then Ok(Array(result + [v]), q + 1)
      else if !Has(s, q, ',') then Err(ExpectedToken(','))
      else ItemsFrom(s, q + 1, result + [v])
  }

  /** The loop of ParseObject, with `result` read so far. */
  function MembersFrom(s: string, p: nat, result: seq<Entry<JsonValue>>): (r: Step<JsonValue>)
    requires p <= |s|
    ensures r.Ok? ==> p < r.next <= |s|
    decreases |s| - p, 2
  {
    match KeyAt(s, p)
    case Err(e) => Err(e)
    case Ok(key, a) =>
      match ValueAt(s, a)
      case Err(e) => Err(e)
      case Ok(v, n) =>
        if Find(result, key).Some? then Err(DuplicateKey(key))
        else
          var q := Blank(s, n);
          var grown := Emplace(result, key, v);
          if Has(s, q, '}') then Ok(Object(grown), q + 1)
          else if !Has(s, q, ',') then Err(ExpectedToken(','))
          else MembersFrom(s, q + 1, grown)
  }

  /** A key and its colon, with the blanks around them. */
  function KeyAt(s: string, p: nat): (r: Step<string>)
    requires p <= |s|
    ensures r.Ok? ==> p < r.next <= |s|
  {
    var k := Blank(s, p);
    if !Has(s, k, '"') then Err(KeyNotString)
    else match StringAt(s, k)
      case Err(e) => Err(e)
      case Ok(key, n) =>
        var c := Blank(s, n);
        if !Has(s, c, ':') then Err(ExpectedToken(':')) else Ok(key, Blank(s, c + 1))
  }

  datatype Parsed<+T> = Value(value: T) | Threw(error: JsonError)

  /** The result of ParseJson on a text. */
  function ParseText(s: string): Parsed<JsonValue>
  {
    match ValueAt(s, Blank(s, 0))
    case Err(e) => Threw(e)
    case Ok(v, n) => if Blank(s, n) == |s| then Value(v) else Threw(TrailingData)
  }

  //
  // Every accepted value is one a C++ JsonValue can hold.
  //

  lemma {:induction false} ValueAtValid(s: string, p: nat)
    requires p <= |s|
    ensures ValueAt(s, p).Ok? ==> Valid(ValueAt(s, p).value)
    decreases |s| - p, 1
  {
    hide Blank, ItemsFrom, MembersFrom, StringFrom, IntegerAt;
    if p < |s| && s[p] == '[' {
      ItemsFromValid(s, Blank(s, p + 1), []);
    } else if p < |s| && s[p] == '{' {
      MembersFromValid(s, Blank(s, p + 1), []);
    }
  }

  lemma {:induction false} ItemsFromValid(s: string, p: nat, result: seq<JsonValue>)
    requires p <= |s| && Valid(Array(result))
    ensures ItemsFrom(s, p, result).Ok? ==> Valid(ItemsFrom(s, p, result).value)
    decreases |s| - p, 2
  {
    hide ValueAt, Blank;
    ValueAtValid(s, Blank(s, p));
    var r := ValueAt(s, Blank(s, p));
    if r.Ok? && Has(s, Blank(s, r.next), ',') {
      ItemsFromValid(s, Blank(s, r.next) + 1, result + [r.value]);
    }
  }

  lemma EmplaceValid(members: seq<Entry<JsonValue>>, key: string, v: JsonValue)
    requires Valid(Object(members)) && Valid(v)
    ensures Valid(Object(Emplace(members, key, v)))
  {
    hide Less, LowerBound;
    EmplaceSorted(members, key, v);
    var grown := Emplace(members, key, v);
    forall i | 0 <= i < |grown|
      ensures Valid(grown[i].value)
    {
      var b := LowerBound(members, key);
      if grown != members {
        assert i != b ==> grown[i] == members[if i < b then i else i - 1];
      }
    }
  }

  lemma {:induction false} MembersFromValid(s: string, p: nat, result: seq<Entry<JsonValue>>)
    requires p <= |s| && Valid(Object(result))
    ensures MembersFrom(s, p, result).Ok? ==> Valid(MembersFrom(s, p, result).value)
    decreases |s| - p, 2
  {
    hide Less, LowerBound, Emplace, Valid, KeyAt, ValueAt, Find, Blank;
    var k := KeyAt(s, p);
    if k.Ok? {
      ValueAtValid(s, k.next);
      var r := ValueAt(s, k.next);
      if r.Ok? && Find(result, k.value).None? {
        EmplaceValid(result, k.value, r.value);
        if Has(s, Blank(s, r.next), ',') {
          MembersFromValid(s, Blank(s, r.next) + 1, Emplace(result, k.value, r.value));
        }
      }
    }
  }

  /** Whatever ParseJson accepts is a valid value. */
  lemma ParseTextValid(s: string)
    ensures ParseText(s).Value? ==> Valid(ParseText(s).value)
  {
    ValueAtValid(s, Blank(s, 0));
  }
}
