/**
 JSON values, the canonical encoder and the parser (native_runtime/cpp/json_value.cc).
 */
module Json {
  import opened Primitives
  import opened SortedMap

  /** JsonValue.  An object is a std::map, hence a sorted sequence of entries. */
  datatype JsonValue =
    | Null
    | Boolean(boolean: bool)
    | Integer(integer: int)
    | String(text: string)
    | Array(items: seq<JsonValue>)
    | Object(members: seq<Entry<JsonValue>>)

  /** The values a C++ JsonValue can hold: 64-bit integers and objects that are maps. */
  ghost predicate Valid(v: JsonValue)
  {
    match v
    case Integer(n) => INT64_MIN <= n <= INT64_MAX
    case Array(items) => forall i :: 0 <= i < |items| ==> Valid(items[i])
    case Object(members) =>
      Sorted(members) && forall i :: 0 <= i < |members| ==> Valid(members[i].value)
    case _ => true
  }

  //
  // Decimal numbers
  //

  predicate AllDigits(t: string) { forall i :: 0 <= i < |t| ==> IsDigit(t[i]) }

  function DigitChar(d: nat): char
    requires d < 10
  {
    ('0' as int + d) as char
  }

  /** The number that a run of decimal digits denotes. */
  function DigitsValue(t: string): nat
    requires AllDigits(t)
  {
    if t == [] then 0
    else 10 * DigitsValue(t[..|t| - 1]) + (t[|t| - 1] as int - '0' as int)
  }

  function NatText(n: nat): (t: string)
    ensures AllDigits(t) && t != []
  {
    if n < 10 then [DigitChar(n)] else NatText(n / 10) + [DigitChar(n % 10)]
  }

  /** operator<< on a 64-bit integer */
  function IntText(n: int): string
  {
    if n < 0 then "-" + NatText(-n) else NatText(n)
  }

  lemma {:induction false} NatTextValue(n: nat)
    ensures DigitsValue(NatText(n)) == n
    ensures n > 0 ==> NatText(n)[0] != '0'
    ensures n == 0 ==> NatText(n) == "0"
  {
    if n >= 10 {
      NatTextValue(n / 10);
      var t := NatText(n);
      assert t[..|t| - 1] == NatText(n / 10);
    }
  }

  //
  // The canonical encoder
  //

  function HexDigit(d: nat): char
    requires d < 16
  {
    if d < 10 then DigitChar(d) else ('a' as int + d - 10) as char
  }

  /** How EncodeString writes one byte. */
  function Escape(c: char): (e: string)
    ensures e != []
  {
    if c == '"' then "\\\""
    else if c == '\\' then "\\\\"
    else if c as int == 8 then "\\b"
    else if c as int == 12 then "\\f"
    else if c == '\n' then "\\n"
    else if c == '\r' then "\\r"
    else if c == '\t' then "\\t"
    else if c as int < 0x20 then "\\u00" + [HexDigit(c as int / 16), HexDigit(c as int % 16)]
    else [c]
  }

  function EscapeAll(t: string): string
  {
    if t == [] then [] else Escape(t[0]) + EscapeAll(t[1..])
  }

  function QuotedText(t: string): string
  {
    "\"" + EscapeAll(t) + "\""
  }

  /** The text that EncodeCanonicalJson produces. */
  function EncodeText(v: JsonValue): string
    decreases v, 0
  {
    match v
    case Null => "null"
    case Boolean(b) => if b then "true" else "false"
    case Integer(n) => IntText(n)
    case String(t) => QuotedText(t)
    case Array(items) => "[" + ItemsText(items) + "]"
    case Object(members) => "{" + MembersText(members) + "}"
  }

  function ItemsText(items: seq<JsonValue>): string
    decreases items, 1
  {
    if items == [] then []
    else EncodeText(items[0]) + ItemsRest(items[1..])
  }

  /** The text of the elements after the first, each preceded by a comma. */
  function ItemsRest(items: seq<JsonValue>): string
    decreases items, 0
  {
    if items == [] then [] else "," + EncodeText(items[0]) + ItemsRest(items[1..])
  }

  function MemberText(m: Entry<JsonValue>): string
    decreases m, 1
  {
    QuotedText(m.key) + ":" + EncodeText(m.value)
  }

  function MembersText(members: seq<Entry<JsonValue>>): string
    decreases members, 1
  {
    if members == [] then [] else MemberText(members[0]) + MembersRest(members[1..])
  }

  function MembersRest(members: seq<Entry<JsonValue>>): string
    decreases members, 0
  {
    if members == [] then [] else "," + MemberText(members[0]) + MembersRest(members[1..])
  }
}
