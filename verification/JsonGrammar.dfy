/**
 The texts that native_runtime/cpp/json_value.cc accepts, as written forms: every value with
 any blanks between its tokens, any spelling of its strings and any order of its members.
 The parser accepts exactly these texts, each as the value that it is a form of.
 */
module JsonGrammar {
  import opened Primitives
  import opened SortedMap
  import opened Json
  import opened JsonParser
  import opened JsonRoundTrip

  //
  // Written forms
  //

  /** std::isspace in the C locale: horizontal and vertical tab, line and form feed,
      carriage return, space. */
  const BLANKS: set<int> := {9, 10, 11, 12, 13, 32}

  predicate AllBlank(t: string) { forall i :: 0 <= i < |t| ==> t[i] as int in BLANKS }

  /** A hexadecimal digit in one of its two cases. */
  datatype Hex = Hex(value: nat, upper: bool)

  predicate IsHex4(h: seq<Hex>) { |h| == 4 && forall i :: 0 <= i < 4 ==> h[i].value < 16 }

  function HexText(h: seq<Hex>): string
    requires IsHex4(h)
  {
    seq(4, i requires 0 <= i < 4 => (if h[i].upper then "0123456789ABCDEF" else "0123456789abcdef")[h[i].value])
  }

  function HexNumber(h: seq<Hex>): nat
    requires IsHex4(h)
  {
    0x1000 * h[0].value + 0x100 * h[1].value + 0x10 * h[2].value + h[3].value
  }

  /** What the letter after a backslash stands for (section 7 of RFC 8259). */
  const SHORT: map<char, int> :=
    map['"' := 0x22, '\\' := 0x5C, '/' := 0x2F, 'b' := 8, 'f' := 12, 'n' := 10, 'r' := 13, 't' := 9]

  datatype Piece =
    | Plain(byte: char)
    | Short(letter: char)
    | Unicode(unit: seq<Hex>)
    | Surrogates(high: seq<Hex>, low: seq<Hex>)

  predicate IsPiece(p: Piece)
  {
    match p
    case Plain(c) => c as int >= 0x20 && c != '"' && c != '\\'
    case Short(c) => c in SHORT
    case Unicode(u) => IsHex4(u) && !(0xD800 <= HexNumber(u) <= 0xDFFF)
    case Surrogates(h, l) =>
      IsHex4(h) && IsHex4(l) && 0xD800 <= HexNumber(h) <= 0xDBFF && 0xDC00 <= HexNumber(l) <= 0xDFFF
  }

  function PieceText(p: Piece): (t: string)
    requires IsPiece(p)
    ensures t != []
  {
    match p
    case Plain(c) => [c]
    case Short(c) => "\\" + [c]
    case Unicode(u) => "\\u" + HexText(u)
    case Surrogates(h, l) => "\\u" + HexText(h) + "\\u" + HexText(l)
  }

  /** The bytes that a piece stands for. */
  function PieceBytes(p: Piece): string
    requires IsPiece(p)
  {
    match p
    case Plain(c) => [c]
    case Short(c) => [SHORT[c] as char]
    case Unicode(u) => CodePointBytes(HexNumber(u))
    case Surrogates(h, l) =>
      CodePointBytes(0x10000 + (HexNumber(h) - 0xD800) * 0x400 + (HexNumber(l) - 0xDC00))
  }

  predicate ArePieces(ps: seq<Piece>) { forall i :: 0 <= i < |ps| ==> IsPiece(ps[i]) }

  function PiecesText(ps: seq<Piece>): string
    requires ArePieces(ps)
  {
    if ps == [] then [] else PieceText(ps[0]) + PiecesText(ps[1..])
  }

  function PiecesBytes(ps: seq<Piece>): string
    requires ArePieces(ps)
  {
    if ps == [] then [] else PieceBytes(ps[0]) + PiecesBytes(ps[1..])
  }

  datatype Form =
    | NullForm
    | BooleanForm(boolean: bool)
    | NumberForm(negative: bool, digits: string)
    | StringForm(pieces: seq<Piece>)
    | EmptyArray(blank: string)
    | ArrayForm(items: seq<Item>)
    | EmptyObject(blank: string)
    | ObjectForm(members: seq<Member>)

  datatype Item = Item(before: string, item: Form, after: string)

  datatype Member = Member(before: string, key: seq<Piece>, colon: string, gap: string, value: Form, after: string)

  predicate IsNumber(negative: bool, digits: string)
  {
    && digits != [] && AllDigits(digits) && (digits[0] == '0' ==> |digits| == 1)
    && INT64_MIN <= Signed(negative, DigitsValue(digits)) <= INT64_MAX
  }

  predicate IsForm(f: Form)
    decreases f, 0
  {
    match f
    case NullForm => true
    case BooleanForm(_) => true
    case NumberForm(negative, digits) => IsNumber(negative, digits)
    case StringForm(ps) => ArePieces(ps)
    case EmptyArray(b) => AllBlank(b)
    case EmptyObject(b) => AllBlank(b)
    case ArrayForm(items) => items != [] && forall i :: 0 <= i < |items| ==> IsItem(items[i])
    case ObjectForm(ms) => ms != [] && (forall i :: 0 <= i < |ms| ==> IsMember(ms[i])) && DistinctNames(ms)
  }

  predicate IsItem(x: Item)
    decreases x, 1
  {
    AllBlank(x.before) && IsForm(x.item) && AllBlank(x.after)
  }

  predicate IsMember(m: Member)
    decreases m, 1
  {
    && AllBlank(m.before) && ArePieces(m.key) && AllBlank(m.colon) && AllBlank(m.gap) && IsForm(m.value)
    && AllBlank(m.after)
  }

  /** No two members have the same key, however it is spelled. */
  predicate DistinctNames(ms: seq<Member>)
  {
    forall i, j :: 0 <= i < j < |ms| && ArePieces(ms[i].key) && ArePieces(ms[j].key) ==>
      PiecesBytes(ms[i].key) != PiecesBytes(ms[j].key)
  }

  function FormText(f: Form): string
    requires IsForm(f)
    decreases f, 0
  {
    match f
    case NullForm => "null"
    case BooleanForm(b) => if b then "true" else "false"
    case NumberForm(negative, digits) => (if negative then "-" else "") + digits
    case StringForm(ps) => "\"" + PiecesText(ps) + "\""
    case EmptyArray(b) => "[" + b + "]"
    case EmptyObject(b) => "{" + b + "}"
    case ArrayForm(items) => "[" + ListText(items) + "]"
    case ObjectForm(ms) => "{" + RecordText(ms) + "}"
  }

  function ItemText(x: Item): string
    requires IsItem(x)
    decreases x, 1
  {
    x.before + FormText(x.item) + x.after
  }

  function ListText(items: seq<Item>): string
    requires forall i :: 0 <= i < |items| ==> IsItem(items[i])
    decreases items, 0
  {
    if items == [] then []
    else ItemText(items[0]) + (if |items| == 1 then [] else "," + ListText(items[1..]))
  }

  function NameText(m: Member): string
    requires ArePieces(m.key)
  {
    m.before + ("\"" + PiecesText(m.key) + "\"") + m.colon + ":" + m.gap
  }

  function PairText(m: Member): string
    requires IsMember(m)
    decreases m, 1
  {
    NameText(m) + FormText(m.value) + m.after
  }

  function RecordText(ms: seq<Member>): string
    requires forall i :: 0 <= i < |ms| ==> IsMember(ms[i])
    decreases ms, 0
  {
    if ms == [] then []
    else PairText(ms[0]) + (if |ms| == 1 then [] else "," + RecordText(ms[1..]))
  }

  /** The value that a form is a form of. */
  function Meaning(f: Form): JsonValue
    requires IsForm(f)
    decreases f, 0
  {
    match f
    case NullForm => Null
    case BooleanForm(b) => Boolean(b)
    case NumberForm(negative, digits) => Integer(Signed(negative, DigitsValue(digits)))
    case StringForm(ps) => String(PiecesBytes(ps))
    case EmptyArray(_) => Array([])
    case EmptyObject(_) => Object([])
    case ArrayForm(items) => Array(ListMeaning(items))
    case ObjectForm(ms) => Object(RecordMeaning([], ms))
  }

  function ListMeaning(items: seq<Item>): (r: seq<JsonValue>)
    requires forall i :: 0 <= i < |items| ==> IsItem(items[i])
    ensures |r| == |items|
    decreases items, 0
  {
    if items == [] then [] else assert IsItem(items[0]); [Meaning(items[0].item)] + ListMeaning(items[1..])
  }

  /** The members put into a map that already has some. */
  function RecordMeaning(known: seq<Entry<JsonValue>>, ms: seq<Member>): seq<Entry<JsonValue>>
    requires forall i :: 0 <= i < |ms| ==> IsMember(ms[i])
    decreases ms, 0
  {
    if ms == [] then known
    else assert IsMember(ms[0]); RecordMeaning(Emplace(known, PiecesBytes(ms[0].key), Meaning(ms[0].value)), ms[1..])
  }

  /** The text is a form of the value with blanks around it. */
  ghost predicate Denotes(text: string, v: JsonValue)
  {
    exists before, f, after ::
      AllBlank(before) && IsForm(f) && AllBlank(after) && text == before + FormText(f) + after && v == Meaning(f)
  }
}
