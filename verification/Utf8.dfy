/**
 Counting UTF-8 scalars (native_runtime/cpp/native_install_request.cc), against the
 grammar in section 4 of RFC 3629, and the bytes that JSON escapes append
 (native_runtime/cpp/json_value.cc).
 */
module Utf8 {
  import opened SortedMap
  import opened JsonParser

  //
  // The grammar of RFC 3629
  //

  predicate Byte(c: char, low: int, high: int) { low <= c as int <= high }

  predicate Tail(c: char) { Byte(c, 0x80, 0xBF) }

  /** UTF8-char: one well-formed sequence. */
  predicate IsUnit(u: string)
  {
    || (|u| == 1 && Byte(u[0], 0x00, 0x7F))
    || (|u| == 2 && Byte(u[0], 0xC2, 0xDF) && Tail(u[1]))
    || (|u| == 3 && Tail(u[2]) &&
        (|| (Byte(u[0], 0xE0, 0xE0) && Byte(u[1], 0xA0, 0xBF))
         || (Byte(u[0], 0xE1, 0xEC) && Tail(u[1]))
         || (Byte(u[0], 0xED, 0xED) && Byte(u[1], 0x80, 0x9F))
         || (Byte(u[0], 0xEE, 0xEF) && Tail(u[1]))))
    || (|u| == 4 && Tail(u[2]) && Tail(u[3]) &&
        (|| (Byte(u[0], 0xF0, 0xF0) && Byte(u[1], 0x90, 0xBF))
         || (Byte(u[0], 0xF1, 0xF3) && Tail(u[1]))
         || (Byte(u[0], 0xF4, 0xF4) && Byte(u[1], 0x80, 0x8F))))
  }

  function Concat(units: seq<string>): string
  {
    if units == [] then [] else units[0] + Concat(units[1..])
  }

  /** UTF8-octets: `s` is a sequence of `n` well-formed units. */
  ghost predicate IsUtf8(s: string, n: nat)
  {
    exists units: seq<string> ::
      |units| == n && Concat(units) == s && forall i :: 0 <= i < n ==> IsUnit(units[i])
  }

  //
  // The decoder
  //

  /** The width that the first byte announces, and its share of the scalar. */
  function Lead(c: char): (r: Option<(nat, nat)>)
    ensures r.Some? ==> 1 <= r.value.0 <= 4
  {
    var b := c as int;
    if b <= 0x7F then Some((1, b))
    else if 0xC2 <= b <= 0xDF then Some((2, b - 0xC0))
    else if 0xE0 <= b <= 0xEF then Some((3, b - 0xE0))
    else if 0xF0 <= b <= 0xF4 then Some((4, b - 0xF0))
    else None
  }

  /** The continuation loop: `left` bytes from position `i` on are added to `scalar`. */
  function Continue(s: string, i: nat, left: nat, scalar: nat): Option<nat>
    requires i + left <= |s|
    decreases left
  {
    if left == 0 then Some(scalar)
    else if !Tail(s[i]) then None
    else Continue(s, i + 1, left - 1, scalar * 64 + (s[i] as int - 0x80))
  }

  predicate Acceptable(width: nat, scalar: nat)
  {
    !(|| (width == 2 && scalar < 0x80)
      || (width == 3 && scalar < 0x800)
      || (width == 4 && scalar < 0x10000)
      || 0xD800 <= scalar <= 0xDFFF
      || scalar > 0x10FFFF)
  }

  datatype Unit = Unit(width: nat, scalar: nat)

  function UnitAt(s: string, i: nat): (r: Option<Unit>)
    requires i < |s|
    ensures r.Some? ==> r.value.width > 0 && i + r.value.width <= |s|
  {
    match Lead(s[i])
    case None => None
    case Some((width, first)) =>
      if i + width > |s| then None
      else match Continue(s, i + 1, width - 1, first)
        case None => None
        case Some(scalar) => if Acceptable(width, scalar) then Some(Unit(width, scalar)) else None
  }

  /** The scalars from position `i` on. */
  function ScalarsFrom(s: string, i: nat): Option<seq<nat>>
    requires i <= |s|
    decreases |s| - i
  {
    if i == |s| then Some([])
    else match UnitAt(s, i)
      case None => None
      case Some(u) =>
        match ScalarsFrom(s, i + u.width)
        case None => None
        case Some(rest) => Some([u.scalar] + rest)
  }

  function Scalars(s: string): Option<seq<nat>> { ScalarsFrom(s, 0) }

  /** Utf8ScalarCount; None is the invalidJson failure. */
  method Utf8ScalarCount(s: string) returns (r: Option<nat>)
    ensures r == if Scalars(s).Some? then Some(|Scalars(s).value|) else None
  {
    hide Lead, Acceptable;
    var count, index := 0, 0;
    while index < |s|
      invariant 0 <= index <= |s|
      invariant Scalars(s).Some? <==> ScalarsFrom(s, index).Some?
      invariant Scalars(s).Some? ==> |Scalars(s).value| == count + |ScalarsFrom(s, index).value|
    {
      var lead := Lead(s[index]);
      if lead.None? { return None; }
      var width := lead.value.0;
      var scalar: nat := lead.value.1;
      if index + width > |s| { return None; }
      for offset := 1 to width
        invariant Continue(s, index + offset, width - offset, scalar) == Continue(s, index + 1, width - 1, lead.value.1)
      {
        if !Tail(s[index + offset]) { return None; }
        scalar := scalar * 64 + (s[index + offset] as int - 0x80);
      }
      if !Acceptable(width, scalar) { return None; }
      index := index + width;
      count := count + 1;
    }
    r := Some(count);
  }

  //
  // The decoder accepts exactly the grammar
  //

  /** One, two and three continuation bytes. */
  lemma ContinueUnrolled(s: string, i: nat, v: nat)
    ensures i < |s| ==> Continue(s, i, 1, v) == if Tail(s[i]) then Some(Shift(v, s[i])) else None
    ensures i + 1 < |s| ==>
      Continue(s, i, 2, v) ==
      if Tail(s[i]) && Tail(s[i + 1]) then Some(Shift(Shift(v, s[i]), s[i + 1])) else None
    ensures i + 2 < |s| ==>
      Continue(s, i, 3, v) ==
      if Tail(s[i]) && Tail(s[i + 1]) && Tail(s[i + 2])
      then Some(Shift(Shift(Shift(v, s[i]), s[i + 1]), s[i + 2])) else None
  {
    if i + 1 < |s| && Tail(s[i]) {
      var w := Shift(v, s[i]);
      assert Continue(s, i + 1, 1, w) == if Tail(s[i + 1]) then Some(Shift(w, s[i + 1])) else None;
      if i + 2 < |s| && Tail(s[i + 1]) {
        var x := Shift(w, s[i + 1]);
        assert Continue(s, i + 2, 1, x) == if Tail(s[i + 2]) then Some(Shift(x, s[i + 2])) else None;
      }
    }
  }

  function Shift(v: nat, c: char): nat
    requires Tail(c)
  {
    v * 64 + (c as int - 0x80)
  }

  /** The range checks of the decoder are those of the grammar. */
  lemma UnitAtIsUnit(s: string, i: nat, width: nat)
    requires i < |s| && width > 0 && i + width <= |s|
    ensures IsUnit(s[i..i + width]) <==> UnitAt(s, i).Some? && UnitAt(s, i).value.width == width
  {
    hide Continue;
    var u := s[i..i + width];
    assert u[0] == s[i];
    assert width > 1 ==> u[1] == s[i + 1];
    assert width > 2 ==> u[2] == s[i + 2];
    assert width > 3 ==> u[3] == s[i + 3];
    var lead := Lead(s[i]);
    if lead.Some? {
      ContinueUnrolled(s, i + 1, lead.value.1);
      NoContinuation(s, i + 1, lead.value.1);
    }
  }

  lemma NoContinuation(s: string, i: nat, v: nat)
    requires i <= |s|
    ensures Continue(s, i, 0, v) == Some(v)
  {
  }

  /** Cutting the text where the decoder does yields units. */
  lemma {:induction false} DecodedIsUtf8(s: string, i: nat) returns (units: seq<string>)
    requires i <= |s| && ScalarsFrom(s, i).Some?
    ensures |units| == |ScalarsFrom(s, i).value| && Concat(units) == s[i..]
    ensures forall k :: 0 <= k < |units| ==> IsUnit(units[k])
    decreases |s| - i
  {
    hide IsUnit, UnitAt;
    if i == |s| {
      units := [];
    } else {
      var width := UnitAt(s, i).value.width;
      var rest := DecodedIsUtf8(s, i + width);
      UnitAtIsUnit(s, i, width);
      units := [s[i..i + width]] + rest;
      assert units[1..] == rest;
      assert s[i..] == s[i..i + width] + s[i + width..];
    }
  }

  /** However a text is cut into units, the decoder finds as many. */
  lemma {:induction false} Utf8IsDecoded(s: string, i: nat, units: seq<string>)
    requires i <= |s| && Concat(units) == s[i..]
    requires forall k :: 0 <= k < |units| ==> IsUnit(units[k])
    ensures ScalarsFrom(s, i).Some? && |ScalarsFrom(s, i).value| == |units|
    decreases |units|
  {
    hide UnitAt, IsUnit;
    if units != [] {
      var width := |units[0]|;
      UnitNotEmpty(units[0]);
      assert s[i..i + width] == s[i..][..width] == units[0];
      UnitAtIsUnit(s, i, width);
      assert s[i + width..] == s[i..][width..] == Concat(units[1..]);
      Utf8IsDecoded(s, i + width, units[1..]);
    }
  }

  lemma UnitNotEmpty(u: string)
    requires IsUnit(u)
    ensures u != []
  {
  }

  /** Utf8ScalarCount accepts exactly the UTF-8 texts and counts their characters. */
  lemma CountsExactlyUtf8(s: string, n: nat)
    ensures IsUtf8(s, n) <==> Scalars(s).Some? && |Scalars(s).value| == n
  {
    hide IsUnit;
    assert s[0..] == s;
    if Scalars(s).Some? && |Scalars(s).value| == n {
      var units := DecodedIsUtf8(s, 0);
      assert |units| == n && Concat(units) == s;
    }
    if units: seq<string> :| |units| == n && Concat(units) == s && forall i :: 0 <= i < n ==> IsUnit(units[i]) {
      Utf8IsDecoded(s, 0, units);
    }
  }

  //
  // JSON escapes
  //

  /** The bytes that AppendCodePoint pushes for a scalar value decode to that one
      value, whatever surrounds them. */
  lemma CodePointDecodes(before: string, v: nat, after: string)
    requires v <= 0x10FFFF && !(0xD800 <= v <= 0xDFFF)
    ensures UnitAt(before + CodePointBytes(v) + after, |before|) == Some(Unit(|CodePointBytes(v)|, v))
  {
    hide Continue, CodePointBytes;
    var b := CodePointBytes(v);
    CodePointShape(v);
    var s := before + b + after;
    var i := |before|;
    assert s[i] == b[0];
    assert |b| > 1 ==> s[i + 1] == b[1];
    assert |b| > 2 ==> s[i + 2] == b[2];
    assert |b| > 3 ==> s[i + 3] == b[3];
    var lead := Lead(b[0]);
    ContinueUnrolled(s, i + 1, lead.value.1);
    NoContinuation(s, i + 1, lead.value.1);
  }

  lemma CodePointShape(v: nat)
    requires v <= 0x10FFFF
    ensures var b := CodePointBytes(v);
      && 1 <= |b| <= 4 && Lead(b[0]).Some? && Lead(b[0]).value.0 == |b|
      && (forall k :: 1 <= k < |b| ==> Tail(b[k]))
      && var f := Lead(b[0]).value.1;
      && (|b| == 1 ==> f == v)
      && (|b| == 2 ==> Shift(f, b[1]) == v && v >= 0x80)
      && (|b| == 3 ==> Shift(Shift(f, b[1]), b[2]) == v && v >= 0x800)
      && (|b| == 4 ==> Shift(Shift(Shift(f, b[1]), b[2]), b[3]) == v && v >= 0x10000)
  {
    var a := Base64Digits(v);
    var b := CodePointBytes(v);
    if v <= 0x7F {
    } else if v <= 0x7FF {
      assert b == [(0xC0 + a.2) as char, (0x80 + a.3) as char];
    } else if v <= 0xFFFF {
      assert b == [(0xE0 + a.1) as char, (0x80 + a.2) as char, (0x80 + a.3) as char];
    } else {
      assert b == [(0xF0 + a.0) as char, (0x80 + a.1) as char, (0x80 + a.2) as char, (0x80 + a.3) as char];
    }
  }

  /** The four digits of a scalar to base 64. */
  lemma Base64Digits(v: nat) returns (a: (nat, nat, nat, nat))
    requires v <= 0x10FFFF
    ensures a.0 <= 4 && a.1 < 64 && a.2 < 64 && a.3 < 64
    ensures v == ((a.0 * 64 + a.1) * 64 + a.2) * 64 + a.3
    ensures a.3 == v % 64 && a.2 == v / 64 % 64 && a.1 == v / 4096 % 64 && a.0 == v / 262144
    ensures v <= 0xFFFF ==> a.0 == 0 && a.1 == v / 4096
    ensures v <= 0x7FF ==> a.1 == 0 && a.2 == v / 64
  {
    var q := v / 64;
    var r := q / 64;
    assert r == v / 4096;
    assert r / 64 == v / 262144;
    a := (v / 262144, r % 64, q % 64, v % 64);
  }

  //
  // Putting texts together
  //

  lemma {:induction false} ContinueShift(x: string, t: string, j: nat, left: nat, v: nat)
    requires j + left <= |t|
    ensures Continue(x + t, |x| + j, left, v) == Continue(t, j, left, v)
    decreases left
  {
    if left > 0 && Tail(t[j]) { ContinueShift(x, t, j + 1, left - 1, v * 64 + (t[j] as int - 0x80)); }
  }

  lemma UnitShift(x: string, t: string, j: nat)
    requires j < |t|
    ensures UnitAt(x + t, |x| + j) == UnitAt(t, j)
  {
    hide Continue, Lead, Acceptable;
    var lead := Lead(t[j]);
    if lead.Some? && j + lead.value.0 <= |t| { ContinueShift(x, t, j + 1, lead.value.0 - 1, lead.value.1); }
  }

  lemma {:induction false} ScalarsShift(x: string, t: string, j: nat)
    requires j <= |t|
    ensures ScalarsFrom(x + t, |x| + j) == ScalarsFrom(t, j)
    decreases |t| - j
  {
    hide UnitAt;
    if j < |t| {
      UnitShift(x, t, j);
      if UnitAt(t, j).Some? { ScalarsShift(x, t, j + UnitAt(t, j).value.width); }
    }
  }

  lemma {:induction false} ContinueExtend(s: string, t: string, i: nat, left: nat, v: nat)
    requires i + left <= |s|
    ensures Continue(s + t, i, left, v) == Continue(s, i, left, v)
    decreases left
  {
    if left > 0 && Tail(s[i]) { ContinueExtend(s, t, i + 1, left - 1, v * 64 + (s[i] as int - 0x80)); }
  }

  lemma UnitExtend(s: string, t: string, i: nat)
    requires i < |s| && UnitAt(s, i).Some?
    ensures UnitAt(s + t, i) == UnitAt(s, i)
  {
    hide Continue, Lead, Acceptable;
    var lead := Lead(s[i]);
    ContinueExtend(s, t, i + 1, lead.value.0 - 1, lead.value.1);
  }

  lemma {:induction false} ScalarsJoinFrom(s: string, t: string, i: nat)
    requires i <= |s| && ScalarsFrom(s, i).Some?
    ensures ScalarsFrom(s + t, i) ==
            if Scalars(t).Some? then Some(ScalarsFrom(s, i).value + Scalars(t).value) else None
    decreases |s| - i
  {
    hide UnitAt;
    if i == |s| {
      ScalarsShift(s, t, 0);
      assert Scalars(t).Some? ==> [] + Scalars(t).value == Scalars(t).value;
    } else {
      var u := UnitAt(s, i).value;
      UnitExtend(s, t, i);
      ScalarsJoinFrom(s, t, i + u.width);
      var rest := ScalarsFrom(s, i + u.width).value;
      assert Scalars(t).Some? ==> [u.scalar] + (rest + Scalars(t).value) == [u.scalar] + rest + Scalars(t).value;
    }
  }

  /** The scalars of a text behind a well-formed one are added to its scalars. */
  lemma ScalarsJoin(s: string, t: string)
    requires Scalars(s).Some?
    ensures Scalars(s + t) == if Scalars(t).Some? then Some(Scalars(s).value + Scalars(t).value) else None
  {
    hide ScalarsFrom;
    ScalarsJoinFrom(s, t, 0);
  }

  lemma CodePointScalar(v: nat)
    requires v <= 0x10FFFF && !(0xD800 <= v <= 0xDFFF)
    ensures Scalars(CodePointBytes(v)) == Some([v])
  {
    hide UnitAt, CodePointBytes;
    var b := CodePointBytes(v);
    CodePointDecodes([], v, []);
    assert [] + b + [] == b;
    assert ScalarsFrom(b, |b|) == Some([]);
    assert [v] + [] == [v];
  }

  /** Every escape that the JSON parser accepts adds exactly one scalar to the text, the one
      it names: between a text and what follows it, there is one more and the others stay. */
  lemma EscapeAppendsOneScalar(s: string, p: nat, before: string, after: string)
    requires p <= |s| && ScalarAt(s, p).Ok? && Scalars(before).Some?
    ensures Scalars(before + CodePointBytes(ScalarAt(s, p).value) + after) ==
            if Scalars(after).Some? then Some(Scalars(before).value + [ScalarAt(s, p).value] + Scalars(after).value) else None
  {
    hide Scalars, CodePointBytes, ScalarAt;
    var v := ScalarAt(s, p).value;
    CodePointScalar(v);
    ScalarsJoin(before, CodePointBytes(v));
    ScalarsJoin(before + CodePointBytes(v), after);
  }
}
