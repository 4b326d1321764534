/**
 Canonical base64 (native_runtime/cpp/release_contract.cc, DecodeBase64).  None stands for
 a throw.
 */
module Base64 {
  import opened Primitives
  import opened SortedMap

  type sextet = n: int | 0 <= n < 64

  //
  // The alphabet of table 1 of RFC 4648
  //

  function DigitOf(n: sextet): char
  {
    if n < 26 then 'A' + n as char
    else if n < 52 then 'a' + (n - 26) as char
    else if n < 62 then '0' + (n - 52) as char
    else if n == 62 then '+' else '/'
  }

  /** The position of a character in the alphabet, or -1. */
  function ValueOf(c: char): (n: int)
    ensures -1 <= n < 64
    ensures n >= 0 ==> DigitOf(n) == c
    ensures c == '=' ==> n == -1
  {
    if 'A' <= c <= 'Z' then c as int - 'A' as int
    else if 'a' <= c <= 'z' then c as int - 'a' as int + 26
    else if '0' <= c <= '9' then c as int - '0' as int + 52
    else if c == '+' then 62
    else if c == '/' then 63
    else -1
  }

  lemma ValueOfDigit(n: sextet)
    ensures ValueOf(DigitOf(n)) == n && DigitOf(n) != '='
  {
  }

  //
  // Encoding: section 4 of RFC 4648
  //

  function Group1(a: byte): string
  {
    [DigitOf(a / 4), DigitOf(a % 4 * 16), '=', '=']
  }

  function Group2(a: byte, b: byte): string
  {
    [DigitOf(a / 4), DigitOf(a % 4 * 16 + b / 16), DigitOf(b % 16 * 4), '=']
  }

  function Group3(a: byte, b: byte, c: byte): string
  {
    [DigitOf(a / 4), DigitOf(a % 4 * 16 + b / 16), DigitOf(b % 16 * 4 + c / 64), DigitOf(c % 64)]
  }

  function Encode(bytes: seq<byte>): (t: string)
    ensures |t| == (|bytes| + 2) / 3 * 4
  {
    if bytes == [] then ""
    else if |bytes| == 1 then Group1(bytes[0])
    else if |bytes| == 2 then Group2(bytes[0], bytes[1])
    else Group3(bytes[0], bytes[1], bytes[2]) + Encode(bytes[3..])
  }

  //
  // Decoding
  //

  /** The three bytes of four sextets, as they are cut out of the combined number. */
  function Byte(first: sextet, second: sextet, third: sextet, fourth: sextet, shift: int): byte
    requires shift in {0x1_0000, 0x100, 1}
  {
    var combined: int := first * 0x4_0000 + second * 0x1000 + third * 0x40 + fourth;
    combined / shift % 0x100
  }

  /** One turn of the loop: the bytes of one group of four characters. */
  function DecodeGroup(c0: char, c1: char, c2: char, c3: char, final: bool): (r: Option<seq<byte>>)
    ensures r.Some? ==> |r.value| == if c2 == '=' then 1 else if c3 == '=' then 2 else 3
  {
    var padTwo, padThree := c2 == '=', c3 == '=';
    if (padTwo && !padThree) || (!final && (padTwo || padThree)) || c0 == '=' || c1 == '=' then None
    else
      var first, second := ValueOf(c0), ValueOf(c1);
      var third := if padTwo then 0 else ValueOf(c2);
      var fourth := if padThree then 0 else ValueOf(c3);
      if first < 0 || second < 0 || third < 0 || fourth < 0 then None
      else if (padTwo && second % 16 != 0) || (padThree && !padTwo && third % 4 != 0) then None
      else if padTwo then Some([Byte(first, second, third, fourth, 0x1_0000)])
      else if padThree then
        Some([Byte(first, second, third, fourth, 0x1_0000), Byte(first, second, third, fourth, 0x100)])
      else
        Some([Byte(first, second, third, fourth, 0x1_0000), Byte(first, second, third, fourth, 0x100),
              Byte(first, second, third, fourth, 1)])
  }

  function DecodeGroups(t: string): Option<seq<byte>>
    requires |t| % 4 == 0
  {
    if t == "" then Some([])
    else
      var head := DecodeGroup(t[0], t[1], t[2], t[3], |t| == 4);
      var rest := DecodeGroups(t[4..]);
      if head.None? || rest.None? then None else Some(head.value + rest.value)
  }

  function Decode(t: string): Option<seq<byte>>
  {
    if t == "" || |t| % 4 != 0 then None else DecodeGroups(t)
  }

  method DecodeBase64(value: string) returns (r: Option<seq<byte>>)
    ensures r == Decode(value)
  {
    hide DecodeGroup, DecodeGroups, Prepend;
    if value == "" || |value| % 4 != 0 { return None; }
    var output: seq<byte> := [];
    var offset := 0;
    ghost var groups, turn := |value| / 4, 0;
    assert value[0..] == value;
    Nothing(DecodeGroups(value));
    while offset < |value|
      invariant offset == 4 * turn && 0 <= turn <= groups && |value| == 4 * groups
      invariant Decode(value) == Prepend(output, DecodeGroups(value[offset..]))
      decreases groups - turn
    {
      var group := DecodeGroup(value[offset], value[offset + 1], value[offset + 2], value[offset + 3], offset + 4 == |value|);
      NextGroup(value, offset);
      if group == None {
        Failed(output);
        return None;
      }
      More(output, group.value, DecodeGroups(value[offset + 4..]));
      output := output + group.value;
      offset := offset + 4;
      turn := turn + 1;
    }
    Finished(output, value[offset..]);
    return Some(output);
  }

  function Prepend(done: seq<byte>, rest: Option<seq<byte>>): Option<seq<byte>>
  {
    if rest.None? then None else Some(done + rest.value)
  }

  lemma Nothing(rest: Option<seq<byte>>)
    ensures Prepend([], rest) == rest
  {
    if rest.Some? { assert [] + rest.value == rest.value; }
  }

  lemma Finished(a: seq<byte>, t: string)
    requires t == ""
    ensures Prepend(a, DecodeGroups(t)) == Some(a)
  {
    assert a + [] == a;
  }

  lemma Failed(a: seq<byte>)
    ensures Prepend(a, None) == None
  {
  }

  lemma More(a: seq<byte>, b: seq<byte>, rest: Option<seq<byte>>)
    ensures Prepend(a, Prepend(b, rest)) == Prepend(a + b, rest)
  {
    if rest.Some? { assert a + (b + rest.value) == a + b + rest.value; }
  }

  lemma NextGroup(t: string, k: nat)
    requires |t| % 4 == 0 && k % 4 == 0 && k < |t|
    ensures var head := DecodeGroup(t[k], t[k + 1], t[k + 2], t[k + 3], k + 4 == |t|);
            DecodeGroups(t[k..]) == if head.None? then None else Prepend(head.value, DecodeGroups(t[k + 4..]))
  {
    hide DecodeGroup;
    assert t[k..][4..] == t[k + 4..];
    assert t[k..][0] == t[k] && t[k..][1] == t[k + 1] && t[k..][2] == t[k + 2] && t[k..][3] == t[k + 3];
  }

  //
  // The two are inverse
  //

  /** Four sextets and three bytes are the same bits. */
  lemma Bits(first: sextet, second: sextet, third: sextet, fourth: sextet)
    ensures Byte(first, second, third, fourth, 0x1_0000) == first * 4 + second / 16
    ensures Byte(first, second, third, fourth, 0x100) == second % 16 * 16 + third / 4
    ensures Byte(first, second, third, fourth, 1) == third % 4 * 64 + fourth
  {
    var high, middle, low := first * 4 + second / 16, second % 16 * 16 + third / 4, third % 4 * 64 + fourth;
    assert first * 0x4_0000 + second * 0x1000 + third * 0x40 + fourth == high * 0x1_0000 + middle * 0x100 + low;
    CutBytes(high, middle, low);
  }

  lemma CutBytes(high: int, middle: int, low: int)
    requires 0 <= high < 0x100 && 0 <= middle < 0x100 && 0 <= low < 0x100
    ensures var n := high * 0x1_0000 + middle * 0x100 + low;
            n / 0x1_0000 % 0x100 == high && n / 0x100 % 0x100 == middle && n / 1 % 0x100 == low
  {
    var n := high * 0x1_0000 + middle * 0x100 + low;
    assert n / 0x1_0000 == high;
    assert n / 0x100 == high * 0x100 + middle;
  }

  /** ... and back. */
  lemma Sextets(first: sextet, second: sextet, third: sextet, fourth: sextet)
    ensures var a, b, c := first * 4 + second / 16, second % 16 * 16 + third / 4, third % 4 * 64 + fourth;
            && a / 4 == first && a % 4 * 16 + b / 16 == second && b % 16 * 4 + c / 64 == third && c % 64 == fourth
            && a % 4 * 16 == second - second % 16 && b % 16 * 4 == third - third % 4
  {
    var a, b, c := first * 4 + second / 16, second % 16 * 16 + third / 4, third % 4 * 64 + fourth;
    assert a / 4 == first && a % 4 == second / 16;
    assert b / 16 == second % 16 && b % 16 == third / 4;
    assert c / 64 == third % 4 && c % 64 == fourth;
  }

  lemma Group1Decodes(a: byte)
    ensures var g := Group1(a); DecodeGroup(g[0], g[1], g[2], g[3], true) == Some([a])
  {
    hide ValueOf, DigitOf, Byte;
    ValueOfDigit(a / 4);
    ValueOfDigit(a % 4 * 16);
    Bits(a / 4, a % 4 * 16, 0, 0);
  }

  lemma Group2Decodes(a: byte, b: byte)
    ensures var g := Group2(a, b); DecodeGroup(g[0], g[1], g[2], g[3], true) == Some([a, b])
  {
    hide ValueOf, DigitOf, Byte;
    ValueOfDigit(a / 4);
    ValueOfDigit(a % 4 * 16 + b / 16);
    ValueOfDigit(b % 16 * 4);
    Bits(a / 4, a % 4 * 16 + b / 16, b % 16 * 4, 0);
  }

  lemma Group3Decodes(a: byte, b: byte, c: byte, final: bool)
    ensures var g := Group3(a, b, c); DecodeGroup(g[0], g[1], g[2], g[3], final) == Some([a, b, c])
  {
    hide ValueOf, DigitOf, Byte;
    assert (a % 4 * 16 + b / 16) / 16 == a % 4 && (a % 4 * 16 + b / 16) % 16 == b / 16;
    assert (b % 16 * 4 + c / 64) / 4 == b % 16 && (b % 16 * 4 + c / 64) % 4 == c / 64;
    ValueOfDigit(a / 4);
    ValueOfDigit(a % 4 * 16 + b / 16);
    ValueOfDigit(b % 16 * 4 + c / 64);
    ValueOfDigit(c % 64);
    Bits(a / 4, a % 4 * 16 + b / 16, b % 16 * 4 + c / 64, c % 64);
  }

  lemma {:induction false} GroupsInvert(bytes: seq<byte>)
    ensures DecodeGroups(Encode(bytes)) == Some(bytes)
  {
    hide DecodeGroup, Group1, Group2, Group3;
    if |bytes| == 1 {
      Group1Decodes(bytes[0]);
      assert bytes == [bytes[0]] + [];
    } else if |bytes| == 2 {
      Group2Decodes(bytes[0], bytes[1]);
      assert bytes == [bytes[0], bytes[1]] + [];
    } else if |bytes| >= 3 {
      var t, g := Encode(bytes), Group3(bytes[0], bytes[1], bytes[2]);
      GroupsInvert(bytes[3..]);
      Group3Decodes(bytes[0], bytes[1], bytes[2], |t| == 4);
      assert t[4..] == Encode(bytes[3..]);
      assert bytes == [bytes[0], bytes[1], bytes[2]] + bytes[3..];
    }
  }

  /** Every nonempty sequence of bytes is read back from its encoding. */
  lemma DecodeInvertsEncode(bytes: seq<byte>)
    requires bytes != []
    ensures Decode(Encode(bytes)) == Some(bytes)
  {
    hide Encode, DecodeGroups;
    GroupsInvert(bytes);
  }

  lemma Group1Encodes(c0: char, c1: char)
    requires DecodeGroup(c0, c1, '=', '=', true).Some?
    ensures Group1(DecodeGroup(c0, c1, '=', '=', true).value[0]) == [c0, c1, '=', '=']
  {
    hide ValueOf, DigitOf, Byte;
    Bits(ValueOf(c0), ValueOf(c1), 0, 0);
    Sextets(ValueOf(c0), ValueOf(c1), 0, 0);
  }

  lemma Group2Encodes(c0: char, c1: char, c2: char)
    requires c2 != '=' && DecodeGroup(c0, c1, c2, '=', true).Some?
    ensures var g := DecodeGroup(c0, c1, c2, '=', true).value; Group2(g[0], g[1]) == [c0, c1, c2, '=']
  {
    hide ValueOf, DigitOf, Byte;
    Bits(ValueOf(c0), ValueOf(c1), ValueOf(c2), 0);
    Sextets(ValueOf(c0), ValueOf(c1), ValueOf(c2), 0);
  }

  lemma Group3Encodes(c0: char, c1: char, c2: char, c3: char, final: bool)
    requires c2 != '=' && c3 != '=' && DecodeGroup(c0, c1, c2, c3, final).Some?
    ensures var g := DecodeGroup(c0, c1, c2, c3, final).value; Group3(g[0], g[1], g[2]) == [c0, c1, c2, c3]
  {
    hide ValueOf, DigitOf, Byte;
    Bits(ValueOf(c0), ValueOf(c1), ValueOf(c2), ValueOf(c3));
    Sextets(ValueOf(c0), ValueOf(c1), ValueOf(c2), ValueOf(c3));
  }

  /** Padding is accepted only at the very end. */
  lemma PaddedIsFinal(c0: char, c1: char, c2: char, c3: char, final: bool)
    requires DecodeGroup(c0, c1, c2, c3, final).Some?
    ensures c2 == '=' ==> c3 == '='
    ensures c3 == '=' ==> final
  {
  }

  lemma LastGroupEncodes(t: string)
    requires |t| == 4 && DecodeGroup(t[0], t[1], t[2], t[3], true).Some?
    ensures Encode(DecodeGroup(t[0], t[1], t[2], t[3], true).value) == t
  {
    hide DecodeGroup, Group1, Group2, Group3;
    var g := DecodeGroup(t[0], t[1], t[2], t[3], true).value;
    PaddedIsFinal(t[0], t[1], t[2], t[3], true);
    assert t == [t[0], t[1], t[2], t[3]];
    if t[2] == '=' {
      Group1Encodes(t[0], t[1]);
    } else if t[3] == '=' {
      Group2Encodes(t[0], t[1], t[2]);
    } else {
      Group3Encodes(t[0], t[1], t[2], t[3], true);
      assert g[3..] == [];
    }
  }

  lemma {:induction false} GroupsEncode(t: string)
    requires |t| % 4 == 0 && DecodeGroups(t).Some?
    ensures Encode(DecodeGroups(t).value) == t
    ensures |DecodeGroups(t).value| == |t| / 4 * 3 - Padding(t)
  {
    hide DecodeGroup, Group1, Group2, Group3, Encode;
    if t != "" {
      var head := DecodeGroup(t[0], t[1], t[2], t[3], |t| == 4).value;
      var rest := DecodeGroups(t[4..]).value;
      GroupsEncode(t[4..]);
      PaddedIsFinal(t[0], t[1], t[2], t[3], |t| == 4);
      if |t| == 4 {
        LastGroupEncodes(t);
        assert DecodeGroups(t).value == head;
      } else {
        Group3Encodes(t[0], t[1], t[2], t[3], false);
        EncodeMore(head, rest);
        assert t == [t[0], t[1], t[2], t[3]] + t[4..];
      }
    } else {
      assert Encode([]) == "" by { EncodeNothing(); }
    }
  }

  lemma EncodeNothing()
    ensures Encode([]) == ""
  {
  }

  lemma EncodeMore(head: seq<byte>, rest: seq<byte>)
    requires |head| == 3
    ensures Encode(head + rest) == Group3(head[0], head[1], head[2]) + Encode(rest)
  {
    hide Group3;
    assert (head + rest)[3..] == rest;
  }

  function Padding(t: string): nat
    requires |t| % 4 == 0
  {
    if t == "" then 0 else if t[|t| - 2] == '=' then 2 else if t[|t| - 1] == '=' then 1 else 0
  }

  /** Only encodings are accepted: each accepted text is the encoding of its bytes, of
      which there are three quarters of its length less the padding. */
  lemma EncodeInvertsDecode(t: string)
    requires Decode(t).Some?
    ensures Decode(t).value != [] && Encode(Decode(t).value) == t
    ensures |Decode(t).value| == |t| / 4 * 3 - Padding(t)
  {
    hide Encode, DecodeGroups;
    GroupsEncode(t);
    EncodeNothing();
  }

  /** Two accepted texts with the same bytes are the same text. */
  lemma DecodeInjective(s: string, t: string)
    requires Decode(s).Some? && Decode(s) == Decode(t)
    ensures s == t
  {
    EncodeInvertsDecode(s);
    EncodeInvertsDecode(t);
  }
}
