/**
 ISO-8601 instants: parsing with an offset, normalised printing, and the deadline
 comparison built on them (native_runtime/cpp/release_contract.cc).
 */
module Instants {
  import opened Primitives
  import opened SortedMap
  import opened Json
  import opened Civil

  datatype Instant = Instant(seconds: int, microseconds: int)

  //
  // Parsing
  //

  /** ParseComponent: decimal digits, saturating like strtoll. */
  function Component(t: string): (r: Option<int>)
    ensures r.Some? <==> t != [] && AllDigits(t)
  {
    if t == [] || !AllDigits(t) then None
    else Some(if DigitsValue(t) > INT64_MAX then INT64_MAX else DigitsValue(t))
  }

  datatype Fraction = Fraction(microseconds: int, digits: nat, zone: nat)

  /** The digit loop of ParseInstant from position `zone` on. */
  function FractionFrom(s: string, zone: nat, digits: nat, micros: int): (f: Fraction)
    requires zone <= |s|
    ensures zone <= f.zone <= |s| && f.digits == digits + f.zone - zone
    decreases |s| - zone
  {
    if zone < |s| && IsDigit(s[zone]) then
      FractionFrom(s, zone + 1, digits + 1, if digits < 6 then micros * 10 + (s[zone] as int - '0' as int) else micros)
    else Fraction(micros, digits, zone)
  }

  function PadMicros(micros: int, digits: nat): int
    decreases 6 - digits
  {
    if digits < 6 then PadMicros(micros * 10, digits + 1) else micros
  }

  /** The fraction at position 19, if there is one: its value and where the zone starts. */
  function FractionAt(s: string): (r: Option<(int, nat)>)
    requires |s| >= 20
    ensures r.Some? ==> r.value.1 <= |s|
  {
    if s[19] != '.' then Some((0, 19))
    else
      var f := FractionFrom(s, 20, 0, 0);
      if f.zone == 20 then None else Some((PadMicros(f.microseconds, f.digits), f.zone))
  }

  /** The offset in seconds that the zone designator at `zone` denotes. */
  function ZoneAt(s: string, zone: nat): Option<int>
    requires zone <= |s|
  {
    if zone < |s| && s[zone] == 'Z' && zone + 1 == |s| then Some(0)
    else if zone + 6 == |s| && (s[zone] == '+' || s[zone] == '-') && s[zone + 3] == ':' then
      var hour, minute := Component(s[zone + 1..zone + 3]), Component(s[zone + 4..zone + 6]);
      if hour.None? || minute.None? || hour.value > 23 || minute.value > 59 then None
      else
        var offset := hour.value * 3600 + minute.value * 60;
        Some(if s[zone] == '-' then -offset else offset)
    else None
  }

  /** The seconds that the first nineteen characters denote when read as UTC. */
  function ClockAt(s: string): Option<int>
    requires |s| >= 20
  {
    if s[4] != '-' || s[7] != '-' || s[10] != 'T' || s[13] != ':' || s[16] != ':' then None
    else
      var year, month, day := Component(s[0..4]), Component(s[5..7]), Component(s[8..10]);
      var hour, minute, second := Component(s[11..13]), Component(s[14..16]), Component(s[17..19]);
      if year.None? || month.None? || day.None? || hour.None? || minute.None? || second.None? then None
      else
        var date := Date(year.value, month.value, day.value);
        if !ValidDate(date) || hour.value > 23 || minute.value > 59 || second.value > 59 then None
        else Some(DaysFromCivil(date) * 86400 + hour.value * 3600 + minute.value * 60 + second.value)
  }

  function ReadInstant(s: string): Option<Instant>
  {
    if |s| < 20 then None
    else
      var clock, fraction := ClockAt(s), FractionAt(s);
      if clock.None? || fraction.None? then None
      else
        var zone := ZoneAt(s, fraction.value.1);
        if zone.None? then None else Some(Instant(clock.value - zone.value, fraction.value.0))
  }

  /** ParseInstant; a result of None is a thrown JsonError. */
  method ParseInstant(s: string) returns (r: Option<Instant>)
    ensures r == ReadInstant(s)
  {
    hide Component, DaysFromCivil, ValidDate, DigitsValue;
    if |s| < 20 || s[4] != '-' || s[7] != '-' || s[10] != 'T' || s[13] != ':' || s[16] != ':' {
      return None;
    }
    var clock := ClockAt(s);
    if clock.None? { return None; }
    var zone := 19;
    var microseconds := 0;
    if s[zone] == '.' {
      zone := zone + 1;
      var start := zone;
      var digits := 0;
      while zone < |s| && IsDigit(s[zone])
        invariant start <= zone <= |s| && digits == zone - start
        invariant FractionFrom(s, zone, digits, microseconds) == FractionFrom(s, start, 0, 0)
      {
        if digits < 6 { microseconds := microseconds * 10 + (s[zone] as int - '0' as int); }
        digits := digits + 1;
        zone := zone + 1;
      }
      if zone == start { return None; }
      ghost var read, count := microseconds, digits;
      while digits < 6
        invariant PadMicros(microseconds, digits) == PadMicros(read, count)
      {
        microseconds := microseconds * 10;
        digits := digits + 1;
      }
      assert FractionAt(s) == Some((microseconds, zone));
    }
    var offset := ZoneAt(s, zone);
    if offset.None? { return None; }
    r := Some(Instant(clock.value - offset.value, microseconds));
  }

  //
  // Printing
  //

  function Zeros(n: int): (t: string)
    ensures AllDigits(t) && |t| == if n > 0 then n else 0
  {
    if n <= 0 then [] else "0" + Zeros(n - 1)
  }

  /** printf's %0wd */
  function Padded(n: int, width: nat): string
  {
    if n >= 0 then Zeros(width - |NatText(n)|) + NatText(n)
    else "-" + Zeros(width - 1 - |NatText(-n)|) + NatText(-n)
  }

  /** Rounds down although C++ division truncates. */
  function FloorDiv(value: int, divisor: int): (q: int)
    requires divisor > 0
    ensures q == value / divisor
  {
    var quotient := Quotient(value, divisor);
    FloorOfQuotient(value, divisor);
    if value - quotient * divisor < 0 then quotient - 1 else quotient
  }

  lemma FloorOfQuotient(value: int, divisor: int)
    requires divisor > 0
    ensures var q := Quotient(value, divisor);
            value / divisor == if value - q * divisor < 0 then q - 1 else q
  {
    if value < 0 {
      var q, r := -value / divisor, -value % divisor;
      assert value - Quotient(value, divisor) * divisor == -r;
      if r == 0 {
        QuotientUnique(value, divisor, -q, 0);
      } else {
        assert value == (-q - 1) * divisor + (divisor - r);
        QuotientUnique(value, divisor, -q - 1, divisor - r);
      }
    }
  }

  /** Year to second, as FormatInstant writes them. */
  function ClockText(seconds: int): string
  {
    var days := FloorDiv(seconds, 86400);
    var d := CivilFromDays(days);
    var rest := seconds - days * 86400;
    Padded(d.year, 4) + "-" + Padded(d.month, 2) + "-" + Padded(d.day, 2) + "T" +
    Padded(rest / 3600, 2) + ":" + Padded(rest % 3600 / 60, 2) + ":" + Padded(rest % 60, 2)
  }

  function FractionText(microseconds: int): string
  {
    "." + if microseconds % 1000 == 0 then Padded(microseconds / 1000, 3) else Padded(microseconds, 6)
  }

  function FormatInstant(i: Instant): string
  {
    ClockText(i.seconds) + FractionText(i.microseconds) + "Z"
  }

  /** The same instant as a clock at the given offset from UTC would show it. */
  function FormatAtOffset(i: Instant, behind: bool, hour: nat, minute: nat): string
  {
    ClockText(i.seconds + (if behind then -1 else 1) * (hour * 3600 + minute * 60)) +
    FractionText(i.microseconds) + ZoneText(behind, hour, minute)
  }

  //
  // Numbers of fixed width
  //

  function Pow10(k: nat): nat
  {
    if k == 0 then 1 else 10 * Pow10(k - 1)
  }

  lemma {:induction false} NatTextLength(n: nat, k: nat)
    requires k > 0 && n < Pow10(k)
    ensures |NatText(n)| <= k
  {
    if n >= 10 {
      assert k > 1;
      NatTextLength(n / 10, k - 1);
    }
  }

  lemma {:induction false} LeadingZeros(k: int, t: string)
    requires AllDigits(t)
    ensures AllDigits(Zeros(k) + t) && DigitsValue(Zeros(k) + t) == DigitsValue(t)
    decreases |t|, k
  {
    var z := Zeros(k) + t;
    if t != [] {
      assert z[..|z| - 1] == Zeros(k) + t[..|t| - 1];
      LeadingZeros(k, t[..|t| - 1]);
    } else if k > 0 {
      ZerosSnoc(k);
      assert z[..|z| - 1] == Zeros(k - 1) + t;
      LeadingZeros(k - 1, t);
    }
  }

  lemma {:induction false} ZerosSnoc(k: int)
    requires k > 0
    ensures Zeros(k) == Zeros(k - 1) + "0"
  {
    if k > 1 { ZerosSnoc(k - 1); }
  }

  lemma PaddedReads(n: int, width: nat)
    requires width > 0 && 0 <= n < Pow10(width)
    ensures |Padded(n, width)| == width && AllDigits(Padded(n, width))
    ensures DigitsValue(Padded(n, width)) == n
  {
    hide NatText, DigitsValue;
    NatTextLength(n, width);
    NatTextValue(n);
    LeadingZeros(width - |NatText(n)|, NatText(n));
  }

  lemma PaddedComponent(n: int, width: nat)
    requires 0 < width <= 4 && 0 <= n < Pow10(width)
    ensures |Padded(n, width)| == width && Component(Padded(n, width)) == Some(n)
  {
    hide NatText, DigitsValue, Padded;
    PaddedReads(n, width);
    assert Pow10(1) == 10 && Pow10(2) == 100 && Pow10(3) == 1000 && Pow10(4) == 10000;
    assert width == 1 || width == 2 || width == 3 || width == 4;
  }

  //
  // Printing and reading are inverse
  //

  lemma ClockSlices(s: string, year: string, month: string, day: string, hour: string, minute: string, second: string)
    requires |s| >= 20 && |year| == 4
    requires |month| == |day| == |hour| == |minute| == |second| == 2
    requires s[..19] == year + "-" + month + "-" + day + "T" + hour + ":" + minute + ":" + second
    ensures s[0..4] == year && s[5..7] == month && s[8..10] == day
    ensures s[11..13] == hour && s[14..16] == minute && s[17..19] == second
    ensures s[4] == '-' && s[7] == '-' && s[10] == 'T' && s[13] == ':' && s[16] == ':'
  {
    var t := s[..19];
    assert s[0..4] == t[0..4] && s[5..7] == t[5..7] && s[8..10] == t[8..10];
    assert s[11..13] == t[11..13] && s[14..16] == t[14..16] && s[17..19] == t[17..19];
    assert s[4] == t[4] && s[7] == t[7] && s[10] == t[10] && s[13] == t[13] && s[16] == t[16];
  }

  predicate FourDigitYear(seconds: int)
  {
    0 <= CivilFromDays(seconds / 86400).year <= 9999
  }

  lemma ClockReads(s: string, seconds: int)
    requires |s| >= 20 && FourDigitYear(seconds) && s[..19] == ClockText(seconds)
    ensures ClockAt(s) == Some(seconds)
  {
    hide CivilFromDays, DaysFromCivil, Padded, Component, DaysInMonth;
    var days := seconds / 86400;
    var d := CivilFromDays(days);
    var rest := seconds - days * 86400;
    DaysInvertsCivil(days);
    DaysAtMost31(d);
    assert Pow10(4) == 10000 && Pow10(2) == 100;
    PaddedComponent(d.year, 4);
    PaddedComponent(d.month, 2);
    PaddedComponent(d.day, 2);
    PaddedComponent(rest / 3600, 2);
    PaddedComponent(rest % 3600 / 60, 2);
    PaddedComponent(rest % 60, 2);
    ClockSlices(s, Padded(d.year, 4), Padded(d.month, 2), Padded(d.day, 2),
                Padded(rest / 3600, 2), Padded(rest % 3600 / 60, 2), Padded(rest % 60, 2));
  }

  lemma DaysAtMost31(d: Date)
    requires ValidDate(d)
    ensures d.day <= 31
  {
  }

  lemma ClockTextLength(seconds: int)
    requires FourDigitYear(seconds)
    ensures |ClockText(seconds)| == 19
  {
    hide CivilFromDays, DaysFromCivil, Padded, DaysInMonth;
    var days := seconds / 86400;
    var d := CivilFromDays(days);
    var rest := seconds - days * 86400;
    DaysInvertsCivil(days);
    DaysAtMost31(d);
    assert Pow10(4) == 10000 && Pow10(2) == 100;
    PaddedReads(d.year, 4);
    PaddedReads(d.month, 2);
    PaddedReads(d.day, 2);
    PaddedReads(rest / 3600, 2);
    PaddedReads(rest % 3600 / 60, 2);
    PaddedReads(rest % 60, 2);
  }

  /** The digit loop reads a run of at most six digits as its value. */
  lemma {:induction false} FractionReads(s: string, zone: nat, t: string, done: nat)
    requires zone + |t| <= |s| && s[zone..zone + |t|] == t && AllDigits(t) && |t| <= 6 && done <= |t|
    requires zone + |t| < |s| ==> !IsDigit(s[zone + |t|])
    ensures FractionFrom(s, zone + done, done, DigitsValue(t[..done])) == Fraction(DigitsValue(t), |t|, zone + |t|)
    decreases |t| - done
  {
    if done == |t| {
      assert t[..done] == t;
    } else {
      assert s[zone + done] == t[done];
      var more := t[..done + 1];
      assert more[..|more| - 1] == t[..done];
      FractionReads(s, zone, t, done + 1);
    }
  }

  lemma FractionTextReads(s: string, microseconds: int, zone: string)
    requires 0 <= microseconds < 1000000 && |s| >= 20
    requires s[19..] == FractionText(microseconds) + zone && zone != [] && !IsDigit(zone[0])
    ensures FractionAt(s) == Some((microseconds, |s| - |zone|))
  {
    hide Padded, DigitsValue, FractionFrom;
    var t := if microseconds % 1000 == 0 then Padded(microseconds / 1000, 3) else Padded(microseconds, 6);
    assert Pow10(3) == 1000 && Pow10(6) == 1000000;
    if microseconds % 1000 == 0 { PaddedReads(microseconds / 1000, 3); } else { PaddedReads(microseconds, 6); }
    var tail := s[19..];
    assert s[19] == tail[0] && s[20..20 + |t|] == tail[1..1 + |t|] == t;
    assert s[20 + |t|] == tail[1 + |t|] == zone[0];
    FractionReads(s, 20, t, 0);
    assert t[..0] == [];
    EmptyDigits();
    PadThreeOrSix(DigitsValue(t), |t|);
  }

  lemma EmptyDigits()
    ensures DigitsValue([]) == 0
  {
  }

  lemma PadThreeOrSix(v: int, digits: nat)
    requires digits == 3 || digits == 6
    ensures PadMicros(v, digits) == if digits == 3 then v * 1000 else v
  {
    if digits == 3 {
      assert PadMicros(v, 3) == PadMicros(v * 10, 4) == PadMicros(v * 10 * 10, 5) == PadMicros(v * 10 * 10 * 10, 6);
    }
  }

  /** Reading back what FormatInstant prints, for the years it prints with four digits. */
  lemma ReadInvertsFormat(i: Instant)
    requires 0 <= i.microseconds < 1000000 && FourDigitYear(i.seconds)
    ensures ReadInstant(FormatInstant(i)) == Some(i)
  {
    hide ClockText, FractionText, FractionAt, ClockAt;
    var s := FormatInstant(i);
    ClockTextLength(i.seconds);
    assert s[..19] == ClockText(i.seconds);
    assert s[19..] == FractionText(i.microseconds) + "Z";
    ClockReads(s, i.seconds);
    FractionTextReads(s, i.microseconds, "Z");
    assert s[|s| - 1] == 'Z';
  }

  function ZoneText(behind: bool, hour: nat, minute: nat): string
  {
    (if behind then "-" else "+") + Padded(hour, 2) + ":" + Padded(minute, 2)
  }

  lemma ZoneReads(s: string, behind: bool, hour: nat, minute: nat)
    requires hour <= 23 && minute <= 59 && |s| >= 6 && s[|s| - 6..] == ZoneText(behind, hour, minute)
    ensures |ZoneText(behind, hour, minute)| == 6
    ensures ZoneAt(s, |s| - 6) == Some((if behind then -1 else 1) * (hour * 3600 + minute * 60))
  {
    hide Component, Padded;
    assert Pow10(2) == 100;
    PaddedComponent(hour, 2);
    PaddedComponent(minute, 2);
    var z, zone := |s| - 6, s[|s| - 6..];
    assert s[z] == zone[0] && s[z + 3] == zone[3];
    assert s[z + 1..z + 3] == zone[1..3] == Padded(hour, 2);
    assert s[z + 4..z + 6] == zone[4..6] == Padded(minute, 2);
  }

  lemma ZoneTextShape(behind: bool, hour: nat, minute: nat)
    requires hour <= 23 && minute <= 59
    ensures var zone := ZoneText(behind, hour, minute); |zone| == 6 && !IsDigit(zone[0])
  {
    hide Padded;
    assert Pow10(2) == 100;
    PaddedReads(hour, 2);
    PaddedReads(minute, 2);
  }

  /** The offset in which an instant is written does not change what is read. */
  lemma ReadInvertsFormatAtOffset(i: Instant, behind: bool, hour: nat, minute: nat)
    requires 0 <= i.microseconds < 1000000 && hour <= 23 && minute <= 59
    requires FourDigitYear(i.seconds + (if behind then -1 else 1) * (hour * 3600 + minute * 60))
    ensures ReadInstant(FormatAtOffset(i, behind, hour, minute)) == Some(i)
  {
    hide ClockText, FractionText, FractionAt, ClockAt, ZoneAt, ZoneText;
    var s := FormatAtOffset(i, behind, hour, minute);
    var shown := i.seconds + (if behind then -1 else 1) * (hour * 3600 + minute * 60);
    var zone := ZoneText(behind, hour, minute);
    ZoneTextShape(behind, hour, minute);
    ClockTextLength(shown);
    assert s[..19] == ClockText(shown);
    assert s[19..] == FractionText(i.microseconds) + zone;
    ClockReads(s, shown);
    FractionTextReads(s, i.microseconds, zone);
    assert s[|s| - 6..] == zone;
    ZoneReads(s, behind, hour, minute);
  }

  /** The digit loop on another text with the same characters up to its end. */
  lemma {:induction false} FractionSame(s: string, t: string, zone: nat, digits: nat, micros: int)
    requires zone <= |s| && zone <= |t|
    requires var n := FractionFrom(s, zone, digits, micros).zone;
             n < |t| && s[..n] == t[..n] && !IsDigit(t[n])
    ensures FractionFrom(t, zone, digits, micros) == FractionFrom(s, zone, digits, micros)
    decreases |s| - zone
  {
    var n := FractionFrom(s, zone, digits, micros).zone;
    if zone < n {
      assert s[zone] == s[..n][zone] == t[..n][zone] == t[zone];
      FractionSame(s, t, zone + 1, digits + 1, if digits < 6 then micros * 10 + (s[zone] as int - '0' as int) else micros);
    }
  }

  lemma ZuluIsLast(s: string, zone: nat)
    requires s != [] && s[|s| - 1] == 'Z' && zone <= |s| && ZoneAt(s, zone).Some?
    ensures zone == |s| - 1 && ZoneAt(s, zone) == Some(0)
  {
    hide DigitsValue;
  }

  lemma ClockSame(s: string, t: string)
    requires |s| >= 20 && |t| >= 20 && s[..19] == t[..19]
    ensures ClockAt(s) == ClockAt(t)
  {
    hide Component, DaysFromCivil, ValidDate;
    assert forall i :: 0 <= i < 19 ==> s[i] == s[..19][i] == t[..19][i] == t[i];
    assert s[0..4] == t[0..4] && s[5..7] == t[5..7] && s[8..10] == t[8..10];
    assert s[11..13] == t[11..13] && s[14..16] == t[14..16] && s[17..19] == t[17..19];
  }

  /** Whatever text is read with the designator Z is read with an offset as well, as the
      instant that lies so much earlier or later; the fraction may have any length. */
  lemma OffsetShifts(body: string, behind: bool, hour: nat, minute: nat)
    requires hour <= 23 && minute <= 59 && ReadInstant(body + "Z").Some?
    ensures var i := ReadInstant(body + "Z").value;
            ReadInstant(body + ZoneText(behind, hour, minute)) ==
            Some(Instant(i.seconds - (if behind then -1 else 1) * (hour * 3600 + minute * 60), i.microseconds))
  {
    hide ClockAt, ZoneAt, ZoneText, FractionFrom, PadMicros;
    var z, zone := body + "Z", ZoneText(behind, hour, minute);
    var o := body + zone;
    ZoneTextShape(behind, hour, minute);
    assert z[..19] == body[..19] == o[..19];
    ClockSame(z, o);
    ZuluIsLast(z, FractionAt(z).value.1);
    assert o[|body|] == zone[0];
    if z[19] == '.' {
      assert z[..|body|] == body == o[..|body|];
      FractionSame(z, o, 20, 0, 0);
      assert o[19] == body[19] == '.';
    } else {
      assert zone[0] in {'+', '-'} by { ZoneSign(behind, hour, minute); }
    }
    assert o[|o| - 6..] == zone;
    ZoneReads(o, behind, hour, minute);
  }

  lemma ZoneSign(behind: bool, hour: nat, minute: nat)
    ensures ZoneText(behind, hour, minute)[0] in {'+', '-'}
  {
    hide Padded;
  }

  //
  // Deadlines
  //

  /** The microseconds between the epoch and an instant. */
  function Micros(i: Instant): int { i.seconds * 1000000 + i.microseconds }

  function AtMostSix(digits: nat): nat { if digits < 6 then digits else 6 }

  lemma {:induction false} FractionBound(s: string, zone: nat, digits: nat, micros: int)
    requires zone <= |s| && 0 <= micros < Pow10(AtMostSix(digits))
    ensures var f := FractionFrom(s, zone, digits, micros); 0 <= f.microseconds < Pow10(AtMostSix(f.digits))
    decreases |s| - zone
  {
    if zone < |s| && IsDigit(s[zone]) {
      FractionBound(s, zone + 1, digits + 1, if digits < 6 then micros * 10 + (s[zone] as int - '0' as int) else micros);
    }
  }

  lemma {:induction false} PadBound(micros: int, digits: nat)
    requires 0 <= micros < Pow10(AtMostSix(digits))
    ensures 0 <= PadMicros(micros, digits) < Pow10(6)
    decreases 6 - digits
  {
    if digits < 6 { PadBound(micros * 10, digits + 1); }
  }

  /** An accepted text has less than a second of microseconds, however long its fraction is. */
  lemma MicrosecondsInRange(s: string)
    requires ReadInstant(s).Some?
    ensures 0 <= ReadInstant(s).value.microseconds < 1000000
  {
    hide ClockAt, ZoneAt, FractionFrom, PadMicros;
    assert Pow10(0) == 1 && Pow10(6) == 1000000;
    FractionBound(s, 20, 0, 0);
    var f := FractionFrom(s, 20, 0, 0);
    PadBound(f.microseconds, f.digits);
  }

  datatype PolicyOutcome = UpdateAvailable | SupportPolicyBlocked | SupportPolicyWarning | InvalidInstant

  predicate AtOrAfter(a: Instant, b: Instant)
  {
    a.seconds > b.seconds || (a.seconds == b.seconds && a.microseconds >= b.microseconds)
  }

  /** SupportPolicyOutcome, given whether the current version is still supported. */
  function PolicyOutcomeOf(supported: bool, now: string, enforcedAfter: string): PolicyOutcome
  {
    if supported then UpdateAvailable
    else
      var current, deadline := ReadInstant(now), ReadInstant(enforcedAfter);
      if current.None? || deadline.None? then InvalidInstant
      else if AtOrAfter(current.value, deadline.value) then SupportPolicyBlocked
      else SupportPolicyWarning
  }

  /** A deadline is enforced from its microsecond on; how it and the present are written,
      in which offset and with how many fraction digits, makes no difference. */
  lemma DeadlineIgnoresOffsets(now: string, now': string, deadline: string, deadline': string)
    requires ReadInstant(now).Some? && ReadInstant(now').Some? && ReadInstant(deadline).Some? && ReadInstant(deadline').Some?
    requires Micros(ReadInstant(now).value) == Micros(ReadInstant(now').value)
    requires Micros(ReadInstant(deadline).value) == Micros(ReadInstant(deadline').value)
    ensures PolicyOutcomeOf(false, now, deadline) == PolicyOutcomeOf(false, now', deadline')
    ensures PolicyOutcomeOf(false, now, deadline) ==
            if Micros(ReadInstant(now).value) >= Micros(ReadInstant(deadline).value) then SupportPolicyBlocked
            else SupportPolicyWarning
  {
    hide ReadInstant;
    MicrosecondsInRange(now);
    MicrosecondsInRange(now');
    MicrosecondsInRange(deadline);
    MicrosecondsInRange(deadline');
  }
}
