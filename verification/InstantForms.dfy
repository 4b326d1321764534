/**
 The texts that ParseInstant of native_runtime/cpp/release_contract.cc accepts, as written
 forms: exactly these are read, each as the instant that it is a form of.
 */
module InstantForms {
  import opened Primitives
  import opened SortedMap
  import opened Json
  import opened Civil
  import opened Instants

  //
  // Written forms
  //

  datatype Zone = Zulu | Shifted(behind: bool, hour: string, minute: string)

  datatype Form = Form(
    year: string, month: string, day: string, hour: string, minute: string, second: string,
    fraction: Option<string>, zone: Zone)

  /** A number of fixed width. */
  predicate IsField(t: string, width: nat, limit: nat)
  {
    |t| == width && AllDigits(t) && DigitsValue(t) <= limit
  }

  predicate IsZone(z: Zone) { z.Shifted? ==> IsField(z.hour, 2, 23) && IsField(z.minute, 2, 59) }

  predicate IsForm(f: Form)
  {
    && IsField(f.year, 4, 9999) && IsField(f.month, 2, 12) && IsField(f.day, 2, 31)
    && ValidDate(Date(DigitsValue(f.year), DigitsValue(f.month), DigitsValue(f.day)))
    && IsField(f.hour, 2, 23) && IsField(f.minute, 2, 59) && IsField(f.second, 2, 59)
    && (f.fraction.Some? ==> f.fraction.value != "" && AllDigits(f.fraction.value))
    && IsZone(f.zone)
  }

  function ClockPart(f: Form): string
  {
    f.year + "-" + f.month + "-" + f.day + "T" + f.hour + ":" + f.minute + ":" + f.second
  }

  function FractionPart(fraction: Option<string>): string { if fraction.Some? then "." + fraction.value else "" }

  function ZonePart(z: Zone): string
  {
    match z
    case Zulu => "Z"
    case Shifted(behind, hour, minute) => (if behind then "-" else "+") + hour + ":" + minute
  }

  function FormText(f: Form): string { ClockPart(f) + FractionPart(f.fraction) + ZonePart(f.zone) }

  /** A fraction is cut or filled up to six digits. */
  function SixDigits(t: string): string { (t + "000000")[..6] }

  function ClockSeconds(f: Form): int
    requires IsForm(f)
  {
    var date := Date(DigitsValue(f.year), DigitsValue(f.month), DigitsValue(f.day));
    DaysFromCivil(date) * 86400 + DigitsValue(f.hour) * 3600 + DigitsValue(f.minute) * 60 + DigitsValue(f.second)
  }

  /** How many seconds a clock in the zone is ahead of UTC. */
  function ZoneSeconds(z: Zone): int
    requires IsZone(z)
  {
    if z.Zulu? then 0
    else
      var offset: int := DigitsValue(z.hour) * 3600 + DigitsValue(z.minute) * 60;
      if z.behind then -offset else offset
  }

  function FractionMicros(fraction: Option<string>): int
    requires fraction.Some? ==> AllDigits(fraction.value)
  {
    if fraction.Some? then DigitsValue(SixDigits(fraction.value)) else 0
  }

  /** The instant that a form is a form of. */
  function Meaning(f: Form): Instant
    requires IsForm(f)
  {
    Instant(ClockSeconds(f) - ZoneSeconds(f.zone), FractionMicros(f.fraction))
  }

  ghost predicate Denotes(s: string, i: Instant)
  {
    exists f :: IsForm(f) && s == FormText(f) && i == Meaning(f)
  }

  //
  // Fields
  //

  lemma {:induction false} DigitsBelow(t: string)
    requires AllDigits(t)
    ensures DigitsValue(t) < Pow10(|t|)
  {
    if t != [] { DigitsBelow(t[..|t| - 1]); }
  }

  lemma FieldReads(t: string)
    requires AllDigits(t) && (|t| == 2 || |t| == 4)
    ensures Component(t) == Some(DigitsValue(t)) && DigitsValue(t) < 10000
  {
    hide DigitsValue;
    DigitsBelow(t);
    assert Pow10(2) == 100 && Pow10(4) == 10000;
  }

  //
  // Fractions
  //

  lemma {:induction false} RunReads(s: string, zone: nat, t: string, done: nat)
    requires zone + |t| <= |s| && s[zone..zone + |t|] == t && AllDigits(t) && done <= |t|
    requires zone + |t| < |s| ==> !IsDigit(s[zone + |t|])
    ensures FractionFrom(s, zone + done, done, DigitsValue(t[..AtMostSix(done)]))
         == Fraction(DigitsValue(t[..AtMostSix(|t|)]), |t|, zone + |t|)
    decreases |t| - done
  {
    if done < |t| {
      assert s[zone + done] == t[done];
      if done < 6 {
        var more := t[..done + 1];
        assert more[..|more| - 1] == t[..done];
      }
      RunReads(s, zone, t, done + 1);
    }
  }

  lemma {:induction false} RunFound(s: string, zone: nat, digits: nat, micros: int)
    requires zone <= |s|
    ensures var n := FractionFrom(s, zone, digits, micros).zone;
            AllDigits(s[zone..n]) && (n < |s| ==> !IsDigit(s[n]))
    decreases |s| - zone
  {
    if zone < |s| && IsDigit(s[zone]) {
      var next := if digits < 6 then micros * 10 + (s[zone] as int - '0' as int) else micros;
      RunFound(s, zone + 1, digits + 1, next);
      var n := FractionFrom(s, zone + 1, digits + 1, next).zone;
      assert s[zone..n] == [s[zone]] + s[zone + 1..n];
    }
  }

  lemma {:induction false} PadFills(u: string)
    requires AllDigits(u) && |u| <= 6
    ensures AllDigits(SixDigits(u)) && PadMicros(DigitsValue(u), |u|) == DigitsValue(SixDigits(u))
    decreases 6 - |u|
  {
    if |u| == 6 {
      assert SixDigits(u) == u;
    } else {
      var more := u + "0";
      assert more[..|more| - 1] == u;
      PadFills(more);
      assert SixDigits(more) == SixDigits(u);
    }
  }

  lemma PadMeans(t: string)
    requires AllDigits(t)
    ensures AllDigits(SixDigits(t)) && PadMicros(DigitsValue(t[..AtMostSix(|t|)]), |t|) == DigitsValue(SixDigits(t))
  {
    hide DigitsValue;
    if |t| < 6 {
      assert t[..|t|] == t;
      PadFills(t);
    } else {
      assert SixDigits(t) == t[..6];
    }
  }

  /** A point and a run of digits that ends. */
  lemma FractionMeans(s: string, t: string)
    requires |s| >= 20 && s[19] == '.' && 20 + |t| <= |s| && s[20..20 + |t|] == t && AllDigits(t) && t != ""
    requires 20 + |t| < |s| ==> !IsDigit(s[20 + |t|])
    ensures AllDigits(SixDigits(t)) && FractionAt(s) == Some((DigitsValue(SixDigits(t)), 20 + |t|))
  {
    hide DigitsValue, FractionFrom, PadMicros, SixDigits;
    RunReads(s, 20, t, 0);
    assert t[..0] == [];
    EmptyDigits();
    PadMeans(t);
  }

  //
  // Every form is read
  //

  lemma ClockPartReads(s: string, f: Form)
    requires IsForm(f) && |s| >= 20 && s[..19] == ClockPart(f)
    ensures ClockAt(s) == Some(ClockSeconds(f))
  {
    hide DigitsValue, DaysFromCivil, ValidDate, Component;
    ClockSlices(s, f.year, f.month, f.day, f.hour, f.minute, f.second);
    FieldReads(f.year);
    FieldReads(f.month);
    FieldReads(f.day);
    FieldReads(f.hour);
    FieldReads(f.minute);
    FieldReads(f.second);
  }

  lemma ZonePartReads(s: string, n: nat, z: Zone)
    requires IsZone(z) && n <= |s| && s[n..] == ZonePart(z)
    ensures ZoneAt(s, n) == Some(ZoneSeconds(z))
  {
    hide DigitsValue, Component;
    var t := ZonePart(z);
    assert s[n] == t[0];
    if z.Shifted? {
      assert s[n + 3] == t[3] && s[n + 1..n + 3] == t[1..3] == z.hour && s[n + 4..n + 6] == t[4..6] == z.minute;
      FieldReads(z.hour);
      FieldReads(z.minute);
    }
  }

  lemma ZoneHead(z: Zone)
    requires IsZone(z)
    ensures ZonePart(z) != "" && ZonePart(z)[0] in {'Z', '+', '-'} && (z.Shifted? ==> |ZonePart(z)| == 6)
  {
    hide DigitsValue;
  }

  lemma FormParts(f: Form)
    requires IsForm(f)
    ensures var s := FormText(f);
            && |s| >= 20 && s[..19] == ClockPart(f) && s[19..] == FractionPart(f.fraction) + ZonePart(f.zone)
  {
    hide DigitsValue, ValidDate, ZonePart;
    ZoneHead(f.zone);
    assert |ClockPart(f)| == 19;
  }

  lemma FormsAreRead(f: Form)
    requires IsForm(f)
    ensures ReadInstant(FormText(f)) == Some(Meaning(f))
  {
    hide ClockAt, FractionAt, ZoneAt, ClockPart, ZonePart, FormText, ClockSeconds, ZoneSeconds, DigitsValue, ValidDate, SixDigits;
    var s := FormText(f);
    FormParts(f);
    ClockPartReads(s, f);
    ZoneHead(f.zone);
    var tail := s[19..];
    assert s[19] == tail[0];
    if f.fraction.Some? {
      var t := f.fraction.value;
      var n := 20 + |t|;
      assert s[20..n] == tail[1..1 + |t|] == t && s[n] == tail[1 + |t|] == ZonePart(f.zone)[0];
      FractionMeans(s, t);
      assert s[n..] == tail[1 + |t|..] == ZonePart(f.zone);
      ZonePartReads(s, n, f.zone);
    } else {
      NoFraction(s);
      assert tail == ZonePart(f.zone);
      ZonePartReads(s, 19, f.zone);
    }
  }

  lemma NoFraction(s: string)
    requires |s| >= 20 && s[19] != '.'
    ensures FractionAt(s) == Some((0, 19))
  {
  }

  //
  // Everything that is read is a form
  //

  /** The clock at the head of an accepted text, with whatever follows it. */
  function FormOf(s: string, fraction: Option<string>, zone: Zone): Form
    requires |s| >= 20
  {
    Form(s[0..4], s[5..7], s[8..10], s[11..13], s[14..16], s[17..19], fraction, zone)
  }

  lemma ClockFound(s: string, fraction: Option<string>, zone: Zone)
    requires |s| >= 20 && ClockAt(s).Some? && IsZone(zone)
    requires fraction.Some? ==> fraction.value != "" && AllDigits(fraction.value)
    ensures var f := FormOf(s, fraction, zone); IsForm(f) && ClockPart(f) == s[..19]
  {
    hide DigitsValue, DaysFromCivil, DaysInMonth;
    var f := FormOf(s, fraction, zone);
    FieldReads(f.year);
    FieldReads(f.month);
    FieldReads(f.day);
    FieldReads(f.hour);
    FieldReads(f.minute);
    FieldReads(f.second);
    DaysAtMost31(Date(DigitsValue(f.year), DigitsValue(f.month), DigitsValue(f.day)));
    ClockJoins(s);
  }

  lemma ClockJoins(s: string)
    requires |s| >= 20 && s[4] == '-' && s[7] == '-' && s[10] == 'T' && s[13] == ':' && s[16] == ':'
    ensures s[0..4] + "-" + s[5..7] + "-" + s[8..10] + "T" + s[11..13] + ":" + s[14..16] + ":" + s[17..19] == s[..19]
  {
    assert s[0..4] + "-" + s[5..7] == s[..7];
    assert s[..7] + "-" + s[8..10] == s[..10];
    assert s[..10] + "T" + s[11..13] == s[..13];
    assert s[..13] + ":" + s[14..16] == s[..16];
    assert s[..16] + ":" + s[17..19] == s[..19];
  }

  lemma ZoneFound(s: string, n: nat) returns (z: Zone)
    requires n <= |s| && ZoneAt(s, n).Some?
    ensures IsZone(z) && ZonePart(z) == s[n..]
  {
    hide DigitsValue;
    if n < |s| && s[n] == 'Z' && n + 1 == |s| {
      z := Zulu;
    } else {
      z := Shifted(s[n] == '-', s[n + 1..n + 3], s[n + 4..n + 6]);
      FieldReads(z.hour);
      FieldReads(z.minute);
      assert s[n..] == [s[n]] + s[n + 1..n + 3] + [s[n + 3]] + s[n + 4..n + 6];
    }
  }

  lemma ReadIsForm(s: string) returns (f: Form)
    requires ReadInstant(s).Some?
    ensures IsForm(f) && s == FormText(f)
  {
    hide ClockAt, ZoneAt, ClockPart, ZonePart, DigitsValue, ValidDate, FractionFrom, PadMicros, IsForm;
    var n := FractionAt(s).value.1;
    var z := ZoneFound(s, n);
    var fraction: Option<string> := None;
    if s[19] == '.' {
      fraction := Some(s[20..n]);
      RunFound(s, 20, 0, 0);
      assert s[19..n] == "." + s[20..n];
    }
    f := FormOf(s, fraction, z);
    ClockFound(s, fraction, z);
    assert s == s[..19] + s[19..n] + s[n..];
  }

  /** ParseInstant accepts exactly the written forms, each as the instant that it is a form of. */
  lemma AcceptsExactlyForms(s: string, i: Instant)
    ensures ReadInstant(s) == Some(i) <==> Denotes(s, i)
  {
    hide ReadInstant, FormText, IsForm, Meaning;
    if ReadInstant(s) == Some(i) {
      var f := ReadIsForm(s);
      FormsAreRead(f);
    }
    if f :| IsForm(f) && s == FormText(f) && i == Meaning(f) {
      FormsAreRead(f);
    }
  }

  //
  // Exact conditions
  //

  /** What is printed is read back exactly in the years that take four digits. */
  lemma ReadsBackExactly(i: Instant)
    requires 0 <= i.microseconds < 1000000
    ensures ReadInstant(FormatInstant(i)) == Some(i) <==> FourDigitYear(i.seconds)
    ensures !FourDigitYear(i.seconds) ==> ReadInstant(FormatInstant(i)).None?
  {
    hide ReadInstant, FormatInstant, FourDigitYear;
    if FourDigitYear(i.seconds) {
      ReadInvertsFormat(i);
    } else {
      OtherYearsAreRefused(i);
    }
  }

  lemma OtherYearsAreRefused(i: Instant)
    requires !FourDigitYear(i.seconds)
    ensures ReadInstant(FormatInstant(i)).None?
  {
    hide CivilFromDays, Padded, DigitsValue, FractionText, FractionAt, ZoneAt, ValidDate, DaysFromCivil;
    var s := FormatInstant(i);
    var y := CivilFromDays(i.seconds / 86400).year;
    var t := Padded(y, 4);
    YearHead(y);
    assert t <= s by { assert s[..|t|] == t; }
    if |s| >= 20 {
      assert y < 0 ==> s[0..4][0] == '-';
      assert y > 9999 ==> s[4] == t[4];
    }
  }

  lemma YearHead(y: int)
    requires y < 0 || y > 9999
    ensures var t := Padded(y, 4); t != "" && (if y < 0 then t[0] == '-' else |t| > 4 && IsDigit(t[4]))
  {
    hide NatText, DigitsValue;
    if y > 9999 {
      var t := NatText(y);
      NatTextValue(y);
      if |t| <= 4 {
        DigitsBelow(t);
        PowersGrow(|t|);
      }
      assert Zeros(4 - |t|) + t == t;
    }
  }

  lemma PowersGrow(k: nat)
    requires k <= 4
    ensures Pow10(k) <= 10000
  {
    assert Pow10(0) == 1 && Pow10(1) == 10 && Pow10(2) == 100 && Pow10(3) == 1000 && Pow10(4) == 10000;
  }

  /** The outcome in full: a supported version is never blocked or warned about, whatever the texts;
      otherwise both texts must be instants, and the deadline decides. */
  lemma PolicyExactly(supported: bool, now: string, enforcedAfter: string)
    ensures var r := PolicyOutcomeOf(supported, now, enforcedAfter);
            && (r == UpdateAvailable <==> supported)
            && (r == InvalidInstant <==>
                  !supported && ((forall i :: !Denotes(now, i)) || (forall i :: !Denotes(enforcedAfter, i))))
            && (r == SupportPolicyBlocked <==>
                  !supported && exists i, j :: Denotes(now, i) && Denotes(enforcedAfter, j) && Micros(i) >= Micros(j))
  {
    hide ReadInstant, Denotes, Micros, AtOrAfter;
    forall i
      ensures Denotes(now, i) <==> ReadInstant(now) == Some(i)
      ensures Denotes(enforcedAfter, i) <==> ReadInstant(enforcedAfter) == Some(i)
    {
      AcceptsExactlyForms(now, i);
      AcceptsExactlyForms(enforcedAfter, i);
    }
    if ReadInstant(now).Some? && ReadInstant(enforcedAfter).Some? {
      assert Denotes(now, ReadInstant(now).value) && Denotes(enforcedAfter, ReadInstant(enforcedAfter).value);
      InOrder(now, enforcedAfter);
    }
  }

  lemma InOrder(a: string, b: string)
    requires ReadInstant(a).Some? && ReadInstant(b).Some?
    ensures AtOrAfter(ReadInstant(a).value, ReadInstant(b).value) <==> Micros(ReadInstant(a).value) >= Micros(ReadInstant(b).value)
  {
    hide ReadInstant;
    MicrosecondsInRange(a);
    MicrosecondsInRange(b);
  }
}
