/** Reading an ISO 8601 instant with an offset into the microsecond UTC text of the same instant: what
    is accepted, what instant it denotes, and that the text of an instant is fixed. */
module Instants {
  import opened Outcomes
  import opened Orders
  import opened Decimal
  import opened Calendar
  import opened ForensicTime

  /** `Z` is the zone with offset zero. */
  datatype Zone = Zone(negative: bool, hour: nat, minute: nat)

  datatype Fields = Fields(year: nat, month: nat, day: nat, hour: nat, minute: nat, second: nat, fraction: string, zone: Zone)

  datatype Error = InvalidArgument

  function DigitRun(s: string): (n: nat)
    ensures n <= |s| && AllDigits(s[..n]) && (n == |s| || !IsDigit(s[n]))
  {
    if s == "" || !IsDigit(s[0]) then 0 else 1 + DigitRun(s[1..])
  }

  /** `Z` or `[+-]dd:dd`, to the end of the text. */
  function ReadZone(z: string): Option<Zone> {
    if z == "Z" then Some(Zone(false, 0, 0))
    else if |z| == 6 && (z[0] == '+' || z[0] == '-') && AllDigits(z[1..3]) && z[3] == ':' && AllDigits(z[4..6])
    then Some(Zone(z[0] == '-', ParseNat(z[1..3]), ParseNat(z[4..6])))
    else None
  }

  /** `dddd-dd-ddTdd:dd:dd` */
  predicate HasHead(v: string) {
    && |v| >= 20
    && AllDigits(v[0..4]) && v[4] == '-' && AllDigits(v[5..7]) && v[7] == '-' && AllDigits(v[8..10])
    && v[10] == 'T' && AllDigits(v[11..13]) && v[13] == ':' && AllDigits(v[14..16]) && v[16] == ':' && AllDigits(v[17..19])
  }

  function WithHead(v: string, fraction: string, zone: Option<Zone>): Option<Fields>
    requires HasHead(v)
  {
    if zone.None? then None
    else Some(Fields(ParseNat(v[0..4]), ParseNat(v[5..7]), ParseNat(v[8..10]),
                     ParseNat(v[11..13]), ParseNat(v[14..16]), ParseNat(v[17..19]), fraction, zone.value))
  }

  /** The pattern of the bound: a head, an optional fraction of one to six digits, and a zone. */
  function ReadShape(v: string): (f: Option<Fields>)
    ensures f.Some? ==> AllDigits(f.value.fraction) && |f.value.fraction| <= 6
  {
    if !HasHead(v) then None
    else if v[19] != '.' then WithHead(v, "", ReadZone(v[19..]))
    else
      var k := DigitRun(v[20..]);
      if 1 <= k <= 6 then WithHead(v, v[20..][..k], ReadZone(v[20..][k..])) else None
  }

  /** `new Date(Date.UTC(year, month, 0)).getUTCDate()`: years 0 to 99 are read as 1900 to 1999. */
  function LastDayOfMonth(year: nat, month: nat): int
    requires 1 <= month <= 12
  {
    DaysInMonth(if year <= 99 then 1900 + year else year, month)
  }

  predicate Accepts(f: Fields) {
    && 1 <= f.month <= 12 && 1 <= f.day <= LastDayOfMonth(f.year, f.month)
    && f.hour <= 23 && f.minute <= 59 && f.second <= 59
    && f.zone.hour <= 23 && f.zone.minute <= 59
  }

  /** A calendar date, a clock time and an offset, as RFC 3339 section 5.6 restricts them (leap
      seconds aside). */
  predicate IsInstant(f: Fields) {
    && IsDate(Date(f.year, f.month, f.day))
    && f.hour <= 23 && f.minute <= 59 && f.second <= 59
    && f.zone.hour <= 23 && f.zone.minute <= 59
  }

  /** The one date the check's own calendar misses. */
  predicate IsLeapDayOfYearZero(f: Fields) {
    f.year == 0 && f.month == 2 && f.day == 29
  }

  /** The check accepts every instant but those of 0000-02-29, and nothing else. */
  lemma AcceptsExactlyInstants(f: Fields)
    ensures Accepts(f) <==> IsInstant(f) && !IsLeapDayOfYearZero(f)
  {
    if 1 <= f.month <= 12 {
    }
  }

  function OffsetMinutes(z: Zone): int {
    if z.negative then -(60 * z.hour + z.minute) else 60 * z.hour + z.minute
  }

  function UtcSeconds(f: Fields): int
    requires IsInstant(f)
  {
    DayOfDate(Date(f.year, f.month, f.day)) * DAY_SECONDS + 3600 * f.hour + 60 * f.minute + f.second - 60 * OffsetMinutes(f.zone)
  }

  function PadEnd(s: string, w: nat): (r: string)
    requires |s| <= w && AllDigits(s)
    ensures |r| == w && AllDigits(r) && r[..|s|] == s
    decreases w - |s|
  {
    if |s| == w then s else PadEnd(s + "0", w)
  }

  /** The instant a bound denotes, in microseconds since the Unix epoch. */
  function Denote(f: Fields): int
    requires IsInstant(f) && AllDigits(f.fraction) && |f.fraction| <= 6
  {
    UtcSeconds(f) * MICROS + ParseNat(PadEnd(f.fraction, 6))
  }

  /** The time value a Date keeps: the fraction cut to milliseconds. */
  function DateMillis(f: Fields): int
    requires IsInstant(f) && AllDigits(f.fraction) && |f.fraction| <= 6
  {
    UtcSeconds(f) * 1000 + ParseNat(PadEnd(f.fraction, 6)[..3])
  }

  function NormalizeInstant(value: string): Result<string, Error> {
    var shape := ReadShape(value);
    if shape.None? || !Accepts(shape.value) then Err(InvalidArgument)
    else
      AcceptsExactlyInstants(shape.value);
      Ok(WithFraction(IsoText(DateMillis(shape.value)), PadEnd(shape.value.fraction, 6)))
  }

  /** The ISO text with the last three of six fraction digits put behind its milliseconds. */
  function WithFraction(iso: string, fraction: string): string
    requires |iso| >= 5 && |fraction| == 6
  {
    iso[..|iso| - 5] + "." + iso[|iso| - 4..|iso| - 1] + fraction[3..] + "Z"
  }

  lemma ParseSixDigits(d: string)
    requires |d| == 6 && AllDigits(d)
    ensures ParseNat(d) == ParseNat(d[..3]) * 1000 + ParseNat(d[3..])
    ensures ParseNat(d[..3]) < 1000 && ParseNat(d[3..]) < 1000
    ensures Pad(ParseNat(d), 6) == d && Pad(ParseNat(d[..3]), 3) == d[..3]
  {
    PadOfParse(d);
    PadOfParse(d[..3]);
    PadOfParse(d[3..]);
    assert Pow10(3) == 1000;
    assert d[..5][..4] == d[..4] && d[..4][..3] == d[..3];
    assert d[3..][..2][..1] == [d[3]] && d[3..][..2] == [d[3], d[4]] && d[3..][..2][..1][..0] == "";
    assert ParseNat(d) == ParseNat(d[..5]) * 10 + DigitValue(d[5]);
    assert ParseNat(d[..5]) == ParseNat(d[..4]) * 10 + DigitValue(d[4]);
    assert ParseNat(d[..4]) == ParseNat(d[..3]) * 10 + DigitValue(d[3]);
    assert ParseNat(d[3..]) == ParseNat(d[3..][..2]) * 10 + DigitValue(d[5]);
    assert ParseNat(d[3..][..2]) == ParseNat(d[3..][..2][..1]) * 10 + DigitValue(d[4]);
    assert ParseNat(d[3..][..2][..1]) == DigitValue(d[3]);
  }

  lemma TextParts(s: int, ms: nat, us: nat)
    requires ms < 1000 && us < MICROS
    ensures IsoText(s * 1000 + ms) == SecondsText(s) + ("." + (Pad(ms, 3) + "Z"))
    ensures InstantText(s * MICROS + us) == SecondsText(s) + ("." + (Pad(us, 6) + "Z"))
  {
    hide SecondsText, Pad;
    assert (s * 1000 + ms) / 1000 == s && (s * 1000 + ms) % 1000 == ms;
    assert (s * MICROS + us) / MICROS == s && (s * MICROS + us) % MICROS == us;
  }

  lemma NormalizedText(f: Fields)
    requires IsInstant(f) && AllDigits(f.fraction) && |f.fraction| <= 6
    ensures WithFraction(IsoText(DateMillis(f)), PadEnd(f.fraction, 6)) == InstantText(Denote(f))
  {
    hide SecondsText, IsInstant, UtcSeconds, PadEnd, ParseNat, Pad, WithFraction, IsoText, InstantText;
    var d := PadEnd(f.fraction, 6);
    ParseSixDigits(d);
    TextParts(UtcSeconds(f), ParseNat(d[..3]), ParseNat(d));
    WithFractionText(SecondsText(UtcSeconds(f)), d);
  }

  /** An accepted bound becomes the text of the very instant it denotes. */
  lemma NormalizeKeepsInstant(value: string)
    requires ReadShape(value).Some? && Accepts(ReadShape(value).value)
    ensures IsInstant(ReadShape(value).value)
    ensures NormalizeInstant(value) == Ok(InstantText(Denote(ReadShape(value).value)))
  {
    AcceptsExactlyInstants(ReadShape(value).value);
    NormalizedText(ReadShape(value).value);
    hide ReadShape, Accepts, IsInstant, WithFraction, IsoText, InstantText, Denote, DateMillis;
  }

  lemma WithFractionText(s: string, d: string)
    requires |d| == 6
    ensures WithFraction(s + ("." + (d[..3] + "Z")), d) == s + ("." + (d + "Z"))
  {
    ReplaceTail(s, d[..3], d);
    assert d == d[..3] + d[3..];
    assert s + "." + d[..3] + d[3..] + "Z" == s + "." + (d[..3] + d[3..]) + "Z";
  }

  // The bound's text, written out.

  function ZoneText(z: Zone): string {
    (if z.negative then "-" else "+") + (Pad(z.hour, 2) + (":" + Pad(z.minute, 2)))
  }

  /** `dddd-dd-ddTdd:dd:dd`, a fraction unless it is empty, and a zone. */
  function BoundWritten(f: Fields, zone: string): string {
    Joined(f.year, 4, "-", f.month, f.day) + ("T" + (Joined(f.hour, 2, ":", f.minute, f.second)
    + ((if f.fraction == "" then "" else "." + f.fraction) + zone)))
  }

  predicate Writable(f: Fields) {
    && f.year < 10_000 && f.month < 100 && f.day < 100 && f.hour < 100 && f.minute < 100 && f.second < 100
    && f.zone.hour < 100 && f.zone.minute < 100 && AllDigits(f.fraction) && |f.fraction| <= 6
  }

  lemma ZoneReads(z: Zone)
    requires z.hour < 100 && z.minute < 100
    ensures ReadZone(ZoneText(z)) == Some(z) && ReadZone("Z") == Some(Zone(false, 0, 0))
    ensures |ZoneText(z)| == 6 && !IsDigit(ZoneText(z)[0]) && ZoneText(z)[0] != '.'
  {
    hide Pad, ParseNat;
    ReadsTwoDigits(z.hour);
    ReadsTwoDigits(z.minute);
    var t := ZoneText(z);
    assert t[1..3] == Pad(z.hour, 2) && t[4..6] == Pad(z.minute, 2) && t[3] == ':';
  }

  /** A bound reads back as it was written, whatever its numbers, its fraction and its zone. */
  lemma ReadsWritten(f: Fields, zone: string)
    requires Writable(f) && (zone == ZoneText(f.zone) || (zone == "Z" && f.zone == Zone(false, 0, 0)))
    ensures ReadShape(BoundWritten(f, zone)) == Some(f)
  {
    hide Joined, Pad, ParseNat, ReadZone, ZoneText, HasHead, DigitRun, Pow10;
    ZoneReads(f.zone);
    var v, rest := BoundWritten(f, zone), (if f.fraction == "" then "" else "." + f.fraction) + zone;
    HeadWritten(f, v, rest);
    HeadReads(f);
    if f.fraction == "" {
      assert rest == zone && v[19] == zone[0];
      assert v[19..] == zone;
    } else {
      assert v[19] == '.' && v[20..] == f.fraction + zone by { assert v[19..] == "." + (f.fraction + zone); }
      DigitRunOf(f.fraction, zone);
      assert (f.fraction + zone)[..|f.fraction|] == f.fraction && (f.fraction + zone)[|f.fraction|..] == zone;
    }
  }

  lemma TwoDigitsBack(s: string)
    requires |s| == 2 && AllDigits(s)
    ensures Pad(ParseNat(s), 2) == s && ParseNat(s) < 100
  {
    PadOfParse(s);
    assert Pow10(2) == 100;
  }

  lemma HeadDigits(v: string)
    requires HasHead(v)
    ensures Pad(ParseNat(v[0..4]), 4) == v[0..4] && ParseNat(v[0..4]) < 10_000
    ensures Pad(ParseNat(v[5..7]), 2) == v[5..7] && ParseNat(v[5..7]) < 100
    ensures Pad(ParseNat(v[8..10]), 2) == v[8..10] && ParseNat(v[8..10]) < 100
    ensures Pad(ParseNat(v[11..13]), 2) == v[11..13] && ParseNat(v[11..13]) < 100
    ensures Pad(ParseNat(v[14..16]), 2) == v[14..16] && ParseNat(v[14..16]) < 100
    ensures Pad(ParseNat(v[17..19]), 2) == v[17..19] && ParseNat(v[17..19]) < 100
  {
    hide Pad, ParseNat, AllDigits;
    PadOfParse(v[0..4]);
    assert Pow10(4) == 10_000;
    TwoDigitsBack(v[5..7]);
    TwoDigitsBack(v[8..10]);
    TwoDigitsBack(v[11..13]);
    TwoDigitsBack(v[14..16]);
    TwoDigitsBack(v[17..19]);
  }

  lemma HeadPieces(v: string)
    requires HasHead(v)
    ensures v == v[0..10] + ("T" + (v[11..19] + v[19..]))
    ensures v[0..10] == v[0..4] + ("-" + (v[5..7] + ("-" + v[8..10])))
    ensures v[11..19] == v[11..13] + (":" + (v[14..16] + (":" + v[17..19])))
  {
    hide AllDigits;
  }

  lemma HeadBack(v: string, f: Fields)
    requires HasHead(v)
    requires f.year == ParseNat(v[0..4]) && f.month == ParseNat(v[5..7]) && f.day == ParseNat(v[8..10])
    requires f.hour == ParseNat(v[11..13]) && f.minute == ParseNat(v[14..16]) && f.second == ParseNat(v[17..19])
    ensures v == Joined(f.year, 4, "-", f.month, f.day) + ("T" + (Joined(f.hour, 2, ":", f.minute, f.second) + v[19..]))
    ensures f.year < 10_000 && f.month < 100 && f.day < 100 && f.hour < 100 && f.minute < 100 && f.second < 100
  {
    hide Pad, ParseNat, AllDigits;
    HeadDigits(v);
    HeadPieces(v);
    assert Joined(f.year, 4, "-", f.month, f.day) == v[0..10];
    assert Joined(f.hour, 2, ":", f.minute, f.second) == v[11..19];
  }

  lemma ZoneBack(z: string)
    requires ReadZone(z).Some?
    ensures var zone := ReadZone(z).value;
      && zone.hour < 100 && zone.minute < 100
      && (z == ZoneText(zone) || (z == "Z" && zone == Zone(false, 0, 0)))
  {
    hide Pad, ParseNat;
    if z != "Z" {
      TwoDigitsBack(z[1..3]);
      TwoDigitsBack(z[4..6]);
      assert z == z[..1] + (z[1..3] + (":" + z[4..6]));
    }
  }

  /** And nothing else is read: a text has the pattern of a bound exactly when it is one written out. */
  lemma ReadsOnlyWritten(v: string)
    requires ReadShape(v).Some?
    ensures var f := ReadShape(v).value;
      Writable(f) && (v == BoundWritten(f, ZoneText(f.zone)) || (v == BoundWritten(f, "Z") && f.zone == Zone(false, 0, 0)))
  {
    hide Joined, Pad, ParseNat, ReadZone, ZoneText, AllDigits, DigitRun;
    var f := ReadShape(v).value;
    HeadBack(v, f);
    if v[19] != '.' {
      ZoneBack(v[19..]);
    } else {
      var k := DigitRun(v[20..]);
      ZoneBack(v[20..][k..]);
      assert v[19..] == "." + (v[20..][..k] + v[20..][k..]);
      assert v[19..] == "." + f.fraction + v[20..][k..];
    }
  }

  lemma HeadWritten(f: Fields, v: string, rest: string)
    requires v == Joined(f.year, 4, "-", f.month, f.day) + ("T" + (Joined(f.hour, 2, ":", f.minute, f.second) + rest))
    requires rest != ""
    ensures HasHead(v) && v[19..] == rest
    ensures v[0..4] == Pad(f.year, 4) && v[5..7] == Pad(f.month, 2) && v[8..10] == Pad(f.day, 2)
    ensures v[11..13] == Pad(f.hour, 2) && v[14..16] == Pad(f.minute, 2) && v[17..19] == Pad(f.second, 2)
  {
    hide Joined, Pad, AllDigits;
    DateSlices(f.year, f.month, f.day);
    ClockSlices(f.hour, f.minute, f.second);
    var date, clock := Joined(f.year, 4, "-", f.month, f.day), Joined(f.hour, 2, ":", f.minute, f.second);
    assert v[0..10] == date && v[10] == 'T' && v[11..19] == clock;
    assert v[0..4] == date[0..4] && v[4] == date[4] && v[5..7] == date[5..7] && v[7] == date[7] && v[8..10] == date[8..10];
    assert v[11..13] == clock[0..2] && v[13] == clock[2] && v[14..16] == clock[3..5] && v[16] == clock[5];
    assert v[17..19] == clock[6..8];
  }

  lemma HeadReads(f: Fields)
    requires Writable(f)
    ensures ParseNat(Pad(f.year, 4)) == f.year && ParseNat(Pad(f.month, 2)) == f.month && ParseNat(Pad(f.day, 2)) == f.day
    ensures ParseNat(Pad(f.hour, 2)) == f.hour && ParseNat(Pad(f.minute, 2)) == f.minute
    ensures ParseNat(Pad(f.second, 2)) == f.second
  {
    hide Pad, ParseNat;
    assert Pow10(4) == 10_000;
    PadRoundTrip(f.year, 4);
    ReadsTwoDigits(f.month);
    ReadsTwoDigits(f.day);
    ReadsTwoDigits(f.hour);
    ReadsTwoDigits(f.minute);
    ReadsTwoDigits(f.second);
  }

  /** What a bound denotes: its own date and clock time in its zone, which runs ahead of UTC by its offset, or
      behind when the offset is negative; and its fraction of a second. */
  lemma DenotesLocalTime(f: Fields)
    requires IsInstant(f) && AllDigits(f.fraction) && |f.fraction| <= 6
    ensures var utc, offset := f.(zone := Zone(false, 0, 0), fraction := ""), 3600 * f.zone.hour + 60 * f.zone.minute;
      && Denote(utc) == (DayOfDate(Date(f.year, f.month, f.day)) * DAY_SECONDS + 3600 * f.hour + 60 * f.minute + f.second) * MICROS
      && Denote(f) == Denote(utc) + (if f.zone.negative then offset else -offset) * MICROS
                     + ParseNat(f.fraction) * Pow10(6 - |f.fraction|)
  {
    hide DayOfDate, PadEnd, ParseNat, Pow10;
    FractionSays(f.fraction, 6);
    FractionSays("", 6);
    NoDigits();
  }

  lemma NoDigits()
    ensures ParseNat("") == 0
  {
  }

  lemma {:induction false} FractionSays(s: string, w: nat)
    requires |s| <= w && AllDigits(s)
    ensures ParseNat(PadEnd(s, w)) == ParseNat(s) * Pow10(w - |s|)
    decreases w - |s|
  {
    hide ParseNat, Pow10;
    if |s| < w {
      FractionSays(s + "0", w);
      ZeroBehind(s);
      NextPower(w - |s| - 1);
      Tenfold(ParseNat(s), Pow10(w - |s| - 1));
    } else {
      NoPower();
    }
  }

  lemma ZeroBehind(s: string)
    requires AllDigits(s)
    ensures AllDigits(s + "0") && ParseNat(s + "0") == ParseNat(s) * 10
  {
    assert (s + "0")[..|s|] == s;
  }

  lemma NextPower(k: nat)
    ensures Pow10(k + 1) == 10 * Pow10(k)
  {
  }

  lemma NoPower()
    ensures Pow10(0) == 1
  {
  }

  lemma Tenfold(n: nat, p: nat)
    ensures n * 10 * p == n * (10 * p)
  {
  }

  // Reading back the text of an instant.

  function FieldsOf(t: int): Fields
    requires FourDigitYear(t)
  {
    FourDigits(t);
    var d, s := DateOfDay(DayOf(t)), t / MICROS % DAY_SECONDS;
    Fields(d.year, d.month, d.day, s / 3600, s / 60 % 60, s % 60, Pad(t % MICROS, 6), Zone(false, 0, 0))
  }

  lemma {:induction false} DigitRunOf(digits: string, rest: string)
    requires AllDigits(digits) && (rest == "" || !IsDigit(rest[0]))
    ensures DigitRun(digits + rest) == |digits|
  {
    if digits == "" {
      assert digits + rest == rest;
    } else {
      assert (digits + rest)[1..] == digits[1..] + rest;
      DigitRunOf(digits[1..], rest);
    }
  }

  lemma DateSlices(y: nat, m: nat, d: nat)
    ensures var j := Joined(y, 4, "-", m, d);
      j[0..4] == Pad(y, 4) && j[4] == '-' && j[5..7] == Pad(m, 2) && j[7] == '-' && j[8..10] == Pad(d, 2)
  {
  }

  lemma ClockSlices(h: nat, m: nat, s: nat)
    ensures var j := Joined(h, 2, ":", m, s);
      j[0..2] == Pad(h, 2) && j[2] == ':' && j[3..5] == Pad(m, 2) && j[5] == ':' && j[6..8] == Pad(s, 2)
  {
  }

  function Layout(date: string, clock: string, micros: string): string {
    date + ("T" + clock) + ("." + (micros + "Z"))
  }

  /** The head and the rest of a text made of a date, a clock time and a fraction. */
  lemma TextLayout(v: string, date: string, clock: string, micros: string)
    requires |date| == 10 && |clock| == 8 && |micros| == 6
    requires v == Layout(date, clock, micros)
    ensures |v| == 27 && v[10] == 'T' && v[19] == '.' && v[20..] == micros + "Z"
    ensures v[0..4] == date[0..4] && v[4] == date[4] && v[5..7] == date[5..7] && v[7] == date[7] && v[8..10] == date[8..10]
    ensures v[11..13] == clock[0..2] && v[13] == clock[2] && v[14..16] == clock[3..5] && v[16] == clock[5]
    ensures v[17..19] == clock[6..8]
  {
  }

  lemma HeadOf(v: string, y: nat, m: nat, d: nat, h: nat, mi: nat, s: nat, micros: string)
    requires |micros| == 6
    requires v == Layout(Joined(y, 4, "-", m, d), Joined(h, 2, ":", mi, s), micros)
    ensures HasHead(v) && v[19] == '.' && v[20..] == micros + "Z"
    ensures v[0..4] == Pad(y, 4) && v[5..7] == Pad(m, 2) && v[8..10] == Pad(d, 2)
    ensures v[11..13] == Pad(h, 2) && v[14..16] == Pad(mi, 2) && v[17..19] == Pad(s, 2)
  {
    hide Joined, Pad, Layout, AllDigits;
    DateSlices(y, m, d);
    ClockSlices(h, mi, s);
    TextLayout(v, Joined(y, 4, "-", m, d), Joined(h, 2, ":", mi, s), micros);
  }

  lemma ReadsTwoDigits(n: nat)
    requires n < 100
    ensures ParseNat(Pad(n, 2)) == n
  {
    assert Pow10(2) == 100;
    PadRoundTrip(n, 2);
  }

  lemma MonthIsShort(d: Date)
    requires IsDate(d)
    ensures d.month < 100 && d.day < 100
  {
  }

  lemma ReadsFields(t: int)
    requires FourDigitYear(t)
    ensures var f := FieldsOf(t);
      && ParseNat(Pad(f.year, 4)) == f.year && ParseNat(Pad(f.month, 2)) == f.month && ParseNat(Pad(f.day, 2)) == f.day
      && ParseNat(Pad(f.hour, 2)) == f.hour && ParseNat(Pad(f.minute, 2)) == f.minute
      && ParseNat(Pad(f.second, 2)) == f.second && 0 <= f.year <= 9999
  {
    hide Pad, ParseNat, FourDigitYear, DateOfDay, DateText, DaysInMonth;
    FourDigits(t);
    var f := FieldsOf(t);
    ClockFields(t / MICROS % DAY_SECONDS);
    MonthIsShort(DateOfDay(DayOf(t)));
    assert Pow10(4) == 10_000;
    PadRoundTrip(f.year, 4);
    ReadsTwoDigits(f.month);
    ReadsTwoDigits(f.day);
    ReadsTwoDigits(f.hour);
    ReadsTwoDigits(f.minute);
    ReadsTwoDigits(f.second);
  }

  lemma ReadsOwnText(t: int)
    requires FourDigitYear(t)
    ensures ReadShape(InstantText(t)) == Some(FieldsOf(t))
  {
    hide Joined, Pad, ParseNat, DateOfDay, DigitRun, FourDigitYear, Pow10, HasHead, AllDigits;
    var f, micros := FieldsOf(t), Pad(t % MICROS, 6);
    ReadsFields(t);
    HeadOf(InstantText(t), f.year, f.month, f.day, f.hour, f.minute, f.second, micros);
    DigitRunOf(micros, "Z");
    assert (micros + "Z")[..6] == micros && (micros + "Z")[6..] == "Z";
  }

  lemma DenotesItself(t: int)
    requires FourDigitYear(t)
    ensures IsInstant(FieldsOf(t)) && Denote(FieldsOf(t)) == t
  {
    FourDigits(t);
    var s := t / MICROS % DAY_SECONDS;
    ClockFields(s);
    assert Pow10(6) == 1_000_000;
    PadRoundTrip(t % MICROS, 6);
    assert DayOf(t) * DAY_SECONDS + s == t / MICROS;
  }

  /** The text of an instant of the years 0 through 9999 is fixed, except on 0000-02-29, which is
      refused. */
  lemma NormalizeFixesInstantText(t: int)
    requires FourDigitYear(t)
    ensures NormalizeInstant(InstantText(t)) ==
      if IsLeapDayOfYearZero(FieldsOf(t)) then Err(InvalidArgument) else Ok(InstantText(t))
  {
    ReadsOwnText(t);
    DenotesItself(t);
    AcceptsExactlyInstants(FieldsOf(t));
    if !IsLeapDayOfYearZero(FieldsOf(t)) {
      NormalizeKeepsInstant(InstantText(t));
    }
  }
}
