/** Microsecond UTC text of an instant, and why comparing the texts compares the instants. */
module ForensicTime {
  import opened Outcomes
  import opened Orders
  import opened Decimal
  import opened Calendar

  const MAX_SAFE_INTEGER: int := 9_007_199_254_740_991
  const MAX_DATE_MILLIS: int := 8_640_000_000_000_000
  const DAY_SECONDS: int := 86_400
  const MICROS: int := 1_000_000

  /** BigInt division truncates toward zero. */
  function TruncatedQuotient(a: int, b: int): int
    requires b > 0
  {
    if a >= 0 then a / b else -((-a) / b)
  }

  function FloorDivision(value: int, divisor: int): int
    requires divisor > 0
  {
    var quotient := TruncatedQuotient(value, divisor);
    var remainder := value - quotient * divisor;
    if remainder < 0 then quotient - 1 else quotient
  }

  lemma FloorDivisionRoundsDown(value: int, divisor: int)
    requires divisor > 0
    ensures FloorDivision(value, divisor) * divisor <= value < (FloorDivision(value, divisor) + 1) * divisor
  {
    if value < 0 {
      var q, r := (-value) / divisor, (-value) % divisor;
      assert -value == q * divisor + r;
      assert (-q) * divisor == -(q * divisor);
      assert (-q - 1) * divisor == -(q * divisor) - divisor;
      assert (-q + 1) * divisor == -(q * divisor) + divisor;
    } else {
      var q, r := value / divisor, value % divisor;
      assert value == q * divisor + r;
      assert (q + 1) * divisor == q * divisor + divisor;
    }
  }

  // Text of a date and a time of day.

  /** A number of `w` digits and two of two digits, joined by a separator. */
  function Joined(a: nat, w: nat, sep: string, b: nat, c: nat): (s: string)
    ensures |s| == w + 4 + 2 * |sep|
  {
    Pad(a, w) + (sep + (Pad(b, 2) + (sep + Pad(c, 2))))
  }

  /** A year outside 0..9999: a sign and six digits. */
  function ExpandedYear(y: int): string {
    if y < 0 then "-" + Pad(-y, 6) else "+" + Pad(y, 6)
  }

  function DateText(d: Date): string
    requires IsDate(d)
  {
    if 0 <= d.year <= 9999 then Joined(d.year, 4, "-", d.month, d.day)
    else ExpandedYear(d.year) + ("-" + (Pad(d.month, 2) + ("-" + Pad(d.day, 2))))
  }

  /** `hh:mm:ss` of a second of the day. */
  function ClockText(second: int): (s: string)
    requires 0 <= second < DAY_SECONDS
    ensures |s| == 8
  {
    Joined(second / 3600, 2, ":", second / 60 % 60, second % 60)
  }

  /** The text up to the seconds, of seconds since the epoch. */
  function SecondsText(seconds: int): string {
    DateText(DateOfDay(seconds / DAY_SECONDS)) + ("T" + ClockText(seconds % DAY_SECONDS))
  }

  /** `Date.prototype.toISOString` of a time value. */
  function IsoText(millis: int): string {
    SecondsText(millis / 1000) + ("." + (Pad(millis % 1000, 3) + "Z"))
  }

  function UtcFromUnixMicros(unixMicros: int): Option<string> {
    var seconds := FloorDivision(unixMicros, MICROS);
    var micros := unixMicros - seconds * MICROS;
    FloorDivisionRoundsDown(unixMicros, MICROS);
    var millis := seconds * 1000 + micros / 1000;
    if !(-MAX_SAFE_INTEGER <= millis <= MAX_SAFE_INTEGER) then None
    else if !(-MAX_DATE_MILLIS <= millis <= MAX_DATE_MILLIS) then None
    else
      Some(WithMicros(IsoText(millis), micros))
  }

  /** The ISO text with its milliseconds replaced by six digits of microseconds. */
  function WithMicros(base: string, micros: nat): string
    requires |base| >= 5
  {
    base[..|base| - 5] + "." + PadStart(NatText(micros), 6) + "Z"
  }

  /** The microsecond text of an instant. */
  function InstantText(t: int): string {
    SecondsText(t / MICROS) + ("." + (Pad(t % MICROS, 6) + "Z"))
  }

  lemma UtcIsInstantText(t: int)
    ensures UtcFromUnixMicros(t) ==
      if -MAX_DATE_MILLIS <= t / 1000 <= MAX_DATE_MILLIS then Some(InstantText(t)) else None
  {
    MicrosSplit(t);
    WithMicrosIsInstantText(t);
    hide IsoText, WithMicros, InstantText, FloorDivision;
  }

  lemma WithMicrosIsInstantText(t: int)
    ensures WithMicros(IsoText(t / 1000), t % MICROS) == InstantText(t)
  {
    assert Pow10(6) == 1_000_000;
    PadStartIsPad(t % MICROS, 6);
    MicrosSplit(t);
    hide SecondsText, NatText, PadStart, Pad, Pow10;
    ReplaceTail(SecondsText(t / MICROS), Pad(t / 1000 % 1000, 3), Pad(t % MICROS, 6));
  }

  lemma ReplaceTail(s: string, a: string, b: string)
    requires |a| == 3
    ensures var base := s + ("." + (a + "Z"));
      |base| >= 5 && base[..|base| - 5] == s && base[|base| - 4..|base| - 1] == a
    ensures s + "." + b + "Z" == s + ("." + (b + "Z"))
  {
    assert (s + ("." + (a + "Z")))[..|s|] == s;
  }

  lemma MicrosSplit(t: int)
    ensures FloorDivision(t, MICROS) == t / MICROS
    ensures t - t / MICROS * MICROS == t % MICROS
    ensures t / MICROS * 1000 + t % MICROS / 1000 == t / 1000 && t / 1000 / 1000 == t / MICROS
  {
    FloorDivisionRoundsDown(t, MICROS);
  }

  // Text order.

  lemma {:induction false} LessConcat(a: string, b: string, c: string, d: string)
    requires |a| == |c|
    ensures TextLess(a + b, c + d) <==> TextLess(a, c) || (a == c && TextLess(b, d))
  {
    if a == "" {
      assert a + b == b && c + d == d;
    } else {
      assert (a + b)[1..] == a[1..] + b && (c + d)[1..] == c[1..] + d;
      LessConcat(a[1..], b, c[1..], d);
      assert a == [a[0]] + a[1..] && c == [c[0]] + c[1..];
    }
  }

  /** Fixed-width digits compare as their numbers do. */
  lemma {:induction false} PadOrder(a: nat, b: nat, w: nat)
    requires a < Pow10(w) && b < Pow10(w)
    ensures TextLess(Pad(a, w), Pad(b, w)) <==> a < b
    ensures Pad(a, w) == Pad(b, w) <==> a == b
  {
    if w > 0 {
      PadOrder(a / 10, b / 10, w - 1);
      LastDigits(Pad(a / 10, w - 1), Pad(b / 10, w - 1), a % 10, b % 10);
    }
  }

  lemma LastDigits(s: string, t: string, m: nat, n: nat)
    requires |s| == |t| && m < 10 && n < 10
    ensures TextLess(s + [Digit(m)], t + [Digit(n)]) <==> TextLess(s, t) || (s == t && m < n)
    ensures s + [Digit(m)] == t + [Digit(n)] <==> s == t && m == n
  {
    var x, y := [Digit(m)], [Digit(n)];
    LessConcat(s, x, t, y);
    assert x[1..] == "" && y[1..] == "";
    assert (s + x)[..|s|] == s && (t + y)[..|t|] == t;
    assert (s + x)[|s|] == Digit(m) && (t + y)[|t|] == Digit(n);
  }

  /** A separator between fixed-width texts does not change their order. */
  lemma LessBehind(c: string, a: string, b: string)
    ensures TextLess(c + a, c + b) <==> TextLess(a, b)
    ensures c + a == c + b <==> a == b
  {
    LessConcat(c, a, c, b);
    TextIrreflexive(c);
    assert (c + a)[|c|..] == a && (c + b)[|c|..] == b;
  }

  lemma EqualConcat(a: string, b: string, c: string, d: string)
    requires |a| == |c|
    ensures a + b == c + d <==> a == c && b == d
  {
    assert (a + b)[..|a|] == a && (c + d)[..|c|] == c && (a + b)[|a|..] == b && (c + d)[|c|..] == d;
  }

  /** Two fields joined by a separator compare field by field. */
  lemma JoinedOrder(a: string, sep: string, b: string, c: string, d: string)
    requires |a| == |c|
    ensures TextLess(a + (sep + b), c + (sep + d)) <==> TextLess(a, c) || (a == c && TextLess(b, d))
    ensures a + (sep + b) == c + (sep + d) <==> a == c && b == d
  {
    LessConcat(a, sep + b, c, sep + d);
    EqualConcat(a, sep + b, c, sep + d);
    LessBehind(sep, b, d);
  }

  lemma JoinedFieldOrder(w: nat, sep: string, a: nat, b: nat, c: nat, a': nat, b': nat, c': nat)
    requires a < Pow10(w) && b < 100 && c < 100 && a' < Pow10(w) && b' < 100 && c' < 100
    ensures TextLess(Joined(a, w, sep, b, c), Joined(a', w, sep, b', c'))
      <==> a < a' || (a == a' && (b < b' || (b == b' && c < c')))
    ensures Joined(a, w, sep, b, c) == Joined(a', w, sep, b', c') <==> a == a' && b == b' && c == c'
  {
    assert Pow10(2) == 100;
    hide Pow10, Pad;
    PadOrder(a, a', w);
    PadOrder(b, b', 2);
    PadOrder(c, c', 2);
    JoinedOrder(Pad(b, 2), sep, Pad(c, 2), Pad(b', 2), Pad(c', 2));
    JoinedOrder(Pad(a, w), sep, Pad(b, 2) + (sep + Pad(c, 2)), Pad(a', w), Pad(b', 2) + (sep + Pad(c', 2)));
  }

  lemma DateTextOrder(a: Date, b: Date)
    requires IsDate(a) && IsDate(b) && 0 <= a.year <= 9999 && 0 <= b.year <= 9999
    ensures TextLess(DateText(a), DateText(b)) <==> DateLess(a, b)
    ensures DateText(a) == DateText(b) <==> a == b
  {
    hide DateText, IsDate;
    DateWithinForm(a, b);
  }

  lemma ClockOrder(a: int, b: int)
    requires 0 <= a < DAY_SECONDS && 0 <= b < DAY_SECONDS
    ensures TextLess(ClockText(a), ClockText(b)) <==> a < b
    ensures ClockText(a) == ClockText(b) <==> a == b
  {
    assert Pow10(2) == 100;
    ClockFields(a);
    ClockFields(b);
    hide Pow10, Joined;
    JoinedFieldOrder(2, ":", a / 3600, a / 60 % 60, a % 60, b / 3600, b / 60 % 60, b % 60);
  }

  lemma ClockFields(a: int)
    requires 0 <= a < DAY_SECONDS
    ensures a == 3600 * (a / 3600) + 60 * (a / 60 % 60) + a % 60
    ensures 0 <= a / 3600 < 24 && 0 <= a / 60 % 60 < 60 && 0 <= a % 60 < 60
  {
    assert a / 60 / 60 == a / 3600;
  }

  /** The instants of the years 0 through 9999. */
  predicate FourDigitYear(t: int) {
    DayFromYear(0) * DAY_SECONDS * MICROS <= t < DayFromYear(10000) * DAY_SECONDS * MICROS
  }

  function DayOf(t: int): int { t / MICROS / DAY_SECONDS }

  lemma FourDigits(t: int)
    requires FourDigitYear(t)
    ensures 0 <= DateOfDay(DayOf(t)).year <= 9999
    ensures |DateText(DateOfDay(DayOf(t)))| == 10
  {
    YearRange(DayOf(t), 0, 9999);
  }

  /** The year of an instant. */
  function YearOfInstant(t: int): int { DateOfDay(DayOf(t)).year }

  /** The instants a Date can hold, which are those that have a text. */
  predicate InDateRange(t: int) { -MAX_DATE_MILLIS <= t / 1000 <= MAX_DATE_MILLIS }

  /** Years written the same way: four digits, `+` and six, or `-` and six. */
  predicate SameForm(p: int, q: int) {
    (0 <= p <= 9999 && 0 <= q <= 9999) || (p > 9999 && q > 9999) || (p < 0 && q < 0)
  }

  /** The order of years written the same way: years before 0 run backwards. */
  predicate YearTextLess(p: int, q: int) { if p < 0 then q < p else p < q }

  function YearText(y: int): string {
    if 0 <= y <= 9999 then Pad(y, 4) else ExpandedYear(y)
  }

  lemma YearTextOrder(p: int, q: int)
    requires SameForm(p, q) && -1_000_000 < p < 1_000_000 && -1_000_000 < q < 1_000_000
    ensures |YearText(p)| == |YearText(q)|
    ensures TextLess(YearText(p), YearText(q)) <==> YearTextLess(p, q)
    ensures YearText(p) == YearText(q) <==> p == q
  {
    assert Pow10(4) == 10_000 && Pow10(6) == 1_000_000;
    hide Pow10, Pad;
    if 0 <= p <= 9999 {
      PadOrder(p, q, 4);
    } else if p > 9999 {
      PadOrder(p, q, 6);
      LessBehind("+", Pad(p, 6), Pad(q, 6));
    } else {
      PadOrder(-p, -q, 6);
      PadOrder(-q, -p, 6);
      LessBehind("-", Pad(-p, 6), Pad(-q, 6));
      TextOnlyOneWay(Pad(-p, 6), Pad(-q, 6));
    }
  }

  lemma TextOnlyOneWay(a: string, b: string)
    ensures a != b ==> (TextLess(a, b) <==> !TextLess(b, a))
    ensures a == b ==> !TextLess(a, b)
  {
    TextIsTotalOrder({a, b});
    assert !TextLess(a, a);
    if a != b && TextLess(a, b) && TextLess(b, a) {
      TextTransitive(a, b, a);
    }
  }

  /** The year reads back: four digits, or a sign and six. */
  lemma YearTextSays(y: int)
    requires -1_000_000 < y < 1_000_000
    ensures var s := YearText(y);
      && (0 <= y <= 9999 ==> |s| == 4 && AllDigits(s) && ParseNat(s) == y)
      && (y > 9999 ==> |s| == 7 && s[0] == '+' && AllDigits(s[1..]) && ParseNat(s[1..]) == y)
      && (y < 0 ==> |s| == 7 && s[0] == '-' && AllDigits(s[1..]) && ParseNat(s[1..]) == -y)
  {
    assert Pow10(4) == 10_000 && Pow10(6) == 1_000_000;
    hide Pow10, Pad, ParseNat;
    if 0 <= y <= 9999 {
      PadRoundTrip(y, 4);
    } else {
      var n := if y < 0 then -y else y;
      PadRoundTrip(n, 6);
      assert YearText(y)[1..] == Pad(n, 6);
    }
  }

  lemma DateTextParts(d: Date)
    requires IsDate(d)
    ensures DateText(d) == YearText(d.year) + ("-" + (Pad(d.month, 2) + ("-" + Pad(d.day, 2))))
  {
  }

  lemma DateWithinForm(a: Date, b: Date)
    requires IsDate(a) && IsDate(b) && SameForm(a.year, b.year)
    requires -1_000_000 < a.year < 1_000_000 && -1_000_000 < b.year < 1_000_000
    ensures |DateText(a)| == |DateText(b)|
    ensures TextLess(DateText(a), DateText(b)) <==> YearTextLess(a.year, b.year) || (a.year == b.year && DateLess(a, b))
    ensures DateText(a) == DateText(b) <==> a == b
  {
    assert Pow10(2) == 100 && a.day <= 31 && b.day <= 31;
    hide Pow10, Pad, IsDate, DateText, YearText, TextLess;
    DateTextParts(a);
    DateTextParts(b);
    YearTextOrder(a.year, b.year);
    PadOrder(a.month, b.month, 2);
    PadOrder(a.day, b.day, 2);
    JoinedOrder(Pad(a.month, 2), "-", Pad(a.day, 2), Pad(b.month, 2), Pad(b.day, 2));
    JoinedOrder(YearText(a.year), "-", Pad(a.month, 2) + ("-" + Pad(a.day, 2)),
                YearText(b.year), Pad(b.month, 2) + ("-" + Pad(b.day, 2)));
  }

  lemma SecondsWithinForm(a: int, b: int)
    requires var p, q := DateOfDay(a / DAY_SECONDS).year, DateOfDay(b / DAY_SECONDS).year;
      SameForm(p, q) && -1_000_000 < p < 1_000_000 && -1_000_000 < q < 1_000_000
    ensures var p, q := DateOfDay(a / DAY_SECONDS).year, DateOfDay(b / DAY_SECONDS).year;
      TextLess(SecondsText(a), SecondsText(b)) <==> YearTextLess(p, q) || (p == q && a < b)
    ensures SecondsText(a) == SecondsText(b) <==> a == b
    ensures |SecondsText(a)| == |SecondsText(b)|
  {
    hide DateText, ClockText, YearTextLess, TextLess, DateOfDay;
    var d, e := DateOfDay(a / DAY_SECONDS), DateOfDay(b / DAY_SECONDS);
    DateWithinForm(d, e);
    DayOrder(d, e);
    ClockOrder(a % DAY_SECONDS, b % DAY_SECONDS);
    JoinedOrder(DateText(d), "T", ClockText(a % DAY_SECONDS), DateText(e), ClockText(b % DAY_SECONDS));
  }

  lemma YearInRange(t: int)
    requires InDateRange(t)
    ensures -271_821 <= YearOfInstant(t) <= 275_760
  {
    YearRange(DayOf(t), -271_821, 275_760);
  }

  /** Among instants whose years are written the same way, the texts compare year by year. */
  lemma InstantsWithinForm(a: int, b: int)
    requires InDateRange(a) && InDateRange(b) && SameForm(YearOfInstant(a), YearOfInstant(b))
    ensures TextLess(InstantText(a), InstantText(b))
      <==> YearTextLess(YearOfInstant(a), YearOfInstant(b)) || (YearOfInstant(a) == YearOfInstant(b) && a < b)
    ensures InstantText(a) == InstantText(b) <==> a == b
  {
    assert Pow10(6) == 1_000_000;
    hide Pow10, Pad, DateOfDay, YearTextLess, TextLess, SecondsText;
    YearInRange(a);
    YearInRange(b);
    SecondsWithinForm(a / MICROS, b / MICROS);
    var x, y := Pad(a % MICROS, 6), Pad(b % MICROS, 6);
    PadOrder(a % MICROS, b % MICROS, 6);
    LessConcat(x, "Z", y, "Z");
    EqualConcat(x, "Z", y, "Z");
    TextIrreflexive("Z");
    JoinedOrder(SecondsText(a / MICROS), ".", x + "Z", SecondsText(b / MICROS), y + "Z");
  }

  lemma FirstCharacter(t: int)
    ensures InstantText(t) != ""
    ensures YearOfInstant(t) > 9999 ==> InstantText(t)[0] == '+'
    ensures YearOfInstant(t) < 0 ==> InstantText(t)[0] == '-'
    ensures 0 <= YearOfInstant(t) <= 9999 ==> InstantText(t)[0] >= '0'
  {
    var d := DateOfDay(DayOf(t));
    if 0 <= d.year <= 9999 {
      var y := Pad(d.year, 4);
      assert InstantText(t)[0] == DateText(d)[0] == y[0] && IsDigit(y[0]);
    } else {
      assert InstantText(t)[0] == DateText(d)[0];
    }
  }

  lemma YearsAreOrdered(a: int, b: int)
    requires a < b
    ensures YearOfInstant(a) <= YearOfInstant(b)
  {
    hide DateOfDay;
    DayOrder(DateOfDay(DayOf(a)), DateOfDay(DayOf(b)));
  }

  /** Where an earlier instant has the lesser text: both years are in 0..9999, or both after it, or they
      are one year before 0, or the first is before 0 and the second in 0..9999. */
  predicate TextKeepsOrder(earlier: int, later: int) {
    var p, q := YearOfInstant(earlier), YearOfInstant(later);
    (0 <= p && q <= 9999) || p > 9999 || (p < 0 && (p == q || 0 <= q <= 9999))
  }

  /** The texts of two instants are in the order of the instants exactly there. */
  lemma TextOrderExactly(a: int, b: int)
    requires InDateRange(a) && InDateRange(b) && a < b
    ensures TextLess(InstantText(a), InstantText(b)) <==> TextKeepsOrder(a, b)
    ensures TextLess(InstantText(b), InstantText(a)) <==> !TextKeepsOrder(a, b)
  {
    hide InstantText, DateOfDay;
    YearsAreOrdered(a, b);
    FirstCharacter(a);
    FirstCharacter(b);
    if SameForm(YearOfInstant(a), YearOfInstant(b)) {
      InstantsWithinForm(a, b);
      InstantsWithinForm(b, a);
    }
  }

  /** Over the years 0 through 9999, comparing the texts compares the instants. */
  lemma TextOrderIsTimeOrder(a: int, b: int)
    requires FourDigitYear(a) && FourDigitYear(b)
    ensures TextLess(InstantText(a), InstantText(b)) <==> a < b
    ensures InstantText(a) == InstantText(b) <==> a == b
  {
    hide InstantText, DateOfDay, FourDigitYear, InDateRange, TextLess;
    FourDigits(a);
    FourDigits(b);
    FourDigitsInRange(a);
    FourDigitsInRange(b);
    InstantsWithinForm(a, b);
    if a < b {
      YearsAreOrdered(a, b);
    } else if b < a {
      YearsAreOrdered(b, a);
    }
  }

  lemma FourDigitsInRange(t: int)
    requires FourDigitYear(t)
    ensures InDateRange(t)
  {
    assert DayFromYear(0) == -719_528 && DayFromYear(10000) == 2_932_897;
  }
}
