/** The History time bounds are compared as text in the database: which visits they select, and about which
    visits they answer as the interval they name. */
module HistoryBounds {
  import opened Outcomes
  import opened Orders
  import opened Decimal
  import opened Calendar
  import opened ForensicTime
  import opened Instants
  import CaseStore
  import Keyset

  /** A bound the query accepts. */
  predicate Accepted(bound: Option<string>) {
    bound.Some? ==> ReadShape(bound.value).Some? && Accepts(ReadShape(bound.value).value)
  }

  function InstantOf(bound: string): int
    requires Accepted(Some(bound))
  {
    AcceptsExactlyInstants(ReadShape(bound).value);
    Denote(ReadShape(bound).value)
  }

  /** The bound as it is put into the query. */
  function BoundText(bound: Option<string>): Option<string> {
    if bound.Some? && NormalizeInstant(bound.value).Ok? then Some(NormalizeInstant(bound.value).value) else None
  }

  /** What `sort_time >= from` answers for a visit at `t`: wrong wherever the texts are out of order, and
      never true of a visit without a text. */
  predicate AnswersFrom(t: int, from: int) {
    InDateRange(t) && (t == from || (if from < t then TextKeepsOrder(from, t) else !TextKeepsOrder(t, from)))
  }

  /** What `sort_time <= to` answers. */
  predicate AnswersTo(t: int, to: int) {
    InDateRange(t) && (t == to || (if t < to then TextKeepsOrder(t, to) else !TextKeepsOrder(to, t)))
  }

  /** A bound stands in text as it does in time to a visit at `t`. */
  predicate Decides(bound: Option<string>, t: int)
    requires Accepted(bound)
  {
    bound.None? ||
    (var b := InstantOf(bound.value);
     && InDateRange(t)
     && (t == b || (if b < t then TextKeepsOrder(b, t) else TextKeepsOrder(t, b))))
  }

  lemma BoundTextIsInstantText(bound: string)
    requires Accepted(Some(bound))
    ensures BoundText(Some(bound)) == Some(InstantText(InstantOf(bound)))
  {
    NormalizeKeepsInstant(bound);
  }

  /** An accepted bound has a year of four digits before its offset of less than a day. */
  lemma BoundInRange(bound: string)
    requires Accepted(Some(bound))
    ensures InDateRange(InstantOf(bound))
  {
    hide ReadShape, DayOfDate, PadEnd, ParseNat;
    var f := ReadShape(bound).value;
    AcceptsExactlyInstants(f);
    ShapeYear(bound);
    PadOfParse(PadEnd(f.fraction, 6));
    assert Pow10(6) == 1_000_000;
    DayInRange(Date(f.year, f.month, f.day));
    assert -719_528 * DAY_SECONDS - 86_400 <= UtcSeconds(f) <= 2_932_897 * DAY_SECONDS + 172_800;
  }

  lemma ShapeYear(bound: string)
    requires ReadShape(bound).Some?
    ensures ReadShape(bound).value.year <= 9999
  {
    hide ParseNat, ReadZone, DigitRun;
    PadOfParse(bound[0..4]);
    assert Pow10(4) == 10_000;
  }

  lemma DayInRange(d: Date)
    requires IsDate(d) && 0 <= d.year <= 9999
    ensures -719_528 <= DayOfDate(d) <= 2_932_897
  {
    assert DayFromYear(0) == -719_528 && DayFromYear(10000) == 2_932_897;
    hide DayFromYear;
    WithinYear(d);
    YearsAscend(0, d.year);
    NextYear(d.year);
    YearsAscend(d.year + 1, 10000);
  }

  lemma FromAnswers(t: int, b: int)
    requires InDateRange(t) && InDateRange(b)
    ensures !TextLess(InstantText(t), InstantText(b)) <==> AnswersFrom(t, b)
    ensures !TextLess(InstantText(b), InstantText(t)) <==> AnswersTo(t, b)
  {
    hide InstantText, TextKeepsOrder;
    TextIrreflexive(InstantText(t));
    if b < t {
      TextOrderExactly(b, t);
    } else if t < b {
      TextOrderExactly(t, b);
    }
  }

  /** The visits that accepted bounds select, whatever the years: those the text comparisons answer for. */
  lemma BoundsSelect(f: Keyset.Filters, r: CaseStore.Record, t: int, from: Option<string>, to: Option<string>)
    requires r.sortTime == UtcFromUnixMicros(t) && Accepted(from) && Accepted(to)
    ensures Keyset.Matches(f.(from := BoundText(from), to := BoundText(to)), r) <==>
      (&& Keyset.Matches(f.(from := None, to := None), r)
       && (from.Some? ==> AnswersFrom(t, InstantOf(from.value))) && (to.Some? ==> AnswersTo(t, InstantOf(to.value))))
  {
    hide InstantText, UtcFromUnixMicros, Accepted, BoundText, InstantOf, TextLess, TextKeepsOrder;
    UtcIsInstantText(t);
    NoBound();
    if from.Some? {
      BoundTextIsInstantText(from.value);
      BoundInRange(from.value);
      if InDateRange(t) {
        FromAnswers(t, InstantOf(from.value));
      }
    }
    if to.Some? {
      BoundTextIsInstantText(to.value);
      BoundInRange(to.value);
      if InDateRange(t) {
        FromAnswers(t, InstantOf(to.value));
      }
    }
  }

  lemma NoBound()
    ensures BoundText(None) == None && Accepted(None)
  {
  }

  /** The bounds select the closed interval of every visit that both of them decide about. */
  lemma BoundsSelectClosedInterval(f: Keyset.Filters, r: CaseStore.Record, t: int, from: Option<string>, to: Option<string>)
    requires r.sortTime == UtcFromUnixMicros(t) && Accepted(from) && Accepted(to)
    requires Decides(from, t) && Decides(to, t)
    ensures Keyset.Matches(f.(from := BoundText(from), to := BoundText(to)), r) <==>
      (&& Keyset.Matches(f.(from := None, to := None), r)
       && (from.Some? ==> InstantOf(from.value) <= t) && (to.Some? ==> t <= InstantOf(to.value)))
  {
    hide InstantText, UtcFromUnixMicros, Accepted, BoundText, InstantOf, TextKeepsOrder, Keyset.Matches;
    BoundsSelect(f, r, t, from, to);
  }

  /** A single bound is right about a visit in Date range exactly when it decides about it. */
  lemma RightExactlyWhenDecided(f: Keyset.Filters, r: CaseStore.Record, t: int, bound: string)
    requires r.sortTime == UtcFromUnixMicros(t) && InDateRange(t) && Accepted(Some(bound))
    requires Keyset.Matches(f.(from := None, to := None), r)
    ensures var from, to := f.(from := BoundText(Some(bound)), to := None), f.(from := None, to := BoundText(Some(bound)));
      && (Decides(Some(bound), t) <==> (Keyset.Matches(from, r) <==> InstantOf(bound) <= t))
      && (Decides(Some(bound), t) <==> (Keyset.Matches(to, r) <==> t <= InstantOf(bound)))
  {
    hide InstantText, UtcFromUnixMicros, Accepted, BoundText, InstantOf, TextKeepsOrder, Keyset.Matches;
    NoBound();
    BoundsSelect(f, r, t, Some(bound), None);
    BoundsSelect(f, r, t, None, Some(bound));
  }

  /** Every accepted bound of the years 0 through 9999 decides about every visit of those years. */
  lemma FourDigitYearsAreDecided(t: int, bound: string)
    requires FourDigitYear(t) && Accepted(Some(bound)) && FourDigitYear(InstantOf(bound))
    ensures Decides(Some(bound), t)
  {
    hide FourDigitYear, Accepted, InstantOf;
    FourDigits(t);
    FourDigits(InstantOf(bound));
    FourDigitsInRange(t);
  }

  /** A visit after the year 9999 is lost by every such `from` and admitted by every such `to`. */
  lemma LateVisit(f: Keyset.Filters, r: CaseStore.Record, t: int, bound: string)
    requires r.sortTime == UtcFromUnixMicros(t) && InDateRange(t) && YearOfInstant(t) > 9999
    requires Accepted(Some(bound)) && FourDigitYear(InstantOf(bound)) && Keyset.Matches(f.(from := None, to := None), r)
    ensures InstantOf(bound) < t
    ensures !Keyset.Matches(f.(from := BoundText(Some(bound)), to := None), r)
    ensures Keyset.Matches(f.(from := None, to := BoundText(Some(bound))), r)
  {
    hide InstantText, UtcFromUnixMicros, Accepted, BoundText, InstantOf, Keyset.Matches, FourDigitYear, InDateRange, DateOfDay;
    FourDigits(InstantOf(bound));
    if t < InstantOf(bound) {
      YearsAreOrdered(t, InstantOf(bound));
    }
    RightExactlyWhenDecided(f, r, t, bound);
  }

  function StartOfYear(y: int): int { DayFromYear(y) * DAY_SECONDS * MICROS }

  lemma StartOfYearHasIt(y: int)
    requires -271_821 < y <= 275_760
    ensures YearOfInstant(StartOfYear(y)) == y && YearOfInstant(StartOfYear(y) - 1) == y - 1
    ensures InDateRange(StartOfYear(y)) && InDateRange(StartOfYear(y) - 1)
  {
    hide DayFromYear, DateOfDay, InDateRange, DaysInYear;
    DayOfStart(DayFromYear(y));
    StartInRange(y);
    NextYear(y);
    NextYear(y - 1);
    SomeDays(y);
    SomeDays(y - 1);
    YearRange(DayFromYear(y), y, y);
    YearRange(DayFromYear(y) - 1, y - 1, y - 1);
  }

  lemma SomeDays(y: int)
    ensures DaysInYear(y) > 0
  {
  }

  lemma StartInRange(y: int)
    requires -271_821 < y <= 275_760
    ensures -99_999_744 <= DayFromYear(y) <= 99_999_744
  {
    assert DayFromYear(-271_820) == -99_999_744 && DayFromYear(275_760) == 99_999_744;
    hide DayFromYear;
    YearsAscend(-271_820, y);
    YearsAscend(y, 275_760);
  }

  lemma DayOfStart(d: int)
    ensures DayOf(d * DAY_SECONDS * MICROS) == d && DayOf(d * DAY_SECONDS * MICROS - 1) == d - 1
    ensures -99_999_744 <= d <= 99_999_744 ==> InDateRange(d * DAY_SECONDS * MICROS) && InDateRange(d * DAY_SECONDS * MICROS - 1)
  {
  }

  /** The first instant of the year 10000 is such a visit, and its text sorts before that of the last of 9999. */
  lemma TextOrderEndsWithYear9999()
    ensures var t := StartOfYear(10000);
      InDateRange(t) && YearOfInstant(t) > 9999 && TextLess(InstantText(t), InstantText(t - 1))
  {
    hide InstantText, YearOfInstant, TextLess, StartOfYear, InDateRange;
    StartOfYearHasIt(10000);
    TextOrderExactly(StartOfYear(10000) - 1, StartOfYear(10000));
  }

  /** Nor is it time order before the year 0: the first instant of -1 sorts before the last of -2. */
  lemma TextOrderRunsBackBeforeYearZero()
    ensures var t := StartOfYear(-1); TextLess(InstantText(t), InstantText(t - 1))
  {
    hide InstantText, YearOfInstant, TextLess, StartOfYear, InDateRange;
    StartOfYearHasIt(-1);
    TextOrderExactly(StartOfYear(-1) - 1, StartOfYear(-1));
  }
}
