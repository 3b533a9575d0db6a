/** One keyset page over the active findings of a family, and the cursor that names its end. */
module Keyset {
  import opened Outcomes
  import opened Orders
  import opened CaseStore
  import Decimal

  datatype View = Visits | Activity | MostVisited | Durations
  datatype SortColumn = VisitTime | LocalTime | Url | Duration | VisitCount | ProfileName
  datatype Direction = Asc | Desc

  /** The resolved options of a History query: everything its fingerprint covers beside the Case. */
  datatype Filters = Filters(
    view: View, profiles: seq<string>, search: Option<string>, commitState: Option<string>,
    transition: Option<string>, from: Option<string>, to: Option<string>,
    sort: SortColumn, direction: Direction)

  datatype Key = IntKey(n: int) | TextKey(text: string)

  datatype Position = Position(key: Key, id: int)

  function KindOf(view: View): string {
    match view
    case Visits => "history_visit"
    case Activity => "history_activity_summary"
    case MostVisited => "history_most_visited_summary"
    case Durations => "history_duration_summary"
  }

  predicate SortIsInteger(sort: SortColumn) { sort.Duration? || sort.VisitCount? }

  function TextOr(value: Option<string>, default: string): string {
    if value.Some? then value.value else default
  }

  function IntOr(value: Option<int>, default: int): int {
    if value.Some? then value.value else default
  }

  /** The sort expression of a column, with its COALESCE default. */
  function KeyOf(sort: SortColumn, r: Record): Key {
    match sort
    case VisitTime => TextKey(TextOr(r.sortTime, ""))
    case LocalTime => TextKey(TextOr(r.sortTime, ""))
    case Url => TextKey(TextOr(r.sortUrl, ""))
    case Duration => IntKey(IntOr(r.sortDuration, -1))
    case VisitCount => IntKey(IntOr(r.sortCount, -1))
    case ProfileName => TextKey(r.profile)
  }

  /** `needle` occurs in `text`. */
  predicate Contains(text: string, needle: string) {
    |needle| <= |text| && (text[..|needle|] == needle || (text != "" && Contains(text[1..], needle)))
  }

  /** The WHERE conditions of a query, NULL columns never matching a bound. */
  predicate Matches(f: Filters, r: Record) {
    && r.kind == KindOf(f.view)
    && (f.profiles != [] ==> r.profile in f.profiles)
    && (f.commitState.Some? ==> r.commitState == f.commitState.value)
    && (f.search.Some? ==> Contains(r.searchText, f.search.value))
    && (f.transition.Some? ==> r.transitionCore == f.transition)
    && (f.from.Some? ==> r.sortTime.Some? && !TextLess(r.sortTime.value, f.from.value))
    && (f.to.Some? ==> r.sortTime.Some? && !TextLess(f.to.value, r.sortTime.value))
  }

  /** Integers sort before text; text compares code by code. */
  predicate KeyLess(a: Key, b: Key) {
    match (a, b)
    case (IntKey(m), IntKey(n)) => m < n
    case (IntKey(_), TextKey(_)) => true
    case (TextKey(_), IntKey(_)) => false
    case (TextKey(s), TextKey(t)) => TextLess(s, t)
  }

  predicate PositionLess(a: Position, b: Position) {
    KeyLess(a.key, b.key) || (a.key == b.key && a.id < b.id)
  }

  predicate Before(d: Direction, a: Position, b: Position) {
    if d.Asc? then PositionLess(a, b) else PositionLess(b, a)
  }

  function PositionOf(f: Filters, row: FindingRow): Position {
    Position(KeyOf(f.sort, row.record), row.id)
  }

  /** ORDER BY key, id in the query's direction. */
  predicate RowBefore(f: Filters, a: FindingRow, b: FindingRow) {
    Before(f.direction, PositionOf(f, a), PositionOf(f, b))
  }

  function RowOrder(f: Filters): (FindingRow, FindingRow) -> bool {
    (a: FindingRow, b: FindingRow) => RowBefore(f, a, b)
  }

  function Filter<T(!new)>(p: T -> bool, s: seq<T>): (r: seq<T>)
    ensures |r| <= |s|
    ensures forall x :: x in r <==> x in s && p(x)
  {
    if s == [] then [] else (if p(s[0]) then [s[0]] else []) + Filter(p, s[1..])
  }

  predicate IsActive(t: Table, resultId: int) {
    1 <= resultId <= |t.results| && t.results[resultId - 1].active
  }

  /** The active artifact result ids, ascending. */
  function ActiveIds(t: Table): seq<int> {
    Filter(id => IsActive(t, id), seq(|t.results|, i => i + 1))
  }

  predicate IsSelected(t: Table, f: Filters, row: FindingRow) {
    IsActive(t, row.resultId) && Matches(f, row.record)
  }

  function Selects(t: Table, f: Filters): FindingRow -> bool {
    (row: FindingRow) => IsSelected(t, f, row)
  }

  /** The keyset condition: (key > ? OR (key = ? AND id > ?)), or its mirror when descending. */
  predicate IsPast(f: Filters, after: Option<Position>, row: FindingRow) {
    after.Some? ==> Before(f.direction, after.value, PositionOf(f, row))
  }

  function SelectsPast(t: Table, f: Filters, after: Option<Position>): FindingRow -> bool {
    (row: FindingRow) => IsSelected(t, f, row) && IsPast(f, after, row)
  }

  /** What a query lists: the filtered findings of active results in key and id order. */
  function Listing(t: Table, f: Filters): seq<FindingRow> {
    Sort(RowOrder(f), Filter(Selects(t, f), t.findings))
  }

  datatype Fingerprint = Fingerprint(caseId: string, activeIds: seq<int>, filters: Filters)

  /** The text a client sends back: minted here, or anything else. */
  datatype Token = Undecodable | Token(version: int, fingerprint: Fingerprint, key: string, id: string)

  datatype Error = InvalidCursor

  datatype Page = Page(items: seq<FindingRow>, nextCursor: Option<Token>)

  function KeyText(key: Key): string {
    match key
    case IntKey(n) => Decimal.IntText(n)
    case TextKey(t) => t
  }

  function EncodeCursor(fp: Fingerprint, p: Position): Token {
    Token(1, fp, KeyText(p.key), Decimal.IntText(p.id))
  }

  /** `[0-9]{1,19}` within the SQLite integer range. */
  function CursorRowId(text: string): Option<int> {
    if 1 <= |text| <= 19 && Decimal.AllDigits(text) && Decimal.ParseNat(text) <= SQLITE_MAX_INTEGER
    then Some(Decimal.ParseNat(text)) else None
  }

  function CursorKey(f: Filters, text: string): Option<Key> {
    if SortIsInteger(f.sort) then
      var n := Decimal.ParseInt(text);
      if n.Some? && SQLITE_MIN_INTEGER <= n.value <= SQLITE_MAX_INTEGER then Some(IntKey(n.value)) else None
    else Some(TextKey(text))
  }

  /** The position a cursor names, if it was minted for this exact query. */
  function DecodeCursor(token: Token, fp: Fingerprint): Option<Position> {
    if token.Undecodable? || token.version != 1 || token.fingerprint != fp then None
    else
      var id, key := CursorRowId(token.id), CursorKey(fp.filters, token.key);
      if id.Some? && key.Some? then Some(Position(key.value, id.value)) else None
  }

  function Take<T>(s: seq<T>, n: nat): seq<T> {
    if |s| <= n then s else s[..n]
  }

  /** SELECT .. WHERE active AND conditions AND past the cursor ORDER BY key, id LIMIT n. */
  function SelectRows(t: Table, f: Filters, after: Option<Position>, n: nat): seq<FindingRow> {
    Take(Sort(RowOrder(f), Filter(SelectsPast(t, f, after), t.findings)), n)
  }

  /** One page: `limit + 1` rows are read, the extra one only says that a next page exists. */
  function RunFindingQuery(caseId: string, t: Table, f: Filters, limit: nat, after: Option<Token>): Result<Page, Error>
    requires 1 <= limit
  {
    var fp := Fingerprint(caseId, ActiveIds(t), f);
    var position := if after.None? then None else DecodeCursor(after.value, fp);
    if after.Some? && position.None? then Err(InvalidCursor)
    else
      var rows := SelectRows(t, f, position, limit + 1);
      var items := Take(rows, limit);
      Ok(Page(items,
              if |rows| > limit then Some(EncodeCursor(fp, PositionOf(f, items[limit - 1]))) else None))
  }

  // The order is strict and total on the rows of a table.

  lemma KeyOrder(a: Key, b: Key, c: Key)
    ensures !KeyLess(a, a)
    ensures KeyLess(a, b) && KeyLess(b, c) ==> KeyLess(a, c)
    ensures a != b ==> KeyLess(a, b) || KeyLess(b, a)
  {
    TextIsTotalOrder({});
    if a.TextKey? && b.TextKey? {
      if a != b {
        TextComparable(a.text, b.text);
      }
      if c.TextKey? && KeyLess(a, b) && KeyLess(b, c) {
        TextTransitive(a.text, b.text, c.text);
      }
    }
    if a.TextKey? {
      TextIrreflexive(a.text);
    }
  }

  lemma PositionOrder(a: Position, b: Position, c: Position)
    ensures !PositionLess(a, a)
    ensures PositionLess(a, b) && PositionLess(b, c) ==> PositionLess(a, c)
    ensures a != b ==> PositionLess(a, b) || PositionLess(b, a)
  {
    KeyOrder(a.key, b.key, c.key);
  }

  /** Rows with the same id are the same row. */
  ghost predicate IdsNameRows(s: set<FindingRow>) {
    forall a, b :: a in s && b in s && a.id == b.id ==> a == b
  }

  lemma RowBeforeOrder(f: Filters, a: FindingRow, b: FindingRow, c: FindingRow)
    ensures !RowBefore(f, a, a)
    ensures RowBefore(f, a, b) && RowBefore(f, b, c) ==> RowBefore(f, a, c)
    ensures a.id != b.id ==> RowBefore(f, a, b) || RowBefore(f, b, a)
  {
    PositionOrder(PositionOf(f, a), PositionOf(f, b), PositionOf(f, c));
    PositionOrder(PositionOf(f, c), PositionOf(f, b), PositionOf(f, a));
  }

  lemma RowOrderIsStrict(f: Filters, s: set<FindingRow>)
    requires IdsNameRows(s)
    ensures StrictOrder(RowOrder(f)) && TotalOn(RowOrder(f), s)
  {
    forall x: FindingRow, y: FindingRow, z: FindingRow
      ensures !RowOrder(f)(x, x)
      ensures RowOrder(f)(x, y) && RowOrder(f)(y, z) ==> RowOrder(f)(x, z)
      ensures x.id != y.id ==> RowOrder(f)(x, y) || RowOrder(f)(y, x)
    {
      RowBeforeOrder(f, x, y, z);
    }
  }

  lemma {:induction false} FilterDistinct<T(!new)>(p: T -> bool, s: seq<T>)
    requires Distinct(s)
    ensures Distinct(Filter(p, s))
  {
    if s != [] {
      FilterDistinct(p, s[1..]);
      assert s[0] !in s[1..];
    }
  }

  lemma FindingIds(t: Table)
    requires NumberedFindings(t)
    ensures Distinct(t.findings) && IdsNameRows(Members(t.findings))
  {
    forall a, b | a in Members(t.findings) && b in Members(t.findings) && a.id == b.id ensures a == b {
      var i :| 0 <= i < |t.findings| && t.findings[i] == a;
      var j :| 0 <= j < |t.findings| && t.findings[j] == b;
      assert a.id == i + 1 && b.id == j + 1;
    }
    forall i, j | 0 <= i < j < |t.findings| ensures t.findings[i] != t.findings[j] {
      assert t.findings[i].id == i + 1 && t.findings[j].id == j + 1;
    }
  }

  /** Sorting the filtered rows lists them strictly ascending .. */
  lemma SortedRowsAscend(t: Table, f: Filters, p: FindingRow -> bool)
    requires NumberedFindings(t)
    ensures StrictOrder(RowOrder(f)) && Ascending(RowOrder(f), Sort(RowOrder(f), Filter(p, t.findings)))
  {
    FindingIds(t);
    var rows := Filter(p, t.findings);
    FilterDistinct(p, t.findings);
    assert Members(rows) <= Members(t.findings);
    RowOrderIsStrict(f, Members(rows));
    SortAscending(RowOrder(f), rows);
  }

  /** .. and lists exactly them. */
  lemma SortedRowsMembers(t: Table, f: Filters, p: FindingRow -> bool, row: FindingRow)
    ensures row in Sort(RowOrder(f), Filter(p, t.findings)) <==> row in t.findings && p(row)
  {
    var rows := Filter(p, t.findings);
    assert row in Sort(RowOrder(f), rows) <==> row in multiset(Sort(RowOrder(f), rows));
    assert row in rows <==> row in multiset(rows);
  }

  // What a listing is, said of the columns alone.

  predicate IntsRunUp(m: int, i: int, n: int, j: int) { m < n || (m == n && i < j) }

  predicate TextsRunUp(s: string, i: int, t: string, j: int) { TextLess(s, t) || (s == t && i < j) }

  /** `a` has the lesser value in the sort column, or the same value and the lesser id. */
  predicate RunsUp(sort: SortColumn, a: FindingRow, b: FindingRow) {
    var r, s := a.record, b.record;
    && (sort.VisitTime? || sort.LocalTime? ==>
          TextsRunUp(if r.sortTime.Some? then r.sortTime.value else "", a.id,
                     if s.sortTime.Some? then s.sortTime.value else "", b.id))
    && (sort.Url? ==>
          TextsRunUp(if r.sortUrl.Some? then r.sortUrl.value else "", a.id,
                     if s.sortUrl.Some? then s.sortUrl.value else "", b.id))
    && (sort.ProfileName? ==> TextsRunUp(r.profile, a.id, s.profile, b.id))
    && (sort.Duration? ==>
          IntsRunUp(if r.sortDuration.Some? then r.sortDuration.value else -1, a.id,
                    if s.sortDuration.Some? then s.sortDuration.value else -1, b.id))
    && (sort.VisitCount? ==>
          IntsRunUp(if r.sortCount.Some? then r.sortCount.value else -1, a.id,
                    if s.sortCount.Some? then s.sortCount.value else -1, b.id))
  }

  /** The rows run in one direction: the values go up when ascending and down when descending. */
  predicate RowsRun(f: Filters, rows: seq<FindingRow>) {
    && (f.direction.Asc? ==> forall i, j :: 0 <= i < j < |rows| ==> RunsUp(f.sort, rows[i], rows[j]))
    && (f.direction.Desc? ==> forall i, j :: 0 <= i < j < |rows| ==> RunsUp(f.sort, rows[j], rows[i]))
  }

  lemma ListingRuns(t: Table, f: Filters)
    requires NumberedFindings(t)
    ensures RowsRun(f, Listing(t, f))
  {
    hide Sort, Filter, TextLess;
    var all := Listing(t, f);
    SortedRowsAscend(t, f, Selects(t, f));
    forall i, j | 0 <= i < j < |all|
      ensures f.direction.Asc? ==> RunsUp(f.sort, all[i], all[j])
      ensures f.direction.Desc? ==> RunsUp(f.sort, all[j], all[i])
    {
      assert RowOrder(f)(all[i], all[j]);
    }
  }

  lemma PartRuns(f: Filters, all: seq<FindingRow>, part: seq<FindingRow>, k: nat)
    requires RowsRun(f, all) && k + |part| <= |all| && part == all[k..k + |part|]
    ensures RowsRun(f, part)
  {
    hide RunsUp;
  }

  /** A row meets every filter that is set, and no other condition: a column without a value meets no bound. */
  predicate MeetsFilters(f: Filters, r: Record) {
    && (f.view.Visits? ==> r.kind == "history_visit")
    && (f.view.Activity? ==> r.kind == "history_activity_summary")
    && (f.view.MostVisited? ==> r.kind == "history_most_visited_summary")
    && (f.view.Durations? ==> r.kind == "history_duration_summary")
    && (|f.profiles| > 0 ==> exists i :: 0 <= i < |f.profiles| && f.profiles[i] == r.profile)
    && (f.commitState != None ==> Some(r.commitState) == f.commitState)
    && (f.search != None ==> OccursIn(f.search.value, r.searchText))
    && (f.transition != None ==> r.transitionCore == f.transition)
    && (f.from != None ==> r.sortTime != None && (r.sortTime == f.from || TextLess(f.from.value, r.sortTime.value)))
    && (f.to != None ==> r.sortTime != None && (r.sortTime == f.to || TextLess(r.sortTime.value, f.to.value)))
  }

  predicate StandsAt(needle: string, text: string, i: nat) {
    i + |needle| <= |text| && text[i..i + |needle|] == needle
  }

  predicate OccursIn(needle: string, text: string) {
    exists i :: 0 <= i <= |text| && StandsAt(needle, text, i)
  }

  lemma {:induction false} ContainsIsOccurs(text: string, needle: string)
    ensures Contains(text, needle) <==> OccursIn(needle, text)
  {
    if |needle| <= |text| && text[..|needle|] == needle {
      assert StandsAt(needle, text, 0);
    } else if text != "" {
      ContainsIsOccurs(text[1..], needle);
      if i :| 0 <= i <= |text| && StandsAt(needle, text, i) {
        assert i > 0 && text[1..][i - 1..i - 1 + |needle|] == text[i..i + |needle|];
        assert StandsAt(needle, text[1..], i - 1);
      }
      if i :| 0 <= i <= |text[1..]| && StandsAt(needle, text[1..], i) {
        assert text[1..][i..i + |needle|] == text[i + 1..i + 1 + |needle|];
        assert StandsAt(needle, text, i + 1);
      }
    }
  }

  /** A finding of an active result that meets the filters. */
  predicate IsListed(t: Table, f: Filters, row: FindingRow) {
    && row in t.findings && MeetsFilters(f, row.record)
    && exists k :: 0 <= k < |t.results| && row.resultId == k + 1 && t.results[k].active
  }

  /** A query lists exactly those, each once. */
  lemma ListedExactly(t: Table, f: Filters, row: FindingRow)
    requires NumberedFindings(t)
    ensures Distinct(Listing(t, f)) && (row in Listing(t, f) <==> IsListed(t, f, row))
  {
    SortedRowsMembers(t, f, Selects(t, f), row);
    SortedRowsAscend(t, f, Selects(t, f));
    AscendingDistinct(RowOrder(f), Listing(t, f));
    MatchesIsMeets(f, row.record);
    hide Sort, Filter, TextLess, MeetsFilters, Matches;
    assert IsActive(t, row.resultId) <==> exists k :: 0 <= k < |t.results| && row.resultId == k + 1 && t.results[k].active by {
      if IsActive(t, row.resultId) {
        assert row.resultId == (row.resultId - 1) + 1 && t.results[row.resultId - 1].active;
      }
    }
  }

  lemma MatchesIsMeets(f: Filters, r: Record)
    ensures Matches(f, r) <==> MeetsFilters(f, r)
  {
    hide TextLess, Contains, OccursIn;
    if f.search.Some? {
      ContainsIsOccurs(r.searchText, f.search.value);
    }
    if f.from.Some? && r.sortTime.Some? {
      NotLess(r.sortTime.value, f.from.value);
    }
    if f.to.Some? && r.sortTime.Some? {
      NotLess(f.to.value, r.sortTime.value);
    }
  }

  lemma NotLess(a: string, b: string)
    ensures !TextLess(a, b) <==> a == b || TextLess(b, a)
  {
    TextIsTotalOrder({a, b});
    assert !TextLess(a, a);
    if TextLess(a, b) && TextLess(b, a) {
      TextTransitive(a, b, a);
    }
  }

  /** In an ascending list, what comes after its k-th member is exactly the rest of the list. */
  lemma RestOfAscending<T(!new)>(less: (T, T) -> bool, all: seq<T>, past: seq<T>, k: nat)
    requires StrictOrder(less) && Ascending(less, all) && Ascending(less, past) && k < |all|
    requires forall x :: x in past <==> x in all && less(all[k], x)
    ensures past == all[k + 1..]
  {
    forall x ensures x in Members(past) <==> x in Members(all[k + 1..]) {
      if x in past {
        var i :| 0 <= i < |all| && all[i] == x;
        assert !less(x, all[k]);
        assert i > k;
        assert all[k + 1..][i - k - 1] == x;
      }
      if x in all[k + 1..] {
        var i :| 0 <= i < |all[k + 1..]| && all[k + 1..][i] == x;
        assert less(all[k], all[k + 1 + i]);
      }
    }
    AscendingUnique(less, past, all[k + 1..]);
  }

  /** Reading past a listed row gives the list from there on. */
  lemma PastPosition(t: Table, f: Filters, all: seq<FindingRow>, k: nat, n: nat)
    requires NumberedFindings(t) && all == Listing(t, f) && 1 <= k <= |all|
    ensures SelectRows(t, f, Some(PositionOf(f, all[k - 1])), n) == Take(all[k..], n)
  {
    hide Sort, Filter, Before, KeyLess, PositionLess, IsSelected, Matches, StrictOrder, Ascending, NumberedFindings, Take;
    var after := Some(PositionOf(f, all[k - 1]));
    var past := Sort(RowOrder(f), Filter(SelectsPast(t, f, after), t.findings));
    forall row ensures row in past <==> row in all && RowOrder(f)(all[k - 1], row) {
      PastMembers(t, f, all[k - 1], row);
    }
    SortedRowsAscend(t, f, Selects(t, f));
    SortedRowsAscend(t, f, SelectsPast(t, f, after));
    RestOfAscending(RowOrder(f), all, past, k - 1);
  }

  lemma PastMembers(t: Table, f: Filters, last: FindingRow, row: FindingRow)
    ensures row in Sort(RowOrder(f), Filter(SelectsPast(t, f, Some(PositionOf(f, last))), t.findings))
      <==> row in Listing(t, f) && RowOrder(f)(last, row)
  {
    SortedRowsMembers(t, f, SelectsPast(t, f, Some(PositionOf(f, last))), row);
    SortedRowsMembers(t, f, Selects(t, f), row);
  }

  lemma FromStart(t: Table, f: Filters, n: nat)
    requires NumberedFindings(t)
    ensures SelectRows(t, f, None, n) == Take(Listing(t, f), n)
  {
    assert forall row :: SelectsPast(t, f, None)(row) == Selects(t, f)(row);
    FilterCongruent(SelectsPast(t, f, None), Selects(t, f), t.findings);
  }

  lemma RowIdDigits(id: int)
    requires 0 <= id <= SQLITE_MAX_INTEGER
    ensures CursorRowId(Decimal.IntText(id)) == Some(id)
  {
    assert Decimal.Pow10(10) == 10_000_000_000;
    assert Decimal.Pow10(19) == 1_000_000_000 * Decimal.Pow10(10);
    Decimal.NatRoundTrip(id);
    Decimal.NatTextLength(id, 19);
  }

  /** The positions a query mints: a rowid, and a key of the sort's kind that fits its column. */
  predicate Mintable(f: Filters, p: Position) {
    && 0 <= p.id <= SQLITE_MAX_INTEGER
    && if SortIsInteger(f.sort) then p.key.IntKey? && SQLITE_MIN_INTEGER <= p.key.n <= SQLITE_MAX_INTEGER
       else p.key.TextKey?
  }

  /** Every minted cursor, integer or text, decodes to the same key and id. */
  lemma MintedCursorDecodes(fp: Fingerprint, p: Position)
    requires Mintable(fp.filters, p)
    ensures DecodeCursor(EncodeCursor(fp, p), fp) == Some(p)
  {
    RowIdDigits(p.id);
    if SortIsInteger(fp.filters.sort) {
      Decimal.IntRoundTrip(p.key.n);
    }
  }

  /** Whatever a client sends, a cursor is taken only for this very query and names a position that the query could
      have minted: the id its digits say, in the rowid range, and the key its text says. */
  lemma DecodedIsMintable(token: Token, fp: Fingerprint)
    ensures var p := DecodeCursor(token, fp);
      p.Some? ==>
        && token.Token? && token.version == 1 && token.fingerprint == fp && Mintable(fp.filters, p.value)
        && 1 <= |token.id| <= 19 && Decimal.AllDigits(token.id) && p.value.id == Decimal.ParseNat(token.id)
        && (p.value.key.IntKey? ==> Decimal.ParseInt(token.key) == Some(p.value.key.n))
        && (p.value.key.TextKey? ==> p.value.key.text == token.key)
  {
  }

  lemma ListedRowIsMintable(t: Table, f: Filters, row: FindingRow)
    requires NumberedFindings(t) && row in Listing(t, f)
    ensures Mintable(f, PositionOf(f, row))
  {
    hide Sort, Filter, RowOrder, Selects, TextLess;
    SortedRowsMembers(t, f, Selects(t, f), row);
    var i :| 0 <= i < |t.findings| && t.findings[i] == row;
    assert row.id == i + 1 && FitsColumns(row.record);
  }

  /** The cursor that names a position; none names the start. */
  function CursorOf(fp: Fingerprint, position: Option<Position>): Option<Token> {
    if position.None? then None else Some(EncodeCursor(fp, position.value))
  }

  /** The position of the last of the first `k` rows. */
  function PositionAt(f: Filters, all: seq<FindingRow>, k: nat): Option<Position>
    requires k <= |all|
  {
    if k == 0 then None else Some(PositionOf(f, all[k - 1]))
  }

  /** The page made of what is left of the list. */
  function PageOf(fp: Fingerprint, rest: seq<FindingRow>, limit: nat): Page
    requires 1 <= limit
  {
    if |rest| <= limit then Page(rest, None)
    else Page(rest[..limit], CursorOf(fp, PositionAt(fp.filters, rest, limit)))
  }

  lemma PageFromRows(caseId: string, t: Table, f: Filters, limit: nat, position: Option<Position>, rest: seq<FindingRow>)
    requires 1 <= limit && (position.Some? ==> Mintable(f, position.value))
    requires SelectRows(t, f, position, limit + 1) == Take(rest, limit + 1)
    ensures var fp := Fingerprint(caseId, ActiveIds(t), f);
      RunFindingQuery(caseId, t, f, limit, CursorOf(fp, position)) == Ok(PageOf(fp, rest, limit))
  {
    hide SelectRows, ActiveIds, EncodeCursor, DecodeCursor, Mintable;
    if position.Some? {
      MintedCursorDecodes(Fingerprint(caseId, ActiveIds(t), f), position.value);
    }
    assert |rest| > limit ==> rest[..limit + 1][..limit] == rest[..limit];
  }

  lemma SelectFrom(t: Table, f: Filters, all: seq<FindingRow>, k: nat, n: nat)
    requires NumberedFindings(t) && all == Listing(t, f) && k <= |all|
    ensures SelectRows(t, f, PositionAt(f, all, k), n) == Take(all[k..], n)
  {
    if k == 0 {
      FromStart(t, f, n);
      assert all[0..] == all;
    } else {
      PastPosition(t, f, all, k, n);
    }
  }

  /** A read with the cursor after `k` rows gives the next page of the list, and mints a cursor
      exactly when rows remain. */
  lemma PageIsSlice(caseId: string, t: Table, f: Filters, limit: nat, k: nat)
    requires NumberedFindings(t) && 1 <= limit && k <= |Listing(t, f)|
    ensures var all, fp := Listing(t, f), Fingerprint(caseId, ActiveIds(t), f);
      RunFindingQuery(caseId, t, f, limit, CursorOf(fp, PositionAt(f, all, k))) == Ok(PageOf(fp, all[k..], limit))
  {
    hide Listing, SelectRows, ActiveIds, RunFindingQuery, Mintable;
    var all := Listing(t, f);
    if k > 0 {
      ListedRowIsMintable(t, f, all[k - 1]);
    }
    SelectFrom(t, f, all, k, limit + 1);
    PageFromRows(caseId, t, f, limit, PositionAt(f, all, k), all[k..]);
  }

  /** The rows of a page run in the query's direction: the next ones of all that are listed. */
  lemma PageRuns(caseId: string, t: Table, f: Filters, limit: nat, k: nat)
    requires NumberedFindings(t) && 1 <= limit && k <= |Listing(t, f)|
    ensures var all, fp := Listing(t, f), Fingerprint(caseId, ActiveIds(t), f);
      var r := RunFindingQuery(caseId, t, f, limit, CursorOf(fp, PositionAt(f, all, k)));
      && r.Ok? && RowsRun(f, r.value.items)
      && |r.value.items| == (if |all| - k < limit then |all| - k else limit)
      && forall row :: row in r.value.items ==> IsListed(t, f, row)
  {
    hide Listing, SelectRows, ActiveIds, RunFindingQuery, Mintable, RowsRun, IsListed;
    var all := Listing(t, f);
    PageIsSlice(caseId, t, f, limit, k);
    ListingRuns(t, f);
    var items := PageOf(Fingerprint(caseId, ActiveIds(t), f), all[k..], limit).items;
    assert items == all[k..k + |items|];
    PartRuns(f, all, items, k);
    forall row | row in items ensures IsListed(t, f, row) {
      assert row in all;
      ListedExactly(t, f, row);
    }
  }

  // Runs that commit between reads.

  lemma {:induction false} FilterConcat<T(!new)>(p: T -> bool, a: seq<T>, b: seq<T>)
    ensures Filter(p, a + b) == Filter(p, a) + Filter(p, b)
  {
    if a == [] {
      assert a + b == b;
    } else {
      assert (a + b)[1..] == a[1..] + b;
      FilterConcat(p, a[1..], b);
    }
  }

  lemma {:induction false} FilterCongruent<T(!new)>(p: T -> bool, q: T -> bool, s: seq<T>)
    requires forall x :: x in s ==> p(x) == q(x)
    ensures Filter(p, s) == Filter(q, s)
  {
    if s != [] {
      assert s[0] in s;
      FilterCongruent(p, q, s[1..]);
    }
  }

  lemma {:induction false} FilterNone<T(!new)>(p: T -> bool, s: seq<T>)
    requires forall i :: 0 <= i < |s| ==> !p(s[i])
    ensures Filter(p, s) == []
  {
    if s != [] {
      FilterNone(p, s[1..]);
    }
  }

  lemma ActiveIdMembers(t: Table, id: int)
    ensures id in ActiveIds(t) <==> IsActive(t, id)
  {
    var ids := seq(|t.results|, i => i + 1);
    if 1 <= id <= |t.results| {
      assert ids[id - 1] == id;
    }
  }

  /** The ids name the active results, so they are equal when `later` has no active result of its own. */
  lemma SameActiveIds(t: Table, later: Table)
    requires |t.results| <= |later.results|
    requires forall id :: IsActive(t, id) == IsActive(later, id)
    ensures ActiveIds(t) == ActiveIds(later)
  {
    var ids, all := seq(|t.results|, i => i + 1), seq(|later.results|, i => i + 1);
    var p, q := id => IsActive(t, id), id => IsActive(later, id);
    assert all == ids + all[|ids|..];
    FilterConcat(q, ids, all[|ids|..]);
    FilterNone(q, all[|ids|..]);
    FilterCongruent(p, q, ids);
  }

  lemma SameActiveSameSelection(t: Table, later: Table, f: Filters, rows: seq<FindingRow>)
    requires ActiveIds(t) == ActiveIds(later)
    ensures Filter(Selects(t, f), rows) == Filter(Selects(later, f), rows)
  {
    forall row ensures Selects(t, f)(row) == Selects(later, f)(row) {
      ActiveIdMembers(t, row.resultId);
      ActiveIdMembers(later, row.resultId);
    }
    FilterCongruent(Selects(t, f), Selects(later, f), rows);
  }

  lemma NewRowsUnselected(t: Table, later: Table, f: Filters)
    requires Extends(t, later)
    ensures Filter(Selects(t, f), later.findings) == Filter(Selects(t, f), t.findings)
  {
    var kept, added := later.findings[..|t.findings|], later.findings[|t.findings|..];
    assert kept == t.findings && later.findings == kept + added;
    FilterConcat(Selects(t, f), kept, added);
    forall i | 0 <= i < |added| ensures !Selects(t, f)(added[i]) {
      assert added[i] == later.findings[|t.findings| + i];
    }
    FilterNone(Selects(t, f), added);
  }

  /** Two states of one growing Case with the same active results list the same rows. */
  lemma SameActiveSameListing(t: Table, later: Table, f: Filters)
    requires Extends(t, later) && ActiveIds(t) == ActiveIds(later)
    ensures Listing(t, f) == Listing(later, f)
  {
    SameActiveSameSelection(t, later, f, later.findings);
    NewRowsUnselected(t, later, f);
  }
}
