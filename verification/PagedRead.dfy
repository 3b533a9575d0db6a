/** The client loop that follows cursors while Analysis Runs commit between its reads. */
module PagedRead {
  import opened Outcomes
  import opened Orders
  import opened CaseStore
  import opened Keyset

  /** A committed state of the same table, found later. */
  predicate LaterState(first: Table, t: Table) {
    NumberedFindings(t) && Extends(first, t)
  }

  /** The states the client's successive reads find, all grown from the first. */
  ghost predicate Growing(at: nat -> Table) {
    forall i: nat {:trigger LaterState(at(0), at(i))} :: LaterState(at(0), at(i))
  }

  /** Each state grown from the one before is enough. */
  lemma {:induction false} GrowingStepByStep(at: nat -> Table, n: nat)
    requires forall i: nat :: NumberedFindings(at(i)) && Extends(at(i), at(i + 1))
    ensures LaterState(at(0), at(n))
  {
    if n > 0 {
      GrowingStepByStep(at, n - 1);
      assert Extends(at(n - 1), at(n - 1 + 1));
      ExtendsTransitive(at(0), at(n - 1), at(n));
    }
  }

  /** Successive states of a Case on which any runs commit or roll back in between are such states. */
  lemma RunsGrow(start: Table, runs: seq<Run>, at: nat -> Table, done: nat -> nat)
    requires Valid(start) && History(start, runs)
    requires forall i: nat :: done(i) <= |runs| && done(0) <= done(i) && at(i) == AfterRuns(start, runs[..done(i)])
    ensures Growing(at)
  {
    hide Valid, Extends, AfterRuns, History, NumberedFindings;
    forall i: nat ensures LaterState(at(0), at(i)) {
      PrefixGrows(start, runs, done(0), done(i));
    }
  }

  lemma PrefixIsHistory(start: Table, runs: seq<Run>, n: nat)
    requires History(start, runs) && n <= |runs|
    ensures History(start, runs[..n])
  {
    hide AfterRuns, Acceptable;
    assert forall i :: 0 <= i < n ==> runs[..n][..i] == runs[..i] && runs[..n][i] == runs[i];
  }

  lemma ValidIsNumbered(t: Table)
    requires Valid(t)
    ensures NumberedFindings(t)
  {
  }

  /** What a read that has its cursor after `k` rows of the first state's list gets later: the next
      page of that same list while the active results stand, and INVALID_CURSOR once they changed. */
  lemma LaterRead(caseId: string, first: Table, later: Table, f: Filters, limit: nat, k: nat)
    requires LaterState(first, later) && 1 <= limit && 1 <= k <= |Listing(first, f)|
    ensures var fp, all := Fingerprint(caseId, ActiveIds(first), f), Listing(first, f);
      RunFindingQuery(caseId, later, f, limit, CursorOf(fp, PositionAt(f, all, k)))
        == if ActiveIds(later) == ActiveIds(first) then Ok(PageOf(fp, all[k..], limit)) else Err(InvalidCursor)
  {
    if ActiveIds(later) == ActiveIds(first) {
      SameActiveSameListing(first, later, f);
      PageIsSlice(caseId, later, f, limit, k);
    }
  }

  /** Active results that differ from an earlier state's never become the same again. */
  lemma ChangedStaysChanged(first: Table, mid: Table, later: Table)
    requires Valid(mid) && Valid(later) && Extends(first, mid) && Extends(mid, later)
    requires ActiveIds(later) == ActiveIds(first)
    ensures ActiveIds(mid) == ActiveIds(first)
  {
    hide ActiveIds;
    forall id ensures IsActive(first, id) == IsActive(mid, id) {
      ActiveIdMembers(first, id);
      ActiveIdMembers(later, id);
      if id > |first.results| && IsActive(mid, id) {
        assert NewestComplete(mid.results, id - 1);
        assert mid.results[id - 1].(active := false) == later.results[id - 1].(active := false);
        var k := NewestFrom(later, id - 1);
        ActiveIdMembers(first, k + 1);
        ActiveIdMembers(later, k + 1);
      }
    }
    SameActiveIds(first, mid);
  }

  predicate Refused(caseId: string, t: Table, f: Filters, limit: nat, after: Option<Token>)
    requires 1 <= limit
  {
    RunFindingQuery(caseId, t, f, limit, after) == Err(InvalidCursor)
  }

  /** A cursor refused once is refused for good, whatever runs commit or roll back after. */
  lemma StaleStaysStale(caseId: string, start: Table, runs: seq<Run>, f: Filters, limit: nat, k: nat, a: nat, b: nat, c: nat)
    requires Valid(start) && History(start, runs) && a <= b <= c <= |runs|
    requires 1 <= limit && 1 <= k <= |Listing(AfterRuns(start, runs[..a]), f)|
    ensures var first, mid, later := AfterRuns(start, runs[..a]), AfterRuns(start, runs[..b]), AfterRuns(start, runs[..c]);
      var cursor := CursorOf(Fingerprint(caseId, ActiveIds(first), f), PositionAt(f, Listing(first, f), k));
      Refused(caseId, mid, f, limit, cursor) ==> Refused(caseId, later, f, limit, cursor)
  {
    hide Valid, Extends, AfterRuns, History, NumberedFindings, Listing, ActiveIds, RunFindingQuery, PositionAt, CursorOf, PageOf;
    var first, mid, later := AfterRuns(start, runs[..a]), AfterRuns(start, runs[..b]), AfterRuns(start, runs[..c]);
    PrefixGrows(start, runs, a, b);
    PrefixGrows(start, runs, b, c);
    PrefixGrows(start, runs, a, c);
    LaterRead(caseId, first, mid, f, limit, k);
    LaterRead(caseId, first, later, f, limit, k);
    if ActiveIds(later) == ActiveIds(first) {
      ChangedStaysChanged(first, mid, later);
    }
  }

  lemma PrefixGrows(start: Table, runs: seq<Run>, a: nat, b: nat)
    requires Valid(start) && History(start, runs) && a <= b <= |runs|
    ensures var first, later := AfterRuns(start, runs[..a]), AfterRuns(start, runs[..b]);
      Valid(later) && Extends(first, later) && LaterState(first, later)
  {
    hide Valid, Extends, AfterRuns, History, NumberedFindings;
    PrefixIsHistory(start, runs, b);
    assert runs[..b][..a] == runs[..a];
    HistoryIsSafe(start, runs[..b], a);
    ValidIsNumbered(AfterRuns(start, runs[..b]));
  }

  /** The page read after `k` rows extends the prefix read so far, and its cursor stands at its end. */
  lemma NextPrefix(fp: Fingerprint, all: seq<FindingRow>, k: nat, limit: nat)
    requires 1 <= limit && k <= |all|
    ensures var page, end := PageOf(fp, all[k..], limit), Min(k + limit, |all|);
      && all[..k] + page.items == all[..end]
      && (page.nextCursor.None? <==> end == |all|)
      && (end < |all| ==> page.nextCursor == CursorOf(fp, PositionAt(fp.filters, all, end)))
  {
    hide EncodeCursor, PositionOf;
    var rest := all[k..];
    if |rest| > limit {
      assert rest[..limit] == all[k..k + limit];
      assert rest[limit - 1] == all[k + limit - 1];
      assert all[..k] + all[k..k + limit] == all[..k + limit];
    } else {
      assert all[..k] + rest == all[..|all|];
    }
  }

  datatype Read = Read(rows: seq<FindingRow>, complete: bool, pages: nat)

  function Min(a: nat, b: nat): nat {
    if a <= b then a else b
  }

  /** max(1, ceil(total / limit)) */
  function PageCount(total: nat, limit: nat): nat
    requires 1 <= limit
  {
    if total == 0 then 1 else (total + limit - 1) / limit
  }

  lemma Monotone(a: nat, b: nat, limit: nat)
    requires a <= b
    ensures a * limit <= b * limit
  {
  }

  lemma CountOf(total: nat, limit: nat, pages: nat)
    requires 1 <= limit && 1 <= pages && total <= pages * limit
    requires if total == 0 then pages == 1 else (pages - 1) * limit < total
    ensures PageCount(total, limit) == pages
  {
    if total > 0 {
      var n := total + limit - 1;
      assert pages * limit <= n < (pages + 1) * limit;
      if n / limit < pages {
        Monotone(n / limit + 1, pages, limit);
      } else if n / limit > pages {
        Monotone(pages + 1, n / limit, limit);
      }
    }
  }

  /** The rows of `pages` full pages. */
  function FullPages(pages: nat, limit: nat): nat {
    if pages == 0 then 0 else FullPages(pages - 1, limit) + limit
  }

  lemma {:induction false} FullPagesIsProduct(pages: nat, limit: nat)
    ensures FullPages(pages, limit) == pages * limit
  {
    if pages > 0 {
      FullPagesIsProduct(pages - 1, limit);
      assert pages * limit == (pages - 1) * limit + limit;
    }
  }

  /** What a finished read says of the list it followed. */
  predicate Follows(all: seq<FindingRow>, read: Read, limit: nat)
    requires 1 <= limit
  {
    && read.rows == all[..Min(FullPages(read.pages, limit), |all|)]
    && (read.complete <==> read.pages == 0 || read.rows == all)
    && (read.complete && read.pages > 0 ==> read.pages == PageCount(|all|, limit))
  }

  lemma ReadFollows(all: seq<FindingRow>, k: nat, pages: nat, limit: nat)
    requires 1 <= limit && k == FullPages(pages, limit) && (if pages == 0 then k <= |all| else k < |all|)
    ensures FullPages(pages + 1, limit) == k + limit
    ensures Follows(all, Read(all[..Min(k + limit, |all|)], |all| <= k + limit, pages + 1), limit)
    ensures k + limit < |all| ==> all[..k + limit] != all
  {
    assert all[..|all|] == all;
    if |all| <= k + limit {
      FullPagesIsProduct(pages, limit);
      FullPagesIsProduct(pages + 1, limit);
      CountOf(|all|, limit, pages + 1);
    }
  }

  lemma NothingFollows(all: seq<FindingRow>, limit: nat)
    requires 1 <= limit
    ensures Follows(all, Read([], true, 0), limit)
  {
  }

  /** A route as the client calls it: the i-th request with a cursor. */
  type Route = (nat, Option<Token>) -> Result<Page, Error>

  /** The route serves the list `all`: a request whose cursor stands after `k` rows gets the next
      page, or INVALID_CURSOR at a request by which the list no longer stands. */
  ghost predicate Serves(route: Route, fp: Fingerprint, all: seq<FindingRow>, limit: nat, stands: nat -> bool)
    requires 1 <= limit
  {
    forall i: nat, k: nat {:trigger route(i, CursorOf(fp, PositionAt(fp.filters, all, k)))} ::
      k <= |all| && (i == 0 <==> k == 0) ==>
        route(i, CursorOf(fp, PositionAt(fp.filters, all, k)))
          == if stands(i) then Ok(PageOf(fp, all[k..], limit)) else Err(InvalidCursor)
  }

  /** Follows the cursors until there is none, or `cap` pages are read, or `stop` ends it. What is
      held then is a prefix of the served list; `complete` tells a whole list from a part, except
      that a cap of 0 asks for nothing and is called complete. */
  method ReadPages(route: Route, cap: nat, stop: nat -> bool,
                   ghost fp: Fingerprint, ghost all: seq<FindingRow>, ghost limit: nat, ghost stands: nat -> bool)
    returns (r: Result<Read, Error>)
    requires 1 <= limit && Serves(route, fp, all, limit, stands)
    ensures r.Ok? ==> Follows(all, r.value, limit) && r.value.pages <= cap
    ensures r.Ok? && !r.value.complete ==> 0 < r.value.pages && (r.value.pages == cap || stop(r.value.pages - 1))
    ensures r.Ok? && r.value.pages == 0 ==> cap == 0
    ensures r.Ok? ==> forall i :: 0 <= i < r.value.pages ==> stands(i)
    ensures r.Err? ==> exists i :: 0 <= i < cap && !stands(i)
  {
    var rows: seq<FindingRow> := [];
    var after: Option<Token> := None;
    var pages := 0;
    NothingFollows(all, limit);
    hide PageOf, CursorOf, PositionAt, FullPages, Follows, ReadSoFar, Serves;
    while pages < cap
      invariant 0 <= pages <= cap
      invariant ReadSoFar(fp, all, limit, rows, after, pages)
      invariant pages > 0 ==> !stop(pages - 1)
      invariant forall i :: 0 <= i < pages ==> stands(i)
      invariant Follows(all, Read(rows, after.None?, pages), limit)
      invariant after.None? ==> pages == 0
      decreases cap - pages
    {
      ServedPage(route, fp, all, limit, stands, pages, rows, after);
      var page := route(pages, after);
      if page.Err? {
        return Err(page.error);
      }
      NextPage(fp, all, limit, rows, after, pages, page.value);
      rows := rows + page.value.items;
      after := page.value.nextCursor;
      pages := pages + 1;
      if after.None? || stop(pages - 1) {
        return Ok(Read(rows, after.None?, pages));
      }
    }
    return Ok(Read(rows, after.None?, pages));
  }

  /** Between two pages: whole pages of the list are read, and the cursor stands after them. */
  predicate ReadSoFar(fp: Fingerprint, all: seq<FindingRow>, limit: nat, rows: seq<FindingRow>, after: Option<Token>, pages: nat) {
    && |rows| == FullPages(pages, limit) && |rows| <= |all| && rows == all[..|rows|]
    && (pages > 0 ==> 1 <= |rows| < |all|)
    && after == CursorOf(fp, PositionAt(fp.filters, all, |rows|))
  }

  lemma ServedPage(route: Route, fp: Fingerprint, all: seq<FindingRow>, limit: nat, stands: nat -> bool, i: nat,
                   rows: seq<FindingRow>, after: Option<Token>)
    requires 1 <= limit && Serves(route, fp, all, limit, stands) && ReadSoFar(fp, all, limit, rows, after, i)
    ensures |rows| <= |all|
    ensures route(i, after) == if stands(i) then Ok(PageOf(fp, all[|rows|..], limit)) else Err(InvalidCursor)
  {
    hide PageOf, CursorOf, PositionAt;
  }

  lemma NextPage(fp: Fingerprint, all: seq<FindingRow>, limit: nat, rows: seq<FindingRow>, after: Option<Token>, pages: nat,
                 page: Page)
    requires 1 <= limit && ReadSoFar(fp, all, limit, rows, after, pages) && page == PageOf(fp, all[|rows|..], limit)
    ensures Follows(all, Read(rows + page.items, page.nextCursor.None?, pages + 1), limit)
    ensures page.nextCursor.Some? ==> ReadSoFar(fp, all, limit, rows + page.items, page.nextCursor, pages + 1)
  {
    hide PageOf, CursorOf, PositionAt, FullPages, Follows;
    NextPrefix(fp, all, |rows|, limit);
    ReadFollows(all, |rows|, pages, limit);
  }

  lemma FirstIsNumbered(at: nat -> Table)
    requires Growing(at)
    ensures NumberedFindings(at(0))
  {
    assert LaterState(at(0), at(0));
  }

  predicate SameActive(a: Table, b: Table) {
    ActiveIds(a) == ActiveIds(b)
  }

  function Standing(at: nat -> Table): nat -> bool {
    (i: nat) => SameActive(at(0), at(i))
  }

  /** The route over a Case whose i-th request finds the table in state `at(i)`. */
  function CaseRoute(caseId: string, at: nat -> Table, f: Filters, limit: nat): Route
    requires 1 <= limit
  {
    (i: nat, after: Option<Token>) => RunFindingQuery(caseId, at(i), f, limit, after)
  }

  /** While Analysis Runs commit between requests, the route serves the first state's list for as
      long as the active results stand. */
  lemma CaseRouteServes(caseId: string, at: nat -> Table, f: Filters, limit: nat)
    requires Growing(at) && 1 <= limit
    ensures Serves(CaseRoute(caseId, at, f, limit), Fingerprint(caseId, ActiveIds(at(0)), f), Listing(at(0), f), limit,
                   Standing(at))
  {
    hide Listing, ActiveIds, RunFindingQuery, PageOf, Growing, LaterState, PositionAt, CursorOf;
    var fp, all := Fingerprint(caseId, ActiveIds(at(0)), f), Listing(at(0), f);
    forall i: nat, k: nat | k <= |all| && (i == 0 <==> k == 0)
      ensures CaseRoute(caseId, at, f, limit)(i, CursorOf(fp, PositionAt(f, all, k)))
        == if Standing(at)(i) then Ok(PageOf(fp, all[k..], limit)) else Err(InvalidCursor)
    {
      CaseRequest(caseId, at, f, limit, i, k);
    }
  }

  lemma CaseRequest(caseId: string, at: nat -> Table, f: Filters, limit: nat, i: nat, k: nat)
    requires Growing(at) && 1 <= limit && k <= |Listing(at(0), f)| && (i == 0 <==> k == 0)
    ensures var fp, all := Fingerprint(caseId, ActiveIds(at(0)), f), Listing(at(0), f);
      RunFindingQuery(caseId, at(i), f, limit, CursorOf(fp, PositionAt(f, all, k)))
        == if SameActive(at(0), at(i)) then Ok(PageOf(fp, all[k..], limit)) else Err(InvalidCursor)
  {
    assert LaterState(at(0), at(i)) && LaterState(at(0), at(0));
    if i == 0 {
      PageIsSlice(caseId, at(0), f, limit, 0);
    } else {
      LaterRead(caseId, at(0), at(i), f, limit, k);
    }
  }

  /** What is read of a Case: rows listed in its first state, in the query's direction and none twice, and
      all of them once the read is whole. */
  predicate ReadsListed(first: Table, f: Filters, read: Read) {
    && RowsRun(f, read.rows) && Distinct(read.rows)
    && (forall row :: row in read.rows ==> IsListed(first, f, row))
    && (read.complete && read.pages > 0 ==> forall row :: row in first.findings && IsListed(first, f, row) ==> row in read.rows)
  }

  lemma FollowsIsListed(first: Table, f: Filters, read: Read, limit: nat)
    requires NumberedFindings(first) && 1 <= limit && Follows(Listing(first, f), read, limit)
    ensures ReadsListed(first, f, read)
  {
    hide Listing, RowsRun, IsListed, FullPages, NumberedFindings;
    var all := Listing(first, f);
    ListingRuns(first, f);
    assert read.rows == all[0..0 + |read.rows|];
    PartRuns(f, all, read.rows, 0);
    forall row ensures row in all <==> IsListed(first, f, row) {
      ListedExactly(first, f, row);
    }
    if first.findings != [] {
      ListedExactly(first, f, first.findings[0]);
    } else {
      NothingListed(first, f);
    }
  }

  lemma NothingListed(t: Table, f: Filters)
    requires t.findings == []
    ensures Listing(t, f) == []
  {
  }

  /** A whole client read over a changing Case: on success its rows are the first state's list in
      order, as far as it was read, and no read page saw other active results; the only failure is
      that the active results changed. */
  method ReadCase(caseId: string, at: nat -> Table, f: Filters, limit: nat, cap: nat, stop: nat -> bool)
    returns (r: Result<Read, Error>)
    requires 1 <= limit && Growing(at)
    ensures r.Ok? ==> Follows(Listing(at(0), f), r.value, limit) && r.value.pages <= cap
    ensures r.Ok? ==> ReadsListed(at(0), f, r.value)
    ensures r.Ok? && !r.value.complete ==> 0 < r.value.pages && (r.value.pages == cap || stop(r.value.pages - 1))
    ensures r.Ok? ==> forall i :: 0 <= i < r.value.pages ==> SameActive(at(0), at(i))
    ensures r.Err? ==> exists i :: 0 < i < cap && !SameActive(at(0), at(i))
  {
    hide Listing, ActiveIds, RunFindingQuery, PageOf, Growing, LaterState, PositionAt, CursorOf, ReadsListed, Follows;
    CaseRouteServes(caseId, at, f, limit);
    FirstIsNumbered(at);
    assert Standing(at)(0);
    r := ReadPages(CaseRoute(caseId, at, f, limit), cap, stop, Fingerprint(caseId, ActiveIds(at(0)), f),
                   Listing(at(0), f), limit, Standing(at));
    if r.Err? {
      var i :| 0 <= i < cap && !Standing(at)(i);
      assert SameActive(at(0), at(0));
      assert !SameActive(at(0), at(i));
    } else {
      FollowsIsListed(at(0), f, r.value, limit);
      forall i | 0 <= i < r.value.pages ensures SameActive(at(0), at(i)) {
        assert Standing(at)(i);
      }
    }
  }
}
