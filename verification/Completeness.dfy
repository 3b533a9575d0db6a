/** The Completeness Statement: the current outcome of each (Source, Profile) in each results table. */
module Completeness {
  import opened Outcomes
  import opened Orders
  import opened CaseStore

  /** A result row joined with the start of the run that wrote it. */
  datatype Attempt = Attempt(row: ResultRow, startedAt: string)

  datatype Scope = Scope(source: string, profile: string)

  datatype Outcome = OutcomeProduced | OutcomeAbsent | OutcomeUnavailable

  function ScopeOf(a: Attempt): Scope {
    Scope(a.row.subject.source, a.row.subject.profile)
  }

  function OutcomeOf(a: Attempt): Outcome {
    match a.row.status
    case Complete => OutcomeProduced
    case Absent => OutcomeAbsent
    case Unavailable => OutcomeUnavailable
  }

  /** The more recent attempt: started later, or with the greater id at the same start. */
  predicate MoreRecent(a: Attempt, b: Attempt) {
    UnitLess(b.startedAt, a.startedAt) || (a.startedAt == b.startedAt && a.row.id > b.row.id)
  }

  predicate Replaces(a: Attempt, chosen: Attempt) {
    !chosen.row.active && (a.row.active || MoreRecent(a, chosen))
  }

  function Choose(current: map<Scope, Attempt>, a: Attempt): map<Scope, Attempt> {
    if ScopeOf(a) in current && !Replaces(a, current[ScopeOf(a)]) then current else current[ScopeOf(a) := a]
  }

  function Fold(rows: seq<Attempt>): map<Scope, Attempt> {
    if rows == [] then map[] else Choose(Fold(rows[..|rows| - 1]), rows[|rows| - 1])
  }

  /** The loop over the joined rows, in whatever order the database returns them. */
  method BuildStatement(rows: seq<Attempt>) returns (current: map<Scope, Attempt>)
    ensures current == Fold(rows)
  {
    current := map[];
    for i := 0 to |rows|
      invariant current == Fold(rows[..i])
    {
      assert rows[..i + 1][..i] == rows[..i];
      var a := rows[i];
      var key := ScopeOf(a);
      if key !in current {
        current := current[key := a];
      } else {
        var chosen := current[key];
        if !chosen.row.active && (a.row.active || MoreRecent(a, chosen)) {
          current := current[key := a];
        }
      }
    }
    assert rows[..|rows|] == rows;
  }

  /** `a` is the current row of its scope: an active one if the scope has any, else the most recent. */
  ghost predicate IsCurrent(rows: seq<Attempt>, a: Attempt) {
    && a in rows
    && (!a.row.active ==> forall b :: b in rows && ScopeOf(b) == ScopeOf(a) ==>
          !b.row.active && (b == a || MoreRecent(a, b)))
  }

  /** Row ids name attempts. */
  ghost predicate IdsNameAttempts(rows: seq<Attempt>) {
    forall i, j :: 0 <= i < j < |rows| ==> rows[i].row.id != rows[j].row.id
  }

  lemma MoreRecentIsOrder(a: Attempt, b: Attempt, c: Attempt)
    ensures MoreRecent(a, b) && MoreRecent(b, c) ==> MoreRecent(a, c)
    ensures a.row.id != b.row.id ==> MoreRecent(a, b) || MoreRecent(b, a)
    ensures !(MoreRecent(a, b) && MoreRecent(b, a))
  {
    UnitOrderIsTotal({a.startedAt, b.startedAt, c.startedAt});
  }

  /** The last row, replacing the one chosen before it, is the current row. */
  lemma LastReplaces(head: seq<Attempt>, last: Attempt, chosen: Attempt)
    requires IsCurrent(head, chosen) && ScopeOf(chosen) == ScopeOf(last) && Replaces(last, chosen)
    ensures IsCurrent(head + [last], last)
  {
    hide MoreRecent;
    forall b | b in head && !last.row.active && ScopeOf(b) == ScopeOf(last)
      ensures !b.row.active && MoreRecent(last, b)
    {
      MoreRecentIsOrder(last, chosen, b);
    }
  }

  /** The chosen row stays current when the last one does not replace it. */
  lemma LastStaysBehind(head: seq<Attempt>, last: Attempt, chosen: Attempt)
    requires IsCurrent(head, chosen) && ScopeOf(chosen) == ScopeOf(last) && !Replaces(last, chosen)
    requires chosen.row.id != last.row.id
    ensures IsCurrent(head + [last], chosen)
  {
    hide MoreRecent;
    MoreRecentIsOrder(chosen, last, chosen);
  }

  ghost predicate FoldsCurrent(rows: seq<Attempt>) {
    && (forall a :: a in rows ==> ScopeOf(a) in Fold(rows))
    && (forall s :: s in Fold(rows) ==> IsCurrent(rows, Fold(rows)[s]) && ScopeOf(Fold(rows)[s]) == s)
  }

  lemma FoldNext(head: seq<Attempt>, last: Attempt)
    requires IdsNameAttempts(head + [last]) && FoldsCurrent(head)
    ensures FoldsCurrent(head + [last])
  {
    hide MoreRecent, Replaces;
    var n, rows := |head|, head + [last];
    assert rows[..n] == head && rows[n] == last;
    forall s | s in Fold(rows) ensures IsCurrent(rows, Fold(rows)[s]) && ScopeOf(Fold(rows)[s]) == s {
      if s == ScopeOf(last) && s in Fold(head) {
        var chosen := Fold(head)[s];
        if Replaces(last, chosen) {
          LastReplaces(head, last, chosen);
        } else {
          var i :| 0 <= i < n && head[i] == chosen;
          assert rows[i].row.id != rows[n].row.id;
          LastStaysBehind(head, last, chosen);
        }
      }
    }
  }

  /** Every scope of the rows has one current row, and no other scope has any. */
  lemma {:induction false} FoldIsCurrent(rows: seq<Attempt>)
    requires IdsNameAttempts(rows)
    ensures forall a :: a in rows ==> ScopeOf(a) in Fold(rows)
    ensures forall s :: s in Fold(rows) ==> IsCurrent(rows, Fold(rows)[s]) && ScopeOf(Fold(rows)[s]) == s
  {
    hide IsCurrent, Choose;
    if rows != [] {
      var n := |rows| - 1;
      FoldIsCurrent(rows[..n]);
      assert rows == rows[..n] + [rows[n]];
      FoldNext(rows[..n], rows[n]);
    }
  }

  /** The attempts of a table, in some order. */
  ghost predicate AttemptsOf(t: Table, rows: seq<Attempt>) {
    && IdsNameAttempts(rows)
    && (forall a :: a in rows ==> a.row in t.results)
    && (forall r :: r in t.results ==> exists a :: a in rows && a.row == r)
  }

  /** Completeness says `produced` for a (Source, Profile) exactly when a result of it is active,
      which is exactly when some run completed for it, whatever order the rows are read in. */
  lemma ProducedExactlyWhenActive(t: Table, rows: seq<Attempt>, s: Scope)
    requires Valid(t) && AttemptsOf(t, rows)
    ensures (s in Fold(rows) && OutcomeOf(Fold(rows)[s]) == OutcomeProduced)
      <==> (exists a :: a in rows && ScopeOf(a) == s && a.row.active)
    ensures (exists a :: a in rows && ScopeOf(a) == s && a.row.active)
      <==> (exists a :: a in rows && ScopeOf(a) == s && a.row.status.Complete?)
  {
    hide Fold, Valid, MoreRecent;
    FoldIsCurrent(rows);
    if a: Attempt :| a in rows && ScopeOf(a) == s && a.row.status.Complete? {
      var b := ActiveOfSubject(t, rows, a);
      assert b in rows && ScopeOf(b) == s && b.row.active;
    }
    if a: Attempt :| a in rows && ScopeOf(a) == s && a.row.active {
      CompleteWhenActive(t, a.row);
      assert Fold(rows)[s].row.active by { assert IsCurrent(rows, Fold(rows)[s]); }
      assert IsCurrent(rows, Fold(rows)[s]) && Fold(rows)[s] in rows;
      CompleteWhenActive(t, Fold(rows)[s].row);
    }
  }

  /** The attempt of a scope that started last, or, of several that started then, the one with the greatest id. */
  ghost predicate IsNewest(rows: seq<Attempt>, s: Scope, a: Attempt) {
    && a in rows && a.row.subject.source == s.source && a.row.subject.profile == s.profile
    && forall b :: b in rows && b.row.subject.source == s.source && b.row.subject.profile == s.profile && b != a ==>
         UnitLess(b.startedAt, a.startedAt) || (b.startedAt == a.startedAt && b.row.id < a.row.id)
  }

  ghost predicate AnyActive(rows: seq<Attempt>, s: Scope) {
    exists a :: a in rows && a.row.subject.source == s.source && a.row.subject.profile == s.profile && a.row.active
  }

  /** Each scope attempted has an outcome: `produced` when some result is active, and otherwise what the newest
      attempt ended as. */
  lemma OutcomesSay(t: Table, rows: seq<Attempt>, s: Scope)
    requires Valid(t) && AttemptsOf(t, rows)
    ensures s in Fold(rows) <==> exists a :: a in rows && a.row.subject.source == s.source && a.row.subject.profile == s.profile
    ensures s in Fold(rows) ==>
      && (OutcomeOf(Fold(rows)[s]) == OutcomeProduced <==> AnyActive(rows, s))
      && (OutcomeOf(Fold(rows)[s]) == OutcomeAbsent <==>
            !AnyActive(rows, s) && exists a :: IsNewest(rows, s, a) && a.row.status == Absent)
      && (OutcomeOf(Fold(rows)[s]) == OutcomeUnavailable <==>
            !AnyActive(rows, s) && exists a :: IsNewest(rows, s, a) && a.row.status == Unavailable)
  {
    hide Fold, Valid, UnitLess;
    FoldIsCurrent(rows);
    if s in Fold(rows) {
      var c := Fold(rows)[s];
      assert IsCurrent(rows, c) && ScopeOf(c) == s;
      CompleteWhenActive(t, c.row);
      if c.row.active {
        assert AnyActive(rows, s);
      } else {
        assert !AnyActive(rows, s) by {
          if a :| a in rows && a.row.subject.source == s.source && a.row.subject.profile == s.profile && a.row.active {
            assert ScopeOf(a) == ScopeOf(c);
          }
        }
        NewestIsCurrent(rows, s, c);
        ProducedExactlyWhenActive(t, rows, s);
      }
    }
  }

  lemma NewestIsCurrent(rows: seq<Attempt>, s: Scope, c: Attempt)
    requires IsCurrent(rows, c) && ScopeOf(c) == s && !c.row.active
    ensures forall a :: IsNewest(rows, s, a) <==> a == c
  {
    hide UnitLess;
    assert IsNewest(rows, s, c);
    forall a | IsNewest(rows, s, a) && a != c ensures false {
      MoreRecentIsOrder(a, c, a);
    }
  }

  lemma CompleteWhenActive(t: Table, r: ResultRow)
    requires Valid(t) && r in t.results
    ensures r.active ==> r.status.Complete?
  {
    var i :| 0 <= i < |t.results| && t.results[i] == r;
    assert t.results[i].active ==> NewestComplete(t.results, i);
  }

  /** A subject with a complete result has an active one. */
  lemma ActiveOfSubject(t: Table, rows: seq<Attempt>, a: Attempt) returns (b: Attempt)
    requires Valid(t) && AttemptsOf(t, rows) && a in rows && a.row.status.Complete?
    ensures b in rows && b.row.active && b.row.subject == a.row.subject
  {
    var i :| 0 <= i < |t.results| && t.results[i] == a.row;
    var k := NewestFrom(t, i);
    assert t.results[k] in t.results;
    b :| b in rows && b.row == t.results[k];
  }

  // What the order of the rows can show.

  /** Two orders of the same attempts. */
  ghost predicate SameAttempts(rows: seq<Attempt>, other: seq<Attempt>) {
    IdsNameAttempts(rows) && IdsNameAttempts(other) && Members(rows) == Members(other)
  }

  /** The scopes stay where they were: ordered by Source and Profile, one list is as good as the other. */
  ghost predicate SameScopes(rows: seq<Attempt>, other: seq<Attempt>) {
    |rows| == |other| && forall i :: 0 <= i < |rows| ==> ScopeOf(rows[i]) == ScopeOf(other[i])
  }

  ghost predicate OneActivePerScope(rows: seq<Attempt>) {
    forall a, b :: a in rows && b in rows && a.row.active && b.row.active && ScopeOf(a) == ScopeOf(b) ==> a == b
  }

  /** With one active row at most in each scope the current rows do not depend on the order. */
  lemma CurrentIgnoresOrder(rows: seq<Attempt>, other: seq<Attempt>)
    requires SameAttempts(rows, other) && OneActivePerScope(rows)
    ensures Fold(rows) == Fold(other)
  {
    hide Fold, MoreRecent;
    FoldIsCurrent(rows);
    FoldIsCurrent(other);
    forall a ensures a in rows <==> a in other { assert a in Members(rows) <==> a in Members(other); }
    assert Fold(rows).Keys == Fold(other).Keys;
    forall s | s in Fold(rows) ensures Fold(rows)[s] == Fold(other)[s] {
      var a, b := Fold(rows)[s], Fold(other)[s];
      assert IsCurrent(rows, a) && IsCurrent(other, b);
      MoreRecentIsOrder(a, b, a);
    }
  }

  /** An active row with no active row of its scope before it is the current one. */
  lemma {:induction false} FirstActiveStays(rows: seq<Attempt>, i: nat)
    requires i < |rows| && rows[i].row.active
    requires forall k :: 0 <= k < i && ScopeOf(rows[k]) == ScopeOf(rows[i]) ==> !rows[k].row.active
    ensures ScopeOf(rows[i]) in Fold(rows) && Fold(rows)[ScopeOf(rows[i])] == rows[i]
  {
    hide MoreRecent;
    var n := |rows| - 1;
    if i < n {
      FirstActiveStays(rows[..n], i);
    } else {
      FoldedFrom(rows[..n], ScopeOf(rows[i]));
    }
  }

  lemma {:induction false} FoldedFrom(rows: seq<Attempt>, s: Scope)
    ensures s in Fold(rows) ==> Fold(rows)[s] in rows && ScopeOf(Fold(rows)[s]) == s
  {
    hide Replaces;
    if rows != [] {
      FoldedFrom(rows[..|rows| - 1], s);
    }
  }

  lemma {:induction false} FirstActive(rows: seq<Attempt>, j: nat) returns (i: nat)
    requires j < |rows| && rows[j].row.active
    ensures i <= j && rows[i].row.active && ScopeOf(rows[i]) == ScopeOf(rows[j])
    ensures forall k :: 0 <= k < i && ScopeOf(rows[k]) == ScopeOf(rows[i]) ==> !rows[k].row.active
  {
    if k :| 0 <= k < j && ScopeOf(rows[k]) == ScopeOf(rows[j]) && rows[k].row.active {
      i := FirstActive(rows, k);
    } else {
      i := j;
    }
  }

  /** With two active rows in a scope, an order that the query may as well return names the other. */
  lemma OrderShows(rows: seq<Attempt>, j: nat, k: nat) returns (other: seq<Attempt>)
    requires IdsNameAttempts(rows) && j < k < |rows|
    requires rows[j].row.active && rows[k].row.active && ScopeOf(rows[j]) == ScopeOf(rows[k])
    ensures SameAttempts(rows, other) && SameScopes(rows, other) && Fold(other) != Fold(rows)
  {
    hide Fold;
    var i := FirstActive(rows, j);
    other := rows[i := rows[k]][k := rows[i]];
    FirstActiveStays(rows, i);
    FirstActiveStays(other, i);
    forall a ensures a in Members(rows) <==> a in Members(other) {
      if a in rows {
        var m :| 0 <= m < |rows| && rows[m] == a;
        assert other[if m == i then k else if m == k then i else m] == a;
      }
    }
  }

  /** No order of the rows shows in the current rows exactly when no (Source, Profile) has two active ones. */
  lemma CurrentIsOrderIndependentExactly(rows: seq<Attempt>)
    requires IdsNameAttempts(rows)
    ensures OneActivePerScope(rows) <==> (forall other :: SameAttempts(rows, other) ==> Fold(other) == Fold(rows))
    ensures OneActivePerScope(rows)
      <==> (forall other :: SameAttempts(rows, other) && SameScopes(rows, other) ==> Fold(other) == Fold(rows))
  {
    hide Fold;
    if OneActivePerScope(rows) {
      forall other | SameAttempts(rows, other) ensures Fold(other) == Fold(rows) {
        CurrentIgnoresOrder(rows, other);
      }
    } else {
      var a, b :| a in rows && b in rows && a.row.active && b.row.active && ScopeOf(a) == ScopeOf(b) && a != b;
      var j :| 0 <= j < |rows| && rows[j] == a;
      var k :| 0 <= k < |rows| && rows[k] == b;
      if j < k {
        var other := OrderShows(rows, j, k);
      } else {
        var other := OrderShows(rows, k, j);
      }
    }
  }

  /** The outcome of a scope never depends on the order. */
  lemma OutcomeIgnoresOrder(t: Table, rows: seq<Attempt>, other: seq<Attempt>)
    requires Valid(t) && AttemptsOf(t, rows) && SameAttempts(rows, other)
    ensures Fold(rows).Keys == Fold(other).Keys
    ensures forall s :: s in Fold(rows) ==> OutcomeOf(Fold(rows)[s]) == OutcomeOf(Fold(other)[s])
  {
    hide Fold, MoreRecent, Valid;
    FoldIsCurrent(rows);
    FoldIsCurrent(other);
    forall a ensures a in rows <==> a in other { assert a in Members(rows) <==> a in Members(other); }
    assert Fold(rows).Keys == Fold(other).Keys;
    forall s | s in Fold(rows) ensures OutcomeOf(Fold(rows)[s]) == OutcomeOf(Fold(other)[s]) {
      var a, b := Fold(rows)[s], Fold(other)[s];
      assert IsCurrent(rows, a) && IsCurrent(other, b);
      MoreRecentIsOrder(a, b, a);
      CompleteWhenActive(t, a.row);
      CompleteWhenActive(t, b.row);
    }
  }

  /** A table of one artifact has one active row at most in each scope. */
  lemma CurrentIsOrderIndependent(t: Table, rows: seq<Attempt>, other: seq<Attempt>)
    requires Valid(t) && AttemptsOf(t, rows) && AttemptsOf(t, other) && Members(rows) == Members(other)
    requires forall r, q :: r in t.results && q in t.results ==> r.subject.artifact == q.subject.artifact
    ensures OneActivePerScope(rows) && Fold(rows) == Fold(other)
  {
    hide Fold, Valid;
    forall a, b | a in rows && b in rows && a.row.active && b.row.active && ScopeOf(a) == ScopeOf(b) ensures a == b {
      SameActive(t, rows, a, b);
    }
    CurrentIgnoresOrder(rows, other);
  }

  lemma SameActive(t: Table, rows: seq<Attempt>, a: Attempt, b: Attempt)
    requires Valid(t) && AttemptsOf(t, rows) && a in rows && b in rows
    requires a.row.active && b.row.active && a.row.subject == b.row.subject
    ensures a == b
  {
    ValidIsSteady(t);
    var i :| 0 <= i < |t.results| && t.results[i] == a.row;
    var j :| 0 <= j < |t.results| && t.results[j] == b.row;
    assert i == j;
    var m :| 0 <= m < |rows| && rows[m] == a;
    var n :| 0 <= n < |rows| && rows[n] == b;
    assert m == n;
  }

  /** In a table that pools two artifacts it can: with both Bookmarks files active, the row named is
      whichever is read first. The outcome is the same. */
  lemma PooledTableNamesFirstRead(source: string, profile: string, run: string)
    ensures var primary := Attempt(ResultRow(1, run, Subject(source, profile, "Bookmarks"), None, Complete, "Bookmarks", None, true), "t");
      var backup := Attempt(ResultRow(2, run, Subject(source, profile, "Bookmarks.bak"), None, Complete, "Bookmarks.bak", None, true), "t");
      var s := Scope(source, profile);
      && Valid(Table([primary.row, backup.row], []))
      && Fold([primary, backup]) == map[s := primary] && Fold([backup, primary]) == map[s := backup]
      && OutcomeOf(primary) == OutcomeOf(backup)
  {
    var primary := Attempt(ResultRow(1, run, Subject(source, profile, "Bookmarks"), None, Complete, "Bookmarks", None, true), "t");
    var backup := Attempt(ResultRow(2, run, Subject(source, profile, "Bookmarks.bak"), None, Complete, "Bookmarks.bak", None, true), "t");
    assert [primary, backup][..1] == [primary] && [backup, primary][..1] == [backup];
    assert [primary][..0] == [] && [backup][..0] == [];
    assert Fold([primary]) == Choose(Fold([]), primary) && Fold([backup]) == Choose(Fold([]), backup);
    assert "Bookmarks" != "Bookmarks.bak" by { assert |"Bookmarks"| != |"Bookmarks.bak"|; }
    var rows := [primary.row, backup.row];
    assert NewestComplete(rows, 0) && NewestComplete(rows, 1);
  }

  // All the results tables of a Case, any of which may be missing.

  function RowsOf(table: Option<seq<Attempt>>): seq<Attempt> {
    if table.Some? then table.value else []
  }

  function ActiveProfiles(rows: seq<Attempt>): set<string> {
    set a | a in rows && a.row.active :: a.row.subject.profile
  }

  /** The distinct Profiles with an active result in any table. */
  method ReadActiveProfiles(tables: seq<Option<seq<Attempt>>>) returns (profiles: set<string>)
    ensures forall p :: p in profiles <==> exists k :: 0 <= k < |tables| && p in ActiveProfiles(RowsOf(tables[k]))
  {
    profiles := {};
    for k := 0 to |tables|
      invariant forall p :: p in profiles <==> exists m :: 0 <= m < k && p in ActiveProfiles(RowsOf(tables[m]))
    {
      if tables[k].Some? {
        var rows := tables[k].value;
        ghost var before := profiles;
        for i := 0 to |rows|
          invariant profiles == before + ActiveProfiles(rows[..i])
        {
          assert rows[..i + 1] == rows[..i] + [rows[i]];
          if rows[i].row.active {
            profiles := profiles + {rows[i].row.subject.profile};
          }
        }
        assert rows[..|rows|] == rows;
      }
    }
  }

  /** Each table present is valid and read in some order; a missing one is read as no rows. */
  ghost predicate ReadFrom(tables: seq<Option<Table>>, lists: seq<Option<seq<Attempt>>>) {
    && |tables| == |lists|
    && (forall k :: 0 <= k < |tables| ==> (tables[k].Some? <==> lists[k].Some?))
    && (forall k :: 0 <= k < |tables| && tables[k].Some? ==>
          Valid(tables[k].value) && AttemptsOf(tables[k].value, lists[k].value))
  }

  ghost predicate Produced(rows: seq<Attempt>, profile: string) {
    exists s :: s in Fold(rows) && s.profile == profile && OutcomeOf(Fold(rows)[s]) == OutcomeProduced
  }

  lemma ActiveIsProduced(t: Table, rows: seq<Attempt>, profile: string)
    requires Valid(t) && AttemptsOf(t, rows)
    ensures profile in ActiveProfiles(rows) <==> Produced(rows, profile)
  {
    hide Fold, Valid, OutcomeOf;
    if a: Attempt :| a in rows && a.row.active && a.row.subject.profile == profile {
      ProducedExactlyWhenActive(t, rows, ScopeOf(a));
    }
    if s :| s in Fold(rows) && s.profile == profile && OutcomeOf(Fold(rows)[s]) == OutcomeProduced {
      ProducedExactlyWhenActive(t, rows, s);
    }
  }

  /** The Profile filter offers exactly the Profiles for which some artifact's statement says `produced`. */
  lemma ActiveProfilesAreProduced(tables: seq<Option<Table>>, lists: seq<Option<seq<Attempt>>>, profile: string)
    requires ReadFrom(tables, lists)
    ensures (exists k :: 0 <= k < |lists| && profile in ActiveProfiles(RowsOf(lists[k])))
      <==> (exists k :: 0 <= k < |lists| && Produced(RowsOf(lists[k]), profile))
  {
    hide Fold, Valid, Produced, ActiveProfiles, AttemptsOf;
    forall k | 0 <= k < |lists| ensures profile in ActiveProfiles(RowsOf(lists[k])) <==> Produced(RowsOf(lists[k]), profile) {
      if lists[k].Some? {
        ActiveIsProduced(tables[k].value, lists[k].value, profile);
      } else {
        NothingProduced(profile);
      }
    }
  }

  lemma NothingProduced(profile: string)
    ensures profile !in ActiveProfiles([]) && !Produced([], profile)
  {
  }
}
