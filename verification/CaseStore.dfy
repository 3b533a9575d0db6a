/** The rows of one artifact family, and the Analysis Run that adds to them and moves the `active` flag. */
module CaseStore {
  import opened Outcomes

  const SQLITE_MAX_INTEGER: int := 9_223_372_036_854_775_807
  const SQLITE_MIN_INTEGER: int := -9_223_372_036_854_775_808

  datatype Status = Complete | Absent | Unavailable

  /** What one result row speaks for. */
  datatype Subject = Subject(source: string, profile: string, artifact: string)

  datatype ResultRow = ResultRow(
    id: int, runId: string, subject: Subject, ordinal: Option<int>, status: Status,
    databasePath: string, reason: Option<string>, active: bool)

  /** A History finding: the Manifest entry it comes from, and the columns that filters and sorts read. */
  datatype Record = Record(
    source: string, ordinal: int, kind: string, profile: string, commitState: string, searchText: string,
    sortTime: Option<string>, sortUrl: Option<string>,
    sortDuration: Option<int>, sortCount: Option<int>, transitionCore: Option<string>)

  predicate FitsInteger(n: Option<int>) {
    n.Some? ==> SQLITE_MIN_INTEGER <= n.value <= SQLITE_MAX_INTEGER
  }

  /** The integer columns hold 64-bit values. */
  predicate FitsColumns(r: Record) {
    FitsInteger(r.sortDuration) && FitsInteger(r.sortCount)
  }

  datatype FindingRow = FindingRow(id: int, runId: string, resultId: int, record: Record)

  datatype Table = Table(results: seq<ResultRow>, findings: seq<FindingRow>)

  datatype ArtifactWrite = ArtifactWrite(
    subject: Subject, ordinal: Option<int>, status: Status, databasePath: string, reason: Option<string>,
    findings: seq<Record>)

  /** The rows that foreign keys of a family's tables point to: runs with their Sources, Sources and Manifest
      entries. */
  datatype References = References(
    runs: set<string>, runSources: set<(string, string)>, sources: set<string>, entries: set<(string, int)>)

  /** The statements an Analysis Run issues against one family. */
  datatype Statement =
    | InsertResult(runId: string, write: ArtifactWrite)
    | InsertFinding(runId: string, resultId: int, record: Record)
    | Deactivate(subject: Subject)
    | Activate(resultId: int)

  function NewRow(id: int, runId: string, w: ArtifactWrite): ResultRow {
    ResultRow(id, runId, w.subject, w.ordinal, w.status, w.databasePath, w.reason, false)
  }

  function Deactivated(rows: seq<ResultRow>, subject: Subject): (r: seq<ResultRow>) {
    seq(|rows|, i requires 0 <= i < |rows| =>
      if rows[i].subject == subject && rows[i].active then rows[i].(active := false) else rows[i])
  }

  function Activated(rows: seq<ResultRow>, id: int): (r: seq<ResultRow>) {
    seq(|rows|, i requires 0 <= i < |rows| => if rows[i].id == id then rows[i].(active := true) else rows[i])
  }

  /** The effect of a statement. A new row takes the rowid after the greatest one in its table. */
  function Apply(t: Table, s: Statement): Table {
    match s
    case InsertResult(runId, w) => t.(results := t.results + [NewRow(|t.results| + 1, runId, w)])
    case InsertFinding(runId, resultId, record) =>
      t.(findings := t.findings + [FindingRow(|t.findings| + 1, runId, resultId, record)])
    case Deactivate(subject) => t.(results := Deactivated(t.results, subject))
    case Activate(id) => t.(results := Activated(t.results, id))
  }

  /** The partial unique index: at most one active result per subject. */
  predicate OneActive(rows: seq<ResultRow>) {
    forall i, j :: 0 <= i < j < |rows| && rows[i].active && rows[j].active ==> rows[i].subject != rows[j].subject
  }

  const COMMIT_STATES := {"committed", "wal_resident", "journal_resident"}

  /** The foreign keys of a result row. */
  predicate ResultCites(refs: References, runId: string, w: ArtifactWrite) {
    && runId in refs.runs && w.subject.source in refs.sources
    && (w.ordinal.Some? ==> (w.subject.source, w.ordinal.value) in refs.entries)
  }

  /** The foreign keys of a finding row to its run and its Manifest entry, and its CHECK clause. */
  predicate FindingCites(refs: References, runId: string, r: Record) {
    runId in refs.runs && (r.source, r.ordinal) in refs.entries && r.commitState in COMMIT_STATES
  }

  /** The database's own constraints: the foreign keys and CHECK clauses, UNIQUE (run, subject), the
      partial unique index, and the range of rowids and integer columns. */
  predicate Admits(refs: References, t: Table, s: Statement) {
    match s
    case InsertResult(runId, w) =>
      && |t.results| < SQLITE_MAX_INTEGER && ResultCites(refs, runId, w)
      && forall i :: 0 <= i < |t.results| ==> t.results[i].runId != runId || t.results[i].subject != w.subject
    case InsertFinding(runId, resultId, record) =>
      && |t.findings| < SQLITE_MAX_INTEGER && 1 <= resultId <= |t.results| && FitsColumns(record)
      && FindingCites(refs, runId, record)
    case Deactivate(_) => true
    case Activate(id) => OneActive(Activated(t.results, id))
  }

  // The constraints, said of the rows a table holds.

  predicate ResultIsSound(refs: References, r: ResultRow) {
    && r.runId in refs.runs && r.subject.source in refs.sources
    && (r.ordinal != None ==> (r.subject.source, r.ordinal.value) in refs.entries)
  }

  predicate FindingIsSound(refs: References, results: nat, f: FindingRow) {
    && f.runId in refs.runs && 1 <= f.resultId <= results && (f.record.source, f.record.ordinal) in refs.entries
    && (f.record.commitState == "committed" || f.record.commitState == "wal_resident"
        || f.record.commitState == "journal_resident")
    && (f.record.sortDuration != None ==> -0x8000_0000_0000_0000 <= f.record.sortDuration.value < 0x8000_0000_0000_0000)
    && (f.record.sortCount != None ==> -0x8000_0000_0000_0000 <= f.record.sortCount.value < 0x8000_0000_0000_0000)
  }

  /** Every row cites rows that exist and holds values its columns take; a run has one result for a subject, and a
      subject one active result. */
  predicate IsSound(refs: References, t: Table) {
    && (forall i :: 0 <= i < |t.results| ==> ResultIsSound(refs, t.results[i]))
    && (forall i, j :: 0 <= i < j < |t.results| ==>
          t.results[i].runId != t.results[j].runId || t.results[i].subject != t.results[j].subject)
    && (forall i, j :: 0 <= i < j < |t.results| && t.results[i].active && t.results[j].active ==>
          t.results[i].subject != t.results[j].subject)
    && (forall i :: 0 <= i < |t.findings| ==> FindingIsSound(refs, |t.results|, t.findings[i]))
  }

  /** There is a rowid left for the row. */
  predicate HasRoom(t: Table, s: Statement) {
    && (s.InsertResult? ==> |t.results| < 0x7FFF_FFFF_FFFF_FFFF)
    && (s.InsertFinding? ==> |t.findings| < 0x7FFF_FFFF_FFFF_FFFF)
  }

  /** A statement is admitted exactly when a rowid is left and the table stays sound. */
  lemma AdmitsExactly(refs: References, t: Table, s: Statement)
    requires IsSound(refs, t)
    ensures Admits(refs, t, s) <==> HasRoom(t, s) && IsSound(refs, Apply(t, s))
  {
    match s
    case InsertResult(runId, w) =>
      var u := Apply(t, s);
      assert u.results[|t.results|] == NewRow(|t.results| + 1, runId, w);
      assert forall i :: 0 <= i < |t.results| ==> u.results[i] == t.results[i];
      assert ResultIsSound(refs, u.results[|t.results|]) <==> ResultCites(refs, runId, w);
    case InsertFinding(runId, resultId, record) =>
      var u := Apply(t, s);
      assert u.findings[|t.findings|] == FindingRow(|t.findings| + 1, runId, resultId, record);
      assert forall i :: 0 <= i < |t.findings| ==> u.findings[i] == t.findings[i];
    case Deactivate(_) =>
    case Activate(id) =>
      var u := Apply(t, s);
      assert forall i :: 0 <= i < |t.results| ==>
          u.results[i].runId == t.results[i].runId && u.results[i].subject == t.results[i].subject;
  }

  function Exec(t: Table, script: seq<Statement>): Table
    decreases |script|
  {
    if script == [] then t else Exec(Apply(t, script[0]), script[1..])
  }

  function FindingInserts(runId: string, resultId: int, records: seq<Record>): (r: seq<Statement>)
    ensures |r| == |records|
  {
    seq(|records|, i requires 0 <= i < |records| => InsertFinding(runId, resultId, records[i]))
  }

  function Switch(resultId: int, w: ArtifactWrite): seq<Statement> {
    if w.status.Complete? then [Deactivate(w.subject), Activate(resultId)] else []
  }

  function WriteScript(resultId: int, runId: string, w: ArtifactWrite): seq<Statement> {
    [InsertResult(runId, w)] + FindingInserts(runId, resultId, w.findings) + Switch(resultId, w)
  }

  function Flatten<T>(chunks: seq<seq<T>>): seq<T> {
    if chunks == [] then [] else chunks[0] + Flatten(chunks[1..])
  }

  /** The statements of each write of one family, the first with result id `firstId`. */
  function Chunks(firstId: int, runId: string, writes: seq<ArtifactWrite>): (r: seq<seq<Statement>>)
    ensures |r| == |writes|
  {
    seq(|writes|, i requires 0 <= i < |writes| => WriteScript(firstId + i, runId, writes[i]))
  }

  /** Every statement of one family's part of a run, in order. */
  function Script(firstId: int, runId: string, writes: seq<ArtifactWrite>): seq<Statement> {
    Flatten(Chunks(firstId, runId, writes))
  }

  lemma ScriptCons(firstId: int, runId: string, writes: seq<ArtifactWrite>)
    requires writes != []
    ensures Script(firstId, runId, writes)
      == WriteScript(firstId, runId, writes[0]) + Script(firstId + 1, runId, writes[1..])
  {
    assert Chunks(firstId, runId, writes)[1..] == Chunks(firstId + 1, runId, writes[1..]);
  }

  lemma ChunksPrefix(firstId: int, runId: string, writes: seq<ArtifactWrite>, i: nat)
    requires i <= |writes|
    ensures Chunks(firstId, runId, writes[..i]) == Chunks(firstId, runId, writes)[..i]
  {
  }

  lemma {:induction false} FlattenAt<T>(chunks: seq<seq<T>>, i: nat)
    requires i < |chunks|
    ensures Flatten(chunks) == Flatten(chunks[..i]) + (chunks[i] + Flatten(chunks[i + 1..]))
    ensures Flatten(chunks[..i + 1]) == Flatten(chunks[..i]) + chunks[i]
    decreases i
  {
    if i == 0 {
      assert chunks[..1][1..] == [];
    } else {
      FlattenAt(chunks[1..], i - 1);
      assert chunks[..i][1..] == chunks[1..][..i - 1] && chunks[..i + 1][1..] == chunks[1..][..i];
      assert chunks[1..][i..] == chunks[i + 1..];
    }
  }

  // What holds of a table at every commit.

  predicate NewestComplete(rows: seq<ResultRow>, i: int)
    requires 0 <= i < |rows|
  {
    && rows[i].status.Complete?
    && forall j :: i < j < |rows| && rows[j].status.Complete? ==> rows[j].subject != rows[i].subject
  }

  /** Finding rowids count up, and every value fits its column. */
  predicate NumberedFindings(t: Table) {
    && |t.findings| <= SQLITE_MAX_INTEGER
    && forall i :: 0 <= i < |t.findings| ==> t.findings[i].id == i + 1 && FitsColumns(t.findings[i].record)
  }

  predicate ActiveIsNewestComplete(rows: seq<ResultRow>) {
    forall i :: 0 <= i < |rows| ==> (rows[i].active <==> NewestComplete(rows, i))
  }

  /** Rowids count up, findings cite results, and a result is active exactly when it is the newest
      complete one of its subject. */
  predicate Valid(t: Table) {
    && |t.results| <= SQLITE_MAX_INTEGER
    && (forall i :: 0 <= i < |t.results| ==> t.results[i].id == i + 1)
    && (forall i :: 0 <= i < |t.findings| ==> 1 <= t.findings[i].resultId <= |t.results|)
    && NumberedFindings(t)
    && ActiveIsNewestComplete(t.results)
  }

  /** `later` keeps every row of `t`, adds findings only to results it adds, and never turns a
      result active again. */
  predicate Extends(t: Table, later: Table) {
    && |t.results| <= |later.results| && |t.findings| <= |later.findings|
    && (forall i :: 0 <= i < |t.results| ==>
          && later.results[i].(active := false) == t.results[i].(active := false)
          && (later.results[i].active ==> t.results[i].active))
    && (forall i :: 0 <= i < |t.findings| ==> later.findings[i] == t.findings[i])
    && (forall i :: |t.findings| <= i < |later.findings| ==> later.findings[i].resultId > |t.results|)
  }

  lemma ExtendsTransitive(a: Table, b: Table, c: Table)
    requires Extends(a, b) && Extends(b, c)
    ensures Extends(a, c)
  {
    forall i | 0 <= i < |a.results|
      ensures c.results[i].(active := false) == a.results[i].(active := false)
      ensures c.results[i].active ==> a.results[i].active
    {
      assert b.results[i].(active := false) == a.results[i].(active := false);
    }
    forall i | |a.findings| <= i < |c.findings| ensures c.findings[i].resultId > |a.results| {
      if i < |b.findings| {
        assert c.findings[i] == b.findings[i];
      }
    }
  }

  lemma {:induction false} ExecConcat(t: Table, a: seq<Statement>, b: seq<Statement>)
    ensures Exec(t, a + b) == Exec(Exec(t, a), b)
    decreases |a|
  {
    if a == [] {
      assert a + b == b;
    } else {
      assert (a + b)[0] == a[0] && (a + b)[1..] == a[1..] + b;
      ExecConcat(Apply(t, a[0]), a[1..], b);
    }
  }

  /** The finding rows of one result, numbered on from `count`. */
  function NewFindings(count: int, runId: string, resultId: int, records: seq<Record>): (r: seq<FindingRow>)
    ensures |r| == |records|
  {
    seq(|records|, i requires 0 <= i < |records| => FindingRow(count + i + 1, runId, resultId, records[i]))
  }

  /** The rows one artifact leaves: its own row appended, and made the active one when complete. */
  function Persisted(t: Table, runId: string, w: ArtifactWrite): Table {
    var id := |t.results| + 1;
    var rows := t.results + [NewRow(id, runId, w)];
    Table(if w.status.Complete? then Activated(Deactivated(rows, w.subject), id) else rows,
          t.findings + NewFindings(|t.findings|, runId, id, w.findings))
  }

  /** The table after the first `k` statements of one artifact. */
  function Partial(t: Table, runId: string, w: ArtifactWrite, k: nat): Table
    requires k <= |WriteScript(|t.results| + 1, runId, w)|
  {
    var id, n := |t.results| + 1, |w.findings|;
    var rows := t.results + [NewRow(id, runId, w)];
    if k == 0 then t
    else if k <= n + 1 then Table(rows, t.findings + NewFindings(|t.findings|, runId, id, w.findings[..k - 1]))
    else if k == n + 2 then Table(Deactivated(rows, w.subject), t.findings + NewFindings(|t.findings|, runId, id, w.findings))
    else Persisted(t, runId, w)
  }

  lemma PartialStep(t: Table, runId: string, w: ArtifactWrite, k: nat)
    requires k < |WriteScript(|t.results| + 1, runId, w)|
    ensures Partial(t, runId, w, k + 1) == Apply(Partial(t, runId, w, k), WriteScript(|t.results| + 1, runId, w)[k])
  {
    var id, n := |t.results| + 1, |w.findings|;
    if k == 0 {
      assert t.findings + NewFindings(|t.findings|, runId, id, w.findings[..0]) == t.findings;
    } else if k <= n {
      assert WriteScript(id, runId, w)[k] == InsertFinding(runId, id, w.findings[k - 1]);
      assert t.findings + NewFindings(|t.findings|, runId, id, w.findings[..k])
        == t.findings + NewFindings(|t.findings|, runId, id, w.findings[..k - 1])
          + [FindingRow(|t.findings| + k, runId, id, w.findings[k - 1])];
    } else {
      assert w.findings[..n] == w.findings;
    }
  }

  lemma {:induction false} ExecPartial(t: Table, runId: string, w: ArtifactWrite, k: nat)
    requires k <= |WriteScript(|t.results| + 1, runId, w)|
    ensures Exec(t, WriteScript(|t.results| + 1, runId, w)[..k]) == Partial(t, runId, w, k)
  {
    if k > 0 {
      ExecPartial(t, runId, w, k - 1);
      PartialStep(t, runId, w, k - 1);
      Advance(t, WriteScript(|t.results| + 1, runId, w), k - 1);
    }
  }

  lemma Advance(t: Table, script: seq<Statement>, done: nat)
    requires done < |script|
    ensures Exec(t, script[..done + 1]) == Apply(Exec(t, script[..done]), script[done])
  {
    assert script[..done + 1] == script[..done] + [script[done]];
    ExecConcat(t, script[..done], [script[done]]);
    assert [script[done]][1..] == [];
  }

  lemma NothingDone(t: Table, script: seq<Statement>)
    ensures Exec(t, script[..0]) == t
  {
  }

  lemma ScriptIsChunks(firstId: int, runId: string, writes: seq<ArtifactWrite>)
    ensures Script(firstId, runId, writes) == Flatten(Chunks(firstId, runId, writes))
    ensures Flatten<Statement>([]) == []
  {
  }

  lemma ExecWrite(t: Table, runId: string, w: ArtifactWrite)
    ensures Exec(t, WriteScript(|t.results| + 1, runId, w)) == Persisted(t, runId, w)
  {
    var script := WriteScript(|t.results| + 1, runId, w);
    ExecPartial(t, runId, w, |script|);
    assert script[..|script|] == script && w.findings[..|w.findings|] == w.findings;
  }

  /** One artifact's statements, run to the end, keep a table valid and extend it. */
  lemma WriteKeepsValid(t: Table, runId: string, w: ArtifactWrite)
    requires Valid(t) && Fits(w)
    requires |t.results| < SQLITE_MAX_INTEGER && |t.findings| + |w.findings| <= SQLITE_MAX_INTEGER
    ensures Valid(Persisted(t, runId, w)) && Extends(t, Persisted(t, runId, w))
  {
    var n, u := |t.results|, Persisted(t, runId, w);
    forall i | 0 <= i < n
      ensures NewestComplete(u.results, i) <==>
        NewestComplete(t.results, i) && !(w.status.Complete? && w.subject == t.results[i].subject)
    {
      assert forall j :: 0 <= j < n ==>
        u.results[j].status == t.results[j].status && u.results[j].subject == t.results[j].subject;
      assert u.results[n].status == w.status && u.results[n].subject == w.subject;
    }
  }

  /** The table an interrupted or complete run leaves, statement by statement. */
  predicate Steady(t: Table) {
    OneActive(t.results) && forall i :: 0 <= i < |t.results| && t.results[i].active ==> t.results[i].status.Complete?
  }

  /** At every statement of a run, interrupted anywhere, each subject has at most one active
      result and it is complete. So the partial unique index never refuses a run. */
  lemma {:induction false} OneActiveAtEveryStatement(t: Table, runId: string, writes: seq<ArtifactWrite>, k: nat)
    requires Valid(t) && (forall i :: 0 <= i < |writes| ==> Fits(writes[i]))
    requires k <= |Script(|t.results| + 1, runId, writes)|
    requires |t.results| + |writes| <= SQLITE_MAX_INTEGER
    requires |t.findings| + Weight(writes) <= SQLITE_MAX_INTEGER
    ensures Steady(Exec(t, Script(|t.results| + 1, runId, writes)[..k]))
    decreases |writes|
  {
    var first := |t.results| + 1;
    ValidIsSteady(t);
    if writes != [] {
      ScriptCons(first, runId, writes);
      var w, ws := WriteScript(first, runId, writes[0]), Script(first + 1, runId, writes[1..]);
      if k <= |w| {
        assert (w + ws)[..k] == w[..k];
        ExecPartial(t, runId, writes[0], k);
        SteadyWithinWrite(t, runId, writes[0], k);
      } else {
        assert (w + ws)[..k] == w + ws[..k - |w|];
        ExecConcat(t, w, ws[..k - |w|]);
        ExecWrite(t, runId, writes[0]);
        WriteKeepsValid(t, runId, writes[0]);
        OneActiveAtEveryStatement(Exec(t, w), runId, writes[1..], k - |w|);
      }
    }
  }

  predicate Fits(w: ArtifactWrite) {
    forall i :: 0 <= i < |w.findings| ==> FitsColumns(w.findings[i])
  }

  function Weight(writes: seq<ArtifactWrite>): nat {
    if writes == [] then 0 else |writes[0].findings| + Weight(writes[1..])
  }

  /** A subject with a complete result has an active one, from that result on. */
  lemma {:induction false} NewestFrom(t: Table, i: nat) returns (k: nat)
    requires Valid(t) && i < |t.results| && t.results[i].status.Complete?
    ensures i <= k < |t.results| && t.results[k].active && t.results[k].subject == t.results[i].subject
    decreases |t.results| - i
  {
    if NewestComplete(t.results, i) {
      k := i;
    } else {
      var j :| i < j < |t.results| && t.results[j].status.Complete? && t.results[j].subject == t.results[i].subject;
      k := NewestFrom(t, j);
    }
  }

  lemma ValidIsSteady(t: Table)
    requires Valid(t)
    ensures Steady(t)
  {
    forall i, j | 0 <= i < j < |t.results| && t.results[i].active && t.results[j].active
      ensures t.results[i].subject != t.results[j].subject
    {
      assert NewestComplete(t.results, i) && NewestComplete(t.results, j);
    }
  }

  lemma SteadyWithinWrite(t: Table, runId: string, w: ArtifactWrite, k: nat)
    requires Valid(t) && Fits(w) && k <= |WriteScript(|t.results| + 1, runId, w)|
    requires |t.results| < SQLITE_MAX_INTEGER && |t.findings| + |w.findings| <= SQLITE_MAX_INTEGER
    ensures Steady(Partial(t, runId, w, k))
  {
    ValidIsSteady(t);
    if k == |WriteScript(|t.results| + 1, runId, w)| {
      assert w.findings[..|w.findings|] == w.findings;
      WriteKeepsValid(t, runId, w);
      ValidIsSteady(Persisted(t, runId, w));
    }
  }

  /** A run's whole script keeps a table valid and extends it. */
  lemma {:induction false} ScriptKeepsValid(t: Table, runId: string, writes: seq<ArtifactWrite>)
    requires Valid(t) && (forall i :: 0 <= i < |writes| ==> Fits(writes[i]))
    requires |t.results| + |writes| <= SQLITE_MAX_INTEGER && |t.findings| + Weight(writes) <= SQLITE_MAX_INTEGER
    ensures var u := Exec(t, Script(|t.results| + 1, runId, writes));
      Valid(u) && Extends(t, u) && |u.results| == |t.results| + |writes|
    decreases |writes|
  {
    if writes != [] {
      ScriptCons(|t.results| + 1, runId, writes);
      var w, ws := WriteScript(|t.results| + 1, runId, writes[0]), Script(|t.results| + 2, runId, writes[1..]);
      ExecConcat(t, w, ws);
      ExecWrite(t, runId, writes[0]);
      WriteKeepsValid(t, runId, writes[0]);
      ScriptKeepsValid(Exec(t, w), runId, writes[1..]);
      ExtendsTransitive(t, Exec(t, w), Exec(Exec(t, w), ws));
    }
  }

  /** What a run must bring to be stored: an unused run id, one write per subject, values that fit
      their columns, and room. */
  predicate Acceptable(t: Table, runId: string, writes: seq<ArtifactWrite>) {
    && (forall i :: 0 <= i < |writes| ==> Fits(writes[i]))
    && |t.results| + |writes| <= SQLITE_MAX_INTEGER && |t.findings| + Weight(writes) <= SQLITE_MAX_INTEGER
    && (forall i, j :: 0 <= i < j < |writes| ==> writes[i].subject != writes[j].subject)
    && (forall i, j :: 0 <= i < |t.results| && 0 <= j < |writes| && t.results[i].runId == runId ==>
          t.results[i].subject != writes[j].subject)
  }

  /** The rows a run writes point to rows that exist. */
  predicate Cites(refs: References, runId: string, writes: seq<ArtifactWrite>) {
    forall i :: 0 <= i < |writes| ==> WriteCites(refs, runId, writes[i])
  }

  predicate WriteCites(refs: References, runId: string, w: ArtifactWrite) {
    ResultCites(refs, runId, w) && forall i :: 0 <= i < |w.findings| ==> FindingCites(refs, runId, w.findings[i])
  }

  /** An acceptable run trips no constraint at any statement: only a fault can stop it. */
  lemma {:induction false} AcceptableRunIsAdmitted(
      refs: References, t: Table, runId: string, writes: seq<ArtifactWrite>, k: nat)
    requires Valid(t) && Acceptable(t, runId, writes) && Cites(refs, runId, writes)
    requires k < |Script(|t.results| + 1, runId, writes)|
    ensures var script := Script(|t.results| + 1, runId, writes);
      Admits(refs, Exec(t, script[..k]), script[k])
    decreases |writes|
  {
    hide Exec, Apply, Admits, WriteScript, Script, NumberedFindings, ActiveIsNewestComplete, WriteCites;
    SomeWrite(|t.results| + 1, runId, writes);
    ScriptCons(|t.results| + 1, runId, writes);
    var w, ws := WriteScript(|t.results| + 1, runId, writes[0]), Script(|t.results| + 2, runId, writes[1..]);
    if k < |w| {
      assert (w + ws)[..k] == w[..k] && (w + ws)[k] == w[k];
      ExecPartial(t, runId, writes[0], k);
      WriteIsAdmitted(refs, t, runId, writes[0], k);
    } else {
      assert (w + ws)[..k] == w + ws[..k - |w|];
      ExecConcat(t, w, ws[..k - |w|]);
      ExecWrite(t, runId, writes[0]);
      WriteKeepsValid(t, runId, writes[0]);
      AcceptableRunIsAdmitted(refs, Persisted(t, runId, writes[0]), runId, writes[1..], k - |w|);
    }
  }

  lemma SomeWrite(firstId: int, runId: string, writes: seq<ArtifactWrite>)
    ensures Script(firstId, runId, writes) != [] ==> writes != []
  {
  }

  lemma WriteIsAdmitted(refs: References, t: Table, runId: string, w: ArtifactWrite, k: nat)
    requires Valid(t) && Fits(w) && WriteCites(refs, runId, w) && k < |WriteScript(|t.results| + 1, runId, w)|
    requires |t.results| < SQLITE_MAX_INTEGER && |t.findings| + |w.findings| <= SQLITE_MAX_INTEGER
    requires forall i :: 0 <= i < |t.results| && t.results[i].runId == runId ==> t.results[i].subject != w.subject
    ensures Admits(refs, Partial(t, runId, w, k), WriteScript(|t.results| + 1, runId, w)[k])
  {
    if k == |w.findings| + 2 {
      SteadyWithinWrite(t, runId, w, k + 1);
    }
  }

  /** The Case database file: one table per artifact family. A statement may be refused by a
      constraint or stopped by a fault after `budget` statements. */
  class CaseDatabase {
    var tables: seq<Table>
    var refs: References

    ghost predicate AllValid() reads this {
      forall t :: 0 <= t < |tables| ==> Valid(tables[t])
    }

    constructor (families: nat, sources: set<string>, entries: set<(string, int)>)
      ensures |tables| == families && AllValid() && refs == References({}, {}, sources, entries)
    {
      tables := seq(families, i => Table([], []));
      refs := References({}, {}, sources, entries);
    }

    method Execute(t: nat, s: Statement, budget: nat) returns (ok: bool)
      requires t < |tables|
      modifies this`tables
      ensures ok <==> budget > 0 && Admits(refs, old(tables)[t], s)
      ensures tables == if ok then old(tables)[t := Apply(old(tables)[t], s)] else old(tables)
    {
      ok := budget > 0 && Admits(refs, tables[t], s);
      if ok {
        tables := tables[t := Apply(tables[t], s)];
      }
    }

    /** One artifact: insert its result, fan out its findings, and switch the active flag when it is
        complete. `done` statements took effect; the method stops at the first that did not. */
    method PersistArtifact(t: nat, runId: string, w: ArtifactWrite, budget: nat) returns (ok: bool, done: nat)
      requires t < |tables|
      modifies this`tables
      ensures var script := WriteScript(|old(tables)[t].results| + 1, runId, w);
        && done <= |script| && done <= budget
        && tables == old(tables)[t := Exec(old(tables)[t], script[..done])]
        && (ok <==> done == |script|)
        && (!ok ==> done == budget || !Admits(refs, Exec(old(tables)[t], script[..done]), script[done]))
    {
      hide Exec, Apply, Admits;
      ghost var t0 := tables[t];
      var resultId := |tables[t].results| + 1;
      ghost var script := WriteScript(resultId, runId, w);
      done := 0;
      NothingDone(t0, script);
      assert tables == tables[t := t0];
      ok := Execute(t, InsertResult(runId, w), budget);
      if !ok {
        return;
      }
      Advance(t0, script, 0);
      done := 1;
      while done - 1 < |w.findings|
        invariant 1 <= done <= 1 + |w.findings| && done <= budget
        invariant tables == old(tables)[t := Exec(t0, script[..done])]
      {
        assert script[done] == InsertFinding(runId, resultId, w.findings[done - 1]);
        ok := Execute(t, InsertFinding(runId, resultId, w.findings[done - 1]), budget - done);
        if !ok {
          return;
        }
        Advance(t0, script, done);
        done := done + 1;
      }
      if w.status.Complete? {
        ok := Execute(t, Deactivate(w.subject), budget - done);
        if !ok {
          return;
        }
        Advance(t0, script, done);
        done := done + 1;
        ok := Execute(t, Activate(resultId), budget - done);
        if !ok {
          return;
        }
        Advance(t0, script, done);
        done := done + 1;
      }
    }

    /** Every artifact of one family. */
    method PersistArtifacts(t: nat, runId: string, writes: seq<ArtifactWrite>, budget: nat)
      returns (ok: bool, done: nat)
      requires t < |tables|
      modifies this`tables
      ensures var script := Script(|old(tables)[t].results| + 1, runId, writes);
        && done <= |script| && done <= budget
        && tables == old(tables)[t := Exec(old(tables)[t], script[..done])]
        && (ok <==> done == |script|)
        && (ok || done == budget || !Storable(refs, old(tables)[t], runId, writes))
    {
      hide Exec, Apply, Admits, Storable, Flatten, WriteScript, Script;
      ghost var t0 := tables[t];
      ghost var chunks := Chunks(|t0.results| + 1, runId, writes);
      ghost var script := Script(|t0.results| + 1, runId, writes);
      done, ok := 0, true;
      var i := 0;
      NothingDone(t0, script);
      ScriptIsChunks(|t0.results| + 1, runId, writes);
      assert chunks[..0] == [] && tables == tables[t := t0];
      while i < |writes|
        invariant 0 <= i <= |writes|
        invariant done == |Flatten(chunks[..i])| <= |script| && done <= budget
        invariant tables == old(tables)[t := Exec(t0, script[..done])]
      {
        var before := done;
        ScriptPrefix(t0, runId, writes, i);
        var m;
        ok, m := PersistArtifact(t, runId, writes[i], budget - done);
        done := before + m;
        ChunkStep(t0, chunks, i, m);
        if !ok {
          OnlyFaultsStop(refs, t0, runId, writes, done);
          return;
        }
        i := i + 1;
      }
      assert chunks[..i] == chunks;
    }

    /** The run's own row and its Sources: a fresh run id, and Sources that exist. */
    method InsertRun(runId: string, sourceIds: set<string>, budget: nat) returns (ok: bool)
      modifies this`refs
      ensures ok <==> 1 + |sourceIds| <= budget && Registers(old(refs), runId, sourceIds)
      ensures ok ==> refs == Registered(old(refs), runId, sourceIds)
    {
      ok := 1 + |sourceIds| <= budget && Registers(refs, runId, sourceIds);
      if ok {
        refs := Registered(refs, runId, sourceIds);
      }
    }

    /** BEGIN IMMEDIATE, the run's row, every family in turn, the run's end, COMMIT; any failure is a
        ROLLBACK to the start. */
    method StoreAnalysisWrites(
        runId: string, sourceIds: set<string>, families: seq<seq<ArtifactWrite>>, budget: nat)
      returns (committed: bool)
      requires |families| == |tables|
      modifies this
      ensures |tables| == |families|
      ensures committed ==> refs == Registered(old(refs), runId, sourceIds)
      ensures committed ==> forall t :: 0 <= t < |tables| ==> tables[t] == Stored(old(tables)[t], runId, families[t])
      ensures committed ==> forall t :: 0 <= t < |tables| && Numbered(old(tables)[t]) ==>
        HoldsRun(old(tables)[t], tables[t], runId, families[t])
      ensures !committed ==> tables == old(tables) && refs == old(refs)
      ensures !committed ==>
        || !Registers(old(refs), runId, sourceIds)
        || budget < RunLength(old(tables), runId, families, |families|) + |sourceIds| + 3
        || exists t | 0 <= t < |families| :: !Storable(Registered(old(refs), runId, sourceIds), old(tables)[t], runId, families[t])
    {
      hide Exec, Storable, Script, Stored, Registers, Registered, RunLength, Numbered, HoldsRun;
      var snapshot, refsBefore := tables, refs;
      var begun := InsertRun(runId, sourceIds, budget);
      if !begun {
        refs := refsBefore;
        return false;
      }
      var left: nat := budget - 1 - |sourceIds|;
      var t := 0;
      NoLength(snapshot, runId, families);
      while t < |families|
        invariant 0 <= t <= |families| == |tables| == |snapshot|
        invariant forall i :: 0 <= i < t ==> tables[i] == Stored(snapshot[i], runId, families[i])
        invariant forall i :: t <= i < |families| ==> tables[i] == snapshot[i]
        invariant budget - 1 - |sourceIds| - left == RunLength(snapshot, runId, families, t)
        invariant refs == Registered(refsBefore, runId, sourceIds)
      {
        var ok, done := PersistArtifacts(t, runId, families[t], left);
        if !ok {
          LengthNext(snapshot, runId, families, t);
          RunLengthGrows(snapshot, runId, families, t + 1);
          tables, refs := snapshot, refsBefore;
          return false;
        }
        StoredIsWholeScript(snapshot[t], runId, families[t], done);
        LengthNext(snapshot, runId, families, t);
        left := left - done;
        t := t + 1;
      }
      if left < 2 {
        tables, refs := snapshot, refsBefore;
        return false;
      }
      forall i | 0 <= i < |tables| && Numbered(snapshot[i]) ensures HoldsRun(snapshot[i], tables[i], runId, families[i]) {
        RunIsHeld(snapshot[i], runId, families[i]);
      }
      committed := true;
    }
  }

  predicate Registers(refs: References, runId: string, sourceIds: set<string>) {
    runId !in refs.runs && sourceIds <= refs.sources
  }

  function Registered(refs: References, runId: string, sourceIds: set<string>): References {
    refs.(runs := refs.runs + {runId}, runSources := refs.runSources + set s | s in sourceIds :: (runId, s))
  }

  /** Every Source of a run is that of a run that exists, and exists. */
  predicate RunsAreSound(refs: References) {
    forall p :: p in refs.runSources ==> p.0 in refs.runs && p.1 in refs.sources
  }

  /** A run is registered exactly when its id is new and every row it adds cites rows that exist. */
  lemma RegistersExactly(refs: References, runId: string, sourceIds: set<string>)
    requires RunsAreSound(refs)
    ensures Registers(refs, runId, sourceIds)
      <==> runId !in refs.runs && RunsAreSound(Registered(refs, runId, sourceIds))
  {
    var after := Registered(refs, runId, sourceIds);
    if RunsAreSound(after) {
      forall s | s in sourceIds ensures s in refs.sources {
        assert (runId, s) in after.runSources;
      }
    }
  }

  function Stored(t: Table, runId: string, writes: seq<ArtifactWrite>): Table {
    Exec(t, Script(|t.results| + 1, runId, writes))
  }

  predicate Storable(refs: References, t: Table, runId: string, writes: seq<ArtifactWrite>) {
    Valid(t) && Acceptable(t, runId, writes) && Cites(refs, runId, writes)
  }

  lemma StoredIsWholeScript(t: Table, runId: string, writes: seq<ArtifactWrite>, done: nat)
    requires done == |Script(|t.results| + 1, runId, writes)|
    ensures Exec(t, Script(|t.results| + 1, runId, writes)[..done]) == Stored(t, runId, writes)
  {
    var script := Script(|t.results| + 1, runId, writes);
    assert script[..done] == script;
  }

  lemma OnlyFaultsStop(refs: References, t: Table, runId: string, writes: seq<ArtifactWrite>, done: nat)
    requires done < |Script(|t.results| + 1, runId, writes)|
    ensures var script := Script(|t.results| + 1, runId, writes);
      Storable(refs, t, runId, writes) ==> Admits(refs, Exec(t, script[..done]), script[done])
  {
    if Storable(refs, t, runId, writes) {
      AcceptableRunIsAdmitted(refs, t, runId, writes, done);
    }
  }

  /** A storable run leaves a sound table, at every statement of it. */
  lemma {:induction false} RunStaysSound(refs: References, t: Table, runId: string, writes: seq<ArtifactWrite>, k: nat)
    requires IsSound(refs, t) && Storable(refs, t, runId, writes) && k <= |Script(|t.results| + 1, runId, writes)|
    ensures IsSound(refs, Exec(t, Script(|t.results| + 1, runId, writes)[..k]))
  {
    hide Exec, Apply, Admits, IsSound, Script, Valid, Acceptable, Cites, HasRoom;
    var script := Script(|t.results| + 1, runId, writes);
    if k == 0 {
      NothingDone(t, script);
    } else {
      RunStaysSound(refs, t, runId, writes, k - 1);
      AcceptableRunIsAdmitted(refs, t, runId, writes, k - 1);
      AdmitsExactly(refs, Exec(t, script[..k - 1]), script[k - 1]);
      Advance(t, script, k - 1);
    }
  }

  /** The number of statements of the first `t` families of a run. */
  function RunLength(tables: seq<Table>, runId: string, families: seq<seq<ArtifactWrite>>, t: nat): nat
    requires t <= |tables| == |families|
  {
    if t == 0 then 0
    else RunLength(tables, runId, families, t - 1) + |Script(|tables[t - 1].results| + 1, runId, families[t - 1])|
  }

  lemma NoLength(tables: seq<Table>, runId: string, families: seq<seq<ArtifactWrite>>)
    requires |tables| == |families|
    ensures RunLength(tables, runId, families, 0) == 0
  {
  }

  lemma LengthNext(tables: seq<Table>, runId: string, families: seq<seq<ArtifactWrite>>, t: nat)
    requires t < |tables| == |families|
    ensures RunLength(tables, runId, families, t + 1)
      == RunLength(tables, runId, families, t) + |Script(|tables[t].results| + 1, runId, families[t])|
  {
  }

  lemma {:induction false} RunLengthGrows(tables: seq<Table>, runId: string, families: seq<seq<ArtifactWrite>>, t: nat)
    requires t <= |tables| == |families|
    ensures RunLength(tables, runId, families, t) <= RunLength(tables, runId, families, |families|)
    decreases |families| - t
  {
    hide Script;
    if t < |families| {
      RunLengthGrows(tables, runId, families, t + 1);
    }
  }

  lemma {:induction false} ResultCount(t: Table, runId: string, writes: seq<ArtifactWrite>)
    ensures |Exec(t, Script(|t.results| + 1, runId, writes)).results| == |t.results| + |writes|
    decreases |writes|
  {
    if writes != [] {
      var w := WriteScript(|t.results| + 1, runId, writes[0]);
      ScriptCons(|t.results| + 1, runId, writes);
      ExecConcat(t, w, Script(|t.results| + 2, runId, writes[1..]));
      ExecWrite(t, runId, writes[0]);
      ResultCount(Exec(t, w), runId, writes[1..]);
    }
  }

  lemma ScriptPrefix(t: Table, runId: string, writes: seq<ArtifactWrite>, i: nat)
    requires i <= |writes|
    ensures var chunks := Chunks(|t.results| + 1, runId, writes);
      var head := Flatten(chunks[..i]);
      && |head| <= |Flatten(chunks)| && Flatten(chunks)[..|head|] == head
      && |Exec(t, head).results| == |t.results| + i
  {
    var chunks := Chunks(|t.results| + 1, runId, writes);
    ResultCount(t, runId, writes[..i]);
    ChunksPrefix(|t.results| + 1, runId, writes, i);
    if i < |writes| {
      FlattenAt(chunks, i);
    } else {
      assert chunks[..i] == chunks;
    }
  }

  /** After the first `i` chunks, `m` statements of the next one run on. */
  lemma ChunkStep(t: Table, chunks: seq<seq<Statement>>, i: nat, m: nat)
    requires i < |chunks| && m <= |chunks[i]|
    ensures var script, before := Flatten(chunks), |Flatten(chunks[..i])|;
      && before + |chunks[i]| <= |script|
      && Exec(t, script[..before + m]) == Exec(Exec(t, script[..before]), chunks[i][..m])
      && (m < |chunks[i]| ==> script[before + m] == chunks[i][m])
      && |Flatten(chunks[..i + 1])| == before + |chunks[i]|
  {
    FlattenAt(chunks, i);
    ExecWithin(t, Flatten(chunks[..i]), chunks[i], Flatten(chunks[i + 1..]), m);
  }

  lemma ExecWithin(t: Table, head: seq<Statement>, mid: seq<Statement>, tail: seq<Statement>, m: nat)
    requires m <= |mid|
    ensures var script := head + (mid + tail);
      && Exec(t, script[..|head| + m]) == Exec(Exec(t, script[..|head|]), mid[..m])
      && (m < |mid| ==> script[|head| + m] == mid[m])
  {
    var script := head + (mid + tail);
    assert script[..|head| + m] == head + mid[..m] && script[..|head|] == head;
    ExecConcat(t, head, mid[..m]);
  }

  /** Commit or rollback: either way a table stays valid and only grows. */
  lemma RunIsSafe(before: Table, after: Table, runId: string, writes: seq<ArtifactWrite>)
    requires Valid(before) && Acceptable(before, runId, writes)
    requires after == before || after == Stored(before, runId, writes)
    ensures Valid(after) && Extends(before, after)
  {
    ScriptKeepsValid(before, runId, writes);
  }

  // What a committed run leaves, row by row.

  /** The runs and records of the findings that cite a result, in order. */
  function RecordsOf(findings: seq<FindingRow>, resultId: int): seq<(string, Record)> {
    if findings == [] then []
    else
      var n := |findings| - 1;
      RecordsOf(findings[..n], resultId) + if findings[n].resultId == resultId then [(findings[n].runId, findings[n].record)] else []
  }

  function OfRun(runId: string, records: seq<Record>): seq<(string, Record)> {
    seq(|records|, i requires 0 <= i < |records| => (runId, records[i]))
  }

  /** Result `id` is that of a write, and the findings that cite it are the write's. */
  predicate HoldsWrite(t: Table, id: int, runId: string, w: ArtifactWrite) {
    && 1 <= id <= |t.results|
    && (var r := t.results[id - 1];
        && r.id == id && r.runId == runId && r.subject == w.subject && r.ordinal == w.ordinal && r.status == w.status
        && r.databasePath == w.databasePath && r.reason == w.reason)
    && RecordsOf(t.findings, id) == OfRun(runId, w.findings)
  }

  /** `later` holds the rows of `t` as they were, but for the active flag, and the findings of each. */
  predicate KeepsRows(t: Table, later: Table) {
    && |t.results| <= |later.results|
    && (forall i :: 0 <= i < |t.results| ==> later.results[i].(active := false) == t.results[i].(active := false))
    && (forall id :: 1 <= id <= |t.results| ==> RecordsOf(later.findings, id) == RecordsOf(t.findings, id))
  }

  /** Everything a run brought is stored under the next ids, and nothing else is. */
  predicate HoldsRun(t: Table, later: Table, runId: string, writes: seq<ArtifactWrite>) {
    && KeepsRows(t, later)
    && |later.results| == |t.results| + |writes| && |later.findings| == |t.findings| + Weight(writes)
    && forall i :: 0 <= i < |writes| ==> HoldsWrite(later, |t.results| + i + 1, runId, writes[i])
  }

  lemma {:induction false} RecordsConcat(a: seq<FindingRow>, b: seq<FindingRow>, resultId: int)
    ensures RecordsOf(a + b, resultId) == RecordsOf(a, resultId) + RecordsOf(b, resultId)
  {
    if b == [] {
      assert a + b == a;
    } else {
      var n := |b| - 1;
      assert (a + b)[..|a| + n] == a + b[..n];
      RecordsConcat(a, b[..n], resultId);
    }
  }

  lemma {:induction false} NoRecords(findings: seq<FindingRow>, resultId: int)
    requires forall i :: 0 <= i < |findings| ==> findings[i].resultId != resultId
    ensures RecordsOf(findings, resultId) == []
  {
    if findings != [] {
      NoRecords(findings[..|findings| - 1], resultId);
    }
  }

  lemma {:induction false} NewRecords(count: int, runId: string, resultId: int, records: seq<Record>)
    ensures RecordsOf(NewFindings(count, runId, resultId, records), resultId) == OfRun(runId, records)
  {
    if records != [] {
      var n := |records| - 1;
      assert NewFindings(count, runId, resultId, records)[..n] == NewFindings(count, runId, resultId, records[..n]);
      NewRecords(count, runId, resultId, records[..n]);
    }
  }

  /** Results and findings are numbered, and findings cite results. */
  predicate Numbered(t: Table) {
    && (forall i :: 0 <= i < |t.results| ==> t.results[i].id == i + 1)
    && (forall i :: 0 <= i < |t.findings| ==> t.findings[i].id == i + 1 && 1 <= t.findings[i].resultId <= |t.results|)
  }

  lemma WriteIsHeld(t: Table, runId: string, w: ArtifactWrite)
    requires Numbered(t)
    ensures var u := Persisted(t, runId, w);
      && Numbered(u) && KeepsRows(t, u) && HoldsWrite(u, |t.results| + 1, runId, w)
      && |u.results| == |t.results| + 1 && |u.findings| == |t.findings| + |w.findings|
  {
    hide RecordsOf;
    var added := NewFindings(|t.findings|, runId, |t.results| + 1, w.findings);
    NewRecords(|t.findings|, runId, |t.results| + 1, w.findings);
    NoRecords(t.findings, |t.results| + 1);
    RecordsConcat(t.findings, added, |t.results| + 1);
    forall id | 1 <= id <= |t.results| ensures RecordsOf(t.findings + added, id) == RecordsOf(t.findings, id) {
      RecordsConcat(t.findings, added, id);
      NoRecords(added, id);
    }
  }

  lemma HeldStays(t: Table, later: Table, id: int, runId: string, w: ArtifactWrite)
    requires HoldsWrite(t, id, runId, w) && KeepsRows(t, later)
    ensures HoldsWrite(later, id, runId, w)
  {
    hide RecordsOf;
    assert later.results[id - 1].(active := false) == t.results[id - 1].(active := false);
  }

  lemma KeepsTransitive(a: Table, b: Table, c: Table)
    requires KeepsRows(a, b) && KeepsRows(b, c)
    ensures KeepsRows(a, c)
  {
    hide RecordsOf;
    forall i | 0 <= i < |a.results| ensures c.results[i].(active := false) == a.results[i].(active := false) {
      assert b.results[i].(active := false) == a.results[i].(active := false);
    }
  }

  /** After a committed run its rows hold what its writes brought, in order and once, and the rows before
      it hold what they held. */
  lemma {:induction false} RunIsHeld(t: Table, runId: string, writes: seq<ArtifactWrite>)
    requires Numbered(t)
    ensures HoldsRun(t, Stored(t, runId, writes), runId, writes) && Numbered(Stored(t, runId, writes))
    decreases |writes|
  {
    hide HoldsWrite, KeepsRows, Numbered, Persisted, WriteScript, Exec, Script;
    StoredFirst(t, runId, writes);
    if writes == [] {
      KeepsItself(t);
    } else {
      var mid := Persisted(t, runId, writes[0]);
      var u := Stored(t, runId, writes);
      WriteIsHeld(t, runId, writes[0]);
      RunIsHeld(mid, runId, writes[1..]);
      KeepsTransitive(t, mid, u);
      forall i | 0 <= i < |writes| ensures HoldsWrite(u, |t.results| + i + 1, runId, writes[i]) {
        if i == 0 {
          HeldStays(mid, u, |t.results| + 1, runId, writes[0]);
        } else {
          assert HoldsWrite(u, |mid.results| + (i - 1) + 1, runId, writes[1..][i - 1]);
        }
      }
    }
  }

  lemma KeepsItself(t: Table)
    ensures KeepsRows(t, t)
  {
  }

  lemma StoredFirst(t: Table, runId: string, writes: seq<ArtifactWrite>)
    ensures writes == [] ==> Stored(t, runId, writes) == t
    ensures writes != [] ==> Stored(t, runId, writes) == Stored(Persisted(t, runId, writes[0]), runId, writes[1..])
  {
    if writes != [] {
      var w, ws := WriteScript(|t.results| + 1, runId, writes[0]), Script(|t.results| + 2, runId, writes[1..]);
      ScriptCons(|t.results| + 1, runId, writes);
      ExecConcat(t, w, ws);
      ExecWrite(t, runId, writes[0]);
    }
  }

  /** One Analysis Run as it ended: committed, or rolled back to where it began. */
  datatype Run = Run(runId: string, writes: seq<ArtifactWrite>, committed: bool)

  function AfterRun(t: Table, run: Run): Table {
    if run.committed then Stored(t, run.runId, run.writes) else t
  }

  function AfterRuns(t: Table, runs: seq<Run>): Table {
    if runs == [] then t else AfterRun(AfterRuns(t, runs[..|runs| - 1]), runs[|runs| - 1])
  }

  /** Each run that committed brought what the database can store. */
  predicate History(t: Table, runs: seq<Run>) {
    forall i :: 0 <= i < |runs| && runs[i].committed ==> Acceptable(AfterRuns(t, runs[..i]), runs[i].runId, runs[i].writes)
  }

  /** After any sequence of runs the table is valid: each subject's active result is its newest
      complete one. It has only grown since any earlier point, and no result deactivated by then is
      active again. */
  lemma {:induction false} HistoryIsSafe(t: Table, runs: seq<Run>, k: nat)
    requires Valid(t) && History(t, runs) && k <= |runs|
    ensures Valid(AfterRuns(t, runs)) && Extends(AfterRuns(t, runs[..k]), AfterRuns(t, runs))
    decreases |runs|
  {
    hide Valid, Acceptable, Extends, Stored;
    if k == |runs| {
      assert runs[..k] == runs;
      ExtendsItself(AfterRuns(t, runs));
      if runs != [] {
        HistoryPrefix(t, runs);
        HistoryIsSafe(t, runs[..k - 1], k - 1);
        LastRun(t, runs);
      }
    } else {
      var before := runs[..|runs| - 1];
      HistoryPrefix(t, runs);
      HistoryIsSafe(t, before, k);
      LastRun(t, runs);
      assert before[..k] == runs[..k];
      ExtendsTransitive(AfterRuns(t, runs[..k]), AfterRuns(t, before), AfterRuns(t, runs));
    }
  }

  lemma ExtendsItself(t: Table)
    ensures Extends(t, t)
  {
  }

  lemma HistoryPrefix(t: Table, runs: seq<Run>)
    requires History(t, runs) && runs != []
    ensures History(t, runs[..|runs| - 1])
  {
    hide Acceptable, AfterRuns;
    var before := runs[..|runs| - 1];
    assert forall i :: 0 <= i < |before| ==> before[..i] == runs[..i] && before[i] == runs[i];
  }

  lemma LastRun(t: Table, runs: seq<Run>)
    requires runs != [] && History(t, runs) && Valid(AfterRuns(t, runs[..|runs| - 1]))
    ensures Valid(AfterRuns(t, runs)) && Extends(AfterRuns(t, runs[..|runs| - 1]), AfterRuns(t, runs))
  {
    hide Valid, Acceptable, Extends;
    var last, before := runs[|runs| - 1], AfterRuns(t, runs[..|runs| - 1]);
    ExtendsItself(before);
    if last.committed {
      RunIsSafe(before, AfterRuns(t, runs), last.runId, last.writes);
    }
  }

  /** The results and findings that the committed runs brought. */
  function ResultsBrought(runs: seq<Run>): nat {
    if runs == [] then 0
    else
      var n := |runs| - 1;
      ResultsBrought(runs[..n]) + if runs[n].committed then |runs[n].writes| else 0
  }

  function FindingsBrought(runs: seq<Run>): nat {
    if runs == [] then 0
    else
      var n := |runs| - 1;
      FindingsBrought(runs[..n]) + if runs[n].committed then Weight(runs[n].writes) else 0
  }

  lemma {:induction false} HistoryKeepsRows(t: Table, runs: seq<Run>, k: nat)
    requires Numbered(t) && k <= |runs|
    ensures Numbered(AfterRuns(t, runs)) && KeepsRows(AfterRuns(t, runs[..k]), AfterRuns(t, runs))
    ensures |AfterRuns(t, runs).results| == |t.results| + ResultsBrought(runs)
    ensures |AfterRuns(t, runs).findings| == |t.findings| + FindingsBrought(runs)
    decreases |runs|
  {
    hide Numbered, KeepsRows, HoldsWrite, Stored;
    if runs != [] {
      var n := |runs| - 1;
      HistoryKeepsRows(t, runs[..n], if k <= n then k else n);
      var before, last := AfterRuns(t, runs[..n]), runs[n];
      KeepsItself(before);
      RunIsHeld(before, last.runId, last.writes);
      if k <= n {
        assert runs[..n][..k] == runs[..k];
        KeepsTransitive(AfterRuns(t, runs[..k]), before, AfterRuns(t, runs));
      }
    }
    if k == |runs| {
      assert runs[..k] == runs;
      KeepsItself(AfterRuns(t, runs));
    }
  }

  /** Over any history nothing is lost and nothing is stored twice: what each committed run brought stands
      under the ids that followed when it ran, and the tables hold no row beyond what the runs brought. */
  lemma HistoryIsHeld(t: Table, runs: seq<Run>, j: nat)
    requires Numbered(t) && j < |runs| && runs[j].committed
    ensures var first := |AfterRuns(t, runs[..j]).results|;
      forall i :: 0 <= i < |runs[j].writes| ==>
        HoldsWrite(AfterRuns(t, runs), first + i + 1, runs[j].runId, runs[j].writes[i])
    ensures KeepsRows(t, AfterRuns(t, runs))
    ensures |AfterRuns(t, runs).results| == |t.results| + ResultsBrought(runs)
    ensures |AfterRuns(t, runs).findings| == |t.findings| + FindingsBrought(runs)
  {
    hide Numbered, KeepsRows, HoldsWrite, Stored, ResultsBrought, FindingsBrought;
    var before, run := AfterRuns(t, runs[..j]), runs[j];
    HistoryKeepsRows(t, runs, 0);
    HistoryKeepsRows(t, runs[..j], 0);
    HistoryKeepsRows(t, runs, j + 1);
    assert runs[..j + 1][..j] == runs[..j] && runs[..0] == [];
    RunIsHeld(before, run.runId, run.writes);
    forall i | 0 <= i < |run.writes| ensures HoldsWrite(AfterRuns(t, runs), |before.results| + i + 1, run.runId, run.writes[i]) {
      HeldStays(AfterRuns(t, runs[..j + 1]), AfterRuns(t, runs), |before.results| + i + 1, run.runId, run.writes[i]);
    }
  }
}
