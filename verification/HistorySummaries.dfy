/** History summaries: visits grouped by local hour and by URL, with what every grouping conserves. */
module HistorySummaries {
  import opened Outcomes
  import opened Decimal
  import opened ForensicTime
  import opened SourceRows

  datatype CommitState = Committed | WalResident | JournalResident

  datatype Field = Value(text: string) | Absent | Unavailable

  /** The rollback journal a row was recovered from. */
  datatype Recovery = Recovery(sourceId: string, ordinal: nat, entryId: string, path: string)

  datatype Provenance = Provenance(primary: Row, supporting: seq<Row>, recoveredVia: Option<Recovery>)

  datatype Visit = Visit(
    profile: string, state: CommitState, provenance: Provenance,
    visitId: string, urlId: Option<string>, url: Field, title: Field, time: Option<string>, duration: Option<int>)

  /** The local date and hour of a UTC text in the declared time zone. */
  type LocalTime = string -> (string, string)

  datatype Durations = Durations(known: nat, unknown: nat, total: int, totalField: Option<int>, average: Option<int>)

  datatype Summary =
    | Activity(profile: string, state: CommitState, provenance: Provenance, count: nat,
               date: string, hour: string, durations: Durations)
    | MostVisited(profile: string, state: CommitState, provenance: Provenance, count: nat, url: Field, title: Field)
    | DurationSummary(profile: string, state: CommitState, provenance: Provenance, count: nat, url: Field, title: Field,
                      durations: Durations)

  /** One entry of a map, the map being its entries in the order their keys were first set. */
  datatype Group = Group(key: string, visits: seq<Visit>)

  function StateText(state: CommitState): (s: string)
    ensures NulFree(s)
  {
    match state
    case Committed => "committed"
    case WalResident => "wal_resident"
    case JournalResident => "journal_resident"
  }

  function ActivityKey(local: LocalTime, v: Visit): string
    requires v.time.Some?
  {
    v.profile + [NUL] + (StateText(v.state) + [NUL] + (local(v.time.value).0 + [NUL] + local(v.time.value).1))
  }

  /** What names a visit's URL: its row id, else the URL itself, else the visit. */
  function UrlName(v: Visit): string {
    if v.urlId.Some? then v.urlId.value else if v.url.Value? then v.url.text else v.visitId
  }

  function UrlKey(v: Visit): string {
    v.profile + [NUL] + (StateText(v.state) + [NUL] + UrlName(v))
  }

  /** `group.push(visit)` under a key. */
  function Push(groups: seq<Group>, key: string, v: Visit): seq<Group> {
    if groups == [] then [Group(key, [v])]
    else if groups[0].key == key then [Group(key, groups[0].visits + [v])] + groups[1..]
    else [groups[0]] + Push(groups[1..], key, v)
  }

  function ActivityGroups(local: LocalTime, visits: seq<Visit>): seq<Group> {
    if visits == [] then []
    else
      var k := |visits| - 1;
      var before := ActivityGroups(local, visits[..k]);
      if visits[k].time.None? then before else Push(before, ActivityKey(local, visits[k]), visits[k])
  }

  function UrlGroups(visits: seq<Visit>): seq<Group> {
    if visits == [] then []
    else
      var k := |visits| - 1;
      Push(UrlGroups(visits[..k]), UrlKey(visits[k]), visits[k])
  }

  function KnownCount(visits: seq<Visit>): nat {
    if visits == [] then 0
    else KnownCount(visits[..|visits| - 1]) + if visits[|visits| - 1].duration.Some? then 1 else 0
  }

  function TotalDuration(visits: seq<Visit>): int {
    if visits == [] then 0
    else
      var last := visits[|visits| - 1].duration;
      TotalDuration(visits[..|visits| - 1]) + if last.Some? then last.value else 0
  }

  lemma {:induction false} KnownAtMostAll(visits: seq<Visit>)
    ensures KnownCount(visits) <= |visits|
  {
    if visits != [] {
      KnownAtMostAll(visits[..|visits| - 1]);
    }
  }

  function DurationsOf(visits: seq<Visit>): Durations {
    KnownAtMostAll(visits);
    var known, total := KnownCount(visits), TotalDuration(visits);
    Durations(known, |visits| - known, total, if known == 0 then None else Some(total),
              if known == 0 then None else Some(TruncatedQuotient(total, known)))
  }

  function SourceRowKey(row: Row): string {
    row.entryId + [NUL] + (row.database + [NUL] + (row.table + [NUL] + row.rowId))
  }

  /** `map.set`: a new row at the end, or in the place of the one with its key. */
  function SetRow(rows: seq<Row>, row: Row): seq<Row> {
    if rows == [] then [row]
    else if SourceRowKey(rows[0]) == SourceRowKey(row) then [row] + rows[1..]
    else [rows[0]] + SetRow(rows[1..], row)
  }

  function RowsOf(v: Visit): seq<Row> { [v.provenance.primary] + v.provenance.supporting }

  function AddRows(set0: seq<Row>, rows: seq<Row>, firstKey: string): seq<Row> {
    if rows == [] then set0
    else
      var k := |rows| - 1;
      var before := AddRows(set0, rows[..k], firstKey);
      if SourceRowKey(rows[k]) == firstKey then before else SetRow(before, rows[k])
  }

  function SupportingRows(visits: seq<Visit>, firstKey: string): seq<Row> {
    if visits == [] then []
    else
      var k := |visits| - 1;
      AddRows(SupportingRows(visits[..k], firstKey), RowsOf(visits[k]), firstKey)
  }

  function SummaryProvenanceOf(visits: seq<Visit>): Provenance
    requires visits != []
  {
    var first := visits[0].provenance;
    var rows := SupportingRows(visits, SourceRowKey(first.primary));
    if rows == [] then first else first.(supporting := rows)
  }

  function ActivitySummary(local: LocalTime, g: Group): Summary
    requires g.visits != [] && g.visits[0].time.Some?
  {
    var first := g.visits[0];
    var time := local(first.time.value);
    Activity(first.profile, first.state, SummaryProvenanceOf(g.visits), |g.visits|, time.0, time.1, DurationsOf(g.visits))
  }

  function UrlSummaries(g: Group): seq<Summary>
    requires g.visits != []
  {
    var first := g.visits[0];
    [MostVisited(first.profile, first.state, SummaryProvenanceOf(g.visits), |g.visits|, first.url, first.title),
     DurationSummary(first.profile, first.state, SummaryProvenanceOf(g.visits), |g.visits|, first.url, first.title,
                     DurationsOf(g.visits))]
  }

  predicate NoneEmpty(groups: seq<Group>) { forall g :: g in groups ==> g.visits != [] }

  predicate AllTimed(groups: seq<Group>) { forall g, v :: g in groups && v in g.visits ==> v.time.Some? }

  function ActivitySummaries(local: LocalTime, groups: seq<Group>): (ss: seq<Summary>)
    requires NoneEmpty(groups) && AllTimed(groups)
    ensures |ss| == |groups|
  {
    if groups == [] then []
    else
      var k := |groups| - 1;
      assert groups[k].visits[0] in groups[k].visits;
      ActivitySummaries(local, groups[..k]) + [ActivitySummary(local, groups[k])]
  }

  function AllUrlSummaries(groups: seq<Group>): seq<Summary>
    requires NoneEmpty(groups)
  {
    if groups == [] then []
    else
      var k := |groups| - 1;
      AllUrlSummaries(groups[..k]) + UrlSummaries(groups[k])
  }

  function Summaries(local: LocalTime, visits: seq<Visit>): seq<Summary> {
    ActivityGroupsHold(local, visits);
    UrlGroupsHold(visits);
    ActivitySummaries(local, ActivityGroups(local, visits)) + AllUrlSummaries(UrlGroups(visits))
  }

  predicate NamesEntry(entryId: string, sourceId: string, ordinal: nat) {
    entryId == sourceId + ":" + NatText(ordinal)
  }

  predicate Resolvable(row: Row) {
    && row.sourceId != "" && row.path != "" && row.database != "" && row.table != "" && row.rowId != ""
    && NamesEntry(row.entryId, row.sourceId, row.ordinal)
  }

  /** A recovery cites another entry of the row's own Source. */
  predicate RecoveryResolvable(via: Recovery, row: Row) {
    && via.sourceId == row.sourceId && via.ordinal != row.ordinal && via.path != ""
    && NamesEntry(via.entryId, via.sourceId, via.ordinal)
  }

  /** What `createFinding` checks of a Provenance: every row is resolvable, and a recovery is cited by the
      journal's rows and by no others. */
  predicate Citable(p: Provenance, state: CommitState) {
    && Resolvable(p.primary) && (forall r :: r in p.supporting ==> Resolvable(r))
    && (p.recoveredVia.Some? ==> RecoveryResolvable(p.recoveredVia.value, p.primary))
    && (p.recoveredVia.Some? <==> state.JournalResident?)
  }

  /** The Source and the ordinal can be read off a Manifest entry's id. */
  lemma EntryIdSays(entryId: string, sourceId: string, ordinal: nat)
    requires NamesEntry(entryId, sourceId, ordinal)
    ensures var n := |sourceId|;
      && |entryId| > n + 1 && entryId[..n] == sourceId && entryId[n] == ':'
      && AllDigits(entryId[n + 1..]) && ParseNat(entryId[n + 1..]) == ordinal
  {
    NatRoundTrip(ordinal);
    assert entryId[|sourceId| + 1..] == NatText(ordinal);
  }

  /** A row that passes the checks names its Source, file, database, table and row; a recovery that passes them is
      of another entry of that Source, and only a journal's rows have one. */
  lemma CitableSays(p: Provenance, state: CommitState)
    requires Citable(p, state)
    ensures forall r :: r in [p.primary] + p.supporting ==>
      |r.sourceId| > 0 && |r.path| > 0 && |r.database| > 0 && |r.table| > 0 && |r.rowId| > 0
      && NamesEntry(r.entryId, r.sourceId, r.ordinal)
    ensures state == JournalResident <==> p.recoveredVia != None
    ensures p.recoveredVia.Some? ==>
      var via := p.recoveredVia.value;
      && NamesEntry(via.entryId, p.primary.sourceId, via.ordinal) && |via.path| > 0 && via.ordinal != p.primary.ordinal
      && via.sourceId == p.primary.sourceId
  {
    hide NamesEntry;
  }

  // Grouping is a partition.

  lemma {:induction false} PushHolds(groups: seq<Group>, key: string, v: Visit)
    requires NoneEmpty(groups)
    ensures NoneEmpty(Push(groups, key, v))
    ensures AllTimed(groups) && v.time.Some? ==> AllTimed(Push(groups, key, v))
  {
    if groups != [] && groups[0].key != key {
      PushHolds(groups[1..], key, v);
      assert groups[0] in groups;
    } else if groups != [] {
      assert groups[0] in groups;
      assert forall g :: g in groups[1..] ==> g in groups;
    }
  }

  lemma {:induction false} ActivityGroupsHold(local: LocalTime, visits: seq<Visit>)
    ensures NoneEmpty(ActivityGroups(local, visits)) && AllTimed(ActivityGroups(local, visits))
  {
    hide Push, ActivityKey;
    if visits != [] {
      var k := |visits| - 1;
      ActivityGroupsHold(local, visits[..k]);
      if visits[k].time.Some? {
        PushHolds(ActivityGroups(local, visits[..k]), ActivityKey(local, visits[k]), visits[k]);
      }
    }
  }

  lemma {:induction false} UrlGroupsHold(visits: seq<Visit>)
    ensures NoneEmpty(UrlGroups(visits))
  {
    hide Push, UrlKey;
    if visits != [] {
      var k := |visits| - 1;
      UrlGroupsHold(visits[..k]);
      PushHolds(UrlGroups(visits[..k]), UrlKey(visits[k]), visits[k]);
    }
  }

  /** The visits of a group in their order. */
  function WithKey(keyOf: Visit -> string, visits: seq<Visit>, key: string): seq<Visit> {
    if visits == [] then []
    else
      var k := |visits| - 1;
      WithKey(keyOf, visits[..k], key) + if keyOf(visits[k]) == key then [visits[k]] else []
  }

  predicate DistinctGroups(groups: seq<Group>) {
    forall i, j :: 0 <= i < j < |groups| ==> groups[i].key != groups[j].key
  }

  function VisitsUnder(groups: seq<Group>, key: string): seq<Visit> {
    if groups == [] then [] else if groups[0].key == key then groups[0].visits else VisitsUnder(groups[1..], key)
  }

  lemma UnderHead(g: Group, rest: seq<Group>)
    ensures forall k :: VisitsUnder([g] + rest, k) == if g.key == k then g.visits else VisitsUnder(rest, k)
    ensures KeysOf([g] + rest) == {g.key} + KeysOf(rest)
    ensures DistinctGroups(rest) && g.key !in KeysOf(rest) ==> DistinctGroups([g] + rest)
  {
    assert ([g] + rest)[1..] == rest;
    assert forall h :: h in [g] + rest <==> h == g || h in rest;
    assert forall i :: 0 <= i < |rest| ==> rest[i].key in KeysOf(rest);
  }

  lemma DistinctTail(groups: seq<Group>)
    requires DistinctGroups(groups) && groups != []
    ensures DistinctGroups(groups[1..]) && groups[0].key !in KeysOf(groups[1..])
  {
  }

  function KeysOf(groups: seq<Group>): set<string> {
    set g | g in groups :: g.key
  }

  lemma {:induction false} PushUnder(groups: seq<Group>, key: string, v: Visit)
    requires DistinctGroups(groups)
    ensures DistinctGroups(Push(groups, key, v)) && KeysOf(Push(groups, key, v)) == KeysOf(groups) + {key}
    ensures forall k :: VisitsUnder(Push(groups, key, v), k) == VisitsUnder(groups, k) + if k == key then [v] else []
  {
    hide VisitsUnder, DistinctGroups, KeysOf;
    Nothing();
    if groups == [] {
      UnderHead(Group(key, [v]), []);
      assert [Group(key, [v])] + [] == [Group(key, [v])];
    } else {
      UnderHead(groups[0], groups[1..]);
      DistinctTail(groups);
      assert groups == [groups[0]] + groups[1..];
      if groups[0].key == key {
        UnderHead(Group(key, groups[0].visits + [v]), groups[1..]);
        KeyNotUnder(groups[1..], key);
      } else {
        PushUnder(groups[1..], key, v);
        UnderHead(groups[0], Push(groups[1..], key, v));
      }
    }
  }

  lemma Nothing()
    ensures DistinctGroups([]) && KeysOf([]) == {} && forall k :: VisitsUnder([], k) == []
  {
  }

  lemma {:induction false} KeyNotUnder(groups: seq<Group>, key: string)
    requires key !in KeysOf(groups)
    ensures VisitsUnder(groups, key) == []
  {
    if groups != [] {
      assert groups[0] in groups && groups[0].key in KeysOf(groups);
      assert forall g :: g in groups[1..] ==> g in groups;
      KeyNotUnder(groups[1..], key);
    }
  }

  /** The URL groups partition the visits: one group per key, holding the visits of that key in order. */
  lemma {:induction false} UrlGroupsPartition(visits: seq<Visit>)
    ensures DistinctGroups(UrlGroups(visits)) && KeysOf(UrlGroups(visits)) == (set v | v in visits :: UrlKey(v))
    ensures forall key :: VisitsUnder(UrlGroups(visits), key) == WithKey(UrlKey, visits, key)
  {
    hide Push, UrlKey, KeysOf, DistinctGroups;
    Nothing();
    if visits != [] {
      var k := |visits| - 1;
      UrlGroupsPartition(visits[..k]);
      PushUnder(UrlGroups(visits[..k]), UrlKey(visits[k]), visits[k]);
      assert visits == visits[..k] + [visits[k]];
    }
  }

  /** Every visit of a group has the group's key. */
  predicate KeyedBy(keyOf: Visit -> string, groups: seq<Group>) {
    forall g, v :: g in groups && v in g.visits ==> keyOf(v) == g.key
  }

  lemma {:induction false} PushKeyed(keyOf: Visit -> string, groups: seq<Group>, v: Visit)
    requires KeyedBy(keyOf, groups)
    ensures KeyedBy(keyOf, Push(groups, keyOf(v), v))
  {
    if groups != [] {
      assert forall g :: g in groups[1..] ==> g in groups;
      assert groups[0] in groups;
      if groups[0].key != keyOf(v) {
        PushKeyed(keyOf, groups[1..], v);
      }
    }
  }

  lemma {:induction false} UrlGroupsKeyed(visits: seq<Visit>)
    ensures KeyedBy(UrlKey, UrlGroups(visits))
  {
    hide Push, UrlKey, KeyedBy;
    if visits != [] {
      var k := |visits| - 1;
      UrlGroupsKeyed(visits[..k]);
      PushKeyed(UrlKey, UrlGroups(visits[..k]), visits[k]);
    } else {
      NothingKeyed(UrlKey);
    }
  }

  lemma NothingKeyed(keyOf: Visit -> string)
    ensures KeyedBy(keyOf, [])
  {
  }

  /** The activity key of a timed visit; the groups hold no other. */
  function TimedKey(local: LocalTime, v: Visit): string {
    if v.time.None? then "" else ActivityKey(local, v)
  }

  lemma {:induction false} ActivityGroupsKeyed(local: LocalTime, visits: seq<Visit>)
    ensures KeyedBy(v => TimedKey(local, v), ActivityGroups(local, visits))
  {
    hide Push, ActivityKey, KeyedBy;
    if visits != [] {
      var k := |visits| - 1;
      ActivityGroupsKeyed(local, visits[..k]);
      PushKeyed(v => TimedKey(local, v), ActivityGroups(local, visits[..k]), visits[k]);
    } else {
      NothingKeyed(v => TimedKey(local, v));
    }
  }

  /** Visits of one Profile with one key text share their Commit State. */
  lemma KeyNamesState(profile: string, a: CommitState, b: CommitState, x: string, y: string)
    requires profile + [NUL] + (StateText(a) + [NUL] + x) == profile + [NUL] + (StateText(b) + [NUL] + y)
    ensures a == b && x == y
  {
    var s, t := StateText(a) + [NUL] + x, StateText(b) + [NUL] + y;
    assert (profile + [NUL] + s)[|profile| + 1..] == s && (profile + [NUL] + t)[|profile| + 1..] == t;
    SplitAtNul(StateText(a), StateText(b), x, y);
  }

  /** The visits of one call have one Profile. */
  predicate OneProfile(visits: seq<Visit>) {
    forall v, w :: v in visits && w in visits ==> v.profile == w.profile
  }

  predicate OneState(groups: seq<Group>) {
    forall g, v, w :: g in groups && v in g.visits && w in g.visits ==> v.state == w.state
  }

  lemma {:induction false} GroupedAre(visits: seq<Visit>)
    ensures forall g, v :: g in UrlGroups(visits) && v in g.visits ==> v in visits
  {
    hide Push, UrlKey;
    if visits != [] {
      var k := |visits| - 1;
      GroupedAre(visits[..k]);
      PushAre(UrlGroups(visits[..k]), UrlKey(visits[k]), visits[k]);
      assert visits[k] in visits && forall v :: v in visits[..k] ==> v in visits;
    }
  }

  lemma {:induction false} TimedGroupedAre(local: LocalTime, visits: seq<Visit>)
    ensures forall g, v :: g in ActivityGroups(local, visits) && v in g.visits ==> v in visits
  {
    hide Push, ActivityKey;
    if visits != [] {
      var k := |visits| - 1;
      TimedGroupedAre(local, visits[..k]);
      if visits[k].time.Some? {
        PushAre(ActivityGroups(local, visits[..k]), ActivityKey(local, visits[k]), visits[k]);
      }
      assert visits[k] in visits && forall v :: v in visits[..k] ==> v in visits;
    }
  }

  lemma {:induction false} PushAre(groups: seq<Group>, key: string, v: Visit)
    ensures forall g, w :: g in Push(groups, key, v) && w in g.visits ==> w == v || exists h :: h in groups && w in h.visits
  {
    if groups != [] {
      assert groups[0] in groups && forall h :: h in groups[1..] ==> h in groups;
      if groups[0].key != key {
        PushAre(groups[1..], key, v);
      }
    }
  }

  /** No group mixes Commit States. */
  lemma GroupsKeepStates(local: LocalTime, visits: seq<Visit>)
    requires OneProfile(visits)
    ensures OneState(UrlGroups(visits)) && OneState(ActivityGroups(local, visits))
  {
    hide UrlGroups, ActivityGroups, StateText, NulFree;
    UrlGroupsKeyed(visits);
    ActivityGroupsKeyed(local, visits);
    ActivityGroupsHold(local, visits);
    GroupedAre(visits);
    TimedGroupedAre(local, visits);
    forall g, v, w | g in UrlGroups(visits) && v in g.visits && w in g.visits ensures v.state == w.state {
      assert UrlKey(v) == UrlKey(w);
      KeyNamesState(v.profile, v.state, w.state, UrlName(v), UrlName(w));
    }
    var keyOf := (v: Visit) => TimedKey(local, v);
    forall g, v, w | g in ActivityGroups(local, visits) && v in g.visits && w in g.visits ensures v.state == w.state {
      assert keyOf(v) == g.key && keyOf(w) == g.key;
      SameActivityKey(local, v, w);
    }
  }

  lemma SameActivityKey(local: LocalTime, v: Visit, w: Visit)
    requires v.profile == w.profile && v.time.Some? && w.time.Some? && TimedKey(local, v) == TimedKey(local, w)
    ensures v.state == w.state
  {
    hide StateText, NulFree;
    var a, b := local(v.time.value), local(w.time.value);
    KeyNamesState(v.profile, v.state, w.state, a.0 + [NUL] + a.1, b.0 + [NUL] + b.1);
  }

  // Which visits share a group, and what its summaries say, without the keys.

  /** Texts of two kinds that happen to be equal: an id and a URL, or either and a visit id. */
  predicate EqualTextsOfTwoKinds(v: Visit, w: Visit) {
    || (v.urlId.Some? && w.urlId.None? && v.urlId.value == if w.url.Value? then w.url.text else w.visitId)
    || (v.urlId.None? && v.url.Value? && w.urlId.None? && !w.url.Value? && v.url.text == w.visitId)
  }

  /** Visits of one Commit State and one URL: of equal URL ids, or, without ids, of equal URLs; a visit with
      neither stands for itself. */
  predicate OneUrl(v: Visit, w: Visit) {
    && v.state == w.state
    && (v.urlId.Some? && w.urlId.Some? ==> v.urlId == w.urlId)
    && (v.urlId.None? && w.urlId.None? && v.url.Value? && w.url.Value? ==> v.url == w.url)
    && (v.urlId.None? && w.urlId.None? && !v.url.Value? && !w.url.Value? ==> v.visitId == w.visitId)
    && (v.urlId.Some? != w.urlId.Some? || (v.urlId.None? && v.url.Value? != w.url.Value?) ==>
          EqualTextsOfTwoKinds(v, w) || EqualTextsOfTwoKinds(w, v))
  }

  /** Visits of one Commit State in one hour of one local date. */
  predicate OneHour(local: LocalTime, v: Visit, w: Visit) {
    v.state == w.state && v.time.Some? && w.time.Some? && local(v.time.value) == local(w.time.value)
  }

  type Relation = (Visit, Visit) -> bool

  /** The visits alike to `v`, in their order. */
  function Alike(same: Relation, visits: seq<Visit>, v: Visit): seq<Visit> {
    if visits == [] then []
    else
      var n := |visits| - 1;
      Alike(same, visits[..n], v) + if same(visits[n], v) then [visits[n]] else []
  }

  /** The visits that no earlier one is alike to. */
  function Leads(same: Relation, visits: seq<Visit>): seq<Visit> {
    if visits == [] then []
    else
      var n := |visits| - 1;
      Leads(same, visits[..n]) + if Alike(same, visits[..n], visits[n]) == [] then [visits[n]] else []
  }

  function TimedVisits(visits: seq<Visit>): seq<Visit> {
    if visits == [] then []
    else
      var n := |visits| - 1;
      TimedVisits(visits[..n]) + if visits[n].time.Some? then [visits[n]] else []
  }

  lemma UrlKeyIsOneUrl(v: Visit, w: Visit)
    requires v.profile == w.profile
    ensures UrlKey(v) == UrlKey(w) <==> OneUrl(v, w)
  {
    hide StateText, NulFree;
    if UrlKey(v) == UrlKey(w) {
      KeyNamesState(v.profile, v.state, w.state, UrlName(v), UrlName(w));
    }
    assert UrlName(v) == UrlName(w) && v.state == w.state <==> OneUrl(v, w);
  }

  lemma HourKeyIsOneHour(local: LocalTime, v: Visit, w: Visit)
    requires v.profile == w.profile && v.time.Some? && w.time.Some?
    requires NulFree(local(v.time.value).0) && NulFree(local(w.time.value).0)
    ensures TimedKey(local, v) == TimedKey(local, w) <==> OneHour(local, v, w)
  {
    hide StateText;
    var a, b := local(v.time.value), local(w.time.value);
    if TimedKey(local, v) == TimedKey(local, w) {
      KeyNamesState(v.profile, v.state, w.state, a.0 + [NUL] + a.1, b.0 + [NUL] + b.1);
      SplitAtNul(a.0, b.0, a.1, b.1);
    }
  }

  /** Pushing visits one by one under their keys. */
  function Pushed(keyOf: Visit -> string, visits: seq<Visit>): seq<Group> {
    if visits == [] then []
    else
      var n := |visits| - 1;
      Push(Pushed(keyOf, visits[..n]), keyOf(visits[n]), visits[n])
  }

  lemma {:induction false} UrlGroupsArePushed(visits: seq<Visit>)
    ensures UrlGroups(visits) == Pushed(UrlKey, visits)
  {
    hide Push, UrlKey;
    if visits != [] {
      UrlGroupsArePushed(visits[..|visits| - 1]);
    }
  }

  function HourKey(local: LocalTime): Visit -> string {
    (v: Visit) => TimedKey(local, v)
  }

  lemma {:induction false} ActivityGroupsArePushed(local: LocalTime, visits: seq<Visit>)
    ensures ActivityGroups(local, visits) == Pushed(HourKey(local), TimedVisits(visits))
  {
    hide Push, ActivityKey;
    if visits != [] {
      var n := |visits| - 1;
      ActivityGroupsArePushed(local, visits[..n]);
      var timed, before := TimedVisits(visits), TimedVisits(visits[..n]);
      if visits[n].time.Some? {
        assert timed == before + [visits[n]];
        assert timed[..|timed| - 1] == before && timed[|timed| - 1] == visits[n];
      } else {
        assert timed == before;
      }
    }
  }

  predicate SameKeys(keyOf: Visit -> string, same: Relation, visits: seq<Visit>) {
    forall v, w :: v in visits && w in visits ==> (same(v, w) <==> keyOf(v) == keyOf(w))
  }

  /** The groups are the leads' visits in the leads' order. */
  predicate GroupsAreAlike(keyOf: Visit -> string, same: Relation, visits: seq<Visit>, groups: seq<Group>) {
    var leads := Leads(same, visits);
    && |groups| == |leads|
    && forall k :: 0 <= k < |leads| ==> groups[k] == Group(keyOf(leads[k]), Alike(same, visits, leads[k]))
  }

  lemma {:induction false} LeadsAreVisits(same: Relation, visits: seq<Visit>)
    ensures forall v :: v in Leads(same, visits) ==> v in visits
  {
    if visits != [] {
      var n := |visits| - 1;
      LeadsAreVisits(same, visits[..n]);
      assert visits == visits[..n] + [visits[n]];
    }
  }

  lemma {:induction false} AlikeIsWithKey(keyOf: Visit -> string, same: Relation, visits: seq<Visit>, all: seq<Visit>, v: Visit)
    requires SameKeys(keyOf, same, all) && v in all && forall w :: w in visits ==> w in all
    ensures Alike(same, visits, v) == WithKey(keyOf, visits, keyOf(v))
  {
    hide SameKeys;
    if visits != [] {
      var n := |visits| - 1;
      AlikeIsWithKey(keyOf, same, visits[..n], all, v);
      assert same(visits[n], v) <==> keyOf(visits[n]) == keyOf(v) by { SameKeysAt(keyOf, same, all, visits[n], v); }
    }
  }

  lemma SameKeysAt(keyOf: Visit -> string, same: Relation, visits: seq<Visit>, v: Visit, w: Visit)
    requires SameKeys(keyOf, same, visits) && v in visits && w in visits
    ensures same(v, w) <==> keyOf(v) == keyOf(w)
  {
  }

  /** The keys of the groups in order: a push keeps them, or adds its own at the end. */
  function KeyList(groups: seq<Group>): seq<string> {
    seq(|groups|, k requires 0 <= k < |groups| => groups[k].key)
  }

  lemma {:induction false} PushKeyList(groups: seq<Group>, key: string, v: Visit)
    ensures KeyList(Push(groups, key, v)) == if key in KeysOf(groups) then KeyList(groups) else KeyList(groups) + [key]
  {
    hide KeysOf;
    KeysSplit(groups);
    if groups != [] {
      if groups[0].key != key {
        PushKeyList(groups[1..], key, v);
        assert KeyList(groups) == [groups[0].key] + KeyList(groups[1..]);
        assert KeyList(Push(groups, key, v)) == [groups[0].key] + KeyList(Push(groups[1..], key, v));
      }
    }
  }

  lemma KeysSplit(groups: seq<Group>)
    ensures groups == [] ==> KeysOf(groups) == {}
    ensures groups != [] ==> KeysOf(groups) == {groups[0].key} + KeysOf(groups[1..])
  {
    if groups != [] {
      assert groups == [groups[0]] + groups[1..];
    }
  }

  lemma {:induction false} PushedAre(keyOf: Visit -> string, visits: seq<Visit>)
    ensures DistinctGroups(Pushed(keyOf, visits)) && KeysOf(Pushed(keyOf, visits)) == (set v | v in visits :: keyOf(v))
    ensures forall key :: VisitsUnder(Pushed(keyOf, visits), key) == WithKey(keyOf, visits, key)
  {
    hide Push, KeysOf, DistinctGroups, VisitsUnder;
    Nothing();
    if visits != [] {
      var n := |visits| - 1;
      PushedAre(keyOf, visits[..n]);
      PushUnder(Pushed(keyOf, visits[..n]), keyOf(visits[n]), visits[n]);
      assert visits == visits[..n] + [visits[n]];
    }
  }

  lemma {:induction false} KeyListIsLeads(keyOf: Visit -> string, same: Relation, visits: seq<Visit>, all: seq<Visit>)
    requires SameKeys(keyOf, same, all) && forall w :: w in visits ==> w in all
    ensures var leads, groups := Leads(same, visits), Pushed(keyOf, visits);
      && |groups| == |leads| && forall k :: 0 <= k < |leads| ==> groups[k].key == keyOf(leads[k])
  {
    hide Push, KeysOf, SameKeys, Alike;
    if visits != [] {
      var n := |visits| - 1;
      var before, v := visits[..n], visits[n];
      var groups := Pushed(keyOf, before);
      KeyListIsLeads(keyOf, same, before, all);
      PushKeyList(groups, keyOf(v), v);
      PushedAre(keyOf, before);
      AlikeIsWithKey(keyOf, same, before, all, v);
      WithKeyIsSome(keyOf, before, keyOf(v));
      var next := Pushed(keyOf, visits);
      assert |KeyList(next)| == |next| && |KeyList(groups)| == |groups|;
      forall k | 0 <= k < |next| ensures next[k].key == keyOf(Leads(same, visits)[k]) {
        assert next[k].key == KeyList(next)[k];
        if k < |groups| {
          assert groups[k].key == KeyList(groups)[k];
        }
      }
    }
  }

  lemma {:induction false} WithKeyIsSome(keyOf: Visit -> string, visits: seq<Visit>, key: string)
    ensures WithKey(keyOf, visits, key) == [] <==> key !in (set v | v in visits :: keyOf(v))
  {
    if visits != [] {
      var n := |visits| - 1;
      WithKeyIsSome(keyOf, visits[..n], key);
      assert visits == visits[..n] + [visits[n]];
    }
  }

  lemma {:induction false} VisitsUnderOwnKey(groups: seq<Group>, k: nat)
    requires DistinctGroups(groups) && k < |groups|
    ensures VisitsUnder(groups, groups[k].key) == groups[k].visits
  {
    if k > 0 {
      DistinctTail(groups);
      assert groups[1..][k - 1] == groups[k] && groups[k] in groups[1..];
      VisitsUnderOwnKey(groups[1..], k - 1);
    }
  }

  lemma PushedAreAlike(keyOf: Visit -> string, same: Relation, visits: seq<Visit>)
    requires SameKeys(keyOf, same, visits)
    ensures GroupsAreAlike(keyOf, same, visits, Pushed(keyOf, visits))
  {
    hide SameKeys, VisitsUnder, DistinctGroups, KeysOf, Leads, Alike, Pushed;
    var leads, groups := Leads(same, visits), Pushed(keyOf, visits);
    PushedAre(keyOf, visits);
    KeyListIsLeads(keyOf, same, visits, visits);
    LeadsAreVisits(same, visits);
    forall k | 0 <= k < |leads| ensures groups[k] == Group(keyOf(leads[k]), Alike(same, visits, leads[k])) {
      VisitsUnderOwnKey(groups, k);
      AlikeIsWithKey(keyOf, same, visits, visits, leads[k]);
    }
  }

  // Conservation.

  function SumOver(weight: Visit -> int, visits: seq<Visit>): int {
    if visits == [] then 0 else SumOver(weight, visits[..|visits| - 1]) + weight(visits[|visits| - 1])
  }

  function SumOfGroups(weight: Visit -> int, groups: seq<Group>): int {
    if groups == [] then 0 else SumOver(weight, groups[0].visits) + SumOfGroups(weight, groups[1..])
  }

  lemma SumNext(weight: Visit -> int, visits: seq<Visit>, v: Visit)
    ensures SumOver(weight, visits + [v]) == SumOver(weight, visits) + weight(v)
  {
    assert (visits + [v])[..|visits|] == visits;
  }

  lemma {:induction false} PushConserves(weight: Visit -> int, groups: seq<Group>, key: string, v: Visit)
    ensures SumOfGroups(weight, Push(groups, key, v)) == SumOfGroups(weight, groups) + weight(v)
  {
    if groups == [] {
      SumNext(weight, [], v);
      assert [] + [v] == [v];
    } else if groups[0].key == key {
      SumNext(weight, groups[0].visits, v);
      assert Push(groups, key, v)[1..] == groups[1..];
    } else {
      PushConserves(weight, groups[1..], key, v);
      assert Push(groups, key, v)[1..] == Push(groups[1..], key, v);
    }
  }

  /** Whatever is summed over visits, the URL groups hold all of it. */
  lemma {:induction false} UrlGroupsConserve(weight: Visit -> int, visits: seq<Visit>)
    ensures SumOfGroups(weight, UrlGroups(visits)) == SumOver(weight, visits)
  {
    hide Push, UrlKey;
    if visits != [] {
      var k := |visits| - 1;
      UrlGroupsConserve(weight, visits[..k]);
      PushConserves(weight, UrlGroups(visits[..k]), UrlKey(visits[k]), visits[k]);
    }
  }

  function Timed(weight: Visit -> int): Visit -> int {
    (v: Visit) => if v.time.Some? then weight(v) else 0
  }

  lemma {:induction false} ActivityGroupsConserve(local: LocalTime, weight: Visit -> int, visits: seq<Visit>)
    ensures SumOfGroups(weight, ActivityGroups(local, visits)) == SumOver(Timed(weight), visits)
  {
    hide Push, ActivityKey;
    if visits != [] {
      var k := |visits| - 1;
      ActivityGroupsConserve(local, weight, visits[..k]);
      if visits[k].time.Some? {
        PushConserves(weight, ActivityGroups(local, visits[..k]), ActivityKey(local, visits[k]), visits[k]);
      }
    }
  }

  /** What is conserved: the visits, those with a known duration, and the known durations. */
  datatype Measure = Visits | Known | Total

  function Weight(m: Measure, state: CommitState): Visit -> int {
    (v: Visit) =>
      if v.state != state then 0
      else
        match m
        case Visits => 1
        case Known => if v.duration.Some? then 1 else 0
        case Total => if v.duration.Some? then v.duration.value else 0
  }

  function Measured(m: Measure, visits: seq<Visit>): int {
    match m
    case Visits => |visits|
    case Known => KnownCount(visits)
    case Total => TotalDuration(visits)
  }

  /** A group's sum, all its visits having one state. */
  lemma {:induction false} GroupSum(visits: seq<Visit>, m: Measure, state: CommitState, same: bool)
    requires forall v :: v in visits ==> (v.state == state) == same
    ensures SumOver(Weight(m, state), visits) == if same then Measured(m, visits) else 0
  {
    if visits != [] {
      var k := |visits| - 1;
      GroupSum(visits[..k], m, state, same);
      assert visits[k] in visits;
    }
  }

  datatype Kind = ByHour | MostVisits | ByDuration

  function MeasuredBy(m: Measure, count: nat, d: Durations): int {
    match m
    case Visits => count
    case Known => d.known
    case Total => d.total
  }

  /** What one summary adds to a measure of its kind and Commit State. */
  function Part(kind: Kind, m: Measure, s: Summary, state: CommitState): int {
    if s.state != state then 0
    else
      match s
      case Activity(_, _, _, count, _, _, d) => if kind.ByHour? then MeasuredBy(m, count, d) else 0
      case MostVisited(_, _, _, count, _, _) => if kind.MostVisits? && m.Visits? then count else 0
      case DurationSummary(_, _, _, count, _, _, d) => if kind.ByDuration? then MeasuredBy(m, count, d) else 0
  }

  function Added(kind: Kind, m: Measure, ss: seq<Summary>, state: CommitState): int {
    if ss == [] then 0
    else Added(kind, m, ss[..|ss| - 1], state) + Part(kind, m, ss[|ss| - 1], state)
  }

  lemma {:induction false} GroupsAppend(weight: Visit -> int, groups: seq<Group>, g: Group)
    ensures SumOfGroups(weight, groups + [g]) == SumOfGroups(weight, groups) + SumOver(weight, g.visits)
  {
    if groups == [] {
      assert [] + [g] == [g];
    } else {
      assert (groups + [g])[1..] == groups[1..] + [g];
      GroupsAppend(weight, groups[1..], g);
    }
  }

  /** A group's own measure, when it has the state. */
  function OwnMeasure(g: Group, m: Measure, state: CommitState): int
    requires g.visits != []
  {
    if g.visits[0].state == state then Measured(m, g.visits) else 0
  }

  lemma LastGroup(groups: seq<Group>, m: Measure, state: CommitState)
    requires groups != [] && NoneEmpty(groups) && OneState(groups)
    ensures var k := |groups| - 1; var g := groups[k];
      && NoneEmpty(groups[..k]) && OneState(groups[..k]) && g.visits != []
      && SumOfGroups(Weight(m, state), groups) == SumOfGroups(Weight(m, state), groups[..k]) + OwnMeasure(g, m, state)
  {
    hide SumOver, SumOfGroups, Measured, Weight, NoneEmpty, OneState;
    var k := |groups| - 1;
    var g := groups[k];
    assert groups == groups[..k] + [g];
    LastHasOneState(groups);
    GroupsAppend(Weight(m, state), groups[..k], g);
    GroupSum(g.visits, m, state, g.visits[0].state == state);
  }

  lemma LastHasOneState(groups: seq<Group>)
    requires groups != [] && NoneEmpty(groups) && OneState(groups)
    ensures var k := |groups| - 1; var g := groups[k];
      && NoneEmpty(groups[..k]) && OneState(groups[..k])
      && g.visits != [] && forall v :: v in g.visits ==> v.state == g.visits[0].state
  {
    var k := |groups| - 1;
    assert groups[k] in groups && groups[k].visits != [] && groups[k].visits[0] in groups[k].visits;
    assert forall h :: h in groups[..k] ==> h in groups;
  }

  lemma LastGroupTimed(groups: seq<Group>)
    requires groups != [] && NoneEmpty(groups) && AllTimed(groups)
    ensures var k := |groups| - 1; AllTimed(groups[..k]) && groups[k].visits != [] && groups[k].visits[0].time.Some?
  {
    var k := |groups| - 1;
    assert groups[k] in groups && groups[k].visits != [] && groups[k].visits[0] in groups[k].visits;
    assert forall h :: h in groups[..k] ==> h in groups;
  }

  lemma ActivityPart(local: LocalTime, g: Group, kind: Kind, m: Measure, state: CommitState)
    requires g.visits != [] && g.visits[0].time.Some?
    ensures Part(kind, m, ActivitySummary(local, g), state) == if kind.ByHour? then OwnMeasure(g, m, state) else 0
  {
    hide SummaryProvenanceOf, KnownCount, TotalDuration;
  }

  lemma UrlParts(g: Group, kind: Kind, m: Measure, state: CommitState)
    requires g.visits != [] && !(kind.MostVisits? && !m.Visits?)
    ensures |UrlSummaries(g)| == 2
    ensures Part(kind, m, UrlSummaries(g)[0], state) + Part(kind, m, UrlSummaries(g)[1], state)
         == if kind.ByHour? then 0 else OwnMeasure(g, m, state)
  {
    hide SummaryProvenanceOf, KnownCount, TotalDuration;
  }

  lemma {:induction false} ActivityAddUp(local: LocalTime, groups: seq<Group>, kind: Kind, m: Measure, state: CommitState)
    requires NoneEmpty(groups) && AllTimed(groups) && OneState(groups)
    ensures Added(kind, m, ActivitySummaries(local, groups), state)
         == if kind.ByHour? then SumOfGroups(Weight(m, state), groups) else 0
  {
    hide OneState, AllTimed, NoneEmpty, Part, ActivitySummary, OwnMeasure, Weight;
    if groups != [] {
      var k := |groups| - 1;
      hide SumOfGroups, Added;
      LastGroup(groups, m, state);
      LastGroupTimed(groups);
      ActivityAddUp(local, groups[..k], kind, m, state);
      ActivityPart(local, groups[k], kind, m, state);
    }
  }

  lemma {:induction false} UrlsAddUp(groups: seq<Group>, kind: Kind, m: Measure, state: CommitState)
    requires NoneEmpty(groups) && OneState(groups) && !(kind.MostVisits? && !m.Visits?)
    ensures Added(kind, m, AllUrlSummaries(groups), state)
         == if kind.ByHour? then 0 else SumOfGroups(Weight(m, state), groups)
  {
    hide OneState, NoneEmpty, Part, UrlSummaries, OwnMeasure, Weight;
    if groups != [] {
      var k := |groups| - 1;
      hide SumOfGroups, Added;
      LastGroup(groups, m, state);
      UrlsAddUp(groups[..k], kind, m, state);
      UrlParts(groups[k], kind, m, state);
      var pair, before := UrlSummaries(groups[k]), AllUrlSummaries(groups[..k]);
      assert before + pair == (before + [pair[0]]) + [pair[1]];
    }
  }

  lemma {:induction false} AddedConcat(kind: Kind, m: Measure, a: seq<Summary>, b: seq<Summary>, state: CommitState)
    ensures Added(kind, m, a + b, state) == Added(kind, m, a, state) + Added(kind, m, b, state)
  {
    hide Part;
    if b == [] {
      assert a + b == a;
    } else {
      var k := |b| - 1;
      assert (a + b)[..|a| + k] == a + b[..k];
      AddedConcat(kind, m, a, b[..k], state);
    }
  }

  /** Nothing is lost and nothing is counted twice. For each Commit State the most-visited counts add
      up to all visits; the duration summaries to all visits, their known durations and how many they
      are; the activity summaries to the same of the visits with a known time. */
  lemma SummariesConserve(local: LocalTime, visits: seq<Visit>, kind: Kind, m: Measure, state: CommitState)
    requires OneProfile(visits) && !(kind.MostVisits? && !m.Visits?)
    ensures Added(kind, m, Summaries(local, visits), state)
         == SumOver(if kind.ByHour? then Timed(Weight(m, state)) else Weight(m, state), visits)
  {
    hide UrlGroups, ActivityGroups, SumOver, SumOfGroups, Added, OneState, OneProfile, ActivitySummaries, AllUrlSummaries,
         Weight, Timed, NoneEmpty, AllTimed;
    ActivityGroupsHold(local, visits);
    UrlGroupsHold(visits);
    GroupsKeepStates(local, visits);
    var a, u := ActivityGroups(local, visits), UrlGroups(visits);
    ActivityAddUp(local, a, kind, m, state);
    UrlsAddUp(u, kind, m, state);
    AddedConcat(kind, m, ActivitySummaries(local, a), AllUrlSummaries(u), state);
    UrlGroupsConserve(Weight(m, state), visits);
    ActivityGroupsConserve(local, Weight(m, state), visits);
  }

  // What a summary cites.

  function SourceRowKeys(rows: seq<Row>): set<string> {
    set r | r in rows :: SourceRowKey(r)
  }

  predicate DistinctRows(rows: seq<Row>) {
    forall i, j :: 0 <= i < j < |rows| ==> SourceRowKey(rows[i]) != SourceRowKey(rows[j])
  }

  lemma {:induction false} SetRowKeys(rows: seq<Row>, row: Row)
    requires DistinctRows(rows)
    ensures DistinctRows(SetRow(rows, row)) && SourceRowKeys(SetRow(rows, row)) == SourceRowKeys(rows) + {SourceRowKey(row)}
    ensures forall r :: r in SetRow(rows, row) ==> r in rows || r == row
  {
    hide SourceRowKey, DistinctRows, SourceRowKeys;
    NoRows();
    if rows == [] {
      RowsHead(row, []);
      assert [row] + [] == [row];
    } else {
      var rest := rows[1..];
      RowsTail(rows);
      RowsHead(rows[0], rest);
      assert rows == [rows[0]] + rest;
      if SourceRowKey(rows[0]) == SourceRowKey(row) {
        RowsHead(row, rest);
      } else {
        SetRowKeys(rest, row);
        RowsHead(rows[0], SetRow(rest, row));
      }
    }
  }

  lemma RowsHead(row: Row, rest: seq<Row>)
    ensures SourceRowKeys([row] + rest) == {SourceRowKey(row)} + SourceRowKeys(rest)
    ensures DistinctRows(rest) && SourceRowKey(row) !in SourceRowKeys(rest) ==> DistinctRows([row] + rest)
    ensures forall r :: r in [row] + rest <==> r == row || r in rest
  {
    hide SourceRowKey;
    assert forall i :: 0 <= i < |rest| ==> SourceRowKey(rest[i]) in SourceRowKeys(rest);
  }

  lemma RowsTail(rows: seq<Row>)
    requires DistinctRows(rows) && rows != []
    ensures DistinctRows(rows[1..]) && SourceRowKey(rows[0]) !in SourceRowKeys(rows[1..])
  {
    hide SourceRowKey;
  }

  lemma {:induction false} AddRowsKeys(set0: seq<Row>, rows: seq<Row>, firstKey: string)
    requires DistinctRows(set0)
    ensures var all := AddRows(set0, rows, firstKey);
      && DistinctRows(all) && SourceRowKeys(all) == SourceRowKeys(set0) + (SourceRowKeys(rows) - {firstKey})
      && forall r :: r in all ==> r in set0 || r in rows
  {
    hide SourceRowKey, SetRow, DistinctRows;
    if rows != [] {
      var k := |rows| - 1;
      AddRowsKeys(set0, rows[..k], firstKey);
      SetRowKeys(AddRows(set0, rows[..k], firstKey), rows[k]);
      assert forall r :: r in rows <==> r in rows[..k] || r == rows[k];
    }
  }

  /** A summary cites the row of its first visit, and every other row its visits cite once. */
  lemma {:induction false} SupportingRowsAre(visits: seq<Visit>, firstKey: string)
    ensures var rows := SupportingRows(visits, firstKey);
      && DistinctRows(rows)
      && (forall key :: key in SourceRowKeys(rows) <==>
            key != firstKey && exists v :: v in visits && key in SourceRowKeys(RowsOf(v)))
      && forall r :: r in rows ==> exists v :: v in visits && r in RowsOf(v)
  {
    hide SourceRowKey, AddRows, DistinctRows, RowsOf, SourceRowKeys;
    NoRows();
    if visits != [] {
      var k := |visits| - 1;
      SupportingRowsAre(visits[..k], firstKey);
      AddRowsKeys(SupportingRows(visits[..k], firstKey), RowsOf(visits[k]), firstKey);
      assert forall v :: v in visits <==> v in visits[..k] || v == visits[k];
      assert forall key :: key in SourceRowKeys(SupportingRows(visits, firstKey)) <==>
          key in SourceRowKeys(SupportingRows(visits[..k], firstKey)) || (key in SourceRowKeys(RowsOf(visits[k])) && key != firstKey);
    }
  }

  lemma NoRows()
    ensures DistinctRows([]) && SourceRowKeys([]) == {}
  {
  }

  /** Every row its visits cite is cited by the summary, under its key. */
  lemma SummaryCitesEveryRow(visits: seq<Visit>, v: Visit, r: Row)
    requires v in visits && r in RowsOf(v)
    ensures var p := SummaryProvenanceOf(visits);
      SourceRowKey(r) == SourceRowKey(p.primary) || exists s :: s in p.supporting && SourceRowKey(s) == SourceRowKey(r)
  {
    hide SourceRowKey, SupportingRows, RowsOf;
    var firstKey := SourceRowKey(visits[0].provenance.primary);
    SupportingRowsAre(visits, firstKey);
    assert SourceRowKey(r) in SourceRowKeys(RowsOf(v));
    if SourceRowKey(r) != firstKey {
      assert SourceRowKey(r) in SourceRowKeys(SupportingRows(visits, firstKey));
    }
  }

  /** A summary cites rows of its visits alone, so it passes the checks that they passed. */
  lemma SummaryIsCitable(visits: seq<Visit>)
    requires visits != [] && forall v :: v in visits ==> Citable(v.provenance, v.state)
    ensures Citable(SummaryProvenanceOf(visits), visits[0].state)
  {
    hide Resolvable, RecoveryResolvable, SupportingRows, SourceRowKey;
    var firstKey := SourceRowKey(visits[0].provenance.primary);
    SupportingRowsAre(visits, firstKey);
    assert Citable(visits[0].provenance, visits[0].state);
    forall r | r in SupportingRows(visits, firstKey) ensures Resolvable(r) {
      var v :| v in visits && r in RowsOf(v);
      assert Citable(v.provenance, v.state);
    }
  }

  /** The summary speaks for the Commit State of the visit, and cites a recovery exactly when it does. */
  predicate SpeaksFor(s: Summary, v: Visit) {
    && s.state == v.state && Citable(s.provenance, s.state)
    && (s.provenance.recoveredVia.Some? <==> v.provenance.recoveredVia.Some?)
  }

  lemma GroupSpeaks(g: Group, s: Summary, v: Visit)
    requires v in g.visits && forall w :: w in g.visits ==> Citable(w.provenance, w.state) && w.state == v.state
    requires s.state == g.visits[0].state && s.provenance == SummaryProvenanceOf(g.visits)
    ensures SpeaksFor(s, v)
  {
    hide Resolvable, RecoveryResolvable, SummaryProvenanceOf;
    SummaryIsCitable(g.visits);
    assert g.visits[0] in g.visits && Citable(v.provenance, v.state);
  }

  /** No check of a summary's Provenance throws: each summary cites what can be resolved, and a recovery
      exactly when every visit of its group does. */
  lemma RecoveryIsCited(local: LocalTime, visits: seq<Visit>)
    requires OneProfile(visits) && forall v :: v in visits ==> Citable(v.provenance, v.state)
    ensures forall s :: s in Summaries(local, visits) ==> Citable(s.provenance, s.state)
    ensures NoneEmpty(ActivityGroups(local, visits)) && AllTimed(ActivityGroups(local, visits)) && NoneEmpty(UrlGroups(visits))
    ensures forall g, v :: g in ActivityGroups(local, visits) && v in g.visits ==>
      g.visits[0].time.Some? && SpeaksFor(ActivitySummary(local, g), v)
    ensures forall g, v, s :: g in UrlGroups(visits) && v in g.visits && s in UrlSummaries(g) ==> SpeaksFor(s, v)
  {
    hide ActivityGroups, UrlGroups, Citable, SummaryProvenanceOf, DurationsOf, SpeaksFor;
    GroupsKeepStates(local, visits);
    GroupedAre(visits);
    TimedGroupedAre(local, visits);
    ActivityGroupsHold(local, visits);
    UrlGroupsHold(visits);
    forall g, v | g in ActivityGroups(local, visits) && v in g.visits
      ensures g.visits[0].time.Some? && SpeaksFor(ActivitySummary(local, g), v)
    {
      assert g.visits[0] in g.visits;
      GroupSpeaks(g, ActivitySummary(local, g), v);
    }
    forall g, v, s | g in UrlGroups(visits) && v in g.visits && s in UrlSummaries(g) ensures SpeaksFor(s, v) {
      GroupSpeaks(g, s, v);
    }
    forall s | s in Summaries(local, visits) ensures Citable(s.provenance, s.state) {
      SummaryOfGroup(local, visits, s);
    }
  }

  /** Every summary is that of a group. */
  lemma SummaryOfGroup(local: LocalTime, visits: seq<Visit>, s: Summary)
    requires s in Summaries(local, visits)
    requires NoneEmpty(ActivityGroups(local, visits)) && AllTimed(ActivityGroups(local, visits)) && NoneEmpty(UrlGroups(visits))
    requires forall g, v :: g in ActivityGroups(local, visits) && v in g.visits ==>
      g.visits[0].time.Some? && SpeaksFor(ActivitySummary(local, g), v)
    requires forall g, v, t :: g in UrlGroups(visits) && v in g.visits && t in UrlSummaries(g) ==> SpeaksFor(t, v)
    ensures Citable(s.provenance, s.state)
  {
    hide ActivityGroups, UrlGroups, ActivitySummary, UrlSummaries, Citable;
    if s in ActivitySummaries(local, ActivityGroups(local, visits)) {
      var g := ActivityOfGroup(local, ActivityGroups(local, visits), s);
      assert SpeaksFor(ActivitySummary(local, g), g.visits[0]);
    } else {
      var g := UrlOfGroup(UrlGroups(visits), s);
      assert SpeaksFor(s, g.visits[0]);
    }
  }

  lemma {:induction false} ActivityOfGroup(local: LocalTime, groups: seq<Group>, s: Summary) returns (g: Group)
    requires NoneEmpty(groups) && AllTimed(groups) && s in ActivitySummaries(local, groups)
    ensures g in groups && g.visits != [] && g.visits[0].time.Some? && s == ActivitySummary(local, g)
  {
    hide ActivitySummary;
    var k := |groups| - 1;
    assert groups[k] in groups && groups[k].visits[0] in groups[k].visits;
    if s == ActivitySummary(local, groups[k]) {
      g := groups[k];
    } else {
      g := ActivityOfGroup(local, groups[..k], s);
    }
  }

  lemma {:induction false} UrlOfGroup(groups: seq<Group>, s: Summary) returns (g: Group)
    requires NoneEmpty(groups) && s in AllUrlSummaries(groups)
    ensures g in groups && g.visits != [] && s in UrlSummaries(g)
  {
    hide UrlSummaries;
    var k := |groups| - 1;
    assert groups[k] in groups;
    if s in UrlSummaries(groups[k]) {
      g := groups[k];
    } else {
      g := UrlOfGroup(groups[..k], s);
    }
  }

  // The summaries, said of the visits alone.

  /** What the summary of an hour says. */
  predicate SummarizesHour(local: LocalTime, s: Summary, lead: Visit, alike: seq<Visit>) {
    && s.Activity? && s.profile == lead.profile && s.state == lead.state && s.count == |alike|
    && lead.time.Some? && (s.date, s.hour) == local(lead.time.value)
    && s.durations == DurationsOf(alike)
  }

  predicate SummarizesMostVisited(s: Summary, lead: Visit, alike: seq<Visit>) {
    && s.MostVisited? && s.profile == lead.profile && s.state == lead.state && s.count == |alike|
    && s.url == lead.url && s.title == lead.title
  }

  predicate SummarizesDurations(s: Summary, lead: Visit, alike: seq<Visit>) {
    && s.DurationSummary? && s.profile == lead.profile && s.state == lead.state && s.count == |alike|
    && s.url == lead.url && s.title == lead.title && s.durations == DurationsOf(alike)
  }

  function SameHour(local: LocalTime): Relation {
    (v: Visit, w: Visit) => OneHour(local, v, w)
  }

  function SameUrl(): Relation {
    (v: Visit, w: Visit) => OneUrl(v, w)
  }

  /** One summary for each hour in the order of its first visit, then two for each URL: its count, and its
      durations. Each counts the visits of that hour, or of that URL. */
  predicate SummarizesAll(local: LocalTime, visits: seq<Visit>, ss: seq<Summary>) {
    var timed := TimedVisits(visits);
    var hours, urls := Leads(SameHour(local), timed), Leads(SameUrl(), visits);
    && |ss| == |hours| + 2 * |urls|
    && (forall k :: 0 <= k < |hours| ==> SummarizesHour(local, ss[k], hours[k], Alike(SameHour(local), timed, hours[k])))
    && (forall k :: 0 <= k < |urls| ==>
          && SummarizesMostVisited(ss[|hours| + 2 * k], urls[k], Alike(SameUrl(), visits, urls[k]))
          && SummarizesDurations(ss[|hours| + 2 * k + 1], urls[k], Alike(SameUrl(), visits, urls[k])))
  }

  lemma {:induction false} ActivitySummaryAt(local: LocalTime, groups: seq<Group>, k: nat)
    requires NoneEmpty(groups) && AllTimed(groups) && k < |groups|
    ensures groups[k].visits != [] && groups[k].visits[0].time.Some?
    ensures ActivitySummaries(local, groups)[k] == ActivitySummary(local, groups[k])
  {
    hide ActivitySummary;
    var n := |groups| - 1;
    assert groups[k] in groups && groups[k].visits[0] in groups[k].visits;
    if k < n {
      ActivitySummaryAt(local, groups[..n], k);
    }
  }

  lemma {:induction false} UrlSummariesAt(groups: seq<Group>, k: nat)
    requires NoneEmpty(groups) && k < |groups|
    ensures |AllUrlSummaries(groups)| == 2 * |groups| && groups[k].visits != []
    ensures AllUrlSummaries(groups)[2 * k] == UrlSummaries(groups[k])[0]
    ensures AllUrlSummaries(groups)[2 * k + 1] == UrlSummaries(groups[k])[1]
  {
    hide SummaryProvenanceOf, DurationsOf;
    var n := |groups| - 1;
    assert groups[k] in groups;
    if n > 0 {
      UrlSummariesAt(groups[..n], if k < n then k else 0);
    }
  }

  lemma TimedAre(visits: seq<Visit>)
    ensures forall v :: v in TimedVisits(visits) <==> v in visits && v.time.Some?
  {
    if visits != [] {
      var n := |visits| - 1;
      TimedAre(visits[..n]);
      assert visits == visits[..n] + [visits[n]];
    }
  }

  lemma SomeLead(same: Relation, visits: seq<Visit>, v: Visit)
    requires v in visits && same(v, v)
    ensures Alike(same, visits, v) != []
  {
    var n := |visits| - 1;
    if visits[n] != v {
      assert v in visits[..n];
      SomeLead(same, visits[..n], v);
    }
  }

  /** A lead is the first of the visits alike to it. */
  lemma {:induction false} LeadIsFirst(same: Relation, visits: seq<Visit>, lead: Visit)
    requires lead in Leads(same, visits) && forall v :: v in visits ==> same(v, v)
    ensures Alike(same, visits, lead) != [] && Alike(same, visits, lead)[0] == lead
  {
    hide Alike;
    var n := |visits| - 1;
    assert visits == visits[..n] + [visits[n]];
    AlikeNext(same, visits, lead);
    if lead in Leads(same, visits[..n]) {
      LeadIsFirst(same, visits[..n], lead);
    }
  }

  lemma AlikeNext(same: Relation, visits: seq<Visit>, v: Visit)
    requires visits != []
    ensures var n := |visits| - 1;
      Alike(same, visits, v) == Alike(same, visits[..n], v) + if same(visits[n], v) then [visits[n]] else []
  {
  }

  /** The local date never holds a NUL: it is digits and hyphens. */
  predicate PlainDates(local: LocalTime, visits: seq<Visit>) {
    forall v :: v in visits && v.time.Some? ==> NulFree(local(v.time.value).0)
  }

  /** The groups of a call, without their keys. */
  lemma GroupsAre(local: LocalTime, visits: seq<Visit>)
    requires OneProfile(visits) && PlainDates(local, visits)
    ensures GroupsAreAlike(HourKey(local), SameHour(local), TimedVisits(visits), ActivityGroups(local, visits))
    ensures GroupsAreAlike(UrlKey, SameUrl(), visits, UrlGroups(visits))
  {
    hide UrlKey, OneUrl, OneHour, TimedKey, GroupsAreAlike;
    TimedAre(visits);
    ActivityGroupsArePushed(local, visits);
    UrlGroupsArePushed(visits);
    forall v, w | v in visits && w in visits ensures SameUrl()(v, w) <==> UrlKey(v) == UrlKey(w) {
      UrlKeyIsOneUrl(v, w);
    }
    forall v, w | v in TimedVisits(visits) && w in TimedVisits(visits)
      ensures SameHour(local)(v, w) <==> HourKey(local)(v) == HourKey(local)(w)
    {
      HourKeyIsOneHour(local, v, w);
    }
    PushedAreAlike(UrlKey, SameUrl(), visits);
    PushedAreAlike(HourKey(local), SameHour(local), TimedVisits(visits));
  }

  /** Two visits share a URL group exactly when they are of one Commit State and one URL, and an activity group
      exactly when they are of one Commit State in one hour. */
  lemma GroupedExactly(local: LocalTime, visits: seq<Visit>, v: Visit, w: Visit)
    requires OneProfile(visits) && PlainDates(local, visits) && v in visits && w in visits
    ensures (exists g :: g in UrlGroups(visits) && v in g.visits && w in g.visits) <==> OneUrl(v, w)
    ensures (exists g :: g in ActivityGroups(local, visits) && v in g.visits && w in g.visits) <==> OneHour(local, v, w)
  {
    hide UrlKey, OneUrl, OneHour, TimedKey;
    TimedAre(visits);
    UrlGroupsArePushed(visits);
    ActivityGroupsArePushed(local, visits);
    SharedGroup(UrlKey, visits, v, w);
    UrlKeyIsOneUrl(v, w);
    if v.time.Some? && w.time.Some? {
      SharedGroup(HourKey(local), TimedVisits(visits), v, w);
      HourKeyIsOneHour(local, v, w);
    } else {
      UntimedShareNothing(local, visits, v, w);
    }
  }

  lemma UntimedShareNothing(local: LocalTime, visits: seq<Visit>, v: Visit, w: Visit)
    requires v.time.None? || w.time.None?
    ensures !OneHour(local, v, w)
    ensures !exists g :: g in ActivityGroups(local, visits) && v in g.visits && w in g.visits
  {
    ActivityGroupsHold(local, visits);
  }

  lemma SharedGroup(keyOf: Visit -> string, visits: seq<Visit>, v: Visit, w: Visit)
    requires v in visits && w in visits
    ensures (exists g :: g in Pushed(keyOf, visits) && v in g.visits && w in g.visits) <==> keyOf(v) == keyOf(w)
  {
    hide VisitsUnder, Pushed;
    var groups := Pushed(keyOf, visits);
    PushedAre(keyOf, visits);
    if g :| g in groups && v in g.visits && w in g.visits {
      var k :| 0 <= k < |groups| && groups[k] == g;
      VisitsUnderOwnKey(groups, k);
      WithKeyHas(keyOf, visits, g.key);
    }
    if keyOf(v) == keyOf(w) {
      assert keyOf(v) in KeysOf(groups);
      var g :| g in groups && g.key == keyOf(v);
      var k :| 0 <= k < |groups| && groups[k] == g;
      VisitsUnderOwnKey(groups, k);
      WithKeyHas(keyOf, visits, g.key);
    }
  }

  lemma {:induction false} WithKeyHas(keyOf: Visit -> string, visits: seq<Visit>, key: string)
    ensures forall v :: v in WithKey(keyOf, visits, key) <==> v in visits && keyOf(v) == key
  {
    if visits != [] {
      var n := |visits| - 1;
      WithKeyHas(keyOf, visits[..n], key);
      assert visits == visits[..n] + [visits[n]];
    }
  }

  /** How many visits of a Commit State have a URL id. */
  function CountOfId(visits: seq<Visit>, state: CommitState, id: string): nat {
    if visits == [] then 0
    else
      var n := |visits| - 1;
      CountOfId(visits[..n], state, id) + if visits[n].state == state && visits[n].urlId == Some(id) then 1 else 0
  }

  /** Where every visit has a URL id, a URL's summary counts the visits with its id. */
  lemma {:induction false} AlikeCountsId(visits: seq<Visit>, lead: Visit)
    requires lead.urlId.Some? && forall v :: v in visits ==> v.urlId.Some?
    ensures |Alike(SameUrl(), visits, lead)| == CountOfId(visits, lead.state, lead.urlId.value)
  {
    if visits != [] {
      var n := |visits| - 1;
      AlikeCountsId(visits[..n], lead);
      assert visits[n] in visits;
      assert SameUrl()(visits[n], lead) <==> visits[n].state == lead.state && visits[n].urlId == lead.urlId;
    }
  }

  lemma HourSummariesAre(local: LocalTime, timed: seq<Visit>, groups: seq<Group>)
    requires GroupsAreAlike(HourKey(local), SameHour(local), timed, groups) && forall v :: v in timed ==> v.time.Some?
    requires NoneEmpty(groups) && AllTimed(groups)
    ensures var ss, hours := ActivitySummaries(local, groups), Leads(SameHour(local), timed);
      && |ss| == |hours|
      && forall k :: 0 <= k < |hours| ==> SummarizesHour(local, ss[k], hours[k], Alike(SameHour(local), timed, hours[k]))
  {
    hide Leads, Alike, SameHour, HourKey, SummaryProvenanceOf, DurationsOf;
    var ss, hours := ActivitySummaries(local, groups), Leads(SameHour(local), timed);
    forall k | 0 <= k < |hours| ensures SummarizesHour(local, ss[k], hours[k], Alike(SameHour(local), timed, hours[k])) {
      HourLeadIsFirst(local, timed, hours[k]);
      ActivitySummaryAt(local, groups, k);
    }
  }

  lemma UrlSummariesAre(visits: seq<Visit>, groups: seq<Group>)
    requires GroupsAreAlike(UrlKey, SameUrl(), visits, groups) && NoneEmpty(groups)
    ensures var ss, urls := AllUrlSummaries(groups), Leads(SameUrl(), visits);
      && |ss| == 2 * |urls|
      && forall k :: 0 <= k < |urls| ==>
           && SummarizesMostVisited(ss[2 * k], urls[k], Alike(SameUrl(), visits, urls[k]))
           && SummarizesDurations(ss[2 * k + 1], urls[k], Alike(SameUrl(), visits, urls[k]))
  {
    hide Leads, Alike, SameUrl, UrlKey, SummaryProvenanceOf, DurationsOf, AllUrlSummaries;
    var ss, urls := AllUrlSummaries(groups), Leads(SameUrl(), visits);
    if urls == [] {
      NoUrlSummaries();
    } else {
      UrlSummariesAt(groups, 0);
    }
    forall k | 0 <= k < |urls|
      ensures SummarizesMostVisited(ss[2 * k], urls[k], Alike(SameUrl(), visits, urls[k]))
      ensures SummarizesDurations(ss[2 * k + 1], urls[k], Alike(SameUrl(), visits, urls[k]))
    {
      UrlLeadIsFirst(visits, urls[k]);
      UrlSummariesAt(groups, k);
    }
  }

  /** A call's summaries are exactly those. */
  lemma SummariesAre(local: LocalTime, visits: seq<Visit>)
    requires OneProfile(visits) && PlainDates(local, visits)
    ensures SummarizesAll(local, visits, Summaries(local, visits))
  {
    hide ActivityGroups, UrlGroups, Leads, Alike, GroupsAreAlike, SummarizesHour, SummarizesMostVisited, SummarizesDurations;
    hide ActivitySummaries, AllUrlSummaries, SameUrl, SameHour;
    GroupsAre(local, visits);
    ActivityGroupsHold(local, visits);
    UrlGroupsHold(visits);
    TimedAre(visits);
    HourSummariesAre(local, TimedVisits(visits), ActivityGroups(local, visits));
    UrlSummariesAre(visits, UrlGroups(visits));
  }

  lemma NoUrlSummaries()
    ensures AllUrlSummaries([]) == []
  {
  }

  lemma HourLeadIsFirst(local: LocalTime, timed: seq<Visit>, lead: Visit)
    requires lead in Leads(SameHour(local), timed) && forall v :: v in timed ==> v.time.Some?
    ensures Alike(SameHour(local), timed, lead) != [] && Alike(SameHour(local), timed, lead)[0] == lead
  {
    LeadIsFirst(SameHour(local), timed, lead);
  }

  lemma UrlLeadIsFirst(visits: seq<Visit>, lead: Visit)
    requires lead in Leads(SameUrl(), visits)
    ensures Alike(SameUrl(), visits, lead) != [] && Alike(SameUrl(), visits, lead)[0] == lead
  {
    LeadIsFirst(SameUrl(), visits, lead);
  }

  /** `q` is `a` over `b`, rounded toward zero. */
  predicate RoundsToward0(q: int, a: int, b: int) {
    if a >= 0 then q * b <= a < (q + 1) * b else (q - 1) * b < a <= q * b
  }

  /** Total and average are absent together, and the average is the total over the known durations,
      rounded toward zero. */
  lemma AverageRounds(visits: seq<Visit>)
    ensures var d := DurationsOf(visits);
      && (d.average.None? <==> d.known == 0) && (d.average.None? <==> d.totalField.None?)
      && d.known + d.unknown == |visits|
      && (d.average.Some? ==> RoundsToward0(d.average.value, d.total, d.known))
  {
    hide KnownCount, TotalDuration, TruncatedQuotient, RoundsToward0;
    KnownAtMostAll(visits);
    if KnownCount(visits) > 0 {
      Quotient(TotalDuration(visits), KnownCount(visits));
    }
  }

  lemma Quotient(a: int, b: int)
    requires b > 0
    ensures RoundsToward0(TruncatedQuotient(a, b), a, b)
  {
    var n := if a >= 0 then a else -a;
    var k := n / b;
    assert n == k * b + n % b;
    assert (k + 1) * b == k * b + b && (-k) * b == -(k * b) && (-k - 1) * b == -(k * b) - b;
  }

  // The loops of the original against those functions.

  method DurationSummaryFields(visits: seq<Visit>) returns (d: Durations)
    ensures d == DurationsOf(visits)
  {
    var known, total := 0, 0;
    for i := 0 to |visits|
      invariant known == KnownCount(visits[..i]) && total == TotalDuration(visits[..i])
    {
      assert visits[..i + 1][..i] == visits[..i];
      if visits[i].duration.Some? {
        known, total := known + 1, total + visits[i].duration.value;
      }
    }
    assert visits[..|visits|] == visits;
    KnownAtMostAll(visits);
    d := Durations(known, |visits| - known, total, if known == 0 then None else Some(total),
                   if known == 0 then None else Some(TruncatedQuotient(total, known)));
  }

  method SummaryProvenance(visits: seq<Visit>) returns (r: Option<Provenance>)
    ensures r == if visits == [] then None else Some(SummaryProvenanceOf(visits))
  {
    hide SourceRowKey, SetRow;
    if visits == [] {
      return None;
    }
    var first := visits[0].provenance;
    var firstKey := SourceRowKey(first.primary);
    var supporting: seq<Row> := [];
    for i := 0 to |visits|
      invariant supporting == SupportingRows(visits[..i], firstKey)
    {
      assert visits[..i + 1][..i] == visits[..i];
      var rows := RowsOf(visits[i]);
      ghost var before := supporting;
      for j := 0 to |rows|
        invariant supporting == AddRows(before, rows[..j], firstKey)
      {
        assert rows[..j + 1][..j] == rows[..j];
        if SourceRowKey(rows[j]) != firstKey {
          supporting := SetRow(supporting, rows[j]);
        }
      }
      assert rows[..|rows|] == rows;
    }
    assert visits[..|visits|] == visits;
    return Some(if supporting == [] then first else first.(supporting := supporting));
  }

  /** `createFinding`: None where a check of its Provenance throws. */
  function Created(s: Summary): Option<Summary> {
    if Citable(s.provenance, s.state) then Some(s) else None
  }

  method BuildSummaries(local: LocalTime, visits: seq<Visit>) returns (r: Option<seq<Summary>>)
    requires forall v :: v in visits ==> Citable(v.provenance, v.state)
    ensures r == Some(Summaries(local, visits))
  {
    hide Push, ActivityKey, UrlKey, Citable, SummaryProvenanceOf;
    var activityGroups: seq<Group> := [];
    var urlGroups: seq<Group> := [];
    for i := 0 to |visits|
      invariant activityGroups == ActivityGroups(local, visits[..i])
      invariant urlGroups == UrlGroups(visits[..i])
    {
      assert visits[..i + 1][..i] == visits[..i];
      var visit := visits[i];
      if visit.time.Some? {
        activityGroups := Push(activityGroups, ActivityKey(local, visit), visit);
      }
      urlGroups := Push(urlGroups, UrlKey(visit), visit);
    }
    assert visits[..|visits|] == visits;
    ActivityGroupsHold(local, visits);
    UrlGroupsHold(visits);
    GroupedAre(visits);
    TimedGroupedAre(local, visits);
    var results := SummarizeActivity(local, activityGroups);
    var byUrl := SummarizeUrls(urlGroups);
    if results.None? || byUrl.None? {
      return None;
    }
    return Some(results.value + byUrl.value);
  }

  predicate AllCited(groups: seq<Group>) {
    forall g, v :: g in groups && v in g.visits ==> Citable(v.provenance, v.state)
  }

  method SummarizeActivity(local: LocalTime, groups: seq<Group>) returns (r: Option<seq<Summary>>)
    requires NoneEmpty(groups) && AllTimed(groups) && AllCited(groups)
    ensures r == Some(ActivitySummaries(local, groups))
  {
    hide Citable, SummaryProvenanceOf, DurationsOf;
    var results: seq<Summary> := [];
    for i := 0 to |groups|
      invariant results == ActivitySummaries(local, groups[..i])
    {
      assert groups[..i + 1][..i] == groups[..i];
      var group := groups[i];
      assert group in groups && group.visits[0] in group.visits;
      var first := group.visits[0];
      var time := local(first.time.value);
      var duration := DurationSummaryFields(group.visits);
      var provenance := SummaryProvenance(group.visits);
      SummaryIsCitable(group.visits);
      var finding := Created(Activity(first.profile, first.state, provenance.value, |group.visits|, time.0, time.1, duration));
      if finding.None? {
        return None;
      }
      results := results + [finding.value];
    }
    assert groups[..|groups|] == groups;
    return Some(results);
  }

  method SummarizeUrls(groups: seq<Group>) returns (r: Option<seq<Summary>>)
    requires NoneEmpty(groups) && AllCited(groups)
    ensures r == Some(AllUrlSummaries(groups))
  {
    hide Citable, SummaryProvenanceOf, DurationsOf;
    var results: seq<Summary> := [];
    for i := 0 to |groups|
      invariant results == AllUrlSummaries(groups[..i])
    {
      assert groups[..i + 1][..i] == groups[..i];
      var group := groups[i];
      assert group in groups && group.visits[0] in group.visits;
      var first := group.visits[0];
      var duration := DurationSummaryFields(group.visits);
      var provenance := SummaryProvenance(group.visits);
      SummaryIsCitable(group.visits);
      var mostVisited := Created(
        MostVisited(first.profile, first.state, provenance.value, |group.visits|, first.url, first.title));
      var durationSummary := Created(
        DurationSummary(first.profile, first.state, provenance.value, |group.visits|, first.url, first.title, duration));
      if mostVisited.None? || durationSummary.None? {
        return None;
      }
      results := results + [mostVisited.value, durationSummary.value];
    }
    assert groups[..|groups|] == groups;
    return Some(results);
  }
}
