/** Nominating identity and behaviour Candidates: grouping evidence, ranking the groups, carrying rows. */
module IdentityCandidates {
  import opened Decimal
  import opened Orders
  import opened SourceRows

  datatype Evidence = Evidence(key: string, raw: string, basis: string, row: Row)

  datatype Group = Group(key: string, display: string, bases: seq<string>, rows: seq<Row>) {
    function SupportingCount(): nat { |rows| }
  }

  datatype Candidate = Candidate(
    kind: string, rank: nat, count: nat, primary: Row, supporting: seq<Row>,
    value: string, normalized: string, bases: seq<string>)

  const MAX_CANDIDATES_PER_KIND := 100
  const MAX_PROVENANCE_ROWS := 200

  function RowKey(row: Row): string {
    row.sourceId + [NUL] + (NatText(row.ordinal) + [NUL] + (row.database + [NUL] + (row.table + [NUL] + row.rowId)))
  }

  predicate RowLess(a: Row, b: Row) { UnitLess(RowKey(a), RowKey(b)) }

  /** A row as Chromium names it, with no NUL in the texts of its key. */
  predicate Clean(row: Row) {
    NulFree(row.sourceId) && NulFree(row.database) && NulFree(row.table)
  }

  /** Rows that cite one Manifest: an ordinal of a Source is one entry. */
  predicate Filed(evidence: seq<Evidence>) {
    && (forall e :: e in evidence ==> Clean(e.row))
    && (forall d, e :: d in evidence && e in evidence ==> OneEntry(d.row, e.row))
  }

  predicate OneEntry(a: Row, b: Row) {
    a.sourceId == b.sourceId && a.ordinal == b.ordinal ==> a.entryId == b.entryId && a.path == b.path
  }

  lemma DigitsAreNulFree(n: nat)
    ensures NulFree(NatText(n))
  {
    NatRoundTrip(n);
    assert forall i :: 0 <= i < |NatText(n)| ==> IsDigit(NatText(n)[i]);
  }

  /** The row key names the row: source, ordinal, database, table and row id can be read off it. */
  lemma RowKeyIsInjective(a: Row, b: Row)
    requires Clean(a) && Clean(b) && RowKey(a) == RowKey(b)
    ensures a.sourceId == b.sourceId && a.ordinal == b.ordinal
    ensures a.database == b.database && a.table == b.table && a.rowId == b.rowId
  {
    hide UnitLess, NatText;
    var a3, b3 := a.table + [NUL] + a.rowId, b.table + [NUL] + b.rowId;
    var a2, b2 := a.database + [NUL] + a3, b.database + [NUL] + b3;
    var a1, b1 := NatText(a.ordinal) + [NUL] + a2, NatText(b.ordinal) + [NUL] + b2;
    SplitAtNul(a.sourceId, b.sourceId, a1, b1);
    DigitsAreNulFree(a.ordinal);
    DigitsAreNulFree(b.ordinal);
    SplitAtNul(NatText(a.ordinal), NatText(b.ordinal), a2, b2);
    NatRoundTrip(a.ordinal);
    NatRoundTrip(b.ordinal);
    SplitAtNul(a.database, b.database, a3, b3);
    SplitAtNul(a.table, b.table, a.rowId, b.rowId);
  }

  lemma {:induction false} JoinedOrder(a: string, b: string, x: string, y: string)
    requires NulFree(a) && NulFree(b)
    ensures TextLess(a + [NUL] + x, b + [NUL] + y) <==> TextLess(a, b) || (a == b && TextLess(x, y))
  {
    var s, t := a + [NUL] + x, b + [NUL] + y;
    if a == [] && b == [] {
      assert s[1..] == x && t[1..] == y;
    } else if a != [] && b != [] {
      assert s[1..] == a[1..] + [NUL] + x && t[1..] == b[1..] + [NUL] + y;
      assert a == [a[0]] + a[1..] && b == [b[0]] + b[1..];
      JoinedOrder(a[1..], b[1..], x, y);
    } else {
      assert a != [] ==> a[0] in a;
      assert b != [] ==> b[0] in b;
    }
  }

  lemma {:induction false} UnitTextJoins(a: string, b: string)
    ensures UnitText(a + b) == UnitText(a) + UnitText(b)
  {
    hide UnitsOf;
    if a == "" {
      assert a + b == b;
    } else {
      assert (a + b)[1..] == a[1..] + b;
      UnitTextJoins(a[1..], b);
    }
  }

  lemma {:induction false} UnitsAreNulFree(s: string)
    requires NulFree(s)
    ensures NulFree(UnitText(s))
  {
    if s != "" {
      assert s[0] in s;
      assert forall c :: c in s[1..] ==> c in s;
      UnitsAreNulFree(s[1..]);
    }
  }

  lemma JoinedUnits(a: string, b: string, x: string, y: string)
    requires NulFree(a) && NulFree(b)
    ensures UnitLess(a + [NUL] + x, b + [NUL] + y) <==> UnitLess(a, b) || (a == b && UnitLess(x, y))
  {
    hide TextLess, UnitsOf;
    UnitTextJoins(a + [NUL], x);
    UnitTextJoins(b + [NUL], y);
    UnitTextJoins(a, [NUL]);
    UnitTextJoins(b, [NUL]);
    UnitsSay(NUL);
    assert UnitText([NUL]) == UnitsOf(NUL) + UnitText("") == [NUL];
    UnitsAreNulFree(a);
    UnitsAreNulFree(b);
    JoinedOrder(UnitText(a), UnitText(b), UnitText(x), UnitText(y));
    if UnitText(a) == UnitText(b) {
      UnitTextIsInjective(a, b);
    }
  }

  predicate OrdinalLess(a: nat, b: nat) { UnitLess(NatText(a), NatText(b)) }

  /** Rows are ordered by Source, then by the digits of the ordinal, database, table and row id. */
  lemma RowOrderIs(a: Row, b: Row)
    requires Clean(a) && Clean(b)
    ensures RowLess(a, b) <==>
      UnitLess(a.sourceId, b.sourceId) || (a.sourceId == b.sourceId && RestLess(a, b))
  {
    hide UnitLess, NatText, NulFree;
    var a3, b3 := a.table + [NUL] + a.rowId, b.table + [NUL] + b.rowId;
    var a2, b2 := a.database + [NUL] + a3, b.database + [NUL] + b3;
    var a1, b1 := NatText(a.ordinal) + [NUL] + a2, NatText(b.ordinal) + [NUL] + b2;
    assert RowKey(a) == a.sourceId + [NUL] + a1 && RowKey(b) == b.sourceId + [NUL] + b1;
    JoinedUnits(a.sourceId, b.sourceId, a1, b1);
    DigitsAreNulFree(a.ordinal);
    DigitsAreNulFree(b.ordinal);
    JoinedUnits(NatText(a.ordinal), NatText(b.ordinal), a2, b2);
    NatRoundTrip(a.ordinal);
    NatRoundTrip(b.ordinal);
    JoinedUnits(a.database, b.database, a3, b3);
    JoinedUnits(a.table, b.table, a.rowId, b.rowId);
    UnitIrreflexive(a.database);
  }

  predicate RestLess(a: Row, b: Row) {
    OrdinalLess(a.ordinal, b.ordinal) || (a.ordinal == b.ordinal && TableLess(a, b))
  }

  predicate TableLess(a: Row, b: Row) {
    if a.database != b.database then UnitLess(a.database, b.database)
    else UnitLess(a.table, b.table) || (a.table == b.table && UnitLess(a.rowId, b.rowId))
  }

  // What a group holds, as a function of the evidence alone.

  function Keys(evidence: seq<Evidence>): set<string> {
    set e | e in evidence :: e.key
  }

  function Bucket(evidence: seq<Evidence>, key: string): seq<Evidence> {
    if evidence == [] then []
    else
      var n := |evidence| - 1;
      Bucket(evidence[..n], key) + if evidence[n].key == key then [evidence[n]] else []
  }

  function Rows(bucket: seq<Evidence>): set<Row> {
    set e | e in bucket :: e.row
  }

  function Raws(bucket: seq<Evidence>): set<string> {
    set e | e in bucket :: e.raw
  }

  function Bases(bucket: seq<Evidence>): set<string> {
    set e | e in bucket :: e.basis
  }

  function CountRaw(bucket: seq<Evidence>, raw: string): nat {
    if bucket == [] then 0
    else
      var n := |bucket| - 1;
      CountRaw(bucket[..n], raw) + if bucket[n].raw == raw then 1 else 0
  }

  /** The spelling used most often; of several, the least. */
  predicate IsDisplay(bucket: seq<Evidence>, display: string) {
    && display in Raws(bucket)
    && forall raw :: raw in Raws(bucket) && raw != display ==>
         CountRaw(bucket, raw) < CountRaw(bucket, display)
         || (CountRaw(bucket, raw) == CountRaw(bucket, display) && UnitLess(display, raw))
  }

  lemma DisplayIsUnique(bucket: seq<Evidence>, x: string, y: string)
    requires IsDisplay(bucket, x) && IsDisplay(bucket, y)
    ensures x == y
  {
    if x != y && UnitLess(x, y) && UnitLess(y, x) {
      UnitTransitive(x, y, x);
      UnitIrreflexive(x);
    }
  }

  /** The first of the commonest among texts in ascending order. */
  function Commonest(bucket: seq<Evidence>, texts: seq<string>): (display: string)
    requires texts != []
    ensures display in texts
  {
    var n := |texts| - 1;
    if n == 0 then texts[0]
    else
      var best := Commonest(bucket, texts[..n]);
      if CountRaw(bucket, texts[n]) > CountRaw(bucket, best) then texts[n] else best
  }

  lemma {:induction false} CommonestIsFirst(bucket: seq<Evidence>, texts: seq<string>)
    requires texts != [] && Ascending(UnitLess, texts)
    ensures var best := Commonest(bucket, texts);
      forall t :: t in texts && t != best ==>
        CountRaw(bucket, t) < CountRaw(bucket, best) || (CountRaw(bucket, t) == CountRaw(bucket, best) && UnitLess(best, t))
  {
    hide CountRaw, UnitLess;
    var n := |texts| - 1;
    if n > 0 {
      CommonestIsFirst(bucket, texts[..n]);
      var before := Commonest(bucket, texts[..n]);
      var i :| 0 <= i < n && texts[i] == before;
      assert UnitLess(texts[i], texts[n]);
      assert forall t :: t in texts ==> t in texts[..n] || t == texts[n];
    }
  }

  ghost function Display(bucket: seq<Evidence>): (display: string)
    requires bucket != []
    ensures IsDisplay(bucket, display)
  {
    UnitOrderIsTotal(Raws(bucket));
    var texts := Listed(UnitLess, Raws(bucket));
    assert bucket[0].raw in Members(texts);
    CommonestIsFirst(bucket, texts);
    assert forall raw :: raw in Raws(bucket) <==> raw in Members(texts);
    Commonest(bucket, texts)
  }

  lemma RowsAreOrdered(bucket: seq<Evidence>)
    requires Filed(bucket)
    ensures StrictOrder(RowLess) && TotalOn(RowLess, Rows(bucket))
  {
    hide RowKey, UnitLess;
    UnitOrderIsTotal({});
    forall a, b | a in Rows(bucket) && b in Rows(bucket) && a != b ensures RowLess(a, b) || RowLess(b, a) {
      if RowKey(a) == RowKey(b) {
        RowKeyIsInjective(a, b);
      } else {
        UnitComparable(RowKey(a), RowKey(b));
      }
    }
    forall a, b, c | RowLess(a, b) && RowLess(b, c) ensures RowLess(a, c) {
      UnitTransitive(RowKey(a), RowKey(b), RowKey(c));
    }
    forall a ensures !RowLess(a, a) {
      UnitIrreflexive(RowKey(a));
    }
  }

  ghost function GroupOf(key: string, bucket: seq<Evidence>): (g: Group)
    requires Filed(bucket) && bucket != []
    ensures g.key == key && g.SupportingCount() == |Rows(bucket)|
  {
    RowsAreOrdered(bucket);
    UnitOrderIsTotal(Bases(bucket));
    Group(key, Display(bucket), Listed(UnitLess, Bases(bucket)), Listed(RowLess, Rows(bucket)))
  }

  lemma {:induction false} BucketMembers(evidence: seq<Evidence>, key: string)
    ensures forall e :: e in Bucket(evidence, key) <==> e in evidence && e.key == key
  {
    if evidence != [] {
      var n := |evidence| - 1;
      BucketMembers(evidence[..n], key);
      assert forall e :: e in evidence <==> e in evidence[..n] || e == evidence[n];
    }
  }

  lemma BucketIsFiled(evidence: seq<Evidence>, key: string)
    requires Filed(evidence)
    ensures Filed(Bucket(evidence, key))
    ensures key in Keys(evidence) ==> Bucket(evidence, key) != []
  {
    hide Bucket;
    BucketMembers(evidence, key);
    if key in Keys(evidence) {
      var e :| e in evidence && e.key == key;
      assert e in Bucket(evidence, key);
    }
  }

  ghost function KeyGroup(evidence: seq<Evidence>, key: string): (g: Group)
    requires Filed(evidence) && key in Keys(evidence)
    ensures g.key == key
  {
    BucketIsFiled(evidence, key);
    GroupOf(key, Bucket(evidence, key))
  }

  ghost function Groups(evidence: seq<Evidence>): set<Group>
    requires Filed(evidence)
  {
    set k | k in Keys(evidence) :: KeyGroup(evidence, k)
  }

  /** More supporting rows first, then the lesser key. */
  predicate Outranks(a: Group, b: Group) {
    if a.SupportingCount() != b.SupportingCount() then a.SupportingCount() > b.SupportingCount()
    else UnitLess(a.key, b.key)
  }

  lemma OutranksIsStrict()
    ensures StrictOrder(Outranks)
  {
    forall a: Group, b: Group, c: Group | Outranks(a, b) && Outranks(b, c) ensures Outranks(a, c) {
      if a.SupportingCount() == c.SupportingCount() {
        UnitTransitive(a.key, b.key, c.key);
      }
    }
    forall a: Group ensures !Outranks(a, a) {
      UnitIrreflexive(a.key);
    }
  }

  predicate OneGroupPerKey(groups: set<Group>) {
    forall a, b :: a in groups && b in groups && a.key == b.key ==> a == b
  }

  lemma OutranksIsTotal(groups: set<Group>)
    requires OneGroupPerKey(groups)
    ensures StrictOrder(Outranks) && TotalOn(Outranks, groups)
  {
    OutranksIsStrict();
    forall a, b | a in groups && b in groups && a != b ensures Outranks(a, b) || Outranks(b, a) {
      UnitComparable(a.key, b.key);
    }
  }

  ghost function AllRanked(evidence: seq<Evidence>): (groups: seq<Group>)
    requires Filed(evidence)
    ensures Ascending(Outranks, groups) && Members(groups) == Groups(evidence) && |groups| == |Groups(evidence)|
  {
    OutranksIsTotal(Groups(evidence));
    Listed(Outranks, Groups(evidence))
  }

  function Least(a: nat, b: nat): nat { if a < b then a else b }

  ghost function Ranked(evidence: seq<Evidence>): seq<Group>
    requires Filed(evidence)
  {
    AllRanked(evidence)[..Least(MAX_CANDIDATES_PER_KIND, |AllRanked(evidence)|)]
  }

  // The loops of the original against that function.

  /** The maps' iteration order is left open: none of it shows in the result. */
  method ChooseDisplay(bucket: seq<Evidence>, rawCounts: map<string, nat>) returns (best: string)
    requires rawCounts.Keys == Raws(bucket) && bucket != []
    requires forall raw :: raw in rawCounts ==> rawCounts[raw] == CountRaw(bucket, raw)
    ensures IsDisplay(bucket, best)
  {
    hide CountRaw, UnitLess;
    best := "";
    var bestCount: int := -1;
    var left := rawCounts.Keys;
    assert bucket[0].raw in Raws(bucket);
    while left != {}
      invariant left <= rawCounts.Keys
      invariant left == rawCounts.Keys <==> bestCount == -1
      invariant bestCount != -1 ==> best in rawCounts && best !in left && bestCount == rawCounts[best]
      invariant forall raw :: raw in rawCounts && raw !in left && raw != best ==>
                  rawCounts[raw] < bestCount || (rawCounts[raw] == bestCount && UnitLess(best, raw))
      decreases left
    {
      var raw :| raw in left;
      var count := rawCounts[raw];
      if bestCount != -1 {
        UnitComparable(raw, best);
      }
      if count > bestCount || (count == bestCount && UnitLess(raw, best)) {
        BetterStill(raw, best);
        best, bestCount := raw, count;
      }
      left := left - {raw};
    }
  }

  lemma BetterStill(raw: string, best: string)
    ensures forall other :: UnitLess(raw, best) && UnitLess(best, other) ==> UnitLess(raw, other)
  {
    forall other | UnitLess(raw, best) && UnitLess(best, other) ensures UnitLess(raw, other) {
      UnitTransitive(raw, best, other);
    }
  }

  method BuildGroup(key: string, bucket: seq<Evidence>) returns (g: Group)
    requires Filed(bucket) && bucket != []
    ensures g == GroupOf(key, bucket)
  {
    hide RowKey, UnitLess, Filed, IsDisplay, RowLess, Keyed, CountRaw;
    var rowsByKey: map<string, Row> := map[];
    var rawCounts: map<string, nat> := map[];
    var bases: set<string> := {};
    NothingKeyed();
    for i := 0 to |bucket|
      invariant Keyed(bucket[..i], rowsByKey)
      invariant rawCounts.Keys == Raws(bucket[..i])
      invariant forall raw :: raw in rawCounts ==> rawCounts[raw] == CountRaw(bucket[..i], raw)
      invariant bases == Bases(bucket[..i])
    {
      var item := bucket[i];
      assert bucket[..i + 1] == bucket[..i] + [item];
      CountNext(bucket[..i], item);
      KeyedNext(bucket, i, rowsByKey);
      rowsByKey := rowsByKey[RowKey(item.row) := item.row];
      rawCounts := rawCounts[item.raw := (if item.raw in rawCounts then rawCounts[item.raw] else 0) + 1];
      bases := bases + {item.basis};
    }
    assert bucket[..|bucket|] == bucket;
    var rows := SortRows(bucket, rowsByKey);
    var display := ChooseDisplay(bucket, rawCounts);
    UnitOrderIsTotal(Bases(bucket));
    var sortedBases := SortedSet(UnitLess, bases);
    RowsAreOrdered(bucket);
    AscendingUnique(RowLess, rows, Listed(RowLess, Rows(bucket)));
    AscendingUnique(UnitLess, sortedBases, Listed(UnitLess, Bases(bucket)));
    DisplayIsUnique(bucket, display, Display(bucket));
    g := Group(key, display, sortedBases, rows);
  }

  /** The row map holds exactly the rows, each under its key. */
  ghost predicate Keyed(bucket: seq<Evidence>, rowsByKey: map<string, Row>) {
    && rowsByKey.Values == Rows(bucket)
    && forall k :: k in rowsByKey ==> RowKey(rowsByKey[k]) == k
  }

  lemma NothingKeyed()
    ensures Keyed([], map[])
  {
  }

  lemma CountNext(bucket: seq<Evidence>, item: Evidence)
    ensures forall raw :: CountRaw(bucket + [item], raw) == CountRaw(bucket, raw) + if item.raw == raw then 1 else 0
    ensures item.raw !in Raws(bucket) ==> CountRaw(bucket, item.raw) == 0
  {
    assert (bucket + [item])[..|bucket|] == bucket;
    if item.raw !in Raws(bucket) {
      CountNone(bucket, item.raw);
    }
  }

  lemma {:induction false} CountNone(bucket: seq<Evidence>, raw: string)
    requires raw !in Raws(bucket)
    ensures CountRaw(bucket, raw) == 0
  {
    if bucket != [] {
      var n := |bucket| - 1;
      assert bucket[n].raw in Raws(bucket);
      assert Raws(bucket[..n]) <= Raws(bucket);
      CountNone(bucket[..n], raw);
    }
  }

  lemma KeyedNext(bucket: seq<Evidence>, i: nat, rowsByKey: map<string, Row>)
    requires i < |bucket| && Filed(bucket) && Keyed(bucket[..i], rowsByKey)
    ensures Keyed(bucket[..i + 1], rowsByKey[RowKey(bucket[i].row) := bucket[i].row])
  {
    hide RowKey;
    var item := bucket[i];
    var key := RowKey(item.row);
    var next := rowsByKey[key := item.row];
    if key in rowsByKey {
      assert rowsByKey[key] in rowsByKey.Values;
      var d :| d in bucket[..i] && d.row == rowsByKey[key];
      assert d in bucket && item in bucket;
      RowKeyIsInjective(d.row, item.row);
    }
    assert bucket[..i + 1] == bucket[..i] + [item];
    forall row ensures row in next.Values <==> row in Rows(bucket[..i + 1]) {
      assert item.row == next[key];
      if row in rowsByKey.Values {
        var k :| k in rowsByKey && rowsByKey[k] == row;
        assert next[k] == row;
      }
      if row in next.Values {
        var k :| k in next && next[k] == row;
        assert k != key ==> rowsByKey[k] == row;
      }
    }
  }

  method SortRows(bucket: seq<Evidence>, rowsByKey: map<string, Row>) returns (rows: seq<Row>)
    requires Keyed(bucket, rowsByKey)
    ensures Ascending(RowLess, rows) && Members(rows) == Rows(bucket)
  {
    hide RowKey, UnitLess;
    UnitOrderIsTotal(rowsByKey.Keys);
    var keys := SortedSet(UnitLess, rowsByKey.Keys);
    assert forall k :: k in keys ==> k in Members(keys);
    rows := seq(|keys|, i requires 0 <= i < |keys| => rowsByKey[keys[i]]);
    forall row ensures row in Members(rows) <==> row in Rows(bucket) {
      if row in rowsByKey.Values {
        var k :| k in rowsByKey && rowsByKey[k] == row;
        assert k in Members(keys);
        var i :| 0 <= i < |keys| && keys[i] == k;
        assert rows[i] == row;
      }
    }
  }

  /** Every kind of evidence in its bucket. */
  ghost predicate Bucketed(evidence: seq<Evidence>, byKey: map<string, seq<Evidence>>) {
    byKey.Keys == Keys(evidence) && forall k :: k in byKey ==> byKey[k] == Bucket(evidence, k)
  }

  method CollectBuckets(evidence: seq<Evidence>) returns (byKey: map<string, seq<Evidence>>)
    ensures Bucketed(evidence, byKey)
  {
    byKey := map[];
    for i := 0 to |evidence|
      invariant Bucketed(evidence[..i], byKey)
    {
      var item := evidence[i];
      assert evidence[..i + 1] == evidence[..i] + [item];
      BucketNext(evidence[..i], item);
      byKey := byKey[item.key := (if item.key in byKey then byKey[item.key] else []) + [item]];
    }
    assert evidence[..|evidence|] == evidence;
  }

  ghost function GroupsFor(evidence: seq<Evidence>, keys: set<string>): set<Group>
    requires Filed(evidence) && keys <= Keys(evidence)
  {
    set k | k in keys :: KeyGroup(evidence, k)
  }

  lemma GroupsForNext(evidence: seq<Evidence>, keys: set<string>, key: string)
    requires Filed(evidence) && keys <= Keys(evidence) && key in Keys(evidence) && key !in keys
    ensures GroupsFor(evidence, keys + {key}) == GroupsFor(evidence, keys) + {KeyGroup(evidence, key)}
    ensures KeyGroup(evidence, key) !in GroupsFor(evidence, keys)
  {
    hide KeyGroup, Filed, Keys;
  }

  method BuildGroups(evidence: seq<Evidence>) returns (groups: seq<Group>)
    requires Filed(evidence)
    ensures groups == Ranked(evidence)
  {
    hide RowKey, UnitLess, Filed, GroupOf, Outranks, Sort, Keys, GroupsFor, Bucket, OneGroupPerKey;
    var byKey := CollectBuckets(evidence);
    groups := [];
    var left := byKey.Keys;
    NoGroups(evidence);
    while left != {}
      invariant left <= Keys(evidence)
      invariant Members(groups) == GroupsFor(evidence, Keys(evidence) - left)
      invariant Distinct(groups)
      decreases left
    {
      var key :| key in left;
      BucketIsFiled(evidence, key);
      var g := BuildGroup(key, byKey[key]);
      GroupsForNext(evidence, Keys(evidence) - left, key);
      assert g !in Members(groups);
      assert Members(groups + [g]) == Members(groups) + {g};
      assert Keys(evidence) - left + {key} == Keys(evidence) - (left - {key});
      groups := groups + [g];
      left := left - {key};
    }
    assert Keys(evidence) - {} == Keys(evidence);
    AllGroups(evidence);
    OutranksIsTotal(Groups(evidence));
    SortIsListed(Outranks, groups);
    var sorted := Sort(Outranks, groups);
    groups := sorted[..Least(MAX_CANDIDATES_PER_KIND, |sorted|)];
  }

  lemma NoGroups(evidence: seq<Evidence>)
    requires Filed(evidence)
    ensures Members([]) == GroupsFor(evidence, Keys(evidence) - Keys(evidence))
  {
  }

  lemma AllGroups(evidence: seq<Evidence>)
    requires Filed(evidence)
    ensures GroupsFor(evidence, Keys(evidence)) == Groups(evidence)
    ensures OneGroupPerKey(Groups(evidence))
  {
    hide KeyGroup, Filed, Keys;
  }

  lemma {:induction false} NoBucket(evidence: seq<Evidence>, key: string)
    ensures key !in Keys(evidence) ==> Bucket(evidence, key) == []
  {
    if evidence != [] {
      var n := |evidence| - 1;
      assert evidence[n].key in Keys(evidence);
      assert Keys(evidence[..n]) <= Keys(evidence);
      NoBucket(evidence[..n], key);
    }
  }

  lemma BucketNext(evidence: seq<Evidence>, item: Evidence)
    ensures forall k :: Bucket(evidence + [item], k) == Bucket(evidence, k) + if item.key == k then [item] else []
    ensures item.key !in Keys(evidence) ==> Bucket(evidence, item.key) == []
  {
    assert (evidence + [item])[..|evidence|] == evidence;
    NoBucket(evidence, item.key);
  }

  /** The primary row and at most `MAX_PROVENANCE_ROWS - 1` more. */
  function ToCandidate(kind: string, g: Group, rank: nat): Candidate
    requires g.rows != []
  {
    var rest := g.rows[1..];
    Candidate(kind, rank, g.SupportingCount(), g.rows[0], rest[..Least(MAX_PROVENANCE_ROWS - 1, |rest|)],
              g.display, g.key, g.bases)
  }

  method NominateKind(kind: string, evidence: seq<Evidence>) returns (candidates: seq<Candidate>)
    requires Filed(evidence)
    ensures candidates == Nominated(kind, evidence)
  {
    hide Filed, Ranked, Groups, ToCandidate, UnitLess, RowKey;
    var groups := BuildGroups(evidence);
    candidates := [];
    for i := 0 to |groups|
      invariant |candidates| == i
      invariant forall j :: 0 <= j < i ==> candidates[j] == CandidateAt(kind, evidence, j)
    {
      RankedHaveRows(evidence, i);
      candidates := candidates + [ToCandidate(kind, groups[i], i + 1)];
    }
    assert candidates == Nominated(kind, evidence);
  }

  /** A group always has a row, so the refusal of an empty one is never reached. */
  lemma RankedHaveRows(evidence: seq<Evidence>, i: nat)
    requires Filed(evidence) && i < |Ranked(evidence)|
    ensures Ranked(evidence)[i] in Groups(evidence) && Ranked(evidence)[i].rows != []
  {
    hide UnitLess, RowKey, GroupOf, Filed, Bucket;
    var g := Ranked(evidence)[i];
    assert g == AllRanked(evidence)[i] && g in Members(AllRanked(evidence));
    var k :| k in Keys(evidence) && KeyGroup(evidence, k) == g;
    BucketIsFiled(evidence, k);
    SomeRow(Bucket(evidence, k));
  }

  lemma SomeRow(bucket: seq<Evidence>)
    requires bucket != []
    ensures |Rows(bucket)| > 0
  {
    assert bucket[0].row in Rows(bucket);
  }

  ghost function CandidateAt(kind: string, evidence: seq<Evidence>, i: nat): Candidate
    requires Filed(evidence) && i < |Ranked(evidence)|
  {
    RankedHaveRows(evidence, i);
    ToCandidate(kind, Ranked(evidence)[i], i + 1)
  }

  ghost function Nominated(kind: string, evidence: seq<Evidence>): (candidates: seq<Candidate>)
    requires Filed(evidence)
    ensures |candidates| == |Ranked(evidence)|
  {
    seq(|Ranked(evidence)|, i requires 0 <= i < |Ranked(evidence)| => CandidateAt(kind, evidence, i))
  }

  // What the Candidates of a kind promise.

  /** The distinct rows that support a normalized value. */
  function Support(evidence: seq<Evidence>, key: string): set<Row> {
    set e | e in evidence && e.key == key :: e.row
  }

  predicate Outscores(evidence: seq<Evidence>, a: string, b: string) {
    if |Support(evidence, a)| != |Support(evidence, b)| then |Support(evidence, a)| > |Support(evidence, b)|
    else UnitLess(a, b)
  }

  /** Ranks are dense, the order is strict, and no value left out outranks one kept. */
  predicate WellRanked(evidence: seq<Evidence>, cs: seq<Candidate>) {
    && |cs| == (if |Keys(evidence)| < 100 then |Keys(evidence)| else 100)
    && (forall i :: 0 <= i < |cs| ==> cs[i].rank == i + 1 && cs[i].normalized in Keys(evidence))
    && (forall i, j :: 0 <= i < j < |cs| ==> Outscores(evidence, cs[i].normalized, cs[j].normalized))
    && (forall i, k :: 0 <= i < |cs| && k in Keys(evidence) && (forall j :: 0 <= j < |cs| ==> cs[j].normalized != k) ==>
          Outscores(evidence, cs[i].normalized, k))
  }

  /** The count is of all supporting rows; the rows carried are the least of them, up to the bound. */
  predicate WellSupported(evidence: seq<Evidence>, c: Candidate) {
    var rows := [c.primary] + c.supporting;
    && c.count == |Support(evidence, c.normalized)|
    && |rows| == (if c.count < 200 then c.count else 200)
    && Ascending(RowLess, rows)
    && (forall r :: r in rows ==> r in Support(evidence, c.normalized))
    && (forall r, s :: r in rows && s in Support(evidence, c.normalized) && s !in rows ==> RowLess(r, s))
  }

  lemma KeyGroupFacts(evidence: seq<Evidence>, key: string)
    requires Filed(evidence) && key in Keys(evidence)
    ensures var g := KeyGroup(evidence, key);
      && g.SupportingCount() == |Support(evidence, key)|
      && Ascending(RowLess, g.rows) && Members(g.rows) == Support(evidence, key)
      && IsDisplay(Bucket(evidence, key), g.display)
      && Ascending(UnitLess, g.bases) && Members(g.bases) == Bases(Bucket(evidence, key))
  {
    hide RowKey, UnitLess, Filed, IsDisplay, RowLess;
    BucketIsFiled(evidence, key);
    BucketMembers(evidence, key);
    var bucket := Bucket(evidence, key);
    assert Rows(bucket) == Support(evidence, key);
    RowsAreOrdered(bucket);
  }

  lemma GroupsPerKey(evidence: seq<Evidence>, keys: set<string>)
    requires Filed(evidence) && keys <= Keys(evidence)
    ensures |set k | k in keys :: KeyGroup(evidence, k)| == |keys|
  {
    hide KeyGroup, Filed, Keys;
    if keys != {} {
      var k :| k in keys;
      GroupsPerKey(evidence, keys - {k});
      assert (set j | j in keys :: KeyGroup(evidence, j))
        == (set j | j in keys - {k} :: KeyGroup(evidence, j)) + {KeyGroup(evidence, k)};
    }
  }

  lemma KeyOfRanked(evidence: seq<Evidence>, i: nat)
    requires Filed(evidence) && i < |AllRanked(evidence)|
    ensures var g := AllRanked(evidence)[i]; g.key in Keys(evidence) && g == KeyGroup(evidence, g.key)
  {
    hide KeyGroup, Filed, Keys, Listed;
    assert AllRanked(evidence)[i] in Members(AllRanked(evidence));
  }

  lemma OutranksIsOutscores(evidence: seq<Evidence>, a: string, b: string)
    requires Filed(evidence) && a in Keys(evidence) && b in Keys(evidence)
    ensures Outranks(KeyGroup(evidence, a), KeyGroup(evidence, b)) <==> Outscores(evidence, a, b)
  {
    hide KeyGroup, Filed, Keys, Bucket, UnitLess;
    KeyGroupFacts(evidence, a);
    KeyGroupFacts(evidence, b);
  }

  lemma RankedAre(evidence: seq<Evidence>)
    requires Filed(evidence)
    ensures var all := AllRanked(evidence);
      && |all| == |Keys(evidence)|
      && (forall i :: 0 <= i < |all| ==> all[i].key in Keys(evidence) && all[i] == KeyGroup(evidence, all[i].key))
      && (forall i, j :: 0 <= i < j < |all| ==> Outscores(evidence, all[i].key, all[j].key))
      && (forall k :: k in Keys(evidence) ==> exists j :: 0 <= j < |all| && all[j].key == k)
  {
    hide KeyGroup, Filed, Keys, Outranks, Outscores, AllRanked;
    var all := AllRanked(evidence);
    assert Groups(evidence) == (set k | k in Keys(evidence) :: KeyGroup(evidence, k));
    GroupsPerKey(evidence, Keys(evidence));
    forall i | 0 <= i < |all| ensures all[i].key in Keys(evidence) && all[i] == KeyGroup(evidence, all[i].key) {
      KeyOfRanked(evidence, i);
    }
    forall i, j | 0 <= i < j < |all| ensures Outscores(evidence, all[i].key, all[j].key) {
      OutranksIsOutscores(evidence, all[i].key, all[j].key);
    }
    forall k | k in Keys(evidence) ensures exists j :: 0 <= j < |all| && all[j].key == k {
      assert KeyGroup(evidence, k) in Members(all);
      var j :| 0 <= j < |all| && all[j] == KeyGroup(evidence, k);
    }
  }

  lemma NominatedAre(kind: string, evidence: seq<Evidence>)
    requires Filed(evidence)
    ensures var cs, all := Nominated(kind, evidence), AllRanked(evidence);
      && |cs| == Least(MAX_CANDIDATES_PER_KIND, |all|)
      && forall i :: 0 <= i < |cs| ==> cs[i].rank == i + 1 && cs[i].normalized == all[i].key
  {
    hide KeyGroup, Filed, Keys, AllRanked;
    var cs := Nominated(kind, evidence);
    assert forall i :: 0 <= i < |cs| ==> cs[i] == CandidateAt(kind, evidence, i);
  }

  lemma CandidatesAreWellRanked(kind: string, evidence: seq<Evidence>)
    requires Filed(evidence)
    ensures WellRanked(evidence, Nominated(kind, evidence))
  {
    hide KeyGroup, Filed, Keys, Outscores, AllRanked, Nominated;
    var cs, all := Nominated(kind, evidence), AllRanked(evidence);
    RankedAre(evidence);
    NominatedAre(kind, evidence);
    forall i, k | 0 <= i < |cs| && k in Keys(evidence) && (forall j :: 0 <= j < |cs| ==> cs[j].normalized != k)
      ensures Outscores(evidence, cs[i].normalized, k)
    {
      var j :| 0 <= j < |all| && all[j].key == k;
      assert j >= |cs|;
    }
  }

  lemma CandidateIsWellSupported(kind: string, evidence: seq<Evidence>, i: nat)
    requires Filed(evidence) && i < |Nominated(kind, evidence)|
    ensures WellSupported(evidence, Nominated(kind, evidence)[i])
    ensures IsDisplay(Bucket(evidence, Nominated(kind, evidence)[i].normalized), Nominated(kind, evidence)[i].value)
    ensures var c := Nominated(kind, evidence)[i];
      && c.kind == kind && Ascending(UnitLess, c.bases)
      && forall basis :: basis in c.bases <==> exists e :: e in evidence && e.key == c.normalized && e.basis == basis
  {
    hide KeyGroup, Filed, Keys, RowLess, IsDisplay, AllRanked, Bucket, WellSupported, Support;
    var c := Nominated(kind, evidence)[i];
    assert c == CandidateAt(kind, evidence, i);
    KeyOfRanked(evidence, i);
    var g := AllRanked(evidence)[i];
    KeyGroupFacts(evidence, g.key);
    RankedHaveRows(evidence, i);
    FirstRows(kind, evidence, g, i + 1);
    BucketMembers(evidence, g.key);
    assert forall basis :: basis in c.bases <==> basis in Members(g.bases);
  }

  /** The rows carried are the first of the group's, which are in order. */
  lemma FirstRows(kind: string, evidence: seq<Evidence>, g: Group, rank: nat)
    requires g.rows != [] && g.SupportingCount() == |Support(evidence, g.key)|
    requires Ascending(RowLess, g.rows) && Members(g.rows) == Support(evidence, g.key)
    ensures WellSupported(evidence, ToCandidate(kind, g, rank))
  {
    hide RowLess, Support;
    var c, n := ToCandidate(kind, g, rank), Least(MAX_PROVENANCE_ROWS, |g.rows|);
    var rows := [c.primary] + c.supporting;
    assert rows == g.rows[..n];
    assert forall r :: r in rows ==> r in Members(g.rows);
    forall r, s | r in rows && s in Members(g.rows) && s !in rows ensures RowLess(r, s) {
      var x :| 0 <= x < n && g.rows[x] == r;
      var y :| 0 <= y < |g.rows| && g.rows[y] == s;
      assert forall z :: 0 <= z < n ==> rows[z] == g.rows[z] && rows[z] in rows;
    }
  }

  // The order of the evidence never shows.

  lemma {:induction false} BucketMultiset(evidence: seq<Evidence>, key: string, e: Evidence)
    ensures multiset(Bucket(evidence, key))[e] == if e.key == key then multiset(evidence)[e] else 0
  {
    if evidence != [] {
      var n := |evidence| - 1;
      BucketMultiset(evidence[..n], key, e);
      assert evidence == evidence[..n] + [evidence[n]];
    }
  }

  lemma {:induction false} CountRemove(bucket: seq<Evidence>, i: nat, raw: string)
    requires i < |bucket|
    ensures CountRaw(bucket, raw) == CountRaw(bucket[..i] + bucket[i + 1..], raw) + if bucket[i].raw == raw then 1 else 0
  {
    var n := |bucket| - 1;
    if i == n {
      assert bucket[..i] + bucket[i + 1..] == bucket[..n];
    } else {
      var less := bucket[..i] + bucket[i + 1..];
      assert less[..n - 1] == bucket[..n][..i] + bucket[..n][i + 1..];
      CountRemove(bucket[..n], i, raw);
    }
  }

  lemma {:induction false} CountPermutation(a: seq<Evidence>, b: seq<Evidence>, raw: string)
    requires multiset(a) == multiset(b)
    ensures CountRaw(a, raw) == CountRaw(b, raw)
    decreases |a|
  {
    assert |multiset(a)| == |a| && |multiset(b)| == |b|;
    if a != [] {
      var n := |a| - 1;
      var i := WithoutLast(a, b);
      var rest := b[..i] + b[i + 1..];
      CountPermutation(a[..n], rest, raw);
      CountRemove(b, i, raw);
    }
  }

  lemma SameMembers(a: seq<Evidence>, b: seq<Evidence>)
    requires multiset(a) == multiset(b)
    ensures forall e :: e in a <==> e in b
  {
    forall e ensures e in a <==> e in b {
      assert e in a <==> e in multiset(a);
      assert e in b <==> e in multiset(b);
    }
  }

  lemma GroupPermutation(key: string, a: seq<Evidence>, b: seq<Evidence>)
    requires multiset(a) == multiset(b) && Filed(a) && Filed(b) && a != [] && b != []
    ensures GroupOf(key, a) == GroupOf(key, b)
  {
    hide RowKey, UnitLess, Filed, RowLess, CountRaw;
    SameMembers(a, b);
    assert Rows(a) == Rows(b) && Bases(a) == Bases(b) && Raws(a) == Raws(b);
    forall raw ensures CountRaw(a, raw) == CountRaw(b, raw) {
      CountPermutation(a, b, raw);
    }
    assert IsDisplay(b, Display(a));
    DisplayIsUnique(b, Display(a), Display(b));
  }

  lemma KeyGroupPermutation(a: seq<Evidence>, b: seq<Evidence>, key: string)
    requires multiset(a) == multiset(b) && Filed(a) && Filed(b) && key in Keys(a) && key in Keys(b)
    ensures KeyGroup(a, key) == KeyGroup(b, key)
  {
    hide GroupOf, Filed, Bucket;
    BucketIsFiled(a, key);
    BucketIsFiled(b, key);
    forall e ensures multiset(Bucket(a, key))[e] == multiset(Bucket(b, key))[e] {
      BucketMultiset(a, key, e);
      BucketMultiset(b, key, e);
    }
    assert multiset(Bucket(a, key)) == multiset(Bucket(b, key));
    GroupPermutation(key, Bucket(a, key), Bucket(b, key));
  }

  /** The same evidence in any order nominates the same Candidates, ranks and all. */
  lemma NominationIgnoresOrder(kind: string, a: seq<Evidence>, b: seq<Evidence>)
    requires multiset(a) == multiset(b) && Filed(a)
    ensures Filed(b) && Nominated(kind, a) == Nominated(kind, b)
  {
    hide KeyGroup, RowLess, Clean, Listed, Outranks;
    SameMembers(a, b);
    assert Filed(b);
    assert Keys(a) == Keys(b);
    forall k | k in Keys(a) ensures KeyGroup(a, k) == KeyGroup(b, k) {
      KeyGroupPermutation(a, b, k);
    }
    assert Groups(a) == Groups(b);
    assert Ranked(a) == Ranked(b);
    assert forall i :: 0 <= i < |Ranked(a)| ==> CandidateAt(kind, a, i) == CandidateAt(kind, b, i);
  }
}
