/** Favicon Findings: one for each bitmap, one for each icon without a bitmap, every row cited, and what each
    Finding says. */
module Favicons {
  import opened Outcomes
  import opened Orders

  /** A column value as SQLite returns it: an exact integer or anything else. */
  datatype Value = Integer(n: int) | Other

  datatype Bitmap = Bitmap(rowId: Value, iconId: Value)

  datatype Favicon = Favicon(rowId: Value, url: Option<string>)

  datatype Mapping = Mapping(rowId: Value, iconId: Value, pageUrl: Option<string>)

  datatype Pass = Pass(bitmaps: seq<Bitmap>, favicons: seq<Favicon>, mappings: seq<Mapping>)

  datatype Table = FaviconBitmaps | FaviconTable | IconMapping

  datatype Citation = Citation(table: Table, rowId: int)

  datatype Association = Association(pageUrl: Option<string>, rowId: int)

  datatype Row = Row(bitmapId: Option<int>, iconId: Option<int>, record: Option<Favicon>, associations: seq<Association>)

  datatype Finding = Finding(row: Row, primary: Citation, supporting: seq<Citation>, pageUrls: seq<string>, unreadable: nat)

  datatype Error = NotExactInteger(table: Table) | NoCitableRow

  predicate Less(a: int, b: int) { a < b }

  predicate AssociationLess(a: Association, b: Association) { a.rowId < b.rowId }

  // The rows of one Finding.

  /** The favicons row of an id; of several, the last. */
  function RecordOf(favicons: seq<Favicon>, id: int): Option<Favicon> {
    if favicons == [] then None
    else
      var k := |favicons| - 1;
      if favicons[k].rowId == Integer(id) then Some(favicons[k]) else RecordOf(favicons[..k], id)
  }

  function MappedTo(mappings: seq<Mapping>, id: int): seq<Association> {
    if mappings == [] then []
    else
      var k := |mappings| - 1;
      var m := mappings[k];
      MappedTo(mappings[..k], id)
      + if m.iconId == Integer(id) && m.rowId.Integer? then [Association(m.pageUrl, m.rowId.n)] else []
  }

  function Associations(pass: Pass, id: int): seq<Association> {
    Sort(AssociationLess, MappedTo(pass.mappings, id))
  }

  function PageUrls(associations: seq<Association>): (urls: seq<string>)
    ensures |urls| <= |associations|
  {
    if associations == [] then []
    else
      (if associations[0].pageUrl.Some? then [associations[0].pageUrl.value] else []) + PageUrls(associations[1..])
  }

  function MappingCitations(associations: seq<Association>, primary: Citation): seq<Citation> {
    if associations == [] then []
    else
      var k := |associations| - 1;
      var c := Citation(IconMapping, associations[k].rowId);
      MappingCitations(associations[..k], primary) + if c == primary then [] else [c]
  }

  /** The row a Finding stands on: its bitmap, else its favicons row, else its first mapping. */
  function Primary(row: Row): Option<Citation> {
    if row.bitmapId.Some? then Some(Citation(FaviconBitmaps, row.bitmapId.value))
    else if row.record.Some? && row.iconId.Some? then Some(Citation(FaviconTable, row.iconId.value))
    else if row.associations != [] then Some(Citation(IconMapping, row.associations[0].rowId))
    else None
  }

  function FindingOf(row: Row): Option<Finding> {
    var primary := Primary(row);
    if primary.None? then None
    else
      var icon := if row.record.Some? && row.iconId.Some? && !primary.value.table.FaviconTable?
                  then [Citation(FaviconTable, row.iconId.value)] else [];
      Some(Finding(row, primary.value, icon + MappingCitations(row.associations, primary.value),
                   PageUrls(row.associations), |row.associations| - |PageUrls(row.associations)|))
  }

  function IntegerOf(v: Value): Option<int> { if v.Integer? then Some(v.n) else None }

  function BitmapRow(pass: Pass, bitmap: Bitmap): Row
    requires bitmap.rowId.Integer?
  {
    var iconId := IntegerOf(bitmap.iconId);
    Row(Some(bitmap.rowId.n), iconId,
        if iconId.None? then None else RecordOf(pass.favicons, iconId.value),
        if iconId.None? then [] else Associations(pass, iconId.value))
  }

  function IconRow(pass: Pass, id: int): Row {
    Row(None, Some(id), RecordOf(pass.favicons, id), Associations(pass, id))
  }

  // The Findings of one pass.

  predicate ExactFavicons(favicons: seq<Favicon>) { forall f :: f in favicons ==> f.rowId.Integer? }

  predicate ExactMappings(mappings: seq<Mapping>) { forall m :: m in mappings ==> m.rowId.Integer? }

  predicate ExactBitmaps(bitmaps: seq<Bitmap>) { forall b :: b in bitmaps ==> b.rowId.Integer? }

  function BitmapIcons(bitmaps: seq<Bitmap>): set<int> {
    set b | b in bitmaps && b.iconId.Integer? :: b.iconId.n
  }

  function RecordIcons(favicons: seq<Favicon>): set<int> {
    set f | f in favicons && f.rowId.Integer? :: f.rowId.n
  }

  function MappingIcons(mappings: seq<Mapping>): set<int> {
    set m | m in mappings && m.iconId.Integer? :: m.iconId.n
  }

  /** The icons a favicons row or a mapping names and no bitmap covers. */
  function BitmaplessIcons(pass: Pass): set<int> {
    RecordIcons(pass.favicons) + MappingIcons(pass.mappings) - BitmapIcons(pass.bitmaps)
  }

  function BitmapFindings(pass: Pass, bitmaps: seq<Bitmap>): (fs: seq<Finding>)
    requires ExactBitmaps(bitmaps)
    ensures |fs| == |bitmaps|
    ensures forall i :: 0 <= i < |fs| ==>
              bitmaps[i].rowId.Integer? && FindingOf(BitmapRow(pass, bitmaps[i])) == Some(fs[i])
  {
    if bitmaps == [] then []
    else
      var k := |bitmaps| - 1;
      BitmapIsCitable(BitmapRow(pass, bitmaps[k]));
      BitmapFindings(pass, bitmaps[..k]) + [FindingOf(BitmapRow(pass, bitmaps[k])).value]
  }

  function IconFindings(pass: Pass, ids: seq<int>): (fs: seq<Finding>)
    requires ExactMappings(pass.mappings) && forall id :: id in ids ==> id in BitmaplessIcons(pass)
    ensures |fs| == |ids|
    ensures forall i :: 0 <= i < |fs| ==> FindingOf(IconRow(pass, ids[i])) == Some(fs[i])
  {
    if ids == [] then []
    else
      var k := |ids| - 1;
      IconIsCitable(pass, ids[k]);
      IconFindings(pass, ids[..k]) + [FindingOf(IconRow(pass, ids[k])).value]
  }

  ghost function IconList(pass: Pass): (ids: seq<int>)
    ensures Ascending(Less, ids) && Members(ids) == BitmaplessIcons(pass) && |ids| == |BitmaplessIcons(pass)|
    ensures forall id :: id in ids <==> id in BitmaplessIcons(pass)
  {
    var ids := Listed(Less, BitmaplessIcons(pass));
    assert forall id :: id in ids <==> id in Members(ids);
    ids
  }

  predicate Exact(pass: Pass) {
    ExactFavicons(pass.favicons) && ExactMappings(pass.mappings) && ExactBitmaps(pass.bitmaps)
  }

  ghost function Findings(pass: Pass): seq<Finding>
    requires Exact(pass)
  {
    BitmapFindings(pass, pass.bitmaps) + IconFindings(pass, IconList(pass))
  }

  ghost function Built(pass: Pass): Result<seq<Finding>, Error> {
    if !ExactFavicons(pass.favicons) then Err(NotExactInteger(FaviconTable))
    else if !ExactMappings(pass.mappings) then Err(NotExactInteger(IconMapping))
    else if !ExactBitmaps(pass.bitmaps) then Err(NotExactInteger(FaviconBitmaps))
    else Ok(Findings(pass))
  }

  lemma {:induction false} MappedMembers(mappings: seq<Mapping>, id: int)
    ensures forall a :: a in MappedTo(mappings, id) <==>
      exists m :: m in mappings && m.iconId == Integer(id) && m.rowId == Integer(a.rowId) && m.pageUrl == a.pageUrl
  {
    if mappings != [] {
      var k := |mappings| - 1;
      MappedMembers(mappings[..k], id);
      assert mappings == mappings[..k] + [mappings[k]];
    }
  }

  lemma AssociationsAre(pass: Pass, id: int)
    ensures forall a :: a in Associations(pass, id) <==>
      exists m :: m in pass.mappings && m.iconId == Integer(id) && m.rowId == Integer(a.rowId) && m.pageUrl == a.pageUrl
  {
    hide Sort, MappedTo, AssociationLess;
    MappedMembers(pass.mappings, id);
    var mapped, sorted := MappedTo(pass.mappings, id), Associations(pass, id);
    MultisetMembers(sorted, mapped);
    assert forall a :: a in sorted <==> a in Members(sorted);
    assert forall a :: a in mapped <==> a in Members(mapped);
  }

  lemma {:induction false} RecordExists(favicons: seq<Favicon>, id: int)
    ensures RecordOf(favicons, id).Some? <==> id in RecordIcons(favicons)
  {
    if favicons != [] {
      var k := |favicons| - 1;
      RecordExists(favicons[..k], id);
      assert favicons == favicons[..k] + [favicons[k]];
    }
  }

  /** An icon without a bitmap has a favicons row or a mapping, so it can be cited. */
  lemma IconIsCitable(pass: Pass, id: int)
    requires ExactMappings(pass.mappings) && id in BitmaplessIcons(pass)
    ensures FindingOf(IconRow(pass, id)).Some?
  {
    hide RecordOf, Associations, MappingCitations, PageUrls;
    RecordExists(pass.favicons, id);
    AssociationsAre(pass, id);
    if id !in RecordIcons(pass.favicons) {
      var m :| m in pass.mappings && m.iconId == Integer(id);
      assert Association(m.pageUrl, m.rowId.n) in Associations(pass, id);
    }
  }

  // The loops of the original against that function.

  method FaviconProvenance(row: Row) returns (r: Result<(Citation, seq<Citation>), Error>)
    ensures r == if FindingOf(row).None? then Err(NoCitableRow)
                 else Ok((FindingOf(row).value.primary, FindingOf(row).value.supporting))
  {
    hide PageUrls;
    var primary: Citation;
    if row.bitmapId.Some? {
      primary := Citation(FaviconBitmaps, row.bitmapId.value);
    } else if row.record.Some? && row.iconId.Some? {
      primary := Citation(FaviconTable, row.iconId.value);
    } else if row.associations == [] {
      return Err(NoCitableRow);
    } else {
      primary := Citation(IconMapping, row.associations[0].rowId);
    }
    var supportingRows: seq<Citation> := [];
    if row.record.Some? && row.iconId.Some? && !primary.table.FaviconTable? {
      supportingRows := [Citation(FaviconTable, row.iconId.value)];
    }
    ghost var icon := supportingRows;
    for i := 0 to |row.associations|
      invariant supportingRows == icon + MappingCitations(row.associations[..i], primary)
    {
      assert row.associations[..i + 1][..i] == row.associations[..i];
      var association := row.associations[i];
      if !(primary.table.IconMapping? && primary.rowId == association.rowId) {
        supportingRows := supportingRows + [Citation(IconMapping, association.rowId)];
      }
    }
    assert row.associations[..|row.associations|] == row.associations;
    return Ok((primary, supportingRows));
  }

  method BuildFinding(row: Row) returns (r: Result<Finding, Error>)
    ensures r == if FindingOf(row).None? then Err(NoCitableRow) else Ok(FindingOf(row).value)
  {
    hide MappingCitations, PageUrls;
    var cited := FaviconProvenance(row);
    if cited.Err? {
      return Err(cited.error);
    }
    var urls := PageUrls(row.associations);
    return Ok(Finding(row, cited.value.0, cited.value.1, urls, |row.associations| - |urls|));
  }

  /** The favicons rows by id; the first inexact id fails the pass. */
  method FaviconRecords(favicons: seq<Favicon>) returns (r: Result<map<int, Favicon>, Error>)
    ensures ExactFavicons(favicons) ==> r.Ok?
    ensures !ExactFavicons(favicons) ==> r == Err(NotExactInteger(FaviconTable))
    ensures r.Ok? ==> forall id :: RecordOf(favicons, id) == if id in r.value then Some(r.value[id]) else None
  {
    var records: map<int, Favicon> := map[];
    for i := 0 to |favicons|
      invariant ExactFavicons(favicons[..i])
      invariant forall id :: RecordOf(favicons[..i], id) == if id in records then Some(records[id]) else None
    {
      assert favicons[i] in favicons;
      assert favicons[..i + 1][..i] == favicons[..i];
      if !favicons[i].rowId.Integer? {
        return Err(NotExactInteger(FaviconTable));
      }
      records := records[favicons[i].rowId.n := favicons[i]];
    }
    assert favicons[..|favicons|] == favicons;
    return Ok(records);
  }

  ghost predicate Grouped(mappings: seq<Mapping>, grouped: map<int, seq<Association>>) {
    && grouped.Keys == MappingIcons(mappings)
    && forall id :: MappedTo(mappings, id) == if id in grouped then grouped[id] else []
  }

  lemma GroupedNext(mappings: seq<Mapping>, i: nat, grouped: map<int, seq<Association>>)
    requires i < |mappings| && mappings[i].rowId.Integer? && Grouped(mappings[..i], grouped)
    ensures var m := mappings[i];
      Grouped(mappings[..i + 1],
        if m.iconId.Integer?
        then grouped[m.iconId.n :=
               (if m.iconId.n in grouped then grouped[m.iconId.n] else []) + [Association(m.pageUrl, m.rowId.n)]]
        else grouped)
  {
    hide MappedTo, MappingIcons;
    MappedNext(mappings, i);
  }

  lemma MappedNext(mappings: seq<Mapping>, i: nat)
    requires i < |mappings| && mappings[i].rowId.Integer?
    ensures var m := mappings[i];
      && (forall id :: MappedTo(mappings[..i + 1], id) ==
            MappedTo(mappings[..i], id) + if m.iconId == Integer(id) then [Association(m.pageUrl, m.rowId.n)] else [])
      && MappingIcons(mappings[..i + 1]) == MappingIcons(mappings[..i]) + if m.iconId.Integer? then {m.iconId.n} else {}
  {
    assert mappings[..i + 1][..i] == mappings[..i];
    assert mappings[..i + 1] == mappings[..i] + [mappings[i]];
  }

  method IconMappingsByIcon(mappings: seq<Mapping>) returns (r: Result<map<int, seq<Association>>, Error>)
    ensures ExactMappings(mappings) ==> r.Ok?
    ensures !ExactMappings(mappings) ==> r == Err(NotExactInteger(IconMapping))
    ensures r.Ok? ==> r.value.Keys == MappingIcons(mappings)
    ensures r.Ok? ==> forall id :: id in r.value ==> r.value[id] == Sort(AssociationLess, MappedTo(mappings, id))
    ensures r.Ok? ==> forall id :: id !in r.value ==> MappedTo(mappings, id) == []
  {
    hide Sort, MappedTo, MappingIcons;
    var grouped: map<int, seq<Association>> := map[];
    NoneGrouped();
    for i := 0 to |mappings|
      invariant ExactMappings(mappings[..i])
      invariant Grouped(mappings[..i], grouped)
    {
      var mapping := mappings[i];
      assert mapping in mappings;
      if !mapping.rowId.Integer? {
        return Err(NotExactInteger(IconMapping));
      }
      GroupedNext(mappings, i, grouped);
      if mapping.iconId.Integer? {
        var id := mapping.iconId.n;
        grouped := grouped[id := (if id in grouped then grouped[id] else []) + [Association(mapping.pageUrl, mapping.rowId.n)]];
      }
    }
    assert mappings[..|mappings|] == mappings;
    var sorted := SortLists(grouped);
    return Ok(sorted);
  }

  method SortLists(grouped: map<int, seq<Association>>) returns (sorted: map<int, seq<Association>>)
    ensures sorted.Keys == grouped.Keys
    ensures forall id :: id in grouped ==> sorted[id] == Sort(AssociationLess, grouped[id])
  {
    hide Sort;
    sorted := grouped;
    var left := grouped.Keys;
    while left != {}
      invariant left <= grouped.Keys && sorted.Keys == grouped.Keys
      invariant forall id :: id in grouped ==>
                  sorted[id] == if id in left then grouped[id] else Sort(AssociationLess, grouped[id])
      decreases left
    {
      var id := AnyMember(left);
      sorted := sorted[id := Sort(AssociationLess, sorted[id])];
      left := left - {id};
    }
  }

  lemma NoneGrouped()
    ensures Grouped([], map[])
  {
  }

  /** The maps of one pass give each icon its favicons row and its mappings. */
  ghost predicate Indexed(pass: Pass, records: map<int, Favicon>, mappings: map<int, seq<Association>>) {
    && (forall id :: RecordOf(pass.favicons, id) == if id in records then Some(records[id]) else None)
    && (forall id :: Associations(pass, id) == if id in mappings then mappings[id] else [])
  }

  method BuildBitmapFindings(pass: Pass, records: map<int, Favicon>, mappings: map<int, seq<Association>>)
    returns (r: Result<seq<Finding>, Error>)
    requires Indexed(pass, records, mappings)
    ensures r == if ExactBitmaps(pass.bitmaps) then Ok(BitmapFindings(pass, pass.bitmaps))
                 else Err(NotExactInteger(FaviconBitmaps))
  {
    hide FindingOf, RecordOf, Associations;
    var results: seq<Finding> := [];
    for i := 0 to |pass.bitmaps|
      invariant ExactBitmaps(pass.bitmaps[..i])
      invariant results == BitmapFindings(pass, pass.bitmaps[..i])
    {
      var bitmap := pass.bitmaps[i];
      assert bitmap in pass.bitmaps;
      assert pass.bitmaps[..i + 1][..i] == pass.bitmaps[..i];
      if !bitmap.rowId.Integer? {
        return Err(NotExactInteger(FaviconBitmaps));
      }
      var iconId := IntegerOf(bitmap.iconId);
      var row := Row(
        Some(bitmap.rowId.n), iconId,
        if iconId.Some? && iconId.value in records then Some(records[iconId.value]) else None,
        if iconId.Some? && iconId.value in mappings then mappings[iconId.value] else []);
      BitmapIsCitable(row);
      var finding := BuildFinding(row);
      results := results + [finding.value];
    }
    assert pass.bitmaps[..|pass.bitmaps|] == pass.bitmaps;
    return Ok(results);
  }

  method BuildIconFindings(pass: Pass, records: map<int, Favicon>, mappings: map<int, seq<Association>>, ids: seq<int>)
    returns (results: seq<Finding>)
    requires ExactMappings(pass.mappings) && Indexed(pass, records, mappings)
    requires forall id :: id in ids ==> id in BitmaplessIcons(pass)
    ensures results == IconFindings(pass, ids)
  {
    hide FindingOf, RecordOf, Associations, BitmaplessIcons;
    results := [];
    for i := 0 to |ids|
      invariant results == IconFindings(pass, ids[..i])
    {
      assert ids[..i + 1][..i] == ids[..i];
      var id := ids[i];
      IconIsCitable(pass, id);
      var finding := BuildFinding(
        Row(None, Some(id), if id in records then Some(records[id]) else None,
            if id in mappings then mappings[id] else []));
      results := results + [finding.value];
    }
    assert ids[..|ids|] == ids;
  }

  method BuildFavicons(pass: Pass) returns (r: Result<seq<Finding>, Error>)
    ensures r == Built(pass)
  {
    hide FindingOf, RecordOf, MappedTo, Sort, RecordIcons, MappingIcons, BitmapIcons, BitmapFindings, IconFindings;
    var records := FaviconRecords(pass.favicons);
    if records.Err? {
      return Err(records.error);
    }
    var mappings := IconMappingsByIcon(pass.mappings);
    if mappings.Err? {
      return Err(mappings.error);
    }
    var bitmapFindings := BuildBitmapFindings(pass, records.value, mappings.value);
    if bitmapFindings.Err? {
      return Err(bitmapFindings.error);
    }
    var bitmapIconIds := CollectIcons(pass.bitmaps);
    var recordIds := CollectRecordIcons(pass.favicons);
    var bitmaplessIconIds := recordIds - bitmapIconIds + (mappings.value.Keys - bitmapIconIds);
    assert bitmaplessIconIds == BitmaplessIcons(pass);
    var ids := SortedSet(Less, bitmaplessIconIds);
    AscendingUnique(Less, ids, IconList(pass));
    var iconFindings := BuildIconFindings(pass, records.value, mappings.value, ids);
    return Ok(bitmapFindings.value + iconFindings);
  }

  lemma BitmapIsCitable(row: Row)
    ensures row.bitmapId.Some? ==> FindingOf(row).Some?
  {
    hide MappingCitations, PageUrls;
  }

  method CollectIcons(bitmaps: seq<Bitmap>) returns (ids: set<int>)
    ensures ids == BitmapIcons(bitmaps)
  {
    ids := {};
    for i := 0 to |bitmaps|
      invariant ids == BitmapIcons(bitmaps[..i])
    {
      assert bitmaps[..i + 1] == bitmaps[..i] + [bitmaps[i]];
      if bitmaps[i].iconId.Integer? {
        ids := ids + {bitmaps[i].iconId.n};
      }
    }
    assert bitmaps[..|bitmaps|] == bitmaps;
  }

  method CollectRecordIcons(favicons: seq<Favicon>) returns (ids: set<int>)
    ensures ids == RecordIcons(favicons)
  {
    ids := {};
    for i := 0 to |favicons|
      invariant ids == RecordIcons(favicons[..i])
    {
      assert favicons[..i + 1] == favicons[..i] + [favicons[i]];
      if favicons[i].rowId.Integer? {
        ids := ids + {favicons[i].rowId.n};
      }
    }
    assert favicons[..|favicons|] == favicons;
  }

  // Coverage.

  predicate Cites(f: Finding, c: Citation) { f.primary == c || c in f.supporting }

  ghost predicate Cited(fs: seq<Finding>, c: Citation) {
    exists f :: f in fs && Cites(f, c)
  }

  /** The rows of the pass that must be citable: every bitmap, every favicons row, and every mapping
      that names an icon. */
  predicate Citable(pass: Pass, c: Citation) {
    match c.table
    case FaviconBitmaps => exists b :: b in pass.bitmaps && b.rowId == Integer(c.rowId)
    case FaviconTable => exists f :: f in pass.favicons && f.rowId == Integer(c.rowId)
    case IconMapping => exists m :: m in pass.mappings && m.rowId == Integer(c.rowId) && m.iconId.Integer?
  }

  lemma {:induction false} MappingsCited(associations: seq<Association>, primary: Citation)
    ensures forall c :: c in MappingCitations(associations, primary) <==>
      c != primary && exists a :: a in associations && c == Citation(IconMapping, a.rowId)
  {
    if associations != [] {
      var k := |associations| - 1;
      MappingsCited(associations[..k], primary);
      assert associations == associations[..k] + [associations[k]];
      assert forall a :: a in associations <==> a in associations[..k] || a == associations[k];
    }
  }

  /** What one Finding cites: its bitmap, its favicons row, and each of its mappings; nothing more. */
  lemma FindingCites(row: Row, c: Citation)
    requires FindingOf(row).Some?
    ensures Cites(FindingOf(row).value, c) <==>
      || (row.bitmapId == Some(c.rowId) && c.table.FaviconBitmaps?)
      || (row.record.Some? && row.iconId == Some(c.rowId) && c.table.FaviconTable?)
      || (c.table.IconMapping? && exists a :: a in row.associations && a.rowId == c.rowId)
  {
    hide MappingCitations, PageUrls;
    var f := FindingOf(row).value;
    MappingsCited(row.associations, f.primary);
    assert forall a :: a in row.associations && a.rowId == c.rowId && c.table.IconMapping? ==>
        c == Citation(IconMapping, a.rowId);
  }

  lemma IconFindingIs(pass: Pass, i: nat)
    requires Exact(pass) && i < |IconList(pass)|
    ensures FindingOf(IconRow(pass, IconList(pass)[i])) == Some(Findings(pass)[|pass.bitmaps| + i])
  {
    hide FindingOf, BitmapFindings, IconFindings, IconList, IconRow, Ascending, Members, BitmaplessIcons, ExactMappings;
    assert Findings(pass)[|pass.bitmaps| + i] == IconFindings(pass, IconList(pass))[i];
  }

  lemma RowIsKept(row: Row)
    ensures FindingOf(row).Some? ==> FindingOf(row).value.row == row
  {
  }

  lemma FindingAt(pass: Pass, i: nat)
    requires Exact(pass) && i < |Findings(pass)|
    ensures var f := Findings(pass)[i];
      && FindingOf(f.row) == Some(f)
      && if i < |pass.bitmaps| then pass.bitmaps[i].rowId.Integer? && f.row == BitmapRow(pass, pass.bitmaps[i])
         else exists id :: id in BitmaplessIcons(pass) && f.row == IconRow(pass, id)
  {
    hide FindingOf, BitmapRow, IconRow, BitmaplessIcons, BitmapFindings, IconFindings, IconList, Ascending, Members, Exact;
    if i < |pass.bitmaps| {
      RowIsKept(BitmapRow(pass, pass.bitmaps[i]));
    } else {
      var id := IconList(pass)[i - |pass.bitmaps|];
      IconFindingIs(pass, i - |pass.bitmaps|);
      assert id in IconList(pass);
      RowIsKept(IconRow(pass, id));
    }
  }

  lemma BitmapFindingAt(pass: Pass, b: Bitmap)
    requires Exact(pass) && b in pass.bitmaps
    ensures exists f :: f in Findings(pass) && FindingOf(f.row) == Some(f) && f.row == BitmapRow(pass, b)
  {
    hide FindingOf, BitmapRow, IconFindings, BitmapFindings;
    var i :| 0 <= i < |pass.bitmaps| && pass.bitmaps[i] == b;
    FindingAt(pass, i);
    assert Findings(pass)[i] in Findings(pass);
  }

  lemma IconFindingAt(pass: Pass, id: int)
    requires Exact(pass) && id in BitmaplessIcons(pass)
    ensures exists f :: f in Findings(pass) && FindingOf(f.row) == Some(f) && f.row == IconRow(pass, id)
  {
    hide FindingOf, BitmaplessIcons, BitmapFindings, IconFindings, IconRow;
    assert id in IconList(pass);
    var i :| 0 <= i < |IconList(pass)| && IconList(pass)[i] == id;
    IconFindingIs(pass, i);
    RowIsKept(IconRow(pass, id));
    assert Findings(pass)[|pass.bitmaps| + i] in Findings(pass);
  }

  /** Some Finding stands for every icon that any table names. */
  lemma IconHasFinding(pass: Pass, id: int)
    requires Exact(pass) && id in RecordIcons(pass.favicons) + MappingIcons(pass.mappings)
    ensures exists f :: f in Findings(pass) && FindingOf(f.row) == Some(f) && f.row.iconId == Some(id)
                        && f.row.record == RecordOf(pass.favicons, id) && f.row.associations == Associations(pass, id)
  {
    hide FindingOf, Associations, RecordOf, Findings, RecordIcons, MappingIcons;
    if id in BitmaplessIcons(pass) {
      IconFindingAt(pass, id);
    } else {
      var b :| b in pass.bitmaps && b.iconId.Integer? && b.iconId.n == id;
      BitmapFindingAt(pass, b);
    }
  }

  /** Every citable row is cited by some Finding, and every Finding cites only such rows. */
  lemma EveryRowIsCited(pass: Pass, c: Citation)
    requires Exact(pass)
    ensures Cited(Findings(pass), c) <==> Citable(pass, c)
  {
    if Citable(pass, c) {
      RowIsCited(pass, c);
    }
    if Cited(Findings(pass), c) {
      var f :| f in Findings(pass) && Cites(f, c);
      var i :| 0 <= i < |Findings(pass)| && Findings(pass)[i] == f;
      CitesOnlyRows(pass, i, c);
    }
  }

  lemma RowIsCited(pass: Pass, c: Citation)
    requires Exact(pass) && Citable(pass, c)
    ensures Cited(Findings(pass), c)
  {
    hide FindingOf, Associations, RecordOf, Findings, Cites;
    match c.table
    case FaviconBitmaps =>
      var b :| b in pass.bitmaps && b.rowId == Integer(c.rowId);
      BitmapFindingAt(pass, b);
      var f :| f in Findings(pass) && FindingOf(f.row) == Some(f) && f.row == BitmapRow(pass, b);
      FindingCites(f.row, c);
    case FaviconTable =>
      assert c.rowId in RecordIcons(pass.favicons);
      RecordExists(pass.favicons, c.rowId);
      CitedThroughIcon(pass, c.rowId, c);
    case IconMapping =>
      var m :| m in pass.mappings && m.rowId == Integer(c.rowId) && m.iconId.Integer?;
      assert m.iconId.n in MappingIcons(pass.mappings);
      AssociationsAre(pass, m.iconId.n);
      assert Association(m.pageUrl, c.rowId) in Associations(pass, m.iconId.n);
      CitedThroughIcon(pass, m.iconId.n, c);
  }

  lemma CitedThroughIcon(pass: Pass, id: int, c: Citation)
    requires Exact(pass) && id in RecordIcons(pass.favicons) + MappingIcons(pass.mappings)
    requires (c.table.FaviconTable? && c.rowId == id && RecordOf(pass.favicons, id).Some?)
          || (c.table.IconMapping? && exists a :: a in Associations(pass, id) && a.rowId == c.rowId)
    ensures Cited(Findings(pass), c)
  {
    hide FindingOf, Associations, RecordOf, Findings, Cites, RecordIcons, MappingIcons;
    IconHasFinding(pass, id);
    var f :| f in Findings(pass) && FindingOf(f.row) == Some(f) && f.row.iconId == Some(id)
             && f.row.record == RecordOf(pass.favicons, id) && f.row.associations == Associations(pass, id);
    FindingCites(f.row, c);
  }

  lemma CitesOnlyRows(pass: Pass, i: nat, c: Citation)
    requires Exact(pass) && i < |Findings(pass)| && Cites(Findings(pass)[i], c)
    ensures Citable(pass, c)
  {
    hide FindingOf, Associations, RecordOf, Findings, Cites;
    var f := Findings(pass)[i];
    FindingAt(pass, i);
    FindingCites(f.row, c);
    if i < |pass.bitmaps| {
      assert pass.bitmaps[i] in pass.bitmaps;
    }
    if f.row.iconId.Some? {
      AssociationsAre(pass, f.row.iconId.value);
      RecordExists(pass.favicons, f.row.iconId.value);
    }
  }

  /** Bitmaps, and icons without one: that many Findings, in that order, the icons ascending. The
      refusal of an icon that cannot be cited is never reached. */
  lemma FindingCount(pass: Pass)
    requires Exact(pass)
    ensures Built(pass).Ok? && |Built(pass).value| == |pass.bitmaps| + |BitmaplessIcons(pass)|
    ensures forall i :: 0 <= i < |pass.bitmaps| ==>
      pass.bitmaps[i].rowId.Integer? && Built(pass).value[i].primary == Citation(FaviconBitmaps, pass.bitmaps[i].rowId.n)
  {
    hide Associations, RecordOf, MappingCitations, PageUrls, BitmaplessIcons, IconFindings;
    IconFindingsCount(pass);
    forall i | 0 <= i < |pass.bitmaps|
      ensures pass.bitmaps[i].rowId.Integer? && Findings(pass)[i].primary == Citation(FaviconBitmaps, pass.bitmaps[i].rowId.n)
    {
      FindingAt(pass, i);
    }
  }

  lemma IconFindingsCount(pass: Pass)
    requires Exact(pass)
    ensures |Findings(pass)| == |pass.bitmaps| + |BitmaplessIcons(pass)|
  {
  }

  // What each Finding says, field by field.

  /** The last of the favicons rows with this id, or none when there is none. */
  predicate IsLastRecord(favicons: seq<Favicon>, id: int, r: Option<Favicon>) {
    if r.None? then forall f :: f in favicons ==> f.rowId != Integer(id)
    else exists i :: 0 <= i < |favicons| && favicons[i] == r.value && IsLastAt(favicons, id, i)
  }

  predicate IsLastAt(favicons: seq<Favicon>, id: int, i: nat)
    requires i < |favicons|
  {
    favicons[i].rowId == Integer(id) && forall j :: i < j < |favicons| ==> favicons[j].rowId != Integer(id)
  }

  lemma {:induction false} RecordIsLast(favicons: seq<Favicon>, id: int)
    ensures IsLastRecord(favicons, id, RecordOf(favicons, id))
  {
    if favicons != [] {
      var k := |favicons| - 1;
      RecordIsLast(favicons[..k], id);
      if favicons[k].rowId == Integer(id) {
        assert IsLastAt(favicons, id, k);
      } else if RecordOf(favicons, id).Some? {
        var i :| 0 <= i < k && favicons[..k][i] == RecordOf(favicons, id).value && IsLastAt(favicons[..k], id, i);
        assert forall j :: i < j < k ==> favicons[..k][j] == favicons[j];
        assert IsLastAt(favicons, id, i);
      }
    }
  }

  predicate Maps(m: Mapping, id: int, a: Association) {
    m.iconId == Integer(id) && m.rowId == Integer(a.rowId) && m.pageUrl == a.pageUrl
  }

  /** The mappings of an icon, in the order of their row ids. */
  predicate AreAssociations(mappings: seq<Mapping>, id: int, found: seq<Association>) {
    && (forall i, j :: 0 <= i < j < |found| ==> found[i].rowId <= found[j].rowId)
    && (forall a :: a in found ==> exists m :: m in mappings && Maps(m, id, a))
    && (forall m :: m in mappings && m.iconId == Integer(id) && m.rowId.Integer? ==> Association(m.pageUrl, m.rowId.n) in found)
    && |found| == |set i | 0 <= i < |mappings| && mappings[i].iconId == Integer(id) && mappings[i].rowId.Integer?|
  }

  lemma {:induction false} MappedCount(mappings: seq<Mapping>, id: int)
    ensures |MappedTo(mappings, id)|
      == |set i | 0 <= i < |mappings| && mappings[i].iconId == Integer(id) && mappings[i].rowId.Integer?|
  {
    if mappings != [] {
      var k := |mappings| - 1;
      MappedCount(mappings[..k], id);
      var before := set i | 0 <= i < k && mappings[..k][i].iconId == Integer(id) && mappings[..k][i].rowId.Integer?;
      var after := set i | 0 <= i < |mappings| && mappings[i].iconId == Integer(id) && mappings[i].rowId.Integer?;
      assert after == before + if mappings[k].iconId == Integer(id) && mappings[k].rowId.Integer? then {k} else {};
    }
  }

  lemma AssociationsSay(pass: Pass, id: int)
    ensures AreAssociations(pass.mappings, id, Associations(pass, id))
  {
    hide Sort, MappedTo;
    AssociationsAre(pass, id);
    MappedCount(pass.mappings, id);
    SortNeverReverses(AssociationLess, MappedTo(pass.mappings, id));
    assert |multiset(Associations(pass, id))| == |multiset(MappedTo(pass.mappings, id))|;
  }

  function Readable(associations: seq<Association>): nat {
    if associations == [] then 0
    else (if associations[0].pageUrl.Some? then 1 else 0) + Readable(associations[1..])
  }

  /** The page addresses that can be read, in the order of their rows, and how many cannot. */
  predicate SaysPages(f: Finding) {
    && |f.pageUrls| == Readable(f.row.associations)
    && f.unreadable == |f.row.associations| - Readable(f.row.associations)
    && forall k :: 0 <= k < |f.row.associations| && f.row.associations[k].pageUrl.Some? ==>
         UrlAt(f, Readable(f.row.associations[..k]), f.row.associations[k].pageUrl.value)
  }

  predicate UrlAt(f: Finding, i: nat, url: string) { i < |f.pageUrls| && f.pageUrls[i] == url }

  lemma {:induction false} PageUrlsAre(associations: seq<Association>)
    ensures |PageUrls(associations)| == Readable(associations)
  {
    if associations != [] {
      PageUrlsAre(associations[1..]);
    }
  }

  lemma {:induction false} PageUrlAt(associations: seq<Association>, k: nat)
    requires k < |associations| && associations[k].pageUrl.Some?
    ensures Readable(associations[..k]) < |PageUrls(associations)|
    ensures PageUrls(associations)[Readable(associations[..k])] == associations[k].pageUrl.value
  {
    if k > 0 {
      PageUrlAt(associations[1..], k - 1);
      assert associations[..k][1..] == associations[1..][..k - 1];
    }
  }

  lemma PagesSay(row: Row)
    requires FindingOf(row).Some?
    ensures SaysPages(FindingOf(row).value)
  {
    hide PageUrls, MappingCitations, Readable;
    var f, all := FindingOf(row).value, row.associations;
    PageUrlsAre(all);
    forall k | 0 <= k < |all| && all[k].pageUrl.Some? ensures UrlAt(f, Readable(all[..k]), all[k].pageUrl.value) {
      PageUrlAt(all, k);
    }
  }

  /** A Finding stands on its bitmap, else on its favicons row, else on its first mapping, and lists the
      other rows behind it, the favicons row first. */
  predicate SaysRows(f: Finding) {
    && f.primary !in f.supporting
    && if f.row.bitmapId.Some? then
         && f.primary == Citation(FaviconBitmaps, f.row.bitmapId.value)
         && f.supporting == RecordCitation(f.row) + AllMappings(f.row)
       else if RecordCitation(f.row) != [] then [f.primary] == RecordCitation(f.row) && f.supporting == AllMappings(f.row)
       else f.row.associations != [] && f.primary == AllMappings(f.row)[0]
  }

  function RecordCitation(row: Row): seq<Citation> {
    if row.record.Some? && row.iconId.Some? then [Citation(FaviconTable, row.iconId.value)] else []
  }

  function AllMappings(row: Row): (all: seq<Citation>)
    ensures |all| == |row.associations|
  {
    seq(|row.associations|, i requires 0 <= i < |row.associations| => Citation(IconMapping, row.associations[i].rowId))
  }

  lemma {:induction false} MappingsInOrder(row: Row, k: nat, primary: Citation)
    requires k <= |row.associations| && !primary.table.IconMapping?
    ensures MappingCitations(row.associations[..k], primary) == AllMappings(row)[..k]
  {
    if k > 0 {
      MappingsInOrder(row, k - 1, primary);
      assert row.associations[..k][..k - 1] == row.associations[..k - 1];
    }
  }

  lemma RowsSay(row: Row)
    requires FindingOf(row).Some?
    ensures SaysRows(FindingOf(row).value)
  {
    hide MappingCitations, PageUrls;
    var f := FindingOf(row).value;
    MappingsCited(row.associations, f.primary);
    if !f.primary.table.IconMapping? {
      MappingsInOrder(row, |row.associations|, f.primary);
      assert row.associations[..|row.associations|] == row.associations;
      assert forall c :: c in AllMappings(row) ==> c.table.IconMapping?;
    }
  }

  /** All a Finding says of its bitmap and icon. */
  predicate Says(pass: Pass, bitmapId: Option<int>, iconId: Option<int>, f: Finding) {
    && f.row.bitmapId == bitmapId && f.row.iconId == iconId
    && (if iconId.None? then f.row.record.None? && f.row.associations == []
        else
          && IsLastRecord(pass.favicons, iconId.value, f.row.record)
          && AreAssociations(pass.mappings, iconId.value, f.row.associations))
    && SaysPages(f) && SaysRows(f)
  }

  lemma RowSays(pass: Pass, row: Row)
    requires FindingOf(row).Some?
    requires row.iconId.None? ==> row.record.None? && row.associations == []
    requires row.iconId.Some? ==>
      row.record == RecordOf(pass.favicons, row.iconId.value) && row.associations == Associations(pass, row.iconId.value)
    ensures Says(pass, row.bitmapId, row.iconId, FindingOf(row).value)
  {
    hide FindingOf, RecordOf, Associations, SaysPages, SaysRows, AreAssociations, IsLastRecord;
    RowIsKept(row);
    PagesSay(row);
    RowsSay(row);
    if row.iconId.Some? {
      RecordIsLast(pass.favicons, row.iconId.value);
      AssociationsSay(pass, row.iconId.value);
    }
  }

  /** One Finding for each bitmap, in their order. */
  lemma BitmapFindingSays(pass: Pass, i: nat)
    requires Exact(pass) && i < |pass.bitmaps|
    ensures i < |Findings(pass)| && pass.bitmaps[i].rowId.Integer?
    ensures var b := pass.bitmaps[i];
      Says(pass, Some(b.rowId.n), if b.iconId.Integer? then Some(b.iconId.n) else None, Findings(pass)[i])
  {
    hide FindingOf, RecordOf, Associations, Says, BitmapFindings, IconFindings, IconList;
    FindingAt(pass, i);
    RowSays(pass, BitmapRow(pass, pass.bitmaps[i]));
  }

  /** After them one for each icon without a bitmap, the ids ascending. */
  lemma IconFindingSays(pass: Pass, i: nat)
    requires Exact(pass) && |pass.bitmaps| <= i < |Findings(pass)|
    ensures var f := Findings(pass)[i];
      f.row.iconId.Some? && Says(pass, None, f.row.iconId, f) && IsBitmapless(pass, f.row.iconId.value)
    ensures forall j :: i < j < |Findings(pass)| ==> IconsAscend(Findings(pass)[i], Findings(pass)[j])
  {
    hide FindingOf, RecordOf, Associations, Says, BitmapFindings, IconFindings, IconList, IsBitmapless, BitmaplessIcons;
    var ids, n := IconList(pass), |pass.bitmaps|;
    assert |Findings(pass)| == n + |ids|;
    IconRowAt(pass, i - n);
    RowSays(pass, IconRow(pass, ids[i - n]));
    assert ids[i - n] in ids;
    BitmaplessIs(pass, ids[i - n]);
    forall j | i < j < |Findings(pass)| ensures IconsAscend(Findings(pass)[i], Findings(pass)[j]) {
      IconRowAt(pass, j - n);
      assert Less(ids[i - n], ids[j - n]);
    }
  }

  lemma IconRowAt(pass: Pass, k: nat)
    requires Exact(pass) && k < |IconList(pass)|
    ensures FindingOf(IconRow(pass, IconList(pass)[k])) == Some(Findings(pass)[|pass.bitmaps| + k])
    ensures Findings(pass)[|pass.bitmaps| + k].row == IconRow(pass, IconList(pass)[k])
  {
    hide FindingOf, IconList, IconRow, BitmapFindings, IconFindings;
    IconFindingIs(pass, k);
    RowIsKept(IconRow(pass, IconList(pass)[k]));
  }

  lemma BitmaplessIs(pass: Pass, id: int)
    ensures id in BitmaplessIcons(pass) <==> IsBitmapless(pass, id)
  {
    assert id in RecordIcons(pass.favicons) <==> exists f :: f in pass.favicons && f.rowId == Integer(id);
    assert id in MappingIcons(pass.mappings) <==> exists m :: m in pass.mappings && m.iconId == Integer(id);
    assert id in BitmapIcons(pass.bitmaps) <==> exists b :: b in pass.bitmaps && b.iconId == Integer(id);
  }

  predicate IconsAscend(f: Finding, g: Finding) {
    f.row.iconId.Some? && g.row.iconId.Some? && f.row.iconId.value < g.row.iconId.value
  }

  /** A favicons row or a mapping names the icon, and no bitmap does. */
  predicate IsBitmapless(pass: Pass, id: int) {
    && ((exists f :: f in pass.favicons && f.rowId == Integer(id)) || (exists m :: m in pass.mappings && m.iconId == Integer(id)))
    && forall b :: b in pass.bitmaps ==> b.iconId != Integer(id)
  }
}
