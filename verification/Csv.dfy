/** The CSV profile of an Extract, reading it back by section 2 of RFC 4180 with LF line ends, and what its
    columns hold. */
module Csv {
  import opened Outcomes
  import opened Decimal
  import opened Orders
  import opened Bytes
  import opened UrlText

  // Printing.

  predicate Special(c: char) { c == '"' || c == ',' || c == '\r' || c == '\n' }

  predicate NeedsQuotes(s: string) { exists c :: c in s && Special(c) }

  function Doubled(s: string): string {
    if s == "" then "" else (if s[0] == '"' then "\"\"" else [s[0]]) + Doubled(s[1..])
  }

  function CsvCell(s: string): string {
    if NeedsQuotes(s) then "\"" + Doubled(s) + "\"" else s
  }

  function CsvLine(cells: seq<string>): string {
    if cells == [] then ""
    else if |cells| == 1 then CsvCell(cells[0])
    else CsvCell(cells[0]) + ("," + CsvLine(cells[1..]))
  }

  function Render(table: seq<seq<string>>): string {
    if table == [] then "" else CsvLine(table[0]) + ("\n" + Render(table[1..]))
  }

  // Reading.

  /** The rest of a quoted field, from behind its opening quote. */
  function ReadQuoted(s: string): (r: Option<(string, string)>)
    ensures r.Some? ==> |r.value.1| < |s|
  {
    if s == "" then None
    else if s[0] == '"' then
      if |s| > 1 && s[1] == '"' then
        var rest := ReadQuoted(s[2..]);
        if rest.None? then None else Some((['"'] + rest.value.0, rest.value.1))
      else Some(("", s[1..]))
    else
      var rest := ReadQuoted(s[1..]);
      if rest.None? then None else Some(([s[0]] + rest.value.0, rest.value.1))
  }

  function ReadPlain(s: string): (r: (string, string))
    ensures |r.1| <= |s|
  {
    if s == "" || Special(s[0]) then ("", s)
    else
      var rest := ReadPlain(s[1..]);
      ([s[0]] + rest.0, rest.1)
  }

  function ReadField(s: string): (r: Option<(string, string)>)
    ensures r.Some? ==> |r.value.1| <= |s|
  {
    if s != "" && s[0] == '"' then ReadQuoted(s[1..]) else Some(ReadPlain(s))
  }

  function ReadRecord(s: string): (r: Option<(seq<string>, string)>)
    ensures r.Some? && s != "" ==> |r.value.1| < |s|
    decreases |s|
  {
    var field := ReadField(s);
    if field.None? then None
    else
      var rest := field.value.1;
      if rest == "" then Some(([field.value.0], ""))
      else if rest[0] == '\n' then Some(([field.value.0], rest[1..]))
      else if rest[0] == ',' then
        var more := ReadRecord(rest[1..]);
        if more.None? then None else Some(([field.value.0] + more.value.0, more.value.1))
      else None
  }

  function ReadTable(s: string): Option<seq<seq<string>>>
    decreases |s|
  {
    if s == "" then Some([])
    else
      var record := ReadRecord(s);
      if record.None? then None
      else
        var more := ReadTable(record.value.1);
        if more.None? then None else Some([record.value.0] + more.value)
  }

  // The round trip.

  predicate EndsField(rest: string) {
    rest != "" && (rest[0] == ',' || rest[0] == '\n')
  }

  lemma QuotedStep(c: char, more: string)
    ensures var t := (if c == '"' then "\"\"" else [c]) + more; var rest := ReadQuoted(more);
      ReadQuoted(t) == if rest.None? then None else Some(([c] + rest.value.0, rest.value.1))
  {
    var t := (if c == '"' then "\"\"" else [c]) + more;
    if c == '"' {
      assert t[2..] == more;
    } else {
      assert t[1..] == more;
    }
  }

  lemma QuotedEnd(rest: string)
    requires EndsField(rest)
    ensures ReadQuoted(Doubled("") + ("\"" + rest)) == Some(("", rest))
  {
    assert Doubled("") + ("\"" + rest) == "\"" + rest;
    assert ("\"" + rest)[1..] == rest;
  }

  lemma DoubledHead(s: string, tail: string)
    requires s != ""
    ensures Doubled(s) + tail == (if s[0] == '"' then "\"\"" else [s[0]]) + (Doubled(s[1..]) + tail)
  {
  }

  lemma {:induction false} QuotedBack(s: string, rest: string)
    requires EndsField(rest)
    ensures ReadQuoted(Doubled(s) + ("\"" + rest)) == Some((s, rest))
  {
    hide ReadQuoted, Doubled;
    if s == "" {
      QuotedEnd(rest);
    } else {
      var tail := "\"" + rest;
      QuotedBack(s[1..], rest);
      QuotedStep(s[0], Doubled(s[1..]) + tail);
      DoubledHead(s, tail);
      assert s == [s[0]] + s[1..];
    }
  }

  lemma {:induction false} PlainBack(s: string, rest: string)
    requires EndsField(rest) && !NeedsQuotes(s)
    ensures ReadPlain(s + rest) == (s, rest)
  {
    if s == "" {
      assert s + rest == rest;
    } else {
      assert s[0] in s && forall c :: c in s[1..] ==> c in s;
      PlainBack(s[1..], rest);
      assert (s + rest)[1..] == s[1..] + rest;
      assert s == [s[0]] + s[1..];
    }
  }

  lemma CellBack(s: string, rest: string)
    requires EndsField(rest)
    ensures ReadField(CsvCell(s) + rest) == Some((s, rest))
  {
    hide ReadQuoted, ReadPlain, Doubled;
    if NeedsQuotes(s) {
      QuotedBack(s, rest);
      var t := CsvCell(s) + rest;
      assert t[1..] == Doubled(s) + ("\"" + rest);
    } else {
      PlainBack(s, rest);
      NoQuoteFirst(s, rest);
    }
  }

  lemma NoQuoteFirst(s: string, rest: string)
    requires EndsField(rest) && !NeedsQuotes(s)
    ensures s + rest != "" && (s + rest)[0] != '"'
  {
    if s != "" {
      assert s[0] in s;
    }
  }

  lemma Regroup(a: string, b: string, c: string, d: string)
    ensures a + (b + (c + d)) == (a + (b + c)) + d
  {
  }

  lemma {:induction false} LineBack(cells: seq<string>, rest: string)
    requires cells != []
    ensures ReadRecord(CsvLine(cells) + ("\n" + rest)) == Some((cells, rest))
  {
    hide CsvCell, ReadField;
    if |cells| == 1 {
      CellBack(cells[0], "\n" + rest);
      assert ("\n" + rest)[1..] == rest;
      assert cells == [cells[0]];
    } else {
      var more := CsvLine(cells[1..]) + ("\n" + rest);
      LineBack(cells[1..], rest);
      CellBack(cells[0], "," + more);
      Regroup(CsvCell(cells[0]), ",", CsvLine(cells[1..]), "\n" + rest);
      assert ("," + more)[1..] == more;
      assert cells == [cells[0]] + cells[1..];
    }
  }

  predicate Rectangular(table: seq<seq<string>>, width: nat) {
    forall row :: row in table ==> |row| == width
  }

  /** Whatever the cells hold, quotes, commas and line breaks included, reading the file gives them back. */
  lemma {:induction false} TableRoundTrip(table: seq<seq<string>>, width: nat)
    requires width > 0 && Rectangular(table, width)
    ensures ReadTable(Render(table)) == Some(table)
  {
    hide ReadRecord, ReadTable, Render, CsvLine;
    if table == [] {
      EmptyTable();
    } else {
      assert table[0] in table && forall row :: row in table[1..] ==> row in table;
      TableRoundTrip(table[1..], width);
      LineBack(table[0], Render(table[1..]));
      RenderHead(table);
      ReadHead(Render(table), table[0], Render(table[1..]));
      assert table == [table[0]] + table[1..];
    }
  }

  lemma EmptyTable()
    ensures ReadTable(Render([])) == Some([])
  {
  }

  lemma RenderHead(table: seq<seq<string>>)
    requires table != []
    ensures Render(table) == CsvLine(table[0]) + ("\n" + Render(table[1..])) && Render(table) != ""
  {
    hide CsvLine;
  }

  lemma ReadHead(s: string, row: seq<string>, rest: string)
    requires s != "" && ReadRecord(s) == Some((row, rest)) && ReadTable(rest).Some?
    ensures ReadTable(s) == Some([row] + ReadTable(rest).value)
  {
    hide ReadRecord;
  }

  // The table of an Extract.

  datatype Field =
    | Absent
    | Unavailable(reason: string)
    | Redacted(reason: string)
    | NullValue
    | Scalar(text: string)
    | ArrayValue(length: nat)
    | Instant(utc: string)
    | ObjectValue

  datatype ExtractRow = ExtractRow(
    recordType: string, collection: string, store: string, sourceId: string, profile: string,
    commitState: Option<string>, kind: string, id: string,
    manifestPath: string, table: string, rowId: string, fields: map<string, Field>)

  function FieldCell(f: Field): string {
    match f
    case Absent => "[absent]"
    case Unavailable(reason) => "[unavailable:" + reason + "]"
    case Redacted(reason) => "[redacted:" + reason + "]"
    case NullValue => "[absent]"
    case Scalar(text) => text
    case ArrayValue(length) => "[array:" + NatText(length) + "]"
    case Instant(utc) => utc
    case ObjectValue => "[object]"
  }

  function FieldNames(rows: seq<ExtractRow>): set<string> {
    set row, name | row in rows && name in row.fields :: name
  }

  /** Every field name of any row, in byte order. */
  ghost function FieldColumns(rows: seq<ExtractRow>): seq<string> {
    TextIsTotalOrder(FieldNames(rows));
    Listed(TextLess, FieldNames(rows))
  }

  function Header(names: seq<string>, commitState: bool): seq<string> {
    ["record_type", "collection", "store", "source_id", "profile"] + (if commitState then ["commit_state"] else [])
    + ["kind", "id", "provenance"] + seq(|names|, i requires 0 <= i < |names| => "field." + names[i])
  }

  function Cells(row: ExtractRow, names: seq<string>, commitState: bool): seq<string> {
    [row.recordType, row.collection, row.store, row.sourceId, row.profile]
    + (if commitState then [if row.commitState.Some? then row.commitState.value else ""] else [])
    + [row.kind, row.id, row.manifestPath + "#" + row.table + ":" + row.rowId]
    + seq(|names|, i requires 0 <= i < |names| =>
        if names[i] in row.fields then FieldCell(row.fields[names[i]]) else "[absent]")
  }

  function Width(names: seq<string>, commitState: bool): nat {
    8 + (if commitState then 1 else 0) + |names|
  }

  function CellsOf(rows: seq<ExtractRow>, names: seq<string>, commitState: bool): (table: seq<seq<string>>)
    ensures |table| == |rows| && forall i :: 0 <= i < |rows| ==> table[i] == Cells(rows[i], names, commitState)
  {
    seq(|rows|, i requires 0 <= i < |rows| => Cells(rows[i], names, commitState))
  }

  ghost function TableOf(rows: seq<ExtractRow>, commitState: bool): seq<seq<string>> {
    [Header(FieldColumns(rows), commitState)] + CellsOf(rows, FieldColumns(rows), commitState)
  }

  lemma {:induction false} RenderNext(table: seq<seq<string>>, row: seq<string>)
    ensures Render(table + [row]) == Render(table) + (CsvLine(row) + "\n")
  {
    hide CsvLine;
    if table == [] {
      assert [] + [row] == [row] && [row][1..] == [];
    } else {
      assert (table + [row])[1..] == table[1..] + [row];
      RenderNext(table[1..], row);
      Regroup(CsvLine(table[0]), "\n", Render(table[1..]), CsvLine(row) + "\n");
    }
  }

  /** The lines of the file: the header, then the rows. */
  method CsvText(rows: seq<ExtractRow>, names: seq<string>, commitState: bool) returns (text: string)
    ensures text == Render([Header(names, commitState)] + CellsOf(rows, names, commitState))
  {
    hide CsvLine, Header, Cells, Render;
    ghost var table := CellsOf(rows, names, commitState);
    ghost var header := [Header(names, commitState)];
    text := CsvLine(Header(names, commitState)) + "\n";
    RenderFirst(Header(names, commitState));
    assert header + table[..0] == header;
    for i := 0 to |rows|
      invariant text == Render(header + table[..i])
    {
      var cells := Cells(rows[i], names, commitState);
      RenderNext(header + table[..i], cells);
      assert header + table[..i + 1] == (header + table[..i]) + [cells];
      text := text + (CsvLine(cells) + "\n");
    }
    assert table[..|rows|] == table;
  }

  lemma RenderFirst(row: seq<string>)
    ensures Render([row]) == CsvLine(row) + "\n"
  {
    hide CsvLine;
    assert [row][1..] == [];
  }

  /** The CSV file of the rows, as UTF-8. */
  method CsvBytes(rows: seq<ExtractRow>, commitState: bool) returns (b: bytes)
    ensures b == EncodeUtf8(Render(TableOf(rows, commitState)))
  {
    hide Header, CellsOf, FieldNames, EncodeUtf8, Render;
    var names := CollectNames(rows);
    var fieldNames := SortedText(names);
    SortedIsListed(fieldNames, names);
    var text := CsvText(rows, fieldNames, commitState);
    b := EncodeUtf8(text);
  }

  method CollectNames(rows: seq<ExtractRow>) returns (names: set<string>)
    ensures names == FieldNames(rows)
  {
    names := {};
    for i := 0 to |rows|
      invariant names == FieldNames(rows[..i])
    {
      assert rows[..i + 1] == rows[..i] + [rows[i]];
      names := names + rows[i].fields.Keys;
    }
    assert rows[..|rows|] == rows;
  }

  /** Decoding the emitted bytes and reading the CSV returns the table of cells, header and all. */
  lemma ExtractReadsBack(rows: seq<ExtractRow>, commitState: bool)
    ensures ReadTable(DecodeUtf8(EncodeUtf8(Render(TableOf(rows, commitState))))) == Some(TableOf(rows, commitState))
    ensures Rectangular(TableOf(rows, commitState), Width(FieldColumns(rows), commitState))
  {
    hide Render, ReadTable, EncodeUtf8, DecodeUtf8, FieldColumns, FieldCell;
    var table, width := TableOf(rows, commitState), Width(FieldColumns(rows), commitState);
    Utf8RoundTrip(Render(table));
    forall row | row in table ensures |row| == width {
      var i :| 0 <= i < |table| && table[i] == row;
      if i > 0 {
        assert row == Cells(rows[i - 1], FieldColumns(rows), commitState);
      }
    }
    TableRoundTrip(table, width);
  }

  // What the cells say.

  lemma {:induction false} DoubledGrows(s: string)
    ensures |Doubled(s)| >= |s|
  {
    if s != "" {
      DoubledGrows(s[1..]);
    }
  }

  /** A cell is printed as it is exactly when it has no quote, comma or line break. */
  lemma PlainExactly(s: string)
    ensures CsvCell(s) == s <==> '"' !in s && ',' !in s && '\r' !in s && '\n' !in s
    ensures CsvCell(s) != s ==> CsvCell(s) == "\"" + Doubled(s) + "\""
  {
    hide Doubled;
    DoubledGrows(s);
    assert '"' in s || ',' in s || '\r' in s || '\n' in s <==> NeedsQuotes(s);
  }

  /** A row and the header agree on what stands in column `k`. */
  predicate Column(header: seq<string>, cells: seq<string>, k: nat, name: string, value: string) {
    k < |header| && k < |cells| && header[k] == name && cells[k] == value
  }

  /** A field that a row lacks reads as absent, as does a null. */
  predicate CellSays(row: ExtractRow, name: string, cell: string) {
    if name !in row.fields || row.fields[name].Absent? || row.fields[name].NullValue? then cell == "[absent]"
    else
      match row.fields[name]
      case Unavailable(reason) => cell == "[unavailable:" + reason + "]"
      case Redacted(reason) => cell == "[redacted:" + reason + "]"
      case ArrayValue(length) => cell == "[array:" + NatText(length) + "]"
      case Scalar(text) => cell == text
      case Instant(utc) => cell == utc
      case _ => cell == "[object]"
  }

  /** Before the fields of a row come where it is from, what it is and the row it cites. */
  lemma ColumnsSay(rows: seq<ExtractRow>, commitState: bool, i: nat)
    requires i < |rows|
    ensures var header, cells, row := TableOf(rows, commitState)[0], TableOf(rows, commitState)[i + 1], rows[i];
      && Column(header, cells, 0, "record_type", row.recordType)
      && Column(header, cells, 1, "collection", row.collection)
      && Column(header, cells, 2, "store", row.store)
      && Column(header, cells, 3, "source_id", row.sourceId)
      && Column(header, cells, 4, "profile", row.profile)
      && (commitState ==>
            Column(header, cells, 5, "commit_state", if row.commitState.None? then "" else row.commitState.value))
      && var k := if commitState then 6 else 5;
      && Column(header, cells, k, "kind", row.kind)
      && Column(header, cells, k + 1, "id", row.id)
      && Column(header, cells, k + 2, "provenance", row.manifestPath + "#" + row.table + ":" + row.rowId)
  {
    hide FieldColumns, FieldCell;
  }

  /** After them comes one column for each name that any row has, in byte order. */
  lemma FieldColumnsSay(rows: seq<ExtractRow>, commitState: bool)
    ensures var header, k := TableOf(rows, commitState)[0], if commitState then 9 else 8;
      && |header| >= k
      && (forall i, name :: 0 <= i < |rows| && name in rows[i].fields ==> HasColumn(header, k, name))
      && (forall j :: k <= j < |header| ==> IsField(rows, header[j]))
      && (forall j, l :: k <= j < l < |header| ==> FieldsAscend(header[j], header[l]))
      && forall i, j :: 0 <= i < |rows| && k <= j < |header| ==>
           CellUnder(rows[i], header[j], TableOf(rows, commitState)[i + 1], j)
  {
    hide FieldCell, FieldNames, Header, Cells, IsField, CellSays, FieldColumns;
    var names, table, k := FieldColumns(rows), TableOf(rows, commitState), if commitState then 9 else 8;
    FieldColumnsAre(rows);
    HeaderField(names, commitState);
    var header := table[0];
    assert header == Header(names, commitState);
    forall i, name | 0 <= i < |rows| && name in rows[i].fields ensures HasColumn(header, k, name) {
      assert rows[i] in rows;
      FieldIsName(rows, rows[i], name);
      var j :| 0 <= j < |names| && names[j] == name;
      assert header[k + j] == "field." + name;
    }
    forall j | k <= j < |header| ensures IsField(rows, header[j]) {
      assert names[j - k] in names;
      NameOfField(rows, names[j - k]);
    }
    forall j, l | k <= j < l < |header| ensures FieldsAscend(header[j], header[l]) {
      NameOfField(rows, names[j - k]);
      NameOfField(rows, names[l - k]);
    }
    forall i, j | 0 <= i < |rows| && k <= j < |header| ensures CellUnder(rows[i], header[j], table[i + 1], j) {
      assert table[i + 1] == Cells(rows[i], names, commitState);
      CellOfField(rows[i], names, commitState, j);
      NameOfField(rows, names[j - k]);
    }
  }

  lemma FieldColumnsAre(rows: seq<ExtractRow>)
    ensures var names := FieldColumns(rows);
      Ascending(TextLess, names) && forall n :: n in names <==> n in FieldNames(rows)
  {
    hide FieldNames;
    TextIsTotalOrder(FieldNames(rows));
    var names := FieldColumns(rows);
    assert forall n :: n in names <==> n in Members(names);
  }

  lemma HeaderField(names: seq<string>, commitState: bool)
    ensures var header, k := Header(names, commitState), if commitState then 9 else 8;
      && |header| == k + |names|
      && forall j :: k <= j < |header| ==> header[j] == "field." + names[j - k]
  {
  }

  lemma CellOfField(row: ExtractRow, names: seq<string>, commitState: bool, j: nat)
    requires (if commitState then 9 else 8) <= j < (if commitState then 9 else 8) + |names|
    ensures j < |Cells(row, names, commitState)|
    ensures CellSays(row, names[j - if commitState then 9 else 8], Cells(row, names, commitState)[j])
  {
    hide CellSays, FieldCell;
    FieldCellSays(row, names[j - if commitState then 9 else 8]);
  }

  lemma NameOfField(rows: seq<ExtractRow>, name: string)
    ensures |"field." + name| >= 6 && ("field." + name)[6..] == name
    ensures name in FieldNames(rows) ==> IsField(rows, "field." + name)
  {
  }

  lemma FieldIsName(rows: seq<ExtractRow>, row: ExtractRow, name: string)
    requires row in rows && name in row.fields
    ensures name in FieldNames(rows)
  {
  }

  predicate IsField(rows: seq<ExtractRow>, column: string) {
    |column| >= 6 && column[..6] == "field." && exists row :: row in rows && column[6..] in row.fields
  }

  predicate HasColumn(header: seq<string>, k: nat, name: string) {
    exists j :: k <= j < |header| && header[j] == "field." + name
  }

  predicate FieldsAscend(a: string, b: string) { |a| >= 6 && |b| >= 6 && TextLess(a[6..], b[6..]) }

  predicate CellUnder(row: ExtractRow, column: string, cells: seq<string>, j: nat) {
    j < |cells| && |column| >= 6 && CellSays(row, column[6..], cells[j])
  }

  lemma FieldCellSays(row: ExtractRow, name: string)
    ensures CellSays(row, name, if name in row.fields then FieldCell(row.fields[name]) else "[absent]")
  {
  }
}
