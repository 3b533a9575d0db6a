/** The dashboard's address: a view printed into a URL hash and read back. */
module Router {
  import opened Outcomes
  import opened Decimal
  import opened Calendar
  import opened Orders
  import opened Bytes
  import opened ForensicTime
  import opened UrlText

  datatype Tab = Saved | Recovered

  datatype ViewLocation = ViewLocation(
    page: string, first: string, last: string, profiles: seq<string>,
    host: Option<string>, q: Option<string>, filter: Option<string>, tab: Tab, row: Option<string>)

  const DEFAULT_PAGE := "overview"

  predicate IsPageKey(s: string) {
    || s == "overview" || s == "candidates" || s == "timeline" || s == "sites" || s == "history"
    || s == "downloads" || s == "bookmarks" || s == "top-sites" || s == "cookies" || s == "credentials"
    || s == "autofill" || s == "cache" || s == "favicons" || s == "metadata"
  }

  // Profiles, in the order of their UTF-16 code units.

  /** Non-empty names, each where it first occurs. */
  function DistinctNames(ps: seq<string>): seq<string> {
    if ps == [] then []
    else
      var k := |ps| - 1;
      var before := DistinctNames(ps[..k]);
      if ps[k] == "" || ps[k] in before then before else before + [ps[k]]
  }

  function CanonicalProfiles(ps: seq<string>): seq<string> {
    Sort(UnitLess, DistinctNames(ps))
  }

  lemma {:induction false} NamesAre(ps: seq<string>)
    ensures Distinct(DistinctNames(ps)) && Members(DistinctNames(ps)) == Members(ps) - {""}
  {
    if ps != [] {
      var k := |ps| - 1;
      NamesAre(ps[..k]);
      var before := DistinctNames(ps[..k]);
      assert Members(ps) == Members(ps[..k]) + {ps[k]} by { assert ps == ps[..k] + [ps[k]]; }
      assert Members(before + [ps[k]]) == Members(before) + {ps[k]};
      assert ps[k] in before <==> ps[k] in Members(before);
    }
  }

  /** The one written form of a pick: its non-empty names, in ascending order. */
  lemma CanonicalProfilesAre(ps: seq<string>)
    ensures Ascending(UnitLess, CanonicalProfiles(ps)) && Members(CanonicalProfiles(ps)) == Members(ps) - {""}
  {
    hide UnitLess, Sort, DistinctNames;
    NamesAre(ps);
    UnitOrderIsTotal(Members(DistinctNames(ps)));
    SortAscending(UnitLess, DistinctNames(ps));
  }

  /** Picks of the same names have the same form, whatever their order and repeats. */
  lemma SamePickSameForm(a: seq<string>, b: seq<string>)
    ensures CanonicalProfiles(a) == CanonicalProfiles(b) <==> Members(a) - {""} == Members(b) - {""}
  {
    hide UnitLess, CanonicalProfiles, Ascending;
    CanonicalProfilesAre(a);
    CanonicalProfilesAre(b);
    UnitOrderIsTotal({});
    if Members(a) - {""} == Members(b) - {""} {
      AscendingUnique(UnitLess, CanonicalProfiles(a), CanonicalProfiles(b));
    }
  }

  lemma CanonicalProfilesStay(ps: seq<string>)
    ensures CanonicalProfiles(CanonicalProfiles(ps)) == CanonicalProfiles(ps)
  {
    hide CanonicalProfiles, Ascending, UnitLess;
    CanonicalProfilesAre(ps);
    SamePickSameForm(CanonicalProfiles(ps), ps);
  }

  // The date range.

  /** A real calendar day, `YYYY-MM-DD`. */
  predicate IsDay(s: string) {
    && |s| == 10 && s[4] == '-' && s[7] == '-'
    && AllDigits(s[..4]) && AllDigits(s[5..7]) && AllDigits(s[8..10])
    && IsDate(Date(ParseNat(s[..4]), ParseNat(s[5..7]), ParseNat(s[8..10])))
  }

  function NormalizeRange(first: string, last: string): (string, string) {
    var start, end := if IsDay(first) then first else "", if IsDay(last) then last else "";
    if start != "" && end != "" && TextLess(end, start) then (end, start) else (start, end)
  }

  /** Each end is open or a real day, never reversed; and normalizing again changes nothing. */
  lemma NormalizedRange(first: string, last: string)
    ensures var r := NormalizeRange(first, last);
      && (r.0 == "" || IsDay(r.0)) && (r.1 == "" || IsDay(r.1))
      && (r.0 != "" && r.1 != "" ==> !TextLess(r.1, r.0))
      && NormalizeRange(r.0, r.1) == r
  {
    hide IsDay, TextLess;
    if TextLess(first, last) && TextLess(last, first) {
      TextTransitive(first, last, first);
      TextIrreflexive(first);
    }
  }

  /** Text order of days is calendar order, so a closed range runs forward. */
  lemma RangeRunsForward(first: string, last: string)
    ensures var r := NormalizeRange(first, last);
      r.0 != "" && r.1 != "" ==> r.0 == r.1 || DateLess(DayDate(r.0), DayDate(r.1))
  {
    hide TextLess, IsDay, DateText;
    var r := NormalizeRange(first, last);
    NormalizedRange(first, last);
    if r.0 != "" && r.1 != "" {
      DayIsDateText(r.0);
      DayIsDateText(r.1);
      DateTextOrder(DayDate(r.0), DayDate(r.1));
      if r.0 != r.1 {
        TextComparable(r.0, r.1);
      }
    }
  }

  function DayDate(s: string): Date
    requires IsDay(s)
  {
    Date(ParseNat(s[..4]), ParseNat(s[5..7]), ParseNat(s[8..10]))
  }

  lemma DayIsDateText(s: string)
    requires IsDay(s)
    ensures IsDate(DayDate(s)) && 0 <= DayDate(s).year <= 9999 && DateText(DayDate(s)) == s
  {
    hide IsDate, DaysBefore;
    PadOfParse(s[..4]);
    PadOfParse(s[5..7]);
    PadOfParse(s[8..10]);
    assert Pow10(4) == 10_000;
    assert s == s[..4] + ("-" + (s[5..7] + ("-" + s[8..10])));
  }

  /** Every calendar day of the years 0 through 9999 is a day in its text, and nothing else is. */
  lemma DaysAreDateTexts(s: string)
    ensures IsDay(s) <==> exists d :: IsDate(d) && 0 <= d.year <= 9999 && DateText(d) == s
  {
    hide IsDay, IsDate, DateText;
    if IsDay(s) {
      DayIsDateText(s);
    }
    if d :| IsDate(d) && 0 <= d.year <= 9999 && DateText(d) == s {
      DateTextIsDay(d);
    }
  }

  lemma DateTextIsDay(d: Date)
    requires IsDate(d) && 0 <= d.year <= 9999
    ensures IsDay(DateText(d))
  {
    hide IsDate, Pad, ParseNat, Pow10;
    var s := DateText(d);
    FieldsFit(d);
    assert s == Pad(d.year, 4) + ("-" + (Pad(d.month, 2) + ("-" + Pad(d.day, 2))));
    assert s[..4] == Pad(d.year, 4) && s[5..7] == Pad(d.month, 2) && s[8..10] == Pad(d.day, 2);
    PadRoundTrip(d.year, 4);
    PadRoundTrip(d.month, 2);
    PadRoundTrip(d.day, 2);
  }

  lemma FieldsFit(d: Date)
    requires IsDate(d) && 0 <= d.year <= 9999
    ensures d.year < Pow10(4) && 0 <= d.month < Pow10(2) && 0 <= d.day < Pow10(2)
  {
    assert Pow10(4) == 10_000 && Pow10(2) == 100;
  }

  /** A text that is no day leaves its end open. Days that run forward stay as they are, and reversed ones are
      swapped. */
  lemma RangeIsKept(first: string, last: string)
    ensures var r := NormalizeRange(first, last);
      && (!IsDay(first) ==> r == ("", if IsDay(last) then last else ""))
      && (!IsDay(last) ==> r == (if IsDay(first) then first else "", ""))
      && (IsDay(first) && IsDay(last) && (first == last || DateLess(DayDate(first), DayDate(last))) ==> r == (first, last))
      && (IsDay(first) && IsDay(last) && DateLess(DayDate(last), DayDate(first)) ==> r == (last, first))
  {
    hide TextLess, IsDay, DateText;
    assert !IsDay("") by { DayIsLong(""); }
    TextIrreflexive(first);
    if IsDay(first) && IsDay(last) {
      DayIsLong(first);
      DayIsLong(last);
      DayIsDateText(first);
      DayIsDateText(last);
      DateTextOrder(DayDate(first), DayDate(last));
      DateTextOrder(DayDate(last), DayDate(first));
    }
  }

  lemma DayIsLong(s: string)
    ensures IsDay(s) ==> |s| == 10
  {
  }

  // Reading and printing.

  function Get(ps: seq<Pair>, name: string): Option<string> {
    var values := GetAll(ps, name);
    if values == [] then None else Some(values[0])
  }

  function GetAll(ps: seq<Pair>, name: string): seq<string> {
    if ps == [] then []
    else
      var k := |ps| - 1;
      GetAll(ps[..k], name) + if ps[k].name == name then [ps[k].value] else []
  }

  function TextOf(ps: seq<Pair>, name: string): Option<string> {
    var value := Get(ps, name);
    if value == Some("") then None else value
  }

  function Drop(s: string, c: char): string {
    if s != "" && s[0] == c then s[1..] else s
  }

  function WithoutTrailingSlashes(s: string): string {
    if s != "" && s[|s| - 1] == '/' then WithoutTrailingSlashes(s[..|s| - 1]) else s
  }

  predicate UriUnreserved(c: char) {
    || '0' <= c <= '9' || 'A' <= c <= 'Z' || 'a' <= c <= 'z'
    || c == '-' || c == '_' || c == '.' || c == '!' || c == '~' || c == '*' || c == '\'' || c == '(' || c == ')'
  }

  function EscapeBytes(b: bytes): string {
    if b == [] then "" else ['%', UpperHex(b[0] / 16), UpperHex(b[0] % 16)] + EscapeBytes(b[1..])
  }

  /** `encodeURIComponent` */
  function EncodeComponent(s: string): string {
    if s == "" then ""
    else (if UriUnreserved(s[0]) then [s[0]] else EscapeBytes(EncodeChar(s[0]))) + EncodeComponent(s[1..])
  }

  predicate IsEscape(s: string) {
    |s| >= 3 && s[0] == '%' && IsHexChar(s[1]) && IsHexChar(s[2])
  }

  predicate IsHexChar(c: char) { c as int < 0x80 && IsHexByte(c as int) }

  function EscapeValue(s: string): byte
    requires IsEscape(s)
  {
    HexByteValue(s[1] as int) * 16 + HexByteValue(s[2] as int)
  }

  /** How many bytes the sequence that a lead byte begins should have; 0 for no lead byte. */
  function SequenceLength(lead: byte): nat {
    if lead < 0x80 then 1 else if lead < 0xC0 then 0 else if lead < 0xE0 then 2
    else if lead < 0xF0 then 3 else if lead < 0xF8 then 4 else 0
  }

  function EscapedBytes(s: string, n: nat): Option<bytes> {
    if n == 0 then Some([])
    else if !IsEscape(s) then None
    else
      var rest := EscapedBytes(s[3..], n - 1);
      if rest.None? then None else Some([EscapeValue(s)] + rest.value)
  }

  /** `decodeURIComponent`; None where it throws. */
  function DecodeComponent(s: string): Option<string>
    decreases |s|
  {
    if s == "" then Some("")
    else if s[0] != '%' then
      var rest := DecodeComponent(s[1..]);
      if rest.None? then None else Some([s[0]] + rest.value)
    else if !IsEscape(s) then None
    else
      var n := SequenceLength(EscapeValue(s));
      var octets := if n == 0 then None else EscapedBytes(s, n);
      if octets.None? || |s| < 3 * n then None
      else
        var c := DecodeUtf8(octets.value);
        var rest := DecodeComponent(s[3 * n..]);
        if |c| != 1 || EncodeUtf8(c) != octets.value || rest.None? then None else Some(c + rest.value)
  }

  lemma {:induction false} EscapesRead(b: bytes, rest: string)
    ensures |EscapeBytes(b)| == 3 * |b| && EscapedBytes(EscapeBytes(b) + rest, |b|) == Some(b)
    ensures (EscapeBytes(b) + rest)[3 * |b|..] == rest
    ensures b != [] ==> IsEscape(EscapeBytes(b) + rest) && EscapeValue(EscapeBytes(b) + rest) == b[0]
  {
    hide UpperHex;
    if b == [] {
    } else {
      EscapesRead(b[1..], rest);
      assert (EscapeBytes(b) + rest)[3..] == EscapeBytes(b[1..]) + rest;
      assert b == [b[0]] + b[1..];
    }
  }

  lemma LeadTellsLength(c: char)
    ensures EncodeChar(c) != [] && SequenceLength(EncodeChar(c)[0]) == |EncodeChar(c)|
  {
  }

  lemma OneCharacter(c: char)
    ensures EncodeUtf8([c]) == EncodeChar(c)
  {
    hide EncodeChar;
    assert EncodeUtf8([c][1..]) == [];
  }

  lemma EscapedCharBack(c: char, rest: string)
    requires DecodeComponent(rest).Some?
    ensures DecodeComponent(EscapeBytes(EncodeChar(c)) + rest) == Some([c] + DecodeComponent(rest).value)
  {
    hide EncodeChar, DecodeUtf8, EncodeUtf8, EscapeBytes, EscapedBytes, IsEscape, EscapeValue, SequenceLength;
    var b := EncodeChar(c);
    var t := EscapeBytes(b) + rest;
    LeadTellsLength(c);
    EscapesRead(b, rest);
    OneCharacter(c);
    Utf8RoundTrip([c]);
    StartsEscape(t);
    assert t != "" && t[0] == '%';
    assert DecodeComponent(t[3 * |b|..]) == DecodeComponent(rest);
  }

  lemma StartsEscape(t: string)
    ensures IsEscape(t) ==> t != "" && t[0] == '%'
  {
  }

  /** `decodeURIComponent` undoes `encodeURIComponent`. */
  lemma {:induction false} ComponentRoundTrip(s: string)
    ensures DecodeComponent(EncodeComponent(s)) == Some(s)
  {
    hide EncodeChar, EscapeBytes, DecodeComponent;
    if s == "" {
      EmptyComponent();
    } else {
      ComponentRoundTrip(s[1..]);
      var rest := EncodeComponent(s[1..]);
      assert s == [s[0]] + s[1..];
      if UriUnreserved(s[0]) {
        PlainCharBack(s[0], rest);
      } else {
        EscapedCharBack(s[0], rest);
      }
    }
  }

  lemma EmptyComponent()
    ensures DecodeComponent("") == Some("")
  {
  }

  lemma PlainCharBack(c: char, rest: string)
    requires c != '%' && DecodeComponent(rest).Some?
    ensures DecodeComponent([c] + rest) == Some([c] + DecodeComponent(rest).value)
  {
    assert ([c] + rest)[1..] == rest;
  }

  /** `encodeURIComponent` leaves letters, digits and nine marks, and writes each byte of any other
      character as `%` and two upper-case digits. */
  lemma ComponentCharIs(c: char)
    ensures var n, marks := c as int, "-_.!~*'()";
      if 0x30 <= n <= 0x39 || 0x41 <= n <= 0x5A || 0x61 <= n <= 0x7A || c in marks then EncodeComponent([c]) == [c]
      else EncodeComponent([c]) == EscapeBytes(EncodeUtf8([c]))
    ensures forall b: byte :: EscapeBytes([b]) == "%" + [UpperHex(b / 16)] + [UpperHex(b % 16)]
  {
    hide EncodeChar, UpperHex, EscapeBytes;
    OneCharacter(c);
    assert EncodeComponent([c][1..]) == "";
    forall b: byte ensures EscapeBytes([b]) == "%" + [UpperHex(b / 16)] + [UpperHex(b % 16)] { OneEscape(b); }
  }

  lemma OneEscape(b: byte)
    ensures EscapeBytes([b]) == "%" + [UpperHex(b / 16)] + [UpperHex(b % 16)]
  {
    hide UpperHex;
    assert EscapeBytes([b][1..]) == "";
  }

  function PageOf(path: string): string {
    var decoded := DecodeComponent(WithoutTrailingSlashes(path));
    if decoded.Some? && IsPageKey(decoded.value) then decoded.value else DEFAULT_PAGE
  }

  function ParseLocation(hash: string): ViewLocation {
    var body := Drop(Drop(hash, '#'), '/');
    var query := ParseQuery(After(body, '?'));
    FromQuery(PageOf(Before(body, '?')), query)
  }

  function FromQuery(page: string, query: seq<Pair>): ViewLocation {
    var first, last := Get(query, "from"), Get(query, "to");
    var range := NormalizeRange(if first.Some? then first.value else "", if last.Some? then last.value else "");
    ViewLocation(
      page, range.0, range.1, CanonicalProfiles(GetAll(query, "profile")),
      TextOf(query, "host"), TextOf(query, "q"), TextOf(query, "filter"),
      if Get(query, "tab") == Some("recovered") then Recovered else Saved, TextOf(query, "row"))
  }

  datatype Parameter = Parameter(name: string, values: seq<string>)

  function Present(value: string): seq<string> { if value == "" then [] else [value] }

  function PresentText(value: Option<string>): seq<string> { if value.None? then [] else Present(value.value) }

  /** The parameters in their fixed order, each with the values it is given. */
  function Parameters(x: ViewLocation): seq<Parameter> {
    var range := NormalizeRange(x.first, x.last);
    [Parameter("from", Present(range.0)), Parameter("to", Present(range.1)),
     Parameter("profile", CanonicalProfiles(x.profiles)), Parameter("host", PresentText(x.host)),
     Parameter("q", PresentText(x.q)), Parameter("filter", PresentText(x.filter)),
     Parameter("tab", if x.tab.Recovered? then ["recovered"] else []), Parameter("row", PresentText(x.row))]
  }

  function PairsOf(name: string, values: seq<string>): seq<Pair> {
    seq(|values|, i requires 0 <= i < |values| => Pair(name, values[i]))
  }

  function QueryOf(ps: seq<Parameter>): seq<Pair> {
    if ps == [] then []
    else
      var k := |ps| - 1;
      QueryOf(ps[..k]) + PairsOf(ps[k].name, ps[k].values)
  }

  function Hash(page: string, query: seq<Pair>): string {
    var search := SerializeQuery(query);
    "#/" + EncodeComponent(if IsPageKey(page) then page else DEFAULT_PAGE) + if search == "" then "" else "?" + search
  }

  function Format(x: ViewLocation): string {
    Hash(x.page, QueryOf(Parameters(x)))
  }

  /** `query.append`, when there is a text to append. */
  method AppendText(query: seq<Pair>, name: string, value: Option<string>) returns (more: seq<Pair>)
    ensures more == query + StepText(name, value)
  {
    more := query;
    if value.Some? && value.value != "" {
      more := more + [Pair(name, value.value)];
    }
  }

  /** The printing, parameter by parameter. */
  method FormatLocation(x: ViewLocation) returns (hash: string)
    ensures hash == Format(x)
  {
    hide CanonicalProfiles, NormalizeRange, Parameters, QueryOf, Hash, StepText;
    var range := NormalizeRange(x.first, x.last);
    var query := AppendText([], "from", Some(range.0));
    query := AppendText(query, "to", Some(range.1));
    ghost var dated := query;
    var profiles := CanonicalProfiles(x.profiles);
    for i := 0 to |profiles|
      invariant query == dated + PairsOf("profile", profiles)[..i]
    {
      query := query + [Pair("profile", profiles[i])];
    }
    assert query == dated + PairsOf("profile", profiles);
    query := AppendText(query, "host", x.host);
    query := AppendText(query, "q", x.q);
    query := AppendText(query, "filter", x.filter);
    query := AppendText(query, "tab", if x.tab.Recovered? then Some("recovered") else None);
    query := AppendText(query, "row", x.row);
    QueryStepByStep(x);
    hash := Hash(x.page, query);
  }

  function StepText(name: string, value: Option<string>): seq<Pair> {
    if value.None? || value.value == "" then [] else [Pair(name, value.value)]
  }

  lemma StepIsPairs(name: string, value: Option<string>)
    ensures PairsOf(name, PresentText(value)) == StepText(name, value)
  {
  }

  lemma QueryStepByStep(x: ViewLocation)
    ensures var r := NormalizeRange(x.first, x.last);
      QueryOf(Parameters(x)) == [] + StepText("from", Some(r.0)) + StepText("to", Some(r.1))
        + PairsOf("profile", CanonicalProfiles(x.profiles))
        + StepText("host", x.host) + StepText("q", x.q) + StepText("filter", x.filter)
        + StepText("tab", if x.tab.Recovered? then Some("recovered") else None) + StepText("row", x.row)
  {
    hide CanonicalProfiles, NormalizeRange, PairsOf, StepText, QueryOf;
    var r := NormalizeRange(x.first, x.last);
    var tab := if x.tab.Recovered? then Some("recovered") else None;
    StepIsPairs("from", Some(r.0));
    StepIsPairs("to", Some(r.1));
    StepIsPairs("host", x.host);
    StepIsPairs("q", x.q);
    StepIsPairs("filter", x.filter);
    StepIsPairs("tab", tab);
    StepIsPairs("row", x.row);
    EightParameters(
      Parameter("from", Present(r.0)), Parameter("to", Present(r.1)), Parameter("profile", CanonicalProfiles(x.profiles)),
      Parameter("host", PresentText(x.host)), Parameter("q", PresentText(x.q)), Parameter("filter", PresentText(x.filter)),
      Parameter("tab", PresentText(tab)), Parameter("row", PresentText(x.row)));
    assert Present("recovered") == ["recovered"];
  }

  function PairsOfParameter(p: Parameter): seq<Pair> { PairsOf(p.name, p.values) }

  lemma EightParameters(a: Parameter, b: Parameter, c: Parameter, d: Parameter, e: Parameter, f: Parameter, g: Parameter,
                        h: Parameter)
    ensures QueryOf([a, b, c, d, e, f, g, h])
      == [] + PairsOfParameter(a) + PairsOfParameter(b) + PairsOfParameter(c) + PairsOfParameter(d)
         + PairsOfParameter(e) + PairsOfParameter(f) + PairsOfParameter(g) + PairsOfParameter(h)
  {
    hide PairsOf, QueryOf;
    QueryOfNone();
    QueryAppend([], a);
    QueryAppend([a], b);
    QueryAppend([a, b], c);
    QueryAppend([a, b, c], d);
    QueryAppend([a, b, c, d], e);
    QueryAppend([a, b, c, d, e], f);
    QueryAppend([a, b, c, d, e, f], g);
    QueryAppend([a, b, c, d, e, f, g], h);
    assert [] + [a] == [a] && [a] + [b] == [a, b] && [a, b] + [c] == [a, b, c] && [a, b, c] + [d] == [a, b, c, d];
    assert [a, b, c, d] + [e] == [a, b, c, d, e] && [a, b, c, d, e] + [f] == [a, b, c, d, e, f];
    assert [a, b, c, d, e, f] + [g] == [a, b, c, d, e, f, g];
    assert [a, b, c, d, e, f, g] + [h] == [a, b, c, d, e, f, g, h];
  }

  lemma QueryOfNone()
    ensures QueryOf([]) == []
  {
  }

  lemma QueryAppend(ps: seq<Parameter>, p: Parameter)
    ensures QueryOf(ps + [p]) == QueryOf(ps) + PairsOfParameter(p)
  {
    assert (ps + [p])[..|ps|] == ps;
  }

  // The round trip.

  /** The form a view is printed in. */
  function Canonical(x: ViewLocation): ViewLocation {
    var r := NormalizeRange(x.first, x.last);
    ViewLocation(
      if IsPageKey(x.page) then x.page else DEFAULT_PAGE, r.0, r.1, CanonicalProfiles(x.profiles),
      NonEmpty(x.host), NonEmpty(x.q), NonEmpty(x.filter), x.tab, NonEmpty(x.row))
  }

  function NonEmpty(value: Option<string>): Option<string> { if value == Some("") then None else value }

  predicate DistinctParameters(ps: seq<Parameter>) {
    forall i, j :: 0 <= i < j < |ps| ==> ps[i].name != ps[j].name
  }

  lemma {:induction false} GetAllConcat(a: seq<Pair>, b: seq<Pair>, name: string)
    ensures GetAll(a + b, name) == GetAll(a, name) + GetAll(b, name)
  {
    if b == [] {
      assert a + b == a;
    } else {
      var k := |b| - 1;
      assert (a + b)[..|a| + k] == a + b[..k];
      GetAllConcat(a, b[..k], name);
    }
  }

  lemma {:induction false} GetAllPairs(name: string, values: seq<string>, other: string)
    ensures GetAll(PairsOf(name, values), other) == if other == name then values else []
  {
    if values != [] {
      var k := |values| - 1;
      assert PairsOf(name, values)[..k] == PairsOf(name, values[..k]);
      GetAllPairs(name, values[..k], other);
    }
  }

  lemma {:induction false} GetAllAbsent(ps: seq<Parameter>, name: string)
    requires forall p :: p in ps ==> p.name != name
    ensures GetAll(QueryOf(ps), name) == []
  {
    hide PairsOf;
    if ps != [] {
      var k := |ps| - 1;
      GetAllAbsent(ps[..k], name);
      GetAllConcat(QueryOf(ps[..k]), PairsOf(ps[k].name, ps[k].values), name);
      GetAllPairs(ps[k].name, ps[k].values, name);
    }
  }

  lemma {:induction false} GetAllGives(ps: seq<Parameter>, i: nat)
    requires DistinctParameters(ps) && i < |ps|
    ensures GetAll(QueryOf(ps), ps[i].name) == ps[i].values
  {
    hide PairsOf;
    var k := |ps| - 1;
    GetAllConcat(QueryOf(ps[..k]), PairsOf(ps[k].name, ps[k].values), ps[i].name);
    GetAllPairs(ps[k].name, ps[k].values, ps[i].name);
    if i < k {
      GetAllGives(ps[..k], i);
    } else {
      GetAllAbsent(ps[..k], ps[i].name);
    }
  }

  lemma ParametersReadBack(x: ViewLocation)
    ensures FromQuery(Canonical(x).page, QueryOf(Parameters(x))) == Canonical(x)
  {
    hide CanonicalProfiles, NormalizeRange, QueryOf, GetAll, IsPageKey;
    var ps := Parameters(x);
    assert DistinctParameters(ps) by { NamesDiffer(); }
    GetAllGives(ps, 0);
    GetAllGives(ps, 1);
    GetAllGives(ps, 2);
    GetAllGives(ps, 3);
    GetAllGives(ps, 4);
    GetAllGives(ps, 5);
    GetAllGives(ps, 6);
    GetAllGives(ps, 7);
    NormalizedRange(x.first, x.last);
    CanonicalProfilesStay(x.profiles);
  }

  lemma NamesDiffer()
    ensures Distinct(["from", "to", "profile", "host", "q", "filter", "tab", "row"])
  {
    assert "from"[0] == 'f' && "filter"[1] == 'i' && "from"[1] == 'r' && "to"[1] == 'o' && "tab"[1] == 'a';
    assert "profile"[0] == 'p' && "host"[0] == 'h' && "q"[0] == 'q' && "row"[0] == 'r';
  }

  predicate LowerOrHyphen(s: string) {
    forall i :: 0 <= i < |s| ==> 'a' <= s[i] <= 'z' || s[i] == '-'
  }

  lemma PageKeysAreLower(page: string)
    requires IsPageKey(page)
    ensures LowerOrHyphen(page)
  {
  }

  lemma {:induction false} LowerIsUnescaped(s: string)
    requires LowerOrHyphen(s)
    ensures EncodeComponent(s) == s && DecodeComponent(s) == Some(s) && '?' !in s && WithoutTrailingSlashes(s) == s
    ensures s != "" ==> s[0] != '/'
  {
    if s != "" {
      LowerIsUnescaped(s[1..]);
      assert s == [s[0]] + s[1..];
    }
  }

  /** Reading back what was printed gives the view in its canonical form. */
  lemma ParseOfFormat(x: ViewLocation)
    ensures ParseLocation(Format(x)) == Canonical(x)
  {
    hide FromQuery, Parameters, SerializeQuery, ParseQuery, IsPageKey, EncodeComponent, DecodeComponent, Drop,
         WithoutTrailingSlashes, NormalizeRange, CanonicalProfiles, Before, After, Canonical, LowerOrHyphen, QueryOf;
    var page := if IsPageKey(x.page) then x.page else DEFAULT_PAGE;
    var query := QueryOf(Parameters(x));
    PageKeysAreLower(page);
    LowerIsUnescaped(page);
    QueryRoundTrip(query);
    PageNotEmpty(page);
    HashSplits(page, SerializeQuery(query));
    ParametersReadBack(x);
    CanonicalPage(x);
  }

  /** The address of a view, spelled out: the page, and the parameters that are not left out, in their fixed order. */
  lemma FormatSays(x: ViewLocation)
    ensures var r := NormalizeRange(x.first, x.last);
      var query := [] + StepText("from", Some(r.0)) + StepText("to", Some(r.1))
        + PairsOf("profile", CanonicalProfiles(x.profiles))
        + StepText("host", x.host) + StepText("q", x.q) + StepText("filter", x.filter)
        + StepText("tab", if x.tab.Recovered? then Some("recovered") else None) + StepText("row", x.row);
      Format(x) == "#/" + (if IsPageKey(x.page) then x.page else "overview")
        + (if query == [] then "" else "?" + SerializeQuery(query))
  {
    hide CanonicalProfiles, NormalizeRange, PairsOf, StepText, QueryOf, IsPageKey, EncodeComponent, DecodeComponent,
      SerializeQuery, LowerOrHyphen, WithoutTrailingSlashes;
    var page := if IsPageKey(x.page) then x.page else DEFAULT_PAGE;
    QueryStepByStep(x);
    DefaultIsPage();
    PageKeysAreLower(page);
    LowerIsUnescaped(page);
    SomeSearch(QueryOf(Parameters(x)));
  }

  lemma SomeSearch(query: seq<Pair>)
    ensures SerializeQuery(query) == "" <==> query == []
  {
    if query != [] {
      assert |SerializePair(query[0])| > 0;
    }
  }

  /** A view as the dashboard holds it: a page it has, open ends or days that run forward, distinct names in
      order, and no empty text. */
  predicate Plain(x: ViewLocation) {
    && IsPageKey(x.page) && (x.first == "" || IsDay(x.first)) && (x.last == "" || IsDay(x.last))
    && (x.first != "" && x.last != "" ==> x.first == x.last || DateLess(DayDate(x.first), DayDate(x.last)))
    && Ascending(UnitLess, x.profiles) && "" !in x.profiles
    && x.host != Some("") && x.q != Some("") && x.filter != Some("") && x.row != Some("")
  }

  /** Reading back such a view gives the view itself, every part of it. */
  lemma ParseOfPlain(x: ViewLocation)
    requires Plain(x)
    ensures ParseLocation(Format(x)) == x
  {
    hide ParseLocation, Format, IsDay, NormalizeRange, CanonicalProfiles, UnitLess, Ascending, IsPageKey;
    ParseOfFormat(x);
    RangeIsKept(x.first, x.last);
    DayIsLong("");
    CanonicalProfilesAre(x.profiles);
    UnitOrderIsTotal(Members(x.profiles));
    assert Members(x.profiles) - {""} == Members(x.profiles);
    AscendingUnique(UnitLess, CanonicalProfiles(x.profiles), x.profiles);
  }

  /** Whatever is read from an address is such a view. */
  lemma ParsedIsPlain(hash: string)
    ensures Plain(ParseLocation(hash))
  {
    hide ParseLocation, IsDay, NormalizeRange, CanonicalProfiles, UnitLess, Ascending, IsPageKey, DateText, DayDate;
    ParsedIsCanonical(hash);
    var x := ParseLocation(hash);
    NormalizedRange(x.first, x.last);
    RangeRunsForward(x.first, x.last);
    CanonicalProfilesAre(x.profiles);
    DefaultIsPage();
  }

  lemma DefaultIsPage()
    ensures IsPageKey(DEFAULT_PAGE)
  {
  }

  lemma HashSplits(page: string, search: string)
    requires LowerOrHyphen(page) && page != ""
    ensures var body := Drop(Drop("#/" + page + if search == "" then "" else "?" + search, '#'), '/');
      Before(body, '?') == page && After(body, '?') == search
  {
    hide LowerOrHyphen, Before, After, Drop, EncodeComponent, DecodeComponent, WithoutTrailingSlashes;
    LowerIsUnescaped(page);
    var rest := if search == "" then "" else "?" + search;
    assert "#/" + page + rest == "#/" + (page + rest);
    DropBoth(page + rest);
    if search == "" {
      NoSplit(page, '?');
      assert page + rest == page;
    } else {
      SplitsHere(page, '?', search);
      assert page + rest == page + ['?'] + search;
    }
  }

  lemma DropBoth(body: string)
    ensures Drop(Drop("#/" + body, '#'), '/') == body
  {
    assert ("#/" + body)[1..] == "/" + body && ("/" + body)[1..] == body;
  }

  lemma CanonicalPage(x: ViewLocation)
    ensures Canonical(x).page == if IsPageKey(x.page) then x.page else DEFAULT_PAGE
  {
  }

  lemma PageNotEmpty(page: string)
    requires IsPageKey(page)
    ensures page != ""
  {
  }

  /** The canonical form is printed the same, and is its own canonical form. */
  lemma CanonicalPrintsAlike(x: ViewLocation)
    ensures Format(Canonical(x)) == Format(x) && Canonical(Canonical(x)) == Canonical(x)
  {
    hide CanonicalProfiles, NormalizeRange, QueryOf, Hash;
    NormalizedRange(x.first, x.last);
    CanonicalProfilesStay(x.profiles);
    assert Parameters(Canonical(x)) == Parameters(x);
    SameHash(x.page, QueryOf(Parameters(x)));
  }

  lemma SameHash(page: string, query: seq<Pair>)
    ensures Hash(if IsPageKey(page) then page else DEFAULT_PAGE, query) == Hash(page, query)
  {
    hide SerializeQuery, EncodeComponent;
  }

  /** Whatever is in the address bar, the view read from it is canonical. */
  lemma ParsedIsCanonical(hash: string)
    ensures Canonical(ParseLocation(hash)) == ParseLocation(hash)
  {
    hide CanonicalProfiles, NormalizeRange, ParseQuery, GetAll, DecodeComponent, Before, After;
    var body := Drop(Drop(hash, '#'), '/');
    var query := ParseQuery(After(body, '?'));
    var first, last := Get(query, "from"), Get(query, "to");
    NormalizedRange(if first.Some? then first.value else "", if last.Some? then last.value else "");
    CanonicalProfilesStay(GetAll(query, "profile"));
  }

  /** Rewriting an address into its printed form settles after one step. */
  lemma FormatSettles(hash: string)
    ensures var printed := Format(ParseLocation(hash));
      ParseLocation(printed) == ParseLocation(hash) && Format(ParseLocation(printed)) == printed
  {
    hide ParseLocation, Format, Canonical;
    ParseOfFormat(ParseLocation(hash));
    ParsedIsCanonical(hash);
  }

  predicate SameLocation(a: ViewLocation, b: ViewLocation) { Format(a) == Format(b) }

  /** Two views have one URL exactly when their canonical forms agree. */
  lemma SameLocationIsSameForm(a: ViewLocation, b: ViewLocation)
    ensures SameLocation(a, b) <==> Canonical(a) == Canonical(b)
  {
    hide ParseLocation, Format, Canonical;
    ParseOfFormat(a);
    ParseOfFormat(b);
    CanonicalPrintsAlike(a);
    CanonicalPrintsAlike(b);
  }
}
