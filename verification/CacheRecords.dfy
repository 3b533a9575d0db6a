/** The records of one Simple Cache: which entry hashes become Findings and which Candidates. */
module CacheRecords {
  import opened Outcomes
  import opened Orders
  import opened Bytes
  import opened Hex
  import SimpleEntry
  import SimpleIndex

  const REAL_INDEX_NAME := "index-dir/the-real-index"

  /** A cache file of the Manifest, with the bytes its working copy holds. */
  datatype CacheFile = CacheFile(relativePath: string, ordinal: nat, copied: bool, data: bytes)

  datatype IndexState = Unusable(reason: string) | Usable(records: map<string, SimpleIndex.IndexRecord>)

  datatype Group = Group(stream0: Option<CacheFile>, files: seq<CacheFile>)

  datatype Finding = Finding(
    hash: string, primary: CacheFile, supporting: seq<CacheFile>, indexState: string,
    entry: SimpleEntry.Entry, record: Option<SimpleIndex.IndexRecord>)

  datatype CandidateKind = UnreadableEntry(reason: string) | DoomedEntry | EvictedReference

  datatype Candidate = Candidate(kind: CandidateKind, hash: string, rank: nat, count: nat)

  datatype Built = Built(findings: seq<Finding>, candidates: seq<Candidate>, payloads: map<string, bytes>)

  /** The text behind the last slash. */
  function BaseName(path: string): string {
    if path == "" then ""
    else if path[|path| - 1] == '/' then "" else BaseName(path[..|path| - 1]) + [path[|path| - 1]]
  }

  /** `<16 hex digits>_<0, 1 or s>` */
  predicate IsEntryName(name: string) {
    |name| == 18 && AllHex(name[..16]) && name[16] == '_' && (name[17] == '0' || name[17] == '1' || name[17] == 's')
  }

  predicate IsEntryFile(f: CacheFile) {
    f.copied && IsEntryName(BaseName(f.relativePath))
  }

  function HashOf(f: CacheFile): string
    requires IsEntryFile(f)
  {
    BaseName(f.relativePath)[..16]
  }

  predicate IsStream0(f: CacheFile)
    requires IsEntryFile(f)
  {
    BaseName(f.relativePath)[17] == '0'
  }

  function FindIndexFile(files: seq<CacheFile>): Option<CacheFile> {
    if files == [] then None
    else if files[0].relativePath == REAL_INDEX_NAME then Some(files[0]) else FindIndexFile(files[1..])
  }

  function FailureText(f: SimpleIndex.Failure): string {
    match f
    case Truncated => "simple_index_truncated"
    case BadHeader => "simple_index_bad_header"
    case BadMagic => "simple_index_bad_magic"
    case CrcMismatch => "simple_index_crc_mismatch"
    case EntryCountOverflow => "simple_index_entry_count_overflow"
    case MalformedEntries => "simple_index_malformed_entries"
  }

  function EntryFailureText(f: SimpleEntry.Failure): string {
    match f
    case NotSimpleMagic => "not_simple_magic"
    case Truncated => "truncated"
    case BadStream0Eof => "bad_stream0_eof"
    case BadStream1Eof => "bad_stream1_eof"
    case InconsistentLayout => "inconsistent_layout"
  }

  function IndexStateOf(d: SimpleEntry.Digests, files: seq<CacheFile>): IndexState {
    var file := FindIndexFile(files);
    if file.None? then Unusable("simple_index_absent")
    else if !file.value.copied then Unusable("simple_index_not_in_working_copy")
    else
      match SimpleIndex.IndexOf(d.crc32, file.value.data)
      case Ok(index) => Usable(index.records)
      case Err(e) => Unusable(FailureText(e))
  }

  /** The entry files of a hash, in Manifest order, and the last of them that is a `_0` file. */
  function GroupOf(files: seq<CacheFile>, hash: string): Group {
    if files == [] then Group(None, [])
    else
      var (g, f) := (GroupOf(files[..|files| - 1], hash), files[|files| - 1]);
      if IsEntryFile(f) && HashOf(f) == hash then Group(if IsStream0(f) then Some(f) else g.stream0, g.files + [f]) else g
  }

  function DiskHashes(files: seq<CacheFile>): set<string> {
    set f | f in files && IsEntryFile(f) :: HashOf(f)
  }

  function Grouped(files: seq<CacheFile>): map<string, Group> {
    map h | h in DiskHashes(files) :: GroupOf(files, h)
  }

  /** What one entry hash on disk becomes. */
  datatype Verdict =
    | AsFinding(finding: Finding)
    | AsCandidate(kind: CandidateKind, count: nat, entry: Option<SimpleEntry.Entry>)

  function Judge(d: SimpleEntry.Digests, index: IndexState, hash: string, g: Group): Verdict {
    if g.stream0.None? then AsCandidate(UnreadableEntry("missing_stream0"), |g.files|, None)
    else
      match SimpleEntry.ParseSimpleEntryFile(d, g.stream0.value.data)
      case Err(e) => AsCandidate(UnreadableEntry(EntryFailureText(e)), |g.files|, None)
      case Ok(entry) =>
        if index.Usable? && hash !in index.records then AsCandidate(DoomedEntry, |g.files|, Some(entry))
        else AsFinding(Finding(
                         hash, g.stream0.value, Others(g.files, g.stream0.value.ordinal),
                         if index.Unusable? then "unindexed" else "indexed", entry,
                         if index.Usable? then Some(index.records[hash]) else None))
  }

  function Others(files: seq<CacheFile>, ordinal: nat): seq<CacheFile> {
    if files == [] then []
    else (if files[0].ordinal == ordinal then [] else [files[0]]) + Others(files[1..], ordinal)
  }

  function EntryOf(v: Verdict): Option<SimpleEntry.Entry> {
    if v.AsFinding? then Some(v.finding.entry) else v.entry
  }

  /** A nonempty body is kept under its SHA-256. */
  function WithPayload(sha256: bytes -> string, v: Verdict, payloads: map<string, bytes>): map<string, bytes> {
    if EntryOf(v).Some? && EntryOf(v).value.stream1.size > 0
    then payloads[sha256(EntryOf(v).value.stream1.data) := EntryOf(v).value.stream1.data] else payloads
  }

  function Add(sha256: bytes -> string, b: Built, hash: string, v: Verdict): Built {
    if v.AsFinding? then Built(b.findings + [v.finding], b.candidates, WithPayload(sha256, v, b.payloads))
    else Built(b.findings, b.candidates + [Candidate(v.kind, hash, |b.candidates| + 1, v.count)], WithPayload(sha256, v, b.payloads))
  }

  /** The entry hashes in turn. */
  function EmitDisk(d: SimpleEntry.Digests, sha256: bytes -> string, index: IndexState, files: seq<CacheFile>, hashes: seq<string>): Built {
    if hashes == [] then Built([], [], map[])
    else
      var last := hashes[|hashes| - 1];
      Add(sha256, EmitDisk(d, sha256, index, files, hashes[..|hashes| - 1]), last, Judge(d, index, last, GroupOf(files, last)))
  }

  /** Then the index records no entry file was seen for. */
  function EmitEvicted(b: Built, seen: set<string>, hashes: seq<string>): Built {
    if hashes == [] then b
    else
      var (rest, last) := (EmitEvicted(b, seen, hashes[..|hashes| - 1]), hashes[|hashes| - 1]);
      if last in seen then rest
      else rest.(candidates := rest.candidates + [Candidate(EvictedReference, last, |rest.candidates| + 1, 1)])
  }

  function IndexHashes(index: IndexState): set<string> {
    if index.Usable? then index.records.Keys else {}
  }

  ghost function Records(d: SimpleEntry.Digests, sha256: bytes -> string, files: seq<CacheFile>): Built {
    TextIsTotalOrder(DiskHashes(files));
    TextIsTotalOrder(IndexHashes(IndexStateOf(d, files)));
    var index := IndexStateOf(d, files);
    EmitEvicted(EmitDisk(d, sha256, index, files, Listed(TextLess, DiskHashes(files))), DiskHashes(files),
                Listed(TextLess, IndexHashes(index)))
  }

  lemma GroupedSnoc(files: seq<CacheFile>, f: CacheFile)
    ensures var m, g := Grouped(files), Grouped(files + [f]);
      if !IsEntryFile(f) then g == m
      else
        var was := if HashOf(f) in m then m[HashOf(f)] else Group(None, []);
        g == m[HashOf(f) := Group(if IsStream0(f) then Some(f) else was.stream0, was.files + [f])]
  {
    assert (files + [f])[..|files|] == files;
    forall h | h !in DiskHashes(files) ensures GroupOf(files, h) == Group(None, []) { NoFiles(files, h); }
  }

  lemma {:induction false} NoFiles(files: seq<CacheFile>, hash: string)
    requires hash !in DiskHashes(files)
    ensures GroupOf(files, hash) == Group(None, [])
  {
    if files != [] {
      assert files[|files| - 1] in files;
      NoFiles(files[..|files| - 1], hash);
    }
  }

  /** The entry files of each hash. */
  method GroupFiles(files: seq<CacheFile>) returns (byHash: map<string, Group>)
    ensures byHash == Grouped(files)
  {
    hide Grouped, IsEntryFile, IsStream0, HashOf, DiskHashes;
    byHash := map[];
    NoGroups();
    for i := 0 to |files|
      invariant byHash == Grouped(files[..i])
    {
      var file := files[i];
      assert files[..i + 1] == files[..i] + [file];
      GroupedSnoc(files[..i], file);
      if IsEntryFile(file) {
        var existing := if HashOf(file) in byHash then byHash[HashOf(file)] else Group(None, []);
        byHash := byHash[HashOf(file) := Group(if IsStream0(file) then Some(file) else existing.stream0, existing.files + [file])];
      }
    }
    assert files[..|files|] == files;
  }

  lemma NoGroups()
    ensures Grouped([]) == map[]
  {
  }

  lemma GroupAt(files: seq<CacheFile>, hash: string)
    requires hash in DiskHashes(files)
    ensures hash in Grouped(files) && Grouped(files)[hash] == GroupOf(files, hash)
  {
  }

  lemma EmitNone(d: SimpleEntry.Digests, sha256: bytes -> string, index: IndexState, files: seq<CacheFile>)
    ensures EmitDisk(d, sha256, index, files, []) == Built([], [], map[])
  {
  }

  lemma EmitNext(d: SimpleEntry.Digests, sha256: bytes -> string, index: IndexState, files: seq<CacheFile>,
                 hashes: seq<string>, i: nat)
    requires i < |hashes|
    ensures EmitDisk(d, sha256, index, files, hashes[..i + 1])
      == Add(sha256, EmitDisk(d, sha256, index, files, hashes[..i]), hashes[i], Judge(d, index, hashes[i], GroupOf(files, hashes[i])))
  {
    hide Add, Judge, GroupOf;
    assert hashes[..i + 1][..i] == hashes[..i];
  }

  /** Judge each hash on disk in turn. */
  method JudgeHashes(d: SimpleEntry.Digests, sha256: bytes -> string, index: IndexState, files: seq<CacheFile>,
                     byHash: map<string, Group>, sortedHashes: seq<string>)
    returns (b: Built, seenHashes: set<string>)
    requires byHash == Grouped(files) && Members(sortedHashes) == DiskHashes(files)
    ensures b == EmitDisk(d, sha256, index, files, sortedHashes) && seenHashes == Members(sortedHashes)
  {
    hide Grouped, DiskHashes, GroupOf, SimpleEntry.ParseSimpleEntryFile, EntryFailureText, EmitDisk, Others;
    EmitNone(d, sha256, index, files);
    var findings: seq<Finding>, candidates: seq<Candidate>, payloads: map<string, bytes> := [], [], map[];
    var candidateRank := 0;
    seenHashes := {};
    for i := 0 to |sortedHashes|
      invariant candidateRank == |candidates| && seenHashes == Members(sortedHashes[..i])
      invariant Built(findings, candidates, payloads) == EmitDisk(d, sha256, index, files, sortedHashes[..i])
    {
      var hash := sortedHashes[i];
      assert hash in Members(sortedHashes);
      GroupAt(files, hash);
      EmitNext(d, sha256, index, files, sortedHashes, i);
      seenHashes := seenHashes + {hash};
      var group := byHash[hash];
      if group.stream0.None? {
        candidateRank := candidateRank + 1;
        candidates := candidates + [Candidate(UnreadableEntry("missing_stream0"), hash, candidateRank, |group.files|)];
        continue;
      }
      var parsed := SimpleEntry.ParseSimpleEntryFile(d, group.stream0.value.data);
      if parsed.Err? {
        candidateRank := candidateRank + 1;
        candidates := candidates + [Candidate(UnreadableEntry(EntryFailureText(parsed.error)), hash, candidateRank, |group.files|)];
        continue;
      }
      if parsed.value.stream1.size > 0 {
        payloads := payloads[sha256(parsed.value.stream1.data) := parsed.value.stream1.data];
      }
      if index.Usable? && hash !in index.records {
        candidateRank := candidateRank + 1;
        candidates := candidates + [Candidate(DoomedEntry, hash, candidateRank, |group.files|)];
        continue;
      }
      findings := findings + [Finding(hash, group.stream0.value, Others(group.files, group.stream0.value.ordinal),
                                      if index.Unusable? then "unindexed" else "indexed", parsed.value,
                                      if index.Usable? then Some(index.records[hash]) else None)];
    }
    assert sortedHashes[..|sortedHashes|] == sortedHashes;
    b := Built(findings, candidates, payloads);
  }

  /** The index records no entry file was seen for. */
  method AddEvicted(disk: Built, seenHashes: set<string>, indexHashes: seq<string>) returns (b: Built)
    ensures b == EmitEvicted(disk, seenHashes, indexHashes)
  {
    b := disk;
    var candidateRank := |b.candidates|;
    for i := 0 to |indexHashes|
      invariant candidateRank == |b.candidates| && b == EmitEvicted(disk, seenHashes, indexHashes[..i])
    {
      var hash := indexHashes[i];
      assert indexHashes[..i + 1][..i] == indexHashes[..i];
      if hash !in seenHashes {
        candidateRank := candidateRank + 1;
        b := b.(candidates := b.candidates + [Candidate(EvictedReference, hash, candidateRank, 1)]);
      }
    }
    assert indexHashes[..|indexHashes|] == indexHashes;
  }

  /** Group the entry files by hash, judge each hash, then add the evicted index references. */
  method BuildSimpleRecords(d: SimpleEntry.Digests, sha256: bytes -> string, files: seq<CacheFile>) returns (b: Built)
    ensures b == Records(d, sha256, files)
  {
    hide EmitDisk, EmitEvicted, IndexStateOf, GroupOf, DiskHashes, Listed, StrictOrder, TotalOn, Ascending;
    var index := IndexStateOf(d, files);
    var byHash := GroupFiles(files);
    var sortedHashes := SortedText(byHash.Keys);
    SortedIsListed(sortedHashes, DiskHashes(files));
    var disk, seenHashes := JudgeHashes(d, sha256, index, files, byHash, sortedHashes);
    var indexHashes: seq<string> := [];
    if index.Usable? {
      indexHashes := SortedText(index.records.Keys);
    }
    SortedIsListed(indexHashes, IndexHashes(index));
    b := AddEvicted(disk, seenHashes, indexHashes);
  }

  // What the records say of each hash.

  function FindingHashes(b: Built): (r: seq<string>)
    ensures |r| == |b.findings|
  {
    seq(|b.findings|, i requires 0 <= i < |b.findings| => b.findings[i].hash)
  }

  function CandidateHashes(b: Built): (r: seq<string>)
    ensures |r| == |b.candidates|
  {
    seq(|b.candidates|, i requires 0 <= i < |b.candidates| => b.candidates[i].hash)
  }

  /** Ranks count the Candidates up from 1 in the order they are emitted. */
  predicate Ranked(b: Built) {
    forall i :: 0 <= i < |b.candidates| ==> b.candidates[i].rank == i + 1
  }

  /** No hash has two records. */
  predicate OneRecordEach(b: Built) {
    Distinct(FindingHashes(b) + CandidateHashes(b))
  }

  /** The entry of a hash parses, and the index either lists it or cannot be used. */
  predicate IsLive(d: SimpleEntry.Digests, files: seq<CacheFile>, hash: string) {
    var g, index := GroupOf(files, hash), IndexStateOf(d, files);
    && g.stream0.Some? && SimpleEntry.ParseSimpleEntryFile(d, g.stream0.value.data).Ok?
    && (index.Unusable? || hash in index.records)
  }

  lemma AddFinding(b: Built, f: Finding, p: map<string, bytes>)
    ensures var c := Built(b.findings + [f], b.candidates, p);
      FindingHashes(c) == FindingHashes(b) + [f.hash] && CandidateHashes(c) == CandidateHashes(b)
  {
  }

  lemma AddCandidate(b: Built, k: Candidate, p: map<string, bytes>)
    ensures var c := Built(b.findings, b.candidates + [k], p);
      FindingHashes(c) == FindingHashes(b) && CandidateHashes(c) == CandidateHashes(b) + [k.hash]
  {
  }

  lemma DistinctInsert(a: seq<string>, b: seq<string>, x: string)
    requires Distinct(a + b) && x !in a && x !in b
    ensures Distinct(a + [x] + b) && Distinct(a + (b + [x]))
  {
    var u, v := a + [x] + b, a + (b + [x]);
    forall i, j | 0 <= i < j < |u| ensures u[i] != u[j] {
      assert i < |a| ==> u[i] == (a + b)[i];
      assert i > |a| ==> u[i] == (a + b)[i - 1];
      assert j < |a| ==> u[j] == (a + b)[j];
      assert j > |a| ==> u[j] == (a + b)[j - 1];
    }
    forall i, j | 0 <= i < j < |v| ensures v[i] != v[j] {
      assert v[i] == (a + b)[i];
      assert j < |a| + |b| ==> v[j] == (a + b)[j];
    }
  }

  /** Every hash on disk gets one record, a Finding exactly when it is live. */
  lemma {:induction false} DiskRecords(d: SimpleEntry.Digests, sha256: bytes -> string, files: seq<CacheFile>, hashes: seq<string>)
    requires Distinct(hashes)
    ensures var b := EmitDisk(d, sha256, IndexStateOf(d, files), files, hashes);
      && Ranked(b) && OneRecordEach(b)
      && (forall h :: h in FindingHashes(b) <==> h in hashes && IsLive(d, files, h))
      && (forall h :: h in CandidateHashes(b) <==> h in hashes && !IsLive(d, files, h))
  {
    hide IndexStateOf, GroupOf, SimpleEntry.ParseSimpleEntryFile, WithPayload, Others, EntryFailureText, OneRecordEach, Distinct,
      FindingHashes, CandidateHashes;
    if hashes == [] {
      EmptyRecords();
    } else {
      var n := |hashes| - 1;
      var rest, h := hashes[..n], hashes[n];
      DistinctPrefix(hashes);
      DiskRecords(d, sha256, files, rest);
      var index := IndexStateOf(d, files);
      var b := EmitDisk(d, sha256, index, files, rest);
      var v := Judge(d, index, h, GroupOf(files, h));
      var p := WithPayload(sha256, v, b.payloads);
      assert v.AsFinding? <==> IsLive(d, files, h);
      if v.AsFinding? {
        AddFinding(b, v.finding, p);
        InsertedFinding(b, v.finding, p);
      } else {
        AddCandidate(b, Candidate(v.kind, h, |b.candidates| + 1, v.count), p);
        InsertedCandidate(b, Candidate(v.kind, h, |b.candidates| + 1, v.count), p);
      }
      assert forall x :: x in hashes <==> x in rest || x == h by { assert hashes == rest + [h]; }
    }
  }

  lemma EmptyRecords()
    ensures var b := Built([], [], map[]); FindingHashes(b) == [] && CandidateHashes(b) == [] && OneRecordEach(b)
  {
  }

  lemma DistinctPrefix(hashes: seq<string>)
    requires Distinct(hashes) && hashes != []
    ensures Distinct(hashes[..|hashes| - 1]) && hashes[|hashes| - 1] !in hashes[..|hashes| - 1]
  {
  }

  lemma InsertedFinding(b: Built, f: Finding, p: map<string, bytes>)
    requires OneRecordEach(b) && f.hash !in FindingHashes(b) && f.hash !in CandidateHashes(b)
    ensures OneRecordEach(Built(b.findings + [f], b.candidates, p))
  {
    AddFinding(b, f, p);
    DistinctInsert(FindingHashes(b), CandidateHashes(b), f.hash);
  }

  lemma InsertedCandidate(b: Built, k: Candidate, p: map<string, bytes>)
    requires OneRecordEach(b) && k.hash !in FindingHashes(b) && k.hash !in CandidateHashes(b)
    ensures OneRecordEach(Built(b.findings, b.candidates + [k], p))
  {
    AddCandidate(b, k, p);
    DistinctInsert(FindingHashes(b), CandidateHashes(b), k.hash);
  }

  /** Each index hash that no file was seen for adds one Candidate; nothing else changes. */
  lemma {:induction false} EvictedRecords(b: Built, seen: set<string>, hashes: seq<string>)
    requires Distinct(hashes) && Ranked(b) && OneRecordEach(b)
    requires forall h :: h in FindingHashes(b) || h in CandidateHashes(b) ==> h in seen
    ensures var r := EmitEvicted(b, seen, hashes);
      && Ranked(r) && OneRecordEach(r) && r.findings == b.findings && r.payloads == b.payloads
      && (forall h :: h in CandidateHashes(r) <==> h in CandidateHashes(b) || (h in hashes && h !in seen))
  {
    hide OneRecordEach, Distinct, FindingHashes, CandidateHashes;
    if hashes != [] {
      var rest, h := hashes[..|hashes| - 1], hashes[|hashes| - 1];
      DistinctPrefix(hashes);
      EvictedRecords(b, seen, rest);
      var r := EmitEvicted(b, seen, rest);
      SameFindings(b, r);
      if h !in seen {
        AddCandidate(r, Candidate(EvictedReference, h, |r.candidates| + 1, 1), r.payloads);
        InsertedCandidate(r, Candidate(EvictedReference, h, |r.candidates| + 1, 1), r.payloads);
      }
      assert forall x :: x in hashes <==> x in rest || x == h by { assert hashes == rest + [h]; }
    }
  }

  lemma SameFindings(b: Built, r: Built)
    requires b.findings == r.findings
    ensures FindingHashes(b) == FindingHashes(r)
  {
  }

  /** Every hash seen in a copied entry file or in a usable index has exactly one record. It is a
      Finding exactly when a file of it was seen, the entry parses, and it is indexed or no index is
      usable; Candidate ranks are exactly 1..N in emission order. */
  lemma RecordsPartition(d: SimpleEntry.Digests, sha256: bytes -> string, files: seq<CacheFile>)
    ensures var b := Records(d, sha256, files);
      && Ranked(b) && OneRecordEach(b)
      && (forall h :: h in FindingHashes(b) <==> h in DiskHashes(files) && IsLive(d, files, h))
      && (forall h :: h in CandidateHashes(b) <==>
            if h in DiskHashes(files) then !IsLive(d, files, h) else h in IndexHashes(IndexStateOf(d, files)))
  {
    hide OneRecordEach, Distinct, FindingHashes, CandidateHashes, Ranked, IsLive, IndexStateOf, DiskHashes, EmitDisk, EmitEvicted,
      Listed, StrictOrder, TotalOn, Ascending;
    var disk, indexed := DiskHashes(files), IndexHashes(IndexStateOf(d, files));
    ListedDistinct(disk);
    ListedDistinct(indexed);
    var b := EmitDisk(d, sha256, IndexStateOf(d, files), files, Listed(TextLess, disk));
    DiskRecords(d, sha256, files, Listed(TextLess, disk));
    EvictedRecords(b, disk, Listed(TextLess, indexed));
    SameFindings(b, EmitEvicted(b, disk, Listed(TextLess, indexed)));
  }

  lemma ListedDistinct(s: set<string>)
    ensures StrictOrder(TextLess) && TotalOn(TextLess, s)
    ensures Distinct(Listed(TextLess, s)) && forall h :: h in Listed(TextLess, s) <==> h in s
  {
    TextIsTotalOrder(s);
    AscendingDistinct(TextLess, Listed(TextLess, s));
    assert forall h :: h in Listed(TextLess, s) <==> h in Members(Listed(TextLess, s));
  }

  // What each record says, by the names of the files.

  predicate EndsWith(path: string, tail: string) {
    |tail| <= |path| && path[|path| - |tail|..] == tail
  }

  /** The file has this name, in whatever directory. */
  predicate Named(f: CacheFile, name: string) {
    f.relativePath == name || EndsWith(f.relativePath, "/" + name)
  }

  predicate IsStream0Of(f: CacheFile, hash: string) {
    f.copied && Named(f, hash + "_0")
  }

  /** A copied file `<hash>_0`, `<hash>_1` or `<hash>_s`. */
  predicate IsFileOf(f: CacheFile, hash: string) {
    |hash| == 16 && AllHex(hash) && f.copied && (Named(f, hash + "_0") || Named(f, hash + "_1") || Named(f, hash + "_s"))
  }

  predicate LastStream0(files: seq<CacheFile>, hash: string, i: int) {
    && 0 <= i < |files| && IsStream0Of(files[i], hash)
    && forall j :: i < j < |files| ==> !IsStream0Of(files[j], hash)
  }

  function FilesOf(files: seq<CacheFile>, hash: string): seq<CacheFile> {
    if files == [] then []
    else
      var n := |files| - 1;
      FilesOf(files[..n], hash) + if IsFileOf(files[n], hash) then [files[n]] else []
  }

  lemma LastChar(path: string, tail: string)
    ensures EndsWith(path, tail) && tail != "" ==> path != "" && path[|path| - 1] == tail[|tail| - 1]
  {
    if EndsWith(path, tail) && tail != "" {
      assert path[|path| - |tail|..][|tail| - 1] == path[|path| - 1];
    }
  }

  lemma {:induction false} BaseNameIs(path: string, name: string)
    requires '/' !in name
    ensures BaseName(path) == name <==> path == name || EndsWith(path, "/" + name)
  {
    LastChar(path, "/" + name);
    if path != "" && path[|path| - 1] == '/' {
      assert path[|path| - 1..] == "/";
      assert name == "" ==> "/" + name == "/";
      assert name != "" ==> name[|name| - 1] in name && ("/" + name)[|name|] == name[|name| - 1];
    } else if path != "" && name != "" {
      var n, m := |path| - 1, |name| - 1;
      assert name == name[..m] + [name[m]] && path == path[..n] + [path[n]];
      BaseNameIs(path[..n], name[..m]);
      EndsWithNext(path[..n], "/" + name[..m], path[n], name[m]);
      assert ("/" + name[..m]) + [name[m]] == "/" + name;
    }
  }

  lemma EndsWithNext(path: string, tail: string, c: char, x: char)
    ensures EndsWith(path + [c], tail + [x]) <==> EndsWith(path, tail) && c == x
  {
    if |tail| <= |path| {
      var k := |path| - |tail|;
      assert (path + [c])[k..] == path[k..] + [c];
      assert (path[k..] + [c])[..|tail|] == path[k..] && (tail + [x])[..|tail|] == tail;
      assert (path[k..] + [c])[|tail|] == c && (tail + [x])[|tail|] == x;
    }
  }

  lemma NamedIs(f: CacheFile, name: string)
    requires '/' !in name
    ensures Named(f, name) <==> BaseName(f.relativePath) == name
  {
    BaseNameIs(f.relativePath, name);
  }

  lemma HashHasNoSlash(hash: string, tail: string)
    requires AllHex(hash) && '/' !in tail
    ensures '/' !in hash + tail
  {
  }

  lemma FileOfIs(f: CacheFile, hash: string)
    ensures IsFileOf(f, hash) <==> IsEntryFile(f) && HashOf(f) == hash
    ensures IsEntryFile(f) && HashOf(f) == hash ==> (IsStream0(f) <==> IsStream0Of(f, hash))
  {
    hide BaseName, EndsWith, Named;
    if |hash| == 16 && AllHex(hash) {
      HashHasNoSlash(hash, "_0");
      HashHasNoSlash(hash, "_1");
      HashHasNoSlash(hash, "_s");
      NamedIs(f, hash + "_0");
      NamedIs(f, hash + "_1");
      NamedIs(f, hash + "_s");
      var name := BaseName(f.relativePath);
      if IsEntryFile(f) && HashOf(f) == hash {
        assert name == name[..16] + [name[16]] + [name[17]];
      }
    }
  }

  lemma NoStrangeStream0(f: CacheFile, hash: string)
    requires |hash| == 16 && AllHex(hash) && IsStream0Of(f, hash)
    ensures IsFileOf(f, hash)
  {
  }

  lemma GroupOfLast(files: seq<CacheFile>, hash: string)
    requires files != [] && |hash| == 16 && AllHex(hash)
    ensures var f, g := files[|files| - 1], GroupOf(files[..|files| - 1], hash);
      GroupOf(files, hash) ==
        if IsFileOf(f, hash) then Group(if IsStream0Of(f, hash) then Some(f) else g.stream0, g.files + [f]) else g
  {
    hide IsFileOf, IsStream0Of, IsEntryFile, HashOf, IsStream0, AllHex;
    var f := files[|files| - 1];
    FileOfIs(f, hash);
    if IsStream0Of(f, hash) {
      NoStrangeStream0(f, hash);
    }
  }

  lemma LastStream0Next(files: seq<CacheFile>, hash: string, i: int)
    requires files != [] && !IsStream0Of(files[|files| - 1], hash) && LastStream0(files[..|files| - 1], hash, i)
    ensures LastStream0(files, hash, i) && files[i] == files[..|files| - 1][i]
  {
    hide IsStream0Of;
  }

  /** The group of a hash is its files in order, and the last of them that is a stream 0. */
  lemma {:induction false} GroupIs(files: seq<CacheFile>, hash: string)
    requires |hash| == 16 && AllHex(hash)
    ensures var g := GroupOf(files, hash);
      && g.files == FilesOf(files, hash)
      && (g.stream0.None? ==> forall i :: 0 <= i < |files| ==> !IsStream0Of(files[i], hash))
      && (g.stream0.Some? ==> exists i :: LastStream0(files, hash, i) && files[i] == g.stream0.value)
  {
    hide IsFileOf, IsStream0Of, AllHex, GroupOf;
    if files == [] {
      EmptyGroup(hash);
    } else {
      var n := |files| - 1;
      var before := GroupOf(files[..n], hash);
      GroupIs(files[..n], hash);
      GroupOfLast(files, hash);
      if IsStream0Of(files[n], hash) {
        NoStrangeStream0(files[n], hash);
        LastIsLast(files, hash);
      } else if before.stream0.Some? {
        var i :| LastStream0(files[..n], hash, i) && files[..n][i] == before.stream0.value;
        LastStream0Next(files, hash, i);
      } else {
        assert forall i :: 0 <= i < n ==> files[..n][i] == files[i];
      }
    }
  }

  lemma EmptyGroup(hash: string)
    ensures GroupOf([], hash) == Group(None, [])
  {
  }

  lemma LastIsLast(files: seq<CacheFile>, hash: string)
    requires files != [] && IsStream0Of(files[|files| - 1], hash)
    ensures LastStream0(files, hash, |files| - 1)
  {
    hide IsStream0Of;
  }

  lemma DiskHashIs(files: seq<CacheFile>, hash: string)
    ensures hash in DiskHashes(files) <==> exists f :: f in files && IsFileOf(f, hash)
    ensures hash in DiskHashes(files) ==> |hash| == 16 && AllHex(hash)
  {
    hide IsFileOf, IsEntryFile, HashOf, BaseName, AllHex;
    forall f | f in files ensures IsFileOf(f, hash) <==> IsEntryFile(f) && HashOf(f) == hash {
      FileOfIs(f, hash);
    }
    if hash in DiskHashes(files) {
      var f :| f in files && IsEntryFile(f) && HashOf(f) == hash;
      assert IsFileOf(f, hash);
      FileOfHash(f, hash);
    }
  }

  lemma FileOfHash(f: CacheFile, hash: string)
    requires IsFileOf(f, hash)
    ensures |hash| == 16 && AllHex(hash)
  {
  }

  /** A Finding is the parsed entry of the hash's last stream 0, with its other files and its index record. */
  ghost predicate SaysFinding(d: SimpleEntry.Digests, files: seq<CacheFile>, f: Finding) {
    var index := IndexStateOf(d, files);
    && (exists i :: LastStream0(files, f.hash, i) && f.primary == files[i]
                    && SimpleEntry.ParseSimpleEntryFile(d, files[i].data) == Ok(f.entry))
    && f.supporting == Others(FilesOf(files, f.hash), f.primary.ordinal)
    && (index.Unusable? ==> f.indexState == "unindexed" && f.record.None?)
    && (index.Usable? ==> f.indexState == "indexed" && f.hash in index.records && f.record == Some(index.records[f.hash]))
  }

  /** A Candidate says why its hash has no Finding, and counts its files. */
  ghost predicate SaysCandidate(d: SimpleEntry.Digests, files: seq<CacheFile>, c: Candidate) {
    var index, own := IndexStateOf(d, files), FilesOf(files, c.hash);
    match c.kind
    case UnreadableEntry(reason) =>
      && own != [] && c.count == |own|
      && ((reason == "missing_stream0" && forall i :: 0 <= i < |files| ==> !IsStream0Of(files[i], c.hash))
          || (exists i :: LastStream0(files, c.hash, i) && FailsWith(d, files[i], reason)))
    case DoomedEntry =>
      && own != [] && c.count == |own| && index.Usable? && c.hash !in index.records
      && (exists i :: LastStream0(files, c.hash, i) && SimpleEntry.ParseSimpleEntryFile(d, files[i].data).Ok?)
    case EvictedReference =>
      && (forall f :: f in files ==> !IsFileOf(f, c.hash))
      && index.Usable? && c.hash in index.records && c.count == 1
  }

  predicate FailsWith(d: SimpleEntry.Digests, f: CacheFile, reason: string) {
    var r := SimpleEntry.ParseSimpleEntryFile(d, f.data);
    && r.Err?
    && (r.error.NotSimpleMagic? ==> reason == "not_simple_magic") && (r.error.Truncated? ==> reason == "truncated")
    && (r.error.BadStream0Eof? ==> reason == "bad_stream0_eof") && (r.error.BadStream1Eof? ==> reason == "bad_stream1_eof")
    && (r.error.InconsistentLayout? ==> reason == "inconsistent_layout")
  }

  lemma {:induction false} SomeFiles(files: seq<CacheFile>, hash: string)
    ensures FilesOf(files, hash) != [] <==> exists f :: f in files && IsFileOf(f, hash)
  {
    hide IsFileOf;
    if files != [] {
      var n := |files| - 1;
      SomeFiles(files[..n], hash);
      assert files == files[..n] + [files[n]];
    }
  }

  lemma JudgeSays(d: SimpleEntry.Digests, files: seq<CacheFile>, hash: string)
    requires hash in DiskHashes(files)
    ensures var v := Judge(d, IndexStateOf(d, files), hash, GroupOf(files, hash));
      && (v.AsFinding? ==> SaysFinding(d, files, v.finding) && v.finding.hash == hash)
      && (v.AsCandidate? ==> forall rank :: SaysCandidate(d, files, Candidate(v.kind, hash, rank, v.count)))
  {
    hide IndexStateOf, GroupOf, FilesOf, IsFileOf, IsStream0Of, SimpleEntry.ParseSimpleEntryFile, Others, AllHex, DiskHashes;
    DiskHashIs(files, hash);
    GroupIs(files, hash);
    SomeFiles(files, hash);
    var g := GroupOf(files, hash);
    if g.stream0.Some? {
      var i :| LastStream0(files, hash, i) && files[i] == g.stream0.value;
      assert SimpleEntry.ParseSimpleEntryFile(d, files[i].data).Err? ==>
          FailsWith(d, files[i], EntryFailureText(SimpleEntry.ParseSimpleEntryFile(d, files[i].data).error));
    }
  }

  lemma {:induction false} DiskSays(d: SimpleEntry.Digests, sha256: bytes -> string, files: seq<CacheFile>, hashes: seq<string>)
    requires forall h :: h in hashes ==> h in DiskHashes(files)
    ensures var b := EmitDisk(d, sha256, IndexStateOf(d, files), files, hashes);
      && (forall f :: f in b.findings ==> SaysFinding(d, files, f))
      && (forall c :: c in b.candidates ==> SaysCandidate(d, files, c))
  {
    hide SaysFinding, SaysCandidate, IndexStateOf, GroupOf, Judge, WithPayload, DiskHashes;
    if hashes != [] {
      var n := |hashes| - 1;
      DiskSays(d, sha256, files, hashes[..n]);
      JudgeSays(d, files, hashes[n]);
    }
  }

  lemma {:induction false} EvictedSays(d: SimpleEntry.Digests, files: seq<CacheFile>, b: Built, hashes: seq<string>)
    requires forall h :: h in hashes ==> h in IndexHashes(IndexStateOf(d, files))
    requires forall c :: c in b.candidates ==> SaysCandidate(d, files, c)
    ensures forall c :: c in EmitEvicted(b, DiskHashes(files), hashes).candidates ==> SaysCandidate(d, files, c)
  {
    hide IndexStateOf, DiskHashes, SaysCandidate, IndexHashes;
    if hashes != [] {
      var n := |hashes| - 1;
      EvictedSays(d, files, b, hashes[..n]);
      if hashes[n] !in DiskHashes(files) {
        EvictedIs(d, files, hashes[n], |EmitEvicted(b, DiskHashes(files), hashes[..n]).candidates| + 1);
      }
    }
  }

  lemma EvictedIs(d: SimpleEntry.Digests, files: seq<CacheFile>, hash: string, rank: nat)
    requires hash in IndexHashes(IndexStateOf(d, files)) && hash !in DiskHashes(files)
    ensures SaysCandidate(d, files, Candidate(EvictedReference, hash, rank, 1))
  {
    hide IndexStateOf, DiskHashes, IsFileOf;
    DiskHashIs(files, hash);
  }

  /** So says every record of a cache. */
  lemma RecordsSay(d: SimpleEntry.Digests, sha256: bytes -> string, files: seq<CacheFile>)
    ensures forall f :: f in Records(d, sha256, files).findings ==> SaysFinding(d, files, f)
    ensures forall c :: c in Records(d, sha256, files).candidates ==> SaysCandidate(d, files, c)
  {
    hide SaysFinding, SaysCandidate, IndexStateOf, DiskHashes, EmitDisk, EmitEvicted, Listed, StrictOrder, TotalOn, Ascending;
    var disk, indexed := DiskHashes(files), IndexHashes(IndexStateOf(d, files));
    ListedDistinct(disk);
    ListedDistinct(indexed);
    var b := EmitDisk(d, sha256, IndexStateOf(d, files), files, Listed(TextLess, disk));
    DiskSays(d, sha256, files, Listed(TextLess, disk));
    EvictedSays(d, files, b, Listed(TextLess, indexed));
    EvictedKeepsRest(b, disk, Listed(TextLess, indexed));
  }

  /** A hash is live exactly when its last stream 0 parses and the index lists it or cannot be used. */
  lemma LiveExactly(d: SimpleEntry.Digests, files: seq<CacheFile>, hash: string)
    requires |hash| == 16 && AllHex(hash)
    ensures var index := IndexStateOf(d, files);
      IsLive(d, files, hash) <==>
        && (index.Unusable? || hash in index.records)
        && exists i :: LastStream0(files, hash, i) && SimpleEntry.ParseSimpleEntryFile(d, files[i].data).Ok?
  {
    hide IndexStateOf, GroupOf, IsStream0Of, SimpleEntry.ParseSimpleEntryFile, AllHex;
    GroupIs(files, hash);
    var g := GroupOf(files, hash);
    if g.stream0.Some? {
      var i :| LastStream0(files, hash, i) && files[i] == g.stream0.value;
      assert forall j :: LastStream0(files, hash, j) ==> j == i;
    }
  }

  predicate IsIndexFile(files: seq<CacheFile>, i: int) {
    && 0 <= i < |files| && files[i].relativePath == "index-dir/the-real-index"
    && forall j :: 0 <= j < i ==> files[j].relativePath != "index-dir/the-real-index"
  }

  /** The index in use is the first file of its name, if that was copied and reads as one; else the state says
      what is wrong. */
  lemma {:induction false} IndexFileIs(files: seq<CacheFile>)
    ensures var f := FindIndexFile(files);
      && (f.None? ==> forall i :: 0 <= i < |files| ==> files[i].relativePath != "index-dir/the-real-index")
      && (f.Some? ==> exists i :: IsIndexFile(files, i) && files[i] == f.value)
  {
    if files != [] {
      IndexFileIs(files[1..]);
      if files[0].relativePath == REAL_INDEX_NAME {
        assert IsIndexFile(files, 0);
      } else if FindIndexFile(files[1..]).Some? {
        var i :| IsIndexFile(files[1..], i) && files[1..][i] == FindIndexFile(files[1..]).value;
        assert forall j :: 0 <= j < i + 1 ==> files[j] == if j == 0 then files[0] else files[1..][j - 1];
        assert IsIndexFile(files, i + 1);
      } else {
        assert forall j :: 1 <= j < |files| ==> files[j] == files[1..][j - 1];
      }
    }
  }

  function IndexFailureText(e: SimpleIndex.Failure): string {
    if e.Truncated? then "simple_index_truncated"
    else if e.BadHeader? then "simple_index_bad_header"
    else if e.BadMagic? then "simple_index_bad_magic"
    else if e.CrcMismatch? then "simple_index_crc_mismatch"
    else if e.EntryCountOverflow? then "simple_index_entry_count_overflow"
    else "simple_index_malformed_entries"
  }

  lemma FailureTextIs(e: SimpleIndex.Failure)
    ensures FailureText(e) == IndexFailureText(e)
  {
  }

  lemma NoIndexSays(d: SimpleEntry.Digests, files: seq<CacheFile>)
    requires forall f :: f in files ==> f.relativePath != "index-dir/the-real-index"
    ensures IndexStateOf(d, files) == Unusable("simple_index_absent")
  {
    IndexFileIs(files);
  }

  lemma IndexStateSays(d: SimpleEntry.Digests, files: seq<CacheFile>, i: int)
    requires IsIndexFile(files, i)
    ensures var state, r := IndexStateOf(d, files), SimpleIndex.IndexOf(d.crc32, files[i].data);
      if files[i].copied && r.Ok? then state == Usable(r.value.records)
      else state == Unusable(if files[i].copied then IndexFailureText(r.error) else "simple_index_not_in_working_copy")
  {
    hide SimpleIndex.IndexOf, FailureText, IndexFailureText;
    IndexFileIs(files);
    if SimpleIndex.IndexOf(d.crc32, files[i].data).Err? {
      FailureTextIs(SimpleIndex.IndexOf(d.crc32, files[i].data).error);
    }
  }

  /** Payload files are named by their own digest, and every Finding with a body has its file. */
  ghost predicate HoldsBodies(sha256: bytes -> string, b: Built) {
    && NamedByDigest(sha256, b.payloads)
    && (forall f :: f in b.findings && f.entry.stream1.size > 0 ==> sha256(f.entry.stream1.data) in b.payloads)
  }

  ghost predicate NamedByDigest(sha256: bytes -> string, payloads: map<string, bytes>) {
    forall k :: k in payloads ==> sha256(payloads[k]) == k
  }

  lemma AddedBodyIsNamed(sha256: bytes -> string, payloads: map<string, bytes>, body: bytes)
    requires NamedByDigest(sha256, payloads)
    ensures NamedByDigest(sha256, payloads[sha256(body) := body])
  {
    var m := payloads[sha256(body) := body];
    forall k | k in m ensures sha256(m[k]) == k {
      if k != sha256(body) {
        assert k in payloads;
      }
    }
  }

  lemma {:induction false} DiskHoldsBodies(d: SimpleEntry.Digests, sha256: bytes -> string, index: IndexState,
                                           files: seq<CacheFile>, hashes: seq<string>)
    ensures HoldsBodies(sha256, EmitDisk(d, sha256, index, files, hashes))
  {
    hide GroupOf, SimpleEntry.ParseSimpleEntryFile, Others, EntryFailureText, NamedByDigest;
    if hashes == [] {
      NothingNamed(sha256);
    } else {
      DiskHoldsBodies(d, sha256, index, files, hashes[..|hashes| - 1]);
      var b := EmitDisk(d, sha256, index, files, hashes[..|hashes| - 1]);
      var v := Judge(d, index, hashes[|hashes| - 1], GroupOf(files, hashes[|hashes| - 1]));
      if EntryOf(v).Some? {
        AddedBodyIsNamed(sha256, b.payloads, EntryOf(v).value.stream1.data);
      }
    }
  }

  lemma NothingNamed(sha256: bytes -> string)
    ensures NamedByDigest(sha256, map[])
  {
  }

  lemma PayloadFilesHoldBodies(d: SimpleEntry.Digests, sha256: bytes -> string, files: seq<CacheFile>)
    ensures HoldsBodies(sha256, Records(d, sha256, files))
  {
    hide IndexStateOf, DiskHashes, EmitDisk, Listed, StrictOrder, TotalOn, Ascending, NamedByDigest;
    TextIsTotalOrder(DiskHashes(files));
    TextIsTotalOrder(IndexHashes(IndexStateOf(d, files)));
    var b := EmitDisk(d, sha256, IndexStateOf(d, files), files, Listed(TextLess, DiskHashes(files)));
    DiskHoldsBodies(d, sha256, IndexStateOf(d, files), files, Listed(TextLess, DiskHashes(files)));
    EvictedKeepsRest(b, DiskHashes(files), Listed(TextLess, IndexHashes(IndexStateOf(d, files))));
  }

  /** The payload of a hash: the body of its last stream 0, when that parses and the body is not empty. */
  ghost predicate IsBody(d: SimpleEntry.Digests, files: seq<CacheFile>, hash: string, body: bytes) {
    exists i :: LastStream0(files, hash, i) && ParsesWithBody(d, files[i], body)
  }

  predicate ParsesWithBody(d: SimpleEntry.Digests, f: CacheFile, body: bytes) {
    var r := SimpleEntry.ParseSimpleEntryFile(d, f.data);
    r.Ok? && r.value.stream1.size > 0 && r.value.stream1.data == body
  }

  lemma JudgedBody(d: SimpleEntry.Digests, files: seq<CacheFile>, hash: string, body: bytes)
    requires hash in DiskHashes(files)
    ensures var v := Judge(d, IndexStateOf(d, files), hash, GroupOf(files, hash));
      IsBody(d, files, hash, body) <==>
        EntryOf(v).Some? && EntryOf(v).value.stream1.size > 0 && EntryOf(v).value.stream1.data == body
  {
    hide IndexStateOf, GroupOf, IsStream0Of, SimpleEntry.ParseSimpleEntryFile, Others, EntryFailureText, AllHex, DiskHashes;
    DiskHashIs(files, hash);
    GroupIs(files, hash);
    var g := GroupOf(files, hash);
    if g.stream0.Some? {
      var i :| LastStream0(files, hash, i) && files[i] == g.stream0.value;
      assert forall j :: LastStream0(files, hash, j) ==> j == i;
    }
  }

  /** An entry on disk under the hash has a body with this digest. */
  ghost predicate HasBody(d: SimpleEntry.Digests, sha256: bytes -> string, files: seq<CacheFile>, hash: string, key: string) {
    exists body :: IsBody(d, files, hash, body) && sha256(body) == key
  }

  lemma JudgedHasBody(d: SimpleEntry.Digests, sha256: bytes -> string, files: seq<CacheFile>, hash: string, key: string)
    requires hash in DiskHashes(files)
    ensures var v := Judge(d, IndexStateOf(d, files), hash, GroupOf(files, hash));
      HasBody(d, sha256, files, hash, key) <==>
        EntryOf(v).Some? && EntryOf(v).value.stream1.size > 0 && sha256(EntryOf(v).value.stream1.data) == key
  {
    hide IndexStateOf, GroupOf, Judge, IsBody, DiskHashes;
    var v := Judge(d, IndexStateOf(d, files), hash, GroupOf(files, hash));
    if body :| IsBody(d, files, hash, body) && sha256(body) == key {
      JudgedBody(d, files, hash, body);
    }
    if EntryOf(v).Some? {
      JudgedBody(d, files, hash, EntryOf(v).value.stream1.data);
    }
  }

  lemma {:induction false} DiskPayloads(d: SimpleEntry.Digests, sha256: bytes -> string, files: seq<CacheFile>,
                                        hashes: seq<string>, key: string)
    requires forall h :: h in hashes ==> h in DiskHashes(files)
    ensures key in EmitDisk(d, sha256, IndexStateOf(d, files), files, hashes).payloads
      <==> exists h :: h in hashes && HasBody(d, sha256, files, h, key)
  {
    hide IndexStateOf, GroupOf, Judge, HasBody, DiskHashes;
    if hashes != [] {
      var n := |hashes| - 1;
      DiskPayloads(d, sha256, files, hashes[..n], key);
      JudgedHasBody(d, sha256, files, hashes[n], key);
      assert hashes == hashes[..n] + [hashes[n]];
      assert forall h :: h in hashes <==> h in hashes[..n] || h == hashes[n];
    }
  }

  /** The payload files are exactly the nonempty bodies of the entries on disk that parse, Findings and Candidates
      alike, each under its digest. */
  lemma PayloadsExactly(d: SimpleEntry.Digests, sha256: bytes -> string, files: seq<CacheFile>, key: string)
    ensures key in Records(d, sha256, files).payloads <==>
      exists h :: h in DiskHashes(files) && HasBody(d, sha256, files, h, key)
  {
    hide IndexStateOf, DiskHashes, EmitDisk, EmitEvicted, Listed, StrictOrder, TotalOn, Ascending, HasBody;
    var disk, indexed := DiskHashes(files), IndexHashes(IndexStateOf(d, files));
    ListedDistinct(disk);
    ListedDistinct(indexed);
    DiskPayloads(d, sha256, files, Listed(TextLess, disk), key);
    EvictedKeepsRest(EmitDisk(d, sha256, IndexStateOf(d, files), files, Listed(TextLess, disk)), disk, Listed(TextLess, indexed));
  }

  lemma {:induction false} EvictedKeepsRest(b: Built, seen: set<string>, hashes: seq<string>)
    ensures EmitEvicted(b, seen, hashes).findings == b.findings && EmitEvicted(b, seen, hashes).payloads == b.payloads
  {
    if hashes != [] {
      EvictedKeepsRest(b, seen, hashes[..|hashes| - 1]);
    }
  }
}
