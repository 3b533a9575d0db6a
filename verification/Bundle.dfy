/** Opening an Acquisition Bundle: checking its files against its manifest, and copying a Source out of it. */
module Bundle {
  import opened Outcomes
  import opened Orders
  import opened WorkingCopy
  import opened Acquisition
  import Hex
  import UrlText

  datatype BundleFile = BundleFile(path: Path, size: nat, sha256: string)

  datatype DiskKind = DiskFile | DiskDir | DiskSymlink | DiskSocket | DiskOther

  /** A node of the bundle tree, with what each later read of it answers: the inspection, the
      observation and the copy each read the file anew. */
  datatype DiskNode = DiskNode(
    path: Path, kind: DiskKind, statSize: nat,
    inspected: FileRead, observed: FileRead, createFails: bool, recopied: FileRead, link: Option<string>)

  datatype Outcome = Match | Mismatch | MissingOnDisk | MissingInManifest

  datatype Record = Record(
    path: Path, outcome: Outcome, expectedSize: Option<nat>, actualSize: Option<nat>,
    expectedSha256: Option<string>, actualSha256: Option<string>)

  const BUNDLE_MANIFEST: Path := ["bundle_manifest.json"]

  predicate DistinctNodes(nodes: seq<DiskNode>) {
    forall i, j :: 0 <= i < j < |nodes| ==> nodes[i].path != nodes[j].path
  }

  predicate DistinctFiles(files: seq<BundleFile>) {
    forall i, j :: 0 <= i < j < |files| ==> files[i].path != files[j].path
  }

  /** A relative path whose segments name what they say. */
  predicate Canonical(path: Path) {
    path != [] && forall s :: s in path ==> s != "" && s != "." && s != ".." && !HasBackslash(s)
  }

  predicate Leads(s: string) { s != "" && s != "." && s != ".." }

  /** A dot or an empty segment stays, two dots go up, and nothing leads above the root. */
  function Followed(before: Option<Path>, s: string): (r: Option<Path>)
    ensures r.Some? ==> before.Some? && |r.value| <= |before.value| + 1
  {
    if before.None? || s == "" || s == "." then before
    else if s == ".." then (if before.value == [] then None else Some(before.value[..|before.value| - 1]))
    else Some(before.value + [s])
  }

  /** Where a path leads. */
  function Resolved(path: Path): (r: Option<Path>)
    ensures r.Some? ==> |r.value| <= |path|
  {
    if path == [] then Some([]) else Followed(Resolved(path[..|path| - 1]), path[|path| - 1])
  }

  lemma FollowedAppends(before: Option<Path>, s: string, path: Path)
    requires before.Some? ==> |before.value| <= |path|
    ensures Followed(before, s) == Some(path + [s]) <==> Leads(s) && before == Some(path)
  {
    if Leads(s) && before.Some? {
      assert (before.value + [s])[..|before.value|] == before.value && (path + [s])[..|path|] == path;
    }
  }

  lemma LastLeads(path: Path)
    requires path != []
    ensures var k := |path| - 1;
      Resolved(path) == Some(path) <==> Leads(path[k]) && Resolved(path[..k]) == Some(path[..k])
  {
    hide Leads, Followed;
    var k := |path| - 1;
    FollowedAppends(Resolved(path[..k]), path[k], path[..k]);
    assert path == path[..k] + [path[k]];
  }

  lemma {:induction false} ResolvesToItself(path: Path)
    ensures Resolved(path) == Some(path) <==> forall s :: s in path ==> Leads(s)
  {
    hide Leads, Resolved;
    if path == [] {
      NothingResolves();
    } else {
      var k := |path| - 1;
      LastLeads(path);
      ResolvesToItself(path[..k]);
      assert path == path[..k] + [path[k]];
      assert forall s :: s in path <==> s in path[..k] || s == path[k];
    }
  }

  lemma NothingResolves()
    ensures Resolved([]) == Some([])
  {
  }

  /** A path is canonical exactly when it names something, resolves to itself and no segment has a backslash. */
  lemma CanonicalExactly(path: Path)
    ensures Canonical(path) <==> path != [] && Resolved(path) == Some(path) && forall s :: s in path ==> '\\' !in s
  {
    hide Resolved;
    ResolvesToItself(path);
  }

  /** `[0-9a-f]{64}` */
  predicate IsDigest(s: string) { |s| == 64 && Hex.AllHex(s) }

  lemma DigestExactly(s: string)
    ensures IsDigest(s) <==> |s| == 64 && forall i :: 0 <= i < 64 ==> '0' <= s[i] <= '9' || 'a' <= s[i] <= 'f'
  {
  }

  const MAX_SAFE_INTEGER: int := 9_007_199_254_740_991

  predicate WellFormedFile(f: BundleFile) {
    Canonical(f.path) && f.path != BUNDLE_MANIFEST && f.size <= MAX_SAFE_INTEGER && IsDigest(f.sha256)
  }

  /** The file list a bundle manifest may hold: well-formed files, no path twice, and not the manifest itself. */
  predicate Decodable(files: seq<BundleFile>) {
    DistinctFiles(files) && forall f :: f in files ==> WellFormedFile(f)
  }

  function FilePaths(files: seq<BundleFile>): set<Path> {
    set f | f in files :: f.path
  }

  function NodePaths(nodes: seq<DiskNode>): set<Path> {
    set n | n in nodes :: n.path
  }

  function FindNode(nodes: seq<DiskNode>, path: Path): Option<DiskNode> {
    if nodes == [] then None else if nodes[0].path == path then Some(nodes[0]) else FindNode(nodes[1..], path)
  }

  lemma {:induction false} FoundNode(nodes: seq<DiskNode>, path: Path)
    requires DistinctNodes(nodes)
    ensures var f := FindNode(nodes, path);
      && (f.Some? <==> path in NodePaths(nodes))
      && (f.Some? ==> f.value in nodes && f.value.path == path)
      && (forall n :: n in nodes && n.path == path ==> f == Some(n))
  {
    if nodes != [] {
      FoundNode(nodes[1..], path);
      assert forall n :: n in nodes <==> n == nodes[0] || n in nodes[1..];
    }
  }

  // The check of the bundle's files.

  function Digested(n: DiskNode): Option<BundleFile> {
    if n.kind.DiskFile? && n.inspected.Stable? then Some(BundleFile(n.path, n.inspected.size, n.inspected.sha256))
    else None
  }

  function ActualFiles(nodes: seq<DiskNode>): seq<BundleFile> {
    if nodes == [] then []
    else
      var k := |nodes| - 1;
      var n := nodes[k];
      ActualFiles(nodes[..k])
      + if n.path != BUNDLE_MANIFEST && Digested(n).Some? then [Digested(n).value] else []
  }

  function FileRecord(f: BundleFile, node: Option<DiskNode>): Record {
    if node.None? then Record(f.path, MissingOnDisk, Some(f.size), None, Some(f.sha256), None)
    else
      var actual := Digested(node.value);
      if actual.Some? then
        Record(f.path, if actual.value.size == f.size && actual.value.sha256 == f.sha256 then Match else Mismatch,
               Some(f.size), Some(actual.value.size), Some(f.sha256), Some(actual.value.sha256))
      else Record(f.path, Mismatch, Some(f.size), Some(node.value.statSize), Some(f.sha256), None)
  }

  function FileRecords(files: seq<BundleFile>, nodes: seq<DiskNode>): seq<Record> {
    seq(|files|, i requires 0 <= i < |files| => FileRecord(files[i], FindNode(nodes, files[i].path)))
  }

  predicate IsExtra(files: seq<BundleFile>, n: DiskNode) {
    n.path != BUNDLE_MANIFEST && n.path !in FilePaths(files) && !n.kind.DiskDir?
  }

  function ExtraRecord(n: DiskNode): Record {
    var actual := Digested(n);
    if actual.Some? then Record(n.path, MissingInManifest, None, Some(actual.value.size), None, Some(actual.value.sha256))
    else Record(n.path, MissingInManifest, None, Some(n.statSize), None, None)
  }

  function ExtraRecords(files: seq<BundleFile>, nodes: seq<DiskNode>): seq<Record> {
    if nodes == [] then []
    else
      var k := |nodes| - 1;
      ExtraRecords(files, nodes[..k]) + if IsExtra(files, nodes[k]) then [ExtraRecord(nodes[k])] else []
  }

  predicate RecordLess(pathLess: (Path, Path) -> bool, a: Record, b: Record) { pathLess(a.path, b.path) }

  function Records(pathLess: (Path, Path) -> bool, files: seq<BundleFile>, nodes: seq<DiskNode>): seq<Record> {
    Sort((a, b) => RecordLess(pathLess, a, b), FileRecords(files, nodes) + ExtraRecords(files, nodes))
  }

  function SortedActual(pathLess: (Path, Path) -> bool, nodes: seq<DiskNode>): seq<BundleFile> {
    Sort((a: BundleFile, b: BundleFile) => pathLess(a.path, b.path), ActualFiles(nodes))
  }

  datatype Inspection = Inspection(
    expectedDigest: string, actualDigest: string, sourceErrors: seq<string>, records: seq<Record>)

  datatype BundleManifest = BundleManifest(files: seq<BundleFile>, bundleDigest: string)

  function InspectionOf(pathLess: (Path, Path) -> bool, digestOf: seq<BundleFile> -> string, m: BundleManifest,
                        nodes: seq<DiskNode>, sourceErrors: seq<string>): Option<Inspection>
  {
    var manifestNode := FindNode(nodes, BUNDLE_MANIFEST);
    if manifestNode.None? || !manifestNode.value.kind.DiskFile? || !Decodable(m.files) || !IsDigest(m.bundleDigest) then None
    else Some(Inspection(m.bundleDigest, digestOf(SortedActual(pathLess, nodes)), sourceErrors,
                         Records(pathLess, m.files, nodes)))
  }

  // What each record says, of the list and of the disk.

  predicate ReadWhole(n: DiskNode) { n.kind.DiskFile? && n.inspected.Stable? }

  /** What was found at a node. */
  predicate SaysFound(n: DiskNode, r: Record) {
    if ReadWhole(n) then r.actualSize == Some(n.inspected.size) && r.actualSha256 == Some(n.inspected.sha256)
    else r.actualSize == Some(n.statSize) && r.actualSha256 == None
  }

  /** A listed file is missing when no node has its path, and matches when the node is a file that was read with
      its size and digest. */
  predicate SaysListed(f: BundleFile, nodes: seq<DiskNode>, r: Record) {
    && r.path == f.path && r.expectedSize == Some(f.size) && r.expectedSha256 == Some(f.sha256)
    && (r.outcome == MissingOnDisk <==> forall n :: n in nodes ==> n.path != f.path)
    && (r.outcome == MissingOnDisk ==> r.actualSize == None && r.actualSha256 == None)
    && (forall n :: n in nodes && n.path == f.path ==>
          && SaysFound(n, r)
          && r.outcome == if ReadWhole(n) && n.inspected.size == f.size && n.inspected.sha256 == f.sha256 then Match else Mismatch)
  }

  /** A node that the list does not name, and that is neither a directory nor the manifest. */
  predicate IsUnlisted(files: seq<BundleFile>, n: DiskNode) {
    n.path != ["bundle_manifest.json"] && !n.kind.DiskDir? && forall f :: f in files ==> f.path != n.path
  }

  predicate SaysUnlisted(n: DiskNode, r: Record) {
    r.path == n.path && r.outcome == MissingInManifest && r.expectedSize == None && r.expectedSha256 == None && SaysFound(n, r)
  }

  lemma {:induction false} ExtraRecordsAre(files: seq<BundleFile>, nodes: seq<DiskNode>, r: Record)
    ensures r in ExtraRecords(files, nodes) <==> exists n :: n in nodes && IsExtra(files, n) && r == ExtraRecord(n)
  {
    hide ExtraRecord, IsExtra;
    if nodes != [] {
      var k := |nodes| - 1;
      ExtraRecordsAre(files, nodes[..k], r);
      assert nodes == nodes[..k] + [nodes[k]];
    }
  }

  lemma FileRecordSays(f: BundleFile, nodes: seq<DiskNode>)
    requires DistinctNodes(nodes)
    ensures SaysListed(f, nodes, FileRecord(f, FindNode(nodes, f.path)))
  {
    hide FindNode, DistinctNodes;
    FoundNode(nodes, f.path);
  }

  lemma ExtraRecordSays(files: seq<BundleFile>, n: DiskNode)
    ensures IsExtra(files, n) <==> IsUnlisted(files, n)
    ensures SaysUnlisted(n, ExtraRecord(n))
  {
  }

  /** The records say that of every listed file and every unlisted node, and of nothing else. */
  lemma RecordsSay(pathLess: (Path, Path) -> bool, files: seq<BundleFile>, nodes: seq<DiskNode>)
    requires DistinctNodes(nodes)
    ensures forall r :: r in Records(pathLess, files, nodes) ==>
      || (exists f :: f in files && SaysListed(f, nodes, r))
      || (exists n :: n in nodes && IsUnlisted(files, n) && SaysUnlisted(n, r))
    ensures forall f :: f in files ==> exists r :: r in Records(pathLess, files, nodes) && SaysListed(f, nodes, r)
    ensures forall n :: n in nodes && IsUnlisted(files, n) ==>
      exists r :: r in Records(pathLess, files, nodes) && SaysUnlisted(n, r)
  {
    hide Sort, FindNode, FileRecord, ExtraRecord, ExtraRecords, IsExtra, IsUnlisted, SaysListed, SaysUnlisted, DistinctNodes;
    var listed, extra := FileRecords(files, nodes), ExtraRecords(files, nodes);
    RecordsMembers(pathLess, files, nodes);
    forall r | r in Records(pathLess, files, nodes)
      ensures (exists f :: f in files && SaysListed(f, nodes, r))
        || (exists n :: n in nodes && IsUnlisted(files, n) && SaysUnlisted(n, r))
    {
      if r in listed {
        var i :| 0 <= i < |listed| && listed[i] == r;
        FileRecordSays(files[i], nodes);
      } else {
        ExtraRecordsAre(files, nodes, r);
        var n :| n in nodes && IsExtra(files, n) && r == ExtraRecord(n);
        ExtraRecordSays(files, n);
      }
    }
    forall f | f in files ensures exists r :: r in Records(pathLess, files, nodes) && SaysListed(f, nodes, r) {
      var i :| 0 <= i < |files| && files[i] == f;
      assert listed[i] in listed;
      FileRecordSays(f, nodes);
    }
    forall n | n in nodes && IsUnlisted(files, n) ensures exists r :: r in Records(pathLess, files, nodes) && SaysUnlisted(n, r) {
      ExtraRecordSays(files, n);
      ExtraRecordsAre(files, nodes, ExtraRecord(n));
    }
  }

  /** And they come in the order of their paths. */
  lemma RecordsAreSorted(pathLess: (Path, Path) -> bool, files: seq<BundleFile>, nodes: seq<DiskNode>)
    requires Decodable(files) && DistinctNodes(nodes) && StrictOrder(pathLess)
    requires forall p, q :: p != q ==> pathLess(p, q) || pathLess(q, p)
    ensures forall i, j :: 0 <= i < j < |Records(pathLess, files, nodes)| ==>
      pathLess(Records(pathLess, files, nodes)[i].path, Records(pathLess, files, nodes)[j].path)
  {
    hide Decodable, DistinctNodes, FileRecords, ExtraRecords, Sort;
    var less := (a: Record, b: Record) => RecordLess(pathLess, a, b);
    var all := FileRecords(files, nodes) + ExtraRecords(files, nodes);
    Unsorted(files, nodes);
    assert StrictOrder(less);
    assert TotalOn(less, Members(all)) by {
      forall a, b | a in Members(all) && b in Members(all) && a != b ensures less(a, b) || less(b, a) {
        var i :| 0 <= i < |all| && all[i] == a;
        var j :| 0 <= j < |all| && all[j] == b;
      }
    }
    SortAscending(less, all);
  }

  lemma RecordsMembers(pathLess: (Path, Path) -> bool, files: seq<BundleFile>, nodes: seq<DiskNode>)
    ensures forall r :: r in Records(pathLess, files, nodes) <==> r in FileRecords(files, nodes) || r in ExtraRecords(files, nodes)
  {
    hide FileRecords, ExtraRecords, Sort;
    var all := FileRecords(files, nodes) + ExtraRecords(files, nodes);
    MultisetMembers(Records(pathLess, files, nodes), all);
    assert forall r :: r in Records(pathLess, files, nodes) <==> r in Members(Records(pathLess, files, nodes));
    assert forall r :: r in all <==> r in Members(all);
  }

  method DecodeFiles(files: seq<BundleFile>) returns (ok: bool)
    ensures ok <==> Decodable(files)
  {
    var paths: set<Path> := {};
    for i := 0 to |files|
      invariant paths == FilePaths(files[..i])
      invariant Decodable(files[..i])
    {
      var file := files[i];
      assert files[..i + 1] == files[..i] + [file] && file in files;
      if !Canonical(file.path) || file.path == BUNDLE_MANIFEST || file.path in paths {
        return false;
      }
      paths := paths + {file.path};
      if !IsDigest(file.sha256) || file.size > MAX_SAFE_INTEGER {
        return false;
      }
    }
    assert files[..|files|] == files;
    ok := true;
  }

  method CollectExpected(files: seq<BundleFile>, nodes: seq<DiskNode>, actualByPath: map<Path, BundleFile>)
    returns (records: seq<Record>)
    requires Decodable(files) && DistinctNodes(nodes) && ActualMap(nodes, actualByPath)
    ensures records == FileRecords(files, nodes)
  {
    hide Decodable, Digested, DistinctNodes, ActualMap, FindNode;
    records := [];
    for i := 0 to |files|
      invariant records == FileRecords(files, nodes)[..i]
    {
      var expected := files[i];
      var actualNode := FindNode(nodes, expected.path);
      FoundNode(nodes, expected.path);
      NotManifest(files, i);
      ActualIsDigested(nodes, actualByPath, expected.path);
      assert FileRecords(files, nodes)[i] == FileRecord(expected, actualNode);
      if actualNode.None? {
        records := records
          + [Record(expected.path, MissingOnDisk, Some(expected.size), None, Some(expected.sha256), None)];
      } else if expected.path in actualByPath {
        var actual := actualByPath[expected.path];
        var same := actual.size == expected.size && actual.sha256 == expected.sha256;
        records := records
          + [Record(expected.path, if same then Match else Mismatch, Some(expected.size), Some(actual.size),
                    Some(expected.sha256), Some(actual.sha256))];
      } else {
        records := records
          + [Record(expected.path, Mismatch, Some(expected.size), Some(actualNode.value.statSize),
                    Some(expected.sha256), None)];
      }
    }
  }

  method InspectBundle(pathLess: (Path, Path) -> bool, digestOf: seq<BundleFile> -> string, m: BundleManifest,
                       nodes: seq<DiskNode>, sourceErrors: seq<string>) returns (r: Option<Inspection>)
    requires DistinctNodes(nodes)
    ensures r == InspectionOf(pathLess, digestOf, m, nodes, sourceErrors)
  {
    hide Sort, Decodable, Digested, DistinctNodes, ActualMap, FileRecords, ExtraRecords, ActualFiles;
    var manifestNode := FindNode(nodes, BUNDLE_MANIFEST);
    if manifestNode.None? || !manifestNode.value.kind.DiskFile? {
      return None;
    }
    var ok := DecodeFiles(m.files);
    if !ok || !IsDigest(m.bundleDigest) {
      return None;
    }
    var actualByPath, actualFiles := CollectActual(nodes);
    var records := CollectExpected(m.files, nodes, actualByPath);
    var extras := CollectExtras(m.files, nodes, actualByPath);
    records := records + extras;
    assert records == FileRecords(m.files, nodes) + ExtraRecords(m.files, nodes);
    r := Some(Inspection(m.bundleDigest, digestOf(Sort((a: BundleFile, b: BundleFile) => pathLess(a.path, b.path), actualFiles)),
                         sourceErrors, Sort((a, b) => RecordLess(pathLess, a, b), records)));
  }

  /** The digest of every file that could be read whole, by path. */
  ghost predicate ActualMap(nodes: seq<DiskNode>, actual: map<Path, BundleFile>) {
    && (forall n :: n in nodes && n.path != BUNDLE_MANIFEST ==>
          if Digested(n).Some? then n.path in actual && actual[n.path] == Digested(n).value else n.path !in actual)
    && (forall p :: p in actual ==> p in NodePaths(nodes) && p != BUNDLE_MANIFEST)
  }

  lemma ActualIsDigested(nodes: seq<DiskNode>, actual: map<Path, BundleFile>, path: Path)
    requires DistinctNodes(nodes) && ActualMap(nodes, actual) && path != BUNDLE_MANIFEST
    ensures var n := FindNode(nodes, path);
      && (path in actual <==> n.Some? && Digested(n.value).Some?)
      && (path in actual ==> actual[path] == Digested(n.value).value)
  {
    FoundNode(nodes, path);
  }

  lemma NotManifest(files: seq<BundleFile>, i: nat)
    requires Decodable(files) && i < |files|
    ensures files[i].path != BUNDLE_MANIFEST
  {
    assert files[i] in files;
  }

  method CollectActual(nodes: seq<DiskNode>) returns (actual: map<Path, BundleFile>, files: seq<BundleFile>)
    requires DistinctNodes(nodes)
    ensures ActualMap(nodes, actual) && files == ActualFiles(nodes)
  {
    hide Digested;
    hide ActualMap;
    actual, files := map[], [];
    NoneDigested();
    for i := 0 to |nodes|
      invariant ActualMap(nodes[..i], actual)
      invariant files == ActualFiles(nodes[..i])
    {
      var node := nodes[i];
      assert nodes[..i + 1][..i] == nodes[..i];
      var digest := Digested(node);
      NextDigested(nodes, i, actual);
      if node.path != BUNDLE_MANIFEST && digest.Some? {
        actual := actual[node.path := digest.value];
        files := files + [digest.value];
      }
    }
    assert nodes[..|nodes|] == nodes;
  }

  lemma NoneDigested()
    ensures ActualMap([], map[])
  {
  }

  lemma NextDigested(nodes: seq<DiskNode>, i: nat, actual: map<Path, BundleFile>)
    requires i < |nodes| && DistinctNodes(nodes) && ActualMap(nodes[..i], actual)
    ensures var n := nodes[i];
      ActualMap(nodes[..i + 1],
        if n.path != BUNDLE_MANIFEST && Digested(n).Some? then actual[n.path := Digested(n).value] else actual)
  {
    hide Digested, DistinctNodes;
    NewPath(nodes, i);
    assert nodes[..i + 1] == nodes[..i] + [nodes[i]];
    assert NodePaths(nodes[..i + 1]) == NodePaths(nodes[..i]) + {nodes[i].path};
  }

  lemma NewPath(nodes: seq<DiskNode>, i: nat)
    requires i < |nodes| && DistinctNodes(nodes)
    ensures nodes[i].path !in NodePaths(nodes[..i])
  {
  }

  method CollectExtras(files: seq<BundleFile>, nodes: seq<DiskNode>, actual: map<Path, BundleFile>)
    returns (records: seq<Record>)
    requires DistinctNodes(nodes) && ActualMap(nodes, actual)
    ensures records == ExtraRecords(files, nodes)
  {
    hide Digested;
    var expectedPaths := FilePaths(files);
    records := [];
    for i := 0 to |nodes|
      invariant records == ExtraRecords(files, nodes[..i])
    {
      var node := nodes[i];
      assert nodes[..i + 1][..i] == nodes[..i];
      if node.path != BUNDLE_MANIFEST && node.path !in expectedPaths && !node.kind.DiskDir? {
        assert node in nodes;
        records := records + [
          if node.path in actual then
            Record(node.path, MissingInManifest, None, Some(actual[node.path].size), None, Some(actual[node.path].sha256))
          else Record(node.path, MissingInManifest, None, Some(node.statSize), None, None)
        ];
      }
    }
    assert nodes[..|nodes|] == nodes;
  }

  // What the records say.

  function RecordPaths(records: seq<Record>): set<Path> {
    set r | r in records :: r.path
  }

  predicate DistinctRecords(records: seq<Record>) {
    forall i, j :: 0 <= i < j < |records| ==> records[i].path != records[j].path
  }

  /** Paths of the files, links, sockets and other non-directories on disk, but for the manifest. */
  function ContentPaths(nodes: seq<DiskNode>): set<Path> {
    set n | n in nodes && n.path != BUNDLE_MANIFEST && !n.kind.DiskDir? :: n.path
  }

  lemma {:induction false} ExtrasAre(files: seq<BundleFile>, nodes: seq<DiskNode>)
    requires DistinctNodes(nodes)
    ensures var es := ExtraRecords(files, nodes);
      && DistinctRecords(es)
      && (forall r :: r in es ==> exists n :: n in nodes && IsExtra(files, n) && r == ExtraRecord(n))
      && (forall n :: n in nodes && IsExtra(files, n) ==> ExtraRecord(n) in es)
  {
    hide IsExtra, Digested;
    if nodes != [] {
      var k := |nodes| - 1;
      ExtrasAre(files, nodes[..k]);
      var before := ExtraRecords(files, nodes[..k]);
      forall r | r in ExtraRecords(files, nodes) ensures exists n :: n in nodes && IsExtra(files, n) && r == ExtraRecord(n) {
        if r in before {
          var n :| n in nodes[..k] && IsExtra(files, n) && r == ExtraRecord(n);
          assert n in nodes;
        } else {
          assert nodes[k] in nodes;
        }
      }
      forall r | r in before ensures r.path != nodes[k].path {
        var n :| n in nodes[..k] && IsExtra(files, n) && r == ExtraRecord(n);
        ExtraPath(n);
      }
      ExtraPath(nodes[k]);
      assert forall n :: n in nodes <==> n in nodes[..k] || n == nodes[k];
    }
  }

  lemma ExtraPath(n: DiskNode)
    ensures ExtraRecord(n).path == n.path && ExtraRecord(n).outcome == MissingInManifest
  {
  }

  lemma Unsorted(files: seq<BundleFile>, nodes: seq<DiskNode>)
    requires Decodable(files) && DistinctNodes(nodes)
    ensures var rs := FileRecords(files, nodes) + ExtraRecords(files, nodes);
      && DistinctRecords(rs) && RecordPaths(rs) == FilePaths(files) + ContentPaths(nodes)
  {
    hide Digested, FindNode, ExtraRecords, ExtraRecord;
    var fs, es := FileRecords(files, nodes), ExtraRecords(files, nodes);
    ExtrasAre(files, nodes);
    assert forall i :: 0 <= i < |fs| ==> fs[i].path == files[i].path;
    assert forall f :: f in fs ==> f.path in FilePaths(files);
    forall r | r in es ensures r.path !in FilePaths(files) && r.path in ContentPaths(nodes) {
      var n :| n in nodes && IsExtra(files, n) && r == ExtraRecord(n);
      ExtraPath(n);
    }
    forall p | p in FilePaths(files) ensures p in RecordPaths(fs + es) {
      var f :| f in files && f.path == p;
      var i :| 0 <= i < |files| && files[i] == f;
      assert fs[i] in fs + es;
    }
    forall p | p in ContentPaths(nodes) && p !in FilePaths(files) ensures p in RecordPaths(fs + es) {
      var n :| n in nodes && n.path == p && n.path != BUNDLE_MANIFEST && !n.kind.DiskDir?;
      ExtraPath(n);
      assert ExtraRecord(n) in fs + es;
    }
  }

  lemma DistinctSorted(a: seq<Record>, b: seq<Record>)
    requires DistinctRecords(a) && multiset(a) == multiset(b)
    ensures DistinctRecords(b) && RecordPaths(a) == RecordPaths(b)
  {
    MultisetMembers(a, b);
    assert forall r :: r in a <==> r in Members(a);
    assert forall r :: r in b <==> r in Members(b);
    PermutationKeepsKeys((r: Record) => r.path, a, b);
  }

  /** One record for each path the manifest lists or the disk holds. */
  lemma OneRecordPerPath(pathLess: (Path, Path) -> bool, files: seq<BundleFile>, nodes: seq<DiskNode>)
    requires Decodable(files) && DistinctNodes(nodes)
    ensures var rs := Records(pathLess, files, nodes);
      DistinctRecords(rs) && RecordPaths(rs) == FilePaths(files) + ContentPaths(nodes)
  {
    hide Digested, FindNode, ExtraRecords, FileRecords, Decodable, DistinctNodes;
    Unsorted(files, nodes);
    DistinctSorted(FileRecords(files, nodes) + ExtraRecords(files, nodes), Records(pathLess, files, nodes));
  }

  predicate AllMatch(records: seq<Record>) {
    forall r :: r in records ==> r.outcome.Match?
  }

  /** The disk holds exactly the listed files, each read whole with its listed size and digest. */
  predicate SameFiles(files: seq<BundleFile>, nodes: seq<DiskNode>) {
    && (forall f :: f in files ==> f in ActualFiles(nodes))
    && (forall p :: p in ContentPaths(nodes) ==> p in FilePaths(files))
  }

  lemma {:induction false} ActualAre(nodes: seq<DiskNode>)
    ensures forall f :: f in ActualFiles(nodes) <==>
      exists n :: n in nodes && n.path != BUNDLE_MANIFEST && Digested(n) == Some(f)
  {
    hide Digested;
    if nodes != [] {
      var k := |nodes| - 1;
      ActualAre(nodes[..k]);
      forall f ensures f in ActualFiles(nodes) <==> exists n :: n in nodes && n.path != BUNDLE_MANIFEST && Digested(n) == Some(f) {
        if f in ActualFiles(nodes[..k]) {
          var n :| n in nodes[..k] && n.path != BUNDLE_MANIFEST && Digested(n) == Some(f);
          assert n in nodes;
        }
        assert nodes[k] in nodes;
        if n :| n in nodes && n.path != BUNDLE_MANIFEST && Digested(n) == Some(f) {
          assert n in nodes[..k] || n == nodes[k];
        }
      }
    }
  }

  lemma RecordMatches(f: BundleFile, nodes: seq<DiskNode>)
    requires DistinctNodes(nodes) && f.path != BUNDLE_MANIFEST
    ensures FileRecord(f, FindNode(nodes, f.path)).outcome.Match? <==> f in ActualFiles(nodes)
  {
    hide FindNode, ActualFiles;
    FoundNode(nodes, f.path);
    ActualAre(nodes);
  }

  lemma MatchingIsSame(pathLess: (Path, Path) -> bool, files: seq<BundleFile>, nodes: seq<DiskNode>)
    requires Decodable(files) && DistinctNodes(nodes)
    ensures AllMatch(Records(pathLess, files, nodes)) <==> SameFiles(files, nodes)
  {
    hide Digested, FindNode, ExtraRecords, ExtraRecord, ActualFiles, FileRecord, ContentPaths;
    var fs, es := FileRecords(files, nodes), ExtraRecords(files, nodes);
    var rs := Records(pathLess, files, nodes);
    MultisetMembers(rs, fs + es);
    assert forall r :: r in rs <==> r in Members(rs);
    assert forall r :: r in fs + es <==> r in Members(fs + es);
    forall i | 0 <= i < |files| ensures fs[i].outcome.Match? <==> files[i] in ActualFiles(nodes) {
      assert files[i] in files;
      RecordMatches(files[i], nodes);
    }
    assert (forall r :: r in fs ==> r.outcome.Match?) <==> (forall f :: f in files ==> f in ActualFiles(nodes)) by {
      if forall r :: r in fs ==> r.outcome.Match? {
        forall f | f in files ensures f in ActualFiles(nodes) {
          var i :| 0 <= i < |files| && files[i] == f;
          assert fs[i] in fs;
        }
      }
    }
    NoExtras(files, nodes);
    assert forall r :: r in fs + es <==> r in fs || r in es;
  }

  lemma NoExtras(files: seq<BundleFile>, nodes: seq<DiskNode>)
    requires DistinctNodes(nodes)
    ensures (forall r :: r in ExtraRecords(files, nodes) ==> r.outcome.Match?) <==>
            (forall p :: p in ContentPaths(nodes) ==> p in FilePaths(files))
  {
    hide ExtraRecords, ExtraRecord;
    ExtrasAre(files, nodes);
    forall n: DiskNode ensures ExtraRecord(n).outcome == MissingInManifest {
      ExtraPath(n);
    }
    if p :| p in ContentPaths(nodes) && p !in FilePaths(files) {
      var n :| n in nodes && n.path == p && n.path != BUNDLE_MANIFEST && !n.kind.DiskDir?;
      assert ExtraRecord(n) in ExtraRecords(files, nodes);
    }
    if r :| r in ExtraRecords(files, nodes) {
      var n :| n in nodes && IsExtra(files, n) && r == ExtraRecord(n);
      assert n.path in ContentPaths(nodes) && n.path !in FilePaths(files);
    }
  }

  datatype Status = Verified | VerifiedWithDivergence

  function BundleStatus(i: Inspection, sourceRecords: seq<Record>): Status {
    if i.expectedDigest != i.actualDigest || i.sourceErrors != [] || !AllMatch(i.records + sourceRecords)
    then VerifiedWithDivergence else Verified
  }

  /** `verified` is given only to a bundle whose disk is its manifest. */
  lemma VerifiedIsSame(pathLess: (Path, Path) -> bool, digestOf: seq<BundleFile> -> string, m: BundleManifest,
                       nodes: seq<DiskNode>, sourceErrors: seq<string>, sourceRecords: seq<Record>)
    requires DistinctNodes(nodes)
    ensures var i := InspectionOf(pathLess, digestOf, m, nodes, sourceErrors);
      i.Some? && BundleStatus(i.value, sourceRecords).Verified? ==>
        && SameFiles(m.files, nodes) && sourceErrors == [] && AllMatch(sourceRecords)
        && m.bundleDigest == digestOf(SortedActual(pathLess, nodes))
  {
    hide Records, SortedActual, Decodable, SameFiles, FindNode;
    var i := InspectionOf(pathLess, digestOf, m, nodes, sourceErrors);
    if i.Some? && BundleStatus(i.value, sourceRecords).Verified? {
      MatchingIsSame(pathLess, m.files, nodes);
      assert forall r :: r in i.value.records ==> r in i.value.records + sourceRecords;
      assert forall r :: r in sourceRecords ==> r in i.value.records + sourceRecords;
    }
  }

  predicate FileLess(pathLess: (Path, Path) -> bool, a: BundleFile, b: BundleFile) { pathLess(a.path, b.path) }

  /** A collector lists its files in path order under their true digest: then the digest adds
      nothing to the records, and `verified` holds exactly of an unchanged bundle. */
  lemma VerifiedExactlySame(pathLess: (Path, Path) -> bool, digestOf: seq<BundleFile> -> string, m: BundleManifest,
                            nodes: seq<DiskNode>, sourceErrors: seq<string>, sourceRecords: seq<Record>)
    requires DistinctNodes(nodes) && StrictOrder(pathLess) && forall s :: TotalOn(pathLess, s)
    requires Decodable(m.files) && Ascending((a, b) => FileLess(pathLess, a, b), m.files)
    requires m.bundleDigest == digestOf(m.files)
    requires InspectionOf(pathLess, digestOf, m, nodes, sourceErrors).Some?
    ensures BundleStatus(InspectionOf(pathLess, digestOf, m, nodes, sourceErrors).value, sourceRecords).Verified? <==>
            SameFiles(m.files, nodes) && sourceErrors == [] && AllMatch(sourceRecords)
  {
    hide Records, SortedActual, Decodable, SameFiles, FindNode, TotalOn, StrictOrder, Ascending;
    VerifiedIsSame(pathLess, digestOf, m, nodes, sourceErrors, sourceRecords);
    if SameFiles(m.files, nodes) && sourceErrors == [] && AllMatch(sourceRecords) {
      MatchingIsSame(pathLess, m.files, nodes);
      SameIsSorted(pathLess, m.files, nodes);
      var i := InspectionOf(pathLess, digestOf, m, nodes, sourceErrors).value;
      assert forall r :: r in i.records + sourceRecords ==> r in i.records || r in sourceRecords;
    }
  }

  lemma SameIsSorted(pathLess: (Path, Path) -> bool, files: seq<BundleFile>, nodes: seq<DiskNode>)
    requires DistinctNodes(nodes) && StrictOrder(pathLess) && forall s :: TotalOn(pathLess, s)
    requires Decodable(files) && Ascending((a, b) => FileLess(pathLess, a, b), files) && SameFiles(files, nodes)
    ensures SortedActual(pathLess, nodes) == files
  {
    hide TotalOn, StrictOrder, Ascending, ActualFiles, Sort;
    var less := (a: BundleFile, b: BundleFile) => pathLess(a.path, b.path);
    var actual := ActualFiles(nodes);
    ActualDistinct(nodes);
    FileOrder(pathLess, actual);
    SortAscending(less, actual);
    SameMembersAsActual(files, nodes);
    SameOrder(pathLess, files);
    AscendingUnique(less, Sort(less, actual), files);
  }

  lemma SameOrder(pathLess: (Path, Path) -> bool, files: seq<BundleFile>)
    requires Ascending((a, b) => FileLess(pathLess, a, b), files)
    ensures Ascending((a: BundleFile, b: BundleFile) => pathLess(a.path, b.path), files)
  {
    forall i, j | 0 <= i < j < |files| ensures pathLess(files[i].path, files[j].path) {
      assert FileLess(pathLess, files[i], files[j]);
    }
  }

  lemma FileOrder(pathLess: (Path, Path) -> bool, files: seq<BundleFile>)
    requires StrictOrder(pathLess) && (forall s :: TotalOn(pathLess, s)) && DistinctFiles(files)
    ensures var less := (a: BundleFile, b: BundleFile) => pathLess(a.path, b.path);
      StrictOrder(less) && Distinct(files) && TotalOn(less, Members(files))
  {
    assert TotalOn(pathLess, FilePaths(files));
  }

  lemma {:induction false} ActualDistinct(nodes: seq<DiskNode>)
    requires DistinctNodes(nodes)
    ensures DistinctFiles(ActualFiles(nodes))
  {
    if nodes != [] {
      var k := |nodes| - 1;
      ActualDistinct(nodes[..k]);
      ActualAre(nodes[..k]);
      forall f | f in ActualFiles(nodes[..k]) ensures f.path != nodes[k].path {
        var n :| n in nodes[..k] && Digested(n) == Some(f);
      }
    }
  }

  lemma SameMembersAsActual(files: seq<BundleFile>, nodes: seq<DiskNode>)
    requires DistinctNodes(nodes) && Decodable(files) && SameFiles(files, nodes)
    ensures Members(files) == Members(ActualFiles(nodes))
  {
    hide ActualFiles;
    ActualAre(nodes);
    ActualDistinct(nodes);
    forall f | f in ActualFiles(nodes) ensures f in files {
      var n :| n in nodes && n.path != BUNDLE_MANIFEST && Digested(n) == Some(f);
      assert n.path in ContentPaths(nodes);
      var g :| g in files && g.path == n.path;
      assert g in ActualFiles(nodes);
    }
  }

  // Copying one Source out of the bundle.

  /** The nodes below a directory, named from there. */
  function ChildNodes(nodes: seq<DiskNode>, root: Path): seq<DiskNode> {
    if nodes == [] then []
    else
      var k := |nodes| - 1;
      var n := nodes[k];
      ChildNodes(nodes[..k], root) + if Below(root, n.path) then [n.(path := n.path[|root|..])] else []
  }

  lemma {:induction false} ChildNodesAre(nodes: seq<DiskNode>, root: Path)
    requires DistinctNodes(nodes)
    ensures DistinctNodes(ChildNodes(nodes, root))
    ensures forall path :: path in NodePaths(ChildNodes(nodes, root)) <==> path != [] && root + path in NodePaths(nodes)
  {
    if nodes != [] {
      var k := |nodes| - 1;
      var n := nodes[k];
      ChildNodesAre(nodes[..k], root);
      var before, all := ChildNodes(nodes[..k], root), ChildNodes(nodes, root);
      assert forall p :: p in NodePaths(nodes) <==> p in NodePaths(nodes[..k]) || p == n.path;
      if Below(root, n.path) {
        var rest := n.path[|root|..];
        assert root + rest == n.path && rest != [];
        assert all == before + [n.(path := rest)];
        assert rest !in NodePaths(before);
        assert forall i :: 0 <= i < |before| ==> before[i].path in NodePaths(before);
        assert forall path :: path in NodePaths(all) <==> path in NodePaths(before) || path == rest;
        assert forall path :: root + path == n.path ==> path == (root + path)[|root|..];
      } else {
        assert all == before;
        assert forall path: Path :: path != [] ==> Below(root, root + path);
      }
    }
  }

  function NodeTypeOf(kind: DiskKind): NodeType {
    match kind
    case DiskFile => File
    case DiskOther => File
    case DiskDir => Dir
    case DiskSymlink => Symlink
    case DiskSocket => Socket
  }

  function AbsentFrom(c: Config, e: Entry): Entry {
    Entry(e.path, Absent, None, AbsentNode, e.tier, false, None, Some(c.digestOf("absent")))
  }

  /** What the disk now shows at a path; None when the link cannot be read. */
  function ObserveDisk(c: Config, node: DiskNode, tier: Tier): Option<Entry> {
    match node.kind
    case DiskFile =>
      if node.observed.Stable? then
        Some(Entry(node.path, Value, None, File, tier, false, Some(node.observed.size), Some(node.observed.sha256)))
      else
        var reason := if node.observed.OpenFailed? || node.observed.ReadFailed? then IoError else ChangedDuringIngest;
        Some(Entry(node.path, Unavailable, Some(reason), File, tier, false, None, None))
    case DiskSymlink =>
      if node.link.None? then None
      else Some(Entry(node.path, Value, None, Symlink, tier, false, Some(|UrlText.EncodeUtf8(node.link.value)|),
                      Some(c.digestOf(node.link.value))))
    case DiskDir => Some(Entry(node.path, Value, None, Dir, tier, false, None, Some(c.digestOf("dir"))))
    case DiskSocket => Some(Entry(node.path, Value, None, Socket, tier, false, None, Some(c.digestOf("socket"))))
    case DiskOther => Some(Entry(node.path, Unavailable, Some(IoError), File, tier, false, None, None))
  }

  datatype Content = Content(size: nat, sha256: string)

  /** What becomes of one path: its entry, its record, and what was written of it. */
  datatype Judged = Judged(entry: Entry, record: Option<Record>, written: Option<Content>)

  function RecordOf(path: Path, outcome: Outcome, original: Option<Entry>, observed: Option<Entry>): Record {
    Record(path, outcome,
           if original.Some? then original.value.size else None, if observed.Some? then observed.value.size else None,
           if original.Some? then original.value.digest else None, if observed.Some? then observed.value.digest else None)
  }

  predicate SameContent(observed: Entry, original: Entry) {
    observed.state.Value? && observed.nodeType.File? && observed.size == original.size && observed.digest == original.digest
  }

  /** The copy is kept when the second read is stable and gives the recorded size and digest. */
  predicate CopyHolds(node: DiskNode, original: Entry) {
    && !node.createFails && node.recopied.Stable?
    && Some(node.recopied.size) == original.size && Some(node.recopied.sha256) == original.digest
  }

  /** The fate of a Manifest entry; None when the copy of the Source is given up. */
  function JudgeEntry(c: Config, nodes: seq<DiskNode>, original: Entry): Option<Judged> {
    var actual := FindNode(nodes, original.path);
    if !original.copied && (actual.None? || actual.value.kind.DiskDir?) then Some(Judged(original, None, None))
    else if actual.None? then
      Some(Judged(AbsentFrom(c, original), Some(RecordOf(original.path, MissingOnDisk, Some(original), None)), None))
    else
      var observed := ObserveDisk(c, actual.value, original.tier);
      if observed.None? then None
      else if !original.copied then
        Some(Judged(observed.value, Some(RecordOf(original.path, Mismatch, Some(original), observed)), None))
      else if !SameContent(observed.value, original) then
        Some(Judged(observed.value, Some(RecordOf(original.path, Mismatch, Some(original), observed)), None))
      else if CopyHolds(actual.value, original) then
        Some(Judged(original, Some(RecordOf(original.path, Match, Some(original), observed)),
                    Some(Content(actual.value.recopied.size, actual.value.recopied.sha256))))
      else None
  }

  /** The fate of a node that no Manifest entry names. */
  function JudgeExtra(c: Config, node: DiskNode): Option<Judged> {
    var observed := ObserveDisk(c, node, c.classify(node.path, NodeTypeOf(node.kind)));
    if observed.None? then None
    else Some(Judged(observed.value,
                     if node.kind.DiskDir? then None else Some(RecordOf(node.path, MissingInManifest, None, observed)), None))
  }

  function JudgeEntries(c: Config, nodes: seq<DiskNode>, originals: seq<Entry>): Option<seq<Judged>> {
    if originals == [] then Some([])
    else
      var k := |originals| - 1;
      var before := JudgeEntries(c, nodes, originals[..k]);
      if before.None? then None
      else
        var last := JudgeEntry(c, nodes, originals[k]);
        if last.None? then None else Some(before.value + [last.value])
  }

  function JudgeExtras(c: Config, nodes: seq<DiskNode>, known: set<Path>): Option<seq<Judged>> {
    if nodes == [] then Some([])
    else
      var k := |nodes| - 1;
      var before := JudgeExtras(c, nodes[..k], known);
      if before.None? || nodes[k].path in known then before
      else
        var last := JudgeExtra(c, nodes[k]);
        if last.None? then None else Some(before.value + [last.value])
  }

  function JudgeAll(c: Config, nodes: seq<DiskNode>, originals: seq<Entry>): Option<seq<Judged>> {
    var kept := JudgeEntries(c, nodes, originals);
    if kept.None? then None
    else
      var extra := JudgeExtras(c, nodes, PathsOf(originals));
      if extra.None? then None else Some(kept.value + extra.value)
  }

  function EntriesOf(js: seq<Judged>): (es: seq<Entry>)
    ensures |es| == |js| && forall i :: 0 <= i < |js| ==> es[i] == js[i].entry
  {
    seq(|js|, i requires 0 <= i < |js| => js[i].entry)
  }

  function SourceRecords(js: seq<Judged>): seq<Record> {
    if js == [] then []
    else
      var k := |js| - 1;
      SourceRecords(js[..k]) + if js[k].record.Some? then [js[k].record.value] else []
  }

  /** The Working Copy those judgements leave. */
  function WrittenBy(js: seq<Judged>): map<Path, Content> {
    if js == [] then map[]
    else
      var k := |js| - 1;
      if js[k].written.Some? then WrittenBy(js[..k])[js[k].entry.path := js[k].written.value] else WrittenBy(js[..k])
  }

  datatype Materialized = Materialized(entries: seq<Entry>, records: seq<Record>)

  function MaterializedOf(c: Config, pathLess: (Path, Path) -> bool, nodes: seq<DiskNode>, originals: seq<Entry>)
    : Option<Materialized>
  {
    var js := JudgeAll(c, nodes, originals);
    if js.None? then None
    else
      var entries := SortManifestEntries(c, EntriesOf(js.value));
      if entries.None? then None
      else Some(Materialized(entries.value, Sort((a, b) => RecordLess(pathLess, a, b), SourceRecords(js.value))))
  }

  /** The Working Copy a Source is copied into. */
  class Materializer {
    const config: Config
    var files: map<Path, Content>
    var entries: seq<Entry>
    var records: seq<Record>
    ghost var judged: seq<Judged>

    constructor (config: Config)
      ensures this.config == config && Holds([])
    {
      this.config := config;
      files, entries, records, judged := map[], [], [], [];
    }

    /** The fields follow from the judgements so far. */
    ghost predicate Holds(js: seq<Judged>) reads this {
      judged == js && entries == EntriesOf(js) && records == SourceRecords(js) && files == WrittenBy(js)
    }

    method Push(entry: Entry, recorded: Option<Record>, ghost written: Option<Content>)
      requires entries == EntriesOf(judged) && records == SourceRecords(judged)
      requires files == WrittenBy(judged + [Judged(entry, recorded, written)])
      modifies this
      ensures Holds(old(judged) + [Judged(entry, recorded, written)])
    {
      ghost var j := Judged(entry, recorded, written);
      assert (judged + [j])[..|judged|] == judged;
      entries := entries + [entry];
      if recorded.Some? {
        records := records + [recorded.value];
      }
      judged := judged + [j];
      assert entries == EntriesOf(judged);
    }

    /** Create the copy, read the file again into it, and keep it only if it is what was recorded. */
    method CopyVerifiedFile(node: DiskNode, original: Entry) returns (ok: bool)
      requires original.path !in files
      modifies this`files
      ensures ok <==> CopyHolds(node, original)
      ensures files == if ok then old(files)[original.path := Content(node.recopied.size, node.recopied.sha256)] else old(files)
    {
      if node.createFails || original.path in files {
        return false;
      }
      if node.recopied.Stable? {
        files := files[original.path := Content(node.recopied.size, node.recopied.sha256)];
      } else {
        files := files[original.path := Content(0, "")];
      }
      ok := node.recopied.Stable? && Some(node.recopied.size) == original.size
        && Some(node.recopied.sha256) == original.digest;
      if !ok {
        files := files - {original.path};
      }
    }

    method MaterializeEntry(nodes: seq<DiskNode>, original: Entry) returns (ok: bool)
      requires Holds(judged) && original.path !in files
      modifies this
      ensures ok <==> JudgeEntry(config, nodes, original).Some?
      ensures ok ==> Holds(old(judged) + [JudgeEntry(config, nodes, original).value])
    {
      hide EntriesOf, SourceRecords, FindNode, ObserveDisk, RecordOf;
      WrittenNext(judged);
      var actual := FindNode(nodes, original.path);
      if !original.copied && (actual.None? || actual.value.kind.DiskDir?) {
        Push(original, None, None);
        return true;
      }
      if actual.None? {
        Push(AbsentFrom(config, original), Some(RecordOf(original.path, MissingOnDisk, Some(original), None)), None);
        return true;
      }
      var observed := ObserveDisk(config, actual.value, original.tier);
      if observed.None? {
        return false;
      }
      if original.copied && SameContent(observed.value, original) {
        ok := CopyVerifiedFile(actual.value, original);
        if !ok {
          return;
        }
        Push(original, Some(RecordOf(original.path, Match, Some(original), observed)),
             Some(Content(actual.value.recopied.size, actual.value.recopied.sha256)));
      } else {
        Push(observed.value, Some(RecordOf(original.path, Mismatch, Some(original), observed)), None);
      }
      ok := true;
    }

    method MaterializeExtra(node: DiskNode) returns (ok: bool)
      requires Holds(judged)
      modifies this
      ensures ok <==> JudgeExtra(config, node).Some?
      ensures ok ==> Holds(old(judged) + [JudgeExtra(config, node).value])
    {
      hide EntriesOf, SourceRecords, ObserveDisk, RecordOf;
      WrittenNext(judged);
      var observed := ObserveDisk(config, node, config.classify(node.path, NodeTypeOf(node.kind)));
      if observed.None? {
        return false;
      }
      if node.kind.DiskDir? {
        Push(observed.value, None, None);
      } else {
        Push(observed.value, Some(RecordOf(node.path, MissingInManifest, None, observed)), None);
      }
      ok := true;
    }

    method Materialize(pathLess: (Path, Path) -> bool, nodes: seq<DiskNode>, originals: seq<Entry>)
      returns (r: Option<Materialized>)
      requires Holds([]) && DistinctNodes(nodes) && DistinctPaths(originals)
      modifies this
      ensures r == MaterializedOf(config, pathLess, nodes, originals)
      ensures r.Some? ==> files == WrittenBy(JudgeAll(config, nodes, originals).value)
    {
      hide EntriesOf, SourceRecords, WrittenBy, FindNode, JudgeEntry, JudgeExtra, Sort, DistinctNodes, DistinctPaths;
      var expectedPaths := PathsOf(originals);
      for i := 0 to |originals|
        invariant JudgeEntries(config, nodes, originals[..i]).Some?
        invariant Holds(JudgeEntries(config, nodes, originals[..i]).value)
      {
        assert originals[..i + 1][..i] == originals[..i];
        NotYetWritten(config, nodes, originals, i);
        var ok := MaterializeEntry(nodes, originals[i]);
        if !ok {
          EntryFails(config, nodes, originals, i + 1);
          return None;
        }
      }
      assert originals[..|originals|] == originals;
      ghost var kept := JudgeEntries(config, nodes, originals).value;
      assert kept + [] == kept;
      for i := 0 to |nodes|
        invariant JudgeExtras(config, nodes[..i], expectedPaths).Some?
        invariant Holds(kept + JudgeExtras(config, nodes[..i], expectedPaths).value)
      {
        assert nodes[..i + 1][..i] == nodes[..i];
        if nodes[i].path !in expectedPaths {
          ghost var before := JudgeExtras(config, nodes[..i], expectedPaths).value;
          var ok := MaterializeExtra(nodes[i]);
          if !ok {
            ExtraFails(config, nodes, expectedPaths, i + 1);
            return None;
          }
          ghost var last := JudgeExtra(config, nodes[i]).value;
          assert (kept + before) + [last] == kept + (before + [last]);
        }
      }
      assert nodes[..|nodes|] == nodes;
      var sorted := SortManifestEntries(config, entries);
      if sorted.None? {
        return None;
      }
      r := Some(Materialized(sorted.value, Sort((a, b) => RecordLess(pathLess, a, b), records)));
    }
  }

  function WrittenAfter(written: map<Path, Content>, j: Judged): map<Path, Content> {
    if j.written.Some? then written[j.entry.path := j.written.value] else written
  }

  lemma WrittenNext(js: seq<Judged>)
    ensures forall j :: WrittenBy(js + [j]) == WrittenAfter(WrittenBy(js), j)
  {
    forall j ensures WrittenBy(js + [j]) == WrittenAfter(WrittenBy(js), j) {
      assert (js + [j])[..|js|] == js;
    }
  }

  lemma {:induction false} WrittenPaths(js: seq<Judged>)
    ensures forall p :: p in WrittenBy(js) ==> exists j :: j in js && j.entry.path == p
  {
    if js != [] {
      var k := |js| - 1;
      WrittenPaths(js[..k]);
      assert js[k] in js && forall j :: j in js[..k] ==> j in js;
    }
  }

  /** A Manifest path is created once, so creating it never finds it there. */
  lemma NotYetWritten(c: Config, nodes: seq<DiskNode>, originals: seq<Entry>, i: nat)
    requires DistinctNodes(nodes) && DistinctPaths(originals) && i < |originals|
    requires JudgeEntries(c, nodes, originals[..i]).Some?
    ensures originals[i].path !in WrittenBy(JudgeEntries(c, nodes, originals[..i]).value)
  {
    hide JudgeEntry, JudgeEntries, WrittenBy, DistinctNodes, Faithful;
    var js := JudgeEntries(c, nodes, originals[..i]).value;
    WrittenPaths(js);
    JudgedEntries(c, nodes, originals[..i]);
    forall j | j in js ensures j.entry.path != originals[i].path {
      var x :| 0 <= x < |js| && js[x] == j;
      FaithfulPath(js[x], originals[x].path);
    }
  }

  lemma {:induction false} EntryFails(c: Config, nodes: seq<DiskNode>, originals: seq<Entry>, i: nat)
    requires i <= |originals| && JudgeEntries(c, nodes, originals[..i]).None?
    ensures JudgeEntries(c, nodes, originals).None?
    decreases |originals| - i
  {
    hide JudgeEntry;
    if i < |originals| {
      assert originals[..i + 1][..i] == originals[..i];
      EntryFails(c, nodes, originals, i + 1);
    } else {
      assert originals[..i] == originals;
    }
  }

  lemma {:induction false} ExtraFails(c: Config, nodes: seq<DiskNode>, known: set<Path>, i: nat)
    requires i <= |nodes| && JudgeExtras(c, nodes[..i], known).None?
    ensures JudgeExtras(c, nodes, known).None?
    decreases |nodes| - i
  {
    hide JudgeExtra;
    if i < |nodes| {
      assert nodes[..i + 1][..i] == nodes[..i];
      ExtraFails(c, nodes, known, i + 1);
    } else {
      assert nodes[..i] == nodes;
    }
  }

  // What the entries and the Working Copy promise.

  /** One judgement in detail: its path, and that it is copied exactly when it was written. */
  predicate Faithful(j: Judged, path: Path) {
    && j.entry.path == path
    && (j.entry.copied <==> j.written.Some?)
    && (j.written.Some? ==> j.entry.size == Some(j.written.value.size) && j.entry.digest == Some(j.written.value.sha256))
    && (j.record.Some? ==> j.record.value.path == path)
  }

  lemma EntryIsFaithful(c: Config, nodes: seq<DiskNode>, original: Entry)
    requires DistinctNodes(nodes) && JudgeEntry(c, nodes, original).Some?
    ensures Faithful(JudgeEntry(c, nodes, original).value, original.path)
  {
    hide FindNode, DistinctNodes;
    FoundNode(nodes, original.path);
  }

  lemma ExtraIsFaithful(c: Config, node: DiskNode)
    requires JudgeExtra(c, node).Some?
    ensures Faithful(JudgeExtra(c, node).value, node.path) && !JudgeExtra(c, node).value.entry.copied
  {
  }

  lemma {:induction false} JudgedEntries(c: Config, nodes: seq<DiskNode>, originals: seq<Entry>)
    requires DistinctNodes(nodes) && JudgeEntries(c, nodes, originals).Some?
    ensures var js := JudgeEntries(c, nodes, originals).value;
      |js| == |originals| && forall i :: 0 <= i < |js| ==>
        JudgeEntry(c, nodes, originals[i]) == Some(js[i]) && Faithful(js[i], originals[i].path)
  {
    hide JudgeEntry, Faithful, DistinctNodes;
    if originals != [] {
      var k := |originals| - 1;
      JudgedEntries(c, nodes, originals[..k]);
      EntryIsFaithful(c, nodes, originals[k]);
    }
  }

  lemma {:induction false} JudgedExtras(c: Config, nodes: seq<DiskNode>, known: set<Path>)
    requires DistinctNodes(nodes) && JudgeExtras(c, nodes, known).Some?
    ensures var js := JudgeExtras(c, nodes, known).value;
      && (forall j :: j in js ==> exists n :: n in nodes && n.path !in known && JudgeExtra(c, n) == Some(j))
      && (forall n :: n in nodes && n.path !in known ==> JudgeExtra(c, n).Some? && JudgeExtra(c, n).value in js)
      && DistinctKeys((j: Judged) => j.entry.path, js)
  {
    hide JudgeExtra, Faithful;
    if nodes != [] {
      var k := |nodes| - 1;
      JudgedExtras(c, nodes[..k], known);
      var before, js := JudgeExtras(c, nodes[..k], known).value, JudgeExtras(c, nodes, known).value;
      assert nodes[k] in nodes && forall n :: n in nodes[..k] ==> n in nodes;
      assert forall n :: n in nodes ==> n in nodes[..k] || n == nodes[k];
      if nodes[k].path !in known {
        ExtraHasPath(c, nodes[k]);
        forall j | j in before ensures j.entry.path != nodes[k].path {
          var n :| n in nodes[..k] && n.path !in known && JudgeExtra(c, n) == Some(j);
          ExtraHasPath(c, n);
        }
        assert forall j :: j in js ==> j in before || j == JudgeExtra(c, nodes[k]).value;
      }
    }
  }

  lemma ExtraHasPath(c: Config, n: DiskNode)
    ensures JudgeExtra(c, n).Some? ==> JudgeExtra(c, n).value.entry.path == n.path
  {
  }

  /** Every judgement has its own path: each Manifest path and each disk path once. */
  lemma JudgedOncePerPath(c: Config, nodes: seq<DiskNode>, originals: seq<Entry>)
    requires DistinctNodes(nodes) && DistinctPaths(originals) && JudgeAll(c, nodes, originals).Some?
    ensures var js := JudgeAll(c, nodes, originals).value;
      && DistinctKeys((j: Judged) => j.entry.path, js)
      && (forall j :: j in js ==> Faithful(j, j.entry.path))
      && PathsOf(EntriesOf(js)) == PathsOf(originals) + NodePaths(nodes)
  {
    hide JudgeEntry, JudgeExtra, JudgeEntries, JudgeExtras, Faithful, DistinctNodes;
    var kept, extra := JudgeEntries(c, nodes, originals).value, JudgeExtras(c, nodes, PathsOf(originals)).value;
    var js := kept + extra;
    JudgedEntries(c, nodes, originals);
    JudgedExtras(c, nodes, PathsOf(originals));
    forall i | 0 <= i < |kept| ensures kept[i].entry.path == originals[i].path && Faithful(kept[i], kept[i].entry.path) {
      FaithfulPath(kept[i], originals[i].path);
    }
    forall j | j in extra
      ensures j.entry.path !in PathsOf(originals) && j.entry.path in NodePaths(nodes) && Faithful(j, j.entry.path)
    {
      var n :| n in nodes && n.path !in PathsOf(originals) && JudgeExtra(c, n) == Some(j);
      ExtraIsFaithful(c, n);
      FaithfulPath(j, n.path);
    }
    assert forall i :: 0 <= i < |originals| ==> originals[i] in originals;
    PathsCovered(c, nodes, originals, kept, extra);
  }

  lemma FaithfulPath(j: Judged, path: Path)
    requires Faithful(j, path)
    ensures j.entry.path == path
  {
  }

  lemma PathsCovered(c: Config, nodes: seq<DiskNode>, originals: seq<Entry>, kept: seq<Judged>, extra: seq<Judged>)
    requires |kept| == |originals| && forall i :: 0 <= i < |kept| ==> kept[i].entry.path == originals[i].path
    requires forall j :: j in extra ==> j.entry.path in NodePaths(nodes)
    requires forall n :: n in nodes && n.path !in PathsOf(originals) ==>
               JudgeExtra(c, n).Some? && JudgeExtra(c, n).value in extra
    ensures PathsOf(EntriesOf(kept + extra)) == PathsOf(originals) + NodePaths(nodes)
  {
    hide JudgeExtra, EntriesOf;
    var es := EntriesOf(kept + extra);
    forall p | p in PathsOf(originals) ensures p in PathsOf(es) {
      var e :| e in originals && e.path == p;
      var i :| 0 <= i < |originals| && originals[i] == e;
      assert es[i] in es && es[i].path == p;
    }
    forall p | p in NodePaths(nodes) && p !in PathsOf(originals) ensures p in PathsOf(es) {
      var n :| n in nodes && n.path == p;
      ExtraHasPath(c, n);
      var j := JudgeExtra(c, n).value;
      var i :| 0 <= i < |extra| && extra[i] == j;
      assert es[|kept| + i] in es && es[|kept| + i].path == p;
    }
    forall e | e in es ensures e.path in PathsOf(originals) + NodePaths(nodes) {
      var i :| 0 <= i < |es| && es[i] == e;
      if i < |kept| {
        assert originals[i] in originals;
      } else {
        assert extra[i - |kept|] in extra;
      }
    }
  }

  lemma {:induction false} WrittenIsCopied(js: seq<Judged>)
    requires DistinctKeys((j: Judged) => j.entry.path, js) && forall j :: j in js ==> Faithful(j, j.entry.path)
    ensures WrittenBy(js).Keys == CopiedPaths(EntriesOf(js))
    ensures forall e :: e in EntriesOf(js) && e.copied ==>
      && e.path in WrittenBy(js)
      && e.size == Some(WrittenBy(js)[e.path].size) && e.digest == Some(WrittenBy(js)[e.path].sha256)
  {
    hide EntriesOf;
    if js != [] {
      var k := |js| - 1;
      var before := js[..k];
      WrittenIsCopied(before);
      assert js[k] in js;
      assert EntriesOf(js) == EntriesOf(before) + [js[k].entry];
      forall e | e in EntriesOf(before) ensures e.path != js[k].entry.path {
        var i :| 0 <= i < k && EntriesOf(before)[i] == e;
      }
      assert CopiedPaths(EntriesOf(js)) == CopiedPaths(EntriesOf(before)) + CopiedPaths([js[k].entry]) by {
        CopiedOfConcat(EntriesOf(before), [js[k].entry]);
      }
    }
  }

  /** After the copy: every Manifest path and every disk path has one entry, and the `copied` entries
      are exactly the files written, each with its recorded size and digest. The refusal of a repeated
      path is never reached. */
  lemma MaterializedIsExact(c: Config, pathLess: (Path, Path) -> bool, nodes: seq<DiskNode>, originals: seq<Entry>)
    requires DistinctNodes(nodes) && DistinctPaths(originals)
    ensures MaterializedOf(c, pathLess, nodes, originals).Some? <==> JudgeAll(c, nodes, originals).Some?
    ensures JudgeAll(c, nodes, originals).Some? ==>
      var es, files := MaterializedOf(c, pathLess, nodes, originals).value.entries, WrittenBy(JudgeAll(c, nodes, originals).value);
      && DistinctPaths(es)
      && PathsOf(es) == PathsOf(originals) + NodePaths(nodes)
      && files.Keys == CopiedPaths(es)
      && (forall e :: e in es && e.copied ==> e.size == Some(files[e.path].size) && e.digest == Some(files[e.path].sha256))
  {
    hide JudgeAll, EntriesOf, WrittenBy, SourceRecords, Sort, Faithful, CopiedPaths, PathsOf, NodePaths;
    if JudgeAll(c, nodes, originals).Some? {
      var js := JudgeAll(c, nodes, originals).value;
      JudgedOncePerPath(c, nodes, originals);
      var es := EntriesOf(js);
      assert DistinctPaths(es);
      WrittenIsCopied(js);
      var sorted := Sort(c.lineLess, es);
      MultisetMembers(sorted, es);
      assert forall e :: e in es <==> e in Members(es);
      assert forall e :: e in sorted <==> e in Members(sorted);
      DistinctOfPermutation(es, sorted);
      SortKeepsCopies(c, es);
      SamePaths(es, sorted);
      CopiedIn(es);
    }
  }

  lemma CopiedIn(es: seq<Entry>)
    ensures forall e :: e in es && e.copied ==> e.path in CopiedPaths(es)
  {
  }

  lemma SamePaths(a: seq<Entry>, b: seq<Entry>)
    requires forall e :: e in a <==> e in b
    ensures PathsOf(a) == PathsOf(b)
  {
  }

  lemma {:induction false} SourceRecordsAre(js: seq<Judged>)
    ensures forall r :: r in SourceRecords(js) <==> exists j :: j in js && j.record == Some(r)
  {
    if js != [] {
      var k := |js| - 1;
      SourceRecordsAre(js[..k]);
      forall r ensures r in SourceRecords(js) <==> exists j :: j in js && j.record == Some(r) {
        if r in SourceRecords(js[..k]) {
          var j :| j in js[..k] && j.record == Some(r);
          assert j in js;
        }
        assert js[k] in js;
        if j :| j in js && j.record == Some(r) {
          assert j in js[..k] || j == js[k];
        }
      }
    }
  }

  lemma EntryMatches(c: Config, nodes: seq<DiskNode>, original: Entry)
    requires JudgeEntry(c, nodes, original).Some?
    ensures var j := JudgeEntry(c, nodes, original).value;
      j.record.None? || j.record.value.outcome.Match? ==> j.entry == original
  {
    hide FindNode;
  }

  lemma ExtraMatches(c: Config, node: DiskNode)
    requires JudgeExtra(c, node).Some?
    ensures var j := JudgeExtra(c, node).value;
      j.record.None? || j.record.value.outcome.Match? ==> j.entry.nodeType.Dir?
  {
  }

  /** When every record of a Source matches, its entries are those of its Manifest, and anything more
      on disk is a directory. */
  lemma MatchingSourceIsItsManifest(c: Config, nodes: seq<DiskNode>, originals: seq<Entry>)
    requires DistinctNodes(nodes) && JudgeAll(c, nodes, originals).Some?
    requires AllMatch(SourceRecords(JudgeAll(c, nodes, originals).value))
    ensures var es := EntriesOf(JudgeAll(c, nodes, originals).value);
      (forall o :: o in originals ==> o in es) && (forall e :: e in es ==> e in originals || e.nodeType.Dir?)
  {
    hide JudgeEntry, JudgeExtra, JudgeEntries, JudgeExtras, Faithful, DistinctNodes, SourceRecords, EntriesOf;
    var kept, extra := JudgeEntries(c, nodes, originals).value, JudgeExtras(c, nodes, PathsOf(originals)).value;
    var js := kept + extra;
    var es := EntriesOf(js);
    JudgedEntries(c, nodes, originals);
    JudgedExtras(c, nodes, PathsOf(originals));
    SourceRecordsAre(js);
    assert forall j :: j in js && j.record.Some? ==> j.record.value.outcome.Match?;
    forall i | 0 <= i < |originals| ensures es[i] == originals[i] {
      assert js[i] == kept[i] && js[i] in js;
      EntryMatches(c, nodes, originals[i]);
    }
    forall i | |kept| <= i < |es| ensures es[i].nodeType.Dir? {
      var j := js[i];
      assert j == extra[i - |kept|] && j in extra && j in js;
      var n :| n in nodes && n.path !in PathsOf(originals) && JudgeExtra(c, n) == Some(j);
      ExtraMatches(c, n);
    }
    assert forall i :: 0 <= i < |originals| ==> es[i] in es;
  }

  // What is said of each path.

  /** The first reading of a node, as an entry of the copy says it. */
  predicate ShowsNode(c: Config, n: DiskNode, e: Entry) {
    && e.path == n.path && !e.copied
    && (n.kind.DiskFile? && n.observed.Stable? ==> IsShown(e, File, Some(n.observed.size), n.observed.sha256))
    && (n.kind.DiskFile? && !n.observed.Stable? ==>
          IsUnread(e, if n.observed.OpenFailed? || n.observed.ReadFailed? then IoError else ChangedDuringIngest))
    && (n.kind.DiskSymlink? ==>
          && n.link.Some?
          && IsShown(e, Symlink, Some(|UrlText.EncodeUtf8(n.link.value)|), c.digestOf(n.link.value)))
    && (n.kind.DiskDir? ==> IsShown(e, Dir, None, c.digestOf("dir")))
    && (n.kind.DiskSocket? ==> IsShown(e, Socket, None, c.digestOf("socket")))
    && (n.kind.DiskOther? ==> IsUnread(e, IoError))
  }

  predicate IsShown(e: Entry, nodeType: NodeType, size: Option<nat>, digest: string) {
    e.state == Value && e.reason == None && e.nodeType == nodeType && e.size == size && e.digest == Some(digest)
  }

  predicate IsUnread(e: Entry, reason: Reason) {
    e.state == Unavailable && e.reason == Some(reason) && e.nodeType == File && e.size == None && e.digest == None
  }

  /** The disk has a file at the path, with the size and digest that the Manifest records. */
  predicate StillHolds(nodes: seq<DiskNode>, e: Entry) {
    exists n :: n in nodes && n.path == e.path && n.kind.DiskFile? && n.observed.Stable?
      && e.size == Some(n.observed.size) && e.digest == Some(n.observed.sha256)
  }

  /** The sizes and digests of a record are the Manifest's and those now shown. */
  predicate Compares(r: Record, recorded: Entry, size: Option<nat>, digest: Option<string>) {
    && r.path == recorded.path && r.expectedSize == recorded.size && r.expectedSha256 == recorded.digest
    && r.actualSize == size && r.actualSha256 == digest
  }

  /** A Manifest entry that was copied matches exactly when the disk still holds it; then it stands as it was and
      is written again. It is missing exactly when nothing has its path. Anything else shows what is there. One
      that was not copied stands unless something other than a directory has its path. */
  predicate SaysEntry(c: Config, nodes: seq<DiskNode>, e: Entry, j: Judged) {
    if e.path !in NodePaths(nodes) then
      if e.copied then
        && j.written.None? && j.entry.tier == e.tier && j.entry.path == e.path && j.entry.state == Absent
        && j.entry.nodeType == AbsentNode && !j.entry.copied && j.entry.reason == None && j.entry.size == None
        && j.entry.digest == Some(c.digestOf("absent"))
        && j.record.Some? && j.record.value.outcome == MissingOnDisk && Compares(j.record.value, e, None, None)
      else j == Judged(e, None, None)
    else if e.copied && StillHolds(nodes, e) then
      && j.entry == e && j.written.Some? && e.size == Some(j.written.value.size) && e.digest == Some(j.written.value.sha256)
      && j.record.Some? && j.record.value.outcome == Match && Compares(j.record.value, e, e.size, e.digest)
    else if !e.copied && HasDirectory(nodes, e.path) then j == Judged(e, None, None)
    else
      && j.written.None? && j.entry.tier == e.tier && (exists n :: n in nodes && n.path == e.path && ShowsNode(c, n, j.entry))
      && j.record.Some? && j.record.value.outcome == Mismatch && Compares(j.record.value, e, j.entry.size, j.entry.digest)
  }

  predicate HasDirectory(nodes: seq<DiskNode>, path: Path) {
    exists n :: n in nodes && n.path == path && n.kind.DiskDir?
  }

  /** A node without a Manifest entry is shown, and recorded unless it is a directory. */
  predicate SaysExtra(c: Config, n: DiskNode, j: Judged) {
    && j.written.None? && ShowsNode(c, n, j.entry)
    && j.entry.tier == c.classify(n.path, if n.kind.DiskDir? then Dir else if n.kind.DiskSymlink? then Symlink
                                          else if n.kind.DiskSocket? then Socket else File)
    && (j.record.None? <==> n.kind.DiskDir?)
    && (j.record.Some? ==>
          && j.record.value == Record(n.path, MissingInManifest, None, j.entry.size, None, j.entry.digest))
  }

  predicate IsExtraOf(c: Config, nodes: seq<DiskNode>, originals: seq<Entry>, j: Judged) {
    exists n :: n in nodes && n.path !in PathsOf(originals) && SaysExtra(c, n, j)
  }

  lemma ObservedShows(c: Config, node: DiskNode, tier: Tier)
    ensures ObserveDisk(c, node, tier).Some? ==>
      ShowsNode(c, node, ObserveDisk(c, node, tier).value) && ObserveDisk(c, node, tier).value.tier == tier
  {
  }

  lemma EntrySays(c: Config, nodes: seq<DiskNode>, e: Entry)
    requires DistinctNodes(nodes) && JudgeEntry(c, nodes, e).Some?
    ensures SaysEntry(c, nodes, e, JudgeEntry(c, nodes, e).value)
  {
    hide DistinctNodes, FindNode, ShowsNode;
    FoundNode(nodes, e.path);
    var actual := FindNode(nodes, e.path);
    if actual.Some? {
      ObservedShows(c, actual.value, e.tier);
      HoldsAt(c, nodes, e, actual.value);
    }
  }

  lemma HoldsAt(c: Config, nodes: seq<DiskNode>, e: Entry, n: DiskNode)
    requires n in nodes && n.path == e.path && forall m :: m in nodes && m.path == e.path ==> m == n
    ensures HasDirectory(nodes, e.path) <==> n.kind.DiskDir?
    ensures ObserveDisk(c, n, e.tier).Some? ==>
      (SameContent(ObserveDisk(c, n, e.tier).value, e) <==> StillHolds(nodes, e))
  {
  }

  /** So it is for every entry of a Source that is copied, and every node that no entry names. */
  lemma MaterializedSays(c: Config, nodes: seq<DiskNode>, originals: seq<Entry>)
    requires DistinctNodes(nodes) && JudgeAll(c, nodes, originals).Some?
    ensures var js := JudgeAll(c, nodes, originals).value;
      && |js| >= |originals| && (forall i :: 0 <= i < |originals| ==> SaysEntry(c, nodes, originals[i], js[i]))
      && (forall i :: |originals| <= i < |js| ==> IsExtraOf(c, nodes, originals, js[i]))
      && forall n :: n in nodes && n.path !in PathsOf(originals) ==> exists j :: j in js && SaysExtra(c, n, j)
  {
    hide JudgeEntry, JudgeExtra, JudgeEntries, JudgeExtras, Faithful, DistinctNodes, SaysEntry, SaysExtra;
    var kept, extra := JudgeEntries(c, nodes, originals).value, JudgeExtras(c, nodes, PathsOf(originals)).value;
    JudgedEntries(c, nodes, originals);
    JudgedExtras(c, nodes, PathsOf(originals));
    var js := kept + extra;
    forall i | 0 <= i < |originals| ensures SaysEntry(c, nodes, originals[i], js[i]) {
      EntrySays(c, nodes, originals[i]);
    }
    forall i | |originals| <= i < |js| ensures IsExtraOf(c, nodes, originals, js[i]) {
      assert js[i] in extra;
      var n :| n in nodes && n.path !in PathsOf(originals) && JudgeExtra(c, n) == Some(js[i]);
      ExtraSays(c, n);
    }
    forall n | n in nodes && n.path !in PathsOf(originals) ensures exists j :: j in js && SaysExtra(c, n, j) {
      ExtraSays(c, n);
      assert JudgeExtra(c, n).value in extra;
    }
  }

  lemma ExtraSays(c: Config, n: DiskNode)
    requires JudgeExtra(c, n).Some?
    ensures SaysExtra(c, n, JudgeExtra(c, n).value)
  {
    hide ShowsNode, ObserveDisk;
    ObservedShows(c, n, c.classify(n.path, NodeTypeOf(n.kind)));
  }
}
