/** Copying a Source tree into a Working Copy while it may fail or change at any node. */
module Acquisition {
  import opened Outcomes
  import opened Orders
  import opened WorkingCopy
  import UrlText

  datatype Reason = PermissionDenied | IoError | ChangedDuringIngest | ParentUnavailable

  datatype NodeType = File | Symlink | Socket | Dir | AbsentNode

  datatype State = Value | Absent | Unavailable

  datatype Tier = Tier1 | Tier2 | Tier3 | Unclassified

  datatype Entry = Entry(
    path: Path, state: State, reason: Option<Reason>, nodeType: NodeType, tier: Tier, copied: bool,
    size: Option<nat>, digest: Option<string>)

  // What the file system answers at each node of one scan.

  datatype FileRead =
    | Stable(size: nat, sha256: string)
    | OpenFailed(reason: Reason)
    | ReadFailed(reason: Reason)
    | Changed
    | TooLarge
    | Threw

  datatype LinkRead = LinkTo(target: string) | LinkFailed(reason: Reason) | LinkChanged

  /** `stuck`: what was copied below cannot be removed again. */
  datatype FinalCheck = Unchanged | CheckFailed(reason: Reason, stuck: bool) | Different(stuck: bool)

  datatype Node =
    | Unstattable(reason: Reason)
    | Unsupported
    | FileNode(createFails: bool, read: FileRead)
    | SymlinkNode(link: LinkRead)
    | SocketNode
    | UnlistableDir(reason: Reason, stuck: bool)
    | DirNode(children: seq<Child>, check: FinalCheck)

  datatype Child = Child(name: string, node: Node)

  /** The Selection Policy, and whether Tier 2 is copied. */
  datatype Config = Config(
    classify: (Path, NodeType) -> Tier, includeTier2: bool, userDataDir: bool, isProfileName: string -> bool,
    lineLess: (Entry, Entry) -> bool, digestOf: string -> string)

  predicate Copies(c: Config, path: Path) {
    c.classify(path, File).Tier1? || (c.classify(path, File).Tier2? && c.includeTier2)
  }

  function UnavailableEntry(c: Config, path: Path, nodeType: NodeType, reason: Reason): Entry {
    Entry(path, Unavailable, Some(reason), nodeType, c.classify(path, nodeType), false, None, None)
  }

  function ValueEntry(c: Config, path: Path, nodeType: NodeType, size: Option<nat>, digest: string): Entry {
    Entry(path, Value, None, nodeType, c.classify(path, nodeType), false, size, Some(digest))
  }

  predicate HasBackslash(name: string) { '\\' in name }

  // The entries one scan of a node yields, as a function of what was observed.

  /** None when the scan of the node throws. */
  function Observe(c: Config, path: Path, node: Node): Option<seq<Entry>>
    decreases node
  {
    match node
    case Unstattable(reason) => Some([UnavailableEntry(c, path, File, reason)])
    case Unsupported => None
    case FileNode(createFails, read) => ObserveFile(c, path, createFails, read)
    case SymlinkNode(LinkTo(target)) =>
      Some([ValueEntry(c, path, Symlink, Some(|UrlText.EncodeUtf8(target)|), c.digestOf(target))])
    case SymlinkNode(LinkFailed(reason)) => Some([UnavailableEntry(c, path, Symlink, reason)])
    case SymlinkNode(LinkChanged) => Some([UnavailableEntry(c, path, Symlink, ChangedDuringIngest)])
    case SocketNode => Some([ValueEntry(c, path, Socket, None, c.digestOf("socket"))])
    case UnlistableDir(reason, stuck) => if stuck then None else Some([UnavailableEntry(c, path, Dir, reason)])
    case DirNode(children, check) =>
      var inner := ObserveChildren(c, path, children);
      if inner.None? then None
      else
        match check
        case Unchanged => Some([ValueEntry(c, path, Dir, None, c.digestOf("dir"))] + inner.value)
        case CheckFailed(reason, stuck) => if stuck then None else Some([UnavailableEntry(c, path, Dir, reason)])
        case Different(stuck) => if stuck then None else Some([UnavailableEntry(c, path, Dir, ChangedDuringIngest)])
  }

  function ObserveFile(c: Config, path: Path, createFails: bool, read: FileRead): Option<seq<Entry>> {
    if Copies(c, path) && createFails then None
    else
      match read
      case Stable(size, sha256) => Some([ValueEntry(c, path, File, Some(size), sha256).(copied := Copies(c, path))])
      case OpenFailed(reason) => Some([UnavailableEntry(c, path, File, reason)])
      case ReadFailed(reason) => Some([UnavailableEntry(c, path, File, reason)])
      case Changed => Some([UnavailableEntry(c, path, File, ChangedDuringIngest)])
      case TooLarge => None
      case Threw => None
  }

  /** The children in turn; a name the Manifest cannot hold throws. */
  function ObserveChildren(c: Config, path: Path, children: seq<Child>): Option<seq<Entry>>
    decreases children
  {
    if children == [] then Some([])
    else
      var k := |children| - 1;
      var before := ObserveChildren(c, path, children[..k]);
      if before.None? || HasBackslash(children[k].name) then None
      else
        var last := Observe(c, path + [children[k].name], children[k].node);
        if last.None? then None else Some(before.value + last.value)
  }

  // What the same scan makes of the Working Copy.

  /** The Working Copy after the scan of a node that does not throw. */
  function CopyAfter(c: Config, path: Path, node: Node, w: Copy): Copy
    requires path != []
    decreases node
  {
    match node
    case FileNode(_, read) =>
      if !Copies(c, path) then w
      else if read.Stable? then Created(w, path)
      else Dropped(Created(w, path), path)
    case UnlistableDir(_, _) => Discarded(w, path)
    case DirNode(children, check) =>
      var inner := CopyAfterChildren(c, path, children, w);
      if check.Unchanged? then inner else Discarded(inner, path)
    case _ => w
  }

  function CopyAfterChildren(c: Config, path: Path, children: seq<Child>, w: Copy): Copy
    decreases children
  {
    if children == [] then w
    else
      var k := |children| - 1;
      CopyAfter(c, path + [children[k].name], children[k].node, CopyAfterChildren(c, path, children[..k], w))
  }

  /** A tree as a directory listing gives it: sibling names differ. */
  predicate Proper(node: Node) {
    node.DirNode? ==> DistinctNames(node.children) && forall k :: k in node.children ==> Proper(k.node)
  }

  predicate DistinctNames(children: seq<Child>) {
    forall i, j :: 0 <= i < j < |children| ==> children[i].name != children[j].name
  }

  predicate DistinctPaths(es: seq<Entry>) {
    forall i, j :: 0 <= i < j < |es| ==> es[i].path != es[j].path
  }

  predicate AllUnder(p: Path, es: seq<Entry>) {
    forall e :: e in es ==> Under(p, e.path)
  }

  /** No entry lies below an unavailable directory. */
  predicate NothingBelowUnavailable(es: seq<Entry>) {
    forall d, e :: d in es && e in es && d.state.Unavailable? && d.nodeType.Dir? ==> !Below(d.path, e.path)
  }

  /** Only files that were read whole and belong to a copied tier are copied. */
  predicate CopiedAreStable(c: Config, es: seq<Entry>) {
    forall e :: e in es && e.copied ==> e.state.Value? && e.nodeType.File? && Copies(c, e.path) && e.size.Some? && e.digest.Some?
  }

  predicate SoundScan(c: Config, path: Path, es: seq<Entry>) {
    AllUnder(path, es) && DistinctPaths(es) && NothingBelowUnavailable(es) && CopiedAreStable(c, es)
  }

  lemma {:induction false} ObserveIsSound(c: Config, path: Path, node: Node)
    requires Proper(node) && Observe(c, path, node).Some?
    ensures SoundScan(c, path, Observe(c, path, node).value)
    decreases node, if node.DirNode? then |node.children| + 1 else 0
  {
    hide SoundScan, ObserveChildren, Proper;
    if node.DirNode? && node.check.Unchanged? {
      ChildIsProperEach(node);
      ChildrenAreSound(c, path, node.children, node);
      DirectoryIsSound(c, path, ObserveChildren(c, path, node.children).value);
    } else {
      LeafIsSound(c, path, node);
    }
  }

  lemma ChildIsProperEach(node: Node)
    requires node.DirNode? && Proper(node)
    ensures DistinctNames(node.children) && forall k :: k in node.children ==> Proper(k.node) && k.node < node
  {
  }

  lemma LeafIsSound(c: Config, path: Path, node: Node)
    requires Observe(c, path, node).Some? && !(node.DirNode? && node.check.Unchanged?)
    ensures SoundScan(c, path, Observe(c, path, node).value)
  {
    hide ObserveChildren;
  }

  lemma DirectoryIsSound(c: Config, path: Path, inner: seq<Entry>)
    requires SoundScan(c, path, inner) && forall e :: e in inner ==> |path| < |e.path|
    ensures SoundScan(c, path, [ValueEntry(c, path, Dir, None, c.digestOf("dir"))] + inner)
  {
  }

  lemma {:induction false} ChildrenAreSound(c: Config, path: Path, children: seq<Child>, parent: Node)
    requires DistinctNames(children) && (forall k :: k in children ==> Proper(k.node) && k.node < parent)
    requires ObserveChildren(c, path, children).Some?
    ensures var es := ObserveChildren(c, path, children).value;
      && SoundScan(c, path, es) && (forall e :: e in es ==> |path| < |e.path|)
      && (forall e :: e in es ==> exists k :: k in children && Under(path + [k.name], e.path))
    decreases parent, |children|
  {
    if children != [] {
      var n := |children| - 1;
      var last := children[n];
      ChildrenAreSound(c, path, children[..n], parent);
      ObserveIsSound(c, path + [last.name], last.node);
      var before, more := ObserveChildren(c, path, children[..n]).value, Observe(c, path + [last.name], last.node).value;
      forall e | e in more ensures Under(path, e.path) && |path| < |e.path| {
        UnderTransitive(path, path + [last.name], e.path);
      }
      forall d, e | d in before && e in more ensures d.path != e.path && !Below(d.path, e.path) && !Below(e.path, d.path) {
        var k :| k in children[..n] && Under(path + [k.name], d.path);
        var i :| 0 <= i < n && children[i] == k;
        SiblingsDisjoint(path, k.name, last.name, d.path, e.path);
        SiblingsDisjoint(path, last.name, k.name, e.path, d.path);
      }
      JoinSound(c, path, before, more);
      forall e | e in before + more ensures exists k :: k in children && Under(path + [k.name], e.path) {
        if e in before {
          var k :| k in children[..n] && Under(path + [k.name], e.path);
          assert k in children;
        } else {
          assert last in children;
        }
      }
    }
  }

  lemma JoinSound(c: Config, path: Path, a: seq<Entry>, b: seq<Entry>)
    requires SoundScan(c, path, a) && AllUnder(path, b) && DistinctPaths(b) && NothingBelowUnavailable(b) && CopiedAreStable(c, b)
    requires forall d, e :: d in a && e in b ==> d.path != e.path && !Below(d.path, e.path) && !Below(e.path, d.path)
    ensures SoundScan(c, path, a + b)
  {
  }

  // The Tier 1 paths a Source should hold.

  datatype Artifact = Artifact(path: Path, database: bool, expected: bool)

  datatype Policy = Policy(browser: seq<Artifact>, profile: seq<Artifact>, sidecars: seq<string>)

  function BrowserPaths(artifacts: seq<Artifact>): seq<Path> {
    if artifacts == [] then []
    else (if artifacts[0].expected then [artifacts[0].path] else []) + BrowserPaths(artifacts[1..])
  }

  function SidecarPaths(path: Path, suffixes: seq<string>): seq<Path> {
    if suffixes == [] || path == [] then []
    else [path[|path| - 1 := path[|path| - 1] + suffixes[0]]] + SidecarPaths(path, suffixes[1..])
  }

  /** The expected artifacts of one Profile, each database with its sidecars. */
  function ProfilePaths(root: Path, artifacts: seq<Artifact>, sidecars: seq<string>): seq<Path> {
    if artifacts == [] then []
    else
      var a := artifacts[0];
      (if !a.expected then []
       else [root + a.path] + (if a.database then SidecarPaths(root + a.path, sidecars) else []))
      + ProfilePaths(root, artifacts[1..], sidecars)
  }

  function AllProfilePaths(policy: Policy, profiles: seq<string>): seq<Path> {
    if profiles == [] then []
    else ProfilePaths([profiles[0]], policy.profile, policy.sidecars) + AllProfilePaths(policy, profiles[1..])
  }

  function ExpectedPaths(c: Config, policy: Policy, profiles: seq<string>): seq<Path> {
    if c.userDataDir then BrowserPaths(policy.browser) + AllProfilePaths(policy, profiles)
    else ProfilePaths([], policy.profile, policy.sidecars)
  }

  function PathsOf(es: seq<Entry>): set<Path> {
    set e | e in es :: e.path
  }

  function FindEntry(es: seq<Entry>, path: Path): Option<Entry> {
    if es == [] then None else if es[0].path == path then Some(es[0]) else FindEntry(es[1..], path)
  }

  predicate IsUnavailableDir(e: Option<Entry>) {
    e.Some? && e.value.state.Unavailable? && e.value.nodeType.Dir?
  }

  /** Whether some proper prefix of at least `length` segments names an unavailable directory. */
  predicate HasUnavailableParent(path: Path, es: seq<Entry>, length: nat)
    requires 1 <= length
    decreases |path| - length
  {
    length < |path| && (IsUnavailableDir(FindEntry(es, path[..length])) || HasUnavailableParent(path, es, length + 1))
  }

  /** The entry of an expected path that was not observed. */
  function Placeholder(c: Config, es: seq<Entry>, path: Path): Entry {
    if HasUnavailableParent(path, es, 1) then UnavailableEntry(c, path, File, ParentUnavailable)
    else Entry(path, Absent, None, AbsentNode, c.classify(path, AbsentNode), false, None, Some(c.digestOf("absent")))
  }

  function WithExpected(c: Config, observed: seq<Entry>, expected: seq<Path>): seq<Entry> {
    if expected == [] then observed
    else
      var es, path := WithExpected(c, observed, expected[..|expected| - 1]), expected[|expected| - 1];
      if path in PathsOf(observed) then es else es + [Placeholder(c, es, path)]
  }

  /** The lookup agrees with the tree: some observed unavailable directory lies above the path. */
  lemma {:induction false} ParentLookup(path: Path, es: seq<Entry>, length: nat)
    requires 1 <= length && DistinctPaths(es)
    ensures HasUnavailableParent(path, es, length) <==>
      exists d :: d in es && d.state.Unavailable? && d.nodeType.Dir? && |d.path| >= length && Below(d.path, path)
    decreases |path| - length
  {
    if length < |path| {
      FoundEntry(es, path[..length]);
      ParentLookup(path, es, length + 1);
      if d :| d in es && d.state.Unavailable? && d.nodeType.Dir? && |d.path| == length && Below(d.path, path) {
        assert d.path == path[..length];
      }
    }
  }

  lemma {:induction false} FoundEntry(es: seq<Entry>, path: Path)
    requires DistinctPaths(es)
    ensures var f := FindEntry(es, path);
      && (f.Some? ==> f.value in es && f.value.path == path)
      && (forall e :: e in es && e.path == path ==> f == Some(e))
  {
    if es != [] {
      FoundEntry(es[1..], path);
      assert forall e :: e in es ==> e == es[0] || e in es[1..];
      assert forall e :: e in es[1..] ==> e.path != es[0].path;
    }
  }

  /** An observed or expected entry of a finished scan. */
  predicate IsPlaceholder(e: Entry) {
    e.state.Unavailable? && e.reason == Some(ParentUnavailable) && e.nodeType.File? && !e.copied
  }

  /** Some unavailable directory lies above the path. */
  ghost predicate Hidden(es: seq<Entry>, path: Path) {
    exists d :: d in es && d.state.Unavailable? && d.nodeType.Dir? && Below(d.path, path)
  }

  /** What a Manifest promises: distinct paths, only placeholders below an unavailable directory,
      every expected path present, and those not observed absent or placeholders as their ancestors
      allow. */
  ghost predicate SoundManifest(c: Config, observed: seq<Entry>, expected: seq<Path>, es: seq<Entry>) {
    && DistinctPaths(es) && CopiedAreStable(c, es)
    && (forall e :: e in observed ==> e in es)
    && (forall p :: p in expected ==> p in PathsOf(es))
    && (forall e :: e in es && e !in observed ==>
          && e.path in expected && !e.copied
          && if Hidden(observed, e.path) then IsPlaceholder(e) else e.state.Absent?)
  }

  /** No entry is the root itself. */
  predicate Rooted(es: seq<Entry>) {
    forall e :: e in es ==> e.path != []
  }

  lemma {:induction false} ExpectedAreCovered(c: Config, observed: seq<Entry>, expected: seq<Path>)
    requires DistinctPaths(observed) && CopiedAreStable(c, observed) && Rooted(observed) && Distinct(expected)
    ensures SoundManifest(c, observed, expected, WithExpected(c, observed, expected))
    ensures forall d :: d in WithExpected(c, observed, expected) && d.state.Unavailable? && d.nodeType.Dir? ==> d in observed
  {
    if expected != [] {
      var rest, path := expected[..|expected| - 1], expected[|expected| - 1];
      ExpectedAreCovered(c, observed, rest);
      var es := WithExpected(c, observed, rest);
      assert expected == rest + [path] && path !in rest;
      if path !in PathsOf(observed) {
        var p := Placeholder(c, es, path);
        ParentLookup(path, es, 1);
        assert HasUnavailableParent(path, es, 1) <==> Hidden(observed, path) by {
          if Hidden(observed, path) {
            var d :| d in observed && d.state.Unavailable? && d.nodeType.Dir? && Below(d.path, path);
            assert d in es && |d.path| >= 1;
          }
        }
        forall e | e in es ensures e.path != path {
          if e !in observed {
            assert e.path in rest;
          }
        }
        assert forall e :: e in es + [p] <==> e in es || e == p;
        assert p in es + [p];
      }
    }
  }

  /** Nothing but `parent_unavailable` placeholders lies below an unavailable directory. */
  lemma OnlyPlaceholdersBelow(c: Config, observed: seq<Entry>, expected: seq<Path>, d: Entry, e: Entry)
    requires SoundScan(c, [], observed) && Rooted(observed) && Distinct(expected)
    requires d in WithExpected(c, observed, expected) && e in WithExpected(c, observed, expected)
    requires d.state.Unavailable? && d.nodeType.Dir? && Below(d.path, e.path)
    ensures IsPlaceholder(e)
  {
    ExpectedAreCovered(c, observed, expected);
    assert d in observed;
    if e !in observed {
      assert Hidden(observed, e.path);
    }
  }

  // One scan of the whole Source, and the bounded retry.

  datatype Root = UnstattableRoot | UnlistableRoot | ListedRoot(children: seq<Child>, same: bool)

  datatype Failure = SourceRootChanged | IngestFailed | SystemError

  datatype Acquired = Acquired(entries: seq<Entry>, profiles: seq<string>)

  predicate IsDirectory(node: Node) {
    node.UnlistableDir? || node.DirNode?
  }

  /** The Profile a node adds: a top-level directory with a Profile name, even one discarded later. */
  function ProfileOf(c: Config, path: Path, node: Node): set<string> {
    if c.userDataDir && |path| == 1 && IsDirectory(node) && c.isProfileName(path[0]) then {path[0]} else {}
  }

  function ProfileNames(c: Config, children: seq<Child>): set<string> {
    set k | k in children && ProfileOf(c, [k.name], k.node) != {} :: k.name
  }

  function CopiedPaths(es: seq<Entry>): set<Path> {
    set e | e in es && e.copied :: e.path
  }

  /** The Working Copy that one scan of the Source leaves. */
  function CopyOf(c: Config, children: seq<Child>): Copy {
    CopyAfterChildren(c, [], children, Copy({}, {}))
  }

  /** Sorted by Manifest line; a path that occurs twice is refused. */
  function SortManifestEntries(c: Config, es: seq<Entry>): Option<seq<Entry>> {
    if DistinctPaths(es) then Some(Sort(c.lineLess, es)) else None
  }

  ghost function ProfileList(c: Config, children: seq<Child>): seq<string> {
    TextIsTotalOrder(ProfileNames(c, children));
    if c.userDataDir then Listed(TextLess, ProfileNames(c, children)) else ["."]
  }

  ghost function ScanOf(c: Config, policy: Policy, root: Root): Result<Acquired, Failure> {
    match root
    case UnstattableRoot => Err(SystemError)
    case UnlistableRoot => Err(IngestFailed)
    case ListedRoot(children, same) =>
      var observed := ObserveChildren(c, [], children);
      if observed.None? then Err(IngestFailed)
      else if !same then Err(SourceRootChanged)
      else
        var profiles := ProfileList(c, children);
        var entries := SortManifestEntries(c, WithExpected(c, observed.value, ExpectedPaths(c, policy, profiles)));
        if entries.None? then Err(IngestFailed) else Ok(Acquired(entries.value, profiles))
  }

  lemma CopiedOfConcat(a: seq<Entry>, b: seq<Entry>)
    ensures CopiedPaths(a + b) == CopiedPaths(a) + CopiedPaths(b)
  {
    assert forall e :: e in a + b <==> e in a || e in b;
  }

  lemma NoneCopied()
    ensures CopiedPaths([]) == {}
  {
  }

  lemma ChildIsProper(node: Node, i: nat)
    requires node.DirNode? && Proper(node) && i < |node.children|
    ensures Proper(node.children[i].node)
  {
  }

  lemma ProfilesOfPrefix(c: Config, children: seq<Child>, i: nat)
    requires i < |children|
    ensures ProfileNames(c, children[..i + 1])
      == ProfileNames(c, children[..i]) + ProfileOf(c, [children[i].name], children[i].node)
  {
    assert children[..i + 1] == children[..i] + [children[i]];
  }

  /** The state one scan builds up: entries pushed and cut back, Profiles found, and the files and
      directories of the Working Copy. */
  class ScanContext {
    const config: Config
    var entries: seq<Entry>
    var profilePaths: set<string>
    var workingCopy: set<Path>
    var dirs: set<Path>

    constructor (config: Config)
      ensures this.config == config && entries == [] && profilePaths == {} && workingCopy == {} && dirs == {}
    {
      this.config := config;
      entries, profilePaths, workingCopy, dirs := [], {}, {}, {};
    }

    /** Nothing was copied below a path not yet visited. */
    ghost predicate Free(path: Path) reads this {
      forall p :: p in workingCopy ==> !Under(path, p)
    }

    /** The effect of a completed scan of one node. */
    twostate predicate Scanned(path: Path, node: Node)
      requires path != []
      reads this
    {
      var es := Observe(config, path, node);
      && es.Some?
      && entries == old(entries) + es.value
      && workingCopy == old(workingCopy) + CopiedPaths(es.value)
      && Copy(workingCopy, dirs) == CopyAfter(config, path, node, Copy(old(workingCopy), old(dirs)))
      && profilePaths == old(profilePaths) + ProfileOf(config, path, node)
    }

    method InspectNode(path: Path, node: Node) returns (ok: bool)
      requires Proper(node) && Free(path) && path != []
      modifies this
      ensures ok <==> Observe(config, path, node).Some?
      ensures ok ==> Scanned(path, node)
      decreases node, 2
    {
      match node
      case Unstattable(reason) =>
        entries := entries + [UnavailableEntry(config, path, File, reason)];
        ok := true;
      case Unsupported =>
        ok := false;
      case FileNode(createFails, read) =>
        ok := InspectFile(path, createFails, read);
      case SymlinkNode(link) =>
        entries := entries + [InspectSymlink(path, link)];
        ok := true;
      case SocketNode =>
        entries := entries + [ValueEntry(config, path, Socket, None, config.digestOf("socket"))];
        ok := true;
      case UnlistableDir(_, _) =>
        ok := InspectDirectory(path, node);
      case DirNode(_, _) =>
        ok := InspectDirectory(path, node);
    }

    function InspectSymlink(path: Path, link: LinkRead): Entry {
      match link
      case LinkFailed(reason) => UnavailableEntry(config, path, Symlink, reason)
      case LinkChanged => UnavailableEntry(config, path, Symlink, ChangedDuringIngest)
      case LinkTo(target) => ValueEntry(config, path, Symlink, Some(|UrlText.EncodeUtf8(target)|), config.digestOf(target))
    }

    /** Open the copy first, remove it again unless the read was stable. */
    method InspectFile(path: Path, createFails: bool, read: FileRead) returns (ok: bool)
      requires Free(path) && path != []
      modifies this
      ensures ok <==> ObserveFile(config, path, createFails, read).Some?
      ensures ok ==> Scanned(path, FileNode(createFails, read))
    {
      var shouldCopy := Copies(config, path);
      if shouldCopy {
        if createFails || path in workingCopy {
          assert createFails;
          return false;
        }
        dirs := dirs + Ancestors(path);
        workingCopy := workingCopy + {path};
      }
      var keepDestination := false;
      match read {
        case TooLarge => ok := false;
        case Threw => ok := false;
        case OpenFailed(reason) =>
          entries := entries + [UnavailableEntry(config, path, File, reason)];
          ok := true;
        case ReadFailed(reason) =>
          entries := entries + [UnavailableEntry(config, path, File, reason)];
          ok := true;
        case Changed =>
          entries := entries + [UnavailableEntry(config, path, File, ChangedDuringIngest)];
          ok := true;
        case Stable(size, sha256) =>
          keepDestination := shouldCopy;
          entries := entries + [ValueEntry(config, path, File, Some(size), sha256).(copied := shouldCopy)];
          ok := true;
      }
      if shouldCopy && !keepDestination {
        workingCopy := workingCopy - {path};
        RemoveEmptyParents(path);
      }
    }

    /** The parent directories that the failed copy left empty, up to the root. */
    method RemoveEmptyParents(path: Path)
      requires path != []
      modifies this`dirs
      ensures Copy(workingCopy, dirs) == Walk(Copy(workingCopy, old(dirs)), Parent(path))
    {
      var directory := Parent(path);
      while directory != []
        invariant Walk(Copy(workingCopy, old(dirs)), Parent(path)) == Walk(Copy(workingCopy, dirs), directory)
        decreases |directory|
      {
        if directory !in dirs || !Empty(Copy(workingCopy, dirs), directory) {
          return;
        }
        dirs := dirs - {directory};
        directory := Parent(directory);
      }
    }

    /** Cut the entries back to where the directory began, remove what was copied of it, and push one
        unavailable entry in their place; a removal that fails ends the scan. */
    method DiscardDirectoryObservation(entryStart: nat, path: Path, reason: Reason, stuck: bool) returns (ok: bool)
      requires entryStart <= |entries|
      modifies this
      ensures ok <==> !stuck
      ensures ok ==> entries == old(entries)[..entryStart] + [UnavailableEntry(config, path, Dir, reason)]
      ensures ok ==> Copy(workingCopy, dirs) == Discarded(Copy(old(workingCopy), old(dirs)), path)
      ensures profilePaths == old(profilePaths)
    {
      entries := entries[..entryStart];
      if stuck {
        return false;
      }
      ok := true;
      workingCopy := set p | p in workingCopy && !Under(path, p);
      dirs := set p | p in dirs && !Under(path, p);
      entries := entries + [UnavailableEntry(config, path, Dir, reason)];
    }

    method InspectDirectory(path: Path, node: Node) returns (ok: bool)
      requires Proper(node) && IsDirectory(node) && Free(path) && path != []
      modifies this
      ensures ok <==> Observe(config, path, node).Some?
      ensures ok ==> Scanned(path, node)
      decreases node, 1
    {
      hide ObserveChildren, SoundScan, Under, CopiedPaths, ObserveFile, Proper;
      var entryStart := |entries|;
      ghost var entries0, copy0 := entries, workingCopy;
      entries := entries + [ValueEntry(config, path, Dir, None, config.digestOf("dir"))];
      if config.userDataDir && |path| == 1 && config.isProfileName(path[0]) {
        profilePaths := profilePaths + {path[0]};
      }
      NoCopies(config, path);
      if node.UnlistableDir? {
        Removed(path, copy0, {});
        assert entries[..entryStart] == entries0;
        ok := DiscardDirectoryObservation(entryStart, path, node.reason, node.stuck);
        return;
      }
      ok := InspectChildren(path, node);
      if !ok {
        return;
      }
      ghost var inner := ObserveChildren(config, path, node.children).value;
      ChildCopiesUnder(config, path, node);
      Removed(path, copy0, CopiedPaths(inner));
      assert entries[..entryStart] == entries0;
      if node.check.CheckFailed? {
        ok := DiscardDirectoryObservation(entryStart, path, node.check.reason, node.check.stuck);
      } else if node.check.Different? {
        ok := DiscardDirectoryObservation(entryStart, path, ChangedDuringIngest, node.check.stuck);
      } else {
        CopiedOfConcat([ValueEntry(config, path, Dir, None, config.digestOf("dir"))], inner);
      }
    }

    /** The loop over the sorted child names. */
    method InspectChildren(path: Path, node: Node) returns (ok: bool)
      requires node.DirNode? && Proper(node) && Free(path) && path != []
      modifies this
      ensures ok <==> ObserveChildren(config, path, node.children).Some?
      ensures ok ==> entries == old(entries) + ObserveChildren(config, path, node.children).value
      ensures ok ==> workingCopy == old(workingCopy) + CopiedPaths(ObserveChildren(config, path, node.children).value)
      ensures ok ==>
        Copy(workingCopy, dirs) == CopyAfterChildren(config, path, node.children, Copy(old(workingCopy), old(dirs)))
      ensures ok ==> profilePaths == old(profilePaths)
      decreases node, 0
    {
      hide SoundScan, Under, CopiedPaths, ObserveFile, Observe, Proper, HasBackslash;
      var children := node.children;
      NoneCopied();
      for i := 0 to |children|
        invariant ObserveChildren(config, path, children[..i]).Some?
        invariant entries == old(entries) + ObserveChildren(config, path, children[..i]).value
        invariant workingCopy == old(workingCopy) + CopiedPaths(ObserveChildren(config, path, children[..i]).value)
        invariant Copy(workingCopy, dirs)
          == CopyAfterChildren(config, path, children[..i], Copy(old(workingCopy), old(dirs)))
        invariant profilePaths == old(profilePaths)
      {
        ghost var before := ObserveChildren(config, path, children[..i]).value;
        assert children[..i + 1][..i] == children[..i];
        var child := children[i];
        if HasBackslash(child.name) {
          ThrowsFrom(config, path, children, i + 1);
          return false;
        }
        ChildIsFree(config, path, node, i, old(workingCopy));
        ChildIsProper(node, i);
        ok := InspectNode(path + [child.name], child.node);
        if !ok {
          ThrowsFrom(config, path, children, i + 1);
          return;
        }
        CopiedOfConcat(before, Observe(config, path + [child.name], child.node).value);
      }
      assert children[..|children|] == children;
      ok := true;
    }

    /** The loop over the sorted names of the Source root. */
    method InspectRootChildren(children: seq<Child>) returns (ok: bool)
      requires entries == [] && workingCopy == {} && dirs == {} && profilePaths == {} && ProperRoot(children)
      modifies this
      ensures ok <==> ObserveChildren(config, [], children).Some?
      ensures ok ==> entries == ObserveChildren(config, [], children).value
      ensures ok ==> workingCopy == CopiedPaths(entries)
      ensures ok ==> Copy(workingCopy, dirs) == CopyOf(config, children)
      ensures ok ==> profilePaths == ProfileNames(config, children)
    {
      hide SoundScan, Under, CopiedPaths, ObserveFile, Observe, Proper, HasBackslash, ProfileOf, ProfileNames;
      NoneCopied();
      ghost var root := DirNode(children, Unchanged);
      NoProfilesYet(config);
      for i := 0 to |children|
        invariant ObserveChildren(config, [], children[..i]).Some?
        invariant entries == ObserveChildren(config, [], children[..i]).value
        invariant workingCopy == CopiedPaths(entries)
        invariant Copy(workingCopy, dirs) == CopyOf(config, children[..i])
        invariant profilePaths == ProfileNames(config, children[..i])
      {
        ghost var before := entries;
        assert children[..i + 1][..i] == children[..i];
        var child := children[i];
        if HasBackslash(child.name) {
          ThrowsFrom(config, [], children, i + 1);
          return false;
        }
        ChildIsFree(config, [], root, i, {});
        ChildIsProper(root, i);
        assert [] + [child.name] == [child.name];
        assert {} + CopiedPaths(before) == CopiedPaths(before);
        ok := InspectNode([child.name], child.node);
        if !ok {
          ThrowsFrom(config, [], children, i + 1);
          return;
        }
        CopiedOfConcat(before, Observe(config, [child.name], child.node).value);
        ProfilesOfPrefix(config, children, i);
      }
      assert children[..|children|] == children;
      ok := true;
    }

    /** Look for an unavailable directory above the path, outermost first. */
    method UnavailableParent(path: Path) returns (found: bool)
      ensures found == HasUnavailableParent(path, entries, 1)
    {
      var length := 1;
      while length < |path|
        invariant 1 <= length
        invariant HasUnavailableParent(path, entries, 1) == HasUnavailableParent(path, entries, length)
      {
        if IsUnavailableDir(FindEntry(entries, path[..length])) {
          return true;
        }
        length := length + 1;
      }
      return false;
    }

    /** An entry for each expected path that the scan did not meet. */
    method AddExpectedEntries(expected: seq<Path>)
      modifies this`entries
      ensures entries == WithExpected(config, old(entries), expected)
    {
      var actualPaths := PathsOf(entries);
      for i := 0 to |expected|
        invariant entries == WithExpected(config, old(entries), expected[..i])
      {
        var path := expected[i];
        assert expected[..i + 1][..i] == expected[..i];
        if path !in actualPaths {
          var hidden := UnavailableParent(path);
          entries := entries + [
            if hidden then UnavailableEntry(config, path, File, ParentUnavailable)
            else Entry(path, Absent, None, AbsentNode, config.classify(path, AbsentNode), false, None,
                       Some(config.digestOf("absent")))
          ];
        }
      }
      assert expected[..|expected|] == expected;
    }

    /** One scan of the Source into an empty Working Copy. */
    method ScanOnce(policy: Policy, root: Root) returns (r: Result<Acquired, Failure>)
      requires entries == [] && workingCopy == {} && dirs == {} && profilePaths == {}
      requires root.ListedRoot? ==> ProperRoot(root.children)
      modifies this
      ensures r == ScanOf(config, policy, root)
      ensures r.Ok? ==> workingCopy == CopiedPaths(r.value.entries)
      ensures r.Ok? ==> root.ListedRoot? && Copy(workingCopy, dirs) == CopyOf(config, root.children)
    {
      hide CopyOf, CopiedPaths, ObserveChildren, WithExpected, ExpectedPaths, Sort, DistinctPaths, ProfileNames;
      if root.UnstattableRoot? {
        return Err(SystemError);
      }
      if root.UnlistableRoot? {
        return Err(IngestFailed);
      }
      var ok := InspectRootChildren(root.children);
      if !ok {
        return Err(IngestFailed);
      }
      if !root.same {
        return Err(SourceRootChanged);
      }
      var profiles := ["."];
      if config.userDataDir {
        profiles := SortedText(profilePaths);
        SortedIsListed(profiles, profilePaths);
      }
      ghost var observed, expected := entries, ExpectedPaths(config, policy, profiles);
      AddExpectedEntries(ExpectedPaths(config, policy, profiles));
      PlaceholdersAreNotCopied(config, observed, expected);
      var sorted := SortManifestEntries(config, entries);
      if sorted.None? {
        return Err(IngestFailed);
      }
      SortKeepsCopies(config, entries);
      return Ok(Acquired(sorted.value, profiles));
    }
  }

  // Which files are copied, by their tiers alone.

  /** An observed file is copied exactly when it is of Tier 1, or of Tier 2 and that tier was asked for. */
  predicate CopiedByTier(c: Config, e: Entry) {
    && e.tier == c.classify(e.path, e.nodeType)
    && (e.copied <==> e.nodeType.File? && e.state.Value? && (e.tier.Tier1? || (e.tier.Tier2? && c.includeTier2)))
  }

  /** The paths that a Manifest's entries say are in the Working Copy. */
  function PathsToCopy(c: Config, es: seq<Entry>): set<Path> {
    set e | e in es && e.nodeType.File? && e.state.Value? && (e.tier.Tier1? || (e.tier.Tier2? && c.includeTier2)) :: e.path
  }

  lemma {:induction false} ObservedByTier(c: Config, path: Path, node: Node)
    requires Observe(c, path, node).Some?
    ensures forall e :: e in Observe(c, path, node).value ==> CopiedByTier(c, e)
    decreases node, if node.DirNode? then |node.children| + 1 else 0
  {
    if node.DirNode? {
      ChildrenByTier(c, path, node.children);
    }
  }

  lemma {:induction false} ChildrenByTier(c: Config, path: Path, children: seq<Child>)
    requires ObserveChildren(c, path, children).Some?
    ensures forall e :: e in ObserveChildren(c, path, children).value ==> CopiedByTier(c, e)
    decreases children, |children|
  {
    if children != [] {
      var n := |children| - 1;
      ChildrenByTier(c, path, children[..n]);
      ObservedByTier(c, path + [children[n].name], children[n].node);
    }
  }

  lemma {:induction false} ExpectedByTier(c: Config, observed: seq<Entry>, expected: seq<Path>)
    requires forall e :: e in observed ==> CopiedByTier(c, e)
    ensures forall e :: e in WithExpected(c, observed, expected) ==> CopiedByTier(c, e)
  {
    hide HasUnavailableParent;
    if expected != [] {
      ExpectedByTier(c, observed, expected[..|expected| - 1]);
    }
  }

  /** So it is over the whole Manifest of a scan, whatever failed. */
  lemma ScanCopiesByTier(c: Config, policy: Policy, root: Root)
    requires ScanOf(c, policy, root).Ok?
    ensures forall e :: e in ScanOf(c, policy, root).value.entries ==> CopiedByTier(c, e)
    ensures CopiedPaths(ScanOf(c, policy, root).value.entries) == PathsToCopy(c, ScanOf(c, policy, root).value.entries)
  {
    hide ObserveChildren, WithExpected, ExpectedPaths, Sort, ProfileList, CopiedByTier, DistinctPaths;
    var observed := ObserveChildren(c, [], root.children).value;
    var es := WithExpected(c, observed, ExpectedPaths(c, policy, ProfileList(c, root.children)));
    ChildrenByTier(c, [], root.children);
    ExpectedByTier(c, observed, ExpectedPaths(c, policy, ProfileList(c, root.children)));
    MultisetMembers(Sort(c.lineLess, es), es);
    assert forall e :: e in es <==> e in Members(es);
    assert forall e :: e in Sort(c.lineLess, es) <==> e in Members(Sort(c.lineLess, es));
    CopiedAreToCopy(c, Sort(c.lineLess, es));
  }

  lemma CopiedAreToCopy(c: Config, es: seq<Entry>)
    requires forall e :: e in es ==> CopiedByTier(c, e)
    ensures CopiedPaths(es) == PathsToCopy(c, es)
  {
  }

  /** No entry of a scan has a backslash in its path: the Manifest cannot hold one, so the scan fails instead. */
  lemma {:induction false} PathsHoldNoBackslash(c: Config, path: Path, node: Node)
    requires Observe(c, path, node).Some? && forall s :: s in path ==> '\\' !in s
    ensures forall e, s :: e in Observe(c, path, node).value && s in e.path ==> '\\' !in s
    decreases node, if node.DirNode? then |node.children| + 1 else 0
  {
    if node.DirNode? {
      ChildPathsHoldNoBackslash(c, path, node.children);
    }
  }

  lemma {:induction false} ChildPathsHoldNoBackslash(c: Config, path: Path, children: seq<Child>)
    requires ObserveChildren(c, path, children).Some? && forall s :: s in path ==> '\\' !in s
    ensures forall e, s :: e in ObserveChildren(c, path, children).value && s in e.path ==> '\\' !in s
    ensures forall k :: k in children ==> '\\' !in k.name
    decreases children, |children|
  {
    if children != [] {
      var n := |children| - 1;
      ChildPathsHoldNoBackslash(c, path, children[..n]);
      PathsHoldNoBackslash(c, path + [children[n].name], children[n].node);
      assert children == children[..n] + [children[n]];
    }
  }

  /** The Manifest of a scan is in the order of its lines, where those order its entries. */
  lemma ScanIsSorted(c: Config, policy: Policy, root: Root)
    requires ScanOf(c, policy, root).Ok? && StrictOrder(c.lineLess)
    requires TotalOn(c.lineLess, Members(ScanOf(c, policy, root).value.entries))
    ensures Ascending(c.lineLess, ScanOf(c, policy, root).value.entries)
  {
    hide ObserveChildren, ExpectedPaths, ProfileList, WithExpected, Sort, StrictOrder, TotalOn, Ascending;
    var es := WithExpected(c, ObserveChildren(c, [], root.children).value,
                           ExpectedPaths(c, policy, ProfileList(c, root.children)));
    MultisetMembers(Sort(c.lineLess, es), es);
    SortAscending(c.lineLess, es);
  }

  // Which paths are expected, and which Profiles are found.

  /** An expected artifact of the Profile at `root`, or a sidecar of one that is a database. */
  predicate IsProfileArtifact(policy: Policy, root: Path, p: Path) {
    exists a :: a in policy.profile && a.expected && IsArtifactPath(root + a.path, a.database, policy.sidecars, p)
  }

  predicate IsArtifactPath(path: Path, database: bool, suffixes: seq<string>, p: Path) {
    p == path || (database && path != [] && exists s :: s in suffixes && p == WithSuffix(path, s))
  }

  /** The suffix behind the file name. */
  function WithSuffix(path: Path, suffix: string): Path
    requires path != []
  {
    Parent(path) + [path[|path| - 1] + suffix]
  }

  lemma {:induction false} SidecarsAre(path: Path, suffixes: seq<string>, p: Path)
    ensures p in SidecarPaths(path, suffixes)
      <==> path != [] && exists s :: s in suffixes && p == WithSuffix(path, s)
  {
    if suffixes != [] && path != [] {
      SidecarsAre(path, suffixes[1..], p);
      assert suffixes == [suffixes[0]] + suffixes[1..];
      assert path[|path| - 1 := path[|path| - 1] + suffixes[0]] == WithSuffix(path, suffixes[0]);
    }
  }

  lemma {:induction false} ProfilePathsAre(root: Path, artifacts: seq<Artifact>, sidecars: seq<string>, p: Path)
    ensures p in ProfilePaths(root, artifacts, sidecars)
      <==> exists a :: a in artifacts && a.expected && IsArtifactPath(root + a.path, a.database, sidecars, p)
  {
    hide SidecarPaths;
    if artifacts != [] {
      var a := artifacts[0];
      ProfilePathsAre(root, artifacts[1..], sidecars, p);
      SidecarsAre(root + a.path, sidecars, p);
      assert artifacts == [a] + artifacts[1..];
    }
  }

  lemma {:induction false} BrowserPathsAre(artifacts: seq<Artifact>, p: Path)
    ensures p in BrowserPaths(artifacts) <==> exists a :: a in artifacts && a.expected && a.path == p
  {
    if artifacts != [] {
      BrowserPathsAre(artifacts[1..], p);
      assert artifacts == [artifacts[0]] + artifacts[1..];
    }
  }

  lemma {:induction false} AllProfilePathsAre(policy: Policy, profiles: seq<string>, p: Path)
    ensures p in AllProfilePaths(policy, profiles) <==> exists name :: name in profiles && IsProfileArtifact(policy, [name], p)
  {
    hide ProfilePaths, IsArtifactPath;
    if profiles != [] {
      AllProfilePathsAre(policy, profiles[1..], p);
      ProfilePathsAre([profiles[0]], policy.profile, policy.sidecars, p);
      assert profiles == [profiles[0]] + profiles[1..];
      assert p in AllProfilePaths(policy, profiles)
        <==> p in ProfilePaths([profiles[0]], policy.profile, policy.sidecars) || p in AllProfilePaths(policy, profiles[1..]);
    }
  }

  /** A path is expected exactly when it is that of an expected artifact of the browser, or of a Profile that was
      found, or a sidecar of a database of one. */
  lemma ExpectedPathsAre(c: Config, policy: Policy, profiles: seq<string>, p: Path)
    ensures c.userDataDir ==> (p in ExpectedPaths(c, policy, profiles) <==>
      || (exists a :: a in policy.browser && a.expected && a.path == p)
      || (exists name :: name in profiles && IsProfileArtifact(policy, [name], p)))
    ensures !c.userDataDir ==> (p in ExpectedPaths(c, policy, profiles) <==> IsProfileArtifact(policy, [], p))
  {
    hide BrowserPaths, AllProfilePaths, ProfilePaths, IsArtifactPath;
    BrowserPathsAre(policy.browser, p);
    AllProfilePathsAre(policy, profiles, p);
    ProfilePathsAre([], policy.profile, policy.sidecars, p);
  }

  /** The Profiles found are the top-level directories with a Profile name, sorted, even those discarded later;
      a Profile Dir is its own. */
  lemma ProfilesFound(c: Config, children: seq<Child>, name: string)
    ensures c.userDataDir ==> (name in ProfileList(c, children) <==>
      exists k :: k in children && k.name == name && (k.node.DirNode? || k.node.UnlistableDir?) && c.isProfileName(name))
    ensures c.userDataDir ==> Ascending(TextLess, ProfileList(c, children))
    ensures !c.userDataDir ==> ProfileList(c, children) == ["."]
  {
    hide TextLess, Listed;
    TextIsTotalOrder(ProfileNames(c, children));
    if c.userDataDir {
      assert name in ProfileList(c, children) <==> name in Members(ProfileList(c, children));
    }
  }

  /** Scan again when the Source root changed under the first scan, each time into a Working Copy
      emptied first; a second change fails the ingest. */
  ghost function AcquireOf(c: Config, policy: Policy, first: Root, second: Root): Result<Acquired, Failure> {
    if ScanOf(c, policy, first) != Err(SourceRootChanged) then ScanOf(c, policy, first)
    else if ScanOf(c, policy, second) != Err(SourceRootChanged) then ScanOf(c, policy, second)
    else Err(IngestFailed)
  }

  /** The scan whose result is returned. */
  ghost function ReturnedScan(c: Config, policy: Policy, first: Root, second: Root): Root {
    if ScanOf(c, policy, first) != Err(SourceRootChanged) then first else second
  }

  const ROOT_SCAN_ATTEMPTS := 2

  /** What the Working Copy holds afterwards is what the one scan that was returned copied. */
  method AcquireDirectory(c: Config, policy: Policy, scans: seq<Root>)
    returns (r: Result<Acquired, Failure>, workingCopy: set<Path>, dirs: set<Path>)
    requires |scans| == ROOT_SCAN_ATTEMPTS
    requires forall s :: s in scans && s.ListedRoot? ==> ProperRoot(s.children)
    ensures r == AcquireOf(c, policy, scans[0], scans[1])
    ensures r.Ok? ==> workingCopy == CopiedPaths(r.value.entries) == PathsToCopy(c, r.value.entries)
    ensures r.Ok? ==> forall e :: e in r.value.entries ==> CopiedByTier(c, e)
    ensures r.Ok? ==>
      var scan := ReturnedScan(c, policy, scans[0], scans[1]);
      r == ScanOf(c, policy, scan) && scan.ListedRoot? && Copy(workingCopy, dirs) == CopyOf(c, scan.children)
  {
    hide ScanOf, CopiedPaths, PathsToCopy, CopiedByTier, ProperRoot, CopyOf;
    workingCopy, dirs := {}, {};
    for attempt := 1 to ROOT_SCAN_ATTEMPTS + 1
      invariant attempt == 2 ==> ScanOf(c, policy, scans[0]) == Err(SourceRootChanged)
      invariant attempt <= 2
    {
      var context := new ScanContext(c);
      r := context.ScanOnce(policy, scans[attempt - 1]);
      workingCopy, dirs := context.workingCopy, context.dirs;
      if r != Err(SourceRootChanged) {
        if r.Ok? {
          ScanCopiesByTier(c, policy, scans[attempt - 1]);
        }
        return;
      }
      if attempt == ROOT_SCAN_ATTEMPTS {
        return Err(IngestFailed), workingCopy, dirs;
      }
    }
    assert false;
  }

  /** What a Manifest and its Working Copy promise, in terms of the entries alone. */
  ghost predicate ManifestPromise(es: seq<Entry>, expected: seq<Path>) {
    && DistinctPaths(es)
    && (forall p :: p in expected ==> p in PathsOf(es))
    && (forall d, e :: d in es && e in es && d.state.Unavailable? && d.nodeType.Dir? && Below(d.path, e.path) ==>
          IsPlaceholder(e))
    && (forall e :: e in es && e.state.Absent? ==> e.path in expected && !Hidden(es, e.path))
    && (forall e :: e in es && e.copied ==> e.state.Value? && e.nodeType.File? && e.size.Some? && e.digest.Some?)
  }

  /** The Manifest every successful scan returns, whatever failed or changed during it. */
  lemma ScanKeepsPromise(c: Config, policy: Policy, root: Root)
    requires root.ListedRoot? && ProperRoot(root.children)
    requires Distinct(ExpectedPaths(c, policy, ProfileList(c, root.children)))
    requires ScanOf(c, policy, root).Ok?
    ensures ManifestPromise(ScanOf(c, policy, root).value.entries, ExpectedPaths(c, policy, ProfileList(c, root.children)))
    ensures ScanOf(c, policy, root).value.profiles == ProfileList(c, root.children)
  {
    hide Observe, ObserveChildren, WithExpected, ExpectedPaths, Sort, ProfileList, Below, Proper;
    var observed := ObserveChildren(c, [], root.children).value;
    var expected := ExpectedPaths(c, policy, ProfileList(c, root.children));
    var es := WithExpected(c, observed, expected);
    ObservedAreSound(c, root.children);
    PromiseBeforeSorting(c, observed, expected);
    PromiseOfPermutation(es, Sort(c.lineLess, es), expected);
  }

  /** Only a throw or a changed root fails a listed Source: the refusal of a repeated path is never
      reached. */
  lemma ScanSucceeds(c: Config, policy: Policy, root: Root)
    requires root.ListedRoot? && ProperRoot(root.children)
    requires Distinct(ExpectedPaths(c, policy, ProfileList(c, root.children)))
    ensures ScanOf(c, policy, root).Ok? <==> root.same && ObserveChildren(c, [], root.children).Some?
  {
    hide Observe, ObserveChildren, WithExpected, ExpectedPaths, Sort, ProfileList, Below, Proper;
    if ObserveChildren(c, [], root.children).Some? {
      ObservedAreSound(c, root.children);
      ExpectedAreCovered(c, ObserveChildren(c, [], root.children).value,
        ExpectedPaths(c, policy, ProfileList(c, root.children)));
    }
  }

  /** The children of a Source root, as a listing gives them. */
  predicate ProperRoot(children: seq<Child>) {
    Proper(DirNode(children, Unchanged))
  }

  lemma NoProfilesYet(c: Config)
    ensures ProfileNames(c, []) == {}
  {
  }

  lemma ObservedAreSound(c: Config, children: seq<Child>)
    requires ProperRoot(children) && ObserveChildren(c, [], children).Some?
    ensures var es := ObserveChildren(c, [], children).value; SoundScan(c, [], es) && Rooted(es)
    ensures forall e :: e in ObserveChildren(c, [], children).value ==> !e.state.Absent?
  {
    hide Observe, ObserveChildren, SoundScan;
    ChildrenAreSound(c, [], children, DirNode(children, Unchanged));
    ChildrenArePresent(c, [], children);
  }

  lemma {:induction false} ObservedIsPresent(c: Config, path: Path, node: Node)
    requires Observe(c, path, node).Some?
    ensures forall e :: e in Observe(c, path, node).value ==> !e.state.Absent?
    decreases node, if node.DirNode? then |node.children| + 1 else 0
  {
    if node.DirNode? {
      ChildrenArePresent(c, path, node.children);
    }
  }

  lemma {:induction false} ChildrenArePresent(c: Config, path: Path, children: seq<Child>)
    requires ObserveChildren(c, path, children).Some?
    ensures forall e :: e in ObserveChildren(c, path, children).value ==> !e.state.Absent?
    decreases children, |children|
  {
    if children != [] {
      var n := |children| - 1;
      ChildrenArePresent(c, path, children[..n]);
      ObservedIsPresent(c, path + [children[n].name], children[n].node);
    }
  }

  lemma PromiseBeforeSorting(c: Config, observed: seq<Entry>, expected: seq<Path>)
    requires SoundScan(c, [], observed) && Rooted(observed) && Distinct(expected)
    requires forall e :: e in observed ==> !e.state.Absent?
    ensures ManifestPromise(WithExpected(c, observed, expected), expected)
  {
    hide WithExpected, Below, IsPlaceholder;
    var es := WithExpected(c, observed, expected);
    ExpectedAreCovered(c, observed, expected);
    forall d, e | d in es && e in es && d.state.Unavailable? && d.nodeType.Dir? && Below(d.path, e.path)
      ensures IsPlaceholder(e)
    {
      OnlyPlaceholdersBelow(c, observed, expected, d, e);
    }
    PlaceholderIsNotAbsent();
  }

  lemma PlaceholderIsNotAbsent()
    ensures forall e :: IsPlaceholder(e) ==> !e.state.Absent?
  {
  }

  lemma PromiseOfPermutation(a: seq<Entry>, b: seq<Entry>, expected: seq<Path>)
    requires ManifestPromise(a, expected) && multiset(a) == multiset(b)
    ensures ManifestPromise(b, expected)
  {
    hide Below, IsPlaceholder;
    MultisetMembers(a, b);
    assert forall e :: e in b <==> e in Members(b);
    assert forall e :: e in a <==> e in Members(a);
    DistinctOfPermutation(a, b);
    assert PathsOf(a) == PathsOf(b);
  }

  /** Distinct paths survive reordering. */
  lemma DistinctOfPermutation(a: seq<Entry>, b: seq<Entry>)
    requires DistinctPaths(a) && multiset(a) == multiset(b)
    ensures DistinctPaths(b)
  {
    PermutationKeepsKeys((e: Entry) => e.path, a, b);
  }

  lemma {:induction false} PlaceholdersAreNotCopied(c: Config, observed: seq<Entry>, expected: seq<Path>)
    ensures CopiedPaths(WithExpected(c, observed, expected)) == CopiedPaths(observed)
  {
    if expected != [] {
      var rest, path := expected[..|expected| - 1], expected[|expected| - 1];
      PlaceholdersAreNotCopied(c, observed, rest);
      if path !in PathsOf(observed) {
        var es := WithExpected(c, observed, rest);
        CopiedOfConcat(es, [Placeholder(c, es, path)]);
      }
    }
  }

  lemma SortKeepsCopies(c: Config, es: seq<Entry>)
    ensures CopiedPaths(Sort(c.lineLess, es)) == CopiedPaths(es)
  {
    hide Sort;
    MultisetMembers(Sort(c.lineLess, es), es);
    assert forall e :: e in es <==> e in Members(es);
    assert forall e :: e in Sort(c.lineLess, es) <==> e in Members(Sort(c.lineLess, es));
  }

  /** The entries a directory itself can give have no copies. */
  lemma NoCopies(c: Config, path: Path)
    ensures CopiedPaths([ValueEntry(c, path, Dir, None, c.digestOf("dir"))]) == {}
    ensures forall reason :: CopiedPaths([UnavailableEntry(c, path, Dir, reason)]) == {}
  {
  }

  lemma ChildCopiesUnder(c: Config, path: Path, node: Node)
    requires node.DirNode? && Proper(node) && ObserveChildren(c, path, node.children).Some?
    ensures forall p :: p in CopiedPaths(ObserveChildren(c, path, node.children).value) ==> Under(path, p)
  {
    ChildrenAreSound(c, path, node.children, node);
  }

  /** Removing everything under a path that was free gives the copies from before. */
  lemma Removed(path: Path, start: set<Path>, added: set<Path>)
    requires (forall p :: p in start ==> !Under(path, p)) && (forall p :: p in added ==> Under(path, p))
    ensures (set p | p in start + added && !Under(path, p)) == start
  {
  }

  /** A throw ends the scan. */
  lemma {:induction false} ThrowsFrom(c: Config, path: Path, children: seq<Child>, i: nat)
    requires i <= |children| && ObserveChildren(c, path, children[..i]).None?
    ensures ObserveChildren(c, path, children).None?
    decreases |children| - i
  {
    if i < |children| {
      assert children[..i + 1][..i] == children[..i];
      ThrowsFrom(c, path, children, i + 1);
    } else {
      assert children[..i] == children;
    }
  }

  /** What the earlier siblings copied leaves the next child's path free. */
  lemma ChildIsFree(c: Config, path: Path, parent: Node, i: nat, start: set<Path>)
    requires parent.DirNode? && Proper(parent) && i < |parent.children|
    requires ObserveChildren(c, path, parent.children[..i]).Some?
    requires forall p :: p in start ==> !Under(path, p)
    ensures forall p :: p in start + CopiedPaths(ObserveChildren(c, path, parent.children[..i]).value) ==>
      !Under(path + [parent.children[i].name], p)
  {
    hide ObserveChildren, SoundScan, Under;
    var before, name := ObserveChildren(c, path, parent.children[..i]).value, parent.children[i].name;
    ChildrenAreSound(c, path, parent.children[..i], parent);
    forall p | p in start + CopiedPaths(before) ensures !Under(path + [name], p) {
      if p in start {
        PrefixIsUnder(path, name, p);
      } else {
        var e :| e in before && e.copied && e.path == p;
        var k :| k in parent.children[..i] && Under(path + [k.name], p);
        SiblingExcludes(path, k.name, name, p);
      }
    }
  }
}
