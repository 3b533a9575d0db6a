/** What a scan lists, said of the tree alone: the nodes that stable directories lead to. */
module AcquisitionCoverage {
  import opened Outcomes
  import Orders
  import opened WorkingCopy
  import UrlText
  import opened Acquisition

  /** The child of a name; of several, the last. */
  function ChildNamed(children: seq<Child>, name: string): Option<Node> {
    if children == [] then None
    else if children[|children| - 1].name == name then Some(children[|children| - 1].node)
    else ChildNamed(children[..|children| - 1], name)
  }

  /** The node that a path leads to through directories listed whole and found unchanged. */
  function Reach(node: Node, path: Path): Option<Node>
    decreases |path|
  {
    if path == [] then Some(node)
    else if !node.DirNode? || !node.check.Unchanged? then None
    else
      var child := ChildNamed(node.children, path[0]);
      if child.None? then None else Reach(child.value, path[1..])
  }

  /** A node's own entry. */
  function OwnEntry(c: Config, path: Path, node: Node): Option<Entry> {
    match node
    case Unstattable(reason) => Some(UnavailableEntry(c, path, File, reason))
    case Unsupported => None
    case FileNode(createFails, read) =>
      var es := ObserveFile(c, path, createFails, read);
      if es.Some? && |es.value| == 1 then Some(es.value[0]) else None
    case SymlinkNode(LinkTo(target)) => Some(ValueEntry(c, path, Symlink, Some(|UrlText.EncodeUtf8(target)|), c.digestOf(target)))
    case SymlinkNode(LinkFailed(reason)) => Some(UnavailableEntry(c, path, Symlink, reason))
    case SymlinkNode(LinkChanged) => Some(UnavailableEntry(c, path, Symlink, ChangedDuringIngest))
    case SocketNode => Some(ValueEntry(c, path, Socket, None, c.digestOf("socket")))
    case UnlistableDir(reason, _) => Some(UnavailableEntry(c, path, Dir, reason))
    case DirNode(_, Unchanged) => Some(ValueEntry(c, path, Dir, None, c.digestOf("dir")))
    case DirNode(_, CheckFailed(reason, _)) => Some(UnavailableEntry(c, path, Dir, reason))
    case DirNode(_, Different(_)) => Some(UnavailableEntry(c, path, Dir, ChangedDuringIngest))
  }

  /** The entry lies below `path`, at a node reached from there. */
  predicate Listed(c: Config, path: Path, node: Node, e: Entry) {
    && Under(path, e.path)
    && var found := Reach(node, e.path[|path|..]); found.Some? && OwnEntry(c, e.path, found.value) == Some(e)
  }

  predicate ListedBelow(c: Config, path: Path, children: seq<Child>, e: Entry) {
    && Below(path, e.path)
    && var child := ChildNamed(children, e.path[|path|]);
    child.Some? && Listed(c, path + [e.path[|path|]], child.value, e)
  }

  lemma OwnPath(c: Config, path: Path, node: Node)
    ensures OwnEntry(c, path, node).Some? ==> OwnEntry(c, path, node).value.path == path
  {
  }

  /** A directory found unchanged lists itself and what its children list. */
  lemma DirectoryLists(c: Config, path: Path, node: Node, e: Entry)
    requires node.DirNode? && node.check.Unchanged?
    ensures Listed(c, path, node, e) <==>
      e == ValueEntry(c, path, Dir, None, c.digestOf("dir")) || ListedBelow(c, path, node.children, e)
  {
    hide OwnEntry;
    OwnPath(c, path, node);
    var own := ValueEntry(c, path, Dir, None, c.digestOf("dir"));
    assert OwnEntry(c, path, node) == Some(own) by { StableDirectory(c, path, node); }
    if Under(path, e.path) {
      var rest := e.path[|path|..];
      assert e.path == path + rest;
      if rest != [] {
        assert rest[0] == e.path[|path|] && rest[1..] == e.path[|path| + 1..];
        assert e.path[..|path| + 1] == path + [e.path[|path|]];
        assert e != own;
      } else {
        assert e.path == path && Reach(node, rest) == Some(node);
      }
    } else {
      assert e != own by { assert Under(path, path); }
    }
  }

  lemma StableDirectory(c: Config, path: Path, node: Node)
    requires node.DirNode? && node.check.Unchanged?
    ensures OwnEntry(c, path, node) == Some(ValueEntry(c, path, Dir, None, c.digestOf("dir")))
  {
  }

  /** Any other node lists itself alone. */
  lemma LeafLists(c: Config, path: Path, node: Node, e: Entry)
    requires !(node.DirNode? && node.check.Unchanged?)
    ensures Listed(c, path, node, e) <==> OwnEntry(c, path, node) == Some(e)
  {
    hide OwnEntry;
    OwnPath(c, path, node);
    if OwnEntry(c, path, node) == Some(e) {
      assert e.path == path && path[|path|..] == [];
      assert Reach(node, []) == Some(node);
      assert Listed(c, path, node, e);
    }
    if Listed(c, path, node, e) {
      var rest := e.path[|path|..];
      assert rest == [] by {
        assert rest != [] ==> Reach(node, rest).None?;
      }
      assert e.path == path + rest == path;
      assert Reach(node, rest) == Some(node);
    }
  }

  lemma {:induction false} ScanListsReached(c: Config, path: Path, node: Node)
    requires Proper(node) && Observe(c, path, node).Some?
    ensures forall e :: e in Observe(c, path, node).value <==> Listed(c, path, node, e)
    decreases node, if node.DirNode? then |node.children| + 1 else 0
  {
    hide Listed, ListedBelow;
    forall e ensures e in Observe(c, path, node).value <==> Listed(c, path, node, e) {
      if node.DirNode? && node.check.Unchanged? {
        ChildrenListReached(c, path, node.children, node);
        DirectoryLists(c, path, node, e);
      } else {
        LeafLists(c, path, node, e);
      }
    }
  }

  lemma {:induction false} ChildrenListReached(c: Config, path: Path, children: seq<Child>, parent: Node)
    requires DistinctNames(children) && (forall k :: k in children ==> Proper(k.node) && k.node < parent)
    requires ObserveChildren(c, path, children).Some?
    ensures forall e :: e in ObserveChildren(c, path, children).value <==> ListedBelow(c, path, children, e)
    decreases parent, |children|
  {
    hide Listed, ListedBelow, Observe;
    if children == [] {
      NothingBelow(c, path);
    } else {
      var n := |children| - 1;
      var last := children[n];
      ChildrenListReached(c, path, children[..n], parent);
      ScanListsReached(c, path + [last.name], last.node);
      NotNamedBefore(children[..n], last.name);
      forall e ensures e in ObserveChildren(c, path, children).value <==> ListedBelow(c, path, children, e) {
        LastChildLists(c, path, children, e);
      }
    }
  }

  lemma NothingBelow(c: Config, path: Path)
    ensures forall e :: !ListedBelow(c, path, [], e)
  {
  }

  lemma {:induction false} NotNamedBefore(children: seq<Child>, name: string)
    requires forall k :: k in children ==> k.name != name
    ensures ChildNamed(children, name).None?
  {
    if children != [] {
      NotNamedBefore(children[..|children| - 1], name);
    }
  }

  lemma LastChildLists(c: Config, path: Path, children: seq<Child>, e: Entry)
    requires children != [] && ChildNamed(children[..|children| - 1], children[|children| - 1].name).None?
    ensures var n := |children| - 1; var last := children[n];
      ListedBelow(c, path, children, e) <==>
        ListedBelow(c, path, children[..n], e) || Listed(c, path + [last.name], last.node, e)
  {
    hide Reach, OwnEntry;
    var n := |children| - 1;
    var last := children[n];
    if Under(path + [last.name], e.path) {
      assert e.path[..|path| + 1][|path|] == last.name;
      assert e.path[..|path| + 1][..|path|] == e.path[..|path|];
      assert (path + [last.name])[..|path|] == path;
    }
  }

  /** The scan of a Source root lists exactly the nodes reached from it, each with what was read there. */
  lemma RootScanListsReached(c: Config, children: seq<Child>, e: Entry)
    requires ProperRoot(children) && ObserveChildren(c, [], children).Some?
    ensures e in ObserveChildren(c, [], children).value <==>
      e.path != [] && var found := Reach(DirNode(children, Unchanged), e.path);
      found.Some? && OwnEntry(c, e.path, found.value) == Some(e)
  {
    hide OwnEntry;
    ChildrenListReached(c, [], children, DirNode(children, Unchanged));
    if e.path != [] {
      assert e.path[0..] == e.path && [] + [e.path[0]] == [e.path[0]];
      assert e.path[..1] == [e.path[0]];
    }
  }

  /** What an entry says of the node it was read from, field by field. */
  predicate SaysNode(c: Config, e: Entry, node: Node) {
    match node
    case Unstattable(r) => IsUnavailable(e, File, r)
    case Unsupported => false
    case FileNode(_, Stable(size, sha256)) => IsValue(e, File, Some(size), sha256)
    case FileNode(_, OpenFailed(r)) => IsUnavailable(e, File, r)
    case FileNode(_, ReadFailed(r)) => IsUnavailable(e, File, r)
    case FileNode(_, Changed) => IsUnavailable(e, File, ChangedDuringIngest)
    case FileNode(_, TooLarge) => false
    case FileNode(_, Threw) => false
    case SymlinkNode(LinkTo(target)) => IsValue(e, Symlink, Some(|UrlText.EncodeUtf8(target)|), c.digestOf(target))
    case SymlinkNode(LinkFailed(r)) => IsUnavailable(e, Symlink, r)
    case SymlinkNode(LinkChanged) => IsUnavailable(e, Symlink, ChangedDuringIngest)
    case SocketNode => IsValue(e, Socket, None, c.digestOf("socket"))
    case UnlistableDir(r, _) => IsUnavailable(e, Dir, r)
    case DirNode(_, Unchanged) => IsValue(e, Dir, None, c.digestOf("dir"))
    case DirNode(_, CheckFailed(r, _)) => IsUnavailable(e, Dir, r)
    case DirNode(_, Different(_)) => IsUnavailable(e, Dir, ChangedDuringIngest)
  }

  predicate IsUnavailable(e: Entry, nodeType: NodeType, reason: Reason) {
    e.state.Unavailable? && e.reason == Some(reason) && e.nodeType == nodeType && e.size.None? && e.digest.None?
  }

  predicate IsValue(e: Entry, nodeType: NodeType, size: Option<nat>, digest: string) {
    e.state.Value? && e.reason.None? && e.nodeType == nodeType && e.size == size && e.digest == Some(digest)
  }

  lemma OwnEntrySays(c: Config, path: Path, node: Node)
    ensures OwnEntry(c, path, node).Some? ==>
      var e := OwnEntry(c, path, node).value; e.path == path && SaysNode(c, e, node) && CopiedByTier(c, e)
  {
  }

  lemma OwnEntryExists(c: Config, path: Path, size: nat, sha256: string)
    ensures OwnEntry(c, path, FileNode(false, Stable(size, sha256))).Some?
  {
  }

  /** Every entry of a scan says what was read at the node that stable directories lead to. */
  lemma EntrySaysNode(c: Config, children: seq<Child>, e: Entry)
    requires ProperRoot(children) && ObserveChildren(c, [], children).Some? && e in ObserveChildren(c, [], children).value
    ensures var found := Reach(DirNode(children, Unchanged), e.path);
      found.Some? && SaysNode(c, e, found.value) && CopiedByTier(c, e)
  {
    hide Reach, OwnEntry, SaysNode, CopiedByTier, ObserveChildren;
    RootScanListsReached(c, children, e);
    OwnEntrySays(c, e.path, Reach(DirNode(children, Unchanged), e.path).value);
  }

  /** Every file that stable directories lead to and that was read whole is in the Manifest of a successful scan
      with its size and digest; it is in the Working Copy exactly when it is of Tier 1, or of Tier 2 and that tier
      was asked for. */
  lemma ReachedFileIsCopied(c: Config, policy: Policy, root: Root, path: Path, size: nat, sha256: string)
    requires root.ListedRoot? && ProperRoot(root.children) && ScanOf(c, policy, root).Ok? && path != []
    requires Reach(DirNode(root.children, Unchanged), path) == Some(FileNode(false, Stable(size, sha256)))
    ensures var es, tier := ScanOf(c, policy, root).value.entries, c.classify(path, File);
      && (exists e :: e in es && e.path == path && IsValue(e, File, Some(size), sha256))
      && (path in CopiedPaths(es) <==> tier.Tier1? || (tier.Tier2? && c.includeTier2))
  {
    hide Reach, OwnEntry, SaysNode, CopiedByTier, ObserveChildren, WithExpected, ExpectedPaths, ProfileList, Orders.Sort;
    var node := FileNode(false, Stable(size, sha256));
    var observed := ObserveChildren(c, [], root.children).value;
    var expected := ExpectedPaths(c, policy, ProfileList(c, root.children));
    OwnEntryExists(c, path, size, sha256);
    OwnEntrySays(c, path, node);
    var e := OwnEntry(c, path, node).value;
    RootScanListsReached(c, root.children, e);
    ObservedStays(c, observed, expected, e);
    var es := WithExpected(c, observed, expected);
    Orders.MultisetMembers(Orders.Sort(c.lineLess, es), es);
    assert e in Orders.Members(es);
    var all := ScanOf(c, policy, root).value.entries;
    assert e in all && IsValue(e, File, Some(size), sha256) by { FileSays(c, e, size, sha256); }
    ScanCopiesByTier(c, policy, root);
    DistinctOfPermutation(es, Orders.Sort(c.lineLess, es));
    ByPath(c, all, e);
  }

  lemma FileSays(c: Config, e: Entry, size: nat, sha256: string)
    requires SaysNode(c, e, FileNode(false, Stable(size, sha256)))
    ensures IsValue(e, File, Some(size), sha256)
  {
  }

  /** With distinct paths a path is copied exactly when its entry is. */
  lemma ByPath(c: Config, es: seq<Entry>, e: Entry)
    requires DistinctPaths(es) && e in es && CopiedByTier(c, e) && e.state.Value? && e.nodeType.File?
    ensures e.path in CopiedPaths(es) <==> c.classify(e.path, File).Tier1? || (c.classify(e.path, File).Tier2? && c.includeTier2)
  {
    if d :| d in es && d.copied && d.path == e.path {
      var i :| 0 <= i < |es| && es[i] == d;
      var j :| 0 <= j < |es| && es[j] == e;
    }
  }

  lemma {:induction false} ObservedStays(c: Config, observed: seq<Entry>, expected: seq<Path>, e: Entry)
    requires e in observed
    ensures e in WithExpected(c, observed, expected)
  {
    hide HasUnavailableParent, Placeholder;
    if expected != [] {
      ObservedStays(c, observed, expected[..|expected| - 1], e);
    }
  }
}
