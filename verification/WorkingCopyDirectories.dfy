/** Which directories a scan leaves in the Working Copy, said of the tree alone, and when verification refuses
    what is left. */
module WorkingCopyDirectories {
  import opened Outcomes
  import Orders
  import opened WorkingCopy
  import opened Acquisition
  import opened AcquisitionCoverage

  // What the scan of a node does to the directories above it.

  /** A copy is opened somewhere in the node. */
  predicate Attempted(c: Config, path: Path, node: Node)
    decreases node
  {
    match node
    case FileNode(_, _) => Copies(c, path)
    case DirNode(children, _) => AttemptedIn(c, path, children)
    case _ => false
  }

  predicate AttemptedIn(c: Config, path: Path, children: seq<Child>)
    decreases children
  {
    children != [] &&
    (var k := |children| - 1;
     AttemptedIn(c, path, children[..k]) || Attempted(c, path + [children[k].name], children[k].node))
  }

  /** The node is in the Working Copy once it was scanned. */
  predicate Kept(c: Config, path: Path, node: Node)
    decreases node
  {
    match node
    case FileNode(_, read) => Copies(c, path) && read.Stable?
    case DirNode(children, check) => check.Unchanged? && Holds(c, path, children)
    case _ => false
  }

  predicate SomeKept(c: Config, path: Path, children: seq<Child>)
    decreases children
  {
    children != [] &&
    (var k := |children| - 1;
     SomeKept(c, path, children[..k]) || Kept(c, path + [children[k].name], children[k].node))
  }

  /** The node was in the Working Copy before it was discarded, if it was. Its parents are then left. */
  predicate Stood(c: Config, path: Path, node: Node)
    decreases node
  {
    match node
    case FileNode(_, read) => Copies(c, path) && read.Stable?
    case DirNode(children, _) => Holds(c, path, children)
    case _ => false
  }

  /** A directory stands after its children: the last child that was copied at all stood, or failed
      beside one that is kept. */
  predicate Holds(c: Config, path: Path, children: seq<Child>)
    decreases children
  {
    children != [] &&
    (var k := |children| - 1;
     var q, node := path + [children[k].name], children[k].node;
     if Attempted(c, q, node) then Stood(c, q, node) || SomeKept(c, path, children[..k])
     else Holds(c, path, children[..k]))
  }

  /** The directories of a node that are left. */
  function Left(c: Config, path: Path, node: Node): set<Path>
    decreases node
  {
    if node.DirNode? && node.check.Unchanged? && Holds(c, path, node.children)
    then {path} + LeftIn(c, path, node.children)
    else {}
  }

  function LeftIn(c: Config, path: Path, children: seq<Child>): set<Path>
    decreases children
  {
    if children == [] then {}
    else
      var k := |children| - 1;
      LeftIn(c, path, children[..k]) + Left(c, path + [children[k].name], children[k].node)
  }

  lemma {:induction false} StoodWasAttempted(c: Config, path: Path, node: Node)
    ensures Stood(c, path, node) ==> Attempted(c, path, node)
    decreases node, if node.DirNode? then |node.children| + 1 else 0
  {
    if node.DirNode? {
      HoldsWasAttempted(c, path, node.children, node);
    }
  }

  lemma {:induction false} HoldsWasAttempted(c: Config, path: Path, children: seq<Child>, parent: Node)
    requires forall k :: k in children ==> k.node < parent
    ensures Holds(c, path, children) ==> AttemptedIn(c, path, children)
    decreases parent, |children|
  {
    if children != [] {
      HoldsWasAttempted(c, path, children[..|children| - 1], parent);
    }
  }

  lemma KeptStood(c: Config, path: Path, node: Node)
    ensures Kept(c, path, node) ==> Stood(c, path, node) && Attempted(c, path, node)
  {
    hide Holds;
    StoodWasAttempted(c, path, node);
  }

  lemma {:induction false} KeptHolds(c: Config, path: Path, children: seq<Child>)
    ensures SomeKept(c, path, children) ==> Holds(c, path, children)
  {
    if children != [] {
      var k := |children| - 1;
      KeptHolds(c, path, children[..k]);
      KeptStood(c, path + [children[k].name], children[k].node);
    }
  }

  /** Nothing kept, nothing left: neither copies nor directories. */
  lemma {:induction false} NothingLeft(c: Config, path: Path, node: Node)
    requires Observe(c, path, node).Some? && !Kept(c, path, node)
    ensures Left(c, path, node) == {} && CopiedPaths(Observe(c, path, node).value) == {}
    decreases node, if node.DirNode? then |node.children| + 1 else 0
  {
    if node.DirNode? && node.check.Unchanged? {
      var d := [ValueEntry(c, path, Dir, None, c.digestOf("dir"))];
      KeptHolds(c, path, node.children);
      NothingLeftIn(c, path, node.children);
      NoCopies(c, path);
      CopiedOfConcat(d, ObserveChildren(c, path, node.children).value);
    }
  }

  lemma {:induction false} NothingLeftIn(c: Config, path: Path, children: seq<Child>)
    requires ObserveChildren(c, path, children).Some? && !SomeKept(c, path, children)
    ensures LeftIn(c, path, children) == {} && CopiedPaths(ObserveChildren(c, path, children).value) == {}
    decreases children, |children|
  {
    if children != [] {
      var k := |children| - 1;
      NothingLeftIn(c, path, children[..k]);
      NothingLeft(c, path + [children[k].name], children[k].node);
      CopiedOfConcat(ObserveChildren(c, path, children[..k]).value,
                     Observe(c, path + [children[k].name], children[k].node).value);
    }
  }

  lemma {:induction false} LeftIsUnder(c: Config, path: Path, node: Node)
    ensures forall d :: d in Left(c, path, node) ==> Under(path, d)
    decreases node, if node.DirNode? then |node.children| + 1 else 0
  {
    if node.DirNode? {
      LeftInIsUnder(c, path, node.children, node);
    }
  }

  lemma {:induction false} LeftInIsUnder(c: Config, path: Path, children: seq<Child>, parent: Node)
    requires forall k :: k in children ==> k.node < parent
    ensures forall d :: d in LeftIn(c, path, children) ==> Below(path, d)
    ensures forall d :: d in LeftIn(c, path, children) ==> exists k :: k in children && Under(path + [k.name], d)
    decreases parent, |children|
  {
    if children != [] {
      var n := |children| - 1;
      var last := children[n];
      LeftInIsUnder(c, path, children[..n], parent);
      LeftIsUnder(c, path + [last.name], last.node);
      forall d | d in LeftIn(c, path, children)
        ensures Below(path, d) && exists k :: k in children && Under(path + [k.name], d)
      {
        if d in LeftIn(c, path, children[..n]) {
          var k :| k in children[..n] && Under(path + [k.name], d);
          assert k in children;
        } else {
          assert last in children;
          PrefixIsUnder(path, last.name, d);
        }
      }
    }
  }

  // The effect of a scan on the Working Copy.

  /** Nothing stands at or below the path. */
  predicate Clear(w: Copy, path: Path) {
    (forall p :: p in w.files ==> !Under(path, p)) && (forall d :: d in w.dirs ==> !Under(path, d))
  }

  function Raised(w: Copy, path: Path): Copy {
    w.(dirs := w.dirs + Ancestors(path))
  }

  /** The parents of a path made, and those that are empty removed again. */
  function Climbed(w: Copy, path: Path): Copy
    requires path != []
  {
    Walk(Raised(w, path), Parent(path))
  }

  /** With what stays below it, or with its parents alone, or without either. */
  function Effect(w: Copy, path: Path, attempted: bool, stood: bool, files: set<Path>, dirs: set<Path>): Copy
    requires path != []
  {
    if stood then Copy(w.files + files, w.dirs + Ancestors(path) + dirs)
    else if attempted then Climbed(w, path)
    else w
  }

  lemma AncestorsOfChild(path: Path, name: string)
    ensures path != [] ==> Ancestors(path + [name]) == Ancestors(path) + {path}
    ensures Ancestors([name]) == {}
  {
    var q := path + [name];
    if path != [] {
      assert q[..|path|] == path;
      assert forall k :: 1 <= k <= |path| ==> q[..k] == path[..k];
      forall p ensures p in Ancestors(q) <==> p in Ancestors(path) + {path} {
        if p in Ancestors(path) {
          var k :| 1 <= k < |path| && p == path[..k];
          assert p == q[..k];
        }
        if p == path {
          assert p == q[..|path|];
        }
      }
    }
  }

  /** A walk takes away nothing but the directory it starts from and those above it. */
  lemma {:induction false} WalkStays(w: Copy, d: Path)
    ensures Walk(w, d).files == w.files && Walk(w, d).dirs <= w.dirs <= Walk(w, d).dirs + Ancestors(d) + {d}
    decreases |d|
  {
    if d != [] && d in w.dirs && Empty(w, d) {
      var v := w.(dirs := w.dirs - {d});
      WalkOn(w, d);
      assert Parent(d) + [d[|d| - 1]] == d;
      AncestorsOfChild(Parent(d), d[|d| - 1]);
      if Parent(d) == [] {
        RootWalk(v);
      } else {
        WalkStays(v, Parent(d));
        assert Ancestors(d) == Ancestors(Parent(d)) + {Parent(d)};
      }
      assert w.dirs <= v.dirs + {d};
    }
  }

  lemma ClimbedStays(w: Copy, path: Path)
    requires path != []
    ensures var u := Climbed(w, path); u.files == w.files && u.dirs <= w.dirs + Ancestors(path) == u.dirs + Ancestors(path)
  {
    hide Walk;
    WalkStays(Raised(w, path), Parent(path));
    if Parent(path) != [] {
      AncestorsOfChild(Parent(path), path[|path| - 1]);
      assert Parent(path) + [path[|path| - 1]] == path;
    } else {
      var u := Climbed(w, path);
      RootWalk(Raised(w, path));
    }
  }

  lemma RootWalk(w: Copy)
    ensures Walk(w, []) == w
  {
  }

  /** No ancestor of a path lies at or below it. */
  lemma AncestorsAreAbove(path: Path)
    ensures forall d :: d in Ancestors(path) ==> !Under(path, d)
  {
  }

  /** The last directory of a failed copy holds nothing: the walk goes on above it. */
  lemma ClimbThrough(w: Copy, s: Copy, path: Path, q: Path)
    requires path != [] && q != [] && Parent(q) == path && Clear(w, path)
    requires s.files == w.files && Raised(s, q).dirs == w.dirs + Ancestors(path) + {path}
    ensures Climbed(s, q) == Climbed(w, path)
  {
    hide Walk;
    AncestorsAreAbove(path);
    var u := Raised(s, q);
    assert Empty(u, path);
    assert path !in w.dirs by { assert Under(path, path); }
    assert path !in Ancestors(path);
    assert u.(dirs := u.dirs - {path}) == Raised(w, path);
    WalkOn(u, path);
  }

  lemma WalkOn(w: Copy, d: Path)
    requires d != [] && d in w.dirs && Empty(w, d)
    ensures Walk(w, d) == Walk(w.(dirs := w.dirs - {d}), Parent(d))
  {
  }

  lemma ClimbStops(s: Copy, path: Path, q: Path)
    requires path != [] && q != [] && Parent(q) == path && Ancestors(q) <= s.dirs && !Empty(s, path)
    ensures Climbed(s, q) == s
  {
    assert Raised(s, q) == s;
  }

  /** The children of a directory that is none of the roots: what they have stand, or failed to. */
  function EffectIn(w: Copy, path: Path, attempted: bool, holds: bool, files: set<Path>, dirs: set<Path>): Copy
    requires path != []
  {
    if holds then Copy(w.files + files, w.dirs + Ancestors(path) + {path} + dirs)
    else if attempted then Climbed(w, path)
    else w
  }

  /** One more child, by its effect and by what its siblings left. */
  lemma NextEffect(w: Copy, path: Path, name: string, attempted: bool, holds: bool, someKept: bool, files: set<Path>, dirs: set<Path>,
                   tried: bool, stood: bool, kept: bool, newFiles: set<Path>, newDirs: set<Path>)
    requires path != [] && Clear(w, path)
    requires (someKept ==> holds) && (holds ==> attempted) && (stood ==> tried) && (kept ==> stood)
    requires (forall p :: p in files ==> Below(path, p)) && (forall d :: d in dirs ==> Below(path, d))
    requires someKept <==> files + dirs != {}
    requires kept <==> newFiles + newDirs != {}
    ensures var q, s := path + [name], EffectIn(w, path, attempted, holds, files, dirs);
      Effect(s, q, tried, stood, newFiles, newDirs)
        == EffectIn(w, path, attempted || tried, if tried then stood || someKept else holds, files + newFiles, dirs + newDirs)
  {
    hide Walk, Climbed, Ancestors, Under;
    var q, s := path + [name], EffectIn(w, path, attempted, holds, files, dirs);
    assert Parent(q) == path;
    AncestorsOfChild(path, name);
    ClimbedStays(w, path);
    if stood {
    } else if tried && someKept {
      assert !Empty(s, path) by {
        assert s.files + s.dirs >= files + dirs;
      }
      ClimbStops(s, path, q);
    } else if tried {
      ClimbThrough(w, s, path, q);
    }
  }

  lemma KeptLeaves(c: Config, path: Path, node: Node)
    requires Observe(c, path, node).Some?
    ensures Kept(c, path, node) <==> CopiedPaths(Observe(c, path, node).value) + Left(c, path, node) != {}
  {
    hide Holds, LeftIn;
    if Kept(c, path, node) {
      if node.FileNode? {
        var e := Observe(c, path, node).value[0];
        assert path in CopiedPaths(Observe(c, path, node).value);
      } else {
        assert path in Left(c, path, node);
      }
    } else {
      NothingLeft(c, path, node);
    }
  }

  lemma {:induction false} KeptLeavesIn(c: Config, path: Path, children: seq<Child>)
    requires ObserveChildren(c, path, children).Some?
    ensures SomeKept(c, path, children)
      <==> CopiedPaths(ObserveChildren(c, path, children).value) + LeftIn(c, path, children) != {}
  {
    hide Observe, Kept, Left;
    if children != [] {
      var k := |children| - 1;
      KeptLeavesIn(c, path, children[..k]);
      KeptLeaves(c, path + [children[k].name], children[k].node);
      CopiedOfConcat(ObserveChildren(c, path, children[..k]).value,
                     Observe(c, path + [children[k].name], children[k].node).value);
    } else {
      NoneCopied();
    }
  }

  /** What a scan leaves where a node was: its copies and directories, and its parents if they stood. */
  lemma {:induction false} NodeEffect(c: Config, path: Path, node: Node, w: Copy)
    requires path != [] && Proper(node) && Observe(c, path, node).Some? && Clear(w, path)
    ensures CopyAfter(c, path, node, w)
      == Effect(w, path, Attempted(c, path, node), Stood(c, path, node), CopiedPaths(Observe(c, path, node).value),
                Left(c, path, node))
    decreases node, if node.DirNode? then |node.children| + 1 else 0
  {
    hide Walk, Ancestors, Under, Holds, AttemptedIn;
    match node
    case FileNode(createFails, read) => FileEffect(c, path, createFails, read, w);
    case DirNode(children, check) =>
      ChildrenEffect(c, path, children, w, node);
      DirectoryEffect(c, path, node, w);
    case UnlistableDir(_, _) =>
      NoCopies(c, path);
      ClearStays(w, path);
    case _ => NotCopied(c, path, node);
  }

  lemma NotCopied(c: Config, path: Path, node: Node)
    requires !node.FileNode? && !node.DirNode? && Observe(c, path, node).Some?
    ensures CopiedPaths(Observe(c, path, node).value) == {}
  {
  }

  lemma ClearStays(w: Copy, path: Path)
    requires Clear(w, path)
    ensures Discarded(w, path) == w
  {
  }

  lemma FileEffect(c: Config, path: Path, createFails: bool, read: FileRead, w: Copy)
    requires path != [] && ObserveFile(c, path, createFails, read).Some? && Clear(w, path)
    ensures CopyAfter(c, path, FileNode(createFails, read), w)
      == Effect(w, path, Copies(c, path), Copies(c, path) && read.Stable?,
                CopiedPaths(ObserveFile(c, path, createFails, read).value), {})
  {
    hide Walk, Ancestors;
    var es := ObserveFile(c, path, createFails, read).value;
    assert CopiedPaths(es) == if Copies(c, path) && read.Stable? then {path} else {} by {
      assert es[0].path == path;
    }
    assert Under(path, path);
    assert Created(w, path).files - {path} == w.files;
  }

  lemma DirectoryEffect(c: Config, path: Path, node: Node, w: Copy)
    requires path != [] && node.DirNode? && Proper(node) && Observe(c, path, node).Some? && Clear(w, path)
    requires CopyAfterChildren(c, path, node.children, w)
      == EffectIn(w, path, AttemptedIn(c, path, node.children), Holds(c, path, node.children),
                  CopiedPaths(ObserveChildren(c, path, node.children).value), LeftIn(c, path, node.children))
    ensures CopyAfter(c, path, node, w)
      == Effect(w, path, Attempted(c, path, node), Stood(c, path, node), CopiedPaths(Observe(c, path, node).value),
                Left(c, path, node))
  {
    hide Walk, Ancestors, Under, Holds, AttemptedIn, LeftIn, ObserveChildren, CopyAfterChildren, CopiedPaths;
    var inner := ObserveChildren(c, path, node.children).value;
    NoCopies(c, path);
    CopiedOfConcat([ValueEntry(c, path, Dir, None, c.digestOf("dir"))], inner);
    KeptHolds(c, path, node.children);
    if !Holds(c, path, node.children) {
      NothingLeftIn(c, path, node.children);
    }
    if !node.check.Unchanged? {
      ChildCopiesUnder(c, path, node);
      LeftInIsUnder(c, path, node.children, node);
      AncestorsAreAbove(path);
      ClimbedStays(w, path);
      SelfUnder(path);
    }
  }

  lemma SelfUnder(path: Path)
    ensures Under(path, path)
  {
  }

  /** What earlier siblings leave does not stand in the way of the next child. */
  lemma SiblingsClear(w: Copy, path: Path, name: string, attempted: bool, holds: bool, files: set<Path>, dirs: set<Path>,
                      names: set<string>)
    requires path != [] && Clear(w, path) && name !in names
    requires forall p :: p in files + dirs ==> exists n :: n in names && Under(path + [n], p)
    ensures Clear(EffectIn(w, path, attempted, holds, files, dirs), path + [name])
  {
    hide Under, Walk, Climbed, Ancestors;
    ClimbedStays(w, path);
    var s, q := EffectIn(w, path, attempted, holds, files, dirs), path + [name];
    assert s.files + s.dirs <= w.files + w.dirs + Ancestors(path) + {path} + files + dirs;
    forall p | p in s.files + s.dirs ensures !Under(q, p) {
      PrefixIsUnder(path, name, p);
      AncestorsAreAbove(path);
      ShorterIsNotUnder(path, name);
      if p in files + dirs {
        var n :| n in names && Under(path + [n], p);
        SiblingExcludes(path, n, name, p);
      }
    }
  }

  lemma ShorterIsNotUnder(path: Path, name: string)
    ensures !Under(path + [name], path)
  {
  }

  lemma ChildIsClear(c: Config, path: Path, children: seq<Child>, w: Copy, parent: Node)
    requires path != [] && children != [] && Clear(w, path)
    requires DistinctNames(children) && (forall k :: k in children ==> Proper(k.node) && k.node < parent)
    requires ObserveChildren(c, path, children).Some?
    ensures var n := |children| - 1; var before := children[..n];
      Clear(EffectIn(w, path, AttemptedIn(c, path, before), Holds(c, path, before),
                     CopiedPaths(ObserveChildren(c, path, before).value), LeftIn(c, path, before)),
            path + [children[n].name])
  {
    hide Under, AttemptedIn, Holds, LeftIn, EffectIn, Clear, Observe, SoundScan, Proper;
    var n := |children| - 1;
    var before := children[..n];
    var es := ObserveChildren(c, path, before).value;
    ChildrenAreSound(c, path, before, parent);
    LeftInIsUnder(c, path, before, parent);
    var names := set k | k in before :: k.name;
    forall p | p in CopiedPaths(es) + LeftIn(c, path, before) ensures exists n :: n in names && Under(path + [n], p) {
      if p in CopiedPaths(es) {
        var e :| e in es && e.path == p;
      }
      var k :| k in before && Under(path + [k.name], p);
      assert k.name in names;
    }
    SiblingsClear(w, path, children[n].name, AttemptedIn(c, path, before), Holds(c, path, before), CopiedPaths(es),
                  LeftIn(c, path, before), names);
  }

  lemma ChildStep(c: Config, path: Path, children: seq<Child>, w: Copy, parent: Node)
    requires path != [] && children != [] && Clear(w, path)
    requires DistinctNames(children) && (forall k :: k in children ==> Proper(k.node) && k.node < parent)
    requires ObserveChildren(c, path, children).Some?
    ensures var n := |children| - 1; var before, last := children[..n], children[n];
      var q := path + [last.name];
      Effect(EffectIn(w, path, AttemptedIn(c, path, before), Holds(c, path, before),
                      CopiedPaths(ObserveChildren(c, path, before).value), LeftIn(c, path, before)),
             q, Attempted(c, q, last.node), Stood(c, q, last.node), CopiedPaths(Observe(c, q, last.node).value),
             Left(c, q, last.node))
        == EffectIn(w, path, AttemptedIn(c, path, children), Holds(c, path, children),
                    CopiedPaths(ObserveChildren(c, path, children).value), LeftIn(c, path, children))
  {
    hide Walk, Ancestors, Under, CopiedPaths, Observe, Left, Kept, Stood, Attempted, Effect, EffectIn, Clear, SoundScan;
    var n := |children| - 1;
    var before, last := children[..n], children[n];
    var q := path + [last.name];
    var es, more := ObserveChildren(c, path, before).value, Observe(c, q, last.node).value;
    CopiedOfConcat(es, more);
    KeptHolds(c, path, before);
    HoldsWasAttempted(c, path, before, parent);
    StoodWasAttempted(c, q, last.node);
    KeptStood(c, q, last.node);
    KeptLeavesIn(c, path, before);
    KeptLeaves(c, q, last.node);
    CopiesAreBelow(c, path, before, parent);
    LeftInIsUnder(c, path, before, parent);
    NextEffect(w, path, last.name, AttemptedIn(c, path, before), Holds(c, path, before), SomeKept(c, path, before),
               CopiedPaths(es), LeftIn(c, path, before), Attempted(c, q, last.node), Stood(c, q, last.node),
               Kept(c, q, last.node), CopiedPaths(more), Left(c, q, last.node));
  }

  lemma CopiesAreBelow(c: Config, path: Path, children: seq<Child>, parent: Node)
    requires DistinctNames(children) && (forall k :: k in children ==> Proper(k.node) && k.node < parent)
    requires ObserveChildren(c, path, children).Some?
    ensures forall p :: p in CopiedPaths(ObserveChildren(c, path, children).value) ==> Below(path, p)
  {
    hide Observe, ObserveChildren, Proper;
    ChildrenAreSound(c, path, children, parent);
  }

  lemma {:induction false} ChildrenEffect(c: Config, path: Path, children: seq<Child>, w: Copy, parent: Node)
    requires path != [] && DistinctNames(children) && (forall k :: k in children ==> Proper(k.node) && k.node < parent)
    requires ObserveChildren(c, path, children).Some? && Clear(w, path)
    ensures CopyAfterChildren(c, path, children, w)
      == EffectIn(w, path, AttemptedIn(c, path, children), Holds(c, path, children),
                  CopiedPaths(ObserveChildren(c, path, children).value), LeftIn(c, path, children))
    decreases parent, |children|
  {
    hide Walk, Ancestors, Under, CopiedPaths, Observe, CopyAfter, Left, Kept, Stood, Attempted, Effect, Clear;
    if children == [] {
      NoneCopied();
    } else {
      var n := |children| - 1;
      var before, last := children[..n], children[n];
      var q := path + [last.name];
      ChildrenEffect(c, path, before, w, parent);
      ChildIsClear(c, path, children, w, parent);
      NodeEffect(c, q, last.node, CopyAfterChildren(c, path, before, w));
      ChildStep(c, path, children, w, parent);
    }
  }

  /** A whole scan leaves the copied files and exactly the directories that hold. */
  lemma {:induction false} ScanLeaves(c: Config, children: seq<Child>)
    requires ProperRoot(children) && ObserveChildren(c, [], children).Some?
    ensures CopyOf(c, children) == Copy(CopiedPaths(ObserveChildren(c, [], children).value), LeftIn(c, [], children))
    decreases |children|
  {
    hide Observe, CopyAfter, Left, Kept, Stood, Attempted, CopiedPaths, Walk, Ancestors;
    if children == [] {
      NoneCopied();
    } else {
      var n := |children| - 1;
      var before, last := children[..n], children[n];
      var w, es := CopyOf(c, before), ObserveChildren(c, [], before).value;
      ScanLeaves(c, before);
      TopIsClear(c, children);
      assert [] + [last.name] == [last.name];
      NodeEffect(c, [last.name], last.node, w);
      AncestorsOfChild([], last.name);
      assert Raised(w, [last.name]) == w;
      RootWalk(w);
      if !Stood(c, [last.name], last.node) {
        KeptStood(c, [last.name], last.node);
        NothingLeft(c, [last.name], last.node);
      }
      CopiedOfConcat(es, Observe(c, [last.name], last.node).value);
    }
  }

  lemma TopIsClear(c: Config, children: seq<Child>)
    requires ProperRoot(children) && children != [] && ObserveChildren(c, [], children).Some?
    ensures var n := |children| - 1; var before := children[..n];
      Clear(Copy(CopiedPaths(ObserveChildren(c, [], before).value), LeftIn(c, [], before)), [children[n].name])
  {
    hide Under, LeftIn, Observe, SoundScan;
    var n := |children| - 1;
    var before, name := children[..n], children[n].name;
    var es := ObserveChildren(c, [], before).value;
    ChildrenAreSound(c, [], before, DirNode(children, Unchanged));
    LeftInIsUnder(c, [], before, DirNode(children, Unchanged));
    assert [] + [name] == [name];
    forall p | p in CopiedPaths(es) + LeftIn(c, [], before) ensures !Under([name], p) {
      if p in CopiedPaths(es) {
        var e :| e in es && e.path == p;
      }
      var k :| k in before && Under([] + [k.name], p);
      SiblingExcludes([], k.name, name, p);
    }
  }

  // The directories left, by the paths that lead to them.

  /** The path leads through stable directories to one that holds. */
  predicate StandsAt(c: Config, path: Path, node: Node, a: Path) {
    && Under(path, a)
    && var found := Reach(node, a[|path|..]);
    found.Some? && found.value.DirNode? && found.value.check.Unchanged? && Holds(c, a, found.value.children)
  }

  predicate StandsBelow(c: Config, path: Path, children: seq<Child>, a: Path) {
    && Below(path, a)
    && var child := ChildNamed(children, a[|path|]);
    child.Some? && StandsAt(c, path + [a[|path|]], child.value, a)
  }

  lemma StandsHere(c: Config, path: Path, node: Node, a: Path)
    ensures StandsAt(c, path, node, a) <==>
      && node.DirNode? && node.check.Unchanged?
      && ((a == path && Holds(c, path, node.children)) || StandsBelow(c, path, node.children, a))
  {
    hide Holds;
    if Under(path, a) {
      var rest := a[|path|..];
      assert a == path + rest;
      if rest != [] {
        assert rest[0] == a[|path|] && rest[1..] == a[|path| + 1..];
        assert a[..|path| + 1] == path + [a[|path|]];
      }
    }
  }

  lemma {:induction false} LeftStands(c: Config, path: Path, node: Node, a: Path)
    requires Proper(node)
    ensures a in Left(c, path, node) <==> StandsAt(c, path, node, a)
    decreases node, if node.DirNode? then |node.children| + 1 else 0
  {
    hide StandsAt, StandsBelow, Holds, SomeKept;
    StandsHere(c, path, node, a);
    if node.DirNode? {
      LeftStandsIn(c, path, node.children, node, a);
      KeptHolds(c, path, node.children);
    }
  }

  lemma {:induction false} LeftStandsIn(c: Config, path: Path, children: seq<Child>, parent: Node, a: Path)
    requires DistinctNames(children) && (forall k :: k in children ==> Proper(k.node) && k.node < parent)
    ensures a in LeftIn(c, path, children) <==> StandsBelow(c, path, children, a)
    ensures a in LeftIn(c, path, children) ==> SomeKept(c, path, children)
    decreases parent, |children|
  {
    hide StandsAt, StandsBelow, Holds;
    if children == [] {
      NothingStands(c, path, a);
    } else {
      var n := |children| - 1;
      var last := children[n];
      LeftStandsIn(c, path, children[..n], parent, a);
      LeftStands(c, path + [last.name], last.node, a);
      NotNamedBefore(children[..n], last.name);
      LastStands(c, path, children, a);
    }
  }

  lemma NothingStands(c: Config, path: Path, a: Path)
    ensures !StandsBelow(c, path, [], a)
  {
  }

  lemma LastStands(c: Config, path: Path, children: seq<Child>, a: Path)
    requires children != [] && ChildNamed(children[..|children| - 1], children[|children| - 1].name).None?
    ensures var n := |children| - 1; var last := children[n];
      StandsBelow(c, path, children, a) <==>
        StandsBelow(c, path, children[..n], a) || StandsAt(c, path + [last.name], last.node, a)
  {
    hide Reach, Holds;
    var n := |children| - 1;
    var last := children[n];
    if Under(path + [last.name], a) {
      assert a[..|path| + 1][|path|] == last.name;
      assert a[..|path| + 1][..|path|] == a[..|path|];
      assert (path + [last.name])[..|path|] == path;
    }
  }

  /** Whether the directory at `a` holds, in the scan of a Source. */
  predicate Stands(c: Config, children: seq<Child>, a: Path) {
    && a != []
    && var found := Reach(DirNode(children, Unchanged), a);
    found.Some? && found.value.DirNode? && found.value.check.Unchanged? && Holds(c, a, found.value.children)
  }

  /** A directory is left exactly when stable directories lead to it and it holds. */
  lemma DirectoriesLeft(c: Config, children: seq<Child>, a: Path)
    requires ProperRoot(children) && ObserveChildren(c, [], children).Some?
    ensures a in CopyOf(c, children).dirs <==> Stands(c, children, a)
  {
    hide Holds, LeftIn, CopyOf, Observe;
    ScanLeaves(c, children);
    LeftStandsIn(c, [], children, DirNode(children, Unchanged), a);
    if a != [] {
      assert [] + [a[0]] == [a[0]] == a[..1] && a[0..] == a;
    }
  }

  // The directories that verification allows: those above a copied file.

  lemma {:induction false} CopiesStand(c: Config, path: Path, node: Node, p: Path)
    requires Proper(node) && Observe(c, path, node).Some? && p in CopiedPaths(Observe(c, path, node).value)
    ensures Kept(c, path, node) && Under(path, p)
    ensures forall k :: |path| <= k < |p| ==> p[..k] in Left(c, path, node)
    decreases node, if node.DirNode? then |node.children| + 1 else 0
  {
    hide Holds, SomeKept, Under;
    ObserveIsSound(c, path, node);
    KeptLeaves(c, path, node);
    if node.DirNode? {
      var d := [ValueEntry(c, path, Dir, None, c.digestOf("dir"))];
      NoCopies(c, path);
      CopiedOfConcat(d, ObserveChildren(c, path, node.children).value);
      CopiesStandIn(c, path, node.children, node, p);
      UnderIsPrefix(path, p);
    }
  }

  lemma UnderIsPrefix(path: Path, p: Path)
    ensures Under(path, p) ==> |path| <= |p| && p[..|path|] == path
  {
  }

  lemma {:induction false} CopiesStandIn(c: Config, path: Path, children: seq<Child>, parent: Node, p: Path)
    requires DistinctNames(children) && (forall k :: k in children ==> Proper(k.node) && k.node < parent)
    requires ObserveChildren(c, path, children).Some? && p in CopiedPaths(ObserveChildren(c, path, children).value)
    ensures forall k :: |path| < k < |p| ==> p[..k] in LeftIn(c, path, children)
    decreases parent, |children|
  {
    hide Left, CopiedPaths, Observe, Under;
    if children == [] {
      NoneCopied();
    } else {
      var n := |children| - 1;
      var last := children[n];
      var es, more := ObserveChildren(c, path, children[..n]).value, Observe(c, path + [last.name], last.node).value;
      CopiedOfConcat(es, more);
      if p in CopiedPaths(es) {
        CopiesStandIn(c, path, children[..n], parent, p);
      } else {
        CopiesStand(c, path + [last.name], last.node, p);
      }
    }
  }

  /** Every directory above a copied file is there. */
  lemma ParentsAreLeft(c: Config, children: seq<Child>)
    requires ProperRoot(children) && ObserveChildren(c, [], children).Some?
    ensures AncestorsOf(CopiedPaths(ObserveChildren(c, [], children).value)) <= CopyOf(c, children).dirs
  {
    hide CopyOf, LeftIn, CopiedPaths, Observe;
    ScanLeaves(c, children);
    var copied := CopiedPaths(ObserveChildren(c, [], children).value);
    forall d | d in AncestorsOf(copied) ensures d in LeftIn(c, [], children) {
      var p, k :| p in copied && 1 <= k < |p| && d == p[..k];
      CopiesStandIn(c, [], children, DirNode(children, Unchanged), p);
    }
  }

  ghost predicate CopiedBelow(c: Config, children: seq<Child>, a: Path)
    requires ObserveChildren(c, [], children).Some?
  {
    exists p :: p in CopiedPaths(ObserveChildren(c, [], children).value) && Below(a, p)
  }

  /** The Working Copy holds the files of the Manifest's copied entries, and no directory that verification
      would refuse. */
  predicate NothingUnexpected(w: Copy, es: seq<Entry>) {
    w.files == CopiedPaths(es) && w.dirs == AncestorsOf(CopiedPaths(es))
  }

  lemma AboveACopy(files: set<Path>, a: Path)
    requires a != []
    ensures a in AncestorsOf(files) <==> exists p :: p in files && Below(a, p)
  {
    if p :| p in files && Below(a, p) {
      assert a == p[..|a|];
    }
  }

  /** A finished scan passes that check exactly when every directory that holds has a copied file below. */
  lemma ExpectedExactly(c: Config, children: seq<Child>)
    requires ProperRoot(children) && ObserveChildren(c, [], children).Some?
    ensures NothingUnexpected(CopyOf(c, children), ObserveChildren(c, [], children).value)
      <==> forall a :: Stands(c, children, a) ==> CopiedBelow(c, children, a)
  {
    hide CopyOf, CopiedPaths, ObserveChildren, Below, AncestorsOf, LeftIn;
    var w, copied := CopyOf(c, children), CopiedPaths(ObserveChildren(c, [], children).value);
    ScanLeaves(c, children);
    ParentsAreLeft(c, children);
    forall a ensures a in w.dirs <==> Stands(c, children, a) {
      DirectoriesLeft(c, children, a);
    }
    forall a | a != [] ensures a in AncestorsOf(copied) <==> CopiedBelow(c, children, a) {
      AboveACopy(copied, a);
    }
    if forall a :: Stands(c, children, a) ==> CopiedBelow(c, children, a) {
      assert w.dirs <= AncestorsOf(copied);
    }
  }

  /** So an ingest that succeeds is one its own verification refuses exactly when some directory that holds
      has no copied file below. */
  lemma RefusedExactly(c: Config, policy: Policy, root: Root)
    requires root.ListedRoot? && ProperRoot(root.children) && ScanOf(c, policy, root).Ok?
    ensures ObserveChildren(c, [], root.children).Some?
    ensures !NothingUnexpected(CopyOf(c, root.children), ScanOf(c, policy, root).value.entries)
      <==> exists a :: Stands(c, root.children, a) && !CopiedBelow(c, root.children, a)
  {
    hide CopyOf, CopiedPaths, ObserveChildren, WithExpected, ExpectedPaths, Orders.Sort, ProfileList, Stands, CopiedBelow;
    var observed := ObserveChildren(c, [], root.children).value;
    var expected := ExpectedPaths(c, policy, ProfileList(c, root.children));
    PlaceholdersAreNotCopied(c, observed, expected);
    SortKeepsCopies(c, WithExpected(c, observed, expected));
    ExpectedExactly(c, root.children);
  }

  /** No directory in the node was discarded. */
  predicate Undisturbed(node: Node) {
    node.DirNode? ==> node.check.Unchanged? && forall k :: k in node.children ==> Undisturbed(k.node)
  }

  /** No directory was discarded inside another: below a top-level directory that was kept, none was. */
  predicate NoNestedDiscard(children: seq<Child>) {
    forall k :: k in children && k.node.DirNode? && k.node.check.Unchanged? ==> Undisturbed(k.node)
  }

  lemma {:induction false} UndisturbedStands(c: Config, path: Path, node: Node)
    requires Undisturbed(node) && Observe(c, path, node).Some?
    ensures Stood(c, path, node) <==> CopiedPaths(Observe(c, path, node).value) != {}
    ensures Stood(c, path, node) <==> Kept(c, path, node)
    decreases node, if node.DirNode? then |node.children| + 1 else 0
  {
    KeptLeaves(c, path, node);
    if node.DirNode? {
      var d := [ValueEntry(c, path, Dir, None, c.digestOf("dir"))];
      UndisturbedHolds(c, path, node.children, node);
      NoCopies(c, path);
      CopiedOfConcat(d, ObserveChildren(c, path, node.children).value);
    } else if node.FileNode? {
      FileCopies(c, path, node.createFails, node.read);
    }
  }

  lemma FileCopies(c: Config, path: Path, createFails: bool, read: FileRead)
    requires ObserveFile(c, path, createFails, read).Some?
    ensures Copies(c, path) && read.Stable? ==> path in CopiedPaths(ObserveFile(c, path, createFails, read).value)
  {
    var e := ObserveFile(c, path, createFails, read).value[0];
    assert e.path == path;
  }

  lemma {:induction false} UndisturbedHolds(c: Config, path: Path, children: seq<Child>, parent: Node)
    requires forall k :: k in children ==> Undisturbed(k.node) && k.node < parent
    requires ObserveChildren(c, path, children).Some?
    ensures Holds(c, path, children) <==> CopiedPaths(ObserveChildren(c, path, children).value) != {}
    ensures Holds(c, path, children) <==> SomeKept(c, path, children)
    decreases parent, |children|
  {
    hide Stood, Kept, Attempted, CopiedPaths, Observe;
    if children == [] {
      NoneCopied();
    } else {
      var n := |children| - 1;
      var q, last := path + [children[n].name], children[n];
      UndisturbedHolds(c, path, children[..n], parent);
      UndisturbedStands(c, q, last.node);
      StoodWasAttempted(c, q, last.node);
      CopiedOfConcat(ObserveChildren(c, path, children[..n]).value, Observe(c, q, last.node).value);
    }
  }

  lemma {:induction false} UndisturbedLeaves(c: Config, path: Path, node: Node, a: Path)
    requires Proper(node) && Undisturbed(node) && Observe(c, path, node).Some? && a in Left(c, path, node)
    ensures exists p :: p in CopiedPaths(Observe(c, path, node).value) && Below(a, p)
    decreases node, if node.DirNode? then |node.children| + 1 else 0
  {
    hide Holds, LeftIn, CopiedPaths, Below;
    var d := [ValueEntry(c, path, Dir, None, c.digestOf("dir"))];
    var inner := ObserveChildren(c, path, node.children).value;
    NoCopies(c, path);
    CopiedOfConcat(d, inner);
    if a == path {
      UndisturbedHolds(c, path, node.children, node);
      CopiesAreBelow(c, path, node.children, node);
      var p :| p in CopiedPaths(inner);
      assert Below(path, p);
    } else {
      UndisturbedLeavesIn(c, path, node.children, node, a);
    }
  }

  lemma {:induction false} UndisturbedLeavesIn(c: Config, path: Path, children: seq<Child>, parent: Node, a: Path)
    requires forall k :: k in children ==> Proper(k.node) && k.node < parent
    requires forall k :: k in children && Left(c, path + [k.name], k.node) != {} ==> Undisturbed(k.node)
    requires ObserveChildren(c, path, children).Some? && a in LeftIn(c, path, children)
    ensures exists p :: p in CopiedPaths(ObserveChildren(c, path, children).value) && Below(a, p)
    decreases parent, |children|
  {
    hide Left, CopiedPaths, Below, Observe;
    var n := |children| - 1;
    var q, last := path + [children[n].name], children[n];
    CopiedOfConcat(ObserveChildren(c, path, children[..n]).value, Observe(c, q, last.node).value);
    if a in LeftIn(c, path, children[..n]) {
      UndisturbedLeavesIn(c, path, children[..n], parent, a);
    } else {
      UndisturbedLeaves(c, q, last.node, a);
    }
  }

  /** Without a directory discarded inside another, the directories are those above the copied files, whatever
      copies failed. */
  lemma NoNestedDiscardNoLeftover(c: Config, children: seq<Child>)
    requires ProperRoot(children) && ObserveChildren(c, [], children).Some? && NoNestedDiscard(children)
    ensures NothingUnexpected(CopyOf(c, children), ObserveChildren(c, [], children).value)
  {
    hide CopyOf, CopiedPaths, ObserveChildren, Below, AncestorsOf, LeftIn, Undisturbed, Observe;
    var w, copied := CopyOf(c, children), CopiedPaths(ObserveChildren(c, [], children).value);
    ScanLeaves(c, children);
    ParentsAreLeft(c, children);
    LeftInIsUnder(c, [], children, DirNode(children, Unchanged));
    forall a | a in w.dirs ensures a in AncestorsOf(copied) {
      UndisturbedLeavesIn(c, [], children, DirNode(children, Unchanged), a);
      SomeSegment(a);
      AboveACopy(copied, a);
    }
  }

  lemma SomeSegment(a: Path)
    ensures Below([], a) ==> a != []
  {
  }

  // Directories under which no copy failed.

  predicate Unfailed(c: Config, path: Path, node: Node)
    decreases node
  {
    match node
    case FileNode(_, read) => Copies(c, path) ==> read.Stable?
    case DirNode(children, _) => UnfailedIn(c, path, children)
    case _ => true
  }

  predicate UnfailedIn(c: Config, path: Path, children: seq<Child>)
    decreases children
  {
    children == [] ||
    (var k := |children| - 1;
     UnfailedIn(c, path, children[..k]) && Unfailed(c, path + [children[k].name], children[k].node))
  }

  lemma {:induction false} UnfailedStands(c: Config, path: Path, node: Node)
    requires Unfailed(c, path, node)
    ensures Stood(c, path, node) <==> Attempted(c, path, node)
    decreases node, if node.DirNode? then |node.children| + 1 else 0
  {
    if node.DirNode? {
      UnfailedHolds(c, path, node.children, node);
    }
  }

  lemma {:induction false} UnfailedHolds(c: Config, path: Path, children: seq<Child>, parent: Node)
    requires UnfailedIn(c, path, children) && forall k :: k in children ==> k.node < parent
    ensures Holds(c, path, children) <==> AttemptedIn(c, path, children)
    decreases parent, |children|
  {
    hide Stood, Attempted, Unfailed;
    if children != [] {
      var n := |children| - 1;
      UnfailedHolds(c, path, children[..n], parent);
      UnfailedStands(c, path + [children[n].name], children[n].node);
    }
  }

  /** Where no copy failed below a directory that stable directories lead to, it is left exactly when a
      copy was tried below it, so it is refused exactly when all of those were discarded. */
  lemma LeftWithoutFailures(c: Config, children: seq<Child>, a: Path)
    requires ProperRoot(children) && ObserveChildren(c, [], children).Some? && a != []
    requires var found := Reach(DirNode(children, Unchanged), a);
      found.Some? && found.value.DirNode? && found.value.check.Unchanged? && UnfailedIn(c, a, found.value.children)
    ensures var node := Reach(DirNode(children, Unchanged), a).value;
      a in CopyOf(c, children).dirs <==> AttemptedIn(c, a, node.children)
  {
    hide CopyOf, Reach, Observe;
    DirectoriesLeft(c, children, a);
    var node := Reach(DirNode(children, Unchanged), a).value;
    UnfailedHolds(c, a, node.children, node);
  }

  /** A directory discarded inside another, after a file of it was copied, leaves the other behind, and
      verification refuses it. */
  lemma NestedDiscardLeavesParent(c: Config, a: string, b: string, f: string, size: nat, sha256: string)
    requires Copies(c, [a, b, f]) && !HasBackslash(a) && !HasBackslash(b) && !HasBackslash(f)
    ensures var inside := DirNode([Child(f, FileNode(false, Stable(size, sha256)))], Different(false));
      var children := [Child(a, DirNode([Child(b, inside)], Unchanged))];
      && ProperRoot(children) && ObserveChildren(c, [], children).Some?
      && CopyOf(c, children) == Copy({}, {[a]})
      && !NothingUnexpected(CopyOf(c, children), ObserveChildren(c, [], children).value)
  {
    var file := Child(f, FileNode(false, Stable(size, sha256)));
    var inside := Child(b, DirNode([file], Different(false)));
    var children := [Child(a, DirNode([inside], Unchanged))];
    OneChild(c, [a, b], file);
    OneChild(c, [a], inside);
    OneChild(c, [], children[0]);
    assert [a, b] + [f] == [a, b, f] && [a] + [b] == [a, b] && [] + [a] == [a];
    assert Proper(file.node) && Proper(inside.node) && Proper(children[0].node);
    assert Stood(c, [a, b], inside.node) && !Kept(c, [a, b], inside.node);
    assert Left(c, [a], children[0].node) == {[a]};
    ScanLeaves(c, children);
    assert CopiedPaths(ObserveChildren(c, [], children).value) == {};
    assert [a] in CopyOf(c, children).dirs;
  }

  /** A directory of one child. */
  lemma OneChild(c: Config, path: Path, child: Child)
    ensures var q := path + [child.name];
      && Holds(c, path, [child]) == Stood(c, q, child.node)
      && LeftIn(c, path, [child]) == Left(c, q, child.node)
      && ObserveChildren(c, path, [child]) == if HasBackslash(child.name) then None else Observe(c, q, child.node)
  {
    hide Observe;
    assert [child][..0] == [];
    StoodWasAttempted(c, path + [child.name], child.node);
    if !HasBackslash(child.name) && Observe(c, path + [child.name], child.node).Some? {
      assert [] + Observe(c, path + [child.name], child.node).value == Observe(c, path + [child.name], child.node).value;
    }
  }
}
