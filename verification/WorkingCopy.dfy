/** The files and directories of a Working Copy, and what each step of a scan does to them: a copy made
    with its parents, a copy dropped with the parents it leaves empty, and a subtree discarded with
    nothing above it touched. */
module WorkingCopy {
  /** A Manifest path, segment by segment. */
  type Path = seq<string>

  predicate Under(p: Path, q: Path) {
    |p| <= |q| && q[..|p|] == p
  }

  predicate Below(p: Path, q: Path) {
    Under(p, q) && |p| < |q|
  }

  lemma UnderTransitive(p: Path, q: Path, r: Path)
    requires Under(p, q) && Under(q, r)
    ensures Under(p, r)
  {
    assert r[..|q|][..|p|] == r[..|p|];
  }

  lemma SiblingsDisjoint(p: Path, a: string, b: string, x: Path, y: Path)
    requires a != b && Under(p + [a], x) && Under(p + [b], y)
    ensures x != y && !Below(x, y)
  {
    assert x[..|p| + 1][|p|] == a && y[..|p| + 1][|p|] == b;
    assert |x| <= |y| ==> y[..|x|][|p|] == y[|p|];
  }

  lemma PrefixIsUnder(path: Path, name: string, p: Path)
    ensures Under(path + [name], p) ==> Under(path, p)
  {
    assert |path| + 1 <= |p| ==> p[..|path| + 1][..|path|] == p[..|path|];
  }

  lemma SiblingExcludes(path: Path, a: string, b: string, p: Path)
    requires a != b && Under(path + [a], p)
    ensures !Under(path + [b], p)
  {
    assert p[..|path| + 1][|path|] == a;
  }

  /** What stands below the root of the Working Copy; the root always does. */
  datatype Copy = Copy(files: set<Path>, dirs: set<Path>)

  /** The directories above a path, the root aside. */
  function Ancestors(p: Path): set<Path> {
    set k | 1 <= k < |p| :: p[..k]
  }

  function AncestorsOf(files: set<Path>): set<Path> {
    set f, k | f in files && 1 <= k < |f| :: f[..k]
  }

  function Parent(p: Path): Path
    requires p != []
  {
    p[..|p| - 1]
  }

  predicate Empty(w: Copy, d: Path) {
    (forall p :: p in w.files ==> !Below(d, p)) && (forall p :: p in w.dirs ==> !Below(d, p))
  }

  /** `mkdir -p` of the parent, then the file. */
  function Created(w: Copy, p: Path): Copy {
    Copy(w.files + {p}, w.dirs + Ancestors(p))
  }

  /** `rmdir` upward until one is missing or not empty, or the root is met. */
  function Walk(w: Copy, d: Path): Copy
    decreases |d|
  {
    if d == [] || d !in w.dirs || !Empty(w, d) then w else Walk(w.(dirs := w.dirs - {d}), Parent(d))
  }

  /** The file removed, and then the parents that are empty. */
  function Dropped(w: Copy, p: Path): Copy
    requires p != []
  {
    Walk(w.(files := w.files - {p}), Parent(p))
  }

  /** The whole subtree removed, and nothing above it. */
  function Discarded(w: Copy, d: Path): Copy {
    Copy(set p | p in w.files && !Under(d, p), set p | p in w.dirs && !Under(d, p))
  }
}
