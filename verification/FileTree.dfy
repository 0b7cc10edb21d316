/** A directory tree of plain files, as a map from locations below the root ([] is the root
    itself), and the effect of the system calls the property sync makes. */
module FileTree {
  import opened Keys

  datatype Node = Dir | File(content: string)

  type Tree = map<Path, Node>

  predicate IsDir(t: Tree, p: Path) { p in t && t[p].Dir? }

  predicate IsFile(t: Tree, p: Path) { p in t && t[p].File? }

  function Parent(p: Path): (d: Path)
    requires p != []
    ensures Above(d, p)
  {
    p[..|p| - 1]
  }

  /** q is a proper ancestor of p. */
  predicate Above(q: Path, p: Path) {
    |q| < |p| && p[..|q|] == q
  }

  /** The root is there, and every ancestor of a node is a directory. */
  ghost predicate WellFormed(t: Tree) {
    && IsDir(t, [])
    && forall p, q {:trigger p in t, Above(q, p)} :: p in t && Above(q, p) ==> IsDir(t, q)
  }

  lemma AboveTransitive(a: Path, b: Path, c: Path)
    requires Above(a, b) && Above(b, c)
    ensures Above(a, c)
  {
  }

  // ----- os.MkdirAll -----

  /** Some file stands where `d` or one of its ancestors is needed as a directory. */
  predicate Blocked(t: Tree, d: Path) {
    exists i :: 0 <= i <= |d| && IsFile(t, d[..i])
  }

  function WithDirs(t: Tree, d: Path): (r: Tree)
    ensures t.Keys <= r.Keys
    ensures forall p :: p in t ==> r[p] == t[p]
    ensures forall p :: p in r && p !in t ==> r[p] == Dir && (p == d || Above(p, d))
    ensures forall p :: p == d || Above(p, d) ==> p in r
  {
    var r := map p | p in t.Keys + (set i | 0 <= i <= |d| :: d[..i]) :: if p in t then t[p] else Dir;
    assert forall p :: Above(p, d) ==> p == d[..|p|];
    assert d == d[..|d|];
    r
  }

  lemma WithDirsWellFormed(t: Tree, d: Path)
    requires WellFormed(t) && !Blocked(t, d)
    ensures WellFormed(WithDirs(t, d))
  {
    var r := WithDirs(t, d);
    forall p, q | p in r && Above(q, p) ensures IsDir(r, q) {
      if p !in t { assert q == d[..|q|]; }
    }
  }

  // ----- what a reader sees -----

  /** The published files: everything but transient ones. */
  function Visible(t: Tree): map<Path, string> {
    map p | p in t && t[p].File? && !IsTmp(p) :: t[p].content
  }

  // ----- pruning -----

  ghost predicate HasFileBelow(t: Tree, d: Path) {
    exists p :: p in t && Above(d, p) && t[p].File?
  }

  /** `t` without the directories at or below `top`, other than the root, that hold no file. */
  ghost function Pruned(t: Tree, top: Path): Tree {
    map p | p in t && (p == [] || t[p].File? || HasFileBelow(t, p) || !(p == top || Above(top, p))) :: t[p]
  }

  /** The tree with exactly these files and only the directories they need. */
  function TreeOf(files: map<Path, string>): (t: Tree)
    ensures forall p :: p in t <==> p == [] || p in files || exists q :: q in files && Above(p, q)
    ensures forall p :: p in t ==> t[p] == if p in files then File(files[p]) else Dir
  {
    var above := set q, i | q in files && 0 <= i < |q| :: q[..i];
    assert forall p :: p in above ==> exists q :: q in files && Above(p, q);
    assert forall p, q :: q in files && Above(p, q) ==> p == q[..|p|] && p in above;
    map p | p in {[]} + files.Keys + above :: if p in files then File(files[p]) else Dir
  }
}
