/** Mirroring a property set onto a directory tree: sweep stale files, write the wanted ones
    through a transient file and a rename, prune empty directories. */
module PropertySync {
  import opened Keys
  import opened FileTree

  datatype Entry = Entry(loc: Path, val: string)

  datatype Outcome = Outcome(tree: Tree, ok: bool)

  function Locs(es: seq<Entry>): (r: set<Path>) {
    set e | e in es :: e.loc
  }

  /** What the entries say, a later entry winning over an earlier one. */
  function Latest(es: seq<Entry>): (r: map<Path, string>)
    ensures r.Keys == Locs(es)
  {
    if es == [] then map[]
    else
      var n := |es| - 1;
      assert Locs(es) == Locs(es[..n]) + {es[n].loc} by {
        assert es == es[..n] + [es[n]];
      }
      Latest(es[..n])[es[n].loc := es[n].val]
  }

  // ----- the passes -----

  predicate Stale(t: Tree, want: set<Path>, p: Path) {
    IsFile(t, p) && !IsTmp(p) && p !in want
  }

  function Sweep(t: Tree, want: set<Path>): Tree {
    map p | p in t && !Stale(t, want, p) :: t[p]
  }

  /** mkdir parents, write the transient file, rename it into place. An entry located at the root
      itself always fails: its rename targets the root directory. */
  function WriteOne(t: Tree, e: Entry): Outcome {
    if e.loc == [] then Outcome(t, false)
    else if Blocked(t, Parent(e.loc)) then Outcome(t, false)
    else
      var d := WithDirs(t, Parent(e.loc));
      if IsDir(d, Tmp(e.loc)) then Outcome(d, false)
      else if IsDir(d, e.loc) then Outcome(d - {Tmp(e.loc)}, false)
      else Outcome((d - {Tmp(e.loc)})[e.loc := File(e.val)], true)
  }

  function WriteAll(t: Tree, es: seq<Entry>): Outcome {
    if es == [] then Outcome(t, true)
    else
      var r := WriteAll(t, es[..|es| - 1]);
      if r.ok then WriteOne(r.tree, es[|es| - 1]) else r
  }

  ghost function Applied(t: Tree, es: seq<Entry>): Outcome {
    var w := WriteAll(Sweep(t, Locs(es)), es);
    if w.ok then Outcome(Pruned(w.tree, []), true) else w
  }

  // ----- when a write pass succeeds, and what it leaves -----

  predicate AllPlain(es: seq<Entry>) {
    forall e :: e in es ==> Plain(e.loc)
  }

  /** No entry is the root, and none is located above another. */
  predicate PrefixFree(es: seq<Entry>) {
    && (forall e :: e in es ==> e.loc != [])
    && (forall e, f :: e in es && f in es ==> !Above(e.loc, f.loc))
  }

  /** A directory is in the way of an entry or of its transient file. */
  predicate InTheWay(t: Tree, loc: Path) {
    loc != [] && (IsDir(t, loc) || IsDir(t, Tmp(loc)))
  }

  predicate Writable(t: Tree, es: seq<Entry>) {
    && PrefixFree(es)
    && (forall e :: e in es ==> !InTheWay(t, e.loc))
    && (forall e :: e in es && e.loc != [] ==> !Blocked(t, Parent(e.loc)))
  }

  function Tmps(es: seq<Entry>): set<Path> {
    set e | e in es && e.loc != [] :: Tmp(e.loc)
  }

  function Ancestors(es: seq<Entry>): (r: set<Path>)
    ensures forall p :: p in r <==> exists e :: e in es && Above(p, e.loc)
  {
    var r := set e, i | e in es && 0 <= i < |e.loc| :: e.loc[..i];
    assert forall p :: p in r ==> exists e :: e in es && Above(p, e.loc);
    assert forall p, e :: e in es && Above(p, e.loc) ==> p == e.loc[..|p|] && p in r;
    r
  }

  /** The tree after a successful write pass, in closed form. */
  function Written(t: Tree, es: seq<Entry>): Tree {
    map p | p in (t.Keys - Tmps(es)) + Locs(es) + Ancestors(es) ::
      if p in Latest(es) then File(Latest(es)[p]) else if p in t then t[p] else Dir
  }

  lemma PlainAncestor(p: Path, q: Path)
    requires Plain(p) && (q == p || Above(q, p))
    ensures !IsTmp(q)
  {
  }

  lemma NotBlockedIff(t: Tree, loc: Path)
    requires loc != []
    ensures Blocked(t, Parent(loc)) <==> exists q :: Above(q, loc) && IsFile(t, q)
  {
    if q :| Above(q, loc) && IsFile(t, q) {
      assert Parent(loc)[..|q|] == q;
    }
  }

  lemma WrittenNode(t: Tree, es: seq<Entry>, p: Path)
    requires AllPlain(es) && Writable(t, es)
    ensures IsDir(Written(t, es), p) <==> IsDir(t, p) || p in Ancestors(es)
    ensures IsFile(Written(t, es), p) <==> p in Locs(es) || (IsFile(t, p) && p !in Tmps(es))
  {
    if p in Ancestors(es) { AncestorIsFree(t, es, p); }
    forall e | e in es ensures p == e.loc ==> !IsDir(t, p) && p !in Ancestors(es) && p !in Tmps(es) {
      PlainAncestor(e.loc, e.loc);
    }
    assert p in Tmps(es) ==> !IsDir(t, p);
  }

  lemma AncestorIsFree(t: Tree, es: seq<Entry>, p: Path)
    requires AllPlain(es) && Writable(t, es) && p in Ancestors(es)
    ensures !IsFile(t, p) && !IsTmp(p) && p !in Locs(es)
  {
    var e :| e in es && Above(p, e.loc);
    NotBlockedIff(t, e.loc);
    PlainAncestor(e.loc, p);
  }

  predicate Apart(es: seq<Entry>, loc: Path) {
    forall f :: f in es ==> !Above(f.loc, loc) && !Above(loc, f.loc)
  }

  lemma WritableSnoc(t: Tree, es: seq<Entry>, e: Entry)
    ensures Writable(t, es + [e]) <==>
            && Writable(t, es) && e.loc != [] && Apart(es, e.loc)
            && !InTheWay(t, e.loc) && !Blocked(t, Parent(e.loc))
  {
    var all := es + [e];
    assert e in all && forall x :: x in all <==> x in es || x == e;
  }

  lemma AncestorOfLoc(t: Tree, es: seq<Entry>, loc: Path)
    requires AllPlain(es) && Writable(t, es) && Plain(loc) && loc != []
    ensures Blocked(Written(t, es), Parent(loc)) <==>
            Blocked(t, Parent(loc)) || exists f :: f in es && Above(f.loc, loc)
  {
    var w := Written(t, es);
    NotBlockedIff(w, loc);
    NotBlockedIff(t, loc);
    forall q | Above(q, loc) ensures IsFile(w, q) <==> q in Locs(es) || IsFile(t, q) {
      WrittenNode(t, es, q);
    }
  }

  lemma DirAtLoc(t: Tree, es: seq<Entry>, loc: Path)
    requires AllPlain(es) && Writable(t, es) && Plain(loc) && loc != []
    ensures IsDir(Written(t, es), loc) <==> IsDir(t, loc) || exists f :: f in es && Above(loc, f.loc)
    ensures IsDir(Written(t, es), Tmp(loc)) <==> IsDir(t, Tmp(loc))
  {
    WrittenNode(t, es, loc);
    WrittenNode(t, es, Tmp(loc));
  }

  /** Whether one more write goes through, on a tree in closed form. */
  lemma WriteOneSucceeds(t: Tree, es: seq<Entry>, e: Entry)
    requires AllPlain(es) && Plain(e.loc) && Writable(t, es)
    ensures WriteOne(Written(t, es), e).ok <==> Writable(t, es + [e])
  {
    WritableSnoc(t, es, e);
    if e.loc != [] {
      AncestorOfLoc(t, es, e.loc);
      DirAtLoc(t, es, e.loc);
    }
  }

  lemma UnderParent(p: Path, loc: Path)
    requires loc != []
    ensures Above(p, loc) <==> p == Parent(loc) || Above(p, Parent(loc))
    ensures Above(p, loc) <==> p in set i | 0 <= i < |loc| :: loc[..i]
  {
  }

  lemma WriteOneNode(w: Tree, e: Entry, p: Path)
    requires WriteOne(w, e).ok
    ensures p in WriteOne(w, e).tree <==> p == e.loc || (p != Tmp(e.loc) && (p in w || Above(p, e.loc)))
    ensures p in WriteOne(w, e).tree ==>
              WriteOne(w, e).tree[p] == if p == e.loc then File(e.val) else if p in w then w[p] else Dir
  {
  }

  lemma WrittenSnocIn(t: Tree, es: seq<Entry>, e: Entry, p: Path)
    requires AllPlain(es + [e]) && e.loc != []
    ensures p in Written(t, es + [e]) <==>
            p == e.loc || (p != Tmp(e.loc) && (p in Written(t, es) || Above(p, e.loc)))
  {
  }

  lemma WrittenSnocAt(t: Tree, es: seq<Entry>, e: Entry, p: Path)
    requires AllPlain(es + [e]) && e.loc != [] && p in Written(t, es + [e])
    ensures Written(t, es + [e])[p] ==
            if p == e.loc then File(e.val) else if p in Written(t, es) then Written(t, es)[p] else Dir
  {
  }

  lemma WriteOneResultAt(t: Tree, es: seq<Entry>, e: Entry, p: Path)
    requires AllPlain(es + [e]) && WriteOne(Written(t, es), e).ok
    ensures p in WriteOne(Written(t, es), e).tree <==> p in Written(t, es + [e])
    ensures p in Written(t, es + [e]) ==> WriteOne(Written(t, es), e).tree[p] == Written(t, es + [e])[p]
  {
    WriteOneNode(Written(t, es), e, p);
    WrittenSnocIn(t, es, e, p);
    if p in Written(t, es + [e]) { WrittenSnocAt(t, es, e, p); }
  }

  /** What one more write leaves. */
  lemma WriteOneResult(t: Tree, es: seq<Entry>, e: Entry)
    requires AllPlain(es + [e]) && WriteOne(Written(t, es), e).ok
    ensures WriteOne(Written(t, es), e).tree == Written(t, es + [e])
  {
    forall p { WriteOneResultAt(t, es, e, p); }
  }

  lemma {:induction false} WritePass(t: Tree, es: seq<Entry>)
    requires AllPlain(es)
    ensures WriteAll(t, es).ok <==> Writable(t, es)
    ensures Writable(t, es) ==> WriteAll(t, es).tree == Written(t, es)
  {
    if es != [] {
      var n := |es| - 1;
      assert es == es[..n] + [es[n]];
      WritePass(t, es[..n]);
      if Writable(t, es[..n]) {
        WriteOneSucceeds(t, es[..n], es[n]);
        if Writable(t, es) { WriteOneResult(t, es[..n], es[n]); }
      }
    }
  }

  // ----- a whole apply -----

  /** Checkable before the call: the set is prefix-free and no directory is in the way. */
  predicate Applicable(t: Tree, es: seq<Entry>) {
    PrefixFree(es) && forall e :: e in es ==> !InTheWay(t, e.loc)
  }

  /** Transient files of other writes: the sweep skips them and no rename consumes them. */
  function Leftover(t: Tree, es: seq<Entry>): map<Path, string> {
    map p | p in t && t[p].File? && IsTmp(p) && p !in Tmps(es) :: t[p].content
  }

  function FilesAfter(t: Tree, es: seq<Entry>): map<Path, string> {
    Leftover(t, es) + Latest(es)
  }

  lemma SweptIsWritable(t: Tree, es: seq<Entry>)
    requires AllPlain(es)
    ensures Writable(Sweep(t, Locs(es)), es) <==> Applicable(t, es)
  {
  }

  lemma WrittenFiles(t: Tree, es: seq<Entry>, p: Path)
    requires AllPlain(es) && Applicable(t, es)
    ensures var w := Written(Sweep(t, Locs(es)), es);
            && (IsFile(w, p) <==> p in FilesAfter(t, es))
            && (IsFile(w, p) ==> w[p].content == FilesAfter(t, es)[p])
  {
  }

  lemma WrittenWellFormed(t: Tree, es: seq<Entry>)
    requires WellFormed(t) && AllPlain(es) && Writable(t, es)
    ensures WellFormed(Written(t, es))
  {
    var w := Written(t, es);
    WrittenNode(t, es, []);
    forall p, q | p in w && Above(q, p) ensures IsDir(w, q) {
      WrittenNode(t, es, q);
      if p in Locs(es) {
      } else if p in Ancestors(es) {
        var e :| e in es && Above(p, e.loc);
        AboveTransitive(q, p, e.loc);
      }
    }
  }

  lemma PruneLeavesFiles(w: Tree, files: map<Path, string>)
    requires WellFormed(w)
    requires forall p :: IsFile(w, p) <==> p in files
    requires forall p :: p in files ==> p in w && w[p] == File(files[p])
    ensures Pruned(w, []) == TreeOf(files)
  {
  }

  /** The whole contract of an apply on any tree, for any set without transient-looking names:
      exactly when it succeeds, and exactly which tree it then leaves. */
  lemma ApplyExact(t: Tree, es: seq<Entry>)
    requires WellFormed(t) && AllPlain(es)
    ensures Applied(t, es).ok <==> Applicable(t, es)
    ensures Applied(t, es).ok ==> Applied(t, es).tree == TreeOf(FilesAfter(t, es))
  {
    var s := Sweep(t, Locs(es));
    SweptIsWritable(t, es);
    WritePass(s, es);
    if Applicable(t, es) {
      WrittenWellFormed(s, es);
      forall p { WrittenFiles(t, es, p); }
      PruneLeavesFiles(Written(s, es), FilesAfter(t, es));
    }
  }

  lemma {:induction false} NothingLeftOver(t: Tree, es: seq<Entry>)
    requires AllPlain(es)
    ensures FilesAfter(t, es) == Latest(es) <==> Leftover(t, es) == map[]
  {
  }

  /** The side condition of the `.tmp` rule: a successful apply leaves the set and nothing else exactly
      when no foreign transient file was there. */
  lemma {:induction false} LeavesOnlyTheSetIff(t: Tree, es: seq<Entry>)
    requires WellFormed(t) && AllPlain(es) && Applicable(t, es)
    ensures Applied(t, es).tree == TreeOf(Latest(es)) <==> Leftover(t, es) == map[]
  {
    ApplyExact(t, es);
    NothingLeftOver(t, es);
  }

  /** One that was, however it came to be there, is never removed. */
  lemma TransientLingers(t: Tree, es: seq<Entry>, p: Path)
    requires WellFormed(t) && AllPlain(es) && Applicable(t, es)
    requires IsFile(t, p) && IsTmp(p) && p !in Tmps(es)
    ensures p in Applied(t, es).tree && Applied(t, es).tree[p] == t[p]
  {
    ApplyExact(t, es);
  }
}
