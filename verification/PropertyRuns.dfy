/** Sequences of published property sets: what a failed apply leaves, how a conflict persists,
    and what a fresh tree converges to. */
module PropertyRuns {
  import opened Keys
  import opened FileTree
  import opened PropertySync

  // ----- partial write passes -----

  /** How many entries a write pass puts in place. */
  function Completed(t: Tree, es: seq<Entry>): (n: nat)
    ensures n <= |es|
    ensures WriteAll(t, es).ok <==> n == |es|
  {
    if es == [] then 0
    else
      var n := |es| - 1;
      if WriteAll(t, es).ok then |es| else Completed(t, es[..n])
  }

  lemma FailedWriteNode(t: Tree, e: Entry, p: Path)
    requires !WriteOne(t, e).ok && !IsTmp(p)
    ensures IsFile(WriteOne(t, e).tree, p) <==> IsFile(t, p)
    ensures IsFile(t, p) ==> WriteOne(t, e).tree[p] == t[p]
  {
  }

  lemma WriteOneVisible(t: Tree, e: Entry)
    requires Plain(e.loc)
    ensures WriteOne(t, e).ok ==> Visible(WriteOne(t, e).tree) == Visible(t)[e.loc := e.val]
    ensures !WriteOne(t, e).ok ==> Visible(WriteOne(t, e).tree) == Visible(t)
  {
    var r := WriteOne(t, e).tree;
    if WriteOne(t, e).ok {
      PlainAncestor(e.loc, e.loc);
      forall p ensures p in Visible(r) <==> p in Visible(t)[e.loc := e.val] { WriteOneNode(t, e, p); }
      forall p | p in Visible(r) ensures Visible(r)[p] == Visible(t)[e.loc := e.val][p] { WriteOneNode(t, e, p); }
    } else {
      forall p ensures p in Visible(r) <==> p in Visible(t) { if !IsTmp(p) { FailedWriteNode(t, e, p); } }
      forall p | p in Visible(r) ensures Visible(r)[p] == Visible(t)[p] { FailedWriteNode(t, e, p); }
    }
  }

  lemma OverwriteAssociates(a: map<Path, string>, b: map<Path, string>, k: Path, v: string)
    ensures (a + b)[k := v] == a + b[k := v]
  {
  }

  lemma LatestSnoc(es: seq<Entry>, n: nat)
    requires n < |es|
    ensures Latest(es[..n + 1]) == Latest(es[..n])[es[n].loc := es[n].val]
  {
    assert es[..n + 1][..n] == es[..n];
  }

  /** Stopped or not, a write pass shows the old files overwritten by its first entries. */
  lemma {:induction false} WritePassVisible(t: Tree, es: seq<Entry>)
    requires AllPlain(es)
    ensures Visible(WriteAll(t, es).tree) == Visible(t) + Latest(es[..Completed(t, es)])
  {
    if es == [] { return; }
    var n := |es| - 1;
    var init := es[..n];
    var r, c := WriteAll(t, init), Completed(t, init);
    WritePassVisible(t, init);
    assert init[..c] == es[..c];
    if r.ok {
      var one := WriteOne(r.tree, es[n]);
      WriteOneVisible(r.tree, es[n]);
      if one.ok {
        LatestSnoc(es, n);
        OverwriteAssociates(Visible(t), Latest(init), es[n].loc, es[n].val);
      }
    }
  }

  lemma WriteOneKeepsDirs(t: Tree, e: Entry, p: Path)
    requires IsDir(t, p)
    ensures IsDir(WriteOne(t, e).tree, p)
  {
  }

  lemma {:induction false} WritePassKeepsDirs(t: Tree, es: seq<Entry>, p: Path)
    requires IsDir(t, p)
    ensures IsDir(WriteAll(t, es).tree, p)
  {
    if es != [] {
      WritePassKeepsDirs(t, es[..|es| - 1], p);
      var r := WriteAll(t, es[..|es| - 1]);
      if r.ok { WriteOneKeepsDirs(r.tree, es[|es| - 1], p); }
    }
  }

  // ----- runs -----

  ghost function RunAll(t: Tree, sets: seq<seq<Entry>>): Tree {
    if sets == [] then t else Applied(RunAll(t, sets[..|sets| - 1]), sets[|sets| - 1]).tree
  }

  lemma ConflictStep(t: Tree, es: seq<Entry>, k: Path)
    requires IsDir(t, k) && k != [] && AllPlain(es) && k in Locs(es)
    ensures !Applied(t, es).ok && IsDir(Applied(t, es).tree, k)
  {
    var s := Sweep(t, Locs(es));
    WritePass(s, es);
    WritePassKeepsDirs(s, es, k);
    var e :| e in es && e.loc == k;
  }

  /** A directory where a published key should be is never cleared by publishing that key again:
      the rename fails before the prune, for ever. */
  lemma {:induction false} ConflictPersists(t: Tree, sets: seq<seq<Entry>>, k: Path)
    requires IsDir(t, k) && k != []
    requires forall i :: 0 <= i < |sets| ==> AllPlain(sets[i]) && k in Locs(sets[i])
    ensures IsDir(RunAll(t, sets), k)
    ensures sets != [] ==> !Applied(RunAll(t, sets[..|sets| - 1]), sets[|sets| - 1]).ok
  {
    if sets != [] {
      var n := |sets| - 1;
      ConflictPersists(t, sets[..n], k);
      ConflictStep(RunAll(t, sets[..n]), sets[n], k);
    }
  }

  // ----- trees that grew from an empty root -----

  ghost predicate NoTmp(t: Tree) {
    forall p :: p in t ==> !IsTmp(p)
  }

  lemma WriteOneKeeps(t: Tree, e: Entry)
    requires WellFormed(t) && Plain(e.loc)
    ensures WellFormed(WriteOne(t, e).tree)
    ensures NoTmp(t) ==> NoTmp(WriteOne(t, e).tree)
  {
    if e.loc == [] || Blocked(t, Parent(e.loc)) { return; }
    var d := WithDirs(t, Parent(e.loc));
    WithDirsWellFormed(t, Parent(e.loc));
    PlainAncestor(e.loc, e.loc);
    NotBlockedIff(t, e.loc);
    var r := WriteOne(t, e).tree;
    forall p, q | p in r && Above(q, p) ensures IsDir(r, q) {
      if p == e.loc { UnderParent(q, e.loc); } else { assert p in d; }
      assert IsDir(d, q);
    }
  }

  lemma {:induction false} WriteAllKeeps(t: Tree, es: seq<Entry>)
    requires WellFormed(t) && AllPlain(es)
    ensures WellFormed(WriteAll(t, es).tree)
    ensures NoTmp(t) ==> NoTmp(WriteAll(t, es).tree)
  {
    if es != [] {
      WriteAllKeeps(t, es[..|es| - 1]);
      var r := WriteAll(t, es[..|es| - 1]);
      if r.ok { WriteOneKeeps(r.tree, es[|es| - 1]); }
    }
  }

  lemma PrunedWellFormed(t: Tree, top: Path)
    requires WellFormed(t)
    ensures WellFormed(Pruned(t, top))
  {
  }

  lemma ApplyKeeps(t: Tree, es: seq<Entry>)
    requires WellFormed(t) && AllPlain(es)
    ensures WellFormed(Applied(t, es).tree)
    ensures NoTmp(t) ==> NoTmp(Applied(t, es).tree)
  {
    var s := Sweep(t, Locs(es));
    WriteAllKeeps(s, es);
    PrunedWellFormed(WriteAll(s, es).tree, []);
  }

  lemma {:induction false} RunKeeps(t: Tree, sets: seq<seq<Entry>>)
    requires WellFormed(t) && forall s :: s in sets ==> AllPlain(s)
    ensures WellFormed(RunAll(t, sets))
    ensures NoTmp(t) ==> NoTmp(RunAll(t, sets))
  {
    if sets != [] {
      var n := |sets| - 1;
      RunKeeps(t, sets[..n]);
      ApplyKeeps(RunAll(t, sets[..n]), sets[n]);
    }
  }

  const Fresh: Tree := map[[] := Dir]

  /** After any published history, failures included, the next set succeeds exactly when it is
      prefix-free and none of its keys is still a directory, and then the tree is that set and
      nothing else: no stale file, no transient file, no empty directory. */
  lemma {:induction false} HistoryConverges(sets: seq<seq<Entry>>, es: seq<Entry>)
    requires AllPlain(es) && forall s :: s in sets ==> AllPlain(s)
    ensures var t := RunAll(Fresh, sets);
            && (Applied(t, es).ok <==> PrefixFree(es) && forall e :: e in es ==> !IsDir(t, e.loc))
            && (Applied(t, es).ok ==> Applied(t, es).tree == TreeOf(Latest(es)))
  {
    var t := RunAll(Fresh, sets);
    RunKeeps(Fresh, sets);
    ApplyExact(t, es);
    NothingInTheWay(t, es);
  }

  lemma {:induction false} TreeOfSet(es: seq<Entry>)
    requires AllPlain(es) && PrefixFree(es)
    ensures var t := TreeOf(Latest(es));
            && WellFormed(t) && NoTmp(t)
            && forall p :: IsDir(t, p) <==> p == [] || exists e :: e in es && Above(p, e.loc)
  {
    var t := TreeOf(Latest(es));
    forall p ensures IsDir(t, p) <==> p == [] || exists e :: e in es && Above(p, e.loc) { DirOfSet(es, p); }
    forall p | p in t ensures !IsTmp(p) { NodeOfSet(es, p); }
    forall p, q | p in t && Above(q, p) ensures IsDir(t, q) {
      NodeOfSet(es, p);
      var e :| e in es && (e.loc == p || Above(p, e.loc));
      if e.loc != p { AboveTransitive(q, p, e.loc); }
      DirOfSet(es, q);
    }
  }

  lemma {:induction false} NodeOfSet(es: seq<Entry>, p: Path)
    requires AllPlain(es) && p in TreeOf(Latest(es))
    ensures !IsTmp(p) && (p != [] ==> exists e :: e in es && (e.loc == p || Above(p, e.loc)))
  {
    if p != [] {
      var q :| q in Latest(es) && (q == p || Above(p, q));
      var e :| e in es && e.loc == q;
      PlainAncestor(e.loc, p);
    }
  }

  lemma {:induction false} DirOfSet(es: seq<Entry>, p: Path)
    requires PrefixFree(es)
    ensures IsDir(TreeOf(Latest(es)), p) <==> p == [] || exists e :: e in es && Above(p, e.loc)
  {
    var files := Latest(es);
    if e :| e in es && Above(p, e.loc) { assert e.loc in files; }
    if p in files { assert exists e :: e in es && e.loc == p; }
  }

  /** What a publisher must respect: after a set has been applied, the next one succeeds exactly
      when it is prefix-free and no new key is an ancestor of an old one. */
  lemma {:induction false} NextPublish(before: seq<Entry>, es: seq<Entry>)
    requires AllPlain(before) && AllPlain(es) && PrefixFree(before)
    ensures var t := TreeOf(Latest(before));
            && (Applied(t, es).ok <==>
                PrefixFree(es) && forall e, b :: e in es && b in before ==> !Above(e.loc, b.loc))
            && (Applied(t, es).ok ==> Applied(t, es).tree == TreeOf(Latest(es)))
  {
    var t := TreeOf(Latest(before));
    TreeOfSet(before);
    ApplyExact(t, es);
    NothingInTheWay(t, es);
  }

  lemma {:induction false} NothingInTheWay(t: Tree, es: seq<Entry>)
    requires NoTmp(t)
    ensures Applicable(t, es) <==> PrefixFree(es) && forall e :: e in es ==> !IsDir(t, e.loc)
    ensures FilesAfter(t, es) == Latest(es)
  {
  }

  /** Publishing the same set again changes nothing. */
  lemma {:induction false} Idempotent(es: seq<Entry>)
    requires AllPlain(es) && PrefixFree(es)
    ensures Applied(TreeOf(Latest(es)), es) == Outcome(TreeOf(Latest(es)), true)
  {
    NextPublish(es, es);
  }
}
