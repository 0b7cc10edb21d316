/** Histories of published property sets in which any apply may be cut off, and small histories that
    show what the sync does not promise. */
module PropertyHistory {
  import opened Options
  import opened Keys
  import opened FileTree
  import opened PropertySync
  import opened PropertyRuns
  import opened PropertyTraces

  /** A published set; `crash` is the state a crash stopped its apply in, if one did. */
  datatype Publication = Publication(es: seq<Entry>, crash: Option<Tree>)

  ghost function Next(t: Tree, p: Publication): Tree {
    if p.crash.Some? && InPhase(t, p.es, p.crash.value) then p.crash.value else Applied(t, p.es).tree
  }

  ghost function After(hist: seq<Publication>): Tree {
    if hist == [] then Fresh else Next(After(hist[..|hist| - 1]), hist[|hist| - 1])
  }

  /** No directory looks transient. */
  ghost predicate NoTmpDir(t: Tree) {
    forall p :: IsDir(t, p) ==> !IsTmp(p)
  }

  lemma CrashKeeps(t: Tree, es: seq<Entry>, u: Tree)
    requires NoTmpDir(t) && AllPlain(es) && InPhase(t, es, u)
    ensures WellFormed(u) && NoTmpDir(u)
  {
    forall p | IsDir(u, p) ensures !IsTmp(p) {
      assert p in Dirs(u);
    }
  }

  lemma {:induction false} WritesKeep(t: Tree, es: seq<Entry>)
    requires NoTmpDir(t) && AllPlain(es)
    ensures NoTmpDir(WriteAll(t, es).tree)
  {
    if es != [] {
      var n := |es| - 1;
      WritesKeep(t, es[..n]);
      var u := WriteAll(t, es[..n]).tree;
      WriteOneDirs(u, es, n);
      forall p | IsDir(WriteOne(u, es[n]).tree, p) ensures !IsTmp(p) {
        assert p in Dirs(WriteOne(u, es[n]).tree);
      }
    }
  }

  lemma {:induction false} HistoryKeeps(hist: seq<Publication>)
    requires forall p :: p in hist ==> AllPlain(p.es)
    ensures WellFormed(After(hist)) && NoTmpDir(After(hist))
  {
    if hist != [] {
      var n := |hist| - 1;
      var t, p := After(hist[..n]), hist[n];
      HistoryKeeps(hist[..n]);
      ApplyKeeps(t, p.es);
      WritesKeep(Sweep(t, Locs(p.es)), p.es);
      if p.crash.Some? && InPhase(t, p.es, p.crash.value) { CrashKeeps(t, p.es, p.crash.value); }
    }
  }

  /** After any history, with failures and crashes at any point of any apply, the next set succeeds
      exactly when it is prefix-free and none of its paths is still a directory. Readers then see exactly
      the set, and the tree holds nothing else but transient files that crashes left. */
  lemma {:induction false} CrashesConverge(hist: seq<Publication>, es: seq<Entry>)
    requires AllPlain(es) && forall p :: p in hist ==> AllPlain(p.es)
    ensures var t := After(hist);
            && (Applied(t, es).ok <==> PrefixFree(es) && forall e :: e in es ==> !IsDir(t, e.loc))
            && (Applied(t, es).ok ==> Applied(t, es).tree == TreeOf(FilesAfter(t, es))
                                      && Visible(Applied(t, es).tree) == Latest(es))
  {
    var t := After(hist);
    HistoryKeeps(hist);
    ApplyExact(t, es);
    if Applied(t, es).ok { VisibleIsSet(t, es); }
  }

  lemma {:induction false} VisibleIsSet(t: Tree, es: seq<Entry>)
    requires AllPlain(es)
    ensures Visible(TreeOf(FilesAfter(t, es))) == Latest(es)
  {
    forall p | p in Latest(es) ensures !IsTmp(p) {
      var e :| e in es && e.loc == p;
    }
  }

  // ----- small histories -----

  /** Publish a/b, then a: a is still a directory when it should be written, and for ever after. */
  lemma {:induction false} DirectoryInTheWay(v: string, w: string, sets: seq<seq<Entry>>)
    requires sets != [] && forall i :: 0 <= i < |sets| ==> sets[i] == [Entry(["a"], w)]
    ensures var first := Applied(Fresh, [Entry(["a", "b"], v)]);
            && first.ok && IsDir(first.tree, ["a"])
            && !Applied(RunAll(first.tree, sets[..|sets| - 1]), sets[|sets| - 1]).ok
  {
    ADirectory(v);
    OneKey(w);
    ConflictPersists(Applied(Fresh, [Entry(["a", "b"], v)]).tree, sets, ["a"]);
  }

  lemma {:induction false} ADirectory(v: string)
    ensures var first := Applied(Fresh, [Entry(["a", "b"], v)]); first.ok && IsDir(first.tree, ["a"])
  {
    var es := [Entry(["a", "b"], v)];
    assert ["a", "b"][..1] == ["a"];
    assert PrefixFree(es) && AllPlain(es);
    HistoryConverges([], es);
    TreeOfSet(es);
    assert es[0] in es && Above(["a"], es[0].loc);
  }

  lemma {:induction false} OneKey(w: string)
    ensures AllPlain([Entry(["a"], w)]) && ["a"] in Locs([Entry(["a"], w)])
  {
    var es := [Entry(["a"], w)];
    assert es[0] in es && ["a"][0] == "a";
  }

  lemma TransientOfA()
    ensures Tmp(["a"]) == ["a.tmp"]
  {
    assert "a" + ".tmp" == "a.tmp";
  }

  lemma OnlyTransient(v: string)
    ensures var t := Fresh[["a.tmp"] := File(v)];
            WellFormed(t) && Visible(t) == map[] && Dirs(t) == Dirs(Fresh)
  {
    TransientOfA();
  }

  /** Crash while a is being written, then publish the empty set: a.tmp stays. */
  lemma CrashLeavesTransient(v: string)
    ensures var t := Do(Fresh, WriteTmp(["a"], v));
            && InPhase(Fresh, [Entry(["a"], v)], t)
            && Applied(t, []).ok && IsFile(Applied(t, []).tree, ["a.tmp"])
  {
    TransientOfA();
    OnlyTransient(v);
    var t := Fresh[["a.tmp"] := File(v)];
    assert OnTheWay(Fresh, [Entry(["a"], v)], t, 0);
  }

  /** A key that ends in .tmp is accepted and written like any other, and never swept again. */
  lemma TmpKeyIsNeverSwept(v: string)
    ensures CheckKey("a.tmp").Accepted? && Segments("a.tmp") == ["a.tmp"]
    ensures var r := Applied(Fresh, [Entry(["a.tmp"], v)]);
            && r.ok && r.tree == Fresh[["a.tmp"] := File(v)]
            && Applied(r.tree, []).ok && IsFile(Applied(r.tree, []).tree, ["a.tmp"])
  {
    TmpKeyAccepted();
    OneTmpKey(v);
    TmpFileLingers(v);
  }

  lemma TmpKeyAccepted()
    ensures CheckKey("a.tmp").Accepted? && Segments("a.tmp") == ["a.tmp"]
  {
    NoTwoDots("a.tmp");
    OneSegment("a.tmp");
  }

  lemma TmpFileLingers(v: string)
    ensures var t := Fresh[["a.tmp"] := File(v)];
            Applied(t, []).ok && IsFile(Applied(t, []).tree, ["a.tmp"])
  {
  }

  lemma OneTmpKey(v: string)
    ensures Applied(Fresh, [Entry(["a.tmp"], v)]) == Outcome(Fresh[["a.tmp"] := File(v)], true)
  {
    var e := Entry(["a.tmp"], v);
    var es := [e];
    assert Sweep(Fresh, Locs(es)) == Fresh;
    assert WriteOne(Fresh, e) == Outcome(Fresh[["a.tmp"] := File(v)], true);
    assert WriteAll(Fresh, es) == WriteOne(Fresh, e);
  }
}
