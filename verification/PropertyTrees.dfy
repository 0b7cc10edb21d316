/** The property tree on disk, updated in place one system call at a time. Each method hands back
    the states it went through. Directory listings, walks and map iteration come back in no particular
    order here; the sorted keys are an argument. */
module PropertyTrees {
  import opened Keys
  import opened FileTree
  import opened PropertySync
  import opened PropertyRuns
  import opened PropertyTraces

  // ----- pruning a set of subtrees -----

  ghost predicate Removable(t: Tree, p: Path) {
    p != [] && IsDir(t, p) && !HasFileBelow(t, p)
  }

  ghost predicate Within(tops: set<Path>, p: Path) {
    exists c :: c in tops && (c == p || Above(c, p))
  }

  ghost function PrunedAll(t: Tree, tops: set<Path>): Tree {
    map p | p in t && !(Removable(t, p) && Within(tops, p)) :: t[p]
  }

  lemma PrunedAllIsPruned(t: Tree, top: Path)
    ensures PrunedAll(t, {top}) == Pruned(t, top)
  {
  }

  lemma PruneKeepsFiles(t: Tree, tops: set<Path>)
    ensures forall p :: IsFile(PrunedAll(t, tops), p) <==> IsFile(t, p)
    ensures forall p :: p in PrunedAll(t, tops) ==> (Removable(PrunedAll(t, tops), p) <==> Removable(t, p))
    ensures Visible(PrunedAll(t, tops)) == Visible(t)
  {
  }

  lemma PruneOneMore(t: Tree, tops: set<Path>, c: Path)
    ensures PrunedAll(PrunedAll(t, tops), {c}) == PrunedAll(t, tops + {c})
  {
  }

  ghost function ChildDirs(t: Tree, dir: Path): set<Path> {
    set c | c in t && c != [] && Parent(c) == dir && t[c].Dir?
  }

  lemma ChildToward(dir: Path, p: Path) returns (c: Path)
    requires Above(dir, p)
    ensures c != [] && Parent(c) == dir && (c == p || Above(c, p))
  {
    c := p[..|dir| + 1];
  }

  lemma WithinChildren(t: Tree, dir: Path, p: Path)
    requires WellFormed(t) && IsDir(t, p)
    ensures Within(ChildDirs(t, dir), p) <==> Above(dir, p)
  {
    if Above(dir, p) {
      var c := ChildToward(dir, p);
      assert c in ChildDirs(t, dir);
    } else if Within(ChildDirs(t, dir), p) {
      var c :| c in ChildDirs(t, dir) && (c == p || Above(c, p));
    }
  }

  /** With its child directories pruned, a directory is empty exactly when it held no file. */
  lemma EmptyIffNoFile(t: Tree, dir: Path)
    requires WellFormed(t) && IsDir(t, dir)
    ensures (forall c :: c in PrunedAll(t, ChildDirs(t, dir)) && c != [] ==> Parent(c) != dir)
            <==> !HasFileBelow(t, dir)
  {
    var r := PrunedAll(t, ChildDirs(t, dir));
    if HasFileBelow(t, dir) {
      var f :| f in t && Above(dir, f) && t[f].File?;
      var c := ChildToward(dir, f);
    } else {
      forall c | c in t && c != [] && Parent(c) == dir ensures c !in r {
        if t[c].Dir? {
          assert c in ChildDirs(t, dir);
        }
      }
    }
  }

  lemma PrunedFromChildren(t: Tree, dir: Path)
    requires WellFormed(t) && IsDir(t, dir)
    ensures var r := PrunedAll(t, ChildDirs(t, dir));
            PrunedAll(t, {dir}) == if Removable(t, dir) then r - {dir} else r
  {
    forall p | p in t && t[p].Dir?
      ensures Within({dir}, p) <==> p == dir || Within(ChildDirs(t, dir), p)
    {
      WithinChildren(t, dir, p);
    }
  }

  lemma NoChildNothingBelow(t: Tree, dir: Path)
    requires WellFormed(t) && forall c :: c in t && c != [] ==> Parent(c) != dir
    ensures forall q :: q in t ==> !Above(dir, q)
  {
    forall q | q in t && Above(dir, q) ensures false {
      var c := ChildToward(dir, q);
    }
  }

  ghost function Height(t: Tree): (h: nat)
    ensures forall p :: p in t ==> |p| <= h
  {
    if t == map[] then 0
    else
      var p :| p in t;
      var h := Height(t - {p});
      if |p| <= h then h else |p|
  }

  lemma NothingBelow(t: Tree, dir: Path)
    requires WellFormed(t) && !IsDir(t, dir)
    ensures Pruned(t, dir) == t
  {
  }

  // ----- streams of sets -----

  /** A published set and its keys in the order sort.Strings gives them. */
  datatype PropertySet = PropertySet(keys: seq<string>, props: map<string, string>)

  /** The keys are those of the set. */
  ghost predicate ListsKeys(s: PropertySet) {
    forall k :: k in s.keys <==> k in s.props
  }

  /** PropertySet.Validate. */
  predicate Valid(s: PropertySet) {
    forall k :: k in s.props ==> CheckKey(k).Accepted?
  }

  /** What a message amounts to: an invalid set is turned away. */
  ghost function Message(s: PropertySet): seq<seq<Entry>>
    requires ListsKeys(s)
  {
    if Valid(s) then [Entries(s.keys, s.props)] else []
  }

  ghost function Handled(t: Tree, s: PropertySet): Tree
    requires ListsKeys(s)
  {
    if Valid(s) then Applied(t, Entries(s.keys, s.props)).tree else t
  }

  ghost function Published(sets: seq<PropertySet>): seq<seq<Entry>>
    requires forall i :: 0 <= i < |sets| ==> ListsKeys(sets[i])
  {
    if sets == [] then [] else Published(sets[..|sets| - 1]) + Message(sets[|sets| - 1])
  }

  lemma PublishedSnoc(sets: seq<PropertySet>, i: nat)
    requires i < |sets| && forall j :: 0 <= j < |sets| ==> ListsKeys(sets[j])
    ensures Published(sets[..i + 1]) == Published(sets[..i]) + Message(sets[i])
  {
    assert sets[..i + 1][..i] == sets[..i];
  }

  lemma {:induction false} RunMore(sets: seq<seq<Entry>>, s: PropertySet)
    requires ListsKeys(s)
    ensures RunAll(Fresh, sets + Message(s)) == Handled(RunAll(Fresh, sets), s)
  {
    if Valid(s) {
      assert (sets + Message(s))[..|sets|] == sets;
    } else {
      assert sets + Message(s) == sets;
    }
  }

  class PropertyTree {
    var nodes: Tree

    constructor ()
      ensures nodes == map[]
    {
      nodes := map[];
    }

    /** os.MkdirAll, below a root that exists. */
    method MkdirAll(d: Path) returns (ok: bool, ghost trace: seq<Tree>)
      requires WellFormed(nodes)
      modifies this
      ensures WellFormed(nodes)
      ensures ok == !Blocked(old(nodes), d)
      ensures nodes == if ok then WithDirs(old(nodes), d) else old(nodes)
      ensures Visible(nodes) == old(Visible(nodes)) && Showing(trace, Visible(nodes), Dirs(nodes))
      ensures Chain(old(nodes), trace, nodes)
      decreases |d|
    {
      trace := [];
      if d in nodes {
        MkdirThere(nodes, d);
        ok := nodes[d].Dir?;
      } else {
        MkdirMissing(nodes, d);
        ok, trace := MkdirAll(Parent(d));
        if ok {
          WithDirsWellFormed(old(nodes), d);
          MkdirStep(old(nodes), d);
          ChainSnoc(old(nodes), trace, nodes, Mkdir(d));
          ShowingSnoc(trace, Visible(nodes), Dirs(nodes), nodes[d := Dir]);
          nodes := nodes[d := Dir];
          trace := trace + [nodes];
        }
      }
    }

    /** os.WriteFile on the transient name: truncated, partly filled, filled. */
    method WriteTransient(loc: Path, v: string) returns (ghost trace: seq<Tree>)
      requires WellFormed(nodes) && loc != [] && IsDir(nodes, Parent(loc)) && !IsDir(nodes, Tmp(loc))
      modifies this
      ensures nodes == old(nodes)[Tmp(loc) := File(v)] && Quiet(old(nodes), trace, nodes)
    {
      var n: nat :| n <= |v|;
      trace := Fill(loc, "", old(nodes), []);
      trace := Fill(loc, v[..n], old(nodes), trace);
      trace := Fill(loc, v, old(nodes), trace);
    }

    /** The transient file holds this much. */
    method Fill(loc: Path, part: string, ghost t: Tree, ghost sofar: seq<Tree>) returns (ghost trace: seq<Tree>)
      requires WellFormed(t) && loc != [] && IsDir(t, Parent(loc)) && !IsDir(t, Tmp(loc)) && Quiet(t, sofar, nodes)
      requires nodes[Tmp(loc) := File(part)] == t[Tmp(loc) := File(part)]
      modifies this
      ensures nodes == t[Tmp(loc) := File(part)] && Quiet(t, trace, nodes)
    {
      TransientStep(t, loc, part);
      assert !IsDir(nodes, Tmp(loc)) by { assert Tmp(loc) !in Dirs(t) && Tmp(loc) !in Dirs(nodes); }
      assert Do(nodes, WriteTmp(loc, part)) == t[Tmp(loc) := File(part)];
      QuietSnoc(t, sofar, nodes, WriteTmp(loc, part));
      nodes := nodes[Tmp(loc) := File(part)];
      trace := sofar + [nodes];
    }

    /** os.Rename into place; on a directory it fails and the transient file is removed. */
    method Publish(loc: Path) returns (ok: bool, ghost call: Call)
      requires WellFormed(nodes) && loc != [] && IsDir(nodes, Parent(loc)) && IsFile(nodes, Tmp(loc))
      modifies this
      ensures WellFormed(nodes) && ok == !IsDir(old(nodes), loc) && nodes == Do(old(nodes), call)
      ensures nodes == if ok then (old(nodes) - {Tmp(loc)})[loc := old(nodes)[Tmp(loc)]] else old(nodes) - {Tmp(loc)}
      ensures Dirs(nodes) == Dirs(old(nodes)) && (!ok ==> Visible(nodes) == old(Visible(nodes)))
    {
      TransientStep(nodes, loc, nodes[Tmp(loc)].content);
      ok := !IsDir(nodes, loc);
      if ok {
        nodes := (nodes - {Tmp(loc)})[loc := nodes[Tmp(loc)]];
        call := Rename(loc);
      } else {
        nodes := nodes - {Tmp(loc)};
        call := Remove(Tmp(loc));
      }
    }

    /** Fill the transient file and rename it. Until the rename nothing a reader sees has changed. */
    method Place(loc: Path, v: string) returns (ok: bool, ghost trace: seq<Tree>)
      requires WellFormed(nodes) && loc != [] && IsDir(nodes, Parent(loc)) && !IsDir(nodes, Tmp(loc))
      modifies this
      ensures WellFormed(nodes) && ok == !IsDir(old(nodes), loc)
      ensures nodes == if ok then (old(nodes) - {Tmp(loc)})[loc := File(v)] else old(nodes) - {Tmp(loc)}
      ensures trace != [] && Leading(trace, old(Visible(nodes)), nodes) && Chain(old(nodes), trace, nodes)
      ensures Dirs(nodes) == Dirs(old(nodes))
    {
      trace := WriteTransient(loc, v);
      ghost var filled, call := nodes, Mkdir([]);
      TransientKept(old(nodes), loc, v);
      ok, call := Publish(loc);
      QuietEnd(old(nodes), trace, filled, call);
      trace := trace + [nodes];
    }

    /** One property. */
    method WriteEntry(e: Entry) returns (ok: bool, ghost trace: seq<Tree>)
      requires WellFormed(nodes)
      modifies this
      ensures WellFormed(nodes) && Outcome(nodes, ok) == WriteOne(old(nodes), e)
      ensures Leading(trace, old(Visible(nodes)), nodes) && Chain(old(nodes), trace, nodes) && (ok ==> trace != [])
    {
      trace := [];
      if e.loc == [] { return false, []; }
      NotBlockedIff(nodes, e.loc);
      ok, trace := MkdirAll(Parent(e.loc));
      if !ok || IsDir(nodes, Tmp(e.loc)) {
        ChainEnds(old(nodes), trace, nodes);
        return false, trace;
      }
      assert Parent(e.loc) in nodes;
      ghost var d, more := nodes, [];
      ok, more := Place(e.loc, e.val);
      ChainAppend(old(nodes), trace, d, more, nodes);
      LeadingAppend(trace, more, old(Visible(nodes)), nodes);
      trace := trace + more;
    }

    /** The write pass. */
    method WriteEntries(es: seq<Entry>, ghost t0: Tree, ghost past: seq<Tree>)
      returns (ok: bool, ghost trace: seq<Tree>)
      requires Passing(t0, nodes, es, 0, nodes, past, [])
      modifies this
      ensures Passed(t0, old(nodes), es, Outcome(nodes, ok), past, trace)
    {
      ok, trace := true, [];
      var k := 0;
      while k < |es|
        invariant 0 <= k <= |es| && ok && Passing(t0, old(nodes), es, k, nodes, past, trace)
      {
        ghost var u := nodes;
        ghost var more;
        ok, more := WriteEntry(es[k]);
        PassingOn(t0, old(nodes), es, k, u, past, trace, more, Outcome(nodes, ok));
        trace := trace + more;
        if !ok { return; }
        k := k + 1;
      }
      PassEnds(t0, old(nodes), es, nodes, past, trace);
    }

    /** collectFiles: every regular file that is not transient, each once. */
    method CollectFiles() returns (out: seq<Path>)
      ensures forall p :: p in out <==> IsFile(nodes, p) && !IsTmp(p)
      ensures forall i, j :: 0 <= i < j < |out| ==> out[i] != out[j]
    {
      out := [];
      var todo := nodes.Keys;
      while todo != {}
        invariant todo <= nodes.Keys
        invariant forall p :: p in out <==> p in nodes && p !in todo && IsFile(nodes, p) && !IsTmp(p)
        invariant forall i, j :: 0 <= i < j < |out| ==> out[i] != out[j]
        decreases todo
      {
        var p :| p in todo;
        todo := todo - {p};
        if nodes[p].File? && !IsTmp(p) {
          out := out + [p];
        }
      }
    }

    /** The garbage-collection pass. */
    method SweepStale(want: set<Path>) returns (ghost trace: seq<Tree>)
      requires WellFormed(nodes)
      modifies this
      ensures WellFormed(nodes) && nodes == Sweep(old(nodes), want)
      ensures AllSweeping(old(nodes), want, trace)
      ensures Chain(old(nodes), trace, nodes)
    {
      var t := nodes;
      trace := [];
      var existing := CollectFiles();
      var i := 0;
      while i < |existing|
        invariant 0 <= i <= |existing| && SweptTo(t, want, existing, i, nodes, trace)
      {
        SweepOne(t, want, existing, i);
        if existing[i] !in want {
          SweptOn(t, want, existing, i, nodes, trace);
          nodes := nodes - {existing[i]};
          trace := trace + [nodes];
        }
        i := i + 1;
      }
      assert existing[..i] == existing;
      SweptSomeIsSweeping(t, want, existing);
    }

    /** pruneEmptyDirs: children first, then the directory itself unless it is the root. */
    method PruneEmptyDirs(dir: Path, ghost height: nat) returns (ghost trace: seq<Tree>)
      requires WellFormed(nodes) && forall p :: p in nodes ==> |p| <= height
      modifies this
      ensures WellFormed(nodes) && nodes == Pruned(old(nodes), dir)
      ensures Visible(nodes) == old(Visible(nodes)) && Showing(trace, Visible(nodes), Dirs(old(nodes)))
      ensures Chain(old(nodes), trace, nodes)
      decreases height - |dir|, 1
    {
      trace := [];
      ghost var t := nodes;
      PrunedWellFormed(t, dir);
      PrunedAllIsPruned(t, dir);
      PruneKeepsFiles(t, {dir});
      if !IsDir(nodes, dir) {
        NothingBelow(t, dir);
        return;
      }
      trace := PruneChildren(dir, height);
      PrunedFromChildren(t, dir);
      EmptyIffNoFile(t, dir);
      if dir != [] && forall c :: c in nodes && c != [] ==> Parent(c) != dir {
        NoChildNothingBelow(nodes, dir);
        ChainSnoc(t, trace, nodes, Remove(dir));
        nodes := nodes - {dir};
        trace := trace + [nodes];
      }
    }

    method PruneChildren(dir: Path, ghost height: nat) returns (ghost trace: seq<Tree>)
      requires WellFormed(nodes) && IsDir(nodes, dir) && forall p :: p in nodes ==> |p| <= height
      modifies this
      ensures nodes == PrunedAll(old(nodes), ChildDirs(old(nodes), dir))
      ensures WellFormed(nodes) && Showing(trace, old(Visible(nodes)), Dirs(old(nodes)))
      ensures Chain(old(nodes), trace, nodes)
      decreases height - |dir|, 0
    {
      trace := [];
      var t := nodes;
      var todo := set c | c in t && c != [] && Parent(c) == dir && t[c].Dir?;
      ghost var done: set<Path> := {};
      assert PrunedAll(t, {}) == t;
      while todo != {}
        invariant todo <= ChildDirs(t, dir) && done == ChildDirs(t, dir) - todo
        invariant WellFormed(nodes) && nodes == PrunedAll(t, done)
        invariant Visible(nodes) == Visible(t) && Showing(trace, Visible(t), Dirs(t))
        invariant Chain(t, trace, nodes)
        decreases todo
      {
        var c :| c in todo;
        ghost var u := nodes;
        ghost var more := PruneEmptyDirs(c, height);
        ChainAppend(t, trace, u, more, nodes);
        PrunedAllIsPruned(PrunedAll(t, done), c);
        PruneOneMore(t, done, c);
        trace, todo, done := trace + more, todo - {c}, done + {c};
      }
      assert done == ChildDirs(t, dir);
    }

    /** Garbage collection, then the writes. */
    method SweepAndWrite(es: seq<Entry>) returns (ok: bool, ghost trace: seq<Tree>)
      requires WellFormed(nodes)
      modifies this
      ensures WellFormed(nodes)
      ensures Outcome(nodes, ok) == WriteAll(Sweep(old(nodes), Locs(es)), es)
      ensures Synced(old(nodes), es, nodes, trace)
      ensures AllPlain(es) && ok ==>
                Writing(old(nodes), es, nodes, |es|) && Dirs(nodes) <= Dirs(old(nodes)) + Ancestors(es)
    {
      trace := SweepStale(Locs(es));
      SweepInOrder(old(nodes), es, trace);
      ghost var more;
      ok, more := WriteEntries(es, old(nodes), [old(nodes)] + trace);
      WrittenSync(old(nodes), es, Outcome(nodes, ok), trace, more);
      trace := trace + more;
    }

    /** A whole apply. `keys` lists the published keys in the order they are written, which is the
        sorted order; nothing below depends on it. The states on the way are linked by single calls and,
        for plain keys, put the entries in place one by one. */
    method Apply(keys: seq<string>, props: map<string, string>) returns (ok: bool, ghost trace: seq<Tree>)
      requires nodes == map[] || WellFormed(nodes)
      requires forall k :: k in keys <==> k in props
      requires forall k :: k in props ==> CheckKey(k).Accepted?
      modifies this
      ensures WellFormed(nodes)
      ensures Outcome(nodes, ok) == Applied(Rooted(old(nodes)), Entries(keys, props))
      ensures Synced(Rooted(old(nodes)), Entries(keys, props), nodes, trace)
    {
      nodes := if [] in nodes then nodes else map[[] := Dir];
      ghost var t0 := nodes;
      var es := Entries(keys, props);
      ok, trace := SweepAndWrite(es);
      if ok {
        ghost var height := Height(nodes);
        ghost var w := nodes;
        ghost var more := PruneEmptyDirs([], height);
        PrunedSync(t0, es, w, trace, more, nodes);
        trace := trace + more;
      }
    }

    method HandleMessage(s: PropertySet)
      requires ListsKeys(s) && (nodes == map[] || WellFormed(nodes))
      modifies this
      ensures nodes == map[] || WellFormed(nodes)
      ensures Rooted(nodes) == Handled(Rooted(old(nodes)), s)
    {
      if Valid(s) {
        ghost var trace;
        var ok;
        ok, trace := Apply(s.keys, s.props);
      }
    }

    /** A stream of published sets, from before the first: the runs the lemmas speak of. */
    method HandleMessages(sets: seq<PropertySet>)
      requires nodes == map[] && forall i :: 0 <= i < |sets| ==> ListsKeys(sets[i])
      modifies this
      ensures Rooted(nodes) == RunAll(Fresh, Published(sets))
    {
      var i := 0;
      while i < |sets|
        invariant 0 <= i <= |sets| && (nodes == map[] || WellFormed(nodes))
        invariant Rooted(nodes) == RunAll(Fresh, Published(sets[..i]))
      {
        HandleMessage(sets[i]);
        PublishedSnoc(sets, i);
        RunMore(Published(sets[..i]), sets[i]);
        i := i + 1;
      }
      assert sets[..i] == sets;
    }
  }
}
