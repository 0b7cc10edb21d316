/** The states a property sync goes through, which are those a crash or a concurrent reader can find:
    how single system calls link them, what each of them shows, and in which order. */
module PropertyTraces {
  import opened Keys
  import opened FileTree
  import opened PropertySync
  import opened PropertyRuns

  /** Properties in the order they are written. */
  function Entries(keys: seq<string>, props: map<string, string>): (es: seq<Entry>)
    requires forall k :: k in keys ==> k in props
    ensures |es| == |keys|
    ensures forall i :: 0 <= i < |keys| ==> es[i] == Entry(Segments(keys[i]), props[keys[i]])
  {
    seq(|keys|, i requires 0 <= i < |keys| => Entry(Segments(keys[i]), props[keys[i]]))
  }

  function Rooted(t: Tree): Tree {
    if [] in t then t else Fresh
  }

  // ----- system calls -----

  datatype Call = Mkdir(p: Path) | WriteTmp(p: Path, v: string) | Remove(p: Path) | Rename(p: Path)

  /** What a call does to the tree: nothing when it fails. Published names change only by a rename from
      their transient file or by a removal; directories go only when empty. */
  ghost function Do(t: Tree, c: Call): Tree {
    match c
    case Mkdir(p) => if p in t then t else t[p := Dir]
    case WriteTmp(p, v) => if p == [] || IsDir(t, Tmp(p)) then t else t[Tmp(p) := File(v)]
    case Remove(p) => if IsDir(t, p) && exists q :: q in t && Above(p, q) then t else t - {p}
    case Rename(p) =>
      if p == [] || !IsFile(t, Tmp(p)) || IsDir(t, p) then t else (t - {Tmp(p)})[p := t[Tmp(p)]]
  }

  ghost predicate Step(t: Tree, u: Tree) {
    exists c :: Do(t, c) == u
  }

  /** `trace` leads from t to u, one call at a time. */
  ghost predicate Chain(t: Tree, trace: seq<Tree>, u: Tree) {
    if trace == [] then t == u
    else trace[|trace| - 1] == u && exists before :: Chain(t, trace[..|trace| - 1], before) && Step(before, u)
  }

  lemma {:induction false} ChainSnoc(t: Tree, a: seq<Tree>, u: Tree, c: Call)
    requires Chain(t, a, u)
    ensures Chain(t, a + [Do(u, c)], Do(u, c))
  {
    var all := a + [Do(u, c)];
    assert all[..|a|] == a && Step(u, Do(u, c));
  }

  lemma {:induction false} ChainAppend(t: Tree, a: seq<Tree>, u: Tree, b: seq<Tree>, v: Tree)
    requires Chain(t, a, u) && Chain(u, b, v)
    ensures Chain(t, a + b, v)
  {
    if b == [] {
      assert a + b == a;
    } else {
      var n := |b| - 1;
      var before :| Chain(u, b[..n], before) && Step(before, v);
      ChainAppend(t, a, u, b[..n], before);
      assert (a + b)[..|a| + n] == a + b[..n];
    }
  }

  // ----- what every intermediate state shows -----

  ghost function Dirs(t: Tree): set<Path> {
    set p | p in t && t[p].Dir?
  }

  /** A sweep has removed some stale files and nothing else. */
  ghost predicate Sweeping(t0: Tree, want: set<Path>, t: Tree) {
    exists gone: set<Path> :: gone !! want && Visible(t) == Visible(t0) - gone
  }

  ghost function Kept(t: Tree, want: set<Path>): map<Path, string> {
    map p | p in Visible(t) && p in want :: Visible(t)[p]
  }

  /** Wanted old files, overwritten by the first n entries. */
  ghost predicate Writing(t0: Tree, es: seq<Entry>, t: Tree, n: nat) {
    n <= |es| && Visible(t) == Kept(t0, Locs(es)) + Latest(es[..n])
  }

  /** The entries in place when there are n of them, and the one that may be in the making. */
  function Reached(es: seq<Entry>, n: nat): seq<Entry> {
    if n < |es| then es[..n + 1] else es
  }

  /** A state of an apply to t0 that has put n entries in place: well formed, with no directory beyond
      the old ones and those that the entries reached so far need. */
  ghost predicate OnTheWay(t0: Tree, es: seq<Entry>, t: Tree, n: nat) {
    && WellFormed(t) && Dirs(t) <= Dirs(t0) + Ancestors(Reached(es, n))
    && (Writing(t0, es, t, n) || (n == 0 && Sweeping(t0, Locs(es), t)))
  }

  /** No entry is in the making. */
  ghost predicate Settled(t0: Tree, es: seq<Entry>, t: Tree, n: nat) {
    n <= |es| && Dirs(t) <= Dirs(t0) + Ancestors(es[..n])
  }

  ghost predicate InPhase(t0: Tree, es: seq<Entry>, t: Tree) {
    exists n :: 0 <= n <= |es| && OnTheWay(t0, es, t, n)
  }

  /** Atomicity: at every point each published file holds one whole value, its old one or one the
      set gives it, and a wanted file that was there before is never missing. */
  lemma NeverTorn(t0: Tree, es: seq<Entry>, t: Tree)
    requires InPhase(t0, es, t)
    ensures forall p :: p in Visible(t) ==>
              || (p in Visible(t0) && Visible(t)[p] == Visible(t0)[p])
              || exists e :: e in es && e.loc == p && Visible(t)[p] == e.val
    ensures forall p :: p in Visible(t0) && p in Locs(es) ==> p in Visible(t)
  {
    var n :| 0 <= n <= |es| && OnTheWay(t0, es, t, n);
    if Writing(t0, es, t, n) {
      forall p | p in Latest(es[..n]) ensures exists e :: e in es && e.loc == p && Latest(es[..n])[p] == e.val {
        var e := LatestComesFrom(es[..n], p);
      }
    }
  }

  lemma {:induction false} LatestComesFrom(es: seq<Entry>, p: Path) returns (e: Entry)
    requires p in Latest(es)
    ensures e in es && e.loc == p && e.val == Latest(es)[p]
  {
    var n := |es| - 1;
    if es[n].loc == p { e := es[n]; } else { e := LatestComesFrom(es[..n], p); }
  }

  /** Where nothing was published before, a reader sees the set cut off after the entries in place. */
  lemma EmptyShowsPrefix(t0: Tree, es: seq<Entry>, t: Tree, n: nat)
    requires Visible(t0) == map[] && OnTheWay(t0, es, t, n)
    ensures Visible(t) == Latest(es[..n])
  {
  }

  // ----- in which order they come -----

  /** From a state with n entries in place to one with m: the same number, or one more, just placed. */
  ghost predicate Follows(t0: Tree, es: seq<Entry>, n: nat, t: Tree, m: nat) {
    OnTheWay(t0, es, t, m) && (m == n || (m == n + 1 && Settled(t0, es, t, m)))
  }

  /** The states of an apply from t0 on, with the number of entries in place in each: it starts at none
      and no entry is skipped or taken back. */
  ghost predicate Recorded(t0: Tree, es: seq<Entry>, states: seq<Tree>, cuts: seq<nat>) {
    && |states| == |cuts| >= 1 && states[0] == t0 && cuts[0] == 0 && OnTheWay(t0, es, t0, 0)
    && forall i :: 0 < i < |states| ==> Follows(t0, es, cuts[i - 1], states[i], cuts[i])
  }

  ghost predicate InOrder(t0: Tree, es: seq<Entry>, states: seq<Tree>, n: nat) {
    exists cuts :: Recorded(t0, es, states, cuts) && cuts[|cuts| - 1] == n
  }

  lemma {:induction false} CutsGrow(t0: Tree, es: seq<Entry>, states: seq<Tree>, cuts: seq<nat>, i: nat, j: nat)
    requires Recorded(t0, es, states, cuts) && i <= j < |cuts|
    ensures cuts[i] <= cuts[j]
  {
    if i < j { CutsGrow(t0, es, states, cuts, i, j - 1); }
  }

  lemma {:induction false} EveryCutShows(t0: Tree, es: seq<Entry>, states: seq<Tree>, cuts: seq<nat>, c: nat, j: nat)
    returns (i: nat)
    requires Recorded(t0, es, states, cuts) && j < |cuts| && c <= cuts[j]
    ensures i <= j && cuts[i] == c && OnTheWay(t0, es, states[i], c) && Settled(t0, es, states[i], c)
  {
    if cuts[j] == c && (j == 0 || cuts[j - 1] < c) {
      i := j;
    } else {
      i := EveryCutShows(t0, es, states, cuts, c, j - 1);
    }
  }

  lemma {:induction false} EveryStateFits(t0: Tree, es: seq<Entry>, states: seq<Tree>, cuts: seq<nat>, i: nat)
    requires Recorded(t0, es, states, cuts) && i < |states|
    ensures OnTheWay(t0, es, states[i], cuts[i]) && cuts[i] <= |es|
  {
    if i > 0 { assert Follows(t0, es, cuts[i - 1], states[i], cuts[i]); }
  }

  lemma Begin(t0: Tree, es: seq<Entry>)
    requires WellFormed(t0)
    ensures InOrder(t0, es, [t0], 0)
  {
    var gone: set<Path> := {};
    assert Visible(t0) == Visible(t0) - gone;
    assert Recorded(t0, es, [t0], [0]);
  }

  lemma Extend(t0: Tree, es: seq<Entry>, states: seq<Tree>, n: nat, s: Tree, m: nat)
    requires InOrder(t0, es, states, n) && Follows(t0, es, n, s, m)
    ensures InOrder(t0, es, states + [s], m)
  {
    var cuts :| Recorded(t0, es, states, cuts) && cuts[|cuts| - 1] == n;
    RecordedSnoc(t0, es, states, cuts, s, m);
  }

  lemma RecordedSnoc(t0: Tree, es: seq<Entry>, states: seq<Tree>, cuts: seq<nat>, s: Tree, m: nat)
    requires Recorded(t0, es, states, cuts) && Follows(t0, es, cuts[|cuts| - 1], s, m)
    ensures Recorded(t0, es, states + [s], cuts + [m])
  {
    var states', cuts' := states + [s], cuts + [m];
    forall i | 0 < i < |states'| ensures Follows(t0, es, cuts'[i - 1], states'[i], cuts'[i]) {
      if i < |states| { assert Follows(t0, es, cuts[i - 1], states[i], cuts[i]); }
    }
  }

  lemma {:induction false} ExtendAll(t0: Tree, es: seq<Entry>, states: seq<Tree>, n: nat, more: seq<Tree>)
    requires InOrder(t0, es, states, n) && forall s :: s in more ==> OnTheWay(t0, es, s, n)
    ensures InOrder(t0, es, states + more, n)
  {
    if more == [] {
      assert states + more == states;
    } else {
      var init, last := more[..|more| - 1], more[|more| - 1];
      ExtendAll(t0, es, states, n, init);
      Extend(t0, es, states + init, n, last, n);
      InitAndLast(states, more);
    }
  }

  lemma OrderHasPhases(t0: Tree, es: seq<Entry>, states: seq<Tree>, n: nat)
    requires InOrder(t0, es, states, n)
    ensures forall s :: s in states ==> InPhase(t0, es, s)
  {
    var cuts :| Recorded(t0, es, states, cuts) && cuts[|cuts| - 1] == n;
    forall i | 0 <= i < |states| ensures InPhase(t0, es, states[i]) { EveryStateFits(t0, es, states, cuts, i); }
  }

  // ----- stretches of a trace -----

  /** Well-formed trees, all showing exactly these files, with no directories but these. */
  ghost predicate Showing(trace: seq<Tree>, files: map<Path, string>, dirs: set<Path>) {
    forall s :: s in trace ==> WellFormed(s) && Visible(s) == files && Dirs(s) <= dirs
  }

  /** The same up to the last one, which is this. */
  ghost predicate Leading(trace: seq<Tree>, files: map<Path, string>, last: Tree) {
    trace == [] || (Showing(trace[..|trace| - 1], files, Dirs(last)) && trace[|trace| - 1] == last)
  }

  lemma {:induction false} ShowingSnoc(trace: seq<Tree>, files: map<Path, string>, dirs: set<Path>, u: Tree)
    requires Showing(trace, files, dirs) && WellFormed(u) && Visible(u) == files && dirs <= Dirs(u)
    ensures Showing(trace + [u], files, Dirs(u))
  {
  }

  /** From t0 to u nothing changes but transient files. */
  ghost predicate Quiet(t0: Tree, trace: seq<Tree>, u: Tree) {
    && WellFormed(u) && Visible(u) == Visible(t0) && Dirs(u) == Dirs(t0)
    && Showing(trace, Visible(u), Dirs(u)) && Chain(t0, trace, u)
  }

  lemma {:induction false} QuietSnoc(t0: Tree, trace: seq<Tree>, u: Tree, c: Call)
    requires Quiet(t0, trace, u)
    requires WellFormed(Do(u, c)) && Visible(Do(u, c)) == Visible(u) && Dirs(Do(u, c)) == Dirs(u)
    ensures Quiet(t0, trace + [Do(u, c)], Do(u, c))
  {
    ChainSnoc(t0, trace, u, c);
    ShowingSnoc(trace, Visible(u), Dirs(u), Do(u, c));
  }

  lemma {:induction false} QuietEnd(t0: Tree, trace: seq<Tree>, u: Tree, c: Call)
    requires Quiet(t0, trace, u) && Dirs(Do(u, c)) == Dirs(u)
    ensures Leading(trace + [Do(u, c)], Visible(t0), Do(u, c)) && Chain(t0, trace + [Do(u, c)], Do(u, c))
  {
    ChainSnoc(t0, trace, u, c);
    assert (trace + [Do(u, c)])[..|trace|] == trace;
  }

  lemma {:induction false} ChainEnds(t: Tree, trace: seq<Tree>, u: Tree)
    requires Chain(t, trace, u) && Showing(trace, Visible(u), Dirs(u))
    ensures Leading(trace, Visible(u), u)
  {
  }

  lemma LeadingAppend(a: seq<Tree>, b: seq<Tree>, files: map<Path, string>, last: Tree)
    requires Showing(a, files, Dirs(last)) && b != [] && Leading(b, files, last)
    ensures Leading(a + b, files, last)
  {
  }

  lemma {:induction false} MkdirStep(t: Tree, d: Path)
    requires d != [] && d !in t
    ensures WithDirs(t, d) == WithDirs(t, Parent(d))[d := Dir]
    ensures Visible(WithDirs(t, d)) == Visible(t)
    ensures Dirs(WithDirs(t, Parent(d))) <= Dirs(WithDirs(t, d))
  {
    var r, x := WithDirs(t, d), WithDirs(t, Parent(d))[d := Dir];
    forall p ensures p in r <==> p in x { MkdirNode(t, d, p); }
    forall p | p in r ensures r[p] == x[p] { MkdirNode(t, d, p); }
    assert forall p :: p in r && p !in t ==> r[p] == Dir;
  }

  lemma {:induction false} MkdirNode(t: Tree, d: Path, p: Path)
    requires d != []
    ensures p in WithDirs(t, d) <==> p in t || p == d || Above(p, d)
    ensures p in WithDirs(t, Parent(d)) <==> p in t || Above(p, d)
  {
    UnderParent(p, d);
  }

  /** Making a directory that is there. */
  lemma {:induction false} MkdirThere(t: Tree, d: Path)
    requires WellFormed(t) && d in t
    ensures Blocked(t, d) <==> IsFile(t, d)
    ensures IsDir(t, d) ==> WithDirs(t, d) == t
  {
    forall i | 0 <= i < |d| ensures !IsFile(t, d[..i]) { assert Above(d[..i], d); }
    assert d[..|d|] == d;
  }

  lemma {:induction false} MkdirMissing(t: Tree, d: Path)
    requires d != [] && d !in t
    ensures Blocked(t, d) <==> Blocked(t, Parent(d))
  {
    assert d[..|d|] == d;
    assert forall i :: 0 <= i < |d| ==> d[..i] == Parent(d)[..i];
  }

  lemma TransientStep(t: Tree, p: Path, v: string)
    requires WellFormed(t) && p != [] && IsDir(t, Parent(p)) && !IsDir(t, Tmp(p))
    ensures WellFormed(t[Tmp(p) := File(v)]) && Visible(t[Tmp(p) := File(v)]) == Visible(t)
    ensures WellFormed(t - {Tmp(p)}) && Visible(t - {Tmp(p)}) == Visible(t)
    ensures !IsDir(t, p) ==> WellFormed((t - {Tmp(p)})[p := File(v)])
    ensures Dirs(t[Tmp(p) := File(v)]) == Dirs(t) && Dirs(t - {Tmp(p)}) == Dirs(t)
    ensures !IsDir(t, p) ==> Dirs((t - {Tmp(p)})[p := File(v)]) == Dirs(t)
  {
    forall q ensures Above(q, p) || Above(q, Tmp(p)) ==> IsDir(t, q) {
      if Above(q, Parent(p)) { assert Parent(p) in t; }
    }
  }

  lemma {:induction false} StoppedPass(t: Tree, es: seq<Entry>, k: nat)
    requires k < |es| && !WriteAll(t, es[..k + 1]).ok
    ensures WriteAll(t, es) == WriteAll(t, es[..k + 1]) && Completed(t, es) == Completed(t, es[..k + 1])
  {
    if k + 1 == |es| {
      assert es[..k + 1] == es;
    } else {
      var init := es[..|es| - 1];
      assert init[..k + 1] == es[..k + 1];
      StoppedPass(t, init, k);
    }
  }

  lemma {:induction false} WriteStep(s: Tree, u: Tree, es: seq<Entry>, k: nat)
    requires k < |es| && WriteAll(s, es[..k]) == Outcome(u, true)
    ensures WriteAll(s, es[..k + 1]) == WriteOne(u, es[k])
    ensures !WriteOne(u, es[k]).ok ==> WriteAll(s, es) == WriteOne(u, es[k]) && Completed(s, es) == k
  {
    assert es[..k + 1][..k] == es[..k];
    if !WriteOne(u, es[k]).ok { StoppedPass(s, es, k); }
  }

  lemma WriteOneOnTheWay(t0: Tree, es: seq<Entry>, u: Tree, k: nat)
    requires k < |es| && AllPlain(es) && Writing(t0, es, u, k) && Settled(t0, es, u, k)
    requires WellFormed(WriteOne(u, es[k]).tree)
    ensures var r := WriteOne(u, es[k]);
            var m := if r.ok then k + 1 else k;
            Writing(t0, es, r.tree, m) && Follows(t0, es, k, r.tree, m) && Settled(t0, es, r.tree, k + 1)
  {
    WriteOneWrites(t0, es, u, k);
    WriteOneSettles(t0, es, u, k);
    ReachedGrows(es, k);
  }

  lemma {:induction false} WriteOneWrites(t0: Tree, es: seq<Entry>, u: Tree, k: nat)
    requires k < |es| && AllPlain(es) && Writing(t0, es, u, k)
    ensures var r := WriteOne(u, es[k]); Writing(t0, es, r.tree, if r.ok then k + 1 else k)
  {
    WriteOneVisible(u, es[k]);
    LatestSnoc(es, k);
    OverwriteAssociates(Kept(t0, Locs(es)), Latest(es[..k]), es[k].loc, es[k].val);
  }

  lemma {:induction false} WriteOneSettles(t0: Tree, es: seq<Entry>, u: Tree, k: nat)
    requires k < |es| && Settled(t0, es, u, k)
    ensures Settled(t0, es, WriteOne(u, es[k]).tree, k + 1)
  {
    WriteOneDirs(u, es, k);
    AncestorsGrow(es, k, k + 1);
  }

  lemma {:induction false} ReachedGrows(es: seq<Entry>, k: nat)
    requires k < |es|
    ensures Reached(es, k) == es[..k + 1] && Ancestors(es[..k + 1]) <= Ancestors(Reached(es, k + 1))
  {
    if k + 1 < |es| { AncestorsGrow(es, k + 1, k + 2); } else { assert es[..k + 1] == es; }
  }

  lemma WriteOneDirs(u: Tree, es: seq<Entry>, k: nat)
    requires k < |es|
    ensures Dirs(WriteOne(u, es[k]).tree) <= Dirs(u) + Ancestors(es[..k + 1])
  {
    assert es[..k + 1][k] == es[k];
  }

  lemma {:induction false} AncestorsGrow(es: seq<Entry>, n: nat, m: nat)
    requires n <= m <= |es|
    ensures Ancestors(es[..n]) <= Ancestors(es[..m]) <= Ancestors(es)
  {
    assert es[..m][..n] == es[..n];
    assert forall e :: e in es[..n] ==> e in es[..m];
    assert forall e :: e in es[..m] ==> e in es;
  }

  /** Where a write pass over swept tree `s` stands after k entries. */
  ghost predicate PassAt(t0: Tree, s: Tree, es: seq<Entry>, k: nat, u: Tree, states: seq<Tree>) {
    && k <= |es| && WellFormed(u) && WriteAll(s, es[..k]) == Outcome(u, true)
    && (AllPlain(es) ==> Writing(t0, es, u, k) && Settled(t0, es, u, k) && InOrder(t0, es, states, k))
  }

  ghost predicate PassOver(t0: Tree, s: Tree, es: seq<Entry>, r: Outcome, states: seq<Tree>) {
    && WellFormed(r.tree) && r == WriteAll(s, es)
    && (AllPlain(es) ==>
          var n := Completed(s, es);
          Writing(t0, es, r.tree, n) && Dirs(r.tree) <= Dirs(t0) + Ancestors(es) && InOrder(t0, es, states, n))
  }

  lemma {:induction false} PassAdvances(t0: Tree, s: Tree, es: seq<Entry>, k: nat, u: Tree, states: seq<Tree>,
                                        more: seq<Tree>, r: Outcome)
    requires k < |es| && PassAt(t0, s, es, k, u, states)
    requires r == WriteOne(u, es[k]) && WellFormed(r.tree) && Leading(more, Visible(u), r.tree) && (r.ok ==> more != [])
    ensures r.ok ==> PassAt(t0, s, es, k + 1, r.tree, states + more)
    ensures !r.ok ==> PassOver(t0, s, es, r, states + more)
  {
    WriteStep(s, u, es, k);
    if AllPlain(es) {
      WriteOneOnTheWay(t0, es, u, k);
      ExtendLeading(t0, es, states, k, u, more, r.tree, if r.ok then k + 1 else k);
      AncestorsGrow(es, k + 1, |es|);
    }
  }

  lemma {:induction false} ExtendLeading(t0: Tree, es: seq<Entry>, states: seq<Tree>, k: nat, u: Tree,
                                         more: seq<Tree>, last: Tree, m: nat)
    requires k < |es| && InOrder(t0, es, states, k) && Writing(t0, es, u, k) && Leading(more, Visible(u), last)
    requires Follows(t0, es, k, last, m) && Settled(t0, es, last, k + 1) && (more == [] ==> m == k)
    ensures InOrder(t0, es, states + more, m)
  {
    if more == [] {
      assert states + more == states;
    } else {
      var init := more[..|more| - 1];
      forall s | s in init ensures OnTheWay(t0, es, s, k) { OnTheWayBefore(t0, es, k, u, last, s); }
      ExtendAll(t0, es, states, k, init);
      Extend(t0, es, states + init, k, last, m);
      InitAndLast(states, more);
    }
  }

  lemma {:induction false} OnTheWayBefore(t0: Tree, es: seq<Entry>, k: nat, u: Tree, last: Tree, s: Tree)
    requires k < |es| && Writing(t0, es, u, k) && Settled(t0, es, last, k + 1)
    requires WellFormed(s) && Visible(s) == Visible(u) && Dirs(s) <= Dirs(last)
    ensures OnTheWay(t0, es, s, k)
  {
  }

  lemma InitAndLast(states: seq<Tree>, more: seq<Tree>)
    requires more != []
    ensures states + more[..|more| - 1] + [more[|more| - 1]] == states + more
  {
  }

  lemma Assoc(a: seq<Tree>, b: seq<Tree>, c: seq<Tree>)
    ensures a + b + c == a + (b + c)
  {
  }

  /** `t` with the stale files among `done` removed. */
  function SweptSome(t: Tree, want: set<Path>, done: seq<Path>): Tree {
    map p | p in t && !(Stale(t, want, p) && p in done) :: t[p]
  }

  lemma SweepOne(t: Tree, want: set<Path>, files: seq<Path>, i: nat)
    requires i < |files| && IsFile(t, files[i]) && !IsTmp(files[i])
    ensures SweptSome(t, want, files[..i + 1]) ==
            if files[i] in want then SweptSome(t, want, files[..i]) else SweptSome(t, want, files[..i]) - {files[i]}
  {
  }

  lemma SweptSomeIsSweeping(t: Tree, want: set<Path>, done: seq<Path>)
    requires WellFormed(t)
    ensures WellFormed(SweptSome(t, want, done)) && Sweeping(t, want, SweptSome(t, want, done))
    ensures Dirs(SweptSome(t, want, done)) == Dirs(t)
    ensures (forall p :: Stale(t, want, p) ==> p in done) ==> SweptSome(t, want, done) == Sweep(t, want)
  {
    var gone := set p | p in done && Stale(t, want, p);
    assert Visible(SweptSome(t, want, done)) == Visible(t) - gone;
  }

  ghost predicate AllSweeping(t: Tree, want: set<Path>, trace: seq<Tree>) {
    forall s :: s in trace ==> WellFormed(s) && Sweeping(t, want, s) && Dirs(s) == Dirs(t)
  }

  /** A sweep has got as far as file i of the list. */
  ghost predicate SweptTo(t: Tree, want: set<Path>, files: seq<Path>, i: nat, u: Tree, trace: seq<Tree>) {
    i <= |files| && u == SweptSome(t, want, files[..i]) && AllSweeping(t, want, trace) && Chain(t, trace, u)
  }

  lemma {:induction false} SweptOn(t: Tree, want: set<Path>, files: seq<Path>, i: nat, u: Tree, trace: seq<Tree>)
    requires WellFormed(t) && i < |files| && IsFile(t, files[i]) && !IsTmp(files[i]) && files[i] !in want
    requires SweptTo(t, want, files, i, u, trace)
    ensures SweptTo(t, want, files, i + 1, u - {files[i]}, trace + [u - {files[i]}])
  {
    SweepOne(t, want, files, i);
    SweptSomeIsSweeping(t, want, files[..i + 1]);
    assert !IsDir(u, files[i]) && Do(u, Remove(files[i])) == u - {files[i]};
    ChainSnoc(t, trace, u, Remove(files[i]));
  }

  /** What the transient file leaves when it goes. */
  lemma {:induction false} TransientKept(t: Tree, p: Path, v: string)
    requires WellFormed(t) && p != [] && IsDir(t, Parent(p)) && !IsDir(t, Tmp(p))
    ensures var u := t[Tmp(p) := File(v)];
            && IsDir(u, Parent(p)) && IsFile(u, Tmp(p)) && (IsDir(u, p) <==> IsDir(t, p))
            && u - {Tmp(p)} == t - {Tmp(p)}
  {
  }

  lemma SweptShowsKept(t: Tree, want: set<Path>)
    ensures Visible(Sweep(t, want)) == Kept(t, want)
  {
  }

  /** The same with the calls made since the sweep. */
  ghost predicate Passing(t0: Tree, s: Tree, es: seq<Entry>, k: nat, u: Tree, past: seq<Tree>, trace: seq<Tree>) {
    PassAt(t0, s, es, k, u, past + trace) && Chain(s, trace, u)
  }

  ghost predicate Passed(t0: Tree, s: Tree, es: seq<Entry>, r: Outcome, past: seq<Tree>, trace: seq<Tree>) {
    PassOver(t0, s, es, r, past + trace) && Chain(s, trace, r.tree)
  }

  lemma {:induction false} PassingOn(t0: Tree, s: Tree, es: seq<Entry>, k: nat, u: Tree, past: seq<Tree>,
                                     trace: seq<Tree>, more: seq<Tree>, r: Outcome)
    requires k < |es| && Passing(t0, s, es, k, u, past, trace)
    requires r == WriteOne(u, es[k]) && WellFormed(r.tree) && Leading(more, Visible(u), r.tree) && (r.ok ==> more != [])
    requires Chain(u, more, r.tree)
    ensures r.ok ==> Passing(t0, s, es, k + 1, r.tree, past, trace + more)
    ensures !r.ok ==> Passed(t0, s, es, r, past, trace + more)
  {
    PassAdvances(t0, s, es, k, u, past + trace, more, r);
    ChainAppend(s, trace, u, more, r.tree);
    Assoc(past, trace, more);
  }

  lemma PassEnds(t0: Tree, s: Tree, es: seq<Entry>, u: Tree, past: seq<Tree>, trace: seq<Tree>)
    requires Passing(t0, s, es, |es|, u, past, trace)
    ensures Passed(t0, s, es, Outcome(u, true), past, trace)
  {
    assert es[..|es|] == es;
  }

  /** A finished sweep is where the writes begin. */
  lemma SweepInOrder(t0: Tree, es: seq<Entry>, trace: seq<Tree>)
    requires WellFormed(t0) && WellFormed(Sweep(t0, Locs(es))) && AllSweeping(t0, Locs(es), trace)
    ensures InOrder(t0, es, [t0] + trace, 0)
    ensures var s := Sweep(t0, Locs(es)); Passing(t0, s, es, 0, s, [t0] + trace, [])
  {
    Begin(t0, es);
    ExtendAll(t0, es, [t0], 0, trace);
    SweptShowsKept(t0, Locs(es));
    assert Kept(t0, Locs(es)) + Latest([]) == Kept(t0, Locs(es)) && es[..0] == [];
    assert [t0] + trace + [] == [t0] + trace;
  }

  lemma PruneInOrder(t0: Tree, es: seq<Entry>, states: seq<Tree>, w: Tree, trace: seq<Tree>)
    requires InOrder(t0, es, states, |es|) && Writing(t0, es, w, |es|) && Dirs(w) <= Dirs(t0) + Ancestors(es)
    requires Showing(trace, Visible(w), Dirs(w))
    ensures InOrder(t0, es, states + trace, |es|)
  {
    ExtendAll(t0, es, states, |es|, trace);
  }

  /** An apply from t0 has written, and may have pruned since. */
  ghost predicate Synced(t0: Tree, es: seq<Entry>, u: Tree, trace: seq<Tree>) {
    && Chain(t0, trace, u)
    && (AllPlain(es) ==> InOrder(t0, es, [t0] + trace, Completed(Sweep(t0, Locs(es)), es)))
  }

  lemma {:induction false} WrittenSync(t0: Tree, es: seq<Entry>, r: Outcome, swept: seq<Tree>, trace: seq<Tree>)
    requires var s := Sweep(t0, Locs(es)); Chain(t0, swept, s) && Passed(t0, s, es, r, [t0] + swept, trace)
    ensures Synced(t0, es, r.tree, swept + trace)
  {
    ChainAppend(t0, swept, Sweep(t0, Locs(es)), trace, r.tree);
    Assoc([t0], swept, trace);
  }

  lemma {:induction false} PrunedSync(t0: Tree, es: seq<Entry>, w: Tree, trace: seq<Tree>, more: seq<Tree>, u: Tree)
    requires Synced(t0, es, w, trace) && Completed(Sweep(t0, Locs(es)), es) == |es|
    requires AllPlain(es) ==> Writing(t0, es, w, |es|) && Dirs(w) <= Dirs(t0) + Ancestors(es)
    requires Showing(more, Visible(w), Dirs(w)) && Chain(w, more, u)
    ensures Synced(t0, es, u, trace + more)
  {
    ChainAppend(t0, trace, w, more, u);
    if AllPlain(es) { PruneInOrder(t0, es, [t0] + trace, w, more); }
    Assoc([t0], trace, more);
  }
}
