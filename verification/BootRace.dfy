/** Reading the boot request while the first property set is being written. Keys are put in place in
    sorted order and the four fields are read one after another, so a reader may see part of a request. */
module BootRace {
  import opened Keys
  import opened FileTree
  import opened PropertySync
  import opened PropertyRuns
  import opened PropertyTraces
  import opened PropertyTrees
  import opened BootConfig
  import opened BootRunner

  // ----- sorted keys -----

  /** sort.Strings order: a ends, or is smaller, where the two first differ. */
  predicate LessAt(a: string, b: string, i: nat) {
    i <= |a| && i < |b| && a[..i] == b[..i] && (i == |a| || a[i] < b[i])
  }

  ghost predicate Less(a: string, b: string) {
    exists i :: 0 <= i < |b| && LessAt(a, b, i)
  }

  ghost predicate Ascending(keys: seq<string>) {
    forall i, j :: 0 <= i < j < |keys| ==> Less(keys[i], keys[j])
  }

  /** The script sorts first, then the kind, then ref and url. */
  lemma BootKeysOrdered()
    ensures Less(ScriptKey, KindKey) && Less(ScriptKey, RefKey) && Less(ScriptKey, UrlKey)
    ensures Less(KindKey, RefKey) && Less(KindKey, UrlKey)
  {
    assert LessAt(ScriptKey, KindKey, 11) && LessAt(ScriptKey, RefKey, 11) && LessAt(ScriptKey, UrlKey, 11);
    assert LessAt(KindKey, RefKey, 17) && LessAt(KindKey, UrlKey, 17);
  }

  lemma EarlierKeySeen(keys: seq<string>, first: string, second: string, c: nat)
    requires Ascending(keys) && Less(first, second) && c <= |keys| && first in keys && second in keys[..c]
    ensures first in keys[..c]
  {
    var i :| 0 <= i < |keys| && keys[i] == first;
    var j :| 0 <= j < c && keys[j] == second;
  }

  lemma LaterKeyUnseen(keys: seq<string>, first: string, second: string, j: nat)
    requires Ascending(keys) && Less(first, second) && j < |keys| && keys[j] == first
    ensures second !in keys[..j + 1]
  {
  }

  // ----- one field at one cut -----

  lemma {:induction false} LatestHasIt(es: seq<Entry>, i: nat)
    requires i < |es| && forall j :: i < j < |es| ==> es[j].loc != es[i].loc
    ensures es[i].loc in Latest(es) && Latest(es)[es[i].loc] == es[i].val
  {
    var n := |es| - 1;
    if i < n { LatestHasIt(es[..n], i); }
  }

  lemma {:induction false} LatestIndex(es: seq<Entry>, p: Path) returns (i: nat)
    requires p in Latest(es)
    ensures i < |es| && es[i].loc == p
  {
    i := |es| - 1;
    if es[i].loc != p { i := LatestIndex(es[..i], p); }
  }

  lemma {:induction false} SettledEarly(es: seq<Entry>, j: nat, c: nat)
    requires j < c <= |es| && forall m :: j < m < |es| ==> es[m].loc != es[j].loc
    ensures es[j].loc in Latest(es[..c]) && es[j].loc in Latest(es)
    ensures Latest(es[..c])[es[j].loc] == Latest(es)[es[j].loc]
  {
    LatestHasIt(es, j);
    LatestHasIt(es[..c], j);
  }

  /** The entries come from these keys, and `key` is the only one of them that lives at `at`. */
  ghost predicate OnlyAt(keys: seq<string>, es: seq<Entry>, key: string, at: Path) {
    && |es| == |keys| && (forall m :: 0 <= m < |es| ==> es[m].loc == Segments(keys[m]))
    && Segments(key) == at && forall m :: 0 <= m < |keys| && Segments(keys[m]) == at ==> keys[m] == key
  }

  /** A field reads as nothing until its key is in place, and as its final value from then on. */
  lemma {:induction false} SeenAtCut(keys: seq<string>, es: seq<Entry>, key: string, at: Path, c: nat)
    requires Ascending(keys) && OnlyAt(keys, es, key, at) && c <= |keys|
    ensures FieldOf(Latest(es[..c]), at) == if key in keys[..c] then FieldOf(Latest(es), at) else ""
  {
    if key in keys[..c] {
      var j :| 0 <= j < c && keys[j] == key;
      SettledEarly(es, j, c);
    } else {
      assert at !in Locs(es[..c]);
    }
  }

  lemma {:induction false} AbsentKey(keys: seq<string>, es: seq<Entry>, key: string, at: Path)
    requires Ascending(keys) && OnlyAt(keys, es, key, at) && FieldOf(Latest(es), at) != ""
    ensures key in keys
  {
    var i := LatestIndex(es, at);
  }

  // ----- the whole request -----

  /** Only the canonical spelling is used for the boot keys. */
  ghost predicate Canonical(keys: seq<string>, es: seq<Entry>) {
    |es| == |keys| && forall f :: 0 <= f < 4 ==> OnlyAt(keys, es, BootKeys[f], FieldsAt[f])
  }

  function Seen(es: seq<Entry>, c0: nat, c1: nat, c2: nat, c3: nat): Config
    requires c0 <= c1 <= c2 <= c3 <= |es|
  {
    ConfigFrom([Latest(es[..c0]), Latest(es[..c1]), Latest(es[..c2]), Latest(es[..c3])])
  }

  /** The request that is being published. */
  function Final(es: seq<Entry>): Config {
    ConfigFrom([Latest(es), Latest(es), Latest(es), Latest(es)])
  }

  /** What a publisher can check beforehand: nothing is requested, or nothing but a kind or a script,
      one of them alone. */
  predicate Indivisible(f: Config) {
    IsEmpty(f) || (f.url == "" && f.ref == "" && (f.kind == "" || Blank(f.script)))
  }

  predicate WholeOrEmpty(es: seq<Entry>, c: Config) {
    IsEmpty(c) || c == Final(es)
  }

  lemma FieldsAtCuts(keys: seq<string>, es: seq<Entry>, c0: nat, c1: nat, c2: nat, c3: nat)
    requires Ascending(keys) && Canonical(keys, es) && c0 <= c1 <= c2 <= c3 <= |es|
    ensures var s, f := Seen(es, c0, c1, c2, c3), Final(es);
            && s.kind == (if KindKey in keys[..c0] then f.kind else "")
            && s.url == (if UrlKey in keys[..c1] then f.url else "")
            && s.ref == (if RefKey in keys[..c2] then f.ref else "")
            && s.script == (if ScriptKey in keys[..c3] then f.script else "")
  {
    SeenAtCut(keys, es, BootKeys[0], FieldsAt[0], c0);
    SeenAtCut(keys, es, BootKeys[1], FieldsAt[1], c1);
    SeenAtCut(keys, es, BootKeys[2], FieldsAt[2], c2);
    SeenAtCut(keys, es, BootKeys[3], FieldsAt[3], c3);
  }

  /** Whoever sees the kind sees the final script: it is in place before the kind is. */
  lemma KindNeverOutrunsScript(keys: seq<string>, es: seq<Entry>, c0: nat, c1: nat, c2: nat, c3: nat)
    requires Ascending(keys) && Canonical(keys, es) && c0 <= c1 <= c2 <= c3 <= |es|
    requires Seen(es, c0, c1, c2, c3).kind != ""
    ensures Seen(es, c0, c1, c2, c3).kind == Final(es).kind && Seen(es, c0, c1, c2, c3).script == Final(es).script
  {
    FieldsAtCuts(keys, es, c0, c1, c2, c3);
    PresentKeys(keys, es);
    if ScriptKey in keys { ScriptSeenWithKind(keys, c0, c3); }
  }

  lemma ScriptSeenWithKind(keys: seq<string>, c0: nat, c3: nat)
    requires Ascending(keys) && c0 <= c3 <= |keys| && ScriptKey in keys && KindKey in keys[..c0]
    ensures ScriptKey in keys[..c3]
  {
    BootKeysOrdered();
    EarlierKeySeen(keys, ScriptKey, KindKey, c0);
  }

  lemma PresentKeys(keys: seq<string>, es: seq<Entry>)
    requires Ascending(keys) && Canonical(keys, es)
    ensures Final(es).script != "" ==> ScriptKey in keys
    ensures Final(es).kind != "" ==> KindKey in keys
  {
    if Final(es).script != "" { AbsentKey(keys, es, BootKeys[3], FieldsAt[3]); }
    if Final(es).kind != "" { AbsentKey(keys, es, BootKeys[0], FieldsAt[0]); }
  }

  /** An indivisible request is never seen in part. */
  lemma IndivisibleIsWhole(keys: seq<string>, es: seq<Entry>, c0: nat, c1: nat, c2: nat, c3: nat)
    requires Ascending(keys) && Canonical(keys, es) && c0 <= c1 <= c2 <= c3 <= |es| && Indivisible(Final(es))
    ensures WholeOrEmpty(es, Seen(es, c0, c1, c2, c3))
  {
    FieldsAtCuts(keys, es, c0, c1, c2, c3);
    if Seen(es, c0, c1, c2, c3).kind != "" { KindNeverOutrunsScript(keys, es, c0, c1, c2, c3); }
  }

  /** Any other is, by a reader that is quick enough to see one state of the tree four times. */
  lemma DivisibleIsCut(keys: seq<string>, es: seq<Entry>) returns (c: nat)
    requires Ascending(keys) && Canonical(keys, es) && !Indivisible(Final(es))
    ensures 0 < c <= |es| && !WholeOrEmpty(es, Seen(es, c, c, c, c))
    ensures keys[c - 1] == ScriptKey || (keys[c - 1] == KindKey && Blank(Final(es).script))
  {
    if !Blank(Final(es).script) {
      c := ScriptAlone(keys, es);
    } else {
      c := KindAlone(keys, es);
    }
    Part(Final(es), Seen(es, c, c, c, c));
  }

  lemma Part(f: Config, s: Config)
    requires !Indivisible(f)
    requires s == if Blank(f.script) then Config(f.kind, "", "", s.script) else Config("", "", "", f.script)
    ensures !IsEmpty(s) && s != f
  {
  }

  lemma ScriptAlone(keys: seq<string>, es: seq<Entry>) returns (c: nat)
    requires Ascending(keys) && Canonical(keys, es) && !Blank(Final(es).script)
    ensures 0 < c <= |es| && keys[c - 1] == ScriptKey
    ensures Seen(es, c, c, c, c) == Config("", "", "", Final(es).script)
  {
    PresentKeys(keys, es);
    c := CutAfterScript(keys);
    FieldsAtCuts(keys, es, c, c, c, c);
  }

  lemma KindAlone(keys: seq<string>, es: seq<Entry>) returns (c: nat)
    requires Ascending(keys) && Canonical(keys, es) && Final(es).kind != ""
    ensures 0 < c <= |es| && keys[c - 1] == KindKey
    ensures var s := Seen(es, c, c, c, c); s == Config(Final(es).kind, "", "", s.script)
  {
    PresentKeys(keys, es);
    c := CutAfterKind(keys);
    FieldsAtCuts(keys, es, c, c, c, c);
  }

  lemma CutAfter(keys: seq<string>, key: string) returns (c: nat)
    requires key in keys
    ensures 0 < c <= |keys| && keys[c - 1] == key && key in keys[..c]
  {
    var j :| 0 <= j < |keys| && keys[j] == key;
    c := j + 1;
  }

  lemma CutAfterScript(keys: seq<string>) returns (c: nat)
    requires Ascending(keys) && ScriptKey in keys
    ensures 0 < c <= |keys| && keys[c - 1] == ScriptKey && ScriptKey in keys[..c]
    ensures KindKey !in keys[..c] && RefKey !in keys[..c] && UrlKey !in keys[..c]
  {
    BootKeysOrdered();
    c := CutAfter(keys, ScriptKey);
    LaterKeyUnseen(keys, ScriptKey, KindKey, c - 1);
    LaterKeyUnseen(keys, ScriptKey, RefKey, c - 1);
    LaterKeyUnseen(keys, ScriptKey, UrlKey, c - 1);
  }

  lemma CutAfterKind(keys: seq<string>) returns (c: nat)
    requires Ascending(keys) && KindKey in keys
    ensures 0 < c <= |keys| && keys[c - 1] == KindKey && KindKey in keys[..c]
    ensures RefKey !in keys[..c] && UrlKey !in keys[..c]
  {
    BootKeysOrdered();
    c := CutAfter(keys, KindKey);
    LaterKeyUnseen(keys, KindKey, RefKey, c - 1);
    LaterKeyUnseen(keys, KindKey, UrlKey, c - 1);
  }

  ghost predicate AlwaysWhole(es: seq<Entry>) {
    forall c0, c1, c2, c3 :: 0 <= c0 <= c1 <= c2 <= c3 <= |es| ==> WholeOrEmpty(es, Seen(es, c0, c1, c2, c3))
  }

  /** Exactly which requests every reader of the first publication sees whole or not at all. */
  lemma AlwaysWholeIff(keys: seq<string>, es: seq<Entry>)
    requires Ascending(keys) && Canonical(keys, es)
    ensures AlwaysWhole(es) <==> Indivisible(Final(es))
  {
    if Indivisible(Final(es)) {
      forall c0, c1, c2, c3 | 0 <= c0 <= c1 <= c2 <= c3 <= |es|
        ensures WholeOrEmpty(es, Seen(es, c0, c1, c2, c3))
      {
        IndivisibleIsWhole(keys, es, c0, c1, c2, c3);
      }
    } else {
      var c := DivisibleIsCut(keys, es);
    }
  }

  // ----- reads in the states of an apply -----

  /** Nothing is at the boot fields, whatever else the tree holds. */
  predicate NoBootFields(t: Tree) {
    forall f :: 0 <= f < 4 ==> FieldsAt[f] !in t
  }

  lemma {:induction false} FieldShown(t0: Tree, es: seq<Entry>, t: Tree, n: nat, f: nat)
    requires NoBootFields(t0) && OnTheWay(t0, es, t, n) && n <= |es| && f < 4
    ensures FieldOf(Visible(t), FieldsAt[f]) == FieldOf(Latest(es[..n]), FieldsAt[f])
  {
    assert FieldsAt[f] !in Visible(t0);
  }

  /** Four reads in any states of an apply, in order, see the set cut off four times, ever later. */
  lemma {:induction false} ReadsAreCuts(t0: Tree, es: seq<Entry>, states: seq<Tree>, n: nat,
                                        i0: nat, i1: nat, i2: nat, i3: nat)
    returns (c0: nat, c1: nat, c2: nat, c3: nat)
    requires NoBootFields(t0) && InOrder(t0, es, states, n) && i0 <= i1 <= i2 <= i3 < |states|
    ensures c0 <= c1 <= c2 <= c3 <= |es| && OnTheWay(t0, es, states[i3], c3)
    ensures var r := ReadAt([states[i0], states[i1], states[i2], states[i3]]);
            r.Got? ==> r.value == Seen(es, c0, c1, c2, c3)
  {
    var cuts :| Recorded(t0, es, states, cuts) && cuts[|cuts| - 1] == n;
    c0, c1, c2, c3 := cuts[i0], cuts[i1], cuts[i2], cuts[i3];
    CutsGrow(t0, es, states, cuts, i0, i1);
    CutsGrow(t0, es, states, cuts, i1, i2);
    CutsGrow(t0, es, states, cuts, i2, i3);
    EveryStateFits(t0, es, states, cuts, i0);
    EveryStateFits(t0, es, states, cuts, i1);
    EveryStateFits(t0, es, states, cuts, i2);
    EveryStateFits(t0, es, states, cuts, i3);
    FieldShown(t0, es, states[i0], c0, 0);
    FieldShown(t0, es, states[i1], c1, 1);
    FieldShown(t0, es, states[i2], c2, 2);
    FieldShown(t0, es, states[i3], c3, 3);
  }

  ghost predicate ReadsWhole(es: seq<Entry>, states: seq<Tree>, i0: nat, i1: nat, i2: nat, i3: nat)
    requires i0 <= i1 <= i2 <= i3 < |states|
  {
    var r := ReadAt([states[i0], states[i1], states[i2], states[i3]]);
    r.Failed? || WholeOrEmpty(es, r.value)
  }

  ghost predicate AllReadsWhole(es: seq<Entry>, states: seq<Tree>) {
    forall i0, i1, i2, i3 :: 0 <= i0 <= i1 <= i2 <= i3 < |states| ==> ReadsWhole(es, states, i0, i1, i2, i3)
  }

  /** During a first publication an indivisible request is read whole, or empty, or not at all. */
  lemma {:induction false} IndivisibleIsReadWhole(t0: Tree, keys: seq<string>, es: seq<Entry>, states: seq<Tree>,
                                                  n: nat, i0: nat, i1: nat, i2: nat, i3: nat)
    requires Ascending(keys) && Canonical(keys, es) && Indivisible(Final(es))
    requires NoBootFields(t0) && InOrder(t0, es, states, n) && i0 <= i1 <= i2 <= i3 < |states|
    ensures ReadsWhole(es, states, i0, i1, i2, i3)
  {
    var c0, c1, c2, c3 := ReadsAreCuts(t0, es, states, n, i0, i1, i2, i3);
    IndivisibleIsWhole(keys, es, c0, c1, c2, c3);
  }

  lemma {:induction false} AllIndivisibleReadsWhole(t0: Tree, keys: seq<string>, es: seq<Entry>, states: seq<Tree>,
                                                    n: nat)
    requires Ascending(keys) && Canonical(keys, es) && Indivisible(Final(es))
    requires NoBootFields(t0) && InOrder(t0, es, states, n)
    ensures AllReadsWhole(es, states)
  {
    forall i0, i1, i2, i3 | 0 <= i0 <= i1 <= i2 <= i3 < |states| ensures ReadsWhole(es, states, i0, i1, i2, i3) {
      IndivisibleIsReadWhole(t0, keys, es, states, n, i0, i1, i2, i3);
    }
  }

  // ----- where a cut can be read -----

  /** No entry up to cut c lies below a boot field. */
  ghost predicate LeavesUpTo(es: seq<Entry>, c: nat)
    requires c <= |es|
  {
    forall f :: 0 <= f < 4 ==> FieldsAt[f] !in Ancestors(es[..c])
  }

  lemma {:induction false} ReadableThere(t0: Tree, es: seq<Entry>, s: Tree, c: nat, f: nat)
    requires c <= |es| && OnTheWay(t0, es, s, c) && Settled(t0, es, s, c) && NoBootFields(t0) && LeavesUpTo(es, c)
    requires !IsEmpty(Shown(s)) && f < 4
    ensures Readable(s, f)
  {
    var at := if KindAt in Visible(s) then KindAt else ScriptAt;
    assert Above([BootDir], at) && IsDir(s, [BootDir]);
    assert FieldsAt[f] !in Dirs(t0) && FieldsAt[f] !in Dirs(s);
  }

  lemma {:induction false} ReadThere(t0: Tree, es: seq<Entry>, s: Tree, c: nat)
    requires c <= |es| && OnTheWay(t0, es, s, c) && Settled(t0, es, s, c) && NoBootFields(t0) && LeavesUpTo(es, c)
    requires !IsEmpty(Seen(es, c, c, c, c))
    ensures ReadAt([s, s, s, s]) == Got(Seen(es, c, c, c, c))
  {
    ShownConfig(t0, es, s, c);
    forall f | 0 <= f < 4 ensures Readable(s, f) { ReadableThere(t0, es, s, c, f); }
    ReadSame(s);
  }

  lemma {:induction false} ShownConfig(t0: Tree, es: seq<Entry>, s: Tree, c: nat)
    requires c <= |es| && OnTheWay(t0, es, s, c) && NoBootFields(t0)
    ensures Shown(s) == Seen(es, c, c, c, c)
  {
    FieldShown(t0, es, s, c, 0);
    FieldShown(t0, es, s, c, 1);
    FieldShown(t0, es, s, c, 2);
    FieldShown(t0, es, s, c, 3);
  }

  /** What one state shows of the request. */
  function Shown(s: Tree): Config {
    ConfigFrom([Visible(s), Visible(s), Visible(s), Visible(s)])
  }

  lemma ReadSame(s: Tree)
    requires forall f :: 0 <= f < 4 ==> Readable(s, f)
    ensures ReadAt([s, s, s, s]) == Got(Shown(s))
  {
    var four := [s, s, s, s];
    forall f | 0 <= f < 4 ensures Readable(four[f], f) { assert four[f] == s; }
  }

  /** Every cut that requests something, with no key below a boot field so far, is read in some state. */
  lemma {:induction false} CutIsRead(t0: Tree, es: seq<Entry>, states: seq<Tree>, c: nat) returns (i: nat)
    requires NoBootFields(t0) && InOrder(t0, es, states, |es|)
    requires c <= |es| && LeavesUpTo(es, c) && !IsEmpty(Seen(es, c, c, c, c))
    ensures i < |states| && ReadAt([states[i], states[i], states[i], states[i]]) == Got(Seen(es, c, c, c, c))
  {
    i := CutShows(t0, es, states, c);
    ReadThere(t0, es, states[i], c);
  }

  lemma {:induction false} CutShows(t0: Tree, es: seq<Entry>, states: seq<Tree>, c: nat) returns (i: nat)
    requires InOrder(t0, es, states, |es|) && c <= |es|
    ensures i < |states| && OnTheWay(t0, es, states[i], c) && Settled(t0, es, states[i], c)
  {
    var cuts :| Recorded(t0, es, states, cuts) && cuts[|cuts| - 1] == |es|;
    i := EveryCutShows(t0, es, states, cuts, c, |cuts| - 1);
  }

  lemma {:induction false} PartIsRead(t0: Tree, es: seq<Entry>, states: seq<Tree>, c: nat)
    requires NoBootFields(t0) && InOrder(t0, es, states, |es|)
    requires c <= |es| && LeavesUpTo(es, c) && !WholeOrEmpty(es, Seen(es, c, c, c, c))
    ensures !AllReadsWhole(es, states)
  {
    var i := CutIsRead(t0, es, states, c);
    assert !ReadsWhole(es, states, i, i, i, i);
  }

  // ----- keys below a boot field -----

  /** Every key is in clean form. */
  ghost predicate CleanKeys(keys: seq<string>, es: seq<Entry>) {
    |es| == |keys| && forall m :: 0 <= m < |es| ==> es[m].loc == Segments(keys[m]) && Clean(keys[m])
  }

  lemma FieldKeys()
    ensures forall f :: 0 <= f < 4 ==> Slashed(FieldsAt[f]) == BootKeys[f]
    ensures forall f :: 0 <= f < 4 ==> Segments(BootKeys[f]) == FieldsAt[f]
  {
    BootKeysLocated();
    TwoSlashed(BootDir, "source.kind");
    TwoSlashed(BootDir, "source.url");
    TwoSlashed(BootDir, "source.ref");
    TwoSlashed(BootDir, "script");
  }

  lemma TwoSlashed(a: string, b: string)
    ensures Slashed([a, b]) == a + "/" + b
  {
    assert [a, b][1..] == [b];
  }

  lemma {:induction false} CleanIsCanonical(keys: seq<string>, es: seq<Entry>)
    requires CleanKeys(keys, es)
    ensures Canonical(keys, es)
  {
    FieldKeys();
    forall f | 0 <= f < 4 ensures OnlyAt(keys, es, BootKeys[f], FieldsAt[f]) {
    }
  }

  /** A clean key below a field is spelt as the field, a slash and more. */
  lemma {:induction false} BelowField(k: string, f: nat) returns (rest: string)
    requires Clean(k) && f < 4 && Above(FieldsAt[f], Segments(k))
    ensures k == BootKeys[f] + ("/" + rest)
  {
    FieldKeys();
    rest := SlashedBelow(Segments(k), FieldsAt[f]);
  }

  lemma {:induction false} SlashedBelow(p: Path, at: Path) returns (rest: string)
    requires |at| == 2 && Above(at, p)
    ensures Slashed(p) == Slashed(at) + ("/" + rest)
  {
    var a, b := at[0], at[1];
    assert at == [a, b] && p[..2][0] == p[0] && p[..2][1] == p[1];
    var q := p[1..];
    rest := Slashed(q[1..]);
    TwoSlashed(a, b);
    assert Slashed(q) == b + "/" + rest;
    SlashesAssociate(a, b, rest);
  }

  lemma SlashesAssociate(a: string, b: string, rest: string)
    ensures a + "/" + (b + "/" + rest) == a + "/" + b + ("/" + rest)
  {
  }

  lemma LessWithTails(a: string, b: string, i: nat, x: string, y: string)
    requires LessAt(a, b, i) && i < |a|
    ensures Less(a + x, b + y)
  {
    assert LessAt(a + x, b + y, i);
  }

  /** Where such a key sorts: after the script, and, below ref and url, after the kind; below the script,
      before the kind. */
  lemma {:induction false} BelowFieldSorts(k: string, f: nat)
    requires Clean(k) && f < 4 && Above(FieldsAt[f], Segments(k))
    ensures f < 3 ==> Less(ScriptKey, k)
    ensures f == 1 || f == 2 ==> Less(KindKey, k)
    ensures f == 3 ==> Less(k, KindKey)
  {
    var rest := BelowField(k, f);
    var tail := "/" + rest;
    assert ScriptKey + "" == ScriptKey && KindKey + "" == KindKey;
    match f
    case 0 => LessWithTails(ScriptKey, KindKey, 11, "", tail);
    case 1 =>
      LessWithTails(ScriptKey, UrlKey, 11, "", tail);
      LessWithTails(KindKey, UrlKey, 17, "", tail);
    case 2 =>
      LessWithTails(ScriptKey, RefKey, 11, "", tail);
      LessWithTails(KindKey, RefKey, 17, "", tail);
    case 3 => LessWithTails(ScriptKey, KindKey, 11, tail, "");
  }

  /** Some key lies below the script, where a directory then makes every read fail. */
  ghost predicate ScriptIsDir(es: seq<Entry>) {
    exists e :: e in es && Above(ScriptAt, e.loc)
  }

  lemma SortsBefore(keys: seq<string>, j: nat, i: nat)
    requires Ascending(keys) && i < |keys| && j < |keys| && Less(keys[j], keys[i])
    ensures j < i
  {
  }

  lemma {:induction false} NoneBelowLater(keys: seq<string>, es: seq<Entry>, c: nat, m: nat, f: nat)
    requires Ascending(keys) && CleanKeys(keys, es) && m < c <= |es| && f < 3
    requires keys[c - 1] == ScriptKey || (keys[c - 1] == KindKey && f > 0)
    ensures !Above(FieldsAt[f], es[m].loc)
  {
    if Above(FieldsAt[f], es[m].loc) {
      BelowFieldSorts(keys[m], f);
      SortsBefore(keys, c - 1, m);
    }
  }

  lemma {:induction false} NoneBelowOwn(keys: seq<string>, es: seq<Entry>, c: nat, m: nat, f: nat)
    requires CleanKeys(keys, es) && PrefixFree(es) && m < c <= |es| && f < 4 && keys[c - 1] == BootKeys[f]
    ensures !Above(FieldsAt[f], es[m].loc)
  {
    FieldKeys();
    assert es[c - 1] in es && es[m] in es && es[c - 1].loc == FieldsAt[f];
  }

  lemma {:induction false} NoneBelowYet(keys: seq<string>, es: seq<Entry>, c: nat, m: nat, f: nat)
    requires Ascending(keys) && CleanKeys(keys, es) && PrefixFree(es) && m < c <= |es| && f < 4
    requires keys[c - 1] == ScriptKey || (keys[c - 1] == KindKey && !ScriptIsDir(es))
    ensures !Above(FieldsAt[f], es[m].loc)
  {
    if keys[c - 1] == BootKeys[f] {
      NoneBelowOwn(keys, es, c, m, f);
    } else if f < 3 {
      NoneBelowLater(keys, es, c, m, f);
    } else {
      assert es[m] in es;
    }
  }

  lemma {:induction false} LeavesAtPart(keys: seq<string>, es: seq<Entry>, c: nat)
    requires Ascending(keys) && CleanKeys(keys, es) && PrefixFree(es) && 0 < c <= |es|
    requires keys[c - 1] == ScriptKey || (keys[c - 1] == KindKey && !ScriptIsDir(es))
    ensures LeavesUpTo(es, c)
  {
    forall f, m | 0 <= f < 4 && 0 <= m < c ensures !Above(FieldsAt[f], es[m].loc) {
      NoneBelowYet(keys, es, c, m, f);
    }
  }

  lemma {:induction false} DivisibleMisleads(t0: Tree, keys: seq<string>, es: seq<Entry>, states: seq<Tree>)
    requires Ascending(keys) && CleanKeys(keys, es) && PrefixFree(es) && !ScriptIsDir(es) && !Indivisible(Final(es))
    requires NoBootFields(t0) && InOrder(t0, es, states, |es|)
    ensures !AllReadsWhole(es, states)
  {
    CleanIsCanonical(keys, es);
    var c := DivisibleIsCut(keys, es);
    LeavesAtPart(keys, es, c);
    PartIsRead(t0, es, states, c);
  }

  lemma {:induction false} ScriptNeverSet(es: seq<Entry>)
    requires PrefixFree(es) && ScriptIsDir(es)
    ensures Final(es).script == ""
  {
  }

  /** Once the kind shows, so does the directory at the script. */
  lemma {:induction false} KindMeansScriptDir(t0: Tree, keys: seq<string>, es: seq<Entry>, s: Tree, c0: nat, c3: nat)
    requires Ascending(keys) && CleanKeys(keys, es) && ScriptIsDir(es)
    requires c0 <= c3 <= |es| && KindKey in keys[..c0] && OnTheWay(t0, es, s, c3)
    ensures IsDir(s, ScriptAt)
  {
    var e :| e in es && Above(ScriptAt, e.loc);
    var m :| 0 <= m < |es| && es[m] == e;
    var j :| 0 <= j < c0 && keys[j] == KindKey;
    assert FieldsAt[3] == ScriptAt;
    BelowFieldSorts(keys[m], 3);
    SortsBefore(keys, m, j);
    assert es[..c3][m] == e && e.loc in Latest(es[..c3]) && e.loc in Visible(s);
  }

  lemma {:induction false} ScriptDirReads(t0: Tree, keys: seq<string>, es: seq<Entry>, states: seq<Tree>, n: nat,
                                          i0: nat, i1: nat, i2: nat, i3: nat)
    requires Ascending(keys) && CleanKeys(keys, es) && PrefixFree(es) && ScriptIsDir(es)
    requires NoBootFields(t0) && InOrder(t0, es, states, n) && i0 <= i1 <= i2 <= i3 < |states|
    ensures ReadsWhole(es, states, i0, i1, i2, i3)
  {
    var c0, c1, c2, c3 := ReadsAreCuts(t0, es, states, n, i0, i1, i2, i3);
    if KindKey in keys[..c0] {
      KindMeansScriptDir(t0, keys, es, states[i3], c0, c3);
      UnreadableScript([states[i0], states[i1], states[i2], states[i3]]);
    } else {
      NothingSeen(keys, es, c0, c1, c2, c3);
    }
  }

  lemma UnreadableScript(four: seq<Tree>)
    requires |four| == 4 && IsDir(four[3], ScriptAt)
    ensures ReadAt(four).Failed?
  {
    assert !Readable(four[3], 3);
  }

  lemma {:induction false} NothingSeen(keys: seq<string>, es: seq<Entry>, c0: nat, c1: nat, c2: nat, c3: nat)
    requires Ascending(keys) && CleanKeys(keys, es) && PrefixFree(es) && ScriptIsDir(es)
    requires c0 <= c1 <= c2 <= c3 <= |es| && KindKey !in keys[..c0]
    ensures IsEmpty(Seen(es, c0, c1, c2, c3))
  {
    CleanIsCanonical(keys, es);
    FieldsAtCuts(keys, es, c0, c1, c2, c3);
    ScriptNeverSet(es);
  }

  lemma {:induction false} AllScriptDirReads(t0: Tree, keys: seq<string>, es: seq<Entry>, states: seq<Tree>, n: nat)
    requires Ascending(keys) && CleanKeys(keys, es) && PrefixFree(es) && ScriptIsDir(es)
    requires NoBootFields(t0) && InOrder(t0, es, states, n)
    ensures AllReadsWhole(es, states)
  {
    forall i0, i1, i2, i3 | 0 <= i0 <= i1 <= i2 <= i3 < |states| ensures ReadsWhole(es, states, i0, i1, i2, i3) {
      ScriptDirReads(t0, keys, es, states, n, i0, i1, i2, i3);
    }
  }

  /** Over all readers of a successful publication to a tree without boot fields: none is misled if and
      only if the request is indivisible, or unreadable for good because its script is a directory. */
  lemma {:induction false} NoReaderMisledIff(t0: Tree, keys: seq<string>, es: seq<Entry>, states: seq<Tree>)
    requires Ascending(keys) && CleanKeys(keys, es) && PrefixFree(es)
    requires NoBootFields(t0) && InOrder(t0, es, states, |es|)
    ensures AllReadsWhole(es, states) <==> Indivisible(Final(es)) || ScriptIsDir(es)
  {
    if ScriptIsDir(es) {
      AllScriptDirReads(t0, keys, es, states, |es|);
    } else if Indivisible(Final(es)) {
      CleanIsCanonical(keys, es);
      AllIndivisibleReadsWhole(t0, keys, es, states, |es|);
    } else {
      DivisibleMisleads(t0, keys, es, states);
    }
  }

  /** No key lies below a boot field. */
  predicate FieldsAreLeaves(es: seq<Entry>) {
    forall f, e :: 0 <= f < 4 && e in es ==> !Above(FieldsAt[f], e.loc)
  }

  /** The same for keys of which only the boot keys need be clean, if none lies below a boot field. */
  lemma {:induction false} LeafFieldsIff(t0: Tree, keys: seq<string>, es: seq<Entry>, states: seq<Tree>)
    requires Ascending(keys) && Canonical(keys, es) && FieldsAreLeaves(es)
    requires NoBootFields(t0) && InOrder(t0, es, states, |es|)
    ensures AllReadsWhole(es, states) <==> Indivisible(Final(es))
  {
    if Indivisible(Final(es)) {
      AllIndivisibleReadsWhole(t0, keys, es, states, |es|);
    } else {
      var c := DivisibleIsCut(keys, es);
      assert forall e :: e in es[..c] ==> e in es;
      PartIsRead(t0, es, states, c);
    }
  }

  // ----- the sync and the reader together -----

  lemma {:induction false} CanonicalKeys(keys: seq<string>, props: map<string, string>)
    requires forall k :: k in keys ==> k in props
    requires forall k, f :: k in keys && 0 <= f < 4 && Segments(k) == FieldsAt[f] ==> k == BootKeys[f]
    ensures Canonical(keys, Entries(keys, props))
  {
    FieldKeys();
    var es := Entries(keys, props);
    forall f | 0 <= f < 4 ensures OnlyAt(keys, es, BootKeys[f], FieldsAt[f]) {
    }
  }

  /** What a publication with outcome `ok` lets its readers see. */
  ghost predicate ReadersSafe(keys: seq<string>, es: seq<Entry>, states: seq<Tree>, ok: bool) {
    && (Indivisible(Final(es)) ==> AllReadsWhole(es, states))
    && (ok && FieldsAreLeaves(es) ==> (AllReadsWhole(es, states) <==> Indivisible(Final(es))))
    && (ok && CleanKeys(keys, es) ==> (AllReadsWhole(es, states) <==> Indivisible(Final(es)) || ScriptIsDir(es)))
  }

  lemma {:induction false} FirstReads(t0: Tree, keys: seq<string>, es: seq<Entry>, states: seq<Tree>, n: nat, ok: bool)
    requires Ascending(keys) && Canonical(keys, es) && NoBootFields(t0) && InOrder(t0, es, states, n)
    requires ok ==> n == |es| && PrefixFree(es)
    ensures ReadersSafe(keys, es, states, ok)
  {
    if Indivisible(Final(es)) { AllIndivisibleReadsWhole(t0, keys, es, states, n); }
    if ok && FieldsAreLeaves(es) { LeafFieldsIff(t0, keys, es, states); }
    if ok && CleanKeys(keys, es) { NoReaderMisledIff(t0, keys, es, states); }
  }

  /** A publication to a tree without boot fields, and whoever reads in any four of its states, in order. */
  method FirstPublication(tree: PropertyTree, keys: seq<string>, props: map<string, string>)
    returns (ok: bool, ghost states: seq<Tree>)
    requires (tree.nodes == map[] || WellFormed(tree.nodes)) && NoBootFields(tree.nodes) && Ascending(keys)
    requires (forall k :: k in keys <==> k in props) && forall k :: k in props ==> CheckKey(k).Accepted?
    requires forall k, f :: k in keys && 0 <= f < 4 && Segments(k) == FieldsAt[f] ==> k == BootKeys[f]
    modifies tree
    ensures |states| > 0 && states[0] == Rooted(old(tree.nodes)) && states[|states| - 1] == tree.nodes
    ensures AllPlain(Entries(keys, props)) ==> ReadersSafe(keys, Entries(keys, props), states, ok)
  {
    ghost var trace;
    ok, trace := tree.Apply(keys, props);
    states := [Rooted(old(tree.nodes))] + trace;
    PublicationReads(old(tree.nodes), keys, props, tree.nodes, trace);
  }

  lemma {:induction false} PublicationReads(before: Tree, keys: seq<string>, props: map<string, string>, u: Tree,
                                            trace: seq<Tree>)
    requires (before == map[] || WellFormed(before)) && NoBootFields(before) && Ascending(keys)
    requires forall k :: k in keys <==> k in props
    requires forall k, f :: k in keys && 0 <= f < 4 && Segments(k) == FieldsAt[f] ==> k == BootKeys[f]
    requires Synced(Rooted(before), Entries(keys, props), u, trace)
    ensures var t0, es := Rooted(before), Entries(keys, props);
            && ([t0] + trace)[|trace|] == u
            && (AllPlain(es) ==> ReadersSafe(keys, es, [t0] + trace, Applied(t0, es).ok))
  {
    var t0, es := Rooted(before), Entries(keys, props);
    SyncedEnds(t0, es, u, trace);
    CanonicalKeys(keys, props);
    RootedFields(before);
    if AllPlain(es) { SyncedReads(t0, keys, es, u, trace); }
  }

  lemma RootedFields(t: Tree)
    requires (t == map[] || WellFormed(t)) && NoBootFields(t)
    ensures WellFormed(Rooted(t)) && NoBootFields(Rooted(t))
  {
  }

  lemma {:induction false} SyncedReads(t0: Tree, keys: seq<string>, es: seq<Entry>, u: Tree, trace: seq<Tree>)
    requires WellFormed(t0) && NoBootFields(t0) && Ascending(keys) && Canonical(keys, es) && AllPlain(es)
    requires Synced(t0, es, u, trace)
    ensures ReadersSafe(keys, es, [t0] + trace, Applied(t0, es).ok)
  {
    SuccessMeans(t0, es);
    FirstReads(t0, keys, es, [t0] + trace, Completed(Sweep(t0, Locs(es)), es), Applied(t0, es).ok);
  }

  lemma {:induction false} SyncedEnds(t0: Tree, es: seq<Entry>, u: Tree, trace: seq<Tree>)
    requires Synced(t0, es, u, trace)
    ensures ([t0] + trace)[|trace|] == u
  {
  }

  lemma {:induction false} SuccessMeans(t0: Tree, es: seq<Entry>)
    requires WellFormed(t0) && AllPlain(es)
    ensures Applied(t0, es).ok ==> Completed(Sweep(t0, Locs(es)), es) == |es| && PrefixFree(es)
  {
    ApplyExact(t0, es);
  }

  // ----- two requests seen in part -----

  /** The script without its kind: a start that reads this runs the script with nothing pulled, and is
      then provisioned for good. */
  lemma ScriptOutrunsKind(b: Boot)
    requires b.answers.workDir && b.answers.script && b.answers.stamped && b.fuse >= 3
    requires var es := [Entry(ScriptAt, "make"), Entry(KindAt, "git"), Entry(UrlAt, "https://x")];
             b.cfg == Seen(es, 1, 1, 1, 1)
    ensures b.cfg == Config("", "", "", "make") && !IsEmpty(b.cfg)
    ensures Events(false, b) == [ScriptStarted, ScriptEnded(true), Stamped] && SentinelAfter([b])
  {
  }

  /** The kind without its url. */
  lemma KindOutrunsUrl()
    ensures var es := [Entry(KindAt, "git"), Entry(UrlAt, "https://x")];
            && Seen(es, 1, 1, 1, 1) == Config("git", "", "", "") && !IsEmpty(Seen(es, 1, 1, 1, 1))
            && Final(es) == Config("git", "https://x", "", "")
  {
  }
}
