/** Property keys as the guest accepts them, and the file-system locations that
    `filepath.Join(root, key)` gives them. */
module Keys {

  type Path = seq<string>

  // ----- PropertySet.Validate, one key -----

  predicate OccursAt(s: string, part: string, i: int) {
    0 <= i <= |s| - |part| && s[i..i + |part|] == part
  }

  predicate Contains(s: string, part: string) {
    exists i :: 0 <= i <= |s| && OccursAt(s, part, i)
  }

  datatype KeyError = EmptyKey | LeadingSlash | DotDot | Nul

  datatype KeyCheck = Accepted | Rejected(why: KeyError)

  function CheckKey(k: string): KeyCheck {
    if k == "" then Rejected(EmptyKey)
    else if k[0] == '/' then Rejected(LeadingSlash)
    else if Contains(k, "..") then Rejected(DotDot)
    else if 0 as char in k then Rejected(Nul)
    else Accepted
  }

  lemma NoTwoDots(k: string)
    requires forall i :: 0 <= i < |k| - 1 ==> k[i] != '.' || k[i + 1] != '.'
    ensures !Contains(k, "..")
  {
    forall i ensures !OccursAt(k, "..", i) {
      if 0 <= i <= |k| - 2 { assert k[i..i + 2] == [k[i], k[i + 1]]; }
    }
  }

  // ----- filepath.Clean / filepath.Join on an absolute root -----

  /** The pieces of `k` between its slashes: one more piece than slashes. */
  function Split(k: string): (r: seq<string>)
    ensures |r| >= 1
  {
    if k == "" then [""]
    else
      var r := Split(k[1..]);
      if k[0] == '/' then [""] + r else [[k[0]] + r[0]] + r[1..]
  }

  /** One pass of filepath.Clean: "" and "." vanish, ".." drops the last element. */
  function Cleaned(done: Path, rest: seq<string>): Path
    decreases |rest|
  {
    if rest == [] then done
    else if rest[0] == "" || rest[0] == "." then Cleaned(done, rest[1..])
    else if rest[0] == ".." then Cleaned(if done == [] then [] else done[..|done| - 1], rest[1..])
    else Cleaned(done + [rest[0]], rest[1..])
  }

  function Join(root: Path, k: string): Path {
    Cleaned(root, Split(k))
  }

  /** The pieces that name something. */
  function Proper(pieces: seq<string>): Path {
    if pieces == [] then []
    else (if pieces[0] == "" || pieces[0] == "." then [] else [pieces[0]]) + Proper(pieces[1..])
  }

  /** Where a key lives, relative to the root of the property tree. */
  function Segments(k: string): Path {
    Proper(Split(k))
  }

  lemma OccursLater(c: char, k: string, part: string, at: int)
    requires OccursAt(k, part, at)
    ensures OccursAt([c] + k, part, at + 1)
  {
    assert ([c] + k)[at + 1..at + 1 + |part|] == k[at..at + |part|];
  }

  lemma OccursLonger(c: char, k: string, part: string)
    requires OccursAt(k, part, 0)
    ensures OccursAt([c] + k, [c] + part, 0)
  {
    assert ([c] + k)[..1 + |part|] == [c] + k[..|part|];
  }

  lemma {:induction false} PieceIsInKey(k: string, i: nat) returns (at: nat)
    requires i < |Split(k)|
    ensures OccursAt(k, Split(k)[i], at)
    ensures i == 0 ==> at == 0
  {
    at := 0;
    if k == "" || (k[0] == '/' && i == 0) { return; }
    var r := Split(k[1..]);
    assert k == [k[0]] + k[1..];
    if k[0] == '/' {
      at := PieceIsInKey(k[1..], i - 1);
      OccursLater(k[0], k[1..], r[i - 1], at);
      at := at + 1;
    } else if i == 0 {
      at := PieceIsInKey(k[1..], 0);
      OccursLonger(k[0], k[1..], r[0]);
    } else {
      at := PieceIsInKey(k[1..], i);
      OccursLater(k[0], k[1..], r[i], at);
      at := at + 1;
    }
  }

  lemma {:induction false} CleanWithoutDotDot(done: Path, rest: seq<string>)
    requires ".." !in rest
    ensures Cleaned(done, rest) == done + Proper(rest)
    decreases |rest|
  {
    if rest != [] {
      if rest[0] == "" || rest[0] == "." {
        CleanWithoutDotDot(done, rest[1..]);
      } else {
        CleanWithoutDotDot(done + [rest[0]], rest[1..]);
      }
    }
  }

  /** What validation is for: an accepted key never leaves the root, whatever the root. */
  lemma AcceptedKeyStaysUnderRoot(root: Path, k: string)
    requires CheckKey(k).Accepted?
    ensures Join(root, k) == root + Segments(k)
  {
    forall i | 0 <= i < |Split(k)| ensures Split(k)[i] != ".." {
      var at := PieceIsInKey(k, i);
    }
    CleanWithoutDotDot(root, Split(k));
  }

  /** No key can leave it unless validation rejects the key. */
  lemma EscapeIsRejected(root: Path, k: string)
    requires !(root <= Join(root, k))
    ensures CheckKey(k).Rejected?
  {
    if CheckKey(k).Accepted? { AcceptedKeyStaysUnderRoot(root, k); }
  }

  /** This one would. */
  lemma RejectedKeyEscapes()
    ensures CheckKey("../x") == Rejected(DotDot)
    ensures Join(["run", "weft"], "../x") == ["run", "x"]
  {
    assert OccursAt("../x", "..", 0);
    assert Split("x") == ["x"] by { assert ['x'] + "" == "x" && [""][1..] == []; }
    assert Split("./x") == [".", "x"] by { assert ['.'] + "" == "." && ["", "x"][1..] == ["x"]; }
  }

  lemma {:induction false} SplitPlain(a: string)
    requires '/' !in a
    ensures Split(a) == [a]
  {
    if a != "" {
      SplitPlain(a[1..]);
      assert [a[0]] + a[1..] == a && [a[1..]][1..] == [];
    }
  }

  lemma {:induction false} SplitSlash(a: string, b: string)
    requires '/' !in a
    ensures Split(a + "/" + b) == [a] + Split(b)
  {
    var k := a + "/" + b;
    if a == "" {
      assert k[1..] == b;
    } else {
      SplitSlash(a[1..], b);
      assert k[1..] == a[1..] + "/" + b && k[0] == a[0];
      assert [a[0]] + a[1..] == a && ([a[1..]] + Split(b))[1..] == Split(b);
    }
  }

  /** A piece that names something below the root. */
  predicate Name(a: string) {
    '/' !in a && a != "" && a != "."
  }

  lemma OneSegment(a: string)
    requires Name(a)
    ensures Segments(a) == [a]
  {
    SplitPlain(a);
    assert [a][1..] == [];
    assert Proper([a]) == [a] + Proper([]);
  }

  lemma TwoSegments(a: string, b: string)
    requires Name(a) && Name(b)
    ensures Segments(a + "/" + b) == [a, b]
  {
    SplitSlash(a, b);
    OneSegment(b);
    SplitPlain(b);
    assert ([a] + [b])[1..] == [b];
    assert Proper([a] + [b]) == [a] + Proper([b]);
  }

  /** The canonical spelling of a location. */
  function Slashed(p: Path): string {
    if p == [] then "" else if |p| == 1 then p[0] else p[0] + "/" + Slashed(p[1..])
  }

  /** A key in clean form: no empty pieces and no dots to skip. */
  predicate Clean(k: string) {
    k == Slashed(Segments(k))
  }

  /** The check is cautious: two dots inside a name are harmless, and rejected all the same. */
  lemma HarmlessKeyRejected(root: Path)
    ensures CheckKey("a..b") == Rejected(DotDot)
    ensures Join(root, "a..b") == root + ["a..b"]
  {
    assert OccursAt("a..b", "..", 1);
    SplitPlain("a..b");
    OneSegment("a..b");
    CleanWithoutDotDot(root, ["a..b"]);
  }

  // ----- the transient name used while writing -----

  predicate EndsInTmp(s: string) {
    |s| >= 4 && s[|s| - 4..] == ".tmp"
  }

  /** filepath.Ext(p) == ".tmp". */
  predicate IsTmp(p: Path) {
    p != [] && EndsInTmp(p[|p| - 1])
  }

  /** path + ".tmp". */
  function Tmp(p: Path): (q: Path)
    requires p != []
    ensures |q| == |p| && q[..|p| - 1] == p[..|p| - 1] && IsTmp(q) && q != p
  {
    var last := p[|p| - 1] + ".tmp";
    assert last[|last| - 4..] == ".tmp";
    p[..|p| - 1] + [last]
  }

  /** The transient file too stays below the root, unless the key names the root itself. */
  lemma TransientUnderRootIff(root: Path, k: string)
    requires root != [] && CheckKey(k).Accepted?
    ensures Join(root, k) != []
    ensures root <= Tmp(Join(root, k)) <==> Segments(k) != []
  {
    AcceptedKeyStaysUnderRoot(root, k);
  }

  /** An accepted key can do that. */
  lemma DotNamesTheRoot()
    ensures CheckKey(".").Accepted? && Segments(".") == []
  {
  }

  /** No element of the location looks like a transient file. */
  predicate Plain(p: Path) {
    forall i :: 0 <= i < |p| ==> !EndsInTmp(p[i])
  }
}
