/** Containers as published, and the test that decides whether one changed. */
module Containers {

  datatype Mount = Mount(hostPath: string, mountPath: string, readonly: bool)

  datatype Container = Container(
    name: string, image: string, command: seq<string>, args: seq<string>, env: map<string, string>,
    mounts: seq<Mount>, workingDir: string, net: string, restart: string, annotations: map<string, string>)

  datatype ContainerSet = ContainerSet(version: int, containers: seq<Container>)

  /** ContainerSet.Validate; version 0 stands for the current one. */
  predicate ValidSet(s: ContainerSet) {
    && s.version <= 1
    && (forall i :: 0 <= i < |s.containers| ==> ValidContainer(s.containers[i]))
    && (forall i, j :: 0 <= i < j < |s.containers| ==> s.containers[i].name != s.containers[j].name)
  }

  predicate ValidContainer(c: Container) {
    && c.name != "" && c.image != ""
    && c.net in {"", "host", "none", "shared"}
    && c.restart in {"", "always", "on-failure", "never"}
    && forall i :: 0 <= i < |c.mounts| ==> c.mounts[i].hostPath != "" && c.mounts[i].mountPath != ""
  }

  /** Everything that makes up the running container: all but name, restart policy and annotations. */
  predicate SameIdentity(a: Container, b: Container) {
    && a.image == b.image && a.command == b.command && a.args == b.args && a.env == b.env
    && a.mounts == b.mounts && a.workingDir == b.workingDir && a.net == b.net
  }

  predicate SliceEq<T(==)>(a: seq<T>, b: seq<T>) {
    |a| == |b| && forall i :: 0 <= i < |a| ==> a[i] == b[i]
  }

  /** b.Env[k], which is "" for a missing key. */
  function Lookup(env: map<string, string>, k: string): string {
    if k in env then env[k] else ""
  }

  predicate ContainerEqual(a: Container, b: Container) {
    && a.image == b.image && a.workingDir == b.workingDir && a.net == b.net
    && SliceEq(a.command, b.command) && SliceEq(a.args, b.args)
    && |a.env| == |b.env| && (forall k :: k in a.env ==> Lookup(b.env, k) == a.env[k])
    && SliceEq(a.mounts, b.mounts)
  }

  predicate NoEmptyEnv(c: Container) {
    forall k :: k in c.env ==> c.env[k] != ""
  }

  lemma {:induction false} SubsetOfSameSize(a: set<string>, b: set<string>)
    requires a <= b && |a| == |b|
    ensures a == b
  {
    if x :| x in b && x !in a {
      SmallerThan(a, b - {x});
    }
  }

  lemma {:induction false} SmallerThan(a: set<string>, b: set<string>)
    requires a <= b
    ensures |a| <= |b|
  {
    if a != {} {
      var x :| x in a;
      SmallerThan(a - {x}, b - {x});
    }
  }

  lemma EqualImpliesIdentity(a: Container, b: Container)
    requires NoEmptyEnv(a) && ContainerEqual(a, b)
    ensures SameIdentity(a, b)
  {
    SubsetOfSameSize(a.env.Keys, b.env.Keys);
  }

  lemma IdentityImpliesEqual(a: Container, b: Container)
    requires SameIdentity(a, b)
    ensures ContainerEqual(a, b)
  {
  }

  ghost function Longest(keys: set<string>): (n: nat)
    ensures forall k :: k in keys ==> |k| <= n
  {
    if keys == {} then 0
    else
      var k :| k in keys;
      var n := Longest(keys - {k});
      if |k| <= n then n else |k|
  }

  /** A key longer than all the others. */
  ghost function NewKey(keys: set<string>): (k: string)
    ensures k !in keys
  {
    var k := seq(Longest(keys) + 1, i => 'k');
    assert |k| > Longest(keys);
    k
  }

  /** An empty value can be renamed without the test noticing. */
  lemma RenameGoesUnnoticed(a: Container, k: string) returns (b: Container)
    requires k in a.env && a.env[k] == ""
    ensures ContainerEqual(a, b) && !SameIdentity(a, b)
  {
    var other := NewKey(a.env.Keys);
    b := a.(env := (a.env - {k})[other := ""]);
  }

  /** The test recognises exactly the containers with a's identity just when a's environment has no
      empty value. */
  lemma EqualityTestIff(a: Container)
    ensures (forall b :: ContainerEqual(a, b) <==> SameIdentity(a, b)) <==> NoEmptyEnv(a)
  {
    if NoEmptyEnv(a) {
      forall b ensures ContainerEqual(a, b) <==> SameIdentity(a, b) {
        if ContainerEqual(a, b) { EqualImpliesIdentity(a, b); }
      }
    } else {
      var k :| k in a.env && a.env[k] == "";
      var b := RenameGoesUnnoticed(a, k);
    }
  }

  /** Otherwise it is not even symmetric or transitive. */
  lemma NotAnEquivalence(c: Container)
    ensures var a, b, d := c.(env := map["X" := ""]), c.(env := map["Y" := ""]), c.(env := map["X" := "1"]);
            && ContainerEqual(a, b) && ContainerEqual(b, d) && !ContainerEqual(a, d) && !ContainerEqual(d, b)
  {
  }
}
