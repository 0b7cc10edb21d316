/** The boot request as read back from the property tree. */
module BootConfig {
  import opened Text
  import opened Keys
  import opened FileTree

  datatype Config = Config(kind: string, url: string, ref: string, script: string)

  /** strings.TrimSpace(s) == "". */
  predicate Blank(s: string) {
    forall i :: 0 <= i < |s| ==> IsSpace(s[i])
  }

  predicate IsEmpty(c: Config) {
    c.kind == "" && Blank(c.script)
  }

  /** strings.TrimRight(s, "\n"). */
  function TrimNewlines(s: string): (r: string)
    ensures r <= s && (r == "" || r[|r| - 1] != '\n')
    ensures forall i :: |r| <= i < |s| ==> s[i] == '\n'
  {
    if s != "" && s[|s| - 1] == '\n' then TrimNewlines(s[..|s| - 1]) else s
  }

  const BootDir: string := "weft.boot"
  const KindKey: string := BootDir + "/" + "source.kind"
  const UrlKey: string := BootDir + "/" + "source.url"
  const RefKey: string := BootDir + "/" + "source.ref"
  const ScriptKey: string := BootDir + "/" + "script"

  const BootKeys: seq<string> := [KindKey, UrlKey, RefKey, ScriptKey]

  const KindAt: Path := [BootDir, "source.kind"]
  const UrlAt: Path := [BootDir, "source.url"]
  const RefAt: Path := [BootDir, "source.ref"]
  const ScriptAt: Path := [BootDir, "script"]

  const FieldsAt: seq<Path> := [KindAt, UrlAt, RefAt, ScriptAt]

  /** The boot keys live where they are read. */
  lemma BootKeysLocated()
    ensures Segments(KindKey) == KindAt && Segments(UrlKey) == UrlAt
    ensures Segments(RefKey) == RefAt && Segments(ScriptKey) == ScriptAt
  {
    TwoSegments(BootDir, "source.kind");
    TwoSegments(BootDir, "source.url");
    TwoSegments(BootDir, "source.ref");
    TwoSegments(BootDir, "script");
  }

  datatype ReadResult<T> = Got(value: T) | Failed

  /** readOptionalFile: "" when there is nothing at p, an error when p is a directory or runs
      through a file. */
  function ReadOptional(t: Tree, p: Path): ReadResult<string> {
    if IsDir(t, p) then Failed
    else if IsFile(t, p) then Got(t[p].content)
    else if Blocked(t, p) then Failed
    else Got("")
  }

  function FieldOf(files: map<Path, string>, p: Path): string {
    if p in files then TrimNewlines(files[p]) else ""
  }

  /** The config four snapshots spell out, one for each field in reading order. */
  function ConfigFrom(views: seq<map<Path, string>>): Config
    requires |views| == 4
  {
    Config(FieldOf(views[0], KindAt), FieldOf(views[1], UrlAt), FieldOf(views[2], RefAt), FieldOf(views[3], ScriptAt))
  }

  /** Field i can be opened, or is missing. */
  predicate Readable(t: Tree, i: nat)
    requires i < 4
  {
    !IsFile(t, [BootDir]) && !IsDir(t, FieldsAt[i])
  }

  /** What reading the four fields in four successive states gives: an error if one of them cannot be
      read, and otherwise what those states show. */
  ghost function ReadAt(states: seq<Tree>): ReadResult<Config>
    requires |states| == 4
  {
    if forall i :: 0 <= i < 4 ==> Readable(states[i], i)
    then Got(ConfigFrom([Visible(states[0]), Visible(states[1]), Visible(states[2]), Visible(states[3])]))
    else Failed
  }

  /** Field i reads as v. */
  ghost predicate ReadAs(t: Tree, i: nat, v: string)
    requires i < 4
  {
    Readable(t, i) && v == FieldOf(Visible(t), FieldsAt[i])
  }

  lemma {:induction false} FieldsRead(states: seq<Tree>, fields: seq<string>)
    requires |states| == |fields| == 4 && forall i :: 0 <= i < 4 ==> ReadAs(states[i], i, fields[i])
    ensures ReadAt(states) == Got(Config(fields[0], fields[1], fields[2], fields[3]))
  {
    assert ReadAs(states[0], 0, fields[0]) && ReadAs(states[1], 1, fields[1]);
    assert ReadAs(states[2], 2, fields[2]) && ReadAs(states[3], 3, fields[3]);
    forall i | 0 <= i < 4 ensures Readable(states[i], i) { assert ReadAs(states[i], i, fields[i]); }
  }

  lemma ReadOptionalExact(t: Tree, i: nat)
    requires WellFormed(t) && i < 4
    ensures ReadOptional(t, FieldsAt[i]).Got? <==> Readable(t, i)
    ensures ReadOptional(t, FieldsAt[i]).Got? ==>
              TrimNewlines(ReadOptional(t, FieldsAt[i]).value) == FieldOf(Visible(t), FieldsAt[i])
  {
    var p := FieldsAt[i];
    assert p[..0] == [] && p[..1] == [BootDir] && p[..2] == p;
    assert Above([BootDir], p);
  }

  /** ReadFromPropertiesDir against a tree that may change between the four reads: states[i] is the
      tree as field i is opened. */
  method ReadFromPropertiesDir(states: seq<Tree>) returns (r: ReadResult<Config>)
    requires |states| == 4 && forall i :: 0 <= i < 4 ==> WellFormed(states[i])
    ensures r == ReadAt(states)
  {
    var fields: seq<string> := [];
    var i := 0;
    while i < 4
      invariant 0 <= i <= 4 && |fields| == i
      invariant forall j :: 0 <= j < i ==> ReadAs(states[j], j, fields[j])
    {
      ReadOptionalExact(states[i], i);
      var v := ReadOptional(states[i], FieldsAt[i]);
      if v.Failed? {
        return Failed;
      }
      fields := fields + [TrimNewlines(v.value)];
      i := i + 1;
    }
    FieldsRead(states, fields);
    r := Got(Config(fields[0], fields[1], fields[2], fields[3]));
  }
}
