/** The store of authorised SSH keys. Parsing a line and hashing a key's wire form are unknown functions;
    a key is its wire form. */
module AuthStore {
  import opened Options

  type Key = string

  type Parser = string -> Option<(Key, string)>

  type Hash = Key -> string

  // ----- reference: search the published lines -----

  /** The last line that parses to a key with this fingerprint: the key and the comment. */
  function LastWith(lines: seq<string>, parse: Parser, hash: Hash, fp: string): Option<(Key, string)> {
    if lines == [] then None
    else
      var n := |lines| - 1;
      var p := parse(lines[n]);
      if p.Some? && hash(p.value.0) == fp then p else LastWith(lines[..n], parse, hash, fp)
  }

  function Parsing(lines: seq<string>, parse: Parser): nat {
    if lines == [] then 0
    else Parsing(lines[..|lines| - 1], parse) + if parse(lines[|lines| - 1]).Some? then 1 else 0
  }

  ghost predicate Listed(lines: seq<string>, parse: Parser, key: Key) {
    exists i :: 0 <= i < |lines| && parse(lines[i]).Some? && parse(lines[i]).value.0 == key
  }

  /** No other listed key shares key's fingerprint. */
  ghost predicate NoCollision(lines: seq<string>, parse: Parser, hash: Hash, key: Key) {
    forall i :: 0 <= i < |lines| && parse(lines[i]).Some? && hash(parse(lines[i]).value.0) == hash(key) ==>
                  parse(lines[i]).value.0 == key
  }

  function Decision(lines: seq<string>, parse: Parser, hash: Hash, key: Key): Option<string> {
    match LastWith(lines, parse, hash, hash(key))
    case Some((k, comment)) => if k == key then Some(comment) else None
    case None => None
  }

  lemma {:induction false} LastWithFound(lines: seq<string>, parse: Parser, hash: Hash, fp: string)
    ensures match LastWith(lines, parse, hash, fp)
            case None => forall i :: 0 <= i < |lines| && parse(lines[i]).Some? ==> hash(parse(lines[i]).value.0) != fp
            case Some(kc) => exists i :: 0 <= i < |lines| && parse(lines[i]) == Some(kc) && hash(kc.0) == fp
                                         && forall j :: i < j < |lines| && parse(lines[j]).Some? ==>
                                              hash(parse(lines[j]).value.0) != fp
  {
    if lines != [] {
      var n := |lines| - 1;
      LastWithFound(lines[..n], parse, hash, fp);
    }
  }

  function Fingerprints(lines: seq<string>, parse: Parser, hash: Hash): set<string> {
    set i | 0 <= i < |lines| && parse(lines[i]).Some? :: hash(parse(lines[i]).value.0)
  }

  /** Only listed keys are accepted, always; every listed key is, exactly when the last line with its
      fingerprint is the key itself, so in particular when no fingerprints collide. */
  lemma {:induction false} DecisionIff(lines: seq<string>, parse: Parser, hash: Hash, key: Key)
    ensures Decision(lines, parse, hash, key).Some? ==> Listed(lines, parse, key)
    ensures Listed(lines, parse, key) ==>
              var last := LastWith(lines, parse, hash, hash(key));
              last.Some? && (Decision(lines, parse, hash, key) == Some(last.value.1) <==> last.value.0 == key)
    ensures NoCollision(lines, parse, hash, key) ==>
              (Decision(lines, parse, hash, key).Some? <==> Listed(lines, parse, key))
  {
    LastWithFound(lines, parse, hash, hash(key));
  }

  // ----- the store -----

  class Store {
    const parse: Parser
    const hash: Hash
    var byFingerprint: map<string, Key>
    var names: map<string, string>
    /** The lines of the latest set. */
    ghost var lines: seq<string>

    /** The two indexes agree with a search of the lines. */
    ghost predicate Valid()
      reads this
    {
      Indexes(lines, parse, hash, byFingerprint, names)
    }

    constructor (p: Parser, h: Hash)
      ensures Valid() && lines == [] && parse == p && hash == h
    {
      parse, hash := p, h;
      byFingerprint, names, lines := map[], map[], [];
    }

    /** Replace. Both maps are built aside and swapped in together. */
    method Replace(keys: seq<string>) returns (accepted: nat, rejected: nat)
      modifies this
      ensures Valid() && lines == keys
      ensures accepted == Parsing(keys, parse) && accepted + rejected == |keys|
      ensures |byFingerprint| <= accepted
    {
      var index: map<string, Key>, comments: map<string, string> := map[], map[];
      accepted, rejected := 0, 0;
      var i := 0;
      assert keys[..0] == [];
      while i < |keys|
        invariant 0 <= i <= |keys|
        invariant Indexes(keys[..i], parse, hash, index, comments)
        invariant accepted == Parsing(keys[..i], parse) && accepted + rejected == i
        invariant |index| <= accepted
      {
        var p := parse(keys[i]);
        IndexStep(keys, i, parse, hash, index, comments);
        ParsingStep(keys, i, parse);
        if p.None? {
          rejected := rejected + 1;
        } else {
          var fp := hash(p.value.0);
          index := index[fp := p.value.0];
          comments := comments[fp := p.value.1];
          accepted := accepted + 1;
        }
        i := i + 1;
      }
      assert keys[..i] == keys;
      byFingerprint, names, lines := index, comments, keys;
    }

    /** Authorize: the two-map lookup decides as the search of the latest lines does. */
    method Authorize(key: Key) returns (name: Option<string>)
      requires Valid()
      ensures name == Decision(lines, parse, hash, key)
    {
      var fp := hash(key);
      if fp !in byFingerprint || byFingerprint[fp] != key {
        return None;
      }
      name := Some(if fp in names then names[fp] else "");
    }

    /** Size: the number of different fingerprints in the latest set. */
    method Size() returns (n: nat)
      requires Valid()
      ensures n == |Fingerprints(lines, parse, hash)|
    {
      n := |byFingerprint|;
      forall fp ensures fp in byFingerprint <==> fp in Fingerprints(lines, parse, hash) {
        LastWithFound(lines, parse, hash, fp);
      }
      assert byFingerprint.Keys == Fingerprints(lines, parse, hash);
    }
  }

  ghost predicate Indexes(lines: seq<string>, parse: Parser, hash: Hash, keys: map<string, Key>,
                          names: map<string, string>) {
    forall fp :: match LastWith(lines, parse, hash, fp)
                 case None => fp !in keys && fp !in names
                 case Some((k, c)) => fp in keys && keys[fp] == k && fp in names && names[fp] == c
  }

  /** One more line: an unparsable one changes neither index, a key replaces both of its entries. */
  lemma IndexStep(lines: seq<string>, i: nat, parse: Parser, hash: Hash, keys: map<string, Key>,
                  names: map<string, string>)
    requires i < |lines| && Indexes(lines[..i], parse, hash, keys, names)
    ensures var p := parse(lines[i]);
            if p.None? then Indexes(lines[..i + 1], parse, hash, keys, names)
            else
              var fp := hash(p.value.0);
              Indexes(lines[..i + 1], parse, hash, keys[fp := p.value.0], names[fp := p.value.1])
  {
    assert lines[..i + 1][..i] == lines[..i];
  }

  lemma {:induction false} ParsingStep(lines: seq<string>, i: nat, parse: Parser)
    requires i < |lines|
    ensures Parsing(lines[..i + 1], parse) == Parsing(lines[..i], parse) + if parse(lines[i]).Some? then 1 else 0
  {
    assert lines[..i + 1][..i] == lines[..i];
  }
}
