/** Parsing /proc/<pid>/stat lines, whose command name may contain anything at all. */
module ProcStat {
  import opened Options
  import opened Text

  const MAX_UINT64: nat := 0xFFFF_FFFF_FFFF_FFFF
  const TWO_31: int := 0x8000_0000

  // ----- strconv, base 10 -----

  predicate IsDigit(c: char) { '0' <= c <= '9' }

  function Digit(c: char): nat
    requires IsDigit(c)
  {
    (c - '0') as int
  }

  datatype Num = Num(value: nat) | SyntaxError | RangeError

  /** The digit loop of ParseUint: it stops at the first bad character or as soon as the value is too
      big, whichever comes first. */
  function Digits(s: string, acc: nat, max: nat): Num {
    if s == "" then Num(acc)
    else if !IsDigit(s[0]) then SyntaxError
    else if acc * 10 + Digit(s[0]) > max then RangeError
    else Digits(s[1..], acc * 10 + Digit(s[0]), max)
  }

  function ParseUintMax(s: string, max: nat): Num {
    if s == "" then SyntaxError else Digits(s, 0, max)
  }

  /** parseUint: the error is dropped, so a range error saturates and a syntax error gives 0. */
  function ParseUint(s: string): nat {
    match ParseUintMax(s, MAX_UINT64)
    case Num(v) => v
    case SyntaxError => 0
    case RangeError => MAX_UINT64
  }

  /** ParseInt(s, 10, 32), 0 on any error. */
  function ParsePpid(s: string): int {
    if s == "" then 0
    else
      var neg, rest := s[0] == '-', if s[0] == '-' || s[0] == '+' then s[1..] else s;
      match ParseUintMax(rest, 0xFFFF_FFFF)
      case Num(v) => if neg then (if v > TWO_31 then 0 else 0 - v as int) else (if v >= TWO_31 then 0 else v)
      case _ => 0
  }

  // ----- splitting -----

  /** IndexByte, -1 when absent. */
  function First(s: string, c: char): (i: int)
    ensures -1 <= i < |s|
    ensures i >= 0 ==> s[i] == c && c !in s[..i]
    ensures i < 0 ==> c !in s
  {
    if s == "" then -1
    else if s[0] == c then 0
    else
      var i := First(s[1..], c);
      assert s == [s[0]] + s[1..];
      if i < 0 then -1 else
        assert s[..i + 1] == [s[0]] + s[1..][..i];
        i + 1
  }

  /** LastIndexByte. */
  function Last(s: string, c: char): (i: int)
    ensures -1 <= i < |s|
    ensures i >= 0 ==> s[i] == c && c !in s[i + 1..]
    ensures i < 0 ==> c !in s
  {
    if s == "" then -1
    else
      var n := |s| - 1;
      assert s == s[..n] + [s[n]];
      if s[n] == c then n
      else
        var i := Last(s[..n], c);
        assert i >= 0 ==> s[i + 1..] == s[..n][i + 1..] + [s[n]];
        i
  }

  /** The leading run of non-blanks. */
  function Word(s: string): (w: string)
    ensures w <= s
  {
    if s == "" || IsSpace(s[0]) then "" else [s[0]] + Word(s[1..])
  }

  /** strings.Fields. */
  function Fields(s: string): seq<string>
    decreases |s|
  {
    if s == "" then []
    else if IsSpace(s[0]) then Fields(s[1..])
    else
      assert Word(s) == [s[0]] + Word(s[1..]);
      [Word(s)] + Fields(s[|Word(s)|..])
  }

  // ----- parseStat -----

  datatype Stat = Stat(comm: string, state: string, ppid: int, utime: nat, stime: nat, starttime: nat)

  /** Fields 3 onwards of the line, by position. */
  function StatOf(comm: string, fs: seq<string>): Option<Stat> {
    if |fs| < 20 then None
    else Some(Stat(comm, fs[0], ParsePpid(fs[1]), ParseUint(fs[11]), ParseUint(fs[12]), ParseUint(fs[19])))
  }

  /** The command name and what follows it. */
  function Frame(s: string): Option<(string, string)> {
    var open, close := First(s, '('), Last(s, ')');
    if open < 0 || close < 0 || close < open then None
    else Some((s[open + 1..close], s[close + 1..]))
  }

  function ParseStat(s: string): Option<Stat> {
    match Frame(s)
    case None => None
    case Some((comm, rest)) => StatOf(comm, Fields(rest))
  }

  // ----- printing -----

  function DigitChar(d: nat): (c: char)
    requires d < 10
    ensures IsDigit(c) && Digit(c) == d
  {
    '0' + d as char
  }

  /** %d of a natural number. */
  function Dec(n: nat): (s: string)
    ensures s != "" && forall i :: 0 <= i < |s| ==> IsDigit(s[i])
  {
    if n < 10 then [DigitChar(n)] else Dec(n / 10) + [DigitChar(n % 10)]
  }

  function DecInt(n: int): string {
    if n < 0 then "-" + Dec(-n) else Dec(n)
  }

  function JoinSpace(fs: seq<string>): string {
    if fs == [] then "" else " " + fs[0] + JoinSpace(fs[1..])
  }

  function StatLine(pid: nat, comm: string, fs: seq<string>): string {
    (Dec(pid) + " ") + "(" + comm + ")" + (JoinSpace(fs) + "\n")
  }

  // ----- numbers survive the trip -----

  lemma {:induction false} DigitsOfDec(n: nat, rest: string, max: nat)
    requires n <= max
    ensures Digits(Dec(n) + rest, 0, max) == Digits(rest, n, max)
  {
    if n >= 10 {
      var tail := [DigitChar(n % 10)] + rest;
      DigitsOfDec(n / 10, tail, max);
      assert Dec(n) + rest == Dec(n / 10) + tail;
      assert tail[1..] == rest;
    }
  }

  lemma {:induction false} DecRoundTrip(n: nat, max: nat)
    requires n <= max
    ensures ParseUintMax(Dec(n), max) == Num(n)
  {
    DigitsOfDec(n, "", max);
    assert Dec(n) + "" == Dec(n);
  }

  lemma {:induction false} UintRoundTrip(n: nat)
    requires n <= MAX_UINT64
    ensures ParseUint(Dec(n)) == n
  {
    DecRoundTrip(n, MAX_UINT64);
  }

  lemma PpidRoundTrip(n: int)
    requires -TWO_31 <= n < TWO_31
    ensures ParsePpid(DecInt(n)) == n
  {
    if n < 0 {
      DecRoundTrip(-n, 0xFFFF_FFFF);
    } else {
      DecRoundTrip(n, 0xFFFF_FFFF);
    }
  }

  /** The number a digit string writes, of any size. */
  function Value(s: string, acc: nat): nat
    requires forall i :: 0 <= i < |s| ==> IsDigit(s[i])
  {
    if s == "" then acc else Value(s[1..], acc * 10 + Digit(s[0]))
  }

  lemma {:induction false} ValueGrows(s: string, acc: nat)
    requires forall i :: 0 <= i < |s| ==> IsDigit(s[i])
    ensures Value(s, acc) >= acc
  {
    if s != "" { ValueGrows(s[1..], acc * 10 + Digit(s[0])); }
  }

  /** The digits a string starts with. */
  function Lead(s: string): (d: string)
    ensures d <= s && (forall i :: 0 <= i < |d| ==> IsDigit(d[i]))
    ensures d == s || !IsDigit(s[|d|])
  {
    if s == "" || !IsDigit(s[0]) then ""
    else
      assert s == [s[0]] + s[1..];
      [s[0]] + Lead(s[1..])
  }

  /** The loop stops at the first bad character or as soon as the digits exceed the maximum. */
  lemma {:induction false} DigitsExact(s: string, acc: nat, max: nat)
    requires acc <= max
    ensures Digits(s, acc, max) ==
            var v := Value(Lead(s), acc);
            if v > max then RangeError else if Lead(s) == s then Num(v) else SyntaxError
  {
    if s != "" && IsDigit(s[0]) {
      var next := acc * 10 + Digit(s[0]);
      assert Lead(s)[1..] == Lead(s[1..]) && s == [s[0]] + s[1..];
      if next <= max { DigitsExact(s[1..], next, max); } else { ValueGrows(Lead(s[1..]), next); }
    }
  }

  /** parseUint on every string: digits too large for 64 bits give the largest uint64, whatever follows
      them; otherwise a string of digits gives its value and anything else 0. */
  lemma {:induction false} UintExact(s: string)
    ensures ParseUint(s) ==
            var v := Value(Lead(s), 0);
            if v > MAX_UINT64 then MAX_UINT64 else if Lead(s) == s then v else 0
  {
    DigitsExact(s, 0, MAX_UINT64);
  }

  /** A string without its sign. */
  function Unsigned(s: string): string {
    if s != "" && (s[0] == '-' || s[0] == '+') then s[1..] else s
  }

  /** The parent pid on every string: digits that fit an int32 with their sign, and 0 for all others,
      malformed and out of range alike. */
  lemma PpidExact(s: string)
    ensures ParsePpid(s) ==
            var d, neg := Unsigned(s), s != "" && s[0] == '-';
            var v: int := Value(Lead(d), 0);
            if Lead(d) != d || v > TWO_31 || (v == TWO_31 && !neg) then 0 else if neg then -v else v
  {
    DigitsExact(Unsigned(s), 0, 0xFFFF_FFFF);
  }

  // ----- lines survive the trip -----

  /** Neither empty nor holding blanks or a closing parenthesis. */
  predicate PlainField(f: string) {
    f != "" && forall i :: 0 <= i < |f| ==> !IsSpace(f[i]) && f[i] != ')'
  }

  predicate PlainFields(fs: seq<string>) {
    forall i :: 0 <= i < |fs| ==> PlainField(fs[i])
  }

  lemma {:induction false} WordOf(f: string, rest: string)
    requires forall i :: 0 <= i < |f| ==> !IsSpace(f[i])
    requires rest != "" && IsSpace(rest[0])
    ensures Word(f + rest) == f
  {
    if f != "" {
      assert (f + rest)[1..] == f[1..] + rest;
      WordOf(f[1..], rest);
    }
  }

  lemma {:induction false} FieldsCons(f: string, rest: string)
    requires PlainField(f) && rest != "" && IsSpace(rest[0])
    ensures Fields(" " + f + rest) == [f] + Fields(rest)
  {
    WordOf(f, rest);
    assert (" " + f + rest)[1..] == f + rest;
    assert (f + rest)[|f|..] == rest;
    assert !IsSpace((f + rest)[0]);
  }

  lemma {:induction false} FieldsOfJoin(fs: seq<string>)
    requires PlainFields(fs)
    ensures Fields(JoinSpace(fs) + "\n") == fs
  {
    if fs != [] {
      var rest := JoinSpace(fs[1..]) + "\n";
      assert rest[0] == ' ' || rest[0] == '\n';
      FieldsOfJoin(fs[1..]);
      FieldsCons(fs[0], rest);
      assert JoinSpace(fs) + "\n" == " " + fs[0] + rest;
    }
  }

  lemma {:induction false} NoParenInJoin(fs: seq<string>)
    requires PlainFields(fs)
    ensures ')' !in JoinSpace(fs) + "\n"
  {
    if fs != [] {
      NoParenInJoin(fs[1..]);
    }
  }

  lemma {:induction false} FirstIs(before: string, c: char, after: string)
    requires c !in before
    ensures First(before + [c] + after, c) == |before|
  {
    var s := before + [c] + after;
    assert s[|before|] == c && s[..|before|] == before;
  }

  lemma {:induction false} LastIs(before: string, c: char, after: string)
    requires c !in after
    ensures Last(before + [c] + after, c) == |before|
  {
    var s := before + [c] + after;
    assert s[|before|] == c && s[|before| + 1..] == after;
  }

  /** Splitting at the first '(' and the last ')'. */
  lemma {:induction false} Brackets(head: string, comm: string, tail: string, s: string)
    requires '(' !in head && ')' !in tail && s == head + "(" + comm + ")" + tail
    ensures First(s, '(') == |head| && Last(s, ')') == |head| + 1 + |comm|
  {
    assert s == head + ['('] + (comm + ")" + tail);
    FirstIs(head, '(', comm + ")" + tail);
    LastIs(head + "(" + comm, ')', tail);
  }

  lemma {:induction false} Framed(head: string, comm: string, tail: string, s: string)
    requires '(' !in head && ')' !in tail && s == head + "(" + comm + ")" + tail
    ensures Frame(s) == Some((comm, tail))
  {
    Brackets(head, comm, tail, s);
    Slices(head, comm, tail, s);
  }

  lemma Slices(head: string, comm: string, tail: string, s: string)
    requires s == head + "(" + comm + ")" + tail
    ensures s[|head| + 1..|head| + 1 + |comm|] == comm && s[|head| + 1 + |comm| + 1..] == tail
  {
  }

  /** The heart of it: whatever the command name, parentheses, blanks and newlines included, a printed
      line parses back to that name and to its fields; with fewer than twenty it is refused. */
  lemma LineShape(pid: nat, comm: string, fs: seq<string>)
    requires PlainFields(fs)
    ensures ParseStat(StatLine(pid, comm, fs)) == StatOf(comm, fs)
  {
    NoParenInJoin(fs);
    FieldsOfJoin(fs);
    Framed(Dec(pid) + " ", comm, JoinSpace(fs) + "\n", StatLine(pid, comm, fs));
  }

  /** So every process reads back exactly: name, state, 32-bit parent and 64-bit times. */
  lemma ProcessRoundTrip(pid: nat, p: Stat, fs: seq<string>)
    requires |fs| >= 20 && PlainFields(fs)
    requires -TWO_31 <= p.ppid < TWO_31 && p.utime <= MAX_UINT64 && p.stime <= MAX_UINT64 && p.starttime <= MAX_UINT64
    requires fs[0] == p.state && fs[1] == DecInt(p.ppid) && fs[11] == Dec(p.utime) && fs[12] == Dec(p.stime)
             && fs[19] == Dec(p.starttime)
    ensures ParseStat(StatLine(pid, p.comm, fs)) == Some(p)
  {
    LineShape(pid, p.comm, fs);
    PpidRoundTrip(p.ppid);
    UintRoundTrip(p.utime);
    UintRoundTrip(p.stime);
    UintRoundTrip(p.starttime);
  }
}
