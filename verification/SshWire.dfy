/** Payloads of SSH channel requests: sections 5 of RFC 4251 and 6.2, 6.4, 6.5, 6.7, 6.10 of RFC 4254.
    Lengths are computed in 32 bits, as the decoder computes them. */
module SshWire {

  const TWO_32: nat := 0x1_0000_0000

  type byte = x: int | 0 <= x < 256

  type bytes = seq<byte>

  type uint32 = x: int | 0 <= x < TWO_32

  /** What a parser does with a payload: a value, an error, or a slice-bounds panic. */
  datatype Parsed<T> = Ok(value: T) | Malformed | Panics

  // ----- uint32 -----

  function Word(a: int, b: int, c: int, d: int): int {
    a * 0x100_0000 + b * 0x1_0000 + c * 0x100 + d
  }

  function BeUint32(b: bytes): uint32
    requires |b| >= 4
  {
    Word(b[0], b[1], b[2], b[3])
  }

  /** exit >> 24, exit >> 16, exit >> 8, exit, each cut to a byte: the exit-status payload. */
  function ShiftedBytes(n: uint32): (b: bytes)
    ensures |b| == 4
  {
    [n / 0x100_0000, n / 0x1_0000 % 256, n / 0x100 % 256, n % 256]
  }

  lemma WordParts(n: int)
    requires 0 <= n < TWO_32
    ensures Word(n / 0x100_0000, n / 0x1_0000 % 256, n / 0x100 % 256, n % 256) == n
  {
    var x := n / 0x100;
    var y := x / 0x100;
    assert y == y / 0x100 * 0x100 + y % 0x100;
  }

  /** An exit status survives the trip. */
  lemma ExitStatusRoundTrip(n: uint32)
    ensures BeUint32(ShiftedBytes(n)) == n
  {
    WordParts(n);
  }

  /** The four bytes that stand for n. */
  ghost function EncodeUint32(n: uint32): (b: bytes)
    ensures |b| == 4 && BeUint32(b) == n
  {
    ExitStatusRoundTrip(n);
    var b: bytes :| |b| == 4 && BeUint32(b) == n;
    b
  }

  lemma SameWord(a: int, b: int, c: int, d: int, a': int, b': int, c': int, d': int)
    requires 0 <= a < 256 && 0 <= b < 256 && 0 <= c < 256 && 0 <= d < 256
    requires 0 <= a' < 256 && 0 <= b' < 256 && 0 <= c' < 256 && 0 <= d' < 256
    requires Word(a, b, c, d) == Word(a', b', c', d')
    ensures a == a' && b == b' && c == c' && d == d'
  {
  }

  lemma BytesDetermined(x: bytes, y: bytes)
    requires |x| == |y| == 4 && BeUint32(x) == BeUint32(y)
    ensures x == y
  {
    SameWord(x[0], x[1], x[2], x[3], y[0], y[1], y[2], y[3]);
  }

  lemma Uint32Unique(b: bytes)
    requires |b| >= 4
    ensures EncodeUint32(BeUint32(b)) == b[..4]
  {
    BytesDetermined(EncodeUint32(BeUint32(b)), b[..4]);
  }

  // ----- string -----

  ghost function EncodeString(s: bytes): bytes
    requires |s| < TWO_32
  {
    EncodeUint32(|s|) + s
  }

  /** uint32 addition. */
  function Add32(a: uint32, b: uint32): uint32 {
    if a + b < TWO_32 then a + b else a + b - TWO_32
  }

  /** uint32(len(b)). */
  function Len32(b: bytes): (n: uint32)
    ensures n <= |b| && (|b| < TWO_32 ==> n == |b|)
  {
    |b| % TWO_32
  }

  function UnmarshalString(b: bytes): Parsed<(bytes, bytes)> {
    if |b| < 4 then Malformed
    else
      var end := Add32(4, BeUint32(b));
      if Len32(b) < end then Malformed
      else if end < 4 then Panics
      else Ok((b[4..end], b[end..]))
  }

  lemma DecodedEncodes(b: bytes)
    requires UnmarshalString(b).Ok?
    ensures var (s, rest) := UnmarshalString(b).value; |s| + 4 < TWO_32 && b == EncodeString(s) + rest
  {
    Uint32Unique(b);
  }

  /** On payloads shorter than 4 GiB a success means the payload is exactly that string and that rest. */
  lemma StringIff(b: bytes, s: bytes, rest: bytes)
    requires |b| < TWO_32 && |s| < TWO_32
    ensures UnmarshalString(b) == Ok((s, rest)) <==> b == EncodeString(s) + rest
  {
    if UnmarshalString(b) == Ok((s, rest)) { DecodedEncodes(b); }
  }

  /** The other two answers, exactly: the sum 4 + n wraps for the four largest length prefixes, which
      panic; otherwise a payload is malformed just when it is too short. */
  lemma StringFailures(b: bytes)
    requires |b| < TWO_32
    ensures UnmarshalString(b) == Panics <==> |b| >= 4 && BeUint32(b) >= TWO_32 - 4
    ensures UnmarshalString(b) == Malformed <==>
            |b| < 4 || (BeUint32(b) < TWO_32 - 4 && |b| < 4 + BeUint32(b))
  {
  }

  /** With longer payloads the length itself wraps; decoding an encoded string works exactly while the
      wrapped length still covers it. */
  lemma LongPayload(s: bytes, rest: bytes)
    requires |s| + 4 < TWO_32
    ensures UnmarshalString(EncodeString(s) + rest) == Ok((s, rest)) <==> Len32(EncodeString(s) + rest) >= 4 + |s|
  {
  }

  // ----- pty-req, env, exec, window-change -----

  datatype Size = Size(cols: uint32, rows: uint32, xPx: uint32, yPx: uint32)

  datatype Pty = Pty(term: bytes, size: Size)

  ghost function EncodeSize(z: Size): (b: bytes)
    ensures |b| == 16
  {
    EncodeUint32(z.cols) + EncodeUint32(z.rows) + EncodeUint32(z.xPx) + EncodeUint32(z.yPx)
  }

  function SizeAt(b: bytes): Size
    requires |b| >= 16
  {
    Size(BeUint32(b[0..4]), BeUint32(b[4..8]), BeUint32(b[8..12]), BeUint32(b[12..16]))
  }

  function ParsePtyReq(p: bytes): Parsed<Pty> {
    match UnmarshalString(p)
    case Panics => Panics
    case Malformed => Malformed
    case Ok((term, rest)) => if |rest| < 16 then Malformed else Ok(Pty(term, SizeAt(rest)))
  }

  function ParseEnvReq(p: bytes): Parsed<(bytes, bytes)> {
    match UnmarshalString(p)
    case Panics => Panics
    case Malformed => Malformed
    case Ok((k, rest)) =>
      match UnmarshalString(rest)
      case Panics => Panics
      case Malformed => Malformed
      case Ok((v, _)) => Ok((k, v))
  }

  function ParseExecReq(p: bytes): Parsed<bytes> {
    match UnmarshalString(p)
    case Panics => Panics
    case Malformed => Malformed
    case Ok((line, _)) => Ok(line)
  }

  function ParseWinChReq(p: bytes): Parsed<Size> {
    if |p| < 16 then Malformed else Ok(SizeAt(p))
  }

  lemma Uint32Iff(b: bytes, n: uint32)
    requires |b| == 4
    ensures BeUint32(b) == n <==> b == EncodeUint32(n)
  {
    if BeUint32(b) == n { BytesDetermined(b, EncodeUint32(n)); }
  }

  lemma SizeIff(b: bytes, z: Size)
    requires |b| >= 16
    ensures SizeAt(b) == z <==> b[..16] == EncodeSize(z)
  {
    Uint32Iff(b[0..4], z.cols);
    Uint32Iff(b[4..8], z.rows);
    Uint32Iff(b[8..12], z.xPx);
    Uint32Iff(b[12..16], z.yPx);
  }

  /** Each parser accepts exactly the encodings of its fields followed by anything at all. */
  lemma PtyIff(b: bytes, p: Pty)
    requires |b| < TWO_32 && |p.term| < TWO_32
    ensures ParsePtyReq(b) == Ok(p) <==> EncodeString(p.term) + EncodeSize(p.size) <= b
  {
    var head, size := EncodeString(p.term), EncodeSize(p.size);
    if ParsePtyReq(b) == Ok(p) {
      var rest := UnmarshalString(b).value.1;
      DecodedEncodes(b);
      SizeIff(rest, p.size);
    }
    if head + size <= b {
      var rest := b[|head|..];
      StringIff(b, p.term, rest);
      SizeIff(rest, p.size);
    }
  }

  lemma EnvIff(b: bytes, k: bytes, v: bytes)
    requires |b| < TWO_32 && |k| < TWO_32 && |v| < TWO_32
    ensures ParseEnvReq(b) == Ok((k, v)) <==> EncodeString(k) + EncodeString(v) <= b
  {
    if ParseEnvReq(b) == Ok((k, v)) { EnvDecoded(b); }
    if EncodeString(k) + EncodeString(v) <= b { EnvEncoded(b, k, v); }
  }

  lemma EnvDecoded(b: bytes)
    requires ParseEnvReq(b).Ok?
    ensures var (k, v) := ParseEnvReq(b).value;
            |k| < TWO_32 && |v| < TWO_32 && EncodeString(k) + EncodeString(v) <= b
  {
    var (k, rest) := UnmarshalString(b).value;
    DecodedEncodes(b);
    DecodedEncodes(rest);
  }

  lemma {:induction false} EnvEncoded(b: bytes, k: bytes, v: bytes)
    requires |b| < TWO_32 && |k| < TWO_32 && |v| < TWO_32 && EncodeString(k) + EncodeString(v) <= b
    ensures ParseEnvReq(b) == Ok((k, v))
  {
    var ek, ev := EncodeString(k), EncodeString(v);
    var rest, tail := b[|ek|..], b[|ek + ev|..];
    TwoParts(b, ek, ev);
    StringIff(b, k, rest);
    StringIff(rest, v, tail);
  }

  lemma TwoParts(b: bytes, x: bytes, y: bytes)
    requires x + y <= b
    ensures b == x + b[|x|..] && b[|x|..] == y + b[|x + y|..]
  {
    assert (x + y)[|x|..] == y;
  }

  lemma ExecIff(b: bytes, line: bytes)
    requires |b| < TWO_32 && |line| < TWO_32
    ensures ParseExecReq(b) == Ok(line) <==> EncodeString(line) <= b
  {
    if ParseExecReq(b) == Ok(line) {
      StringIff(b, line, UnmarshalString(b).value.1);
    }
    if EncodeString(line) <= b {
      StringIff(b, line, b[|EncodeString(line)|..]);
    }
  }

  lemma WinChIff(b: bytes, z: Size)
    ensures ParseWinChReq(b) == Ok(z) <==> EncodeSize(z) <= b
  {
    if |b| >= 16 { SizeIff(b, z); }
  }

  /** The largest prefix, with nothing behind it. */
  lemma LargestPrefixPanics()
    ensures UnmarshalString([255, 255, 255, 255]) == Panics
  {
    StringFailures([255, 255, 255, 255]);
  }
}
