/** Go strings as byte sequences, hexadecimal text, and SHA-256 as a parameter. */
module Bytes {

  type byte = x: int | 0 <= x < 256

  /** A Go string is a sequence of bytes, not of characters. */
  type GoString = seq<byte>

  /** A SHA-256 output: [32]byte in the source. */
  type Digest = d: seq<byte> | |d| == 32 witness seq(32, _ => 0)

  /** SHA-256 is never opened up: every theorem holds for every function of this type. */
  type Sha256 = GoString -> Digest

  datatype Option<+T> = None | Some(value: T)

  datatype Result<+T, +E> = Ok(value: T) | Err(error: E)

  /** Two inputs offered as a hash collision. */
  datatype Collision = Collision(x: GoString, y: GoString)

  predicate IsCollision(sha: Sha256, c: Collision) {
    c.x != c.y && sha(c.x) == sha(c.y)
  }

  /** The bytes of an ASCII literal. */
  function Ascii(s: string): (r: GoString)
    ensures |r| == |s|
  {
    seq(|s|, i requires 0 <= i < |s| => (s[i] as int % 256) as byte)
  }

  /** ASCII characters are their own bytes. */
  lemma AsciiIs(s: string, i: nat)
    requires i < |s| && s[i] < 128 as char
    ensures Ascii(s)[i] == s[i] as int
  {
  }

  // ---- encoding/hex ----

  function HexDigit(n: int): byte
    requires 0 <= n < 16
  {
    if n < 10 then 48 + n else 87 + n
  }

  /** Digits and both cases of a-f are accepted, as hex.DecodeString does. */
  function Nibble(c: byte): (r: Option<int>)
    ensures r.Some? ==> 0 <= r.value < 16
  {
    if 48 <= c <= 57 then Some(c - 48)
    else if 97 <= c <= 102 then Some(c - 87)
    else if 65 <= c <= 70 then Some(c - 55)
    else None
  }

  function EncodeHex(b: seq<byte>): (s: GoString)
    ensures |s| == 2 * |b|
  {
    if b == [] then [] else [HexDigit(b[0] / 16), HexDigit(b[0] % 16)] + EncodeHex(b[1..])
  }

  function DecodeHex(s: GoString): (r: Option<seq<byte>>)
    ensures r.Some? ==> |s| == 2 * |r.value|
  {
    if s == [] then Some([])
    else if |s| == 1 then None
    else
      match (Nibble(s[0]), Nibble(s[1]), DecodeHex(s[2..]))
      case (Some(hi), Some(lo), Some(rest)) => Some([16 * hi + lo] + rest)
      case _ => None
  }

  lemma {:induction false} DecodeEncodeHex(b: seq<byte>)
    ensures DecodeHex(EncodeHex(b)) == Some(b)
  {
    if b != [] {
      DecodeEncodeHex(b[1..]);
      var s := EncodeHex(b);
      assert s[2..] == EncodeHex(b[1..]);
      assert [b[0]] + b[1..] == b;
    }
  }

  lemma EncodeHexInjective(a: seq<byte>, b: seq<byte>)
    requires EncodeHex(a) == EncodeHex(b)
    ensures a == b
  {
    DecodeEncodeHex(a);
    DecodeEncodeHex(b);
  }

  /** The sixteen digits, in lower case. */
  function LowerDigit(n: int): byte
    requires 0 <= n < 16
  {
    Ascii("0123456789abcdef")[n]
  }

  lemma HexDigitIs(n: int)
    requires 0 <= n < 16
    ensures HexDigit(n) == LowerDigit(n)
  {
  }

  /** Byte i is written as two of the sixteen lower-case digits, the higher one first. */
  lemma {:induction false} EncodeHexIs(b: seq<byte>, i: nat)
    requires i < |b|
    ensures EncodeHex(b)[2 * i] == LowerDigit(b[i] / 16)
    ensures EncodeHex(b)[2 * i + 1] == LowerDigit(b[i] % 16)
  {
    if i > 0 {
      EncodeHexIs(b[1..], i - 1);
      assert EncodeHex(b)[2..] == EncodeHex(b[1..]);
    } else {
      HexDigitIs(b[0] / 16);
      HexDigitIs(b[0] % 16);
    }
  }

  /** A to F in lower case. */
  function Lowered(s: GoString): (r: GoString)
    ensures |r| == |s|
  {
    seq(|s|, i requires 0 <= i < |s| => if 65 <= s[i] <= 70 then s[i] + 32 else s[i])
  }

  lemma LoweredSplits(s: GoString)
    requires |s| >= 2
    ensures Lowered(s)[2..] == Lowered(s[2..])
    ensures Lowered(s) == [Lowered(s)[0], Lowered(s)[1]] + Lowered(s[2..])
  {
  }

  /** Case does not matter to the decoder. */
  lemma {:induction false} DecodeLowered(s: GoString)
    ensures DecodeHex(Lowered(s)) == DecodeHex(s)
  {
    if |s| >= 2 {
      LoweredSplits(s);
      DecodeLowered(s[2..]);
    }
  }

  lemma {:induction false} EncodeDecoded(s: GoString)
    requires DecodeHex(s).Some?
    ensures EncodeHex(DecodeHex(s).value) == Lowered(s)
  {
    if s != [] {
      LoweredSplits(s);
      EncodeDecoded(s[2..]);
      var b := DecodeHex(s).value;
      assert b[1..] == DecodeHex(s[2..]).value;
    }
  }

  /** Exactly the hexadecimal texts decode, in either case, and each to the bytes whose text it is. */
  lemma DecodeIff(s: GoString, b: seq<byte>)
    ensures DecodeHex(s) == Some(b) <==> Lowered(s) == EncodeHex(b)
  {
    if DecodeHex(s) == Some(b) {
      EncodeDecoded(s);
    }
    if Lowered(s) == EncodeHex(b) {
      DecodeEncodeHex(b);
      DecodeLowered(s);
    }
  }

  // ---- cutting text ----

  lemma DropPrefix(p: GoString, x: GoString, y: GoString)
    requires p + x == p + y
    ensures x == y
  {
    assert (p + x)[|p|..] == x && (p + y)[|p|..] == y;
  }

  lemma DropSuffix(x: GoString, y: GoString, q: GoString)
    requires x + q == y + q
    ensures x == y
  {
    assert |x| == |y|;
    assert (x + q)[..|x|] == x && (y + q)[..|y|] == y;
  }
}
