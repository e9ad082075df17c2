/** JSON text as Go's encoding/json writes it (section 7 of RFC 8259): strings and integers, and reading them back. */
module JsonText {
  import opened Bytes

  // ---- UTF-8, as utf8.DecodeRuneInString reads it ----

  /** One reading step over a Go string: a well-formed UTF-8 sequence, or a single byte that is not one. */
  datatype Rune = Bad | Good(bytes: seq<byte>)

  predicate Cont(b: byte) {
    128 <= b < 192
  }

  /** Number of bytes of the well-formed UTF-8 sequence at the start of s, or 0. */
  function RuneSize(s: GoString): (n: nat)
    requires s != []
    ensures n <= |s| && n <= 4
  {
    var b := s[0];
    if b < 128 then 1
    else if |s| >= 2 && 194 <= b < 224 && Cont(s[1]) then 2
    else if |s| >= 3 && 224 <= b < 240 && Cont(s[1]) && Cont(s[2])
            && (b == 224 ==> s[1] >= 160) && (b == 237 ==> s[1] < 160) then 3
    else if |s| >= 4 && 240 <= b < 245 && Cont(s[1]) && Cont(s[2]) && Cont(s[3])
            && (b == 240 ==> s[1] >= 144) && (b == 244 ==> s[1] < 144) then 4
    else 0
  }

  function NextRune(s: GoString): (r: Rune)
    requires s != []
    ensures r.Good? ==> r.bytes != [] && r.bytes <= s
  {
    if RuneSize(s) == 0 then Bad else Good(s[..RuneSize(s)])
  }

  function RuneWidth(r: Rune): nat {
    match r
    case Bad => 1
    case Good(b) => |b|
  }

  /** The string read rune by rune; bytes that are not UTF-8 all read alike. */
  function Runes(s: GoString): seq<Rune>
    decreases |s|
  {
    if s == [] then [] else [NextRune(s)] + Runes(s[RuneWidth(NextRune(s))..])
  }

  predicate ValidUtf8(s: GoString) {
    Bad !in Runes(s)
  }

  lemma NoneBad(r: Rune, rest: seq<Rune>)
    requires Bad !in [r] + rest
    ensures r.Good? && Bad !in rest
  {
    assert ([r] + rest)[0] == r;
    forall i | 0 <= i < |rest|
      ensures rest[i] != Bad
    {
      assert ([r] + rest)[i + 1] == rest[i];
    }
  }

  lemma RunesSplit(s: GoString)
    requires s != []
    ensures Runes(s) == [NextRune(s)] + Runes(s[RuneWidth(NextRune(s))..])
  {
  }

  /** A well-formed string is its first rune and a well-formed string. */
  lemma ValidTail(s: GoString)
    requires s != [] && ValidUtf8(s)
    ensures NextRune(s).Good?
    ensures var n := |NextRune(s).bytes|;
            s == NextRune(s).bytes + s[n..] && Runes(s) == [NextRune(s)] + Runes(s[n..]) && ValidUtf8(s[n..])
  {
    var r := NextRune(s);
    RunesSplit(s);
    NoneBad(r, Runes(s[RuneWidth(r)..]));
  }

  /** A well-formed string is the only string that reads as it does. */
  lemma {:induction false} ValidUtf8Unique(s: GoString, t: GoString)
    requires ValidUtf8(s) && Runes(s) == Runes(t)
    ensures s == t
    decreases |s|
  {
    if s != [] {
      assert t != [];
      var r := Runes(s)[0];
      assert r == NextRune(s) == NextRune(t);
      assert r in Runes(s);
      var n := |r.bytes|;
      assert Runes(s)[1..] == Runes(s[n..]) && Runes(t)[1..] == Runes(t[n..]);
      ValidUtf8Unique(s[n..], t[n..]);
      assert s == r.bytes + s[n..] && t == r.bytes + t[n..];
    }
  }

  // ---- section 3 of RFC 3629 ----

  predicate IsScalar(n: int) {
    0 <= n <= 0x10FFFF && !(0xD800 <= n <= 0xDFFF)
  }

  /** The bytes of a Unicode scalar value. */
  function Utf8(n: int): (b: seq<byte>)
    requires IsScalar(n)
    ensures b != []
  {
    if n <= 0x7F then [n]
    else if n <= 0x7FF then [0xC0 + n / 64, 0x80 + n % 64]
    else if n <= 0xFFFF then [0xE0 + n / 64 / 64, 0x80 + n / 64 % 64, 0x80 + n % 64]
    else [0xF0 + n / 64 / 64 / 64, 0x80 + n / 64 / 64 % 64, 0x80 + n / 64 % 64, 0x80 + n % 64]
  }

  predicate RuneBytes(b: seq<byte>) {
    b != [] && RuneSize(b) == |b|
  }

  /** Six bits more. */
  function SixMore(n: int, b: byte): int {
    n * 64 + (b as int - 128)
  }

  function CodePoint(b: seq<byte>): (n: int)
    requires RuneBytes(b)
  {
    if |b| == 1 then b[0]
    else if |b| == 2 then SixMore(b[0] as int - 192, b[1])
    else if |b| == 3 then SixMore(SixMore(b[0] as int - 224, b[1]), b[2])
    else SixMore(SixMore(SixMore(b[0] as int - 240, b[1]), b[2]), b[3])
  }

  lemma SixBits(n: int, b: byte)
    requires Cont(b)
    ensures SixMore(n, b) / 64 == n && 0x80 + SixMore(n, b) % 64 == b
  {
  }

  lemma SixBitsBack(n: int)
    requires n >= 0
    ensures Cont(0x80 + n % 64) && SixMore(n / 64, 0x80 + n % 64) == n
  {
  }

  lemma RuneSizePrefix(b: seq<byte>, after: GoString)
    requires b != [] && RuneSize(b) == |b|
    ensures RuneSize(b + after) == |b|
    ensures NextRune(b + after) == Good(b)
  {
    assert (b + after)[..|b|] == b;
  }

  /** The encoding of every scalar value is read as one rune, whatever follows. */
  lemma ScalarIsRead(n: int, after: GoString)
    requires IsScalar(n)
    ensures NextRune(Utf8(n) + after) == Good(Utf8(n))
    ensures RuneBytes(Utf8(n)) && CodePoint(Utf8(n)) == n
  {
    SixBitsBack(n);
    SixBitsBack(n / 64);
    SixBitsBack(n / 64 / 64);
    RuneSizePrefix(Utf8(n), after);
  }

  lemma TwoBytes(b: seq<byte>)
    requires RuneBytes(b) && |b| == 2
    ensures IsScalar(CodePoint(b)) && Utf8(CodePoint(b)) == b
  {
    SixBits(b[0] as int - 192, b[1]);
  }

  lemma ThreeBytes(b: seq<byte>)
    requires RuneBytes(b) && |b| == 3
    ensures IsScalar(CodePoint(b)) && Utf8(CodePoint(b)) == b
  {
    var m := SixMore(b[0] as int - 224, b[1]);
    SixBits(b[0] as int - 224, b[1]);
    SixBits(m, b[2]);
  }

  lemma FourBytes(b: seq<byte>)
    requires RuneBytes(b) && |b| == 4
    ensures IsScalar(CodePoint(b)) && Utf8(CodePoint(b)) == b
  {
    var m := SixMore(b[0] as int - 240, b[1]);
    SixBits(b[0] as int - 240, b[1]);
    SixBits(m, b[2]);
    SixBits(SixMore(m, b[2]), b[3]);
  }

  lemma RuneIsScalar(b: seq<byte>)
    requires RuneBytes(b)
    ensures IsScalar(CodePoint(b)) && Utf8(CodePoint(b)) == b
  {
    if |b| == 2 {
      TwoBytes(b);
    } else if |b| == 3 {
      ThreeBytes(b);
    } else if |b| == 4 {
      FourBytes(b);
    }
  }

  /** Runes are the encodings of scalar values and nothing else; a byte at which none starts is bad. */
  lemma NextRuneIs(s: GoString)
    requires s != []
    ensures NextRune(s).Bad? <==> forall n :: IsScalar(n) ==> !(Utf8(n) <= s)
    ensures forall n :: IsScalar(n) && Utf8(n) <= s ==> NextRune(s) == Good(Utf8(n))
  {
    forall n | IsScalar(n) && Utf8(n) <= s
      ensures NextRune(s) == Good(Utf8(n))
    {
      ScalarIsRead(n, s[|Utf8(n)|..]);
      assert s == Utf8(n) + s[|Utf8(n)|..];
    }
    if NextRune(s).Good? {
      var b := NextRune(s).bytes;
      RuneIsScalar(b);
      assert Utf8(CodePoint(b)) <= s;
    }
  }

  // ---- string escaping ----

  const QUOTE: byte := 34
  const BACKSLASH: byte := 92

  /** The letter of the two-character escape of b, or 0: Go 1.26 has short forms for \" \\ \b \f \n \r \t. */
  function ShortEscape(b: byte): byte {
    if b == QUOTE then QUOTE
    else if b == BACKSLASH then BACKSLASH
    else if b == 8 then 98
    else if b == 12 then 102
    else if b == 10 then 110
    else if b == 13 then 114
    else if b == 9 then 116
    else 0
  }

  /** Bytes written as they are: printable ASCII except the quote, the backslash and the HTML characters. */
  predicate Plain(b: byte) {
    32 <= b < 128 && b != QUOTE && b != BACKSLASH && b != 60 && b != 62 && b != 38
  }

  function HexEscape(hi: byte, lo: byte): (r: GoString)
    ensures |r| == 6
  {
    [BACKSLASH, 117] + EncodeHex([hi, lo])
  }

  /** U+2028 and U+2029, which Go writes as escapes. */
  predicate LineSeparator(b: seq<byte>) {
    |b| == 3 && b[0] == 226 && b[1] == 128 && (b[2] == 168 || b[2] == 169)
  }

  function EscapeRune(r: Rune): (e: GoString)
    ensures r.Good? && r.bytes != [] ==> e != []
  {
    match r
    case Bad => HexEscape(255, 253)
    case Good(bs) =>
      if |bs| == 1 && bs[0] < 128 then
        if Plain(bs[0]) then bs
        else if ShortEscape(bs[0]) != 0 then [BACKSLASH, ShortEscape(bs[0])]
        else HexEscape(0, bs[0])
      else if LineSeparator(bs) then HexEscape(32, 40 + bs[2] - 168)
      else bs
  }

  function EscapeRunes(rs: seq<Rune>): GoString {
    if rs == [] then [] else EscapeRune(rs[0]) + EscapeRunes(rs[1..])
  }

  /** json.Marshal of a string. */
  function QuoteString(s: GoString): GoString {
    [QUOTE] + EscapeRunes(Runes(s)) + [QUOTE]
  }

  // ---- reading an escaped string back ----

  function Unshort(c: byte): byte {
    if c == QUOTE then QUOTE
    else if c == BACKSLASH then BACKSLASH
    else if c == 98 then 8
    else if c == 102 then 12
    else if c == 110 then 10
    else if c == 114 then 13
    else if c == 116 then 9
    else 0
  }

  /** Reads one escaped rune and says how many bytes it took. */
  function ReadRune(s: GoString): (r: Option<(Rune, nat)>)
    requires s != []
    ensures r.Some? ==> 0 < r.value.1 <= |s|
  {
    if s[0] != BACKSLASH then
      if RuneSize(s) == 0 then None else Some((NextRune(s), RuneSize(s)))
    else if |s| >= 2 && Unshort(s[1]) != 0 then Some((Good([Unshort(s[1])]), 2))
    else if |s| >= 6 && s[1] == 117 then
      match DecodeHex(s[2..6])
      case None => None
      case Some(b) =>
        if b == [255, 253] then Some((Bad, 6))
        else if b[0] == 0 then Some((Good([b[1]]), 6))
        else if b[0] == 32 && (b[1] == 40 || b[1] == 41) then Some((Good([226, 128, 168 + b[1] - 40]), 6))
        else None
    else None
  }

  /** Reads runes up to the closing quote; returns them with what follows it. */
  function ReadRunes(s: GoString): (r: Option<(seq<Rune>, GoString)>)
    ensures r.Some? ==> |r.value.1| < |s|
    decreases |s|
  {
    if s == [] then None
    else if s[0] == QUOTE then Some(([], s[1..]))
    else
      match ReadRune(s)
      case None => None
      case Some((rune, n)) =>
        match ReadRunes(s[n..])
        case None => None
        case Some((rest, after)) => Some(([rune] + rest, after))
  }

  /** A rune that NextRune can produce. */
  predicate IsRune(r: Rune) {
    r.Good? ==> r.bytes != [] && RuneSize(r.bytes) == |r.bytes|
  }

  lemma NextRuneIsRune(s: GoString)
    requires s != []
    ensures IsRune(NextRune(s))
  {
  }

  lemma {:induction false} RunesAreRunes(s: GoString)
    ensures forall r :: r in Runes(s) ==> IsRune(r)
    decreases |s|
  {
    if s != [] {
      NextRuneIsRune(s);
      RunesAreRunes(s[RuneWidth(NextRune(s))..]);
    }
  }

  lemma ReadHexEscape(hi: byte, lo: byte, after: GoString)
    ensures DecodeHex((HexEscape(hi, lo) + after)[2..6]) == Some([hi, lo])
  {
    assert (HexEscape(hi, lo) + after)[2..6] == EncodeHex([hi, lo]);
    DecodeEncodeHex([hi, lo]);
  }

  lemma ReadEscapedRune(r: Rune, after: GoString)
    requires IsRune(r)
    ensures var e := EscapeRune(r);
            e != [] && e[0] != QUOTE && ReadRune(e + after) == Some((r, |e|))
  {
    var e := EscapeRune(r);
    match r
    case Bad => ReadHexEscape(255, 253, after);
    case Good(bs) =>
      if |bs| == 1 && bs[0] < 128 {
        assert bs == [bs[0]];
        if Plain(bs[0]) {
          RuneSizePrefix(bs, after);
        } else if ShortEscape(bs[0]) == 0 {
          ReadHexEscape(0, bs[0], after);
        }
      } else if LineSeparator(bs) {
        ReadHexEscape(32, 40 + bs[2] - 168, after);
        assert bs == [226, 128, bs[2]];
      } else {
        RuneSizePrefix(bs, after);
      }
  }

  lemma {:induction false} ReadEscapedRunes(rs: seq<Rune>, after: GoString)
    requires forall r :: r in rs ==> IsRune(r)
    ensures ReadRunes(EscapeRunes(rs) + [QUOTE] + after) == Some((rs, after))
  {
    var s := EscapeRunes(rs) + [QUOTE] + after;
    if rs == [] {
      assert s == [QUOTE] + after;
    } else {
      var e, rest := EscapeRune(rs[0]), EscapeRunes(rs[1..]) + [QUOTE] + after;
      assert s == e + rest;
      ReadEscapedRune(rs[0], rest);
      assert s[|e|..] == rest;
      ReadEscapedRunes(rs[1..], after);
      assert [rs[0]] + rs[1..] == rs;
    }
  }

  function QuotedBody(s: GoString, after: GoString): GoString {
    EscapeRunes(Runes(s)) + [QUOTE] + after
  }

  /** Reading a quoted string gives back its runes and stops exactly at its end. */
  lemma ReadQuoted(s: GoString, after: GoString)
    ensures QuoteString(s) + after == [QUOTE] + QuotedBody(s, after)
    ensures ReadRunes(QuotedBody(s, after)) == Some((Runes(s), after))
  {
    RunesAreRunes(s);
    ReadEscapedRunes(Runes(s), after);
  }

  lemma BodyOf(s: GoString, x: GoString, t: GoString, y: GoString)
    requires QuoteString(s) + x == QuoteString(t) + y
    ensures QuotedBody(s, x) == QuotedBody(t, y)
  {
    assert QuoteString(s) + x == [QUOTE] + QuotedBody(s, x);
    assert QuoteString(t) + y == [QUOTE] + QuotedBody(t, y);
    assert (QuoteString(s) + x)[1..] == QuotedBody(s, x);
    assert (QuoteString(t) + y)[1..] == QuotedBody(t, y);
  }

  /** Two quoted strings with text behind them agree only if both the runes and the text behind agree. */
  lemma QuotedSplits(s: GoString, x: GoString, t: GoString, y: GoString)
    requires QuoteString(s) + x == QuoteString(t) + y
    ensures Runes(s) == Runes(t) && x == y
  {
    BodyOf(s, x, t, y);
    ReadQuoted(s, x);
    ReadQuoted(t, y);
  }

  // ---- integers ----

  /** strconv.AppendInt in base 10. */
  function Decimal(n: int): (s: GoString)
    ensures s != []
    decreases n < 0, if n < 0 then -n else n
  {
    if n < 0 then [45] + Decimal(-n)
    else if n < 10 then [48 + n]
    else Decimal(n / 10) + [48 + n % 10]
  }

  lemma {:induction false} DecimalDigits(n: nat)
    ensures forall i :: 0 <= i < |Decimal(n)| ==> 48 <= Decimal(n)[i] <= 57
    ensures n >= 10 ==> |Decimal(n)| > 1
  {
    if n >= 10 {
      DecimalDigits(n / 10);
    }
  }

  /** The number that a string of decimal digits denotes. */
  function DigitsValue(digits: seq<byte>): int {
    if digits == [] then 0 else 10 * DigitsValue(digits[..|digits| - 1]) + (digits[|digits| - 1] as int - 48)
  }

  /** The digits denote the number, without leading zeros; a minus sign goes before those of a negative one. */
  lemma {:induction false} DecimalDenotes(n: int)
    ensures n >= 0 ==> DigitsValue(Decimal(n)) == n && forall i :: 0 <= i < |Decimal(n)| ==> 48 <= Decimal(n)[i] <= 57
    ensures n > 0 ==> Decimal(n)[0] != 48
    ensures n < 0 ==> Decimal(n) == [45] + Decimal(-n)
    ensures Decimal(0) == [48]
    decreases n
  {
    if n >= 10 {
      DecimalDenotes(n / 10);
      assert Decimal(n)[..|Decimal(n)| - 1] == Decimal(n / 10);
    } else if n >= 0 {
      assert Decimal(n)[..0] == [];
    }
  }

  lemma DecimalSign(n: int)
    ensures Decimal(n)[0] == 45 <==> n < 0
  {
    if n >= 0 {
      DecimalDigits(n);
    }
  }

  lemma {:induction false} DecimalInjective(m: int, n: int)
    requires Decimal(m) == Decimal(n)
    ensures m == n
    decreases m < 0, if m < 0 then -m else m
  {
    DecimalSign(m);
    DecimalSign(n);
    if m < 0 && n < 0 {
      assert Decimal(m)[1..] == Decimal(-m) && Decimal(n)[1..] == Decimal(-n);
      DecimalInjective(-m, -n);
    } else if m >= 0 && n >= 0 {
      DecimalDigits(m);
      DecimalDigits(n);
      if m >= 10 && n >= 10 {
        var s, k := Decimal(m), |Decimal(m)| - 1;
        assert s[..k] == Decimal(m / 10) == Decimal(n / 10);
        assert s[k] == 48 + m % 10 == 48 + n % 10;
        DecimalInjective(m / 10, n / 10);
      }
    }
  }
}
