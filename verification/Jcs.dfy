/**
 * RFC 8785 beside chain/canonical.go: the text that sections 3.2.2 and 3.2.3 of RFC 8785 ask for, and
 * exactly which documents the code gives that text. The code keeps number literals; how the RFC prints
 * numbers anew, as ECMAScript does, is a parameter.
 */
module Jcs {
  import opened Bytes
  import opened JsonText
  import opened Canonical

  // ---- strings: section 3.2.2.2 of RFC 8785 ----

  /** The table of section 3.2.2.2: seven two-character escapes, four digits for the other control characters. */
  function JcsByte(c: byte): (e: GoString)
    ensures e != []
  {
    if c == 8 then Ascii("\\b")
    else if c == 9 then Ascii("\\t")
    else if c == 10 then Ascii("\\n")
    else if c == 12 then Ascii("\\f")
    else if c == 13 then Ascii("\\r")
    else if c == 34 then Ascii("\\\"")
    else if c == 92 then Ascii("\\\\")
    else if c < 32 then Ascii("\\u00") + [LowerDigit(c / 16), LowerDigit(c % 16)]
    else [c]
  }

  /** Everything else stands for itself; a byte that is no UTF-8 is written as the replacement character. */
  function JcsRune(r: Rune): GoString {
    match r
    case Bad => Ascii("\\ufffd")
    case Good(b) => if |b| == 1 then JcsByte(b[0]) else b
  }

  function JcsRunes(rs: seq<Rune>): GoString {
    if rs == [] then [] else JcsRune(rs[0]) + JcsRunes(rs[1..])
  }

  function JcsQuoting(): Quoting {
    (s: GoString) => [QUOTE] + JcsRunes(Runes(s)) + [QUOTE]
  }

  /** The characters <, >, &, U+2028 and U+2029, which the code escapes and the RFC does not. */
  predicate Special(r: Rune) {
    r.Good? && (r.bytes == [60] || r.bytes == [62] || r.bytes == [38] || LineSeparator(r.bytes))
  }

  predicate NoSpecialRunes(rs: seq<Rune>) {
    forall i :: 0 <= i < |rs| ==> !Special(rs[i])
  }

  lemma FourDigits(hi: byte, lo: byte)
    ensures EncodeHex([hi, lo]) ==
            [LowerDigit(hi / 16), LowerDigit(hi % 16), LowerDigit(lo / 16), LowerDigit(lo % 16)]
  {
    EncodeHexIs([hi, lo], 0);
    EncodeHexIs([hi, lo], 1);
  }

  lemma HexEscapeIs(hi: byte, lo: byte)
    ensures HexEscape(hi, lo) ==
            Ascii("\\u") + [LowerDigit(hi / 16), LowerDigit(hi % 16), LowerDigit(lo / 16), LowerDigit(lo % 16)]
  {
    FourDigits(hi, lo);
    assert Ascii("\\u") == [BACKSLASH, 117];
  }

  /** What the code writes for an ASCII character without a short form. */
  lemma HexText(c: byte, text: GoString)
    requires c < 128 && !Plain(c) && ShortEscape(c) == 0
    requires text == Ascii("\\u00") + [HexDigit(c / 16), HexDigit(c % 16)]
    ensures EscapeRune(Good([c])) == text
  {
    HexEscapeIs(0, c);
    HexDigitIs(c / 16);
    HexDigitIs(c % 16);
  }

  lemma ControlText(c: byte)
    requires c < 32 && ShortEscape(c) == 0
    ensures EscapeRune(Good([c])) == JcsByte(c)
  {
    HexDigitIs(c / 16);
    HexDigitIs(c % 16);
    HexText(c, JcsByte(c));
  }

  /** The code's escapes are those of the RFC, except for the five special characters. */
  lemma RuneTexts(r: Rune)
    requires IsRune(r)
    ensures if Special(r) then |JcsRune(r)| < |EscapeRune(r)| else JcsRune(r) == EscapeRune(r)
  {
    match r
    case Bad => HexEscapeIs(255, 253);
    case Good(b) =>
      if |b| == 1 {
        assert b == [b[0]];
        if b[0] < 32 && ShortEscape(b[0]) == 0 {
          ControlText(b[0]);
        }
      }
  }

  lemma SeparatorTexts()
    ensures EscapeRune(Good([226, 128, 168])) == Ascii("\\u2028")
    ensures EscapeRune(Good([226, 128, 169])) == Ascii("\\u2029")
  {
    HexEscapeIs(32, 40);
    HexEscapeIs(32, 41);
  }

  /** What the code writes for the five special characters. */
  lemma SpecialTexts()
    ensures EscapeRune(Good([60])) == Ascii("\\u003c")
    ensures EscapeRune(Good([62])) == Ascii("\\u003e")
    ensures EscapeRune(Good([38])) == Ascii("\\u0026")
    ensures EscapeRune(Good([226, 128, 168])) == Ascii("\\u2028")
    ensures EscapeRune(Good([226, 128, 169])) == Ascii("\\u2029")
  {
    HexText(60, Ascii("\\u003c"));
    HexText(62, Ascii("\\u003e"));
    HexText(38, Ascii("\\u0026"));
    SeparatorTexts();
  }

  /** The code's text of a string is longer exactly when it holds a special character, and else the same. */
  lemma {:induction false} RunesTexts(rs: seq<Rune>)
    requires forall r :: r in rs ==> IsRune(r)
    ensures NoSpecialRunes(rs) ==> JcsRunes(rs) == EscapeRunes(rs)
    ensures !NoSpecialRunes(rs) ==> |JcsRunes(rs)| < |EscapeRunes(rs)|
  {
    if rs != [] {
      RuneTexts(rs[0]);
      RunesTexts(rs[1..]);
      assert NoSpecialRunes(rs) <==> !Special(rs[0]) && NoSpecialRunes(rs[1..]) by {
        assert rs == [rs[0]] + rs[1..];
      }
    }
  }

  lemma ReadJcsRune(r: Rune, after: GoString)
    requires IsRune(r)
    ensures var e := JcsRune(r);
            e != [] && e[0] != QUOTE && ReadRune(e + after) == Some((r, |e|))
  {
    RuneTexts(r);
    if Special(r) {
      RuneSizePrefix(r.bytes, after);
      assert |r.bytes| == 1 ==> r.bytes == [r.bytes[0]];
    } else {
      ReadEscapedRune(r, after);
    }
  }

  lemma {:induction false} ReadJcsRunes(rs: seq<Rune>, after: GoString)
    requires forall r :: r in rs ==> IsRune(r)
    ensures ReadRunes(JcsRunes(rs) + [QUOTE] + after) == Some((rs, after))
  {
    var s := JcsRunes(rs) + [QUOTE] + after;
    if rs == [] {
      assert s == [QUOTE] + after;
    } else {
      var e, rest := JcsRune(rs[0]), JcsRunes(rs[1..]) + [QUOTE] + after;
      assert s == e + rest;
      ReadJcsRune(rs[0], rest);
      assert s[|e|..] == rest;
      ReadJcsRunes(rs[1..], after);
      assert [rs[0]] + rs[1..] == rs;
    }
  }

  lemma CutQuote(inner: GoString, after: GoString)
    ensures var t := [QUOTE] + inner + [QUOTE] + after;
            t != [] && t[0] == QUOTE && t[1..] == inner + [QUOTE] + after
  {
  }

  lemma JcsReads(s: GoString, after: GoString)
    ensures QuoteReads(JcsQuoting(), s, after)
  {
    var body := JcsRunes(Runes(s)) + [QUOTE] + after;
    RunesAreRunes(s);
    ReadJcsRunes(Runes(s), after);
    assert JcsQuoting()(s) == [QUOTE] + JcsRunes(Runes(s)) + [QUOTE];
    CutQuote(JcsRunes(Runes(s)), after);
  }

  lemma JcsQuotingReadable()
    ensures Readable(JcsQuoting())
  {
    forall s, after
      ensures QuoteReads(JcsQuoting(), s, after)
    {
      JcsReads(s, after);
    }
  }

  // ---- key order: section 3.2.3 of RFC 8785 ----

  /** UTF-16 code units. */
  function Units(n: int): (u: seq<int>)
    ensures u != []
  {
    if n < 65536 then [n] else [55296 + (n - 65536) / 1024, 56320 + (n - 65536) % 1024]
  }

  predicate GoodRunes(rs: seq<Rune>) {
    forall i :: 0 <= i < |rs| ==> rs[i].Good? && RuneBytes(rs[i].bytes)
  }

  /** The code units of one rune; what is not UTF-8 reads as U+FFFD. */
  function UnitsOf(r: Rune): seq<int> {
    if r.Good? && RuneBytes(r.bytes) then Units(CodePoint(r.bytes)) else [65533]
  }

  function Utf16(rs: seq<Rune>): seq<int> {
    if rs == [] then [] else UnitsOf(rs[0]) + Utf16(rs[1..])
  }

  /** U+E000 to U+FFFF. */
  predicate HighBmp(b: seq<byte>) {
    |b| == 3 && b[0] >= 238
  }

  /** U+10000 and above. */
  predicate Astral(b: seq<byte>) {
    |b| == 4
  }

  predicate Crosses(b: seq<byte>, c: seq<byte>) {
    (HighBmp(b) && Astral(c)) || (Astral(b) && HighBmp(c))
  }

  /** Where the two first differ, one has a character from U+E000 to U+FFFF and the other one beyond. */
  predicate Straddles(a: seq<Rune>, b: seq<Rune>) {
    a != [] && b != [] &&
    if a[0] == b[0] then Straddles(a[1..], b[1..])
    else a[0].Good? && b[0].Good? && Crosses(a[0].bytes, b[0].bytes)
  }

  lemma {:induction false} LessAt(a: seq<int>, b: seq<int>, k: nat)
    requires k < |a| && k < |b| && a[..k] == b[..k] && a[k] != b[k]
    ensures Less(a, b) <==> a[k] < b[k]
  {
    if k > 0 {
      assert a[0] == a[..k][0] == b[..k][0] == b[0];
      assert a[1..][..k - 1] == a[..k][1..] == b[..k][1..] == b[1..][..k - 1];
      LessAt(a[1..], b[1..], k - 1);
    }
  }

  lemma {:induction false} LessPrefix(p: seq<int>, a: seq<int>, b: seq<int>)
    ensures Less(p + a, p + b) <==> Less(a, b)
  {
    if p == [] {
      assert p + a == a && p + b == b;
    } else {
      assert (p + a)[1..] == p[1..] + a && (p + b)[1..] == p[1..] + b;
      LessPrefix(p[1..], a, b);
    }
  }

  /** UTF-8 is read off its lead byte, and orders as code points do. */
  lemma FirstDifference(b: seq<byte>, c: seq<byte>) returns (k: nat)
    requires RuneBytes(b) && RuneBytes(c) && b != c
    ensures k < |b| && k < |c| && b[..k] == c[..k] && b[k] != c[k]
    ensures b[k] < c[k] <==> CodePoint(b) < CodePoint(c)
    ensures CodePoint(b) != CodePoint(c)
  {
    if b[0] != c[0] {
      k := 0;
    } else {
      assert |b| == |c|;
      if b[1] != c[1] {
        k := 1;
      } else if b[2] != c[2] {
        k := 2;
      } else {
        k := 3;
      }
    }
  }

  lemma ByteOrder(b: seq<byte>, x: seq<byte>, c: seq<byte>, y: seq<byte>)
    requires RuneBytes(b) && RuneBytes(c) && b != c
    ensures Less(b + x, c + y) <==> CodePoint(b) < CodePoint(c)
  {
    var k := FirstDifference(b, c);
    assert (b + x)[..k] == b[..k] == c[..k] == (c + y)[..k];
    LessAt(b + x, c + y, k);
  }

  /** Where the planes lie. */
  lemma CodePointRange(b: seq<byte>)
    requires RuneBytes(b)
    ensures 0 <= CodePoint(b) < 1114112
    ensures Astral(b) <==> CodePoint(b) >= 65536
    ensures HighBmp(b) <==> 57344 <= CodePoint(b) < 65536
    ensures !(55296 <= CodePoint(b) < 57344)
  {
  }

  lemma UnitOrder(m: int, x: seq<int>, n: int, y: seq<int>)
    requires 0 <= m < 1114112 && 0 <= n < 1114112 && m != n
    requires !(55296 <= m < 57344) && !(55296 <= n < 57344)
    ensures Less(Units(m) + x, Units(n) + y) <==>
              if (57344 <= m < 65536 <= n) || (57344 <= n < 65536 <= m) then n < m else m < n
  {
    var a, b := Units(m) + x, Units(n) + y;
    if m >= 65536 && n >= 65536 && a[0] == b[0] {
      assert a[..1] == b[..1];
      LessAt(a, b, 1);
    } else {
      assert a[..0] == b[..0];
      LessAt(a, b, 0);
    }
  }

  lemma UnitsDecide(b: seq<byte>, x: seq<int>, c: seq<byte>, y: seq<int>)
    requires RuneBytes(b) && RuneBytes(c) && b != c
    ensures Less(Units(CodePoint(b)) + x, Units(CodePoint(c)) + y) <==> (CodePoint(b) < CodePoint(c)) != Crosses(b, c)
  {
    var k := FirstDifference(b, c);
    CodePointRange(b);
    CodePointRange(c);
    UnitOrder(CodePoint(b), x, CodePoint(c), y);
  }

  /** The two key orders differ exactly on straddling keys. */
  lemma {:induction false} OrdersDiffer(a: seq<Rune>, b: seq<Rune>)
    requires GoodRunes(a) && GoodRunes(b) && a != b
    ensures Less(Utf16(a), Utf16(b)) <==> Less(Unread(a), Unread(b)) != Straddles(a, b)
  {
    if a == [] || b == [] {
      assert a != [] ==> Unread(a) != [];
      assert b != [] ==> Unread(b) != [];
    } else if a[0] == b[0] {
      LessPrefix(a[0].bytes, Unread(a[1..]), Unread(b[1..]));
      LessPrefix(UnitsOf(a[0]), Utf16(a[1..]), Utf16(b[1..]));
      assert a == [a[0]] + a[1..] && b == [b[0]] + b[1..];
      OrdersDiffer(a[1..], b[1..]);
    } else {
      ByteOrder(a[0].bytes, Unread(a[1..]), b[0].bytes, Unread(b[1..]));
      UnitsDecide(a[0].bytes, Utf16(a[1..]), b[0].bytes, Utf16(b[1..]));
    }
  }

  lemma ValidIsGood(s: GoString)
    requires ValidUtf8(s)
    ensures GoodRunes(Runes(s))
  {
    RunesAreRunes(s);
    forall i | 0 <= i < |Runes(s)|
      ensures Runes(s)[i].Good? && RuneBytes(Runes(s)[i].bytes)
    {
      assert Runes(s)[i] in Runes(s);
    }
  }

  /** The RFC's order of keys: by UTF-16 code units. */
  predicate Less16(a: GoString, b: GoString) {
    Less(Utf16(Runes(a)), Utf16(Runes(b)))
  }

  /** Not after, as an order: it can be chained. */
  lemma NotAfterChains(a: GoString, b: GoString, c: GoString)
    requires !Less16(b, a) && !Less16(c, b)
    ensures !Less16(c, a)
  {
    var x, y, z := Utf16(Runes(a)), Utf16(Runes(b)), Utf16(Runes(c));
    LessTotal(x, y);
    LessTotal(y, z);
    LessTotal(x, z);
    if Less(z, x) {
      if x == y {
      } else if y == z {
      } else {
        LessTransitive(x, y, z);
      }
    }
  }

  lemma KeyOrders(a: GoString, b: GoString)
    requires ValidUtf8(a) && ValidUtf8(b) && a != b
    ensures Less16(a, b) <==> Less(a, b) != Straddles(Runes(a), Runes(b))
  {
    ValidIsGood(a);
    ValidIsGood(b);
    UnreadRunes(a);
    UnreadRunes(b);
    OrdersDiffer(Runes(a), Runes(b));
  }

  // ---- objects in the RFC's order ----

  function Place(m: Member, s: seq<Member>): seq<Member> {
    if s == [] || !Less16(s[0].key, m.key) then [m] + s else [s[0]] + Place(m, s[1..])
  }

  function Sort16(ms: seq<Member>): seq<Member> {
    if ms == [] then [] else Place(ms[0], Sort16(ms[1..]))
  }

  /** No key stands behind one that the RFC puts after it. */
  ghost predicate Ordered16(ms: seq<Member>) {
    forall i, j :: 0 <= i < j < |ms| ==> !Less16(ms[j].key, ms[i].key)
  }

  lemma {:induction false} PlaceKeeps(m: Member, s: seq<Member>)
    ensures forall x :: x in Place(m, s) <==> x == m || x in s
  {
    if s != [] && Less16(s[0].key, m.key) {
      PlaceKeeps(m, s[1..]);
      assert s == [s[0]] + s[1..];
    }
  }

  lemma {:induction false} SortKeeps(ms: seq<Member>)
    ensures forall x :: x in Sort16(ms) <==> x in ms
  {
    if ms != [] {
      SortKeeps(ms[1..]);
      PlaceKeeps(ms[0], Sort16(ms[1..]));
      assert ms == [ms[0]] + ms[1..];
    }
  }

  lemma {:induction false} PlaceOrders(m: Member, s: seq<Member>)
    requires Ordered16(s)
    ensures Ordered16(Place(m, s))
  {
    if s == [] {
    } else if !Less16(s[0].key, m.key) {
      forall i | 0 <= i < |s|
        ensures !Less16(s[i].key, m.key)
      {
        if i > 0 {
          NotAfterChains(m.key, s[0].key, s[i].key);
        }
      }
    } else {
      PlaceOrders(m, s[1..]);
      var rest := Place(m, s[1..]);
      forall j | 0 <= j < |rest|
        ensures !Less16(rest[j].key, s[0].key)
      {
        PlaceKeeps(m, s[1..]);
        assert rest[j] in rest;
        if rest[j] == m {
          LessTotal(Utf16(Runes(s[0].key)), Utf16(Runes(m.key)));
        }
      }
    }
  }

  lemma {:induction false} SortOrders(ms: seq<Member>)
    ensures Ordered16(Sort16(ms))
  {
    if ms != [] {
      SortOrders(ms[1..]);
      PlaceOrders(ms[0], Sort16(ms[1..]));
    }
  }

  lemma {:induction false} OrderedStaysSorted(ms: seq<Member>)
    requires Ordered16(ms)
    ensures Sort16(ms) == ms
  {
    if ms != [] {
      OrderedStaysSorted(ms[1..]);
      assert ms == [ms[0]] + ms[1..];
    }
  }

  // ---- numbers: section 3.2.2.3 of RFC 8785 ----

  /** How ECMAScript prints the number that a literal denotes. */
  type Numbering = GoString -> GoString

  /** A number is printed as a number. */
  ghost predicate PrintsNumbers(es: Numbering) {
    forall n :: NumberLiteral(n) ==> NumberLiteral(es(n))
  }

  /** The document with its numbers printed anew and the members of every object in the RFC's order. */
  function Reordered(es: Numbering, v: Json): Json
    decreases v, 0
  {
    match v
    case Number(n) => Number(es(n))
    case Arr(items) => Arr(ReorderedItems(es, items))
    case Obj(ms) => Obj(Sort16(ReorderedMembers(es, ms)))
    case _ => v
  }

  function ReorderedItems(es: Numbering, items: seq<Json>): (r: seq<Json>)
    ensures |r| == |items|
    decreases items, 1
  {
    if items == [] then [] else [Reordered(es, items[0])] + ReorderedItems(es, items[1..])
  }

  function ReorderedMembers(es: Numbering, ms: seq<Member>): (r: seq<Member>)
    ensures |r| == |ms|
    decreases ms, 1
  {
    if ms == [] then [] else [Member(ms[0].key, Reordered(es, ms[0].value))] + ReorderedMembers(es, ms[1..])
  }

  // ---- the text: section 3.2.1 of RFC 8785, without white space ----

  function JcsText(v: Json): GoString
    decreases v, 0
  {
    match v
    case Null => Ascii("null")
    case Bool(true) => Ascii("true")
    case Bool(false) => Ascii("false")
    case Number(n) => n
    case Str(s) => JcsQuoting()(s)
    case Arr(items) => Ascii("[") + JcsItems(items) + Ascii("]")
    case Obj(ms) => Ascii("{") + JcsMembers(ms) + Ascii("}")
  }

  function JcsItems(items: seq<Json>): GoString
    decreases items, 1
  {
    if items == [] then []
    else if |items| == 1 then JcsText(items[0])
    else JcsText(items[0]) + Ascii(",") + JcsItems(items[1..])
  }

  function JcsMember(m: Member): GoString
    decreases m, 1
  {
    JcsQuoting()(m.key) + Ascii(":") + JcsText(m.value)
  }

  function JcsMembers(ms: seq<Member>): GoString
    decreases ms, 1
  {
    if ms == [] then []
    else if |ms| == 1 then JcsMember(ms[0])
    else JcsMember(ms[0]) + Ascii(",") + JcsMembers(ms[1..])
  }

  /** It is the text of the code's printer with the RFC's strings. */
  lemma {:induction false} JcsPrints(v: Json)
    ensures JcsText(v) == Print(JcsQuoting(), v)
    decreases v, 0
  {
    match v
    case Arr(items) =>
      JcsPrintsItems(items);
      Split(Ascii("["), JcsItems(items), Ascii("]"));
    case Obj(ms) =>
      JcsPrintsMembers(ms);
      Split(Ascii("{"), JcsMembers(ms), Ascii("}"));
    case _ =>
  }

  /** Brackets do not matter. */
  lemma CommaSplit(text: GoString, comma: GoString, rest: GoString, close: GoString)
    ensures text + comma + rest + close == text + (comma + (rest + close))
  {
    assert text + comma + rest + close == text + comma + (rest + close);
  }

  lemma {:induction false} JcsPrintsItems(items: seq<Json>)
    ensures JcsItems(items) + Ascii("]") == ItemsText(JcsQuoting(), items)
    decreases items, 1
  {
    if items != [] {
      var rest := items[1..];
      JcsPrints(items[0]);
      if rest == [] {
        assert MoreItems(JcsQuoting(), rest) == Ascii("]");
      } else {
        JcsPrintsItems(rest);
        CommaSplit(JcsText(items[0]), Ascii(","), JcsItems(rest), Ascii("]"));
        assert MoreItems(JcsQuoting(), rest) == Ascii(",") + ItemsText(JcsQuoting(), rest);
      }
    }
  }

  lemma {:induction false} JcsPrintsMember(m: Member)
    ensures JcsMember(m) == MemberText(JcsQuoting(), m)
    decreases m, 1
  {
    JcsPrints(m.value);
    CommaSplit(JcsQuoting()(m.key), Ascii(":"), JcsText(m.value), []);
  }

  lemma {:induction false} JcsPrintsMembers(ms: seq<Member>)
    ensures JcsMembers(ms) + Ascii("}") == MembersText(JcsQuoting(), ms)
    decreases ms, 1
  {
    if ms != [] {
      var rest := ms[1..];
      JcsPrintsMember(ms[0]);
      if rest == [] {
        assert MoreMembers(JcsQuoting(), rest) == Ascii("}");
      } else {
        JcsPrintsMembers(rest);
        CommaSplit(JcsMember(ms[0]), Ascii(","), JcsMembers(rest), Ascii("}"));
        assert MoreMembers(JcsQuoting(), rest) == Ascii(",") + MembersText(JcsQuoting(), rest);
      }
    }
  }

  /** The text of RFC 8785. */
  function Text8785(es: Numbering, v: Json): GoString {
    JcsText(Reordered(es, Decoded(v)))
  }

  // ---- which documents get it ----

  /** No string and no key holds <, >, &, U+2028 or U+2029. */
  predicate NoSpecials(v: Json)
    decreases v
  {
    match v
    case Str(s) => NoSpecialRunes(Runes(s))
    case Arr(items) => forall i :: 0 <= i < |items| ==> NoSpecials(items[i])
    case Obj(ms) => forall i :: 0 <= i < |ms| ==> NoSpecialRunes(Runes(ms[i].key)) && NoSpecials(ms[i].value)
    case _ => true
  }

  /** No object has two keys that straddle. */
  predicate NoStraddles(v: Json)
    decreases v
  {
    match v
    case Arr(items) => forall i :: 0 <= i < |items| ==> NoStraddles(items[i])
    case Obj(ms) =>
      && (forall i, j :: 0 <= i < j < |ms| ==> !Straddles(Runes(ms[j].key), Runes(ms[i].key)))
      && forall i :: 0 <= i < |ms| ==> NoStraddles(ms[i].value)
    case _ => true
  }

  /** Every number is written as ECMAScript prints it. */
  predicate NumbersSettled(es: Numbering, v: Json)
    decreases v
  {
    match v
    case Number(n) => es(n) == n
    case Arr(items) => forall i :: 0 <= i < |items| ==> NumbersSettled(es, items[i])
    case Obj(ms) => forall i :: 0 <= i < |ms| ==> NumbersSettled(es, ms[i].value)
    case _ => true
  }

  /** Every object is in the code's key order, as decoded documents are. */
  ghost predicate InByteOrder(v: Json)
    decreases v
  {
    match v
    case Arr(items) => forall i :: 0 <= i < |items| ==> InByteOrder(items[i])
    case Obj(ms) => InKeyOrder(ms) && forall i :: 0 <= i < |ms| ==> InByteOrder(ms[i].value)
    case _ => true
  }

  lemma {:induction false} DecodedInByteOrder(v: Json)
    ensures InByteOrder(Decoded(v))
    decreases v
  {
    match v
    case Arr(items) => DecodedItemsInByteOrder(items);
    case Obj(ms) =>
      var s := DecodedMembers(ms);
      DecodedMembersKeys(ms);
      forall i | 0 <= i < |s|
        ensures InByteOrder(s[i].value)
      {
        assert s[i] in s;
        DecodedInByteOrder(ms[Find(ms, s[i].key).value].value);
      }
    case _ =>
  }

  lemma {:induction false} DecodedItemsInByteOrder(items: seq<Json>)
    ensures forall i :: 0 <= i < |items| ==> InByteOrder(DecodedItems(items)[i])
    decreases items
  {
    if items != [] {
      DecodedInByteOrder(items[0]);
      DecodedItemsInByteOrder(items[1..]);
      assert forall i :: 1 <= i < |items| ==> DecodedItems(items)[i] == DecodedItems(items[1..])[i - 1];
    }
  }

  /** Members in byte order are in the RFC's order exactly when no two straddle. */
  lemma StraddlesDecide(ms: seq<Member>)
    requires InKeyOrder(ms) && forall i :: 0 <= i < |ms| ==> ValidUtf8(ms[i].key)
    ensures Ordered16(ms) <==> forall i, j :: 0 <= i < j < |ms| ==> !Straddles(Runes(ms[j].key), Runes(ms[i].key))
  {
    forall i, j | 0 <= i < j < |ms|
      ensures Less16(ms[j].key, ms[i].key) <==> Straddles(Runes(ms[j].key), Runes(ms[i].key))
    {
      assert Less(ms[i].key, ms[j].key);
      LessTotal(ms[i].key, ms[j].key);
      KeyOrders(ms[j].key, ms[i].key);
    }
  }

  lemma {:induction false} ReorderedItem(es: Numbering, items: seq<Json>, i: nat)
    requires i < |items|
    ensures ReorderedItems(es, items)[i] == Reordered(es, items[i])
  {
    if i > 0 {
      ReorderedItem(es, items[1..], i - 1);
    }
  }

  lemma {:induction false} ReorderedMember(es: Numbering, ms: seq<Member>, i: nat)
    requires i < |ms|
    ensures ReorderedMembers(es, ms)[i] == Member(ms[i].key, Reordered(es, ms[i].value))
  {
    if i > 0 {
      ReorderedMember(es, ms[1..], i - 1);
    }
  }

  /** Without straddling keys and unsettled numbers nothing changes. */
  lemma {:induction false} NothingChanges(es: Numbering, v: Json)
    requires WellFormed(v) && InByteOrder(v) && NoStraddles(v) && NumbersSettled(es, v)
    ensures Reordered(es, v) == v
    decreases v
  {
    match v
    case Arr(items) =>
      forall i | 0 <= i < |items|
        ensures ReorderedItems(es, items)[i] == items[i]
      {
        NothingChanges(es, items[i]);
        ReorderedItem(es, items, i);
      }
    case Obj(ms) =>
      forall i | 0 <= i < |ms|
        ensures ReorderedMembers(es, ms)[i] == ms[i]
      {
        assert WellFormedMember(ms[i]);
        NothingChanges(es, ms[i].value);
        ReorderedMember(es, ms, i);
      }
      assert ReorderedMembers(es, ms) == ms;
      StraddlesDecide(ms);
      OrderedStaysSorted(ms);
    case _ =>
  }

  lemma KeysDistinct(ms: seq<Member>, i: nat, j: nat)
    requires InKeyOrder(ms) && i < |ms| && j < |ms| && ms[i].key == ms[j].key
    ensures i == j
  {
    LessTotal(ms[i].key, ms[j].key);
  }

  /** In a list with distinct keys, sorting that changes nothing has changed no value either. */
  lemma SortedSame(es: Numbering, ms: seq<Member>, i: nat)
    requires InKeyOrder(ms) && i < |ms| && Sort16(ReorderedMembers(es, ms)) == ms
    ensures Reordered(es, ms[i].value) == ms[i].value
  {
    var r := ReorderedMembers(es, ms);
    ReorderedMember(es, ms, i);
    SortKeeps(r);
    assert r[i] in r;
    assert r[i] in ms;
    var j :| 0 <= j < |ms| && ms[j] == r[i];
    KeysDistinct(ms, i, j);
  }

  /** A document that does not change has no straddling keys and only settled numbers. */
  lemma {:induction false} UnchangedIsSettled(es: Numbering, v: Json)
    requires WellFormed(v) && InByteOrder(v) && Reordered(es, v) == v
    ensures NoStraddles(v) && NumbersSettled(es, v)
    decreases v
  {
    match v
    case Arr(items) =>
      forall i | 0 <= i < |items|
        ensures NoStraddles(items[i]) && NumbersSettled(es, items[i])
      {
        ReorderedItem(es, items, i);
        UnchangedIsSettled(es, items[i]);
      }
    case Obj(ms) =>
      forall i | 0 <= i < |ms|
        ensures ValidUtf8(ms[i].key) && NoStraddles(ms[i].value) && NumbersSettled(es, ms[i].value)
      {
        assert WellFormedMember(ms[i]);
        SortedSame(es, ms, i);
        UnchangedIsSettled(es, ms[i].value);
      }
      SortOrders(ReorderedMembers(es, ms));
      StraddlesDecide(ms);
    case _ =>
  }

  lemma {:induction false} PlaceLength(m: Member, s: seq<Member>)
    ensures |Place(m, s)| == |s| + 1
  {
    if s != [] && Less16(s[0].key, m.key) {
      PlaceLength(m, s[1..]);
    }
  }

  lemma {:induction false} SortLength(ms: seq<Member>)
    ensures |Sort16(ms)| == |ms|
  {
    if ms != [] {
      SortLength(ms[1..]);
      PlaceLength(ms[0], Sort16(ms[1..]));
    }
  }

  lemma {:induction false} ReorderedWellFormed(es: Numbering, v: Json)
    requires WellFormed(v) && PrintsNumbers(es)
    ensures WellFormed(Reordered(es, v))
    decreases v
  {
    match v
    case Arr(items) =>
      forall i | 0 <= i < |items|
        ensures WellFormed(ReorderedItems(es, items)[i])
      {
        ReorderedItem(es, items, i);
        ReorderedWellFormed(es, items[i]);
      }
    case Obj(ms) =>
      var r := ReorderedMembers(es, ms);
      forall i | 0 <= i < |r|
        ensures WellFormedMember(r[i])
      {
        assert WellFormedMember(ms[i]);
        ReorderedMember(es, ms, i);
        ReorderedWellFormed(es, ms[i].value);
      }
      SortKeeps(r);
      forall i | 0 <= i < |r| && i < |Sort16(r)|
        ensures WellFormedMember(Sort16(r)[i])
      {
        assert Sort16(r)[i] in Sort16(r);
      }
      SortLength(r);
    case _ =>
  }

  // ---- one tree, two texts ----

  /** The code's text is longer where there is a special character, and else the same. */
  predicate Longer(a: GoString, b: GoString, same: bool) {
    if same then a == b else |a| > |b|
  }

  lemma StringTexts(s: GoString)
    ensures Longer(GoQuoting()(s), JcsQuoting()(s), NoSpecialRunes(Runes(s)))
  {
    RunesAreRunes(s);
    RunesTexts(Runes(s));
  }

  lemma LongerConcat(a: GoString, b: GoString, p: bool, c: GoString, d: GoString, q: bool)
    requires Longer(a, b, p) && Longer(c, d, q)
    ensures Longer(a + c, b + d, p && q)
  {
  }

  predicate NoSpecialItems(items: seq<Json>) {
    forall i :: 0 <= i < |items| ==> NoSpecials(items[i])
  }

  predicate NoSpecialMember(m: Member) {
    NoSpecialRunes(Runes(m.key)) && NoSpecials(m.value)
  }

  predicate NoSpecialMembers(ms: seq<Member>) {
    forall i :: 0 <= i < |ms| ==> NoSpecialMember(ms[i])
  }

  lemma NoSpecialItemsCons(items: seq<Json>)
    requires items != []
    ensures NoSpecialItems(items) <==> NoSpecials(items[0]) && NoSpecialItems(items[1..])
  {
    assert items == [items[0]] + items[1..];
  }

  lemma NoSpecialMembersCons(ms: seq<Member>)
    requires ms != []
    ensures NoSpecialMembers(ms) <==> NoSpecialMember(ms[0]) && NoSpecialMembers(ms[1..])
  {
    assert ms == [ms[0]] + ms[1..];
  }

  lemma {:induction false} ValueTexts(v: Json)
    ensures Longer(Print(GoQuoting(), v), Print(JcsQuoting(), v), NoSpecials(v))
    decreases v, 0
  {
    match v
    case Str(s) => StringTexts(s);
    case Arr(items) =>
      ItemTexts(items);
      assert NoSpecials(v) <==> NoSpecialItems(items);
      LongerConcat(Ascii("["), Ascii("["), true, ItemsText(GoQuoting(), items), ItemsText(JcsQuoting(), items),
          NoSpecialItems(items));
    case Obj(ms) =>
      MemberTexts(ms);
      assert NoSpecials(v) <==> NoSpecialMembers(ms);
      LongerConcat(Ascii("{"), Ascii("{"), true, MembersText(GoQuoting(), ms), MembersText(JcsQuoting(), ms),
          NoSpecialMembers(ms));
    case _ =>
  }

  lemma {:induction false} MoreItemTexts(items: seq<Json>)
    ensures Longer(MoreItems(GoQuoting(), items), MoreItems(JcsQuoting(), items), NoSpecialItems(items))
    decreases items, 2
  {
    if items != [] {
      ItemTexts(items);
      LongerConcat(Ascii(","), Ascii(","), true, ItemsText(GoQuoting(), items), ItemsText(JcsQuoting(), items),
          NoSpecialItems(items));
    }
  }

  lemma {:induction false} ItemTexts(items: seq<Json>)
    ensures Longer(ItemsText(GoQuoting(), items), ItemsText(JcsQuoting(), items), NoSpecialItems(items))
    decreases items, 1
  {
    if items != [] {
      var go, jcs, rest := GoQuoting(), JcsQuoting(), items[1..];
      ValueTexts(items[0]);
      MoreItemTexts(rest);
      NoSpecialItemsCons(items);
      LongerConcat(Print(go, items[0]), Print(jcs, items[0]), NoSpecials(items[0]),
                   MoreItems(go, rest), MoreItems(jcs, rest), NoSpecialItems(rest));
    }
  }

  lemma {:induction false} MemberTextsOne(m: Member)
    ensures Longer(MemberText(GoQuoting(), m), MemberText(JcsQuoting(), m), NoSpecialMember(m))
    decreases m
  {
    var go, jcs := GoQuoting(), JcsQuoting();
    StringTexts(m.key);
    ValueTexts(m.value);
    LongerConcat(Ascii(":"), Ascii(":"), true, Print(go, m.value), Print(jcs, m.value), NoSpecials(m.value));
    LongerConcat(go(m.key), jcs(m.key), NoSpecialRunes(Runes(m.key)),
                 Ascii(":") + Print(go, m.value), Ascii(":") + Print(jcs, m.value), NoSpecials(m.value));
  }

  lemma {:induction false} MoreMemberTexts(ms: seq<Member>)
    ensures Longer(MoreMembers(GoQuoting(), ms), MoreMembers(JcsQuoting(), ms), NoSpecialMembers(ms))
    decreases ms, 2
  {
    if ms != [] {
      MemberTexts(ms);
      LongerConcat(Ascii(","), Ascii(","), true, MembersText(GoQuoting(), ms), MembersText(JcsQuoting(), ms),
          NoSpecialMembers(ms));
    }
  }

  lemma {:induction false} MemberTexts(ms: seq<Member>)
    ensures Longer(MembersText(GoQuoting(), ms), MembersText(JcsQuoting(), ms), NoSpecialMembers(ms))
    decreases ms, 1
  {
    if ms != [] {
      var go, jcs, rest := GoQuoting(), JcsQuoting(), ms[1..];
      MemberTextsOne(ms[0]);
      MoreMemberTexts(rest);
      NoSpecialMembersCons(ms);
      LongerConcat(MemberText(go, ms[0]), MemberText(jcs, ms[0]), NoSpecialMember(ms[0]),
                   MoreMembers(go, rest), MoreMembers(jcs, rest), NoSpecialMembers(rest));
    }
  }

  // ---- main results ----

  /**
   * Whatever way ECMAScript prints numbers: the code's text is the text of RFC 8785 if and only if every
   * number is written that way already, no string or key holds <, >, &, U+2028 or U+2029, and no object
   * has two keys that, where they first differ, have a character from U+E000 to U+FFFF and one beyond.
   */
  lemma CanonicalIs8785(es: Numbering, v: Json)
    requires WellFormed(v) && PrintsNumbers(es)
    ensures Canonicalize(v) == Text8785(es, v) <==>
              NumbersSettled(es, Decoded(v)) && NoSpecials(Decoded(v)) && NoStraddles(Decoded(v))
  {
    var d := Decoded(v);
    DecodedWellFormed(v);
    DecodedInByteOrder(v);
    ValueTexts(d);
    JcsPrints(Reordered(es, d));
    if NoStraddles(d) && NumbersSettled(es, d) {
      NothingChanges(es, d);
    }
    if Canonicalize(v) == Text8785(es, v) {
      ReorderedWellFormed(es, d);
      GoQuotingReadable();
      JcsQuotingReadable();
      ReadPrinted(GoQuoting(), d, []);
      ReadPrinted(JcsQuoting(), Reordered(es, d), []);
      assert Canonicalize(v) + [] == Text8785(es, v) + [];
      UnchangedIsSettled(es, d);
    }
  }

  // ---- one document for each departure ----

  predicate Departs(es: Numbering, v: Json) {
    Canonicalize(v) != Text8785(es, v)
  }

  function TwoKeys(a: GoString, b: GoString): Json {
    Obj([Member(a, Null), Member(b, Null)])
  }

  /** U+E000, and U+10000: in UTF-16 the second stands first. */
  const PRIVATE_USE: GoString := [238, 128, 128]
  const BEYOND_BMP: GoString := [240, 144, 128, 128]

  const ONE: GoString := [49]
  const ONE_POINT_ZERO: GoString := [49, 46, 48]

  lemma OneRune(b: GoString)
    requires RuneBytes(b)
    ensures Runes(b) == [Good(b)] && ValidUtf8(b)
  {
    assert b[..|b|] == b && b[|b|..] == [];
  }

  lemma SpecialDeparts(es: Numbering, b: GoString)
    requires PrintsNumbers(es) && RuneBytes(b) && Special(Good(b))
    ensures Departs(es, Str(b))
  {
    OneRune(b);
    assert Special(Runes(b)[0]);
    CanonicalIs8785(es, Str(b));
  }

  lemma FiveSpecials()
    ensures forall c: byte :: c in {60, 62, 38} ==> RuneBytes([c]) && Special(Good([c]))
    ensures forall c: byte :: c in {168, 169} ==> RuneBytes([226, 128, c]) && Special(Good([226, 128, c]))
  {
  }

  lemma OrderDeparts(es: Numbering)
    requires PrintsNumbers(es)
    ensures Departs(es, TwoKeys(PRIVATE_USE, BEYOND_BMP))
  {
    var v := TwoKeys(PRIVATE_USE, BEYOND_BMP);
    OneRune(PRIVATE_USE);
    OneRune(BEYOND_BMP);
    assert Less(PRIVATE_USE, BEYOND_BMP);
    assert v.members[1..][1..] == [];
    assert DecodedMembers(v.members[1..]) == [v.members[1]];
    assert DecodedMembers(v.members) == Insert(v.members[0], [v.members[1]]);
    assert Decoded(v) == v;
    assert Straddles(Runes(v.members[1].key), Runes(v.members[0].key));
    CanonicalIs8785(es, v);
  }

  lemma NumberDeparts(es: Numbering, n: GoString)
    ensures Departs(es, Number(n)) <==> es(n) != n
  {
  }

  /** Each of the five characters, the key order and 1.0 keep some document from having the RFC's text. */
  lemma Departures(es: Numbering)
    requires PrintsNumbers(es)
    ensures Departs(es, Str([60]))
    ensures Departs(es, Str([62]))
    ensures Departs(es, Str([38]))
    ensures Departs(es, Str([226, 128, 168]))
    ensures Departs(es, Str([226, 128, 169]))
    ensures Departs(es, TwoKeys(PRIVATE_USE, BEYOND_BMP))
    ensures es(ONE_POINT_ZERO) == ONE ==> Departs(es, Number(ONE_POINT_ZERO))
  {
    FiveSpecials();
    SpecialDeparts(es, [60]);
    SpecialDeparts(es, [62]);
    SpecialDeparts(es, [38]);
    SpecialDeparts(es, [226, 128, 168]);
    SpecialDeparts(es, [226, 128, 169]);
    OrderDeparts(es);
    NumberDeparts(es, ONE_POINT_ZERO);
  }
}
