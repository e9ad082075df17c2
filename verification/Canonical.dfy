/** chain/canonical.go on JSON value trees: one text per logical value. */
module Canonical {
  import opened Bytes
  import opened JsonText

  /** A document as written: members in their written order, number literals verbatim, strings unescaped. */
  datatype Json =
    | Null
    | Bool(b: bool)
    | Number(literal: GoString)
    | Str(s: GoString)
    | Arr(items: seq<Json>)
    | Obj(members: seq<Member>)

  datatype Member = Member(key: GoString, value: Json)

  // ---- decoding into maps, encoding in key order ----

  /** Lexicographic order; on the bytes of keys it is what Go's strings.Compare has. */
  predicate Less(a: seq<int>, b: seq<int>) {
    b != [] && (a == [] || a[0] < b[0] || (a[0] == b[0] && Less(a[1..], b[1..])))
  }

  /** Index of the member that a Go map keeps for key: the last one written. */
  function Find(ms: seq<Member>, key: GoString): (r: Option<nat>)
    ensures r.Some? ==> r.value < |ms| && ms[r.value].key == key
    ensures r.None? ==> forall i :: 0 <= i < |ms| ==> ms[i].key != key
  {
    if ms == [] then None
    else
      match Find(ms[1..], key)
      case Some(i) => Some(i + 1)
      case None => if ms[0].key == key then Some(0) else None
  }

  lemma {:induction false} FindLast(ms: seq<Member>, key: GoString, value: Json)
    ensures Find(ms + [Member(key, value)], key) == Some(|ms|)
  {
    var all := ms + [Member(key, value)];
    if ms == [] {
      assert all[1..] == [];
    } else {
      assert all[1..] == ms[1..] + [Member(key, value)];
      FindLast(ms[1..], key, value);
    }
  }

  /** Adds a member to a list in key order, unless its key is there already. */
  function Insert(m: Member, s: seq<Member>): seq<Member> {
    if s == [] then [m]
    else if m.key == s[0].key then s
    else if Less(m.key, s[0].key) then [m] + s
    else [s[0]] + Insert(m, s[1..])
  }

  /** The decoded value: at every depth the map's members in key order. */
  function Decoded(v: Json): Json
    decreases v
  {
    match v
    case Arr(items) => Arr(DecodedItems(items))
    case Obj(ms) => Obj(DecodedMembers(ms))
    case _ => v
  }

  function DecodedItems(items: seq<Json>): (r: seq<Json>)
    ensures |r| == |items|
    decreases items
  {
    if items == [] then [] else [Decoded(items[0])] + DecodedItems(items[1..])
  }

  function DecodedMembers(ms: seq<Member>): seq<Member>
    decreases ms
  {
    if ms == [] then []
    else Insert(Member(ms[0].key, Decoded(ms[0].value)), DecodedMembers(ms[1..]))
  }

  /** How strings are written. */
  type Quoting = GoString -> GoString

  function GoQuoting(): Quoting {
    (s: GoString) => QuoteString(s)
  }

  function Print(quote: Quoting, v: Json): (s: GoString)
    decreases v, 0
  {
    match v
    case Null => Ascii("null")
    case Bool(b) => if b then Ascii("true") else Ascii("false")
    case Number(l) => l
    case Str(s) => quote(s)
    case Arr(items) => Ascii("[") + ItemsText(quote, items)
    case Obj(ms) => Ascii("{") + MembersText(quote, ms)
  }

  /** The items of an array and its closing bracket. */
  function ItemsText(quote: Quoting, items: seq<Json>): GoString
    decreases items, 0
  {
    if items == [] then Ascii("]") else Print(quote, items[0]) + MoreItems(quote, items[1..])
  }

  function MoreItems(quote: Quoting, items: seq<Json>): GoString
    decreases items, 1
  {
    if items == [] then Ascii("]") else Ascii(",") + ItemsText(quote, items)
  }

  function MemberText(quote: Quoting, m: Member): GoString
    decreases m
  {
    quote(m.key) + (Ascii(":") + Print(quote, m.value))
  }

  /** The members of an object and its closing brace. */
  function MembersText(quote: Quoting, ms: seq<Member>): GoString
    decreases ms, 0
  {
    if ms == [] then Ascii("}") else MemberText(quote, ms[0]) + MoreMembers(quote, ms[1..])
  }

  function MoreMembers(quote: Quoting, ms: seq<Member>): GoString
    decreases ms, 1
  {
    if ms == [] then Ascii("}") else Ascii(",") + MembersText(quote, ms)
  }

  function Canonicalize(v: Json): GoString {
    Print(GoQuoting(), Decoded(v))
  }

  /** A payload argument: not JSON, or a document. */
  datatype Payload = Malformed | Document(value: Json)

  function PayloadHash(sha: Sha256, p: Payload): Result<GoString, ()> {
    match p
    case Malformed => Err(())
    case Document(v) => Ok(EncodeHex(sha(Canonicalize(v))))
  }

  // ---- the logical value of a document ----

  predicate NumberByte(b: byte) {
    48 <= b <= 57 || b == 43 || b == 45 || b == 46 || b == 69 || b == 101
  }

  predicate NumberLiteral(l: GoString) {
    l != [] && (48 <= l[0] <= 57 || l[0] == 45) && forall i :: 0 <= i < |l| ==> NumberByte(l[i])
  }

  /** Strings are UTF-8 and number literals have a number's first byte and alphabet. */
  predicate WellFormed(v: Json)
    decreases v
  {
    match v
    case Number(l) => NumberLiteral(l)
    case Str(s) => ValidUtf8(s)
    case Arr(items) => forall i :: 0 <= i < |items| ==> WellFormed(items[i])
    case Obj(ms) => forall i :: 0 <= i < |ms| ==> WellFormedMember(ms[i])
    case _ => true
  }

  predicate WellFormedMember(m: Member)
    decreases m
  {
    ValidUtf8(m.key) && WellFormed(m.value)
  }

  /**
   * Same logical value: objects are compared as maps from keys to values (the last of repeated keys
   * counts), so member order does not matter at any depth; arrays keep order; numbers are literals.
   */
  predicate SameValue(v: Json, w: Json)
    decreases v
  {
    match (v, w)
    case (Arr(xs), Arr(ys)) => |xs| == |ys| && forall i :: 0 <= i < |xs| ==> SameValue(xs[i], ys[i])
    case (Obj(ms), Obj(ns)) =>
      && (forall i :: 0 <= i < |ms| ==> Find(ns, ms[i].key).Some?)
      && (forall j :: 0 <= j < |ns| ==> Find(ms, ns[j].key).Some?)
      && (forall i :: 0 <= i < |ms| && Find(ms, ms[i].key) == Some(i) ==>
            SameValue(ms[i].value, ns[Find(ns, ms[i].key).value].value))
    case _ => v == w
  }

  // ---- key order ----

  lemma {:induction false} LessTransitive(a: seq<int>, b: seq<int>, c: seq<int>)
    requires Less(a, b) && Less(b, c)
    ensures Less(a, c)
  {
    if a != [] && a[0] == b[0] == c[0] {
      LessTransitive(a[1..], b[1..], c[1..]);
    }
  }

  lemma {:induction false} LessTotal(a: seq<int>, b: seq<int>)
    ensures Less(a, b) || a == b || Less(b, a)
    ensures !(Less(a, b) && Less(b, a)) && !Less(a, a)
  {
    if a != [] {
      if b != [] && a[0] == b[0] {
        LessTotal(a[1..], b[1..]);
        assert a == [a[0]] + a[1..] && b == [b[0]] + b[1..];
      }
      LessTotal(a[1..], a[1..]);
    }
  }

  ghost predicate InKeyOrder(s: seq<Member>) {
    forall i, j :: 0 <= i < j < |s| ==> Less(s[i].key, s[j].key)
  }

  lemma {:induction false} InsertKeys(m: Member, s: seq<Member>)
    requires InKeyOrder(s)
    ensures InKeyOrder(Insert(m, s))
    ensures forall x :: x in Insert(m, s) ==> x == m || x in s
    ensures forall x :: x in s ==> x in Insert(m, s)
    ensures Find(s, m.key).None? ==> m in Insert(m, s)
  {
    if s == [] {
    } else if m.key == s[0].key {
      assert s[0] in s;
    } else if Less(m.key, s[0].key) {
      forall i | 0 <= i < |s|
        ensures Less(m.key, s[i].key)
      {
        if i > 0 {
          LessTransitive(m.key, s[0].key, s[i].key);
        }
      }
    } else {
      LessTotal(m.key, s[0].key);
      InsertKeys(m, s[1..]);
      var t := Insert(m, s[1..]);
      forall j | 0 <= j < |t|
        ensures Less(s[0].key, t[j].key)
      {
        assert t[j] in t;
        assert t[j] == m || t[j] in s[1..];
      }
    }
  }

  lemma {:induction false} InsertKept(m: Member, s: seq<Member>)
    requires InKeyOrder(s) && Find(s, m.key).Some?
    ensures Insert(m, s) == s
  {
    if m.key != s[0].key {
      var k := Find(s, m.key).value;
      LessTotal(m.key, s[0].key);
      assert Less(s[0].key, s[k].key);
      assert s[1..][k - 1].key == m.key;
      InsertKept(m, s[1..]);
    }
  }

  lemma {:induction false} InsertNew(m: Member, s: seq<Member>)
    ensures Find(Insert(m, s), m.key).Some?
  {
    if s != [] && m.key != s[0].key && !Less(m.key, s[0].key) {
      InsertNew(m, s[1..]);
    }
  }

  /** s holds exactly the last member of every key of ms, with its value decoded. */
  ghost predicate Keeps(ms: seq<Member>, s: seq<Member>) {
    && (forall x :: x in s ==> Find(ms, x.key).Some? && x.value == Decoded(ms[Find(ms, x.key).value].value))
    && (forall i :: 0 <= i < |ms| ==> Find(s, ms[i].key).Some?)
  }

  lemma InsertKeeps(ms: seq<Member>, t: seq<Member>)
    requires ms != [] && InKeyOrder(t) && Keeps(ms[1..], t)
    ensures var u := Insert(Member(ms[0].key, Decoded(ms[0].value)), t);
            InKeyOrder(u) && Keeps(ms, u)
  {
    var m := Member(ms[0].key, Decoded(ms[0].value));
    InsertKeys(m, t);
    assert forall i :: 1 <= i < |ms| ==> ms[i] == ms[1..][i - 1];
    if Find(ms[1..], m.key).Some? {
      var i := Find(ms[1..], m.key).value;
      assert ms[1..][i].key == m.key;
      InsertKept(m, t);
    } else {
      forall i | 0 <= i < |ms|
        ensures Find(Insert(m, t), ms[i].key).Some?
      {
        if i > 0 {
          var k := Find(t, ms[1..][i - 1].key).value;
          assert t[k] in t;
        } else {
          InsertNew(m, t);
        }
      }
    }
  }

  lemma {:induction false} DecodedMembersKeys(ms: seq<Member>)
    ensures InKeyOrder(DecodedMembers(ms)) && Keeps(ms, DecodedMembers(ms))
    decreases |ms|
  {
    if ms != [] {
      DecodedMembersKeys(ms[1..]);
      InsertKeeps(ms, DecodedMembers(ms[1..]));
    }
  }

  /** Of members with one key the last one written counts, and it counts once. */
  lemma LastMemberCounts(ms: seq<Member>, key: GoString, value: Json)
    ensures var s := DecodedMembers(ms + [Member(key, value)]);
            && Member(key, Decoded(value)) in s
            && forall x :: x in s && x.key == key ==> x.value == Decoded(value)
  {
    var all := ms + [Member(key, value)];
    var s := DecodedMembers(all);
    DecodedMembersKeys(all);
    FindLast(ms, key, value);
    assert all[|ms|].key == key;
    var i := Find(s, key).value;
    assert s[i] in s && s[i] == Member(key, Decoded(value));
  }

  /** Members in key order whose values are decoded stay as they are. */
  lemma {:induction false} SortedStays(ms: seq<Member>)
    requires InKeyOrder(ms) && forall i :: 0 <= i < |ms| ==> Decoded(ms[i].value) == ms[i].value
    ensures DecodedMembers(ms) == ms
    decreases |ms|
  {
    if ms != [] {
      SortedStays(ms[1..]);
      assert ms == [ms[0]] + ms[1..];
      if |ms| > 1 {
        LessTotal(ms[0].key, ms[1].key);
        assert Less(ms[0].key, ms[1].key);
      }
    }
  }

  lemma HeadIn(t: seq<Member>)
    ensures t != [] ==> t[0] in t
  {
  }

  /** Lists in key order are told apart by their elements. */
  lemma {:induction false} KeyOrderUnique(s: seq<Member>, t: seq<Member>)
    requires InKeyOrder(s) && InKeyOrder(t)
    requires forall x :: x in s <==> x in t
    ensures s == t
    decreases |s|
  {
    HeadIn(s);
    HeadIn(t);
    if s != [] {
      var i :| 0 <= i < |t| && t[i] == s[0];
      var j :| 0 <= j < |s| && s[j] == t[0];
      LessTotal(s[0].key, t[0].key);
      assert s[0] == t[0];
      assert forall x :: x in s[1..] ==> Less(s[0].key, x.key);
      assert forall x :: x in t[1..] ==> Less(s[0].key, x.key);
      LessTotal(s[0].key, s[0].key);
      forall x
        ensures x in s[1..] <==> x in t[1..]
      {
        assert x in s <==> x == s[0] || x in s[1..];
        assert x in t <==> x == t[0] || x in t[1..];
      }
      KeyOrderUnique(s[1..], t[1..]);
    }
  }

  // ---- decoding decides the logical value ----

  ghost predicate AgreeOnKeys(ms: seq<Member>, ns: seq<Member>) {
    && (forall i :: 0 <= i < |ms| ==> Find(ns, ms[i].key).Some?)
    && (forall j :: 0 <= j < |ns| ==> Find(ms, ns[j].key).Some?)
    && (forall i :: 0 <= i < |ms| && Find(ms, ms[i].key) == Some(i) ==>
          Decoded(ms[i].value) == Decoded(ns[Find(ns, ms[i].key).value].value))
  }

  lemma MembersAgree(ms: seq<Member>, ns: seq<Member>)
    requires AgreeOnKeys(ms, ns)
    ensures forall x :: x in DecodedMembers(ms) <==> x in DecodedMembers(ns)
  {
    var s, t := DecodedMembers(ms), DecodedMembers(ns);
    DecodedMembersKeys(ms);
    DecodedMembersKeys(ns);
    forall x | x in s
      ensures x in t
    {
      var i := Find(ms, x.key).value;
      assert ms[i].key == x.key;
      var j := Find(ns, x.key).value;
      assert ns[j].key == x.key;
      var p := Find(t, x.key).value;
      assert t[p] in t;
      assert t[p] == x;
    }
    forall x | x in t
      ensures x in s
    {
      var j := Find(ns, x.key).value;
      assert ns[j].key == x.key;
      var i := Find(ms, x.key).value;
      assert ms[i].key == x.key;
      var p := Find(s, x.key).value;
      assert s[p] in s;
      assert s[p] == x;
    }
  }

  lemma {:induction false} DecodedSame(v: Json, w: Json)
    requires SameValue(v, w)
    ensures Decoded(v) == Decoded(w)
    decreases v
  {
    match (v, w)
    case (Arr(xs), Arr(ys)) => DecodedItemsSame(xs, ys);
    case (Obj(ms), Obj(ns)) =>
      forall i | 0 <= i < |ms| && Find(ms, ms[i].key) == Some(i)
        ensures Decoded(ms[i].value) == Decoded(ns[Find(ns, ms[i].key).value].value)
      {
        DecodedSame(ms[i].value, ns[Find(ns, ms[i].key).value].value);
      }
      DecodedMembersKeys(ms);
      DecodedMembersKeys(ns);
      MembersAgree(ms, ns);
      KeyOrderUnique(DecodedMembers(ms), DecodedMembers(ns));
    case _ =>
  }

  lemma {:induction false} DecodedItemsSame(xs: seq<Json>, ys: seq<Json>)
    requires |xs| == |ys| && forall i :: 0 <= i < |xs| ==> SameValue(xs[i], ys[i])
    ensures DecodedItems(xs) == DecodedItems(ys)
    decreases xs
  {
    if xs != [] {
      DecodedSame(xs[0], ys[0]);
      DecodedItemsSame(xs[1..], ys[1..]);
    }
  }

  lemma {:induction false} SameDecoded(v: Json, w: Json)
    requires Decoded(v) == Decoded(w)
    ensures SameValue(v, w)
    decreases v
  {
    match (v, w)
    case (Arr(xs), Arr(ys)) => SameDecodedItems(xs, ys);
    case (Obj(ms), Obj(ns)) =>
      DecodedMembersKeys(ms);
      DecodedMembersKeys(ns);
      var s := DecodedMembers(ms);
      forall i | 0 <= i < |ms|
        ensures Find(ns, ms[i].key).Some?
        ensures Find(ms, ms[i].key) == Some(i) ==> SameValue(ms[i].value, ns[Find(ns, ms[i].key).value].value)
      {
        var p := Find(s, ms[i].key).value;
        assert s[p] in s;
        if Find(ms, ms[i].key) == Some(i) {
          SameDecoded(ms[i].value, ns[Find(ns, ms[i].key).value].value);
        }
      }
      forall j | 0 <= j < |ns|
        ensures Find(ms, ns[j].key).Some?
      {
        var p := Find(s, ns[j].key).value;
        assert s[p] in s;
      }
    case _ =>
  }

  lemma {:induction false} SameDecodedItems(xs: seq<Json>, ys: seq<Json>)
    requires DecodedItems(xs) == DecodedItems(ys)
    ensures |xs| == |ys| && forall i :: 0 <= i < |xs| ==> SameValue(xs[i], ys[i])
    decreases xs
  {
    assert |DecodedItems(xs)| == |xs| && |DecodedItems(ys)| == |ys|;
    if xs != [] {
      assert DecodedItems(xs)[1..] == DecodedItems(xs[1..]) && DecodedItems(ys)[1..] == DecodedItems(ys[1..]);
      SameDecoded(xs[0], ys[0]);
      SameDecodedItems(xs[1..], ys[1..]);
      forall i | 0 <= i < |xs|
        ensures SameValue(xs[i], ys[i])
      {
        if i > 0 {
          assert xs[i] == xs[1..][i - 1] && ys[i] == ys[1..][i - 1];
        }
      }
    }
  }

  /** Decoding changes no logical value. */
  lemma {:induction false} DecodedKeepsValue(v: Json)
    ensures SameValue(v, Decoded(v))
    decreases v
  {
    match v
    case Arr(xs) => DecodedItemsKeepValues(xs);
    case Obj(ms) =>
      var s := DecodedMembers(ms);
      DecodedMembersKeys(ms);
      forall j | 0 <= j < |s|
        ensures Find(ms, s[j].key).Some?
      {
        assert s[j] in s;
      }
      forall i | 0 <= i < |ms| && Find(ms, ms[i].key) == Some(i)
        ensures SameValue(ms[i].value, s[Find(s, ms[i].key).value].value)
      {
        var p := Find(s, ms[i].key).value;
        assert s[p] in s;
        DecodedKeepsValue(ms[i].value);
      }
    case _ =>
  }

  lemma {:induction false} DecodedItemsKeepValues(xs: seq<Json>)
    ensures forall i :: 0 <= i < |xs| ==> SameValue(xs[i], DecodedItems(xs)[i])
    decreases xs
  {
    if xs != [] {
      DecodedKeepsValue(xs[0]);
      DecodedItemsKeepValues(xs[1..]);
      forall i | 0 <= i < |xs|
        ensures SameValue(xs[i], DecodedItems(xs)[i])
      {
        if i > 0 {
          assert xs[i] == xs[1..][i - 1] && DecodedItems(xs)[i] == DecodedItems(xs[1..])[i - 1];
        }
      }
    }
  }

  lemma {:induction false} DecodedWellFormed(v: Json)
    requires WellFormed(v)
    ensures WellFormed(Decoded(v))
    decreases v
  {
    match v
    case Arr(xs) => DecodedItemsWellFormed(xs);
    case Obj(ms) =>
      var s := DecodedMembers(ms);
      DecodedMembersKeys(ms);
      forall j | 0 <= j < |s|
        ensures WellFormedMember(s[j])
      {
        assert s[j] in s;
        var i := Find(ms, s[j].key).value;
        assert WellFormedMember(ms[i]);
        DecodedWellFormed(ms[i].value);
      }
    case _ =>
  }

  lemma {:induction false} DecodedItemsWellFormed(xs: seq<Json>)
    requires forall i :: 0 <= i < |xs| ==> WellFormed(xs[i])
    ensures forall i :: 0 <= i < |xs| ==> WellFormed(DecodedItems(xs)[i])
    decreases xs
  {
    if xs != [] {
      DecodedWellFormed(xs[0]);
      assert forall i :: 0 <= i < |xs[1..]| ==> xs[1..][i] == xs[i + 1];
      DecodedItemsWellFormed(xs[1..]);
      assert forall i :: 1 <= i < |xs| ==> DecodedItems(xs)[i] == DecodedItems(xs[1..])[i - 1];
    }
  }

  // ---- reading a text back ----

  /** The string that runes were read from; bytes that were no UTF-8 come back as U+FFFD. */
  function Unread(rs: seq<Rune>): GoString {
    if rs == [] then []
    else (match rs[0] case Bad => [239, 191, 189] case Good(b) => b) + Unread(rs[1..])
  }

  /** How many bytes of a number's alphabet a text begins with. */
  function NumberRun(s: GoString): (n: nat)
    ensures n <= |s|
  {
    if s == [] || !NumberByte(s[0]) then 0 else 1 + NumberRun(s[1..])
  }

  /** Reads one value off a text without white space, and returns what follows it. */
  function ReadValue(s: GoString): (r: Option<(Json, GoString)>)
    ensures r.Some? ==> |r.value.1| < |s|
    decreases |s|, 0
  {
    if s == [] then None
    else if s[0] == 110 then if Ascii("null") <= s then Some((Null, s[4..])) else None
    else if s[0] == 116 then if Ascii("true") <= s then Some((Bool(true), s[4..])) else None
    else if s[0] == 102 then if Ascii("false") <= s then Some((Bool(false), s[5..])) else None
    else if s[0] == QUOTE then
      match ReadRunes(s[1..])
      case None => None
      case Some((rs, after)) => Some((Str(Unread(rs)), after))
    else if s[0] == 91 then
      if |s| > 1 && s[1] == 93 then Some((Arr([]), s[2..]))
      else
        match ReadItems(s[1..])
        case None => None
        case Some((items, after)) => Some((Arr(items), after))
    else if s[0] == 123 then
      if |s| > 1 && s[1] == 125 then Some((Obj([]), s[2..]))
      else
        match ReadMembers(s[1..])
        case None => None
        case Some((ms, after)) => Some((Obj(ms), after))
    else if NumberRun(s) > 0 then Some((Number(s[..NumberRun(s)]), s[NumberRun(s)..]))
    else None
  }

  /** Reads items up to the closing bracket. */
  function ReadItems(s: GoString): (r: Option<(seq<Json>, GoString)>)
    ensures r.Some? ==> |r.value.1| < |s|
    decreases |s|, 1
  {
    match ReadValue(s)
    case None => None
    case Some((v, rest)) =>
      if rest == [] then None
      else if rest[0] == 93 then Some(([v], rest[1..]))
      else if rest[0] != 44 then None
      else
        match ReadItems(rest[1..])
        case None => None
        case Some((items, after)) => Some(([v] + items, after))
  }

  /** Reads a key, the colon and a value. */
  function ReadMember(s: GoString): (r: Option<(Member, GoString)>)
    ensures r.Some? ==> |r.value.1| < |s|
    decreases |s|, 1
  {
    if s == [] || s[0] != QUOTE then None
    else
      match ReadRunes(s[1..])
      case None => None
      case Some((rs, after)) =>
        if after == [] || after[0] != 58 then None
        else
          match ReadValue(after[1..])
          case None => None
          case Some((v, rest)) => Some((Member(Unread(rs), v), rest))
  }

  /** Reads members up to the closing brace. */
  function ReadMembers(s: GoString): (r: Option<(seq<Member>, GoString)>)
    ensures r.Some? ==> |r.value.1| < |s|
    decreases |s|, 2
  {
    match ReadMember(s)
    case None => None
    case Some((m, rest)) =>
      if rest == [] then None
      else if rest[0] == 125 then Some(([m], rest[1..]))
      else if rest[0] != 44 then None
      else
        match ReadMembers(rest[1..])
        case None => None
        case Some((ms, after)) => Some(([m] + ms, after))
  }

  // ---- what was printed is read back ----

  lemma {:induction false} UnreadRunes(s: GoString)
    requires ValidUtf8(s)
    ensures Unread(Runes(s)) == s
    decreases |s|
  {
    if s != [] {
      ValidTail(s);
      var rest := s[|NextRune(s).bytes|..];
      UnreadRunes(rest);
      assert ([NextRune(s)] + Runes(rest))[1..] == Runes(rest);
    }
  }

  /** A quoted string and what follows it are read back. */
  predicate QuoteReads(quote: Quoting, s: GoString, after: GoString) {
    var t := quote(s) + after;
    t != [] && t[0] == QUOTE && ReadRunes(t[1..]) == Some((Runes(s), after))
  }

  ghost predicate Readable(quote: Quoting) {
    forall s, after :: QuoteReads(quote, s, after)
  }

  lemma GoQuotingReadable()
    ensures Readable(GoQuoting())
  {
    forall s, after
      ensures QuoteReads(GoQuoting(), s, after)
    {
      ReadQuoted(s, after);
      assert ([QUOTE] + QuotedBody(s, after))[1..] == QuotedBody(s, after);
    }
  }

  /** Text that can stand behind a value: it does not go on like a number. */
  predicate Delimited(x: GoString) {
    x == [] || !NumberByte(x[0])
  }

  lemma {:induction false} NumberRunOf(l: GoString, x: GoString)
    requires (forall i :: 0 <= i < |l| ==> NumberByte(l[i])) && Delimited(x)
    ensures NumberRun(l + x) == |l|
  {
    if l == [] {
      assert l + x == x;
    } else {
      assert (l + x)[1..] == l[1..] + x;
      NumberRunOf(l[1..], x);
    }
  }

  lemma Split(a: GoString, b: GoString, c: GoString)
    ensures a + b + c == a + (b + c)
    ensures (a + (b + c))[|a|..] == b + c
  {
  }

  lemma ReadWord(w: GoString, x: GoString)
    ensures w <= w + x && (w + x)[|w|..] == x
  {
  }

  lemma ReadNumber(l: GoString, x: GoString)
    requires NumberLiteral(l) && Delimited(x)
    ensures ReadValue(l + x) == Some((Number(l), x))
  {
    NumberRunOf(l, x);
    assert (l + x)[0] == l[0] && (l + x)[..|l|] == l && (l + x)[|l|..] == x;
  }

  lemma ReadString(quote: Quoting, s: GoString, x: GoString)
    requires Readable(quote) && ValidUtf8(s)
    ensures ReadValue(quote(s) + x) == Some((Str(s), x))
  {
    assert QuoteReads(quote, s, x);
    UnreadRunes(s);
  }

  /** No value's text begins with a closing bracket. */
  lemma PrintStart(quote: Quoting, v: Json, x: GoString)
    requires Readable(quote) && WellFormed(v)
    ensures Print(quote, v) + x != [] && (Print(quote, v) + x)[0] != 93
  {
    if v.Str? {
      assert QuoteReads(quote, v.s, x);
    }
  }

  lemma MoreItemsSplit(quote: Quoting, items: seq<Json>, x: GoString)
    ensures var rest := MoreItems(quote, items) + x;
            && rest != [] && Delimited(rest)
            && (items == [] ==> rest[0] == 93 && rest[1..] == x)
            && (items != [] ==> rest[0] == 44 && rest[1..] == ItemsText(quote, items) + x)
  {
    Split(Ascii(","), ItemsText(quote, items), x);
  }

  lemma MoreMembersSplit(quote: Quoting, ms: seq<Member>, x: GoString)
    ensures var rest := MoreMembers(quote, ms) + x;
            && rest != [] && Delimited(rest)
            && (ms == [] ==> rest[0] == 125 && rest[1..] == x)
            && (ms != [] ==> rest[0] == 44 && rest[1..] == MembersText(quote, ms) + x)
  {
    Split(Ascii(","), MembersText(quote, ms), x);
  }

  lemma BracketSplit(open: GoString, text: GoString, x: GoString)
    requires |open| == 1
    ensures open + text + x != [] && (open + text + x)[0] == open[0] && (open + text + x)[1..] == text + x
  {
  }

  lemma ReadBracketed(s: GoString, items: seq<Json>, x: GoString)
    requires |s| > 1 && s[0] == 91 && s[1] != 93 && ReadItems(s[1..]) == Some((items, x))
    ensures ReadValue(s) == Some((Arr(items), x))
  {
  }

  lemma ReadBraced(s: GoString, ms: seq<Member>, x: GoString)
    requires |s| > 1 && s[0] == 123 && s[1] != 125 && ReadMembers(s[1..]) == Some((ms, x))
    ensures ReadValue(s) == Some((Obj(ms), x))
  {
    var read := ReadMembers(s[1..]);
    assert ReadValue(s) == match read case None => None case Some((ms, after)) => Some((Obj(ms), after));
  }

  /** Reading a printed value gives it back and stops exactly at its end. */
  lemma {:induction false} ReadPrinted(quote: Quoting, v: Json, x: GoString)
    requires Readable(quote) && WellFormed(v) && Delimited(x)
    ensures ReadValue(Print(quote, v) + x) == Some((v, x))
    decreases v, 0
  {
    match v
    case Null => ReadWord(Ascii("null"), x);
    case Bool(b) => ReadWord(if b then Ascii("true") else Ascii("false"), x);
    case Number(l) => ReadNumber(l, x);
    case Str(s) => ReadString(quote, s, x);
    case Arr(items) => ReadArray(quote, items, x);
    case Obj(ms) => ReadObject(quote, ms, x);
  }

  lemma ItemsStart(quote: Quoting, items: seq<Json>, x: GoString)
    requires Readable(quote) && items != [] && WellFormed(items[0])
    ensures ItemsText(quote, items) + x != [] && (ItemsText(quote, items) + x)[0] != 93
  {
    Split(Print(quote, items[0]), MoreItems(quote, items[1..]), x);
    PrintStart(quote, items[0], MoreItems(quote, items[1..]) + x);
  }

  lemma {:induction false} ReadArray(quote: Quoting, items: seq<Json>, x: GoString)
    requires Readable(quote) && Delimited(x) && forall i :: 0 <= i < |items| ==> WellFormed(items[i])
    ensures ReadValue(Ascii("[") + ItemsText(quote, items) + x) == Some((Arr(items), x))
    decreases items, 2
  {
    var text := ItemsText(quote, items);
    var s := Ascii("[") + text + x;
    BracketSplit(Ascii("["), text, x);
    if items == [] {
      assert s[1] == 93 && s[2..] == x;
    } else {
      ItemsStart(quote, items, x);
      assert s[1] == s[1..][0];
      ReadItemsText(quote, items, x);
      ReadBracketed(s, items, x);
    }
  }

  lemma {:induction false} ReadItemsText(quote: Quoting, items: seq<Json>, x: GoString)
    requires Readable(quote) && Delimited(x) && items != [] && forall i :: 0 <= i < |items| ==> WellFormed(items[i])
    ensures ReadItems(ItemsText(quote, items) + x) == Some((items, x))
    decreases items, 1
  {
    var rest := MoreItems(quote, items[1..]) + x;
    Split(Print(quote, items[0]), MoreItems(quote, items[1..]), x);
    MoreItemsSplit(quote, items[1..], x);
    ReadPrinted(quote, items[0], rest);
    assert items == [items[0]] + items[1..];
    if |items| == 1 {
      assert items == [items[0]];
    } else {
      ReadItemsText(quote, items[1..], x);
    }
  }

  lemma MembersStart(quote: Quoting, ms: seq<Member>, x: GoString)
    requires Readable(quote) && ms != []
    ensures MembersText(quote, ms) + x != [] && (MembersText(quote, ms) + x)[0] == QUOTE
  {
    var value, more := Ascii(":") + Print(quote, ms[0].value), MoreMembers(quote, ms[1..]);
    Split(MemberText(quote, ms[0]), more, x);
    Split(quote(ms[0].key), value, more + x);
    assert QuoteReads(quote, ms[0].key, value + (more + x));
  }

  lemma {:induction false} ReadObject(quote: Quoting, ms: seq<Member>, x: GoString)
    requires Readable(quote) && Delimited(x) && forall i :: 0 <= i < |ms| ==> WellFormedMember(ms[i])
    ensures ReadValue(Ascii("{") + MembersText(quote, ms) + x) == Some((Obj(ms), x))
    decreases ms, 2
  {
    var text := MembersText(quote, ms);
    var s := Ascii("{") + text + x;
    BracketSplit(Ascii("{"), text, x);
    if ms == [] {
      assert s[1] == 125 && s[2..] == x;
    } else {
      MembersStart(quote, ms, x);
      assert s[1] == s[1..][0];
      ReadMembersText(quote, ms, x);
      ReadBraced(s, ms, x);
    }
  }

  lemma {:induction false} ReadMemberText(quote: Quoting, m: Member, x: GoString)
    requires Readable(quote) && WellFormedMember(m) && Delimited(x)
    ensures ReadMember(MemberText(quote, m) + x) == Some((m, x))
    decreases m
  {
    var value := Print(quote, m.value);
    Split(quote(m.key), Ascii(":") + value, x);
    Split(Ascii(":"), value, x);
    assert QuoteReads(quote, m.key, Ascii(":") + value + x);
    UnreadRunes(m.key);
    assert (Ascii(":") + value + x)[1..] == value + x;
    ReadPrinted(quote, m.value, x);
  }

  lemma {:induction false} ReadMembersText(quote: Quoting, ms: seq<Member>, x: GoString)
    requires Readable(quote) && Delimited(x) && ms != [] && forall i :: 0 <= i < |ms| ==> WellFormedMember(ms[i])
    ensures ReadMembers(MembersText(quote, ms) + x) == Some((ms, x))
    decreases ms, 1
  {
    var rest := MoreMembers(quote, ms[1..]) + x;
    Split(MemberText(quote, ms[0]), MoreMembers(quote, ms[1..]), x);
    MoreMembersSplit(quote, ms[1..], x);
    ReadMemberText(quote, ms[0], rest);
    assert ms == [ms[0]] + ms[1..];
    if |ms| == 1 {
      assert ms == [ms[0]];
    } else {
      ReadMembersText(quote, ms[1..], x);
    }
  }

  // ---- main results ----

  /** Reading the canonical text gives the decoded document back, and stops exactly at its end. */
  lemma CanonicalReads(v: Json, rest: GoString)
    requires WellFormed(v) && Delimited(rest)
    ensures ReadValue(Canonicalize(v) + rest) == Some((Decoded(v), rest))
  {
    DecodedWellFormed(v);
    GoQuotingReadable();
    ReadPrinted(GoQuoting(), Decoded(v), rest);
  }

  /** Two documents have one canonical text exactly when they have one logical value. */
  lemma CanonicalDecides(v: Json, w: Json)
    requires WellFormed(v) && WellFormed(w)
    ensures Canonicalize(v) == Canonicalize(w) <==> SameValue(v, w)
  {
    if SameValue(v, w) {
      DecodedSame(v, w);
    }
    if Canonicalize(v) == Canonicalize(w) {
      CanonicalReads(v, []);
      CanonicalReads(w, []);
      SameDecoded(v, w);
    }
  }

  /** The canonical text is the text of a document of the same value, which is its own canonical form. */
  lemma CanonicalStable(v: Json)
    ensures SameValue(v, Decoded(v)) && Decoded(Decoded(v)) == Decoded(v) && Canonicalize(Decoded(v)) == Canonicalize(v)
  {
    DecodedKeepsValue(v);
    DecodedSame(v, Decoded(v));
  }

  function PayloadCollision(v: Json, w: Json): Collision {
    Collision(Canonicalize(v), Canonicalize(w))
  }

  /** Payload hashes ignore exactly what the logical value ignores, or exhibit a collision. */
  lemma PayloadHashPins(sha: Sha256, v: Json, w: Json)
    requires WellFormed(v) && WellFormed(w)
    ensures PayloadHash(sha, Document(v)) == PayloadHash(sha, Document(w)) <==>
              SameValue(v, w) || IsCollision(sha, PayloadCollision(v, w))
  {
    CanonicalDecides(v, w);
    if PayloadHash(sha, Document(v)) == PayloadHash(sha, Document(w)) {
      EncodeHexInjective(sha(Canonicalize(v)), sha(Canonicalize(w)));
    }
  }

  /** Numbers are compared as written: 1 and 1.0 have different canonical texts. */
  lemma NumbersStayLiterals()
    ensures Canonicalize(Number([49])) != Canonicalize(Number([49, 46, 48]))
  {
  }
}
