/** steps/public_receipt.go, ApplyRedactions: pseudonyms for redacted fields, and what they give away. */
module Redaction {
  import opened Bytes
  import opened JsonText

  /** A decoded top-level object: raw JSON text by member name. */
  type Object = map<GoString, GoString>

  /** The payload as the decoder sees it; Null decodes to a nil map. */
  datatype Payload = Empty | Malformed | Null | Fields(obj: Object)

  /** Unchanged: the payload itself and no pseudonym map. */
  datatype Redaction = Unchanged | Replaced(payload: Payload, pseudonyms: map<GoString, GoString>)

  /** How the n-th distinct value is called. The loop's theorems hold for every numbering without repeats. */
  type Naming = nat -> GoString

  /** The names the source uses: contributor_1, contributor_2, ... */
  function Contributor(): Naming {
    (n: nat) => Ascii("contributor_") + Decimal(n)
  }

  ghost predicate OneToOne(name: Naming) {
    forall m: nat, n: nat :: name(m) == name(n) ==> m == n
  }

  /** strconv.Quote of a pseudonym; nothing in it needs escaping. */
  function Quoted(s: GoString): GoString {
    [34] + s + [34]
  }

  /** The twelve bytes of contributor_ and the digits of the number. */
  lemma ContributorIs(n: nat)
    ensures var p := Contributor()(n);
            && |p| > 12 && p[..12] == [99, 111, 110, 116, 114, 105, 98, 117, 116, 111, 114, 95]
            && DigitsValue(p[12..]) == n && forall i :: 12 <= i < |p| ==> 48 <= p[i] <= 57
  {
    var prefix := Ascii("contributor_");
    DecimalDenotes(n);
    assert prefix == [99, 111, 110, 116, 114, 105, 98, 117, 116, 111, 114, 95];
    assert (prefix + Decimal(n))[..12] == prefix && (prefix + Decimal(n))[12..] == Decimal(n);
  }

  lemma ContributorOneToOne()
    ensures OneToOne(Contributor())
  {
    var name, p := Contributor(), Ascii("contributor_");
    forall m: nat, n: nat | name(m) == name(n)
      ensures m == n
    {
      DropPrefix(p, Decimal(m), Decimal(n));
      DecimalInjective(m, n);
    }
  }

  lemma QuotedOneToOne(s: GoString, t: GoString)
    requires Quoted(s) == Quoted(t)
    ensures s == t
  {
    assert Quoted(s)[1..|s| + 1] == s && Quoted(t)[1..|t| + 1] == t;
  }

  // ---- the loop ----

  /** The loop's variables. */
  datatype Work = Work(obj: Object, names: map<GoString, GoString>, seen: map<GoString, GoString>, counter: nat)

  function RedactOne(name: Naming, w: Work, field: GoString): Work {
    if field !in w.obj then w
    else
      var raw := w.obj[field];
      var p := if raw in w.seen then w.seen[raw] else name(w.counter);
      Work(w.obj[field := Quoted(p)], w.names[field := p], w.seen[raw := p],
           if raw in w.seen then w.counter else w.counter + 1)
  }

  function RedactList(name: Naming, obj: Object, fields: seq<GoString>): Work {
    if fields == [] then Work(obj, map[], map[], 1)
    else RedactOne(name, RedactList(name, obj, fields[..|fields| - 1]), fields[|fields| - 1])
  }

  method ApplyRedactions(payload: Payload, fields: seq<GoString>) returns (r: Result<Redaction, ()>)
    ensures r.Err? <==> fields != [] && payload.Malformed?
    ensures fields == [] || payload.Empty? ==> r == Ok(Unchanged)
    ensures fields != [] && payload.Null? ==> r == Ok(Replaced(Null, map[]))
    ensures fields != [] && payload.Fields? ==>
              var w := RedactList(Contributor(), payload.obj, fields); r == Ok(Replaced(Fields(w.obj), w.names))
  {
    if |fields| == 0 || payload.Empty? {
      return Ok(Unchanged);
    }
    if payload.Malformed? {
      return Err(());
    }
    var obj: Object := if payload.Null? then map[] else payload.obj;
    var pseudonymMap: map<GoString, GoString>, valueToCounter: map<GoString, GoString>, counter: nat := map[], map[], 1;
    ghost var start := obj;
    for i := 0 to |fields|
      invariant Work(obj, pseudonymMap, valueToCounter, counter) == RedactList(Contributor(), start, fields[..i])
      invariant payload.Null? ==> obj == map[] && pseudonymMap == map[]
    {
      var field := fields[i];
      assert fields[..i + 1][..i] == fields[..i];
      if field !in obj {
        continue;
      }
      var key := obj[field];
      var pseudonym: GoString;
      if key in valueToCounter {
        pseudonym := valueToCounter[key];
        assert valueToCounter[key := pseudonym] == valueToCounter;
      } else {
        pseudonym := Contributor()(counter);
        valueToCounter := valueToCounter[key := pseudonym];
        counter := counter + 1;
      }
      pseudonymMap := pseudonymMap[field := pseudonym];
      obj := obj[field := Quoted(pseudonym)];
    }
    assert fields[..|fields|] == fields;
    return Ok(Replaced(if payload.Null? then Null else Fields(obj), pseudonymMap));
  }

  // ---- what it computes when no field is listed twice ----

  predicate NoRepeats(xs: seq<GoString>) {
    forall i, j :: 0 <= i < j < |xs| ==> xs[i] != xs[j]
  }

  /** The distinct original values of the listed fields, in order of first occurrence. */
  function Values(obj: Object, fields: seq<GoString>): seq<GoString> {
    if fields == [] then []
    else
      var before, f := Values(obj, fields[..|fields| - 1]), fields[|fields| - 1];
      if f in obj && obj[f] !in before then before + [obj[f]] else before
  }

  /** Where a value stands; the length when it does not occur. */
  function IndexIn(vs: seq<GoString>, v: GoString): (i: nat)
    ensures i <= |vs|
    ensures v in vs ==> i < |vs| && vs[i] == v
  {
    if v !in vs then |vs|
    else if v in vs[..|vs| - 1] then IndexIn(vs[..|vs| - 1], v)
    else |vs| - 1
  }

  /** The number of a value among the distinct values, counted from 1, makes its pseudonym. */
  function Pseudonym(name: Naming, obj: Object, fields: seq<GoString>, v: GoString): GoString {
    name(IndexIn(Values(obj, fields), v) + 1)
  }

  function Pseudonyms(name: Naming, obj: Object, fields: seq<GoString>): map<GoString, GoString> {
    map f | f in obj && f in fields :: Pseudonym(name, obj, fields, obj[f])
  }

  /** Listed members replaced by their quoted pseudonym, everything else as it was. */
  function Redacted(name: Naming, obj: Object, fields: seq<GoString>): Object {
    map f | f in obj :: if f in fields then Quoted(Pseudonym(name, obj, fields, obj[f])) else obj[f]
  }

  ghost predicate SeenOk(name: Naming, seen: map<GoString, GoString>, obj: Object, fields: seq<GoString>) {
    forall v :: (v in seen <==> v in Values(obj, fields)) && (v in seen ==> seen[v] == Pseudonym(name, obj, fields, v))
  }

  ghost predicate Simple(name: Naming, w: Work, obj: Object, fields: seq<GoString>) {
    var vs := Values(obj, fields);
    && w.obj == Redacted(name, obj, fields)
    && w.names == Pseudonyms(name, obj, fields)
    && w.counter == |vs| + 1
    && SeenOk(name, w.seen, obj, fields)
  }

  lemma IndexStays(vs: seq<GoString>, x: GoString, v: GoString)
    requires x !in vs
    ensures v in vs ==> IndexIn(vs + [x], v) == IndexIn(vs, v)
    ensures IndexIn(vs + [x], x) == |vs|
  {
    assert (vs + [x])[..|vs|] == vs;
  }

  lemma {:induction false} ValuesHas(obj: Object, fields: seq<GoString>, f: GoString)
    requires f in fields && f in obj
    ensures obj[f] in Values(obj, fields)
    decreases |fields|
  {
    var n := |fields| - 1;
    if f != fields[n] {
      assert f in fields[..n];
      ValuesHas(obj, fields[..n], f);
    }
  }

  lemma ValuesSnoc(obj: Object, fields: seq<GoString>, f: GoString)
    ensures Values(obj, fields + [f]) ==
            if f in obj && obj[f] !in Values(obj, fields) then Values(obj, fields) + [obj[f]] else Values(obj, fields)
  {
    assert (fields + [f])[..|fields|] == fields;
  }

  /** Later fields leave the numbers of earlier values alone. */
  lemma PseudonymStays(name: Naming, obj: Object, fields: seq<GoString>, f: GoString, v: GoString)
    requires v in Values(obj, fields)
    ensures Pseudonym(name, obj, fields + [f], v) == Pseudonym(name, obj, fields, v)
  {
    ValuesSnoc(obj, fields, f);
    if f in obj && obj[f] !in Values(obj, fields) {
      IndexStays(Values(obj, fields), obj[f], v);
    }
  }

  lemma OthersStay(name: Naming, obj: Object, fields: seq<GoString>, f: GoString, g: GoString)
    requires g in obj && g in fields
    ensures Pseudonym(name, obj, fields + [f], obj[g]) == Pseudonym(name, obj, fields, obj[g])
  {
    ValuesHas(obj, fields, g);
    PseudonymStays(name, obj, fields, f, obj[g]);
  }

  lemma RedactedSnoc(name: Naming, obj: Object, fields: seq<GoString>, f: GoString)
    requires f !in fields
    ensures Redacted(name, obj, fields + [f]) ==
            if f in obj then Redacted(name, obj, fields)[f := Quoted(Pseudonym(name, obj, fields + [f], obj[f]))]
            else Redacted(name, obj, fields)
  {
    forall g | g in obj && g in fields
      ensures Pseudonym(name, obj, fields + [f], obj[g]) == Pseudonym(name, obj, fields, obj[g])
    {
      OthersStay(name, obj, fields, f, g);
    }
  }

  lemma PseudonymsSnoc(name: Naming, obj: Object, fields: seq<GoString>, f: GoString)
    requires f !in fields
    ensures Pseudonyms(name, obj, fields + [f]) ==
            if f in obj then Pseudonyms(name, obj, fields)[f := Pseudonym(name, obj, fields + [f], obj[f])]
            else Pseudonyms(name, obj, fields)
  {
    forall g | g in obj && g in fields
      ensures Pseudonym(name, obj, fields + [f], obj[g]) == Pseudonym(name, obj, fields, obj[g])
    {
      OthersStay(name, obj, fields, f, g);
    }
  }

  /** The name the loop picks is the name of the value. */
  lemma PickedName(name: Naming, w: Work, obj: Object, fields: seq<GoString>, f: GoString)
    requires Simple(name, w, obj, fields) && f !in fields && f in obj
    ensures f in w.obj && w.obj[f] == obj[f]
    ensures (if obj[f] in w.seen then w.seen[obj[f]] else name(w.counter)) == Pseudonym(name, obj, fields + [f], obj[f])
  {
    var vs := Values(obj, fields);
    ValuesSnoc(obj, fields, f);
    if obj[f] in vs {
      PseudonymStays(name, obj, fields, f, obj[f]);
    } else {
      IndexStays(vs, obj[f], obj[f]);
    }
  }

  lemma SeenSnoc(name: Naming, seen: map<GoString, GoString>, obj: Object, fields: seq<GoString>, f: GoString)
    requires SeenOk(name, seen, obj, fields) && f in obj
    ensures SeenOk(name, seen[obj[f] := Pseudonym(name, obj, fields + [f], obj[f])], obj, fields + [f])
  {
    var seen' := seen[obj[f] := Pseudonym(name, obj, fields + [f], obj[f])];
    ValuesSnoc(obj, fields, f);
    forall v
      ensures v in seen' <==> v in Values(obj, fields + [f])
      ensures v in seen' ==> seen'[v] == Pseudonym(name, obj, fields + [f], v)
    {
      if v in seen && v != obj[f] {
        PseudonymStays(name, obj, fields, f, v);
      }
    }
  }

  lemma SeenSkips(name: Naming, seen: map<GoString, GoString>, obj: Object, fields: seq<GoString>, f: GoString)
    requires SeenOk(name, seen, obj, fields) && f !in obj
    ensures SeenOk(name, seen, obj, fields + [f])
  {
    ValuesSnoc(obj, fields, f);
  }

  lemma SimpleStep(name: Naming, w: Work, obj: Object, fields: seq<GoString>, f: GoString)
    requires Simple(name, w, obj, fields) && f !in fields
    ensures Simple(name, RedactOne(name, w, f), obj, fields + [f])
  {
    RedactedSnoc(name, obj, fields, f);
    PseudonymsSnoc(name, obj, fields, f);
    if f in obj {
      PickedName(name, w, obj, fields, f);
      SeenSnoc(name, w.seen, obj, fields, f);
    } else {
      SeenSkips(name, w.seen, obj, fields, f);
    }
  }

  /** Without repeated fields the loop's state is given by the original object alone. */
  lemma {:induction false} RedactListIsSimple(name: Naming, obj: Object, fields: seq<GoString>)
    requires NoRepeats(fields)
    ensures Simple(name, RedactList(name, obj, fields), obj, fields)
    decreases |fields|
  {
    if fields == [] {
      assert Redacted(name, obj, fields) == obj;
    } else {
      var n := |fields| - 1;
      RedactListIsSimple(name, obj, fields[..n]);
      SimpleStep(name, RedactList(name, obj, fields[..n]), obj, fields[..n], fields[n]);
      assert fields == fields[..n] + [fields[n]];
    }
  }

  // ---- what the result says about the originals ----

  lemma {:induction false} ValuesDistinct(obj: Object, fields: seq<GoString>)
    ensures NoRepeats(Values(obj, fields))
    ensures forall v :: v in Values(obj, fields) ==> exists f :: f in fields && f in obj && obj[f] == v
    decreases |fields|
  {
    if fields != [] {
      var n := |fields| - 1;
      ValuesDistinct(obj, fields[..n]);
      forall v | v in Values(obj, fields)
        ensures exists f :: f in fields && f in obj && obj[f] == v
      {
        if v in Values(obj, fields[..n]) {
          var f :| f in fields[..n] && f in obj && obj[f] == v;
          assert f in fields;
        } else {
          assert fields[n] in fields && obj[fields[n]] == v;
        }
      }
    }
  }

  /** The first listed field that holds a value. */
  predicate FirstHolder(obj: Object, fields: seq<GoString>, k: nat, v: GoString) {
    && k < |fields| && fields[k] in obj && obj[fields[k]] == v
    && forall j :: 0 <= j < k && fields[j] in obj ==> obj[fields[j]] != v
  }

  lemma HolderInInit(obj: Object, fields: seq<GoString>, k: nat, v: GoString)
    requires fields != [] && v in Values(obj, fields[..|fields| - 1]) && FirstHolder(obj, fields, k, v)
    ensures FirstHolder(obj, fields[..|fields| - 1], k, v)
  {
    var init := fields[..|fields| - 1];
    ValuesDistinct(obj, init);
    var f :| f in init && f in obj && obj[f] == v;
    var j :| 0 <= j < |init| && init[j] == f;
    assert fields[j] == f;
  }

  /** Values stand in the order in which the listed fields first hold them. */
  lemma {:induction false} ValuesInOrder(obj: Object, fields: seq<GoString>, n: nat, m: nat, k: nat, q: nat)
    requires n < m < |Values(obj, fields)|
    requires FirstHolder(obj, fields, k, Values(obj, fields)[n]) && FirstHolder(obj, fields, q, Values(obj, fields)[m])
    ensures k < q
    decreases |fields|
  {
    var init, vs := fields[..|fields| - 1], Values(obj, fields[..|fields| - 1]);
    assert Values(obj, fields)[n] == vs[n];
    HolderInInit(obj, fields, k, vs[n]);
    if m < |vs| {
      assert Values(obj, fields)[m] == vs[m];
      HolderInInit(obj, fields, q, vs[m]);
      ValuesInOrder(obj, init, n, m, k, q);
    } else if q < |init| {
      assert init[q] == fields[q];
      ValuesHas(obj, init, fields[q]);
      assert false;
    }
  }

  lemma SameNumberSameValue(vs: seq<GoString>, u: GoString, v: GoString)
    requires u in vs && v in vs && IndexIn(vs, u) == IndexIn(vs, v)
    ensures u == v
  {
  }

  lemma {:induction false} IndexOfNth(vs: seq<GoString>, i: nat)
    requires NoRepeats(vs) && i < |vs|
    ensures IndexIn(vs, vs[i]) == i
  {
    assert vs[IndexIn(vs, vs[i])] == vs[i];
  }

  /** Member names stay, unlisted members stay, and the map says what stands in the object. */
  ghost predicate ShapeKept(obj: Object, fields: seq<GoString>, w: Work) {
    && w.obj.Keys == obj.Keys
    && (forall f :: f in obj && f !in fields ==> w.obj[f] == obj[f])
    && (forall f :: f in w.names <==> f in obj && f in fields)
    && (forall f :: f in w.names ==> f in w.obj && w.obj[f] == Quoted(w.names[f]))
  }

  /** Equal names for equal originals and for no others. */
  ghost predicate SameNameSameValue(obj: Object, w: Work) {
    forall f, g :: f in w.names && g in w.names && f in obj && g in obj ==>
          (w.names[f] == w.names[g] <==> obj[f] == obj[g])
  }

  lemma PseudonymPins(name: Naming, obj: Object, fields: seq<GoString>, f: GoString, g: GoString)
    requires OneToOne(name) && f in obj && g in obj && f in fields && g in fields
    ensures Pseudonym(name, obj, fields, obj[f]) == Pseudonym(name, obj, fields, obj[g]) <==> obj[f] == obj[g]
  {
    ValuesHas(obj, fields, f);
    ValuesHas(obj, fields, g);
    var vs := Values(obj, fields);
    if IndexIn(vs, obj[f]) == IndexIn(vs, obj[g]) {
      SameNumberSameValue(vs, obj[f], obj[g]);
    }
  }

  /** The field's original is the n-th distinct value, counted from 0, and its name says so. */
  predicate Numbered(name: Naming, obj: Object, fields: seq<GoString>, w: Work, f: GoString, n: nat) {
    && f in obj && f in w.names
    && n < |Values(obj, fields)| && obj[f] == Values(obj, fields)[n]
    && w.names[f] == name(n + 1)
  }

  ghost predicate NumberUsed(name: Naming, obj: Object, fields: seq<GoString>, w: Work, n: nat) {
    exists f :: Numbered(name, obj, fields, w, f, n)
  }

  ghost predicate NameNumbered(name: Naming, obj: Object, fields: seq<GoString>, w: Work, f: GoString) {
    exists n :: Numbered(name, obj, fields, w, f, n)
  }

  lemma EveryNumberUsed(name: Naming, obj: Object, fields: seq<GoString>, w: Work, n: nat)
    requires w.names == Pseudonyms(name, obj, fields) && n < |Values(obj, fields)|
    ensures NumberUsed(name, obj, fields, w, n)
  {
    ValuesDistinct(obj, fields);
    var vs := Values(obj, fields);
    assert vs[n] in vs;
    var f :| f in fields && f in obj && obj[f] == vs[n];
    IndexOfNth(vs, n);
    assert Numbered(name, obj, fields, w, f, n);
  }

  lemma EveryNameNumbered(name: Naming, obj: Object, fields: seq<GoString>, w: Work, f: GoString)
    requires w.names == Pseudonyms(name, obj, fields) && f in w.names
    ensures NameNumbered(name, obj, fields, w, f)
  {
    ValuesHas(obj, fields, f);
    assert Numbered(name, obj, fields, w, f, IndexIn(Values(obj, fields), obj[f]));
  }

  lemma SimpleKeepsShape(name: Naming, obj: Object, fields: seq<GoString>, w: Work)
    requires w.obj == Redacted(name, obj, fields) && w.names == Pseudonyms(name, obj, fields)
    ensures ShapeKept(obj, fields, w)
    ensures OneToOne(name) ==> SameNameSameValue(obj, w)
  {
    if OneToOne(name) {
      forall f, g | f in w.names && g in w.names && f in obj && g in obj
        ensures w.names[f] == w.names[g] <==> obj[f] == obj[g]
      {
        PseudonymPins(name, obj, fields, f, g);
      }
    }
  }

  /**
   * For distinct listed fields: the shape is kept, two fields get one pseudonym exactly when their
   * original raw values are equal, and the names in use are exactly contributor_1 to contributor_k
   * for the k distinct values.
   */
  lemma PseudonymAssignment(obj: Object, fields: seq<GoString>)
    requires NoRepeats(fields)
    ensures var name := Contributor(); var w := RedactList(name, obj, fields);
            && ShapeKept(obj, fields, w)
            && SameNameSameValue(obj, w)
            && (forall n: nat :: n < |Values(obj, fields)| ==> NumberUsed(name, obj, fields, w, n))
            && (forall f :: f in w.names ==> NameNumbered(name, obj, fields, w, f))
  {
    var name := Contributor();
    ContributorOneToOne();
    RedactListIsSimple(name, obj, fields);
    var w := RedactList(name, obj, fields);
    SimpleKeepsShape(name, obj, fields, w);
    forall n: nat | n < |Values(obj, fields)|
      ensures NumberUsed(name, obj, fields, w, n)
    {
      EveryNumberUsed(name, obj, fields, w, n);
    }
    forall f | f in w.names
      ensures NameNumbered(name, obj, fields, w, f)
    {
      EveryNameNumbered(name, obj, fields, w, f);
    }
  }

  /** One listed field: its member becomes the quoted contributor_1, whatever it held, and nothing else changes. */
  lemma FirstContributor(obj: Object, f: GoString)
    requires f in obj
    ensures var w := RedactList(Contributor(), obj, [f]);
            && w.names == map[f := Ascii("contributor_1")]
            && w.obj == obj[f := Ascii("\"contributor_1\"")]
  {
    assert [f][..0] == [];
    assert RedactList(Contributor(), obj, []) == Work(obj, map[], map[], 1);
    assert Contributor()(1) == Ascii("contributor_1");
    assert Quoted(Ascii("contributor_1")) == Ascii("\"contributor_1\"");
  }

  // ---- two payloads ----

  /** The objects differ at most in what the listed members hold, and there in the same pattern of equalities. */
  ghost predicate SamePattern(a: Object, b: Object, fields: seq<GoString>) {
    && a.Keys == b.Keys
    && (forall f :: f in a && f !in fields ==> a[f] == b[f])
    && (forall f, g :: f in fields && g in fields && f in a && g in a ==> (a[f] == a[g] <==> b[f] == b[g]))
  }

  /** Every listed member has the same number in both objects. */
  ghost predicate SameNumbers(a: Object, b: Object, fields: seq<GoString>, prefix: seq<GoString>) {
    && |Values(a, prefix)| == |Values(b, prefix)|
    && forall f :: f in fields && f in a && f in b ==>
          IndexIn(Values(a, prefix), a[f]) == IndexIn(Values(b, prefix), b[f])
  }

  lemma IndexSnoc(vs: seq<GoString>, x: GoString, v: GoString)
    requires x !in vs
    ensures IndexIn(vs + [x], v) == if v in vs then IndexIn(vs, v) else if v == x then |vs| else |vs| + 1
  {
    assert (vs + [x])[..|vs|] == vs;
  }

  lemma SameNumbersStep(a: Object, b: Object, fields: seq<GoString>, prefix: seq<GoString>, g: GoString)
    requires SamePattern(a, b, fields) && g in fields && SameNumbers(a, b, fields, prefix)
    ensures SameNumbers(a, b, fields, prefix + [g])
  {
    ValuesSnoc(a, prefix, g);
    ValuesSnoc(b, prefix, g);
    if g in a {
      assert a[g] in Values(a, prefix) <==> b[g] in Values(b, prefix);
      if a[g] !in Values(a, prefix) {
        forall f | f in fields && f in a && f in b
          ensures IndexIn(Values(a, prefix + [g]), a[f]) == IndexIn(Values(b, prefix + [g]), b[f])
        {
          IndexSnoc(Values(a, prefix), a[g], a[f]);
          IndexSnoc(Values(b, prefix), b[g], b[f]);
        }
      }
    }
  }

  lemma {:induction false} PatternGivesNumbers(a: Object, b: Object, fields: seq<GoString>, n: nat)
    requires SamePattern(a, b, fields) && n <= |fields|
    ensures SameNumbers(a, b, fields, fields[..n])
  {
    if n > 0 {
      PatternGivesNumbers(a, b, fields, n - 1);
      SameNumbersStep(a, b, fields, fields[..n - 1], fields[n - 1]);
      assert fields[..n] == fields[..n - 1] + [fields[n - 1]];
    }
  }

  /** Two payloads the caller of the receipt cannot tell apart. */
  ghost predicate LooksAlike(a: Object, b: Object, fields: seq<GoString>) {
    var v, w := RedactList(Contributor(), a, fields), RedactList(Contributor(), b, fields);
    v.obj == w.obj && v.names == w.names
  }

  lemma PatternLooksAlike(a: Object, b: Object, fields: seq<GoString>)
    requires NoRepeats(fields) && SamePattern(a, b, fields)
    ensures LooksAlike(a, b, fields)
  {
    var name := Contributor();
    RedactListIsSimple(name, a, fields);
    RedactListIsSimple(name, b, fields);
    PatternGivesNumbers(a, b, fields, |fields|);
    assert fields[..|fields|] == fields;
    forall f | f in a && f in fields
      ensures Pseudonym(name, a, fields, a[f]) == Pseudonym(name, b, fields, b[f])
    {
    }
    assert Redacted(name, a, fields) == Redacted(name, b, fields);
    assert Pseudonyms(name, a, fields) == Pseudonyms(name, b, fields);
  }

  // ---- fields listed twice ----

  function Count(fields: seq<GoString>, f: GoString): nat {
    if fields == [] then 0 else Count(fields[..|fields| - 1], f) + if fields[|fields| - 1] == f then 1 else 0
  }

  const ZERO: GoString := [48]

  /** The loop's state on one member that held 0, after c mentions. */
  ghost predicate Renamed(name: Naming, f: GoString, w: Work, c: nat) {
    && w.counter == c + 1 && w.obj.Keys == {f}
    && (c == 0 ==> w.seen == map[] && w.obj[f] == ZERO)
    && (c > 0 ==> w.obj[f] == Quoted(name(c)) && f in w.names && w.names[f] == name(c))
    && forall v :: v in w.seen ==> v == ZERO || exists k: nat :: k < c && v == Quoted(name(k))
  }

  lemma RenameOnce(name: Naming, f: GoString, w: Work, c: nat)
    requires OneToOne(name) && Renamed(name, f, w, c)
    ensures Renamed(name, f, RedactOne(name, w, f), c + 1)
  {
    if c > 0 && w.obj[f] in w.seen {
      assert |w.obj[f]| >= 2;
      var k: nat :| k < c && w.obj[f] == Quoted(name(k));
      QuotedOneToOne(name(k), name(c));
      assert false;
    }
    var w' := RedactOne(name, w, f);
    forall v | v in w'.seen
      ensures v == ZERO || exists k: nat :: k < c + 1 && v == Quoted(name(k))
    {
      if v in w.seen && v != ZERO {
        var k: nat :| k < c && v == Quoted(name(k));
        assert k < c + 1;
      } else if v != ZERO {
        assert v == Quoted(name(c));
      }
    }
  }

  /** One member holding 0: each further mention renames it once more. */
  lemma {:induction false} RepeatsRename(name: Naming, fields: seq<GoString>, f: GoString)
    requires OneToOne(name)
    ensures Renamed(name, f, RedactList(name, map[f := ZERO], fields), Count(fields, f))
    decreases |fields|
  {
    if fields != [] {
      var before := fields[..|fields| - 1];
      RepeatsRename(name, before, f);
      if fields[|fields| - 1] == f {
        RenameOnce(name, f, RedactList(name, map[f := ZERO], before), Count(before, f));
      }
    }
  }

  /** The same member holding its own pseudonym: it keeps it. */
  lemma {:induction false} OwnNameStays(name: Naming, fields: seq<GoString>, f: GoString)
    ensures var q := Quoted(name(1));
            var w := RedactList(name, map[f := q], fields);
            if Count(fields, f) == 0 then w == Work(map[f := q], map[], map[], 1)
            else w == Work(map[f := q], map[f := name(1)], map[q := name(1)], 2)
    decreases |fields|
  {
    if fields != [] {
      OwnNameStays(name, fields[..|fields| - 1], f);
    }
  }

  lemma {:induction false} CountOnce(fields: seq<GoString>, i: nat)
    requires i < |fields|
    ensures Count(fields, fields[i]) >= 1
    decreases |fields|
  {
    if i < |fields| - 1 {
      CountOnce(fields[..|fields| - 1], i);
    }
  }

  lemma {:induction false} CountTwice(fields: seq<GoString>, i: nat, j: nat)
    requires i < j < |fields| && fields[i] == fields[j]
    ensures Count(fields, fields[i]) >= 2
    decreases |fields|
  {
    var n := |fields| - 1;
    if j < n {
      CountTwice(fields[..n], i, j);
    } else {
      CountOnce(fields[..n], i);
    }
  }

  /** A field listed twice tells an original that happens to be its own pseudonym from any other. */
  lemma RepeatReveals(fields: seq<GoString>, i: nat, j: nat)
    requires i < j < |fields| && fields[i] == fields[j]
    ensures var f, q := fields[i], Quoted(Contributor()(1));
            SamePattern(map[f := ZERO], map[f := q], fields) && !LooksAlike(map[f := ZERO], map[f := q], fields)
  {
    var name, f := Contributor(), fields[i];
    ContributorOneToOne();
    CountTwice(fields, i, j);
    RepeatsRename(name, fields, f);
    OwnNameStays(name, fields, f);
  }

  /** Redaction reveals of the listed values only which are equal, exactly when no field is listed twice. */
  lemma RevealsOnlyEquality(fields: seq<GoString>)
    ensures NoRepeats(fields) <==> forall a, b :: SamePattern(a, b, fields) ==> LooksAlike(a, b, fields)
  {
    if NoRepeats(fields) {
      forall a, b | SamePattern(a, b, fields)
        ensures LooksAlike(a, b, fields)
      {
        PatternLooksAlike(a, b, fields);
      }
    } else {
      var i, j :| 0 <= i < j < |fields| && fields[i] == fields[j];
      RepeatReveals(fields, i, j);
    }
  }
}
