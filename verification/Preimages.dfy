/**
 * chain/hash.go read as a document: the preimage of an entry hash is the canonical JSON of one object with
 * five members, whatever order they are written in, and reading it gives the five values back.
 */
module Preimages {
  import opened Bytes
  import opened JsonText
  import opened EntryHashing
  import opened Canonical

  /** The map that EntryHash marshals, in the order in which the source lists it. */
  function EntryObject(ledger: GoString, c: Columns): Json {
    Obj([
      Member(Ascii("event_type"), Str(c.eventType)),
      Member(Ascii("ledger"), Str(ledger)),
      Member(Ascii("payload_hash"), Str(c.payloadHash)),
      Member(Ascii("prev_entry_hash"), Str(c.prevHash)),
      Member(Ascii("sequence"), Number(Decimal(c.sequence)))])
  }

  // ---- plain keys ----

  predicate AllPlain(s: GoString) {
    forall i :: 0 <= i < |s| ==> Plain(s[i])
  }

  /** Plain ASCII is valid UTF-8 and is quoted as it stands. */
  lemma {:induction false} PlainQuoted(s: GoString)
    requires AllPlain(s)
    ensures ValidUtf8(s) && EscapeRunes(Runes(s)) == s
    decreases |s|
  {
    if s != [] {
      PlainQuoted(s[1..]);
      assert NextRune(s) == Good(s[..1]) && s[..1] == [s[0]];
      RunesSplit(s);
      assert ([Good(s[..1])] + Runes(s[1..]))[1..] == Runes(s[1..]);
      assert s == [s[0]] + s[1..];
    }
  }

  /** A plain key, quoted, between what stands before it and the colon. */
  predicate Head(before: GoString, key: GoString, head: GoString) {
    AllPlain(key) && head == before + [QUOTE] + key + [QUOTE] + Ascii(":")
  }

  // The five heads as the preimage has them.

  lemma EventTypeHead()
    ensures Head(Ascii("{"), Ascii("event_type"), Ascii("{\"event_type\":"))
  {
  }

  lemma LedgerHead()
    ensures Head(Ascii(","), Ascii("ledger"), Ascii(",\"ledger\":"))
  {
  }

  lemma PayloadHashHead()
    ensures Head(Ascii(","), Ascii("payload_hash"), Ascii(",\"payload_hash\":"))
  {
  }

  lemma PrevEntryHashPlain()
    ensures AllPlain(Ascii("prev_entry_hash"))
  {
  }

  lemma PrevEntryHashHead()
    ensures Head(Ascii(","), Ascii("prev_entry_hash"), Ascii(",\"prev_entry_hash\":"))
  {
    PrevEntryHashPlain();
  }

  lemma SequenceHead()
    ensures Head(Ascii(","), Ascii("sequence"), Ascii(",\"sequence\":"))
  {
  }

  lemma Assoc(a: GoString, b: GoString, c: GoString)
    ensures a + b + c == a + (b + c)
  {
  }

  lemma HeadIs(before: GoString, key: GoString, head: GoString)
    requires Head(before, key, head)
    ensures head == before + ([QUOTE] + key + [QUOTE]) + Ascii(":")
  {
    Assoc(before, [QUOTE] + key, [QUOTE]);
    Assoc(before, [QUOTE], key);
  }

  lemma MemberTextIs(m: Member)
    requires AllPlain(m.key)
    ensures MemberText(GoQuoting(), m) == ([QUOTE] + m.key + [QUOTE]) + (Ascii(":") + Print(GoQuoting(), m.value))
  {
    PlainQuoted(m.key);
  }

  lemma Regroup(before: GoString, key: GoString, colon: GoString, value: GoString, more: GoString)
    ensures before + ((key + (colon + value)) + more) == (before + key + colon) + (value + more)
  {
    Assoc(key, colon + value, more);
    Assoc(colon, value, more);
    Assoc(before, key, colon + (value + more));
    Assoc(before + key, colon, value + more);
  }

  lemma FieldText(before: GoString, m: Member, ms: seq<Member>, head: GoString)
    requires Head(before, m.key, head)
    ensures before + MembersText(GoQuoting(), [m] + ms) ==
            head + (Print(GoQuoting(), m.value) + MoreMembers(GoQuoting(), ms))
  {
    assert ([m] + ms)[0] == m && ([m] + ms)[1..] == ms;
    HeadIs(before, m.key, head);
    MemberTextIs(m);
    Regroup(before, [QUOTE] + m.key + [QUOTE], Ascii(":"), Print(GoQuoting(), m.value), MoreMembers(GoQuoting(), ms));
  }

  lemma TwoFields(before: GoString, m: Member, n: Member, ms: seq<Member>, hm: GoString, hn: GoString)
    requires Head(before, m.key, hm) && Head(Ascii(","), n.key, hn)
    ensures before + MembersText(GoQuoting(), [m, n] + ms) ==
            hm + (Print(GoQuoting(), m.value) +
            (hn + (Print(GoQuoting(), n.value) + MoreMembers(GoQuoting(), ms))))
  {
    assert [m, n] + ms == [m] + ([n] + ms);
    FieldText(before, m, [n] + ms, hm);
    FieldText(Ascii(","), n, ms, hn);
  }

  /** The text of an object with five plain keys. */
  lemma FiveFields(m0: Member, m1: Member, m2: Member, m3: Member, m4: Member,
                   h0: GoString, h1: GoString, h2: GoString, h3: GoString, h4: GoString)
    requires Head(Ascii("{"), m0.key, h0) && Head(Ascii(","), m1.key, h1) && Head(Ascii(","), m2.key, h2)
    requires Head(Ascii(","), m3.key, h3) && Head(Ascii(","), m4.key, h4)
    ensures Print(GoQuoting(), Obj([m0, m1, m2, m3, m4])) ==
            h0 + (Print(GoQuoting(), m0.value) +
            (h1 + (Print(GoQuoting(), m1.value) +
            (h2 + (Print(GoQuoting(), m2.value) +
            (h3 + (Print(GoQuoting(), m3.value) +
            (h4 + (Print(GoQuoting(), m4.value) + Ascii("}"))))))))))
  {
    var last := [m4] + [];
    var tail := [m2, m3] + last;
    assert [m0, m1, m2, m3, m4] == [m0, m1] + tail;
    TwoFields(Ascii("{"), m0, m1, tail, h0, h1);
    TwoFields(Ascii(","), m2, m3, last, h2, h3);
    FieldText(Ascii(","), m4, [], h4);
  }

  // ---- the object is in key order ----

  lemma NamesInOrder()
    ensures Less(Ascii("event_type"), Ascii("ledger")) && Less(Ascii("ledger"), Ascii("payload_hash"))
    ensures Less(Ascii("payload_hash"), Ascii("prev_entry_hash")) && Less(Ascii("prev_entry_hash"), Ascii("sequence"))
  {
    assert Less(Ascii("payload_hash")[1..], Ascii("prev_entry_hash")[1..]);
  }

  lemma {:induction false} AdjacentInOrder(ms: seq<Member>)
    requires forall i :: 0 <= i < |ms| - 1 ==> Less(ms[i].key, ms[i + 1].key)
    ensures InKeyOrder(ms)
    decreases |ms|
  {
    if |ms| > 1 {
      var n := |ms| - 1;
      AdjacentInOrder(ms[..n]);
      forall i | 0 <= i < n
        ensures Less(ms[i].key, ms[n].key)
      {
        if i < n - 1 {
          assert Less(ms[..n][i].key, ms[..n][n - 1].key);
          LessTransitive(ms[i].key, ms[n - 1].key, ms[n].key);
        }
      }
    }
  }

  lemma EntryObjectDecoded(l: GoString, c: Columns)
    ensures Decoded(EntryObject(l, c)) == EntryObject(l, c)
  {
    NamesInOrder();
    AdjacentInOrder(EntryObject(l, c).members);
    SortedStays(EntryObject(l, c).members);
  }

  // ---- main results ----

  /** The preimage is the canonical text of the object. */
  lemma PreimageIsCanonical(l: GoString, c: Columns)
    ensures EntryPreimage(l, c) == Canonicalize(EntryObject(l, c))
  {
    EntryObjectDecoded(l, c);
    EventTypeHead();
    LedgerHead();
    PayloadHashHead();
    PrevEntryHashHead();
    SequenceHead();
    var ms := EntryObject(l, c).members;
    FiveFields(ms[0], ms[1], ms[2], ms[3], ms[4], Ascii("{\"event_type\":"), Ascii(",\"ledger\":"),
               Ascii(",\"payload_hash\":"), Ascii(",\"prev_entry_hash\":"), Ascii(",\"sequence\":"));
  }

  lemma DecimalIsLiteral(n: int)
    ensures NumberLiteral(Decimal(n))
  {
    DecimalDenotes(n);
    DecimalDenotes(-n);
  }

  lemma FiveWellFormed(m0: Member, m1: Member, m2: Member, m3: Member, m4: Member)
    requires WellFormedMember(m0) && WellFormedMember(m1) && WellFormedMember(m2)
    requires WellFormedMember(m3) && WellFormedMember(m4)
    ensures WellFormed(Obj([m0, m1, m2, m3, m4]))
  {
  }

  lemma PlainMember(key: GoString, v: Json)
    requires AllPlain(key) && WellFormed(v)
    ensures WellFormedMember(Member(key, v))
  {
    PlainQuoted(key);
  }

  lemma EventTypeMember(v: Json)
    requires WellFormed(v)
    ensures WellFormedMember(Member(Ascii("event_type"), v))
  {
    EventTypeHead();
    PlainMember(Ascii("event_type"), v);
  }

  lemma LedgerMember(v: Json)
    requires WellFormed(v)
    ensures WellFormedMember(Member(Ascii("ledger"), v))
  {
    LedgerHead();
    PlainMember(Ascii("ledger"), v);
  }

  lemma PayloadHashMember(v: Json)
    requires WellFormed(v)
    ensures WellFormedMember(Member(Ascii("payload_hash"), v))
  {
    PayloadHashHead();
    PlainMember(Ascii("payload_hash"), v);
  }

  lemma PrevEntryHashMember(v: Json)
    requires WellFormed(v)
    ensures WellFormedMember(Member(Ascii("prev_entry_hash"), v))
  {
    PrevEntryHashHead();
    PlainMember(Ascii("prev_entry_hash"), v);
  }

  lemma SequenceMember(v: Json)
    requires WellFormed(v)
    ensures WellFormedMember(Member(Ascii("sequence"), v))
  {
    SequenceHead();
    PlainMember(Ascii("sequence"), v);
  }

  lemma EntryObjectWellFormed(l: GoString, c: Columns)
    requires ValidUtf8(l) && ValidColumns(c)
    ensures WellFormed(EntryObject(l, c))
  {
    DecimalIsLiteral(c.sequence);
    EventTypeMember(Str(c.eventType));
    LedgerMember(Str(l));
    PayloadHashMember(Str(c.payloadHash));
    PrevEntryHashMember(Str(c.prevHash));
    SequenceMember(Number(Decimal(c.sequence)));
    FiveWellFormed(
      Member(Ascii("event_type"), Str(c.eventType)),
      Member(Ascii("ledger"), Str(l)),
      Member(Ascii("payload_hash"), Str(c.payloadHash)),
      Member(Ascii("prev_entry_hash"), Str(c.prevHash)),
      Member(Ascii("sequence"), Number(Decimal(c.sequence))));
  }

  /**
   * On UTF-8 columns: the preimage reads back as the object of the five values, with nothing left over,
   * and every way of writing that object down has this canonical text.
   */
  lemma PreimageReads(l: GoString, c: Columns, v: Json)
    requires ValidUtf8(l) && ValidColumns(c) && WellFormed(v)
    ensures ReadValue(EntryPreimage(l, c)) == Some((EntryObject(l, c), []))
    ensures Canonicalize(v) == EntryPreimage(l, c) <==> SameValue(v, EntryObject(l, c))
  {
    EntryObjectWellFormed(l, c);
    EntryObjectDecoded(l, c);
    PreimageIsCanonical(l, c);
    CanonicalReads(EntryObject(l, c), []);
    assert EntryPreimage(l, c) + [] == EntryPreimage(l, c);
    CanonicalDecides(v, EntryObject(l, c));
  }
}
