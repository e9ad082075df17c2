/** chain/hash.go: the preimage of an entry hash, and what an entry hash pins down. */
module EntryHashing {
  import opened Bytes
  import opened JsonText

  /** The columns of an audit_log row that enter its hash; the ledger is the table's own key. */
  datatype Columns = Columns(sequence: int, eventType: GoString, payloadHash: GoString, prevHash: GoString)

  /** json.Marshal of the five-key map: keys in byte order, values quoted, the sequence in decimal. */
  function EntryPreimage(ledger: GoString, c: Columns): GoString {
    Ascii("{\"event_type\":") + (QuoteString(c.eventType) +
    (Ascii(",\"ledger\":") + (QuoteString(ledger) +
    (Ascii(",\"payload_hash\":") + (QuoteString(c.payloadHash) +
    (Ascii(",\"prev_entry_hash\":") + (QuoteString(c.prevHash) +
    (Ascii(",\"sequence\":") + (Decimal(c.sequence) + Ascii("}"))))))))))
  }

  function EntryHash(sha: Sha256, ledger: GoString, c: Columns): (h: GoString)
    ensures |h| == 64
  {
    EncodeHex(sha(EntryPreimage(ledger, c)))
  }

  /** Equal as read rune by rune; plain equality for well-formed UTF-8, see SameColumnsValid. */
  predicate SameColumns(c: Columns, d: Columns) {
    && c.sequence == d.sequence
    && Runes(c.eventType) == Runes(d.eventType)
    && Runes(c.payloadHash) == Runes(d.payloadHash)
    && Runes(c.prevHash) == Runes(d.prevHash)
  }

  predicate ValidColumns(c: Columns) {
    ValidUtf8(c.eventType) && ValidUtf8(c.payloadHash) && ValidUtf8(c.prevHash)
  }

  /** One well-formed side is enough. */
  lemma SameColumnsValid(c: Columns, d: Columns)
    requires SameColumns(c, d) && ValidColumns(c)
    ensures c == d
  {
    ValidUtf8Unique(c.eventType, d.eventType);
    ValidUtf8Unique(c.payloadHash, d.payloadHash);
    ValidUtf8Unique(c.prevHash, d.prevHash);
  }

  lemma NextField(key: GoString, s: GoString, x: GoString, t: GoString, y: GoString)
    requires key + (QuoteString(s) + x) == key + (QuoteString(t) + y)
    ensures Runes(s) == Runes(t) && x == y
  {
    DropPrefix(key, QuoteString(s) + x, QuoteString(t) + y);
    QuotedSplits(s, x, t, y);
  }

  lemma QuotedSame(s: GoString, t: GoString)
    requires Runes(s) == Runes(t)
    ensures QuoteString(s) == QuoteString(t)
  {
  }

  function SequenceField(c: Columns): GoString {
    Ascii(",\"sequence\":") + (Decimal(c.sequence) + Ascii("}"))
  }

  lemma SequenceFieldInjective(c: Columns, d: Columns)
    requires SequenceField(c) == SequenceField(d)
    ensures c.sequence == d.sequence
  {
    DropPrefix(Ascii(",\"sequence\":"), Decimal(c.sequence) + Ascii("}"), Decimal(d.sequence) + Ascii("}"));
    DropSuffix(Decimal(c.sequence), Decimal(d.sequence), Ascii("}"));
    DecimalInjective(c.sequence, d.sequence);
  }

  function TailFields(c: Columns): GoString {
    Ascii(",\"payload_hash\":") + (QuoteString(c.payloadHash) +
    (Ascii(",\"prev_entry_hash\":") + (QuoteString(c.prevHash) + SequenceField(c))))
  }

  lemma TailFieldsInjective(c: Columns, d: Columns)
    requires TailFields(c) == TailFields(d)
    ensures c.sequence == d.sequence && Runes(c.payloadHash) == Runes(d.payloadHash)
    ensures Runes(c.prevHash) == Runes(d.prevHash)
  {
    var p, q := QuoteString(c.prevHash) + SequenceField(c), QuoteString(d.prevHash) + SequenceField(d);
    var next := Ascii(",\"prev_entry_hash\":");
    NextField(Ascii(",\"payload_hash\":"), c.payloadHash, next + p, d.payloadHash, next + q);
    NextField(Ascii(",\"prev_entry_hash\":"), c.prevHash, SequenceField(c), d.prevHash, SequenceField(d));
    SequenceFieldInjective(c, d);
  }

  /** The preimage parses back uniquely: it is the same exactly when every field reads the same. */
  lemma PreimageInjective(l: GoString, c: Columns, m: GoString, d: Columns)
    ensures EntryPreimage(l, c) == EntryPreimage(m, d) <==> Runes(l) == Runes(m) && SameColumns(c, d)
  {
    if EntryPreimage(l, c) == EntryPreimage(m, d) {
      var p, q := QuoteString(l) + TailFields(c), QuoteString(m) + TailFields(d);
      var next := Ascii(",\"ledger\":");
      NextField(Ascii("{\"event_type\":"), c.eventType, next + p, d.eventType, next + q);
      NextField(Ascii(",\"ledger\":"), l, TailFields(c), m, TailFields(d));
      TailFieldsInjective(c, d);
    }
    if Runes(l) == Runes(m) && SameColumns(c, d) {
      QuotedSame(l, m);
      QuotedSame(c.eventType, d.eventType);
      QuotedSame(c.payloadHash, d.payloadHash);
      QuotedSame(c.prevHash, d.prevHash);
    }
  }

  /** The collision to look at when two entries share a hash. */
  function EntryCollision(l: GoString, c: Columns, m: GoString, d: Columns): Collision {
    Collision(EntryPreimage(l, c), EntryPreimage(m, d))
  }

  /** Equal entry hashes: the same ledger and columns, or the two preimages collide. */
  lemma EntryHashPins(sha: Sha256, l: GoString, c: Columns, m: GoString, d: Columns)
    ensures EntryHash(sha, l, c) == EntryHash(sha, m, d) <==>
              (Runes(l) == Runes(m) && SameColumns(c, d)) || IsCollision(sha, EntryCollision(l, c, m, d))
  {
    PreimageInjective(l, c, m, d);
    if EntryHash(sha, l, c) == EntryHash(sha, m, d) {
      EncodeHexInjective(sha(EntryPreimage(l, c)), sha(EntryPreimage(m, d)));
    }
  }

  /** Outside UTF-8 the preimage is not injective: these two event types give one entry hash. */
  lemma InvalidUtf8Collapses(sha: Sha256, ledger: GoString, sequence: int, payloadHash: GoString, prevHash: GoString)
    ensures var c := Columns(sequence, [255], payloadHash, prevHash);
            var d := Columns(sequence, [254], payloadHash, prevHash);
            c != d && EntryHash(sha, ledger, c) == EntryHash(sha, ledger, d)
  {
    assert Runes([255]) == [Bad] + Runes([255][1..]) && Runes([254]) == [Bad] + Runes([254][1..]);
    QuotedSame([255], [254]);
  }

  /** Hexadecimal text is well-formed UTF-8, so derived hashes are read back as they are. */
  lemma {:induction false} HexIsValidUtf8(b: seq<byte>)
    ensures ValidUtf8(EncodeHex(b))
  {
    if b != [] {
      var s := EncodeHex(b);
      HexIsValidUtf8(b[1..]);
      assert s[1..][1..] == EncodeHex(b[1..]);
      assert Runes(s) == [Good(s[..1])] + Runes(s[1..]);
      assert Runes(s[1..]) == [Good(s[1..][..1])] + Runes(s[1..][1..]);
    }
  }
}
