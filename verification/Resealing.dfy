/**
 What the content migration does to one stored value, and what reading that value means before
 and after.
 */
module Resealing {
  import opened Wrappers
  import opened Bytes
  import opened Content

  datatype ColumnKind = TextColumn | BlobColumn

  /** A SQLite value; INTEGER and REAL are carried as the text they are rendered to. */
  datatype Value = Null | TextValue(text: string) | BlobValue(data: bytes) | NumberValue(shown: string)

  datatype Outcome = Sealed(value: Value) | Already | Unreadable

  /** A value as text, `None` for NULL or bytes that are not UTF-8. */
  function AsText(c: Cipher, v: Value): Option<string> {
    match v
    case Null => None
    case TextValue(text) => Some(text)
    case NumberValue(shown) => Some(shown)
    case BlobValue(data) => c.codec.fromUtf8(data)
  }

  function AsBytes(c: Cipher, v: Value): bytes
    requires !v.Null?
  {
    match v
    case TextValue(text) => c.codec.utf8(text)
    case NumberValue(shown) => c.codec.utf8(shown)
    case BlobValue(data) => data
  }

  function StripEscape(s: string): string {
    if COMPAT_ESCAPE <= s then s[|COMPAT_ESCAPE|..] else s
  }

  /** What the migration does with one value of a column. */
  function Reseal(c: Cipher, kind: ColumnKind, v: Value, aad: bytes, nonce: bytes): Outcome
    requires |nonce| == NONCE_LEN
  {
    if v.Null? then Already
    else match kind
      case TextColumn =>
        (match AsText(c, v)
         case None => Unreadable
         case Some(text) =>
           match c.OpenText(text, aad)
           case Failure(_) => Unreadable
           case Success(found) =>
             if !found.needsReseal then Already
             else
               var plain := if TEXT_PREFIX <= text then found.value else StripEscape(found.value);
               Sealed(TextValue(c.SealText(plain, aad, nonce))))
      case BlobColumn =>
        match c.OpenBytes(AsBytes(c, v), aad)
        case Failure(_) => Unreadable
        case Success(found) =>
          if !found.needsReseal then Already
          else match c.SealBytes(found.value, aad, nonce)
            case Failure(_) => Unreadable
            case Success(sealed) => Sealed(BlobValue(sealed))
  }

  /** The plaintext a stored value stands for. */
  datatype Reading = NoValue | ReadsText(text: string) | ReadsBytes(data: bytes) | NotReadable

  function ReadingOf(c: Cipher, kind: ColumnKind, v: Value, aad: bytes): Reading {
    if v.Null? then NoValue
    else match kind
      case TextColumn =>
        (match AsText(c, v)
         case None => NotReadable
         case Some(text) =>
           match ReadText(c, text, aad)
           case Failure(_) => NotReadable
           case Success(plain) => ReadsText(plain))
      case BlobColumn =>
        match c.OpenBytes(AsBytes(c, v), aad)
        case Failure(_) => NotReadable
        case Success(found) => ReadsBytes(found.value)
  }

  /** The nonce and ciphertext of an envelope of this version. */
  function EnvelopeOf(c: Cipher, kind: ColumnKind, v: Value): Option<bytes> {
    if v.Null? then None
    else match kind
      case TextColumn =>
        (match AsText(c, v)
         case None => None
         case Some(text) => if TEXT_PREFIX <= text then c.codec.decode64(text[|TEXT_PREFIX|..]) else None)
      case BlobColumn =>
        var data := AsBytes(c, v);
        if CONTENT_MAGIC <= data then Some(data[8..]) else None
  }

  /** The value is an envelope that the current key opens, to text where the column holds text. */
  predicate SealedUnderCurrent(c: Cipher, kind: ColumnKind, v: Value, aad: bytes) {
    var e := EnvelopeOf(c, kind, v);
    && e.Some? && |e.value| >= NONCE_LEN + TAG_LEN
    && match c.aead.open(c.current, e.value[..NONCE_LEN], aad, e.value[NONCE_LEN..])
       case None => false
       case Some(plain) => kind == TextColumn ==> c.codec.fromUtf8(plain).Some?
  }

  /** The cipher once its retired keys are dropped. */
  function Alone(c: Cipher): Cipher { c.(retired := []) }

  /** The value reads, and reads the same without the retired keys. */
  predicate ReadsAlone(c: Cipher, kind: ColumnKind, v: Value, aad: bytes) {
    var reading := ReadingOf(c, kind, v, aad);
    !reading.NotReadable? && ReadingOf(Alone(c), kind, v, aad) == reading
  }

  /** The empty text or blob, which is never sealed. */
  predicate IsEmpty(c: Cipher, kind: ColumnKind, v: Value) {
    !v.Null? && match kind
      case TextColumn => AsText(c, v) == Some([])
      case BlobColumn => AsBytes(c, v) == []
  }

  /**
   A blob sealed under a retired key whose plaintext itself starts with a Ryu magic: it reads, but
   sealing it again is refused.
   */
  predicate RefusesReseal(c: Cipher, kind: ColumnKind, v: Value, aad: bytes) {
    && kind == BlobColumn && !v.Null?
    && match c.OpenBytes(AsBytes(c, v), aad)
       case Failure(_) => false
       case Success(found) => found.needsReseal && StartsWithRyuMagic(found.value)
  }

  predicate CountsUnreadable(c: Cipher, kind: ColumnKind, v: Value, aad: bytes) {
    ReadingOf(c, kind, v, aad).NotReadable? || RefusesReseal(c, kind, v, aad)
  }

  /** Nothing is left to do for the value. */
  predicate Settled(c: Cipher, kind: ColumnKind, v: Value, aad: bytes) {
    v.Null? || IsEmpty(c, kind, v) || SealedUnderCurrent(c, kind, v, aad) || CountsUnreadable(c, kind, v, aad)
  }

  lemma PrefixesApart(s: string)
    ensures TEXT_PREFIX <= s ==> !(COMPAT_ESCAPE <= s)
    ensures COMPAT_ESCAPE <= s ==> !VersionedFamily(s) && s != []
  {
    if COMPAT_ESCAPE <= s {
      assert s[5] == COMPAT_ESCAPE[5] == 'r';
      assert s[|TEXT_FAMILY|..][0] == s[5];
    }
  }

  /** The migration leaves a value alone exactly when it is settled, and counts it by why. */
  lemma ResealDecides(c: Cipher, kind: ColumnKind, v: Value, aad: bytes, nonce: bytes)
    requires |nonce| == NONCE_LEN
    ensures Reseal(c, kind, v, aad, nonce).Sealed? <==> !Settled(c, kind, v, aad)
    ensures Reseal(c, kind, v, aad, nonce).Unreadable? <==> CountsUnreadable(c, kind, v, aad)
  {
    if !v.Null? && kind == TextColumn && AsText(c, v).Some? {
      PrefixesApart(AsText(c, v).value);
    }
  }

  /** A sealed replacement reads as the value it replaces, and is settled. */
  lemma ResealKeepsReading(c: Cipher, kind: ColumnKind, v: Value, aad: bytes, nonce: bytes)
    requires c.Lawful() && |nonce| == NONCE_LEN
    requires Reseal(c, kind, v, aad, nonce).Sealed?
    ensures var v' := Reseal(c, kind, v, aad, nonce).value;
      && ReadingOf(c, kind, v', aad) == ReadingOf(c, kind, v, aad)
      && !ReadingOf(c, kind, v, aad).NotReadable?
      && SealedUnderCurrent(c, kind, v', aad)
  {
    match kind {
      case TextColumn =>
        var text := AsText(c, v).value;
        var found := c.OpenText(text, aad).value;
        var plain := if TEXT_PREFIX <= text then found.value else StripEscape(found.value);
        PrefixesApart(text);
        c.SealedTextOpens(plain, aad, nonce);
        PrefixesApart(c.SealText(plain, aad, nonce));
      case BlobColumn =>
        var found := c.OpenBytes(AsBytes(c, v), aad).value;
        c.SealedBytesOpen(found.value, aad, nonce);
        var sealed := c.SealBytes(found.value, aad, nonce).value;
        assert CONTENT_MAGIC <= sealed;
    }
  }

  /**
   Which readable, non-empty values end up sealed under the current key: all of them except
   blobs that refuse to be sealed again.
   */
  lemma SettledIsSealedUnlessRefused(c: Cipher, kind: ColumnKind, v: Value, aad: bytes)
    requires Settled(c, kind, v, aad) && !v.Null? && !IsEmpty(c, kind, v)
    requires !ReadingOf(c, kind, v, aad).NotReadable?
    ensures SealedUnderCurrent(c, kind, v, aad) <==> !RefusesReseal(c, kind, v, aad)
  {}

  /**
   What a finished migration is for: every value it settled reads the same once the retired keys are
   dropped, except the blobs that refuse to be sealed again.
   */
  lemma SettledReadsAlone(c: Cipher, kind: ColumnKind, v: Value, aad: bytes)
    requires Settled(c, kind, v, aad)
    ensures ReadingOf(Alone(c), kind, v, aad) == ReadingOf(c, kind, v, aad) <==> !RefusesReseal(c, kind, v, aad)
    ensures ReadsAlone(c, kind, v, aad) <==> !CountsUnreadable(c, kind, v, aad)
  {
    if !v.Null? && kind == TextColumn && AsText(c, v).Some? { PrefixesApart(AsText(c, v).value); }
  }

  lemma SealedIsReadable(c: Cipher, kind: ColumnKind, v: Value, aad: bytes)
    requires SealedUnderCurrent(c, kind, v, aad)
    ensures !CountsUnreadable(c, kind, v, aad) && Settled(c, kind, v, aad)
  {
    if kind == TextColumn { PrefixesApart(AsText(c, v).value); }
  }

  /** Nothing but the current key is needed for the value: it is sealed under it, or needs no sealing. */
  predicate CellSealed(c: Cipher, kind: ColumnKind, v: Value, aad: bytes) {
    && (v.Null? || IsEmpty(c, kind, v) || SealedUnderCurrent(c, kind, v, aad))
    && ReadsAlone(c, kind, v, aad)
  }

  lemma CellSealedExactly(c: Cipher, kind: ColumnKind, v: Value, aad: bytes)
    requires Settled(c, kind, v, aad)
    ensures CellSealed(c, kind, v, aad) <==> !CountsUnreadable(c, kind, v, aad)
  {
    SettledReadsAlone(c, kind, v, aad);
    hide ReadsAlone;
  }

  // ── The value rules, as the migration uses them ─────────────────────────────

  /** What the migration needs to know of values: what it does to one, and what one means. */
  datatype Sealer = Sealer(
    outcome: (ColumnKind, Value, bytes, bytes) -> Outcome,
    reading: (ColumnKind, Value, bytes) -> Reading,
    underCurrent: (ColumnKind, Value, bytes) -> bool,
    settled: (ColumnKind, Value, bytes) -> bool,
    unreadable: (ColumnKind, Value, bytes) -> bool)
  {
    ghost predicate Lawful() {
      forall kind, v, aad, nonce | |nonce| == NONCE_LEN :: var o := outcome(kind, v, aad, nonce);
        && (o.Sealed? <==> !settled(kind, v, aad))
        && (o.Unreadable? <==> unreadable(kind, v, aad))
        && (o.Sealed? ==>
              && reading(kind, o.value, aad) == reading(kind, v, aad) && !reading(kind, v, aad).NotReadable?
              && underCurrent(kind, o.value, aad) && settled(kind, o.value, aad))
    }
  }

  function SealerOf(c: Cipher): Sealer {
    Sealer(
      (kind: ColumnKind, v: Value, aad: bytes, nonce: bytes) =>
        if |nonce| == NONCE_LEN then Reseal(c, kind, v, aad, nonce) else Already,
      (kind: ColumnKind, v: Value, aad: bytes) => ReadingOf(c, kind, v, aad),
      (kind: ColumnKind, v: Value, aad: bytes) => SealedUnderCurrent(c, kind, v, aad),
      (kind: ColumnKind, v: Value, aad: bytes) => Settled(c, kind, v, aad),
      (kind: ColumnKind, v: Value, aad: bytes) => CountsUnreadable(c, kind, v, aad))
  }

  lemma CipherSealsLawfully(c: Cipher)
    requires c.Lawful()
    ensures SealerOf(c).Lawful()
  {
    forall kind, v, aad, nonce | |nonce| == NONCE_LEN
      ensures var o := SealerOf(c).outcome(kind, v, aad, nonce);
        && (o.Sealed? <==> !Settled(c, kind, v, aad))
        && (o.Unreadable? <==> CountsUnreadable(c, kind, v, aad))
        && (o.Sealed? ==>
              && ReadingOf(c, kind, o.value, aad) == ReadingOf(c, kind, v, aad) && !ReadingOf(c, kind, v, aad).NotReadable?
              && SealedUnderCurrent(c, kind, o.value, aad) && Settled(c, kind, o.value, aad))
    {
      ResealDecides(c, kind, v, aad, nonce);
      if Reseal(c, kind, v, aad, nonce).Sealed? { ResealKeepsReading(c, kind, v, aad, nonce); }
    }
  }

  // ── A blob that refuses ─────────────────────────────────────────────────────

  /** A toy lawful AEAD: the tag is the key's number, sixteen times. */
  function ToyAead(): Aead {
    Aead((k: AeadKey, n: bytes, a: bytes, p: bytes) => p + seq(TAG_LEN, i => k.id % 256),
         (k: AeadKey, n: bytes, a: bytes, s: bytes) =>
           if |s| >= TAG_LEN && s[|s| - TAG_LEN..] == seq(TAG_LEN, i => k.id % 256)
           then Some(s[..|s| - TAG_LEN]) else None)
  }

  lemma ToyAeadIsLawful()
    ensures ToyAead().Lawful()
  {
    var t := ToyAead();
    forall k, n, a, p ensures |t.seal(k, n, a, p)| == |p| + TAG_LEN && t.open(k, n, a, t.seal(k, n, a, p)) == Some(p) {
      var s := t.seal(k, n, a, p);
      assert s[|s| - TAG_LEN..] == seq(TAG_LEN, i => k.id % 256);
      assert s[..|s| - TAG_LEN] == p;
    }
  }

  /** A concrete readable blob under a retired key that no migration seals under the current one. */
  lemma SomeBlobRefuses(codec: Codec)
    ensures var c := Cipher(ToyAead(), codec, AeadKey(1), [AeadKey(2)]);
      var nonce: bytes := seq(NONCE_LEN, i => 0);
      var v := BlobValue(CONTENT_MAGIC + nonce + ToyAead().seal(AeadKey(2), nonce, [], LOG_MAGIC));
      && ReadingOf(c, BlobColumn, v, []) == ReadsBytes(LOG_MAGIC)
      && Reseal(c, BlobColumn, v, [], nonce) == Unreadable
  {
    var t := ToyAead();
    var c := Cipher(t, codec, AeadKey(1), [AeadKey(2)]);
    var nonce: bytes := seq(NONCE_LEN, i => 0);
    var sealed := t.seal(AeadKey(2), nonce, [], LOG_MAGIC);
    ToyAeadIsLawful();
    var stored := CONTENT_MAGIC + nonce + sealed;
    assert stored[..8] == CONTENT_MAGIC && stored[8..] == nonce + sealed;
    assert stored[8..][..NONCE_LEN] == nonce && stored[8..][NONCE_LEN..] == sealed;
    assert sealed[|sealed| - TAG_LEN] == 2 && seq(TAG_LEN, i => AeadKey(1).id % 256)[0] == 1;
    assert t.open(AeadKey(1), nonce, [], sealed) == None;
    assert c.OpenRetired([AeadKey(2)], nonce, [], sealed) == Some(LOG_MAGIC);
  }
}
