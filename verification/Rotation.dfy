/**
 What a change of key means for a migrated store: which cells a run leaves behind when the recorded
 key moves on, and what its values read as under the keys that come after.
 */
module Rotation {
  import opened Wrappers
  import opened Bytes
  import opened Content
  import opened Resealing
  import opened Migration

  // ── What the recorded key leaves behind ─────────────────────────────────────

  /** The rows a run does not walk: those up to an unfinished item's cursor, or all of a finished one. */
  ghost function Skipped(start: Db, p: Item): seq<Row>
    requires p in start.columns
  {
    var rows := start.columns[p].rows;
    if IsFinished(start, p) then rows else rows[..After(rows, CursorOf(start, p))]
  }

  /** A settled cell that changed was sealed; one that did not change is as unreadable as before. */
  lemma RowSealedExactly(c: Cipher, kind: ColumnKind, original: Row, before: Row, row: Row)
    requires var s := SealerOf(c);
      && Faithful(s, kind, original, before) && Faithful(s, kind, original, row)
      && (SettledRow(s, kind, before) ==> row == before) && SettledRow(s, kind, row)
    ensures CellSealed(c, kind, row.value, row.aad) <==> !SealerOf(c).unreadable(kind, before.value, before.aad)
  {
    CellSealedExactly(c, kind, row.value, row.aad);
    hide SealedUnderCurrent, IsEmpty, CountsUnreadable, ReadingOf, Reseal, CellSealed;
    if !SealerOf(c).unreadable(kind, before.value, before.aad) { RowIsSealed(c, kind, original, before, row); }
  }

  lemma ColumnSealedExactly(c: Cipher, original: Column, before: Column, after: Column)
    requires var s := SealerOf(c);
      && before.kind == original.kind && after.kind == original.kind
      && FaithfulRows(s, original.kind, original.rows, before.rows)
      && FaithfulRows(s, original.kind, original.rows, after.rows)
      && SameWhereSettled(s, before.kind, before.rows, after.rows)
      && AllSettled(s, after.kind, after.rows)
    ensures CellsSealed(c, after) <==> CountUnreadable(SealerOf(c), before.kind, before.rows) == 0
  {
    hide CellSealed, CountsUnreadable, ReadingOf, Reseal, Settled, Faithful, SettledRow;
    var s := SealerOf(c);
    FaithfulRowsAt(s, original.kind, original.rows, before.rows);
    FaithfulRowsAt(s, original.kind, original.rows, after.rows);
    SameWhereSettledAt(s, before.kind, before.rows, after.rows);
    AllSettledAt(s, after.kind, after.rows);
    NoneUnreadable(s, before.kind, before.rows);
    forall i | 0 <= i < |after.rows|
      ensures CellSealed(c, after.kind, after.rows[i].value, after.rows[i].aad) <==>
        !s.unreadable(before.kind, before.rows[i].value, before.rows[i].aad)
    {
      RowSealedExactly(c, original.kind, original.rows[i], before.rows[i], after.rows[i]);
    }
  }

  lemma LastPlan(s: Sealer, start: Db, plans: seq<Item>, p: Item)
    requires plans != [] && PlansUnreadable(s, start, plans) == 0
    ensures PlansUnreadable(s, start, plans[..|plans| - 1]) == 0
    ensures p in plans && p in start.columns && p !in plans[..|plans| - 1] && !IsFinished(start, p) ==>
      CountUnreadable(s, start.columns[p].kind, start.columns[p].rows[After(start.columns[p].rows, CursorOf(start, p))..]) == 0
  {
    hide CountUnreadable, After;
    assert plans == plans[..|plans| - 1] + [plans[|plans| - 1]];
  }

  lemma {:induction false} NoneInTheRest(s: Sealer, start: Db, plans: seq<Item>, p: Item)
    requires PlansUnreadable(s, start, plans) == 0 && p in plans && p in start.columns
    ensures CountUnreadable(s, start.columns[p].kind, start.columns[p].rows) == CountUnreadable(s, start.columns[p].kind, Skipped(start, p))
    decreases |plans|
  {
    hide CountUnreadable, After, PlansUnreadable;
    var n := |plans| - 1;
    var col := start.columns[p];
    LastPlan(s, start, plans, p);
    if p in plans[..n] {
      NoneInTheRest(s, start, plans[..n], p);
    } else if !IsFinished(start, p) {
      var from := After(col.rows, CursorOf(start, p));
      CountUnreadableAppend(s, col.kind, col.rows[..from], col.rows[from..]);
      assert col.rows == col.rows[..from] + col.rows[from..];
    }
  }

  /**
   A run that met nothing unreadable leaves every planned cell sealed under the current key if and only
   if no unreadable cell stands in what it skipped: before a saved cursor, or in a finished item.
   */
  lemma LeftBehindExactly(c: Cipher, original: Db, start: Db, d: Db, plans: seq<Item>)
    requires Walkable(start, plans) && Migrating(SealerOf(c), original, start)
    requires PlansWalked(SealerOf(c), original, start, d, plans, |plans|, 0)
    ensures (forall p :: p in plans ==> CellsSealed(c, d.columns[p])) <==>
      (forall p :: p in plans ==> CountUnreadable(SealerOf(c), start.columns[p].kind, Skipped(start, p)) == 0)
  {
    hide SealedUnderCurrent, IsEmpty, CountsUnreadable, ReadingOf, Reseal, Settled, FaithfulRows, AllSettled,
      SameWhereSettled, CountUnreadable, CellsSealed, Sorted, PlansUnreadable, DebtRecorded, Skipped;
    var s := SealerOf(c);
    WalkedUpTo(s, original, start, d, plans, 0);
    forall p | p in plans
      ensures CellsSealed(c, d.columns[p]) <==> CountUnreadable(s, start.columns[p].kind, Skipped(start, p)) == 0
    {
      ColumnSealedExactly(c, original.columns[p], start.columns[p], d.columns[p]);
      NoneInTheRest(s, start, plans, p);
    }
  }

  /** A store with one finished item that holds an unreadable blob, and a pending empty one. */
  function HalfDoneStore(): Db {
    Db(map[Item(1) := Column(BlobColumn, [Row(1, [], BlobValue(LOG_MAGIC))]), Item(2) := Column(TextColumn, [])],
       map[Item(1) := ItemRow(Finished, None), Item(2) := ItemRow(Pending, None)],
       Some(StoreRow(StoreOk, NO_CURSOR, Some(AeadKey(2)), 2)), {})
  }

  lemma HalfDone(c: Cipher)
    ensures var d, s := HalfDoneStore(), SealerOf(c);
      && Migrating(s, d, d) && DebtRecorded(d) && Walkable(d, [Item(1), Item(2)])
      && Moves(s, d, [Item(1), Item(2)]) && !CellsSealed(c, d.columns[Item(1)])
      && CountUnreadable(s, BlobColumn, Skipped(d, Item(1))) == 1
  {
    var d, s := HalfDoneStore(), SealerOf(c);
    var row := Row(1, [], BlobValue(LOG_MAGIC));
    TheBlob(c);
    OneRow(s, BlobColumn, row);
    hide SealerOf, CellSealed;
    HalfDoneMoves(s);
    assert d.columns[Item(1)].rows[0] == row;
    hide Moves;
    assert Honest(s, d.columns[Item(1)], d.items[Item(1)]) && Honest(s, d.columns[Item(2)], d.items[Item(2)]);
  }

  lemma TheBlob(c: Cipher)
    ensures var s, v := SealerOf(c), BlobValue(LOG_MAGIC);
      && s.unreadable(BlobColumn, v, []) && s.settled(BlobColumn, v, [])
      && !CellSealed(c, BlobColumn, v, [])
  {
    SomeCompatBlobIsRefused(c, []);
    assert LOG_MAGIC != [];
  }

  lemma HalfDoneMoves(s: Sealer)
    ensures Moves(s, HalfDoneStore(), [Item(1), Item(2)])
  {
    var d, plans := HalfDoneStore(), [Item(1), Item(2)];
    assert plans[..1] == [Item(1)] && [Item(1)][..0] == [];
    assert PlansUnreadable(s, d, []) == 0;
    assert PlansUnreadable(s, d, [Item(1)]) == 0;
    NothingCounted(s, TextColumn);
    assert PlansUnreadable(s, d, plans) == 0;
  }

  lemma OneRow(s: Sealer, kind: ColumnKind, row: Row)
    requires s.unreadable(kind, row.value, row.aad) && s.settled(kind, row.value, row.aad)
    ensures FaithfulRows(s, kind, [row], [row]) && AllSettled(s, kind, [row]) && CountUnreadable(s, kind, [row]) == 1
  {
    assert [row][..0] == [];
  }

  /**
   The recorded key moves on although a planned cell is not sealed: the unreadable blob sits in an item
   finished by an earlier call, which this one does not walk again.
   */
  method RecordMovesPastAnUnreadableCell(codec: Codec, draw: int -> bytes) returns (db: Db)
    requires codec.Lawful() && DrawsNonces(draw)
    ensures var c := Cipher(ToyAead(), codec, AeadKey(1), [AeadKey(2)]);
      && db.store.Some? && db.store.value.kcv == Some(c.current)
      && Item(1) in db.columns && !CellsSealed(c, db.columns[Item(1)])
  {
    var c := Cipher(ToyAead(), codec, AeadKey(1), [AeadKey(2)]);
    var start := HalfDoneStore();
    ToyAeadIsLawful();
    HalfDone(c);
    var store := new SealedStore(start, true);
    hide Migrating, DebtRecorded, Moves, CellsSealed, PlansUnreadable, SettledRow;
    var r := store.MigrateColumns(c, [Item(1), Item(2)], draw, start);
    db := store.db;
    WalkedUpTo(SealerOf(c), start, start, db, [Item(1), Item(2)], r.value.unreadable);
    SettledCellStays(c, start, db);
  }

  lemma SettledCellStays(c: Cipher, start: Db, d: Db)
    requires start == HalfDoneStore() && CellsKept(SealerOf(c), start, d)
    ensures Item(1) in d.columns && d.columns[Item(1)] == start.columns[Item(1)]
  {
    var s, row := SealerOf(c), Row(1, [], BlobValue(LOG_MAGIC));
    TheBlob(c);
    hide SealerOf;
    assert start.columns[Item(1)] == Column(BlobColumn, [row]);
    OneRow(s, BlobColumn, row);
    SameRowsWhereSettled(s, BlobColumn, [row], d.columns[Item(1)].rows);
  }

  // ── Values under the keys that come after ───────────────────────────────────

  /** Keys that never open one ciphertext to two plaintexts. */
  ghost predicate OneReading(aead: Aead, keys: set<AeadKey>) {
    forall k, k', n, a, sealed | k in keys && k' in keys ::
      aead.open(k, n, a, sealed).Some? && aead.open(k', n, a, sealed).Some? ==>
      aead.open(k, n, a, sealed) == aead.open(k', n, a, sealed)
  }

  /** The cipher of the same store after a change of key that kept every key of `c`. */
  ghost predicate Succeeds(c: Cipher, c': Cipher) {
    && c'.aead == c.aead && c'.codec == c.codec && KeysOf(c) <= KeysOf(c') && OneReading(c'.aead, KeysOf(c'))
  }

  /** A change from one toy key to another, the old one kept. */
  lemma SomeCipherSucceeds(codec: Codec)
    ensures Succeeds(Cipher(ToyAead(), codec, AeadKey(2), []), Cipher(ToyAead(), codec, AeadKey(1), [AeadKey(2)]))
  {
    assert seq(TAG_LEN, i => AeadKey(1).id % 256)[0] != seq(TAG_LEN, i => AeadKey(2).id % 256)[0];
  }

  lemma BlobStillOpens(c: Cipher, c': Cipher, blob: bytes, aad: bytes)
    requires Succeeds(c, c') && |blob| >= NONCE_LEN && c.OpenBlob(blob, aad).Some?
    ensures c'.OpenBlob(blob, aad).Some? && c'.OpenBlob(blob, aad).value.0 == c.OpenBlob(blob, aad).value.0
  {
    var nonce, sealed := blob[..NONCE_LEN], blob[NONCE_LEN..];
    FirstRetiredOpens(c, c.retired, nonce, aad, sealed);
    FirstRetiredOpens(c', c'.retired, nonce, aad, sealed);
    var k :| k in KeysOf(c) && c.aead.open(k, nonce, aad, sealed) == Some(c.OpenBlob(blob, aad).value.0);
    assert k in KeysOf(c');
    assert c'.aead.open(k, nonce, aad, sealed).Some?;
  }

  /** A value that reads under a cipher reads the same under every one that succeeds it. */
  lemma StillReads(c: Cipher, c': Cipher, kind: ColumnKind, v: Value, aad: bytes)
    requires Succeeds(c, c') && !ReadingOf(c, kind, v, aad).NotReadable?
    ensures ReadingOf(c', kind, v, aad) == ReadingOf(c, kind, v, aad)
  {
    if !v.Null? {
      match kind {
        case TextColumn =>
          var text := AsText(c, v).value;
          if !(COMPAT_ESCAPE <= text) && TEXT_PREFIX <= text {
            BlobStillOpens(c, c', c.codec.decode64(text[|TEXT_PREFIX|..]).value, aad);
          }
        case BlobColumn =>
          var data := AsBytes(c, v);
          if CONTENT_MAGIC <= data { BlobStillOpens(c, c', data[8..], aad); }
      }
    }
  }

  /**
   Values sealed by the store itself never refuse resealing: what `SealBytes` made under any earlier
   cipher opens after a change of key, to a plaintext that can be sealed again.
   */
  lemma OwnBlobsNeverRefuse(c: Cipher, c': Cipher, plain: bytes, aad: bytes, nonce: bytes)
    requires c.Lawful() && Succeeds(c, c') && |nonce| == NONCE_LEN && c.SealBytes(plain, aad, nonce).Success?
    ensures var v := BlobValue(c.SealBytes(plain, aad, nonce).value);
      ReadingOf(c', BlobColumn, v, aad) == ReadsBytes(plain) && !RefusesReseal(c', BlobColumn, v, aad)
  {
    c.SealedBytesOpen(plain, aad, nonce);
    StillReads(c, c', BlobColumn, BlobValue(c.SealBytes(plain, aad, nonce).value), aad);
  }

  /** Every value of `original` that reads under `c` reads the same under `c'` in `d`. */
  ghost predicate ReadsAs(c: Cipher, original: Db, c': Cipher, d: Db) {
    && d.columns.Keys == original.columns.Keys
    && forall p :: p in original.columns ==> ColumnReadsAs(c, original.columns[p], c', d.columns[p])
  }

  ghost predicate ColumnReadsAs(c: Cipher, original: Column, c': Cipher, col: Column) {
    && col.kind == original.kind && |col.rows| == |original.rows|
    && forall i :: 0 <= i < |col.rows| ==> RowReadsAs(c, original.rows[i], c', col.rows[i], col.kind)
  }

  ghost predicate RowReadsAs(c: Cipher, original: Row, c': Cipher, row: Row, kind: ColumnKind) {
    && row.key == original.key && row.aad == original.aad
    && (ReadingOf(c, kind, original.value, row.aad).NotReadable? ||
        ReadingOf(c', kind, row.value, row.aad) == ReadingOf(c, kind, original.value, row.aad))
  }

  lemma MigratedReadsAs(c: Cipher, original: Db, d: Db)
    requires Migrating(SealerOf(c), original, d)
    ensures ReadsAs(c, original, c, d)
  {
    hide ReadingOf, SealedUnderCurrent, Reseal, Settled, CountsUnreadable;
    forall p | p in original.columns ensures ColumnReadsAs(c, original.columns[p], c, d.columns[p]) {
      FaithfulRowsAt(SealerOf(c), d.columns[p].kind, original.columns[p].rows, d.columns[p].rows);
    }
  }

  lemma ReadsOn(c: Cipher, original: Db, m: Cipher, e: Db, c': Cipher, e': Db, d: Db)
    requires ReadsAs(c, original, m, e) && Succeeds(m, c')
    requires e'.columns == e.columns && ReadsAs(c', e', c', d)
    ensures ReadsAs(c, original, c', d)
  {
    hide ReadingOf, Succeeds;
    forall p | p in original.columns ensures ColumnReadsAs(c, original.columns[p], c', d.columns[p]) {
      var o, b, a := original.columns[p], e.columns[p], d.columns[p];
      assert ColumnReadsAs(c, o, m, b) && ColumnReadsAs(c', b, c', a);
      forall i | 0 <= i < |a.rows| ensures RowReadsAs(c, o.rows[i], c', a.rows[i], a.kind) {
        assert RowReadsAs(c, o.rows[i], m, b.rows[i], b.kind) && RowReadsAs(c', b.rows[i], c', a.rows[i], a.kind);
        if !ReadingOf(m, b.kind, b.rows[i].value, b.rows[i].aad).NotReadable? {
          StillReads(m, c', b.kind, b.rows[i].value, b.rows[i].aad);
        }
      }
    }
  }

  /** One cipher's time: the store it found, and what its sessions left. */
  datatype Era = Era(c: Cipher, found: Db, left: Db)

  /** Each era migrates the store the last one left, under keys that include all earlier ones. */
  ghost predicate Eras(eras: seq<Era>) {
    && (forall e :: e in eras ==> Migrating(SealerOf(e.c), e.found, e.left))
    && (forall n :: 0 < n < |eras| ==> Succeeds(eras[n - 1].c, eras[n].c) && eras[n].found.columns == eras[n - 1].left.columns)
  }

  /**
   Through any number of key changes, with any crashes and resets in between: every value that read
   when the first key was current reads the same under the last.
   */
  lemma {:induction false} RotationsKeepReadings(eras: seq<Era>)
    requires eras != [] && Eras(eras)
    ensures ReadsAs(eras[0].c, eras[0].found, eras[|eras| - 1].c, eras[|eras| - 1].left)
  {
    hide Migrating, ReadsAs, Succeeds;
    var n := |eras| - 1;
    assert eras[n] in eras;
    MigratedReadsAs(eras[n].c, eras[n].found, eras[n].left);
    if n > 0 {
      assert forall e :: e in eras[..n] ==> e in eras;
      RotationsKeepReadings(eras[..n]);
      ReadsOn(eras[0].c, eras[0].found, eras[n - 1].c, eras[n - 1].left, eras[n].c, eras[n].found, eras[n].left);
    }
  }
}
