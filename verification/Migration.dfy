/**
 A SQLite store that seals its content: the resumable column migration, the store's recorded key,
 and the scrub that is owed once cells were rewritten.

 `SealedStore` keeps every committed state of the database on `commits`. A crash may follow any
 commit, so what holds of every commit holds after every crash, and a rerun starts from one.
 */
module Migration {
  import opened Wrappers
  import opened Bytes
  import opened Text
  import Custody
  import opened Content
  import opened Resealing

  // ── The state table ─────────────────────────────────────────────────────────

  const BATCH_SIZE := 500

  /** A planned `<table>.<column>`. */
  datatype Item = Item(id: nat)

  datatype Row = Row(key: int, aad: bytes, value: Value)

  datatype Column = Column(kind: ColumnKind, rows: seq<Row>)

  datatype ItemState = Pending | Sealing | Finished

  datatype ItemRow = ItemRow(state: ItemState, cursor: Option<int>)

  datatype StoreState = StoreOk | VacuumPending

  /**
   The store row, its `cursor` text as `ParseCursor` reads it; `CursorRoundTrip` says that what
   the store writes there reads back as written.
   */
  datatype StoreRow = StoreRow(state: StoreState, cursor: PendingCursor, kcv: Option<AeadKey>, minReader: int)

  /** Where freed plaintext may still sit: the write-ahead log, free pages, partly used pages. */
  datatype Place = Wal | FreePages | UsedPages

  datatype Db = Db(columns: map<Item, Column>, items: map<Item, ItemRow>, store: Option<StoreRow>, residue: set<Place>)

  // ── The store row's cursor ──────────────────────────────────────────────────

  const SCRUBBED := "scrubbed"

  /** Whether the free-page scrub already finished, and when a gated attempt last ran. */
  datatype PendingCursor = PendingCursor(scrubbed: bool, lastAttempt: Option<int>)
  {
    function Encode(): Option<string> {
      match (scrubbed, lastAttempt)
      case (false, None) => None
      case (false, Some(at)) => Some(ShowInt(at))
      case (true, None) => Some(SCRUBBED)
      case (true, Some(at)) => Some(SCRUBBED + ":" + ShowInt(at))
    }
  }

  const NO_CURSOR := PendingCursor(false, None)

  function ParseCursor(cursor: Option<string>): PendingCursor {
    match cursor
    case None => NO_CURSOR
    case Some(text) =>
      if SCRUBBED <= text then
        var rest := text[|SCRUBBED|..];
        PendingCursor(true, if rest != [] && rest[0] == ':' then ParseI64(rest[1..]) else None)
      else PendingCursor(false, ParseI64(text))
  }

  lemma CursorRoundTrip(p: PendingCursor)
    requires p.lastAttempt.Some? ==> I64_MIN <= p.lastAttempt.value <= I64_MAX
    ensures ParseCursor(p.Encode()) == p
  {
    if p.lastAttempt.Some? {
      var at := p.lastAttempt.value;
      ShownI64Parses(at);
      if p.scrubbed {
        var text := SCRUBBED + ":" + ShowInt(at);
        assert text[|SCRUBBED|..] == ":" + ShowInt(at);
        assert text[|SCRUBBED|..][1..] == ShowInt(at);
      } else if at < 0 {
        assert ShowInt(at)[0] == '-';
      } else {
        assert IsDigit(ShowInt(at)[0]);
      }
    }
  }

  // ── What every commit keeps ─────────────────────────────────────────────────

  /** Keys strictly increase: the table in the order of its key. */
  ghost predicate Sorted(rows: seq<Row>) {
    |rows| > 1 ==> Sorted(rows[..|rows| - 1]) && rows[|rows| - 2].key < rows[|rows| - 1].key
  }

  lemma {:induction false} SortedAt(rows: seq<Row>)
    ensures Sorted(rows) <==> forall i, j :: 0 <= i < j < |rows| ==> rows[i].key < rows[j].key
  {
    if |rows| > 1 {
      var n := |rows| - 1;
      SortedAt(rows[..n]);
      assert forall i :: 0 <= i < n ==> rows[..n][i] == rows[i];
      if Sorted(rows) {
        forall i, j | 0 <= i < j < |rows| ensures rows[i].key < rows[j].key {
          assert i < n - 1 ==> rows[..n][i].key < rows[..n][n - 1].key;
          assert j < n ==> rows[..n][i].key < rows[..n][j].key;
        }
      } else if forall i, j :: 0 <= i < j < |rows| ==> rows[i].key < rows[j].key {
        assert rows[n - 1].key < rows[n].key;
      }
    }
  }

  /** The row still stands for its original value, and changed only by being sealed. */
  ghost predicate Faithful(s: Sealer, kind: ColumnKind, original: Row, row: Row) {
    && row.key == original.key && row.aad == original.aad
    && s.reading(kind, row.value, row.aad) == s.reading(kind, original.value, original.aad)
    && (row.value != original.value ==>
          s.underCurrent(kind, row.value, row.aad) && !s.reading(kind, original.value, original.aad).NotReadable?)
  }

  ghost predicate FaithfulRows(s: Sealer, kind: ColumnKind, original: seq<Row>, rows: seq<Row>) {
    && |rows| == |original|
    && (rows != [] ==>
          && FaithfulRows(s, kind, original[..|rows| - 1], rows[..|rows| - 1])
          && Faithful(s, kind, original[|rows| - 1], rows[|rows| - 1]))
  }

  lemma {:induction false} FaithfulRowsAt(s: Sealer, kind: ColumnKind, original: seq<Row>, rows: seq<Row>)
    requires |rows| == |original|
    ensures FaithfulRows(s, kind, original, rows) <==>
      forall i :: 0 <= i < |rows| ==> Faithful(s, kind, original[i], rows[i])
  {
    if rows != [] {
      var n := |rows| - 1;
      FaithfulRowsAt(s, kind, original[..n], rows[..n]);
      assert forall i :: 0 <= i < n ==> original[..n][i] == original[i] && rows[..n][i] == rows[i];
    }
  }

  ghost predicate SettledRow(s: Sealer, kind: ColumnKind, row: Row) {
    s.settled(kind, row.value, row.aad)
  }

  ghost predicate AllSettled(s: Sealer, kind: ColumnKind, rows: seq<Row>) {
    rows != [] ==> AllSettled(s, kind, rows[..|rows| - 1]) && SettledRow(s, kind, rows[|rows| - 1])
  }

  lemma {:induction false} AllSettledAt(s: Sealer, kind: ColumnKind, rows: seq<Row>)
    ensures AllSettled(s, kind, rows) <==> forall i :: 0 <= i < |rows| ==> SettledRow(s, kind, rows[i])
  {
    if rows != [] {
      var n := |rows| - 1;
      AllSettledAt(s, kind, rows[..n]);
      assert forall i :: 0 <= i < n ==> rows[..n][i] == rows[i];
    }
  }

  /** Every row an item's state claims as done is settled. */
  ghost predicate Honest(s: Sealer, col: Column, item: ItemRow) {
    AllSettled(s, col.kind, if item.state == Finished then col.rows else col.rows[..After(col.rows, item.cursor)])
  }

  /** `db` is `original` partway through (or after) its migration under `c`. */
  ghost predicate Migrating(s: Sealer, original: Db, db: Db) {
    && db.columns.Keys == original.columns.Keys
    && (forall item :: item in db.columns ==>
          && db.columns[item].kind == original.columns[item].kind
          && FaithfulRows(s, db.columns[item].kind, original.columns[item].rows, db.columns[item].rows))
    && (forall item :: item in db.columns && item in db.items ==> Honest(s, db.columns[item], db.items[item]))
  }

  /** Freed plaintext anywhere means the store row owes the scrub; in free pages, the whole of it. */
  ghost predicate DebtRecorded(db: Db) {
    && (db.residue != {} ==> db.store.Some? && db.store.value.state == VacuumPending)
    && (FreePages in db.residue ==> !db.store.value.cursor.scrubbed)
  }

  /** Where the next batch starts: the first row after the cursor. */
  function After(rows: seq<Row>, cursor: Option<int>): (lo: nat)
    ensures lo <= |rows|
  {
    if cursor.None? || rows == [] || rows[0].key > cursor.value then 0 else 1 + After(rows[1..], cursor)
  }

  lemma {:induction false} AfterBounds(rows: seq<Row>, cursor: Option<int>)
    ensures var lo := After(rows, cursor);
      && (cursor.None? ==> lo == 0)
      && (forall i :: 0 <= i < lo ==> cursor.Some? && rows[i].key <= cursor.value)
      && (cursor.Some? && lo < |rows| ==> rows[lo].key > cursor.value)
  {
    if !(cursor.None? || rows == [] || rows[0].key > cursor.value) {
      AfterBounds(rows[1..], cursor);
    }
  }

  // ── Writes of the state table ───────────────────────────────────────────────

  function WithStoreState(db: Db, state: StoreState, cursor: PendingCursor): Db {
    var row := if db.store.Some? then db.store.value.(state := state, cursor := cursor)
               else StoreRow(state, cursor, None, Custody.SUPPORTED_MIN_READER);
    db.(store := Some(row))
  }

  function WithPending(db: Db, cursor: PendingCursor): Db {
    WithStoreState(db, VacuumPending, cursor)
  }

  function WithStoreKcv(db: Db, kcv: AeadKey): Db {
    var row := if db.store.Some? then
                 db.store.value.(kcv := Some(kcv),
                   minReader := if db.store.value.minReader < Custody.SUPPORTED_MIN_READER then Custody.SUPPORTED_MIN_READER else db.store.value.minReader)
               else StoreRow(StoreOk, NO_CURSOR, Some(kcv), Custody.SUPPORTED_MIN_READER);
    db.(store := Some(row))
  }

  /** The store row before new plaintext is freed: pending, and not recorded as scrubbed. */
  function WithScrubOwed(db: Db): Db {
    if db.store.Some? && db.store.value.state == VacuumPending then
      var cursor := db.store.value.cursor;
      if !cursor.scrubbed then db else WithPending(db, cursor.(scrubbed := false))
    else WithStoreState(db, VacuumPending, NO_CURSOR)
  }

  lemma ScrubOwedIsRecorded(db: Db)
    ensures var d := WithScrubOwed(db);
      && d.store.Some? && d.store.value.state == VacuumPending && !d.store.value.cursor.scrubbed
      && d == db.(store := d.store)
      && d.store.value.kcv == (if db.store.Some? then db.store.value.kcv else None)
      && d.store.value.cursor.lastAttempt ==
           (if db.store.Some? && db.store.value.state == VacuumPending then db.store.value.cursor.lastAttempt else None)
  {}

  function WithItem(db: Db, item: Item, row: ItemRow): Db {
    db.(items := db.items[item := row])
  }

  // ── One batch ───────────────────────────────────────────────────────────────

  datatype Report = Report(sealed: nat, already: nat, unreadable: nat, finishedItems: nat)
  {
    function Plus(r: Report): Report {
      Report(sealed + r.sealed, already + r.already, unreadable + r.unreadable, finishedItems + r.finishedItems)
    }
  }

  const NOTHING := Report(0, 0, 0, 0)

  /** The random nonces of a run, by row. */
  ghost predicate DrawsNonces(draw: int -> bytes) {
    forall k :: |draw(k)| == NONCE_LEN
  }

  function ResealedRow(s: Sealer, kind: ColumnKind, row: Row, nonce: bytes): Row
    requires |nonce| == NONCE_LEN
  {
    match s.outcome(kind, row.value, row.aad, nonce)
    case Sealed(v) => row.(value := v)
    case _ => row
  }

  function CountUnreadable(s: Sealer, kind: ColumnKind, rows: seq<Row>): nat {
    if rows == [] then 0
    else
      var last := rows[|rows| - 1];
      CountUnreadable(s, kind, rows[..|rows| - 1]) + (if s.unreadable(kind, last.value, last.aad) then 1 else 0)
  }

  lemma CountNext(s: Sealer, kind: ColumnKind, rows: seq<Row>, lo: nat, i: nat)
    requires lo <= i < |rows|
    ensures CountUnreadable(s, kind, rows[lo..i + 1])
         == CountUnreadable(s, kind, rows[lo..i]) + (if s.unreadable(kind, rows[i].value, rows[i].aad) then 1 else 0)
  {
    assert rows[lo..i + 1][..i - lo] == rows[lo..i];
  }

  lemma {:induction false} CountUnreadableAppend(s: Sealer, kind: ColumnKind, a: seq<Row>, b: seq<Row>)
    ensures CountUnreadable(s, kind, a + b) == CountUnreadable(s, kind, a) + CountUnreadable(s, kind, b)
  {
    if b == [] {
      assert a + b == a;
    } else {
      CountUnreadableAppend(s, kind, a, b[..|b| - 1]);
      assert (a + b)[..|a + b| - 1] == a + b[..|b| - 1];
    }
  }

  /** No row is counted exactly when the count is zero. */
  lemma {:induction false} NoneUnreadable(s: Sealer, kind: ColumnKind, rows: seq<Row>)
    ensures CountUnreadable(s, kind, rows) == 0 <==>
      forall i :: 0 <= i < |rows| ==> !s.unreadable(kind, rows[i].value, rows[i].aad)
  {
    if rows != [] {
      NoneUnreadable(s, kind, rows[..|rows| - 1]);
      assert forall i :: 0 <= i < |rows| - 1 ==> rows[..|rows| - 1][i] == rows[i];
    }
  }

  /** It counts the rows that are unreadable. */
  lemma {:induction false} CountsThem(s: Sealer, kind: ColumnKind, rows: seq<Row>)
    ensures CountUnreadable(s, kind, rows) == |set i | 0 <= i < |rows| && s.unreadable(kind, rows[i].value, rows[i].aad)|
  {
    if rows != [] {
      var n := |rows| - 1;
      CountsThem(s, kind, rows[..n]);
      assert forall i :: 0 <= i < n ==> rows[..n][i] == rows[i];
      var before := set i | 0 <= i < n && s.unreadable(kind, rows[..n][i].value, rows[..n][i].aad);
      var them := set i | 0 <= i < |rows| && s.unreadable(kind, rows[i].value, rows[i].aad);
      forall i ensures i in them <==> i in before || (i == n && s.unreadable(kind, rows[n].value, rows[n].aad)) {
        if 0 <= i < n { assert rows[..n][i] == rows[i]; }
      }
      assert them == if s.unreadable(kind, rows[n].value, rows[n].aad) then before + {n} else before;
    }
  }

  lemma NothingCounted(s: Sealer, kind: ColumnKind)
    ensures CountUnreadable(s, kind, []) == 0
  {}

  /** Rows `lo` to `hi` of `rows` were resealed, the others are as before. */
  ghost predicate BatchOf(s: Sealer, kind: ColumnKind, before: seq<Row>, rows: seq<Row>, lo: nat, hi: nat, draw: int -> bytes)
    requires DrawsNonces(draw)
  {
    && |rows| == |before| && lo <= hi <= |rows|
    && (forall i :: 0 <= i < lo || hi <= i < |rows| ==> rows[i] == before[i])
    && (forall i :: lo <= i < hi ==> rows[i] == ResealedRow(s, kind, before[i], draw(before[i].key)))
  }

  method ResealBatch(s: Sealer, kind: ColumnKind, before: seq<Row>, lo: nat, hi: nat, draw: int -> bytes)
    returns (rows: seq<Row>, report: Report)
    requires lo <= hi <= |before| && s.Lawful() && DrawsNonces(draw)
    ensures BatchOf(s, kind, before, rows, lo, hi, draw)
    ensures report.sealed + report.already + report.unreadable == hi - lo && report.finishedItems == 0
    ensures report.sealed == 0 ==> rows == before
    ensures report.unreadable == CountUnreadable(s, kind, before[lo..hi])
  {
    hide CountUnreadable;
    assert before[lo..lo] == [];
    NothingCounted(s, kind);
    rows := before;
    report := NOTHING;
    for i := lo to hi
      invariant |rows| == |before|
      invariant forall j :: 0 <= j < lo || i <= j < |rows| ==> rows[j] == before[j]
      invariant forall j :: lo <= j < i ==> rows[j] == ResealedRow(s, kind, before[j], draw(before[j].key))
      invariant report.sealed + report.already + report.unreadable == i - lo && report.finishedItems == 0
      invariant report.sealed == 0 ==> rows == before
      invariant report.unreadable == CountUnreadable(s, kind, before[lo..i])
    {
      var row := before[i];
      CountNext(s, kind, before, lo, i);
      match s.outcome(kind, row.value, row.aad, draw(row.key)) {
        case Sealed(v) =>
          rows := rows[i := row.(value := v)];
          report := report.(sealed := report.sealed + 1);
        case Already => report := report.(already := report.already + 1);
        case Unreadable => report := report.(unreadable := report.unreadable + 1);
      }
    }
  }

  // ── Each transaction keeps the migration faithful ───────────────────────────

  function WithRows(db: Db, item: Item, rows: seq<Row>): Db
    requires item in db.columns
  {
    db.(columns := db.columns[item := db.columns[item].(rows := rows)])
  }

  function LastKey(rows: seq<Row>, lo: nat, hi: nat, cursor: Option<int>): Option<int>
    requires lo <= hi <= |rows|
  {
    if lo < hi then Some(rows[hi - 1].key) else cursor
  }

  lemma StateOnlyKeeps(s: Sealer, original: Db, d: Db, d': Db)
    requires Migrating(s, original, d)
    requires d'.columns == d.columns
    requires forall item :: item in d'.items && item in d'.columns ==>
      (item in d.items && d'.items[item] == d.items[item]) || Honest(s, d'.columns[item], d'.items[item])
    ensures Migrating(s, original, d')
  {}

  lemma BatchKeepsRows(s: Sealer, kind: ColumnKind, original: seq<Row>, before: seq<Row>, rows: seq<Row>,
                       lo: nat, hi: nat, draw: int -> bytes)
    requires s.Lawful() && DrawsNonces(draw)
    requires FaithfulRows(s, kind, original, before) && BatchOf(s, kind, before, rows, lo, hi, draw)
    ensures FaithfulRows(s, kind, original, rows)
    ensures AllSettled(s, kind, before[..lo]) ==> AllSettled(s, kind, rows[..hi])
  {
    FaithfulRowsAt(s, kind, original, before);
    AllSettledAt(s, kind, before[..lo]);
    forall i | 0 <= i < |rows|
      ensures Faithful(s, kind, original[i], rows[i])
      ensures lo <= i < hi ==> SettledRow(s, kind, rows[i])
    {
      var row := before[i];
      assert Faithful(s, kind, original[i], row);
      if lo <= i < hi {
        var nonce := draw(row.key);
      }
    }
    FaithfulRowsAt(s, kind, original, rows);
    AllSettledAt(s, kind, rows[..hi]);
    assert AllSettled(s, kind, before[..lo]) ==> forall i :: 0 <= i < lo ==> SettledRow(s, kind, before[..lo][i]);
  }

  lemma ReplacingKeeps(s: Sealer, original: Db, d: Db, item: Item, rows: seq<Row>, row: ItemRow, d': Db)
    requires Migrating(s, original, d) && item in d.columns
    requires d'.columns == WithRows(d, item, rows).columns && d'.items == d.items[item := row]
    requires FaithfulRows(s, d.columns[item].kind, original.columns[item].rows, rows)
    requires Honest(s, d.columns[item].(rows := rows), row)
    ensures Migrating(s, original, d')
  {}

  lemma BatchKeeps(s: Sealer, original: Db, d: Db, item: Item, rows: seq<Row>, lo: nat, hi: nat,
                   draw: int -> bytes, d': Db)
    requires s.Lawful() && DrawsNonces(draw) && Migrating(s, original, d)
    requires item in d.columns && item in d.items && d.items[item].state == Sealing
    requires Sorted(d.columns[item].rows)
    requires lo == After(d.columns[item].rows, d.items[item].cursor)
    requires BatchOf(s, d.columns[item].kind, d.columns[item].rows, rows, lo, hi, draw)
    requires d'.columns == WithRows(d, item, rows).columns
    requires d'.items == d.items[item := ItemRow(Sealing, LastKey(d.columns[item].rows, lo, hi, d.items[item].cursor))]
    ensures Migrating(s, original, d')
    ensures hi == |rows| ==> AllSettled(s, d'.columns[item].kind, rows)
  {
    var col := d.columns[item];
    BatchKeepsRows(s, col.kind, original.columns[item].rows, col.rows, rows, lo, hi, draw);
    assert Honest(s, col, d.items[item]);
    BatchAdvances(s, col.kind, col.rows, rows, lo, hi, draw, d.items[item].cursor);
    assert rows[..|rows|] == rows;
    ReplacingKeeps(s, original, d, item, rows, d'.items[item], d');
  }

  lemma AfterIs(rows: seq<Row>, cursor: Option<int>, k: nat)
    requires Sorted(rows) && k <= |rows|
    requires cursor.None? ==> k == 0
    requires cursor.Some? && k > 0 ==> rows[k - 1].key <= cursor.value
    requires cursor.Some? && k < |rows| ==> rows[k].key > cursor.value
    ensures After(rows, cursor) == k
  {
    SortedAt(rows);
    AfterBounds(rows, cursor);
  }

  /** A batch touches no settled row, and the cursor it commits points past it. */
  lemma BatchAdvances(s: Sealer, kind: ColumnKind, before: seq<Row>, rows: seq<Row>, lo: nat, hi: nat,
                      draw: int -> bytes, cursor: Option<int>)
    requires s.Lawful() && DrawsNonces(draw) && Sorted(before) && lo == After(before, cursor)
    requires BatchOf(s, kind, before, rows, lo, hi, draw)
    ensures Sorted(rows) && rows[hi..] == before[hi..]
    ensures SameWhereSettled(s, kind, before, rows)
    ensures After(rows, LastKey(before, lo, hi, cursor)) == hi
  {
    hide SameWhereSettled, Sorted, After;
    assert forall i :: 0 <= i < |rows| ==>
      rows[i].key == before[i].key && (SettledRow(s, kind, before[i]) ==> rows[i] == before[i]);
    SameWhereSettledAt(s, kind, before, rows);
    SortedAt(before);
    SortedAt(rows);
    AfterBounds(before, cursor);
    AfterIs(rows, LastKey(before, lo, hi, cursor), hi);
  }

  lemma SuffixOfSuffix(a: seq<Row>, b: seq<Row>, i: nat, j: nat)
    requires i <= j <= |a| == |b| && a[i..] == b[i..]
    ensures a[j..] == b[j..]
  {
    assert a[j..] == a[i..][j - i..] && b[j..] == b[i..][j - i..];
  }

  lemma CountsAddUp(s: Sealer, kind: ColumnKind, rows0: seq<Row>, before: seq<Row>, from: nat, lo: nat, hi: nat)
    requires from <= lo <= hi <= |rows0| == |before| && before[lo..] == rows0[lo..]
    ensures CountUnreadable(s, kind, rows0[from..lo]) + CountUnreadable(s, kind, before[lo..hi])
         == CountUnreadable(s, kind, rows0[from..hi])
  {
    assert before[lo..hi] == before[lo..][..hi - lo] == rows0[lo..hi];
    CountUnreadableAppend(s, kind, rows0[from..lo], rows0[lo..hi]);
    assert rows0[from..lo] + rows0[lo..hi] == rows0[from..hi];
  }

  // ── The store ───────────────────────────────────────────────────────────────

  datatype Refusal = NoSecureDelete | NewerFormat | KeyMismatch | WalBusy

  datatype KeyState = Recorded | Current | Retired

  predicate RecordedByNewer(db: Db) {
    db.store.Some? && db.store.value.minReader > Custody.SUPPORTED_MIN_READER
  }

  predicate RecordsNoKey(db: Db) {
    db.store.None? || db.store.value.kcv.None?
  }

  predicate RecordsOtherKey(db: Db, c: Cipher) {
    !RecordsNoKey(db) && db.store.value.kcv.value != c.current && db.store.value.kcv.value !in c.retired
  }

  predicate RecordsRetiredKey(db: Db, c: Cipher) {
    !RecordsNoKey(db) && db.store.value.kcv.value != c.current && db.store.value.kcv.value in c.retired
  }

  /** The store row owes the same scrub as before. */
  ghost predicate SamePending(db: Db, db': Db) {
    && db'.store.Some?
    && db'.store.value.state == (if db.store.Some? then db.store.value.state else StoreOk)
    && db'.store.value.cursor == (if db.store.Some? then db.store.value.cursor else NO_CURSOR)
  }

  predicate AllFinished(items: map<Item, ItemRow>) {
    forall item :: item in items ==> items[item].state == Finished
  }

  function CursorOf(db: Db, item: Item): Option<int> {
    if item in db.items then db.items[item].cursor else None
  }

  predicate IsFinished(db: Db, item: Item) {
    item in db.items && db.items[item].state == Finished
  }

  /** Every commit from position `from` on is a faithful, partial migration of `original`. */
  ghost predicate AllMigrating(s: Sealer, original: Db, commits: seq<Db>, from: nat) {
    |commits| > from ==>
      Migrating(s, original, commits[|commits| - 1]) && AllMigrating(s, original, commits[..|commits| - 1], from)
  }

  ghost predicate AllRecorded(commits: seq<Db>, from: nat) {
    |commits| > from ==> DebtRecorded(commits[|commits| - 1]) && AllRecorded(commits[..|commits| - 1], from)
  }

  /** The store records a key out of `keys`, or none, in a format this version reads. */
  ghost predicate KeyedBy(db: Db, keys: set<AeadKey>) {
    db.store.Some? ==>
      db.store.value.minReader <= Custody.SUPPORTED_MIN_READER
      && (db.store.value.kcv.Some? ==> db.store.value.kcv.value in keys)
  }

  ghost predicate AllKeyed(keys: set<AeadKey>, commits: seq<Db>, from: nat) {
    |commits| > from ==> KeyedBy(commits[|commits| - 1], keys) && AllKeyed(keys, commits[..|commits| - 1], from)
  }

  lemma {:induction false} KeyedCommit(keys: set<AeadKey>, commits: seq<Db>, from: nat, at: nat)
    requires AllKeyed(keys, commits, from) && from <= at < |commits|
    ensures KeyedBy(commits[at], keys)
  {
    if at < |commits| - 1 { KeyedCommit(keys, commits[..|commits| - 1], from, at); }
  }

  lemma {:induction false} JoinKeyed(keys: set<AeadKey>, first: seq<Db>, commits: seq<Db>, from: nat)
    requires from <= |first| && first <= commits && AllKeyed(keys, first, from) && AllKeyed(keys, commits, |first|)
    ensures AllKeyed(keys, commits, from)
  {
    if |commits| == |first| {
      assert commits == first;
    } else {
      JoinKeyed(keys, first, commits[..|commits| - 1], from);
    }
  }

  lemma ExtendKeyed(keys: set<AeadKey>, first: seq<Db>, commits: seq<Db>, from: nat)
    requires from <= |first| < |commits| && commits[..|commits| - 1] == first
    requires AllKeyed(keys, first, from) && KeyedBy(commits[|commits| - 1], keys)
    ensures AllKeyed(keys, commits, from)
  {}

  lemma NothingKeyed(keys: set<AeadKey>, commits: seq<Db>)
    ensures AllKeyed(keys, commits, |commits|)
  {}

  lemma {:induction false} AllCommits(s: Sealer, original: Db, commits: seq<Db>, from: nat)
    ensures AllMigrating(s, original, commits, from) <==>
      forall j :: from <= j < |commits| ==> Migrating(s, original, commits[j])
    ensures AllRecorded(commits, from) <==> forall j :: from <= j < |commits| ==> DebtRecorded(commits[j])
  {
    if |commits| > from {
      var n := |commits| - 1;
      AllCommits(s, original, commits[..n], from);
      assert forall j :: from <= j < n ==> commits[..n][j] == commits[j];
    }
  }

  /** The same rows in the same places, with no settled one touched. */
  ghost predicate SameWhereSettled(s: Sealer, kind: ColumnKind, rows: seq<Row>, rows': seq<Row>) {
    && |rows'| == |rows|
    && (rows != [] ==>
          var last, last' := rows[|rows| - 1], rows'[|rows| - 1];
          && SameWhereSettled(s, kind, rows[..|rows| - 1], rows'[..|rows| - 1])
          && last'.key == last.key && (SettledRow(s, kind, last) ==> last' == last))
  }

  lemma {:induction false} SameWhereSettledAt(s: Sealer, kind: ColumnKind, rows: seq<Row>, rows': seq<Row>)
    requires |rows'| == |rows|
    ensures SameWhereSettled(s, kind, rows, rows') <==>
      forall i :: 0 <= i < |rows| ==>
        rows'[i].key == rows[i].key && (SettledRow(s, kind, rows[i]) ==> rows'[i] == rows[i])
  {
    if rows != [] {
      var n := |rows| - 1;
      SameWhereSettledAt(s, kind, rows[..n], rows'[..n]);
      assert forall i :: 0 <= i < n ==> rows[..n][i] == rows[i] && rows'[..n][i] == rows'[i];
    }
  }

  lemma SameNumber(s: Sealer, kind: ColumnKind, rows: seq<Row>, rows': seq<Row>)
    requires SameWhereSettled(s, kind, rows, rows')
    ensures |rows'| == |rows|
  {}

  lemma {:induction false} SameWhereSettledSelf(s: Sealer, kind: ColumnKind, rows: seq<Row>)
    ensures SameWhereSettled(s, kind, rows, rows)
  {
    if rows != [] { SameWhereSettledSelf(s, kind, rows[..|rows| - 1]); }
  }

  lemma {:induction false} SameWhereSettledCompose(s: Sealer, kind: ColumnKind, a: seq<Row>, b: seq<Row>, d: seq<Row>)
    requires SameWhereSettled(s, kind, a, b) && SameWhereSettled(s, kind, b, d)
    ensures SameWhereSettled(s, kind, a, d)
  {
    if a != [] {
      var n := |a| - 1;
      SameWhereSettledCompose(s, kind, a[..n], b[..n], d[..n]);
    }
  }

  /** Only the rows of `item` changed, and of those no settled one. */
  ghost predicate OnlyUnsettled(s: Sealer, d: Db, d': Db, item: Item)
    requires item in d.columns
  {
    && d'.columns.Keys == d.columns.Keys
    && (forall other :: other in d.columns && other != item ==> d'.columns[other] == d.columns[other])
    && d'.columns[item].kind == d.columns[item].kind
    && SameWhereSettled(s, d.columns[item].kind, d.columns[item].rows, d'.columns[item].rows)
  }

  lemma AllPlaces(places: set<Place>)
    ensures places <= {Wal, FreePages, UsedPages}
  {
    forall p | p in places ensures p in {Wal, FreePages, UsedPages} {
      match p
      case Wal =>
      case FreePages =>
      case UsedPages =>
    }
  }

  /**
   One batch of an item and its cursor, committed together, took the database from `d` to `d'`; a cell that
   changed may have left its plaintext anywhere.
   */
  ghost predicate BatchTransaction(s: Sealer, item: Item, draw: int -> bytes, d: Db, d': Db, taken: nat)
    requires DrawsNonces(draw)
  {
    && item in d.columns && item in d.items && item in d'.columns
    && var before, cursor := d.columns[item].rows, d.items[item].cursor;
       var lo := After(before, cursor);
       && taken == (if lo + BATCH_SIZE <= |before| then BATCH_SIZE else |before| - lo)
       && BatchOf(s, d.columns[item].kind, before, d'.columns[item].rows, lo, lo + taken, draw)
       && d' == WithItem(WithRows(d, item, d'.columns[item].rows), item, ItemRow(Sealing, LastKey(before, lo, lo + taken, cursor)))
                .(residue := d'.residue)
       && d.residue <= d'.residue && (d'.columns[item].rows != before ==> d'.residue == {Wal, FreePages, UsedPages})
  }

  lemma BatchTransactionAdvances(s: Sealer, item: Item, draw: int -> bytes, d: Db, d': Db, taken: nat)
    requires s.Lawful() && DrawsNonces(draw) && BatchTransaction(s, item, draw, d, d', taken) && Sorted(d.columns[item].rows)
    ensures OnlyUnsettled(s, d, d', item) && Sorted(d'.columns[item].rows)
    ensures var at := After(d.columns[item].rows, d.items[item].cursor) + taken;
      After(d'.columns[item].rows, d'.items[item].cursor) == at && d'.columns[item].rows[at..] == d.columns[item].rows[at..]
  {
    var before, cursor := d.columns[item].rows, d.items[item].cursor;
    var lo := After(before, cursor);
    BatchAdvances(s, d.columns[item].kind, before, d'.columns[item].rows, lo, lo + taken, draw, cursor);
  }

  lemma BatchTransactionKeeps(s: Sealer, original: Db, item: Item, draw: int -> bytes, d: Db, d': Db, taken: nat)
    requires s.Lawful() && DrawsNonces(draw) && BatchTransaction(s, item, draw, d, d', taken)
    requires Sorted(d.columns[item].rows) && d.items[item].state == Sealing && Migrating(s, original, d)
    ensures Migrating(s, original, d')
    ensures taken < BATCH_SIZE ==> AllSettled(s, d'.columns[item].kind, d'.columns[item].rows)
  {
    var lo := After(d.columns[item].rows, d.items[item].cursor);
    BatchKeeps(s, original, d, item, d'.columns[item].rows, lo, lo + taken, draw, d');
  }

  lemma OnlyUnsettledCompose(s: Sealer, d: Db, m: Db, d': Db, item: Item)
    requires item in d.columns && OnlyUnsettled(s, d, m, item) && OnlyUnsettled(s, m, d', item)
    ensures OnlyUnsettled(s, d, d', item)
  {
    SameWhereSettledCompose(s, d.columns[item].kind, d.columns[item].rows, m.columns[item].rows, d'.columns[item].rows);
  }

  ghost predicate BatchReport(s: Sealer, item: Item, d: Db, batch: Report, taken: nat)
    requires item in d.columns && item in d.items
  {
    var before := d.columns[item].rows;
    var lo := After(before, d.items[item].cursor);
    && lo + taken <= |before|
    && batch.unreadable == CountUnreadable(s, d.columns[item].kind, before[lo..lo + taken])
    && batch.sealed + batch.already + batch.unreadable == taken && batch.finishedItems == 0
  }

  /** A batch of an item under way took `d` to `d'`, reported as `batch`. */
  ghost predicate BatchStep(s: Sealer, item: Item, draw: int -> bytes, d: Db, d': Db, batch: Report, taken: nat)
    requires DrawsNonces(draw)
  {
    && BatchTransaction(s, item, draw, d, d', taken)
    && d.items[item].state == Sealing && Sorted(d.columns[item].rows)
    && BatchReport(s, item, d, batch, taken)
  }

  /** Every batch keeps `inv`, a relation between the database and the report so far. */
  ghost predicate KeptByBatches(s: Sealer, item: Item, draw: int -> bytes, inv: (Db, Report) -> bool)
    requires DrawsNonces(draw)
  {
    forall d, d', report, batch, taken ::
      inv(d, report) && BatchStep(s, item, draw, d, d', batch, taken) ==> inv(d', report.Plus(batch))
  }

  ghost predicate Holds(inv: (Db, Report) -> bool, d: Db) {
    exists report :: inv(d, report)
  }

  /** Every commit from position `from` on satisfies `inv` with some report. */
  ghost predicate AllHold(inv: (Db, Report) -> bool, commits: seq<Db>, from: nat) {
    |commits| > from ==> Holds(inv, commits[|commits| - 1]) && AllHold(inv, commits[..|commits| - 1], from)
  }

  /** The walk of an item from `d` has reached row `at` in `d'`. */
  ghost predicate Walked(s: Sealer, item: Item, d: Db, d': Db, at: nat, unreadable: nat) {
    && item in d.columns && item in d.items && item in d'.items
    && d'.store == d.store && OnlyUnsettled(s, d, d', item) && Sorted(d'.columns[item].rows)
    && d'.items == d.items[item := ItemRow(Sealing, d'.items[item].cursor)]
    && var rows := d.columns[item].rows;
       var from := After(rows, d.items[item].cursor);
       && from <= at == After(d'.columns[item].rows, d'.items[item].cursor)
       && d'.columns[item].rows[at..] == rows[at..]
       && unreadable == CountUnreadable(s, d.columns[item].kind, rows[from..at])
  }

  lemma WalkedFromStart(s: Sealer, item: Item, d: Db)
    requires item in d.columns && item in d.items && d.items[item].state == Sealing && Sorted(d.columns[item].rows)
    ensures Walked(s, item, d, d, After(d.columns[item].rows, d.items[item].cursor), 0)
  {
    var from := After(d.columns[item].rows, d.items[item].cursor);
    assert d.columns[item].rows[from..from] == [];
    SameWhereSettledSelf(s, d.columns[item].kind, d.columns[item].rows);
  }

  lemma WalkedStep(s: Sealer, item: Item, draw: int -> bytes, d: Db, m: Db, d': Db, at: nat, unreadable: nat,
                   batch: Report, taken: nat)
    requires s.Lawful() && DrawsNonces(draw)
    requires Walked(s, item, d, m, at, unreadable) && BatchStep(s, item, draw, m, d', batch, taken)
    ensures Walked(s, item, d, d', at + taken, unreadable + batch.unreadable)
  {
    hide Sorted, SameWhereSettled, CountUnreadable, BatchOf, After;
    var rows := d.columns[item].rows;
    BatchTransactionAdvances(s, item, draw, m, d', taken);
    OnlyUnsettledCompose(s, d, m, d', item);
    SameNumber(s, d.columns[item].kind, rows, m.columns[item].rows);
    CountsAddUp(s, d.columns[item].kind, rows, m.columns[item].rows, After(rows, d.items[item].cursor), at, at + taken);
    SuffixOfSuffix(m.columns[item].rows, rows, at, at + taken);
  }

  /** Where a walk that started at `start` may be: at `d`, with `report`. */
  ghost predicate OnTheWalk(s: Sealer, item: Item, original: Db, start: Db, d: Db, report: Report) {
    && item in d.columns && item in d.items
    && Walked(s, item, start, d, After(d.columns[item].rows, d.items[item].cursor), report.unreadable)
    && report.finishedItems == 0
    && (Migrating(s, original, start) ==> Migrating(s, original, d))
  }

  lemma OnTheWalkStep(s: Sealer, item: Item, draw: int -> bytes, original: Db, start: Db, d: Db, d': Db,
                      report: Report, batch: Report, taken: nat)
    requires s.Lawful() && DrawsNonces(draw)
    requires OnTheWalk(s, item, original, start, d, report) && BatchStep(s, item, draw, d, d', batch, taken)
    ensures OnTheWalk(s, item, original, start, d', report.Plus(batch))
  {
    hide Sorted, SameWhereSettled, CountUnreadable, BatchOf, After, Migrating, Walked;
    var at := After(d.columns[item].rows, d.items[item].cursor);
    BatchShape(s, item, draw, d, d', batch, taken);
    WalkedStep(s, item, draw, start, d, d', at, report.unreadable, batch, taken);
    if Migrating(s, original, start) { BatchTransactionKeeps(s, original, item, draw, d, d', taken); }
  }

  lemma WalkKeeps(s: Sealer, item: Item, draw: int -> bytes, original: Db, start: Db)
    requires s.Lawful() && DrawsNonces(draw)
    ensures KeptByBatches(s, item, draw, (d, report) => OnTheWalk(s, item, original, start, d, report))
  {
    forall d, d', report: Report, batch, taken |
      OnTheWalk(s, item, original, start, d, report) && BatchStep(s, item, draw, d, d', batch, taken)
      ensures OnTheWalk(s, item, original, start, d', report.Plus(batch))
    {
      OnTheWalkStep(s, item, draw, original, start, d, d', report, batch, taken);
    }
  }

  lemma {:induction false} JoinCommits(s: Sealer, original: Db, first: seq<Db>, commits: seq<Db>, from: nat)
    requires from <= |first| && first <= commits
    ensures AllRecorded(first, from) && AllRecorded(commits, |first|) ==> AllRecorded(commits, from)
    ensures AllMigrating(s, original, first, from) && AllMigrating(s, original, commits, |first|) ==>
      AllMigrating(s, original, commits, from)
  {
    if |commits| == |first| {
      assert commits == first;
    } else {
      JoinCommits(s, original, first, commits[..|commits| - 1], from);
    }
  }

  lemma ExtendCommits(s: Sealer, original: Db, first: seq<Db>, commits: seq<Db>, from: nat)
    requires from <= |first| < |commits| && commits[..|commits| - 1] == first
    ensures AllRecorded(first, from) && DebtRecorded(commits[|commits| - 1]) ==> AllRecorded(commits, from)
    ensures AllMigrating(s, original, first, from) && Migrating(s, original, commits[|commits| - 1]) ==>
      AllMigrating(s, original, commits, from)
  {}

  /** Every commit of a walk owes the scrub, and continues the migration the walk started in. */
  lemma {:induction false} WalkCommits(s: Sealer, item: Item, original: Db, start: Db, commits: seq<Db>, from: nat,
                                       keys: set<AeadKey>)
    requires AllHold((d, report) => OnTheWalk(s, item, original, start, d, report), commits, from)
    requires start.store.Some? && Owing(start, start.store.value.kcv)
    ensures AllRecorded(commits, from)
    ensures Migrating(s, original, start) ==> AllMigrating(s, original, commits, from)
    ensures KeyedBy(start, keys) ==> AllKeyed(keys, commits, from)
  {
    if |commits| > from {
      WalkCommits(s, item, original, start, commits[..|commits| - 1], from, keys);
      var d := commits[|commits| - 1];
      var report :| OnTheWalk(s, item, original, start, d, report);
      assert d.store == start.store;
    }
  }

  /** What migrating an item does to the cells, from the state `d` before it was started. */
  ghost predicate ItemWalked(s: Sealer, item: Item, d: Db, d': Db, unreadable: nat)
  {
    && item in d.columns && OnlyUnsettled(s, d, d', item)
    && var rows := d.columns[item].rows;
       unreadable == CountUnreadable(s, d.columns[item].kind, rows[After(rows, CursorOf(d, item))..])
  }

  lemma WalkMigratesItem(s: Sealer, item: Item, original: Db, d: Db, start: Db, walked: Db, report: Report)
    requires item in d.columns && start.columns == d.columns
    requires start.items == d.items[item := ItemRow(Sealing, CursorOf(d, item))]
    requires OnTheWalk(s, item, original, start, walked, report)
    requires After(walked.columns[item].rows, walked.items[item].cursor) == |walked.columns[item].rows|
    ensures ItemWalked(s, item, d, walked, report.unreadable)
    ensures walked.items == d.items[item := walked.items[item]] && walked.store == start.store
    ensures report.finishedItems == 0 && (Migrating(s, original, start) ==> Migrating(s, original, walked))
    ensures Migrating(s, original, start) ==> AllSettled(s, walked.columns[item].kind, walked.columns[item].rows)
  {
    var rows := d.columns[item].rows;
    var from := After(rows, CursorOf(d, item));
    assert rows[from..|rows|] == rows[from..];
    if Migrating(s, original, start) {
      assert Honest(s, walked.columns[item], walked.items[item]);
      assert walked.columns[item].rows[..|walked.columns[item].rows|] == walked.columns[item].rows;
    }
  }

  lemma SameColumns(s: Sealer, item: Item, d: Db, m: Db, d': Db, unreadable: nat)
    requires ItemWalked(s, item, d, m, unreadable) && d'.columns == m.columns
    ensures ItemWalked(s, item, d, d', unreadable)
  {}

  /** The part of a batch that the loop over batches needs. */
  lemma BatchShape(s: Sealer, item: Item, draw: int -> bytes, d: Db, d': Db, batch: Report, taken: nat)
    requires s.Lawful() && DrawsNonces(draw) && BatchStep(s, item, draw, d, d', batch, taken)
    ensures item in d.columns && item in d'.columns && item in d.items && item in d'.items && d'.items[item].state == Sealing
    ensures |d'.columns[item].rows| == |d.columns[item].rows| && Sorted(d'.columns[item].rows)
    ensures After(d'.columns[item].rows, d'.items[item].cursor) == After(d.columns[item].rows, d.items[item].cursor) + taken
    ensures taken < BATCH_SIZE ==> After(d'.columns[item].rows, d'.items[item].cursor) == |d.columns[item].rows|
  {
    BatchTransactionAdvances(s, item, draw, d, d', taken);
  }

  // ── All the planned items ───────────────────────────────────────────────────

  /** No settled cell changed, no row was added, removed or moved. */
  ghost predicate CellsKept(s: Sealer, d: Db, d': Db) {
    && d'.columns.Keys == d.columns.Keys
    && (forall item :: item in d.columns ==>
          && d'.columns[item].kind == d.columns[item].kind
          && SameWhereSettled(s, d.columns[item].kind, d.columns[item].rows, d'.columns[item].rows))
  }

  lemma CellsKeptSelf(s: Sealer, d: Db, d': Db)
    requires d'.columns == d.columns
    ensures CellsKept(s, d, d')
  {
    forall item | item in d.columns
      ensures SameWhereSettled(s, d.columns[item].kind, d.columns[item].rows, d'.columns[item].rows)
    {
      SameWhereSettledSelf(s, d.columns[item].kind, d.columns[item].rows);
    }
  }

  lemma CellsKeptStep(s: Sealer, start: Db, d: Db, d': Db, item: Item)
    requires CellsKept(s, start, d) && item in d.columns && OnlyUnsettled(s, d, d', item)
    ensures CellsKept(s, start, d')
  {
    SameWhereSettledCompose(s, d.columns[item].kind, start.columns[item].rows, d.columns[item].rows, d'.columns[item].rows);
  }

  /** Every planned item is recorded as finished, and every one of its cells is settled. */
  ghost predicate PlansDone(s: Sealer, d: Db, plans: seq<Item>) {
    forall p :: p in plans ==> IsFinished(d, p) && p in d.columns && AllSettled(s, d.columns[p].kind, d.columns[p].rows)
  }

  /** Nothing happened to an item yet. */
  ghost predicate Untouched(start: Db, d: Db, p: Item) {
    && (p in start.columns ==> p in d.columns && d.columns[p] == start.columns[p])
    && (p in d.items <==> p in start.items) && (p in d.items ==> d.items[p] == start.items[p])
  }

  /** The unreadable values a run over `plans` meets: those after each unfinished item's cursor. */
  ghost function PlansUnreadable(s: Sealer, d: Db, plans: seq<Item>): nat {
    if plans == [] then 0
    else
      var before, p := plans[..|plans| - 1], plans[|plans| - 1];
      PlansUnreadable(s, d, before)
      + if p in before || IsFinished(d, p) || p !in d.columns then 0
        else CountUnreadable(s, d.columns[p].kind, d.columns[p].rows[After(d.columns[p].rows, CursorOf(d, p))..])
  }

  /** The run over `plans` that started at `start` is done with the first `n` of them at `d`. */
  ghost predicate PlansWalked(s: Sealer, original: Db, start: Db, d: Db, plans: seq<Item>, n: nat, unreadable: nat) {
    && n <= |plans|
    && Migrating(s, original, d) && DebtRecorded(d) && CellsKept(s, start, d)
    && d.items.Keys == start.items.Keys + (set p | p in plans[..n])
    && PlansDone(s, d, plans[..n])
    && unreadable == PlansUnreadable(s, start, plans[..n])
    && (forall p :: p !in plans[..n] ==> Untouched(start, d, p))
  }

  /** After the run over `plans`, every item of the state table is finished. */
  ghost predicate AllDone(start: Db, plans: seq<Item>) {
    forall q :: q in start.items ==> q in plans || IsFinished(start, q)
  }

  /**
   Whether a run over `plans` from `start` moves the recorded key on: at some plan it still had to
   migrate, it had met nothing unreadable so far and left every item of the state table finished.
   */
  ghost predicate Moves(s: Sealer, start: Db, plans: seq<Item>) {
    plans != []
    && var before, p := plans[..|plans| - 1], plans[|plans| - 1];
       || Moves(s, start, before)
       || (p !in before && !IsFinished(start, p) && PlansUnreadable(s, start, plans) == 0 && AllDone(start, plans))
  }

  lemma MovesNext(s: Sealer, original: Db, start: Db, d: Db, d': Db, plans: seq<Item>, n: nat, unreadable: nat, unreadable': nat)
    requires n < |plans| && PlansWalked(s, original, start, d, plans, n, unreadable)
    requires PlansWalked(s, original, start, d', plans, n + 1, unreadable')
    ensures Moves(s, start, plans[..n + 1]) <==>
      Moves(s, start, plans[..n]) || (!IsFinished(d, plans[n]) && unreadable' == 0 && AllFinished(d'.items))
  {
    hide Migrating, DebtRecorded, CellsKept, PlansUnreadable, AllSettled;
    NextPlan(plans, n);
    var p := plans[n];
    assert p in plans[..n] ==> IsFinished(d, p);
    assert p !in plans[..n] ==> Untouched(start, d, p);
    forall q ensures q in d'.items && q !in plans[..n + 1] ==> (d'.items[q].state == Finished <==> IsFinished(start, q)) {
      if q !in plans[..n + 1] { assert Untouched(start, d', q); }
    }
    assert forall q :: q in plans[..n + 1] ==> IsFinished(d', q);
    assert AllFinished(d'.items) <==> AllDone(start, plans[..n + 1]) by {
      if AllFinished(d'.items) {
        forall q | q in start.items ensures q in plans[..n + 1] || IsFinished(start, q) {
          assert q in d'.items;
        }
      }
    }
  }

  lemma MovesNothing(s: Sealer, start: Db, plans: seq<Item>)
    ensures plans[..0] == [] && plans[..|plans|] == plans && !Moves(s, start, [])
  {}

  /** After resetting the planned items, the key moves on exactly when nothing was unreadable and every other item is finished. */
  lemma {:induction false} MovesAfterReset(s: Sealer, start: Db, plans: seq<Item>)
    requires AllReset(start, plans)
    ensures Moves(s, start, plans) <==> PlansUnreadable(s, start, plans) == 0 && AllDone(start, plans)
  {
    hide PlansUnreadable;
    var n := |plans| - 1;
    assert plans == plans[..n] + [plans[n]];
    assert plans[n] !in plans[..n];
    NotYetDone(s, start, plans, n);
  }

  lemma {:induction false} NotYetDone(s: Sealer, start: Db, plans: seq<Item>, n: nat)
    requires n < |plans| && AllReset(start, plans)
    ensures !Moves(s, start, plans[..n])
  {
    hide PlansUnreadable;
    if n > 0 {
      NotYetDone(s, start, plans, n - 1);
      assert plans[..n][..n - 1] == plans[..n - 1];
      assert plans[n] in start.items && plans[n] !in plans[..n] && !IsFinished(start, plans[n]);
    }
  }

  lemma {:induction false} SameMoves(s: Sealer, d: Db, d': Db, plans: seq<Item>)
    requires d'.columns == d.columns && d'.items == d.items
    ensures Moves(s, d, plans) <==> Moves(s, d', plans)
  {
    if plans != [] {
      SameMoves(s, d, d', plans[..|plans| - 1]);
      SameUnreadable(s, d, d', plans);
    }
  }

  lemma PlansStart(s: Sealer, original: Db, start: Db, plans: seq<Item>)
    requires Migrating(s, original, start) && DebtRecorded(start)
    ensures PlansWalked(s, original, start, start, plans, 0, NOTHING.unreadable)
  {
    CellsKeptSelf(s, start, start);
  }

  lemma NextPlan(plans: seq<Item>, n: nat)
    requires n < |plans|
    ensures plans[..n + 1][..n] == plans[..n] && plans[..n + 1][n] == plans[n]
    ensures forall p :: p in plans[..n + 1] <==> p in plans[..n] || p == plans[n]
  {
    assert plans[..n + 1] == plans[..n] + [plans[n]];
  }

  lemma WalkedIsMigrating(s: Sealer, original: Db, start: Db, d: Db, plans: seq<Item>, n: nat, unreadable: nat)
    requires PlansWalked(s, original, start, d, plans, n, unreadable)
    ensures Migrating(s, original, d) && DebtRecorded(d)
  {}

  lemma NoNewCommits(s: Sealer, original: Db, commits: seq<Db>)
    ensures AllRecorded(commits, |commits|) && AllMigrating(s, original, commits, |commits|)
  {}

  lemma FinishedPlanIsSkipped(s: Sealer, original: Db, start: Db, d: Db, plans: seq<Item>, n: nat, unreadable: nat)
    requires PlansWalked(s, original, start, d, plans, n, unreadable) && n < |plans|
    requires plans[n] in d.columns && IsFinished(d, plans[n])
    ensures PlansWalked(s, original, start, d, plans, n + 1, unreadable)
  {
    hide FaithfulRows, SameWhereSettled, AllSettled, CountUnreadable;
    NextPlan(plans, n);
    var p := plans[n];
    assert Honest(s, d.columns[p], d.items[p]);
    assert p !in plans[..n] ==> Untouched(start, d, p);
  }

  lemma PlanLeavesOthers(s: Sealer, start: Db, d: Db, d': Db, plans: seq<Item>, n: nat)
    requires n < |plans| && plans[n] in d.columns && OnlyUnsettled(s, d, d', plans[n])
    requires d'.items == d.items[plans[n] := ItemRow(Finished, None)]
    requires AllSettled(s, d'.columns[plans[n]].kind, d'.columns[plans[n]].rows)
    ensures PlansDone(s, d, plans[..n]) ==> PlansDone(s, d', plans[..n + 1])
    ensures forall q :: q !in plans[..n + 1] && Untouched(start, d, q) ==> Untouched(start, d', q)
  {
    hide SameWhereSettled, AllSettled;
    NextPlan(plans, n);
    assert forall q :: q in d.columns && q != plans[n] ==> d'.columns[q] == d.columns[q];
    forall q | q !in plans[..n + 1] && Untouched(start, d, q) ensures Untouched(start, d', q) {
      assert q != plans[n];
    }
    if PlansDone(s, d, plans[..n]) {
      forall q | q in plans[..n + 1]
        ensures IsFinished(d', q) && q in d'.columns && AllSettled(s, d'.columns[q].kind, d'.columns[q].rows)
      {
        if q != plans[n] { assert q in plans[..n] && IsFinished(d, q); }
      }
    }
  }

  lemma PlanIsWalked(s: Sealer, original: Db, start: Db, d: Db, d': Db, plans: seq<Item>, n: nat, unreadable: nat, more: nat)
    requires PlansWalked(s, original, start, d, plans, n, unreadable) && n < |plans|
    requires var p := plans[n];
      && p in d.columns && !IsFinished(d, p) && ItemWalked(s, p, d, d', more)
      && d'.items == d.items[p := ItemRow(Finished, None)]
      && AllSettled(s, d'.columns[p].kind, d'.columns[p].rows)
    requires Migrating(s, original, d') && DebtRecorded(d')
    ensures PlansWalked(s, original, start, d', plans, n + 1, unreadable + more)
  {
    hide FaithfulRows, SameWhereSettled, AllSettled, CountUnreadable, Migrating, DebtRecorded, OnlyUnsettled;
    NextPlan(plans, n);
    var p := plans[n];
    assert p !in plans[..n] by {
      assert p in plans[..n] ==> IsFinished(d, p);
    }
    assert Untouched(start, d, p);
    CellsKeptStep(s, start, d, d', p);
    PlanLeavesOthers(s, start, d, d', plans, n);
    hide CellsKept, PlansDone;
  }

  lemma {:induction false} SortedLikeSettled(s: Sealer, kind: ColumnKind, rows: seq<Row>, rows': seq<Row>)
    requires SameWhereSettled(s, kind, rows, rows')
    ensures Sorted(rows) <==> Sorted(rows')
  {
    SameWhereSettledAt(s, kind, rows, rows');
    SortedAt(rows);
    SortedAt(rows');
  }

  ghost predicate Walkable(d: Db, plans: seq<Item>) {
    forall p :: p in plans ==> p in d.columns && Sorted(d.columns[p].rows)
  }

  lemma PlanIsWalkable(s: Sealer, original: Db, start: Db, d: Db, plans: seq<Item>, n: nat, unreadable: nat)
    requires PlansWalked(s, original, start, d, plans, n, unreadable) && n < |plans| && Walkable(start, plans)
    ensures plans[n] in d.columns && Sorted(d.columns[plans[n]].rows)
  {
    var p := plans[n];
    SortedLikeSettled(s, start.columns[p].kind, start.columns[p].rows, d.columns[p].rows);
  }

  lemma WalkedUpTo(s: Sealer, original: Db, start: Db, d: Db, plans: seq<Item>, unreadable: nat)
    requires PlansWalked(s, original, start, d, plans, |plans|, unreadable)
    ensures CellsKept(s, start, d) && PlansDone(s, d, plans) && Migrating(s, original, d) && DebtRecorded(d)
    ensures unreadable == PlansUnreadable(s, start, plans)
  {
    hide Migrating, DebtRecorded, CellsKept, PlansDone, PlansUnreadable;
    assert plans[..|plans|] == plans;
  }

  /** Every planned item was reset, and no item is planned twice. */
  ghost predicate AllReset(d: Db, plans: seq<Item>) {
    && plans != []
    && (forall p :: p in plans ==> p in d.items && d.items[p] == ItemRow(Pending, None))
    && (forall i, j :: 0 <= i < j < |plans| ==> plans[i] != plans[j])
  }

  /** After a reset, a run counts exactly the unreadable values of the planned columns. */
  lemma {:induction false} CountsAfterReset(s: Sealer, d: Db, plans: seq<Item>)
    requires AllReset(d, plans) && Walkable(d, plans)
    ensures PlansUnreadable(s, d, plans) == 0 <==>
      forall p :: p in plans ==> CountUnreadable(s, d.columns[p].kind, d.columns[p].rows) == 0
    decreases |plans|
  {
    hide CountUnreadable, Sorted;
    var n := |plans| - 1;
    var p := plans[n];
    assert plans == plans[..n] + [p];
    assert p !in plans[..n];
    assert After(d.columns[p].rows, CursorOf(d, p)) == 0;
    assert d.columns[p].rows[0..] == d.columns[p].rows;
    if n > 0 {
      CountsAfterReset(s, d, plans[..n]);
    }
  }

  lemma RecordingKeeps(s: Sealer, original: Db, d: Db, d': Db, commits: seq<Db>, commits': seq<Db>, plans: seq<Item>)
    requires Migrating(s, original, d) && DebtRecorded(d) && d' == d.(store := d'.store)
    requires commits' == commits + [d'] || (commits' == commits && d' == d)
    requires d' != d ==> SamePending(d, d')
    ensures Migrating(s, original, d') && DebtRecorded(d')
    ensures AllRecorded(commits', |commits|) && AllMigrating(s, original, commits', |commits|)
    ensures Walkable(d, plans) ==> Walkable(d', plans)
  {
    StateOnlyKeeps(s, original, d, d');
  }

  lemma CheckedRecord(c: Cipher, d: Db)
    requires RecordsRetiredKey(d, c) || (!RecordsNoKey(d) && !RecordsOtherKey(d, c))
    ensures d.store.Some? && d.store.value.kcv.Some?
    ensures !RecordsRetiredKey(d, c) ==> d.store.value.kcv == Some(c.current)
  {}

  /** The keys a cipher knows. */
  ghost function KeysOf(c: Cipher): set<AeadKey> {
    {c.current} + (set k | k in c.retired)
  }

  /** What a migration under the cipher does not refuse. */
  ghost predicate Admitted(c: Cipher, d: Db) {
    !RecordedByNewer(d) && !RecordsOtherKey(d, c)
  }

  lemma AdmittedIsKeyed(c: Cipher, d: Db)
    ensures Admitted(c, d) <==> KeyedBy(d, KeysOf(c))
  {}

  lemma Refusals(c: Cipher, d: Db)
    ensures Admitted(c, d) <==> !RecordedByNewer(d) && !RecordsOtherKey(d, c)
  {}

  lemma CheckedKeys(c: Cipher, d: Db, d': Db, commits: seq<Db>, commits': seq<Db>)
    requires !RecordedByNewer(d) && !RecordsOtherKey(d, c)
    requires if commits' == commits then d' == d
      else commits' == commits + [d'] && d'.store.Some? && d'.store.value.kcv == Some(c.current)
           && d'.store.value.minReader == Custody.SUPPORTED_MIN_READER
    ensures KeyedBy(d', KeysOf(c)) && AllKeyed(KeysOf(c), commits', |commits|) && c.current in KeysOf(c)
  {
    assert (commits + [d'])[..|commits|] == commits;
  }

  lemma SameStart(s: Sealer, original: Db, start: Db, start': Db, d: Db, plans: seq<Item>, unreadable: nat)
    requires start' == start.(store := start'.store) && PlansWalked(s, original, start', d, plans, |plans|, unreadable)
    ensures PlansWalked(s, original, start, d, plans, |plans|, unreadable)
  {
    hide Migrating, DebtRecorded, PlansDone, FaithfulRows, SameWhereSettled, CountUnreadable;
    SameUnreadable(s, start, start', plans[..|plans|]);
    assert forall p :: Untouched(start', d, p) <==> Untouched(start, d, p);
  }

  lemma {:induction false} SameUnreadable(s: Sealer, d: Db, d': Db, plans: seq<Item>)
    requires d'.columns == d.columns && d'.items == d.items
    ensures PlansUnreadable(s, d, plans) == PlansUnreadable(s, d', plans)
  {
    if plans != [] { SameUnreadable(s, d, d', plans[..|plans| - 1]); }
  }

  // ── What a finished run means under a cipher ────────────────────────────────

  /** Every value is NULL, empty or sealed under the current key, and reads the same without the retired keys. */
  ghost predicate CellsSealed(c: Cipher, col: Column) {
    forall i :: 0 <= i < |col.rows| ==> CellSealed(c, col.kind, col.rows[i].value, col.rows[i].aad)
  }

  /**
   What the planned columns hold reads the same once the retired keys are dropped, except the blobs that
   refuse to be sealed again.
   */
  ghost predicate RetiredKeysUnneeded(c: Cipher, d: Db, plans: seq<Item>) {
    forall p, i: nat :: p in plans && p in d.columns && i < |d.columns[p].rows| ==>
      var row := d.columns[p].rows[i];
      RefusesReseal(c, d.columns[p].kind, row.value, row.aad) <==>
      ReadingOf(Alone(c), d.columns[p].kind, row.value, row.aad) != ReadingOf(c, d.columns[p].kind, row.value, row.aad)
  }

  lemma DoneNeedsNoRetired(c: Cipher, d: Db, plans: seq<Item>)
    requires PlansDone(SealerOf(c), d, plans)
    ensures RetiredKeysUnneeded(c, d, plans)
  {
    hide Settled, RefusesReseal, ReadingOf;
    forall p, i: nat | p in plans && p in d.columns && i < |d.columns[p].rows|
      ensures var row := d.columns[p].rows[i];
        RefusesReseal(c, d.columns[p].kind, row.value, row.aad) <==>
        ReadingOf(Alone(c), d.columns[p].kind, row.value, row.aad) != ReadingOf(c, d.columns[p].kind, row.value, row.aad)
    {
      AllSettledAt(SealerOf(c), d.columns[p].kind, d.columns[p].rows);
      assert SettledRow(SealerOf(c), d.columns[p].kind, d.columns[p].rows[i]);
      SettledReadsAlone(c, d.columns[p].kind, d.columns[p].rows[i].value, d.columns[p].rows[i].aad);
    }
  }

  lemma RowIsSealed(c: Cipher, kind: ColumnKind, original: Row, before: Row, row: Row)
    requires var s := SealerOf(c);
      && Faithful(s, kind, original, before) && Faithful(s, kind, original, row)
      && (SettledRow(s, kind, before) ==> row == before) && SettledRow(s, kind, row)
      && !s.unreadable(kind, before.value, before.aad)
    ensures CellSealed(c, kind, row.value, row.aad)
  {
    hide SealedUnderCurrent, IsEmpty, CountsUnreadable, ReadingOf, Reseal, CellSealed;
    if SealedUnderCurrent(c, kind, row.value, row.aad) { SealedIsReadable(c, kind, row.value, row.aad); }
    CellSealedExactly(c, kind, row.value, row.aad);
  }

  /** A run that counted nothing unreadable in a column it walked from the start left it all sealed. */
  lemma ColumnIsSealed(c: Cipher, original: Column, before: Column, after: Column)
    requires var s := SealerOf(c);
      && before.kind == original.kind && after.kind == original.kind
      && FaithfulRows(s, original.kind, original.rows, before.rows)
      && FaithfulRows(s, original.kind, original.rows, after.rows)
      && SameWhereSettled(s, before.kind, before.rows, after.rows)
      && AllSettled(s, after.kind, after.rows)
      && CountUnreadable(s, before.kind, before.rows) == 0
    ensures CellsSealed(c, after)
  {
    hide CellSealed, CountsUnreadable, ReadingOf, Reseal, Settled, Faithful, SettledRow;
    var s := SealerOf(c);
    FaithfulRowsAt(s, original.kind, original.rows, before.rows);
    FaithfulRowsAt(s, original.kind, original.rows, after.rows);
    SameWhereSettledAt(s, before.kind, before.rows, after.rows);
    AllSettledAt(s, after.kind, after.rows);
    NoneUnreadable(s, before.kind, before.rows);
    forall i | 0 <= i < |after.rows|
      ensures CellSealed(c, after.kind, after.rows[i].value, after.rows[i].aad)
    {
      RowIsSealed(c, original.kind, original.rows[i], before.rows[i], after.rows[i]);
    }
  }

  /** The record of the store's key may move on: every planned cell needs nothing but the current key. */
  lemma NothingLeftBehind(c: Cipher, original: Db, start: Db, d: Db, plans: seq<Item>)
    requires AllReset(start, plans) && Walkable(start, plans) && Migrating(SealerOf(c), original, start)
    requires PlansWalked(SealerOf(c), original, start, d, plans, |plans|, 0)
    ensures forall p :: p in plans ==> CellsSealed(c, d.columns[p])
  {
    hide SealedUnderCurrent, IsEmpty, CountsUnreadable, ReadingOf, Reseal, Settled, FaithfulRows, AllSettled,
      SameWhereSettled, CountUnreadable, CellsSealed, Sorted, PlansUnreadable, DebtRecorded;
    var s := SealerOf(c);
    WalkedUpTo(s, original, start, d, plans, 0);
    CountsAfterReset(s, start, plans);
    forall p | p in plans ensures CellsSealed(c, d.columns[p]) {
      ColumnIsSealed(c, original.columns[p], start.columns[p], d.columns[p]);
    }
  }

  /** When every item of the state table was planned, the run finished them all. */
  lemma AllPlannedAllFinished(s: Sealer, original: Db, start: Db, d: Db, plans: seq<Item>, unreadable: nat)
    requires PlansWalked(s, original, start, d, plans, |plans|, unreadable)
    requires forall p :: p in start.items ==> p in plans
    ensures AllFinished(d.items)
  {
    hide Migrating, DebtRecorded, CellsKept, PlansUnreadable, AllSettled;
    WalkedUpTo(s, original, start, d, plans, unreadable);
    assert plans[..|plans|] == plans;
  }

  /** A second walk over settled cells changes none of them. */
  lemma SecondWalkChangesNothing(s: Sealer, original: Db, d: Db, start: Db, d': Db, plans: seq<Item>, unreadable: nat)
    requires PlansDone(s, d, plans) && start.columns == d.columns
    requires PlansWalked(s, original, start, d', plans, |plans|, unreadable)
    ensures forall p :: p in plans ==> d'.columns[p] == d.columns[p]
  {
    hide Migrating, DebtRecorded, PlansUnreadable, AllSettled, SameWhereSettled;
    forall p | p in plans ensures d'.columns[p] == d.columns[p] {
      var kind, rows, rows' := d.columns[p].kind, d.columns[p].rows, d'.columns[p].rows;
      SameRowsWhereSettled(s, kind, rows, rows');
    }
  }

  lemma SameRowsWhereSettled(s: Sealer, kind: ColumnKind, rows: seq<Row>, rows': seq<Row>)
    requires AllSettled(s, kind, rows) && SameWhereSettled(s, kind, rows, rows')
    ensures rows' == rows
  {
    AllSettledAt(s, kind, rows);
    SameWhereSettledAt(s, kind, rows, rows');
  }

  /** Data is where a migration starts, as long as no item was started or all were reset. */
  lemma StartsMigrating(s: Sealer, d: Db)
    requires forall p :: p in d.items ==> d.items[p] == ItemRow(Pending, None)
    ensures Migrating(s, d, d)
  {
    forall item | item in d.columns
      ensures FaithfulRows(s, d.columns[item].kind, d.columns[item].rows, d.columns[item].rows)
    {
      FaithfulRowsAt(s, d.columns[item].kind, d.columns[item].rows, d.columns[item].rows);
    }
  }

  /** Resetting items never breaks a migration under way. */
  lemma ResetKeeps(s: Sealer, original: Db, d: Db, d': Db)
    requires Migrating(s, original, d) && d' == d.(items := d'.items)
    requires forall p :: p in d'.items ==> d'.items[p] == ItemRow(Pending, None) || (p in d.items && d'.items[p] == d.items[p])
    ensures Migrating(s, original, d') && (DebtRecorded(d) <==> DebtRecorded(d'))
  {
    hide FaithfulRows;
    forall p | p in d'.items && p in d'.columns ensures Honest(s, d'.columns[p], d'.items[p]) {
      if d'.items[p] == ItemRow(Pending, None) {
        assert d'.columns[p].rows[..0] == [];
      } else {
        assert Honest(s, d.columns[p], d.items[p]);
      }
    }
  }

  /** Every state of a migration has its tables in the order of the original's. */
  lemma MigratingIsWalkable(s: Sealer, original: Db, d: Db, plans: seq<Item>)
    requires Migrating(s, original, d) && Walkable(original, plans)
    ensures Walkable(d, plans)
  {
    hide Honest;
    forall p | p in plans ensures p in d.columns && Sorted(d.columns[p].rows) {
      var rows, rows' := original.columns[p].rows, d.columns[p].rows;
      FaithfulRowsAt(s, d.columns[p].kind, rows, rows');
      SortedAt(rows);
      assert forall i :: 0 <= i < |rows'| ==> rows'[i].key == rows[i].key;
      SortedAt(rows');
    }
  }

  /** The store row owes the whole scrub, and records `kcv`. */
  ghost predicate Owing(db: Db, kcv: Option<AeadKey>) {
    db.store.Some? && db.store.value.state == VacuumPending && !db.store.value.cursor.scrubbed
    && db.store.value.kcv == kcv
  }

  lemma OwingIsRecorded(db: Db, kcv: Option<AeadKey>)
    requires Owing(db, kcv)
    ensures DebtRecorded(db) && db.store.Some? && db.store.value.kcv == kcv
  {}

  lemma PlusAdds(a: Report, b: Report)
    ensures var r := a.Plus(b);
      && r.unreadable == a.unreadable + b.unreadable && r.finishedItems == a.finishedItems + b.finishedItems
  {}

  class SealedStore {
    var db: Db
    /** Every committed state of the database, the current one last. */
    var commits: seq<Db>
    var secureDelete: bool

    ghost predicate Valid() reads this {
      |commits| > 0 && commits[|commits| - 1] == db
    }

    /** A store as a crash (or a clean stop) left it. */
    constructor (left: Db, secureDelete: bool)
      ensures Valid() && db == left && commits == [left] && this.secureDelete == secureDelete
    {
      db, commits := left, [left];
      this.secureDelete := secureDelete;
    }

    method Commit(d: Db)
      requires Valid()
      modifies this`db, this`commits
      ensures Valid() && db == d && commits == old(commits) + [d] && commits[..|commits| - 1] == old(commits)
    {
      db := d;
      commits := commits + [d];
    }

    /** Compare the recorded key with the cipher's, recording it on first use. */
    method CheckStoreKey(c: Cipher) returns (r: Result<KeyState, Refusal>)
      requires Valid()
      modifies this`db, this`commits
      ensures Valid() && commits == (if r == Success(Recorded) then old(commits) + [db] else old(commits))
      ensures db == old(db).(store := db.store)
      ensures r == (if RecordedByNewer(old(db)) then Failure(NewerFormat)
                    else if RecordsOtherKey(old(db), c) then Failure(KeyMismatch)
                    else if RecordsRetiredKey(old(db), c) then Success(Retired)
                    else if RecordsNoKey(old(db)) then Success(Recorded)
                    else Success(Current))
      ensures r != Success(Recorded) ==> db == old(db)
      ensures r == Success(Recorded) ==>
        db.store.Some? && db.store.value.kcv == Some(c.current) && SamePending(old(db), db)
        && db.store.value.minReader == Custody.SUPPORTED_MIN_READER
    {
      match db.store {
        case Some(row) =>
          if row.minReader > Custody.SUPPORTED_MIN_READER { return Failure(NewerFormat); }
          match row.kcv {
            case None =>
              Commit(WithStoreKcv(db, c.current));
              return Success(Recorded);
            case Some(kcv) =>
              if kcv == c.current { return Success(Current); }
              if kcv in c.retired { return Success(Retired); }
              return Failure(KeyMismatch);
          }
        case None =>
          Commit(WithStoreKcv(db, c.current));
          return Success(Recorded);
      }
    }

    /** Mark planned items as unfinished, so that the next run walks them again. */
    method ResetItems(plans: seq<Item>)
      requires Valid()
      modifies this`db, this`commits
      ensures Valid() && old(commits) <= commits
      ensures db == old(db).(items := db.items) && db.items.Keys == old(db).items.Keys + (set p | p in plans)
      ensures forall p :: p in db.items ==>
        if p in plans then db.items[p] == ItemRow(Pending, None) else db.items[p] == old(db).items[p]
      ensures DebtRecorded(old(db)) ==> AllRecorded(commits, |old(commits)|)
    {
      for n := 0 to |plans|
        invariant Valid() && old(commits) <= commits
        invariant db == old(db).(items := db.items) && db.items.Keys == old(db).items.Keys + (set p | p in plans[..n])
        invariant forall p :: p in db.items ==>
          if p in plans[..n] then db.items[p] == ItemRow(Pending, None) else db.items[p] == old(db).items[p]
        invariant DebtRecorded(old(db)) ==> AllRecorded(commits, |old(commits)|)
      {
        Commit(WithItem(db, plans[n], ItemRow(Pending, None)));
        assert plans[..n + 1] == plans[..n] + [plans[n]];
      }
      assert plans[..|plans|] == plans;
    }

    /** The transaction that starts an item: the scrub debt and the `sealing` state together. */
    method StartItem(s: Sealer, item: Item, ghost original: Db, ghost keys: set<AeadKey>)
      requires Valid() && item in db.columns && !IsFinished(db, item)
      modifies this`db, this`commits
      ensures Valid() && commits == old(commits) + [db] && commits[..|commits| - 1] == old(commits)
      ensures db.columns == old(db).columns && db.residue == old(db).residue
      ensures db.items == old(db).items[item := ItemRow(Sealing, CursorOf(old(db), item))]
      ensures Owing(db, if old(db).store.Some? then old(db).store.value.kcv else None)
      ensures Migrating(s, original, old(db)) ==> Migrating(s, original, db)
      ensures KeyedBy(old(db), keys) ==> KeyedBy(db, keys)
    {
      ScrubOwedIsRecorded(db);
      var started := WithItem(WithScrubOwed(db), item, ItemRow(Sealing, CursorOf(db, item)));
      if Migrating(s, original, db) {
        assert item in db.items ==> Honest(s, db.columns[item], db.items[item]);
        StateOnlyKeeps(s, original, db, started);
      }
      Commit(started);
    }

    /** One batch and its cursor, in one transaction. */
    method WalkBatch(s: Sealer, item: Item, draw: int -> bytes) returns (batch: Report, taken: nat)
      requires Valid() && s.Lawful() && DrawsNonces(draw)
      requires item in db.columns && Sorted(db.columns[item].rows)
      requires item in db.items && db.items[item].state == Sealing
      modifies this`db, this`commits
      ensures Valid() && commits == old(commits) + [db] && commits[..|commits| - 1] == old(commits)
      ensures BatchStep(s, item, draw, old(db), db, batch, taken)
    {
      var kind, before, cursor := db.columns[item].kind, db.columns[item].rows, db.items[item].cursor;
      var lo := After(before, cursor);
      var hi := if lo + BATCH_SIZE <= |before| then lo + BATCH_SIZE else |before|;
      var rows;
      rows, batch := ResealBatch(s, kind, before, lo, hi, draw);
      taken := hi - lo;
      var after := WithItem(WithRows(db, item, rows), item, ItemRow(Sealing, LastKey(before, lo, hi, cursor)));
      AllPlaces(db.residue);
      if batch.sealed > 0 {
        after := after.(residue := {Wal, FreePages, UsedPages});
      }
      Commit(after);
    }

    /** Walk an item from its cursor to its end; what every batch keeps holds of every commit. */
    method WalkItem(s: Sealer, item: Item, draw: int -> bytes, ghost inv: (Db, Report) -> bool) returns (report: Report)
      requires Valid() && s.Lawful() && DrawsNonces(draw)
      requires item in db.columns && Sorted(db.columns[item].rows)
      requires item in db.items && db.items[item].state == Sealing
      requires inv(db, NOTHING) && KeptByBatches(s, item, draw, inv)
      modifies this`db, this`commits
      ensures Valid() && old(commits) <= commits
      ensures AllHold(inv, commits, |old(commits)|) && inv(db, report)
      ensures item in db.columns && item in db.items
      ensures After(db.columns[item].rows, db.items[item].cursor) == |db.columns[item].rows|
    {
      report := NOTHING;
      ghost var n := |db.columns[item].rows|;
      while true
        invariant Valid() && old(commits) <= commits
        invariant item in db.columns && |db.columns[item].rows| == n && Sorted(db.columns[item].rows)
        invariant item in db.items && db.items[item].state == Sealing
        invariant AllHold(inv, commits, |old(commits)|) && inv(db, report)
        decreases n - After(db.columns[item].rows, db.items[item].cursor)
      {
        ghost var d := db;
        var batch, taken := WalkBatch(s, item, draw);
        BatchShape(s, item, draw, d, db, batch, taken);
        report := report.Plus(batch);
        if taken < BATCH_SIZE { break; }
      }
    }

    /** Walk an item that was just started. */
    method WalkStarted(s: Sealer, item: Item, draw: int -> bytes, ghost original: Db, ghost keys: set<AeadKey>) returns (report: Report)
      requires Valid() && s.Lawful() && DrawsNonces(draw)
      requires item in db.columns && Sorted(db.columns[item].rows)
      requires item in db.items && db.items[item].state == Sealing
      requires db.store.Some? && Owing(db, db.store.value.kcv)
      modifies this`db, this`commits
      ensures Valid() && old(commits) <= commits
      ensures OnTheWalk(s, item, original, old(db), db, report) && item in db.columns && item in db.items
      ensures After(db.columns[item].rows, db.items[item].cursor) == |db.columns[item].rows|
      ensures db.store == old(db).store
      ensures AllRecorded(commits, |old(commits)|)
      ensures Migrating(s, original, old(db)) ==> AllMigrating(s, original, commits, |old(commits)|)
      ensures KeyedBy(old(db), keys) ==> AllKeyed(keys, commits, |old(commits)|)
    {
      ghost var start := db;
      ghost var inv := (d: Db, r: Report) => OnTheWalk(s, item, original, start, d, r);
      WalkedFromStart(s, item, start);
      WalkKeeps(s, item, draw, original, start);
      report := WalkItem(s, item, draw, inv);
      WalkCommits(s, item, original, start, commits, |old(commits)|, keys);
    }

    /** The transaction that finishes an item, and moves the recorded key when the whole store is done. */
    method FinishItem(s: Sealer, item: Item, moveTo: Option<AeadKey>, ghost original: Db, ghost keys: set<AeadKey>)
      requires Valid() && item in db.columns && item in db.items
      requires DebtRecorded(db) && db.store.Some?
      modifies this`db, this`commits
      ensures Valid() && commits == old(commits) + [db] && commits[..|commits| - 1] == old(commits)
      ensures db.columns == old(db).columns && db.items == old(db).items[item := ItemRow(Finished, None)]
      ensures DebtRecorded(db) && db.store.Some?
      ensures db.store.value.kcv ==
        if moveTo.Some? && AllFinished(db.items) then moveTo else old(db).store.value.kcv
      ensures Migrating(s, original, old(db)) && AllSettled(s, db.columns[item].kind, db.columns[item].rows) ==>
        Migrating(s, original, db)
      ensures KeyedBy(old(db), keys) && (moveTo.Some? ==> moveTo.value in keys) ==> KeyedBy(db, keys)
    {
      var done := WithItem(db, item, ItemRow(Finished, None));
      if moveTo.Some? && AllFinished(done.items) {
        done := WithStoreKcv(done, moveTo.value);
      }
      if Migrating(s, original, db) && AllSettled(s, db.columns[item].kind, db.columns[item].rows) {
        StateOnlyKeeps(s, original, db, done);
      }
      Commit(done);
    }

    /** Start an unfinished item and walk it to its end. */
    method MigrateRows(s: Sealer, item: Item, draw: int -> bytes, ghost original: Db, ghost keys: set<AeadKey>) returns (report: Report)
      requires Valid() && s.Lawful() && DrawsNonces(draw)
      requires item in db.columns && Sorted(db.columns[item].rows) && !IsFinished(db, item)
      modifies this`db, this`commits
      ensures Valid() && old(commits) <= commits
      ensures AllRecorded(commits, |old(commits)|)
      ensures Migrating(s, original, old(db)) ==>
        && AllMigrating(s, original, commits, |old(commits)|) && Migrating(s, original, db)
        && AllSettled(s, db.columns[item].kind, db.columns[item].rows)
      ensures ItemWalked(s, item, old(db), db, report.unreadable) && report.finishedItems == 0
      ensures item in db.columns && item in db.items && db.items == old(db).items[item := db.items[item]]
      ensures Owing(db, if old(db).store.Some? then old(db).store.value.kcv else None)
      ensures KeyedBy(old(db), keys) ==> AllKeyed(keys, commits, |old(commits)|) && KeyedBy(db, keys)
    {
      StartItem(s, item, original, keys);
      ghost var start, begun := db, commits;
      assert AllRecorded(old(commits), |old(commits)|) && AllMigrating(s, original, old(commits), |old(commits)|);
      assert AllKeyed(keys, old(commits), |old(commits)|);
      report := WalkStarted(s, item, draw, original, keys);
      WalkMigratesItem(s, item, original, old(db), start, db, report);
      JoinCommits(s, original, begun, commits, |old(commits)|);
      if KeyedBy(old(db), keys) { JoinKeyed(keys, begun, commits, |old(commits)|); }
    }

    /** Migrate one unfinished item. */
    method MigrateItem(s: Sealer, item: Item, draw: int -> bytes, retiredMoveTo: Option<AeadKey>, soFar: Report,
                       ghost original: Db, ghost keys: set<AeadKey>)
      returns (report: Report)
      requires Valid() && s.Lawful() && DrawsNonces(draw)
      requires item in db.columns && Sorted(db.columns[item].rows) && !IsFinished(db, item)
      modifies this`db, this`commits
      ensures Valid() && old(commits) <= commits
      ensures AllRecorded(commits, |old(commits)|) && DebtRecorded(db)
      ensures Migrating(s, original, old(db)) ==>
        && AllMigrating(s, original, commits, |old(commits)|) && Migrating(s, original, db)
        && AllSettled(s, db.columns[item].kind, db.columns[item].rows)
      ensures report.unreadable >= soFar.unreadable && report.finishedItems == soFar.finishedItems
      ensures ItemWalked(s, item, old(db), db, report.unreadable - soFar.unreadable)
      ensures db.items == old(db).items[item := ItemRow(Finished, None)]
      ensures db.store.Some? && db.store.value.kcv ==
        if retiredMoveTo.Some? && report.unreadable == 0 && AllFinished(db.items) then retiredMoveTo
        else if old(db).store.Some? then old(db).store.value.kcv else None
      ensures KeyedBy(old(db), keys) && (retiredMoveTo.Some? ==> retiredMoveTo.value in keys) ==>
        AllKeyed(keys, commits, |old(commits)|) && KeyedBy(db, keys)
    {
      hide *;
      var batch := MigrateRows(s, item, draw, original, keys);
      ghost var walked, along := db, commits;
      OwingIsRecorded(db, if old(db).store.Some? then old(db).store.value.kcv else None);
      report := soFar.Plus(batch);
      PlusAdds(soFar, batch);
      FinishItem(s, item, if report.unreadable == 0 then retiredMoveTo else None, original, keys);
      SameColumns(s, item, old(db), walked, db, batch.unreadable);
      ExtendCommits(s, original, along, commits, |old(commits)|);
      if KeyedBy(old(db), keys) && (retiredMoveTo.Some? ==> retiredMoveTo.value in keys) {
        ExtendKeyed(keys, along, commits, |old(commits)|);
      }
    }

    /** One plan: skipped when its item is finished, migrated otherwise. */
    method MigratePlan(s: Sealer, plans: seq<Item>, n: nat, draw: int -> bytes, retiredMoveTo: Option<AeadKey>, soFar: Report,
                       ghost original: Db, ghost start: Db, ghost keys: set<AeadKey>)
      returns (report: Report)
      requires Valid() && s.Lawful() && DrawsNonces(draw) && n < |plans| && Walkable(start, plans)
      requires PlansWalked(s, original, start, db, plans, n, soFar.unreadable) && db.store.Some?
      modifies this`db, this`commits
      ensures Valid() && old(commits) <= commits && db.store.Some?
      ensures AllRecorded(commits, |old(commits)|) && AllMigrating(s, original, commits, |old(commits)|)
      ensures PlansWalked(s, original, start, db, plans, n + 1, report.unreadable)
      ensures report.finishedItems == soFar.finishedItems + if IsFinished(old(db), plans[n]) then 1 else 0
      ensures db.store.value.kcv ==
        if !IsFinished(old(db), plans[n]) && retiredMoveTo.Some? && report.unreadable == 0 && AllFinished(db.items)
        then retiredMoveTo else old(db).store.value.kcv
      ensures KeyedBy(old(db), keys) && (retiredMoveTo.Some? ==> retiredMoveTo.value in keys) ==>
        AllKeyed(keys, commits, |old(commits)|) && KeyedBy(db, keys)
    {
      hide *;
      NothingKeyed(keys, commits);
      var item := plans[n];
      PlanIsWalkable(s, original, start, db, plans, n, soFar.unreadable);
      WalkedIsMigrating(s, original, start, db, plans, n, soFar.unreadable);
      NoNewCommits(s, original, commits);
      if IsFinished(db, item) {
        FinishedPlanIsSkipped(s, original, start, db, plans, n, soFar.unreadable);
        return soFar.(finishedItems := soFar.finishedItems + 1);
      }
      report := MigrateItem(s, item, draw, retiredMoveTo, soFar, original, keys);
      PlanIsWalked(s, original, start, old(db), db, plans, n, soFar.unreadable, report.unreadable - soFar.unreadable);
    }

    /** Migrate every planned item in order. */
    method MigratePlans(s: Sealer, plans: seq<Item>, draw: int -> bytes, retiredMoveTo: Option<AeadKey>, ghost original: Db,
                        ghost keys: set<AeadKey>)
      returns (report: Report)
      requires Valid() && s.Lawful() && DrawsNonces(draw) && Walkable(db, plans)
      requires Migrating(s, original, db) && DebtRecorded(db) && db.store.Some?
      modifies this`db, this`commits
      ensures Valid() && old(commits) <= commits && db.store.Some?
      ensures AllRecorded(commits, |old(commits)|) && AllMigrating(s, original, commits, |old(commits)|)
      ensures PlansWalked(s, original, old(db), db, plans, |plans|, report.unreadable)
      ensures db.store.value.kcv ==
        if retiredMoveTo.Some? && Moves(s, old(db), plans) then retiredMoveTo else old(db).store.value.kcv
      ensures KeyedBy(old(db), keys) && (retiredMoveTo.Some? ==> retiredMoveTo.value in keys) ==>
        AllKeyed(keys, commits, |old(commits)|)
    {
      hide *;
      NothingKeyed(keys, commits);
      report := NOTHING;
      PlansStart(s, original, db, plans);
      NoNewCommits(s, original, commits);
      MovesNothing(s, db, plans);
      ghost var start := db;
      for n := 0 to |plans|
        invariant Valid() && old(commits) <= commits && db.store.Some?
        invariant AllRecorded(commits, |old(commits)|) && AllMigrating(s, original, commits, |old(commits)|)
        invariant PlansWalked(s, original, start, db, plans, n, report.unreadable)
        invariant db.store.value.kcv ==
          if retiredMoveTo.Some? && Moves(s, start, plans[..n]) then retiredMoveTo else old(db).store.value.kcv
        invariant KeyedBy(start, keys) && (retiredMoveTo.Some? ==> retiredMoveTo.value in keys) ==>
          AllKeyed(keys, commits, |old(commits)|) && KeyedBy(db, keys)
      {
        ghost var d, along, soFar := db, commits, report;
        report := MigratePlan(s, plans, n, draw, retiredMoveTo, report, original, start, keys);
        MovesNext(s, original, start, d, db, plans, n, soFar.unreadable, report.unreadable);
        JoinCommits(s, original, along, commits, |old(commits)|);
        if KeyedBy(start, keys) && (retiredMoveTo.Some? ==> retiredMoveTo.value in keys) {
          JoinKeyed(keys, along, commits, |old(commits)|);
        }
      }
    }

    /** Seal every planned value (see `CellsKept`, `PlansDone` and `AllMigrating` for what is promised). */
    method MigrateColumns(c: Cipher, plans: seq<Item>, draw: int -> bytes, ghost original: Db)
      returns (r: Result<Report, Refusal>)
      requires Valid() && c.Lawful() && DrawsNonces(draw) && Walkable(db, plans)
      requires Migrating(SealerOf(c), original, db) && DebtRecorded(db)
      modifies this`db, this`commits
      ensures Valid() && old(commits) <= commits
      ensures AllRecorded(commits, |old(commits)|) && AllMigrating(SealerOf(c), original, commits, |old(commits)|)
      ensures r == Failure(NoSecureDelete) <==> !secureDelete
      ensures r == Failure(NewerFormat) <==> secureDelete && RecordedByNewer(old(db))
      ensures r == Failure(KeyMismatch) <==> secureDelete && !RecordedByNewer(old(db)) && RecordsOtherKey(old(db), c)
      ensures r.Failure? ==> db == old(db) && commits == old(commits) && r.error != WalBusy
      ensures r.Success? ==> AllKeyed(KeysOf(c), commits, |old(commits)|)
      ensures r.Success? ==> PlansWalked(SealerOf(c), original, old(db), db, plans, |plans|, r.value.unreadable)
      ensures r.Success? ==> PlansDone(SealerOf(c), db, plans) && RetiredKeysUnneeded(c, db, plans)
      ensures r.Success? ==> db.store.Some? && db.store.value.kcv.Some?
      ensures r.Success? && !RecordsRetiredKey(old(db), c) ==> db.store.value.kcv == Some(c.current)
      ensures r.Success? && RecordsRetiredKey(old(db), c) ==>
        db.store.value.kcv
          == (if Moves(SealerOf(c), old(db), plans) then Some(c.current) else old(db).store.value.kcv)
    {
      hide *;
      NoNewCommits(SealerOf(c), original, commits);
      CipherSealsLawfully(c);
      if !secureDelete { return Failure(NoSecureDelete); }
      var checked := CheckStoreKey(c);
      if checked.Failure? { return Failure(checked.error); }
      RecordingKeeps(SealerOf(c), original, old(db), db, old(commits), commits, plans);
      if checked.value != Recorded { CheckedRecord(c, db); }
      NothingKeyed(KeysOf(c), old(commits));
      CheckedKeys(c, old(db), db, old(commits), commits);
      var s := SealerOf(c);
      ghost var start, along := db, commits;
      var report := MigratePlans(s, plans, draw, if checked.value == Retired then Some(c.current) else None, original,
        KeysOf(c));
      JoinCommits(s, original, along, commits, |old(commits)|);
      JoinKeyed(KeysOf(c), along, commits, |old(commits)|);
      SameStart(s, original, old(db), start, db, plans, report.unreadable);
      SameMoves(s, old(db), start, plans);
      WalkedUpTo(s, original, old(db), db, plans, report.unreadable);
      DoneNeedsNoRetired(c, db, plans);
      return Success(report);
    }
  }


  /** Runs that may each be cut off after any of their commits; the last one runs to its end. */
  method MigrateThroughCrashes(c: Cipher, original: Db, plans: seq<Item>, draws: seq<int -> bytes>, cuts: seq<nat>)
    returns (db: Db, r: Result<Report, Refusal>)
    requires c.Lawful() && (forall draw :: draw in draws ==> DrawsNonces(draw)) && |draws| == |cuts| + 1
    requires Walkable(original, plans) && DebtRecorded(original) && Migrating(SealerOf(c), original, original)
    ensures Migrating(SealerOf(c), original, db) && DebtRecorded(db)
    ensures r.Success? <==> Admitted(c, original)
    ensures r.Success? ==> PlansDone(SealerOf(c), db, plans) && RetiredKeysUnneeded(c, db, plans)
  {
    hide *;
    db := original;
    AdmittedIsKeyed(c, original);
    for n := 0 to |cuts|
      invariant Migrating(SealerOf(c), original, db) && DebtRecorded(db)
      invariant KeyedBy(db, KeysOf(c)) <==> Admitted(c, original)
    {
      AdmittedIsKeyed(c, db);
      MigratingIsWalkable(SealerOf(c), original, db, plans);
      var store := new SealedStore(db, true);
      var cutOff := store.MigrateColumns(c, plans, draws[n], original);
      assert [db] <= store.commits;
      AllCommits(SealerOf(c), original, store.commits, 1);
      Refusals(c, db);
      if cutOff.Success? && 1 <= cuts[n] < |store.commits| { KeyedCommit(KeysOf(c), store.commits, 1, cuts[n]); }
      if cutOff.Success? && |store.commits| > 1 { KeyedCommit(KeysOf(c), store.commits, 1, |store.commits| - 1); }
      db := store.commits[if cuts[n] < |store.commits| then cuts[n] else |store.commits| - 1];
    }
    MigratingIsWalkable(SealerOf(c), original, db, plans);
    AdmittedIsKeyed(c, db);
    Refusals(c, db);
    var store := new SealedStore(db, true);
    r := store.MigrateColumns(c, plans, draws[|cuts|], original);
    if r.Success? {
      WalkedUpTo(SealerOf(c), original, db, store.db, plans, r.value.unreadable);
    } else {
      AllCommits(SealerOf(c), original, store.commits, 1);
    }
    db := store.db;
  }
}
