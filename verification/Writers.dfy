/**
 The application writing to a column while it is migrated: a batch is one transaction, so writes fall
 between batches. They store values sealed under the current key, and may add, replace or delete rows
 anywhere, before or behind the migration's cursor.
 */
module Writers {
  import opened Wrappers
  import opened Bytes
  import opened Content
  import opened Resealing
  import opened Migration

  datatype Write = Replace(at: nat, value: Value) | Insert(at: nat, row: Row) | Delete(at: nat)

  function Written(rows: seq<Row>, w: Write): seq<Row> {
    match w
    case Replace(at, value) => if at < |rows| then rows[at := rows[at].(value := value)] else rows
    case Insert(at, row) => if at <= |rows| then rows[..at] + [row] + rows[at..] else rows
    case Delete(at) => if at < |rows| then rows[..at] + rows[at + 1..] else rows
  }

  function AllWritten(rows: seq<Row>, ws: seq<Write>): seq<Row> {
    if ws == [] then rows else Written(AllWritten(rows, ws[..|ws| - 1]), ws[|ws| - 1])
  }

  /** A value as the application stores it: nothing is left to do for it, and it reads. */
  predicate Stored(s: Sealer, kind: ColumnKind, v: Value, aad: bytes) {
    s.settled(kind, v, aad) && !s.unreadable(kind, v, aad)
  }

  /** A write the application makes: of a stored value, into a table that stays in the order of its key. */
  ghost predicate Legal(s: Sealer, kind: ColumnKind, rows: seq<Row>, w: Write) {
    && Sorted(Written(rows, w))
    && match w
       case Replace(at, value) => at < |rows| && Stored(s, kind, value, rows[at].aad)
       case Insert(at, row) => at <= |rows| && Stored(s, kind, row.value, row.aad)
       case Delete(at) => at < |rows|
  }

  ghost predicate AllLegal(s: Sealer, kind: ColumnKind, rows: seq<Row>, ws: seq<Write>) {
    ws != [] ==>
      var n := |ws| - 1;
      AllLegal(s, kind, rows, ws[..n]) && Legal(s, kind, AllWritten(rows, ws[..n]), ws[n])
  }

  /** The application: what it writes after a batch, whatever it finds there. It is quiet after a while. */
  ghost predicate Writes(writer: (nat, seq<Row>) -> seq<Write>, quiet: nat, s: Sealer, kind: ColumnKind) {
    && (forall n, rows | Sorted(rows) :: AllLegal(s, kind, rows, writer(n, rows)))
    && (forall n, rows | n >= quiet :: writer(n, rows) == [])
  }

  // ── One write ───────────────────────────────────────────────────────────────

  lemma WriteIsFaithful(s: Sealer, kind: ColumnKind, latest: seq<Row>, rows: seq<Row>, w: Write)
    requires FaithfulRows(s, kind, latest, rows) && Legal(s, kind, rows, w)
    ensures FaithfulRows(s, kind, Written(latest, w), Written(rows, w))
  {
    hide Legal, Stored, FaithfulRows, Sorted;
    SameNumberOfRows(s, kind, latest, rows);
    FaithfulRowsAt(s, kind, latest, rows);
    var latest', rows' := Written(latest, w), Written(rows, w);
    forall i | 0 <= i < |rows'| ensures Faithful(s, kind, latest'[i], rows'[i]) {
      if w.Delete? && w.at < |rows| && i >= w.at { assert Faithful(s, kind, latest[i + 1], rows[i + 1]); }
      else if w.Insert? && w.at < i && w.at <= |rows| { assert Faithful(s, kind, latest[i - 1], rows[i - 1]); }
      else if w.Insert? && w.at == i { assert latest'[i] == rows'[i] == w.row; }
      else { assert Faithful(s, kind, latest[i], rows[i]); }
    }
    FaithfulRowsAt(s, kind, latest', rows');
  }

  lemma SameNumberOfRows(s: Sealer, kind: ColumnKind, latest: seq<Row>, rows: seq<Row>)
    requires FaithfulRows(s, kind, latest, rows)
    ensures |rows| == |latest|
  {}

  /** Every row is one of before, or what was just stored. */
  lemma RowsAfter(s: Sealer, kind: ColumnKind, rows: seq<Row>, w: Write)
    requires Legal(s, kind, rows, w)
    ensures forall r :: r in Written(rows, w) ==> r in rows || SettledRow(s, kind, r)
  {
    hide Sorted;
  }

  /** The rows up to the cursor are settled: said without positions. */
  lemma SettledUpTo(s: Sealer, kind: ColumnKind, rows: seq<Row>, cursor: Option<int>)
    requires Sorted(rows)
    ensures AllSettled(s, kind, rows[..After(rows, cursor)]) <==>
      forall r :: r in rows && cursor.Some? && r.key <= cursor.value ==> SettledRow(s, kind, r)
  {
    hide SettledRow, AllSettled, Sorted, After;
    SortedAt(rows);
    AfterBounds(rows, cursor);
    var at := After(rows, cursor);
    AllSettledAt(s, kind, rows[..at]);
    assert forall i :: 0 <= i < at ==> rows[..at][i] == rows[i];
    if forall r :: r in rows && cursor.Some? && r.key <= cursor.value ==> SettledRow(s, kind, r) {
      forall i | 0 <= i < at ensures SettledRow(s, kind, rows[..at][i]) { assert rows[i] in rows; }
    }
    if AllSettled(s, kind, rows[..at]) {
      forall r | r in rows && cursor.Some? && r.key <= cursor.value ensures SettledRow(s, kind, r) {
        var i :| 0 <= i < |rows| && rows[i] == r;
        assert i < at;
        assert rows[..at][i] == rows[i];
      }
    }
  }

  lemma AllSettledMeans(s: Sealer, kind: ColumnKind, rows: seq<Row>)
    ensures AllSettled(s, kind, rows) <==> forall r :: r in rows ==> SettledRow(s, kind, r)
  {
    hide SettledRow, AllSettled;
    AllSettledAt(s, kind, rows);
    assert forall i :: 0 <= i < |rows| ==> rows[i] in rows;
  }

  lemma WriteStaysSettled(s: Sealer, kind: ColumnKind, rows: seq<Row>, w: Write, cursor: Option<int>)
    requires Sorted(rows) && Legal(s, kind, rows, w)
    ensures Sorted(Written(rows, w))
    ensures AllSettled(s, kind, rows) ==> AllSettled(s, kind, Written(rows, w))
    ensures AllSettled(s, kind, rows[..After(rows, cursor)]) ==>
      AllSettled(s, kind, Written(rows, w)[..After(Written(rows, w), cursor)])
  {
    RowsAfter(s, kind, rows, w);
    assert Sorted(Written(rows, w));
    hide SettledRow, AllSettled, Sorted, After, Legal, Written;
    AllSettledMeans(s, kind, rows);
    AllSettledMeans(s, kind, Written(rows, w));
    SettledUpTo(s, kind, rows, cursor);
    SettledUpTo(s, kind, Written(rows, w), cursor);
  }

  // ── The migration beside the writes ─────────────────────────────────────────

  /** The column with other rows. */
  function Rewritten(d: Db, item: Item, w: Write): Db
    requires item in d.columns
  {
    WithRows(d, item, Written(d.columns[item].rows, w))
  }

  /** `d` is `latest`, what the application last wrote, partway through its migration; so it is after a write. */
  lemma WriteKeepsMigrating(s: Sealer, latest: Db, d: Db, item: Item, w: Write)
    requires Migrating(s, latest, d) && item in d.columns && item in d.items && d.items[item].state == Sealing
    requires Sorted(d.columns[item].rows) && Legal(s, d.columns[item].kind, d.columns[item].rows, w)
    ensures item in latest.columns && Migrating(s, Rewritten(latest, item, w), Rewritten(d, item, w))
    ensures Sorted(Rewritten(d, item, w).columns[item].rows)
    ensures var kind := d.columns[item].kind;
      AllSettled(s, kind, d.columns[item].rows) ==> AllSettled(s, kind, Written(d.columns[item].rows, w))
  {
    var kind, rows := d.columns[item].kind, d.columns[item].rows;
    WriteIsFaithful(s, kind, latest.columns[item].rows, rows, w);
    WriteStaysSettled(s, kind, rows, w, d.items[item].cursor);
    hide FaithfulRows, AllSettled, Sorted, After, Legal, Written;
    assert Honest(s, d.columns[item], d.items[item]);
    assert Honest(s, d.columns[item].(rows := Written(rows, w)), d.items[item]);
    OneColumn(s, latest, d, item, Written(latest.columns[item].rows, w), Written(rows, w));
  }

  lemma OneColumn(s: Sealer, latest: Db, d: Db, item: Item, written: seq<Row>, rows: seq<Row>)
    requires Migrating(s, latest, d) && item in d.columns && item in d.items
    requires FaithfulRows(s, d.columns[item].kind, written, rows)
    requires Honest(s, d.columns[item].(rows := rows), d.items[item])
    ensures item in latest.columns && Migrating(s, WithRows(latest, item, written), WithRows(d, item, rows))
  {
    hide FaithfulRows, Honest;
    var latest', d' := WithRows(latest, item, written), WithRows(d, item, rows);
    assert d'.columns.Keys == d.columns.Keys == latest'.columns.Keys;
    forall p | p in d'.columns
      ensures d'.columns[p].kind == latest'.columns[p].kind
      ensures FaithfulRows(s, d'.columns[p].kind, latest'.columns[p].rows, d'.columns[p].rows)
      ensures p in d'.items ==> Honest(s, d'.columns[p], d'.items[p])
    {
      if p != item { assert d'.columns[p] == d.columns[p] && latest'.columns[p] == latest.columns[p]; }
    }
  }

  /** A commit is the migration of what had been written by then, and owes the scrub. */
  ghost predicate Tracks(s: Sealer, latest: Db, commit: Db) {
    Migrating(s, latest, commit) && DebtRecorded(commit)
  }

  /** Every commit from `from` on tracks what had been written by then. */
  ghost predicate EachMigrates(s: Sealer, commits: seq<Db>, from: nat, latests: seq<Db>) {
    && |commits| == from + |latests|
    && forall i :: 0 <= i < |latests| ==> Tracks(s, latests[i], commits[from + i])
  }

  lemma OneMoreCommit(s: Sealer, commits: seq<Db>, from: nat, latests: seq<Db>, d: Db, latest: Db)
    requires EachMigrates(s, commits, from, latests) && Migrating(s, latest, d) && DebtRecorded(d)
    ensures EachMigrates(s, commits + [d], from, latests + [latest])
  {
    assert Tracks(s, latest, d);
    hide Tracks, Migrating, DebtRecorded;
    var longer, more := commits + [d], latests + [latest];
    forall i | 0 <= i < |more| ensures Tracks(s, more[i], longer[from + i]) {
      if i < |latests| {
        assert longer[from + i] == commits[from + i] && more[i] == latests[i];
      } else {
        assert longer[from + i] == d && more[i] == latest;
      }
    }
  }

  /** The item is under way in a store that owes the scrub. */
  ghost predicate UnderWay(s: Sealer, d: Db, item: Item, latest: Db) {
    && item in d.columns && item in d.items && d.items[item].state == Sealing && Sorted(d.columns[item].rows)
    && d.store.Some? && Owing(d, d.store.value.kcv) && Migrating(s, latest, d)
  }

  lemma WriteIsUnderWay(s: Sealer, d: Db, item: Item, latest: Db, w: Write)
    requires UnderWay(s, d, item, latest) && Legal(s, d.columns[item].kind, d.columns[item].rows, w)
    ensures item in d.columns && item in latest.columns
    ensures var d' := Rewritten(d, item, w).(residue := {Wal, FreePages, UsedPages});
      && UnderWay(s, d', item, Rewritten(latest, item, w)) && DebtRecorded(d')
      && d'.columns[item] == d.columns[item].(rows := Written(d.columns[item].rows, w))
      && (AllSettled(s, d.columns[item].kind, d.columns[item].rows) ==> AllSettled(s, d'.columns[item].kind, d'.columns[item].rows))
  {
    WriteKeepsMigrating(s, latest, d, item, w);
    hide Sorted, AllSettled, Honest, FaithfulRows;
  }

  lemma BatchIsUnderWay(s: Sealer, d: Db, item: Item, latest: Db, draw: int -> bytes, d': Db, batch: Report, taken: nat)
    requires s.Lawful() && DrawsNonces(draw) && UnderWay(s, d, item, latest) && BatchStep(s, item, draw, d, d', batch, taken)
    ensures UnderWay(s, d', item, latest) && DebtRecorded(d') && item in d.columns && d'.columns[item].kind == d.columns[item].kind
    ensures taken < BATCH_SIZE ==> AllSettled(s, d'.columns[item].kind, d'.columns[item].rows)
  {
    BatchTransactionKeeps(s, latest, item, draw, d, d', taken);
    BatchShape(s, item, draw, d, d', batch, taken);
    hide Migrating, Sorted, AllSettled, BatchOf, After, LastKey;
  }

  /** The writes between two batches, each committed on its own. */
  method ApplyWrites(store: SealedStore, s: Sealer, item: Item, ws: seq<Write>, ghost latest: Db)
    returns (ghost after: Db, ghost latests: seq<Db>)
    requires store.Valid() && UnderWay(s, store.db, item, latest)
    requires AllLegal(s, store.db.columns[item].kind, store.db.columns[item].rows, ws)
    modifies store`db, store`commits
    ensures store.Valid() && old(store.commits) <= store.commits && UnderWay(s, store.db, item, after)
    ensures EachMigrates(s, store.commits, |old(store.commits)|, latests)
    ensures item in latest.columns && item in after.columns
    ensures after == WithRows(latest, item, AllWritten(latest.columns[item].rows, ws))
    ensures store.db.columns[item].kind == old(store.db).columns[item].kind
    ensures var kind := store.db.columns[item].kind;
      AllSettled(s, kind, old(store.db).columns[item].rows) ==> AllSettled(s, kind, store.db.columns[item].rows)
    ensures ws == [] ==> store.db == old(store.db) && store.commits == old(store.commits) && latests == []
  {
    hide UnderWay, AllSettled, EachMigrates, Legal, AllLegal, Written, AllWritten, Rewritten;
    after, latests := latest, [];
    Begin(s, store.db, item, latest, store.commits, ws);
    ghost var kind, rows := store.db.columns[item].kind, store.db.columns[item].rows;
    for n := 0 to |ws|
      invariant store.Valid() && old(store.commits) <= store.commits && UnderWay(s, store.db, item, after)
      invariant EachMigrates(s, store.commits, |old(store.commits)|, latests)
      invariant item in store.db.columns && store.db.columns[item].kind == kind
      invariant store.db.columns[item].rows == AllWritten(rows, ws[..n])
      invariant item in latest.columns && after == WithRows(latest, item, AllWritten(latest.columns[item].rows, ws[..n]))
      invariant AllSettled(s, kind, rows) ==> AllSettled(s, kind, store.db.columns[item].rows)
      invariant n == 0 ==> store.db == old(store.db) && store.commits == old(store.commits) && latests == []
    {
      LegalAt(s, kind, rows, ws, n);
      WriteIsUnderWay(s, store.db, item, after, ws[n]);
      WrittenNext(rows, ws, n);
      WrittenNext(latest.columns[item].rows, ws, n);
      RewrittenIs(store.db, item, ws[n]);
      RewrittenIs(after, item, ws[n]);
      var d := WithRows(store.db, item, Written(store.db.columns[item].rows, ws[n])).(residue := {Wal, FreePages, UsedPages});
      after := WithRows(after, item, Written(after.columns[item].rows, ws[n]));
      UnderWayMigrates(s, d, item, after);
      OneMoreCommit(s, store.commits, |old(store.commits)|, latests, d, after);
      latests := latests + [after];
      store.Commit(d);
    }
    assert ws[..|ws|] == ws;
  }

  lemma RewrittenIs(d: Db, item: Item, w: Write)
    requires item in d.columns
    ensures Rewritten(d, item, w) == WithRows(d, item, Written(d.columns[item].rows, w))
  {}

  lemma UnderWayMigrates(s: Sealer, d: Db, item: Item, latest: Db)
    requires UnderWay(s, d, item, latest)
    ensures Migrating(s, latest, d) && item in d.columns && item in latest.columns
    ensures item in d.items && d.items[item].state == Sealing && Sorted(d.columns[item].rows)
  {}

  lemma Begin(s: Sealer, d: Db, item: Item, latest: Db, commits: seq<Db>, ws: seq<Write>)
    requires UnderWay(s, d, item, latest)
    ensures item in d.columns && item in latest.columns && EachMigrates(s, commits, |commits|, [])
    ensures ws[..0] == [] && AllWritten(d.columns[item].rows, []) == d.columns[item].rows
    ensures latest == WithRows(latest, item, AllWritten(latest.columns[item].rows, []))
  {}

  lemma {:induction false} LegalAt(s: Sealer, kind: ColumnKind, rows: seq<Row>, ws: seq<Write>, n: nat)
    requires AllLegal(s, kind, rows, ws) && n < |ws|
    ensures Legal(s, kind, AllWritten(rows, ws[..n]), ws[n])
    decreases |ws|
  {
    hide Legal;
    if n < |ws| - 1 {
      LegalAt(s, kind, rows, ws[..|ws| - 1], n);
      assert ws[..|ws| - 1][..n] == ws[..n];
    }
  }

  lemma WrittenNext(rows: seq<Row>, ws: seq<Write>, n: nat)
    requires n < |ws|
    ensures AllWritten(rows, ws[..n + 1]) == Written(AllWritten(rows, ws[..n]), ws[n])
  {
    assert ws[..n + 1][..n] == ws[..n];
  }

  lemma {:induction false} WrittenJoin(rows: seq<Row>, a: seq<Write>, b: seq<Write>)
    ensures AllWritten(rows, a + b) == AllWritten(AllWritten(rows, a), b)
  {
    if b == [] {
      assert a + b == a;
    } else {
      WrittenJoin(rows, a, b[..|b| - 1]);
      assert (a + b)[..|a + b| - 1] == a + b[..|b| - 1];
    }
  }

  lemma JoinEach(s: Sealer, commits: seq<Db>, from: nat, latests: seq<Db>, longer: seq<Db>, more: seq<Db>)
    requires EachMigrates(s, commits, from, latests) && commits <= longer && EachMigrates(s, longer, |commits|, more)
    ensures EachMigrates(s, longer, from, latests + more)
  {
    hide Tracks;
    var all := latests + more;
    forall i | 0 <= i < |all| ensures Tracks(s, all[i], longer[from + i]) {
      if i < |latests| {
        assert longer[from + i] == commits[from + i] && all[i] == latests[i];
      } else {
        assert all[i] == more[i - |latests|];
      }
    }
  }

  /** One batch, and what the application writes after it. */
  method BatchAndWrites(store: SealedStore, s: Sealer, item: Item, draw: int -> bytes, writer: (nat, seq<Row>) -> seq<Write>,
                        quiet: nat, n: nat, ghost latest: Db)
    returns (taken: nat, ghost after: Db, ghost latests: seq<Db>, ghost ws: seq<Write>)
    requires store.Valid() && s.Lawful() && DrawsNonces(draw) && UnderWay(s, store.db, item, latest)
    requires Writes(writer, quiet, s, store.db.columns[item].kind)
    modifies store`db, store`commits
    ensures store.Valid() && old(store.commits) <= store.commits && UnderWay(s, store.db, item, after)
    ensures EachMigrates(s, store.commits, |old(store.commits)|, latests)
    ensures item in latest.columns && after == WithRows(latest, item, AllWritten(latest.columns[item].rows, ws))
    ensures store.db.columns[item].kind == old(store.db).columns[item].kind
    ensures taken < BATCH_SIZE ==> AllSettled(s, store.db.columns[item].kind, store.db.columns[item].rows)
    ensures n >= quiet ==>
      RowsLeft(store.db, item) == RowsLeft(old(store.db), item) - taken
  {
    ghost var d, along := store.db, store.commits;
    UnderWayMigrates(s, d, item, latest);
    hide UnderWay, AllSettled, EachMigrates, AllLegal, AllWritten, Writes, BatchStep, After;
    var batch;
    batch, taken := store.WalkBatch(s, item, draw);
    BatchShape(s, item, draw, d, store.db, batch, taken);
    BatchIsUnderWay(s, d, item, latest, draw, store.db, batch, taken);
    UnderWayMigrates(s, store.db, item, latest);
    NoneYet(s, along);
    OneMoreCommit(s, along, |along|, [], store.db, latest);
    assert store.commits == along + [store.db];
    var written := writer(n, store.db.columns[item].rows);
    WriterIsLegal(writer, quiet, s, d.columns[item].kind, n, store.db.columns[item].rows);
    ghost var batched := store.commits;
    ghost var more;
    after, more := ApplyWrites(store, s, item, written, latest);
    JoinEach(s, batched, |along|, [] + [latest], store.commits, more);
    latests, ws := [] + [latest] + more, written;
  }

  lemma NoneYet(s: Sealer, commits: seq<Db>)
    ensures EachMigrates(s, commits, |commits|, [])
  {}

  /** The rows of an item that a walk has still to visit. */
  function RowsLeft(d: Db, item: Item): int
    requires item in d.columns && item in d.items
  {
    |d.columns[item].rows| - After(d.columns[item].rows, d.items[item].cursor)
  }

  /**
   Walk an item to its end while the application writes between the batches. Every commit is a migration
   of what was last written by then, and at the end every row of the column is settled and reads as what
   was last written: the original rows with all the application's writes.
   */
  method WalkBesideWriters(store: SealedStore, s: Sealer, item: Item, draw: int -> bytes,
                           writer: (nat, seq<Row>) -> seq<Write>, quiet: nat, ghost original: Db)
    returns (ghost latest: Db, ghost latests: seq<Db>, ghost all: seq<Write>)
    requires store.Valid() && s.Lawful() && DrawsNonces(draw) && UnderWay(s, store.db, item, original)
    requires Writes(writer, quiet, s, store.db.columns[item].kind)
    modifies store`db, store`commits
    ensures store.Valid() && old(store.commits) <= store.commits
    ensures EachMigrates(s, store.commits, |old(store.commits)|, latests)
    ensures item in original.columns && latest == WithRows(original, item, AllWritten(original.columns[item].rows, all))
    ensures UnderWay(s, store.db, item, latest)
    ensures AllSettled(s, store.db.columns[item].kind, store.db.columns[item].rows)
  {
    latest, latests, all := original, [], [];
    ghost var kind := store.db.columns[item].kind;
    Begin(s, store.db, item, original, store.commits, []);
    UnderWayMigrates(s, store.db, item, original);
    hide *;
    RowsAreLeft(store.db, item);
    var n := 0;
    while true
      invariant store.Valid() && old(store.commits) <= store.commits && UnderWay(s, store.db, item, latest)
      invariant EachMigrates(s, store.commits, |old(store.commits)|, latests)
      invariant item in original.columns && latest == WithRows(original, item, AllWritten(original.columns[item].rows, all))
      invariant item in store.db.columns && item in store.db.items && store.db.columns[item].kind == kind
      decreases if n < quiet then quiet - n else 0, RowsLeft(store.db, item)
    {
      ghost var along := store.commits;
      RowsAreLeft(store.db, item);
      ghost var next, more, ws;
      var taken;
      taken, next, more, ws := BatchAndWrites(store, s, item, draw, writer, quiet, n, latest);
      JoinEach(s, along, |old(store.commits)|, latests, store.commits, more);
      LatestOn(original, latest, next, item, all, ws);
      UnderWayMigrates(s, store.db, item, next);
      RowsAreLeft(store.db, item);
      latest, latests, all := next, latests + more, all + ws;
      n := n + 1;
      if taken < BATCH_SIZE { break; }
    }
  }

  lemma RowsAreLeft(d: Db, item: Item)
    requires item in d.columns && item in d.items
    ensures RowsLeft(d, item) >= 0 && BATCH_SIZE > 0
  {}

  lemma LatestOn(original: Db, latest: Db, next: Db, item: Item, all: seq<Write>, ws: seq<Write>)
    requires item in original.columns && latest == WithRows(original, item, AllWritten(original.columns[item].rows, all))
    requires item in latest.columns && next == WithRows(latest, item, AllWritten(latest.columns[item].rows, ws))
    ensures next == WithRows(original, item, AllWritten(original.columns[item].rows, all + ws))
  {
    hide AllWritten;
    WrittenJoin(original.columns[item].rows, all, ws);
  }

  lemma WriterIsLegal(writer: (nat, seq<Row>) -> seq<Write>, quiet: nat, s: Sealer, kind: ColumnKind, n: nat, rows: seq<Row>)
    requires Writes(writer, quiet, s, kind) && Sorted(rows)
    ensures AllLegal(s, kind, rows, writer(n, rows)) && (n >= quiet ==> writer(n, rows) == [])
  {}
}
