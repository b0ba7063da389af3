/**
 Paying the scrub debt: the WAL truncate, the zero-fill of free pages and the VACUUM, each behind
 its disk-space gate, with the store row saying at every moment what is still owed.

 What SQLite and the volume answer is a parameter (`Disk`), one answer per moment of the clock.
 */
module Scrub {
  import opened Wrappers
  import opened Bytes
  import opened Content
  import opened Resealing
  import opened Migration

  const CHECKPOINT_ATTEMPTS := 3
  const SCRUB_CHUNK_BYTES := 64 * 1024 * 1024
  const VACUUM_RETRY_SECS := 24 * 60 * 60
  const U64_MAX := 0xFFFF_FFFF_FFFF_FFFF

  /** The answers of the outside world, by clock tick. */
  datatype Disk = Disk(
    works: nat -> bool,                  // whether a statement succeeds
    checkpoint: nat -> (int, int, int),  // busy, frames in the log, frames copied back
    freePages: nat -> nat,
    pageSize: nat -> nat,
    storeSize: nat -> nat,
    freeSpace: nat -> Option<nat>)

  datatype VacuumPolicy = VacuumPolicy(vacuumNowMaxBytes: nat, headroomBytes: nat)

  /** Unsigned 64-bit arithmetic that stops at its maximum. */
  function Saturated(n: nat): nat {
    if n > U64_MAX then U64_MAX else n
  }

  predicate HasRoom(disk: Disk, tick: nat, needed: nat) {
    disk.freeSpace(tick).Some? && disk.freeSpace(tick).value >= needed
  }

  function VacuumNeeds(size: nat, policy: VacuumPolicy): nat {
    Saturated(Saturated(size * 2) + policy.headroomBytes)
  }

  /** None of three attempts truncates the WAL. */
  ghost predicate Blocked(disk: Disk, from: nat) {
    forall t :: from <= t < from + 3 ==> disk.checkpoint(t).0 != 0 || disk.checkpoint(t).1 != disk.checkpoint(t).2
  }

  /** The store is small enough to be rebuilt at once, and the volume has room for twice its size and the headroom. */
  ghost predicate Fits(disk: Disk, policy: VacuumPolicy, t: nat) {
    && disk.storeSize(t) <= policy.vacuumNowMaxBytes
    && disk.freeSpace(t).Some?
    && (disk.freeSpace(t).value >= 2 * disk.storeSize(t) + policy.headroomBytes || disk.freeSpace(t).value >= U64_MAX)
  }

  ghost predicate FitsWithin(disk: Disk, policy: VacuumPolicy, from: nat, to: nat) {
    exists t :: from <= t < to && Fits(disk, policy, t)
  }

  lemma FitsIs(disk: Disk, policy: VacuumPolicy, t: nat)
    ensures Fits(disk, policy, t) <==>
      disk.storeSize(t) <= policy.vacuumNowMaxBytes && HasRoom(disk, t, VacuumNeeds(disk.storeSize(t), policy))
  {}

  /** The volume has room for a chunk of `chunk` zero bytes and the headroom. */
  ghost predicate TakesChunk(disk: Disk, policy: VacuumPolicy, t: nat, chunk: nat) {
    disk.freeSpace(t).Some? && (disk.freeSpace(t).value >= chunk + policy.headroomBytes || disk.freeSpace(t).value >= U64_MAX)
  }

  /** At some tick there was room for the first chunk of `bytes`: all of them, or 64 MiB. */
  ghost predicate RoomWithin(disk: Disk, policy: VacuumPolicy, from: nat, to: nat, bytes: nat) {
    var chunk := if bytes < 0x400_0000 then bytes else 0x400_0000;
    exists t :: from <= t < to && TakesChunk(disk, policy, t, chunk)
  }

  predicate Truncated(answer: (int, int, int)) {
    answer.0 == 0 && answer.1 == answer.2
  }

  datatype Failed = SecureDeleteOff | StatementFailed | CheckpointBusy

  datatype FinishOutcome = FinishOutcome(scrubbedPages: nat, vacuumed: bool, vacuumPending: bool)

  /** The scrub changes nothing but the store row and what is left of freed plaintext. */
  ghost predicate ContentKept(d: Db, d': Db) {
    && d'.columns == d.columns && d'.items == d.items && d'.residue <= d.residue
    && (d'.store.Some? && d.store.Some? ==>
          d'.store.value.kcv == d.store.value.kcv && d'.store.value.minReader == d.store.value.minReader)
    && (d.store.Some? ==> d'.store.Some?)
  }

  ghost predicate IsPending(d: Db) {
    d.store.Some? && d.store.value.state == VacuumPending
  }

  /** The last attempt for want of disk space is less than a day ago. */
  predicate TooSoon(d: Db, now: int) {
    && d.store.Some? && d.store.value.cursor.lastAttempt.Some?
    && now - d.store.value.cursor.lastAttempt.value < VACUUM_RETRY_SECS
  }

  /** What one call of this module did between two states of the store. */
  ghost predicate Scrubs(d: Db, d': Db, commits: seq<Db>, commits': seq<Db>) {
    && commits <= commits' && ContentKept(d, d') && CommitsKept(d, commits', |commits|)
    && (DebtRecorded(d) ==> DebtRecorded(d') && AllRecorded(commits', |commits|))
  }

  /** No commit from position `from` on touches a cell or an item's state. */
  ghost predicate CommitsKept(d: Db, commits: seq<Db>, from: nat) {
    |commits| > from ==>
      && commits[|commits| - 1].columns == d.columns && commits[|commits| - 1].items == d.items
      && CommitsKept(d, commits[..|commits| - 1], from)
  }

  lemma NothingYet(d: Db, commits: seq<Db>)
    ensures Scrubs(d, d, commits, commits)
  {}

  lemma ScrubsAppend(d: Db, d': Db, commits: seq<Db>, commits': seq<Db>)
    requires Scrubs(d, d', commits, commits')
    ensures commits <= commits'
  {}

  /** Two calls in a row; the second starts where the first ended. */
  lemma ScrubsOn(d: Db, m: Db, d': Db, commits: seq<Db>, middle: seq<Db>, commits': seq<Db>)
    requires Scrubs(d, m, commits, middle) && Scrubs(m, d', middle, commits')
    ensures Scrubs(d, d', commits, commits')
  {
    hide DebtRecorded;
    CommitsOn(d, m, commits, middle, commits');
  }

  lemma {:induction false} CommitsOn(d: Db, m: Db, commits: seq<Db>, middle: seq<Db>, commits': seq<Db>)
    requires commits <= middle <= commits' && m.columns == d.columns && m.items == d.items
    ensures AllRecorded(middle, |commits|) && AllRecorded(commits', |middle|) ==> AllRecorded(commits', |commits|)
    ensures CommitsKept(d, middle, |commits|) && CommitsKept(m, commits', |middle|) ==> CommitsKept(d, commits', |commits|)
  {
    if |commits'| == |middle| {
      assert commits' == middle;
    } else {
      CommitsOn(d, m, commits, middle, commits'[..|commits'| - 1]);
    }
  }

  /** Less residue under the same store row is recorded as well as before. */
  lemma LessResidue(d: Db, d': Db, commits: seq<Db>)
    requires d' == d.(residue := d'.residue) && d'.residue <= d.residue
    ensures Scrubs(d, d', commits, commits + [d'])
  {
    assert (commits + [d'])[..|commits|] == commits;
  }

  /** The store row may say the scrub finished once the free pages hold no plaintext. */
  lemma PendingRow(d: Db, cursor: PendingCursor, commits: seq<Db>)
    requires cursor.scrubbed ==> FreePages !in d.residue
    ensures Scrubs(d, WithPending(d, cursor), commits, commits + [WithPending(d, cursor)])
  {
    assert (commits + [WithPending(d, cursor)])[..|commits|] == commits;
  }

  lemma CleanRow(d: Db, commits: seq<Db>)
    requires d.residue == {}
    ensures var d' := WithStoreState(d, StoreOk, NO_CURSOR); Scrubs(d, d', commits, commits + [d'])
  {
    var d' := WithStoreState(d, StoreOk, NO_CURSOR);
    assert (commits + [d'])[..|commits|] == commits;
  }

  /** Free pages hold no plaintext once as many zero bytes as they have were written over them. */
  function Overwritten(d: Db, zeroed: nat, freeBytes: nat): Db {
    if zeroed >= freeBytes then d.(residue := d.residue - {FreePages}) else d
  }

  /** The store after its WAL was copied back and truncated. */
  function CopiedBack(d: Db, rebuilt: bool): Db {
    d.(residue := if rebuilt then {} else d.residue - {Wal})
  }

  /** No statement fails, and no reader blocks a checkpoint. */
  ghost predicate AllWorks(disk: Disk) {
    (forall t :: disk.works(t)) && (forall t :: Truncated(disk.checkpoint(t)))
  }

  lemma RoomForAll(disk: Disk, policy: VacuumPolicy, t: nat, needed: nat)
    requires Ample(disk, policy) && needed <= U64_MAX
    ensures HasRoom(disk, t, needed)
  {
    assert HasRoom(disk, t, U64_MAX);
  }

  /** A volume on which nothing fails and every gate opens. */
  ghost predicate Ample(disk: Disk, policy: VacuumPolicy) {
    && AllWorks(disk)
    && (forall t :: disk.storeSize(t) <= policy.vacuumNowMaxBytes)
    && (forall t :: HasRoom(disk, t, U64_MAX))
  }

  class ScrubbedStore {
    var db: Db
    var commits: seq<Db>
    var secureDelete: bool
    var tick: nat
    /** A VACUUM wrote the whole store anew; until the WAL is copied back, the old pages remain. */
    var rebuilt: bool

    ghost predicate Valid() reads this {
      |commits| > 0 && commits[|commits| - 1] == db
    }

    constructor (left: Db, secureDelete: bool)
      ensures Valid() && db == left && commits == [left] && this.secureDelete == secureDelete && tick == 0 && !rebuilt
    {
      db, commits, tick, rebuilt := left, [left], 0, false;
      this.secureDelete := secureDelete;
    }

    method Commit(d: Db)
      requires Valid()
      modifies this`db, this`commits
      ensures Valid() && db == d && commits == old(commits) + [d]
    {
      db := d;
      commits := commits + [d];
    }

    /** One answer of a statement. */
    method Execute(disk: Disk) returns (ok: bool)
      modifies this`tick
      ensures tick == old(tick) + 1 && ok == disk.works(old(tick))
    {
      ok := disk.works(tick);
      tick := tick + 1;
    }

    /** Truncate the WAL; after a VACUUM that also replaces every old page. */
    method CheckpointTruncate(disk: Disk) returns (ok: bool)
      requires Valid()
      modifies this`db, this`commits, this`tick
      ensures Valid() && Scrubs(old(db), db, old(commits), commits) && tick > old(tick)
      ensures ok <==> exists t :: old(tick) <= t < old(tick) + CHECKPOINT_ATTEMPTS && Truncated(disk.checkpoint(t))
      ensures AllWorks(disk) ==> ok
      ensures db == if ok then CopiedBack(old(db), rebuilt) else old(db)
    {
      for attempt := 0 to CHECKPOINT_ATTEMPTS
        invariant Valid() && db == old(db) && commits == old(commits) && tick == old(tick) + attempt
        invariant forall t :: old(tick) <= t < tick ==> !Truncated(disk.checkpoint(t))
      {
        var answer := disk.checkpoint(tick);
        tick := tick + 1;
        if Truncated(answer) {
          LessResidue(db, CopiedBack(db, rebuilt), commits);
          Commit(CopiedBack(db, rebuilt));
          return true;
        }
      }
      assert !Truncated(disk.checkpoint(old(tick)));
      NothingYet(db, commits);
      ok := false;
    }

    /** Drop the scratch table without rewriting its pages; `secure_delete` is turned back on even when that fails. */
    method DropScrubTable(disk: Disk) returns (r: Result<(), Failed>)
      requires Valid()
      modifies this
      ensures Valid() && Scrubs(old(db), db, old(commits), commits) && tick > old(tick)
      ensures r.Success? ==> secureDelete && db == CopiedBack(old(db), rebuilt)
      ensures r.Failure? ==> db == old(db) && r.error != SecureDeleteOff
      ensures AllWorks(disk) ==> r.Success?
      ensures secureDelete == if disk.works(old(tick)) then disk.works(old(tick) + 2) else old(secureDelete)
    {
      NothingYet(db, commits);
      var paused := Execute(disk);
      if !paused { return Failure(StatementFailed); }
      secureDelete := false;
      var dropped := Execute(disk);
      var restored := Execute(disk);
      if restored { secureDelete := true; }
      if !dropped || !restored { return Failure(StatementFailed); }
      var ok := CheckpointTruncate(disk);
      return if ok then Success(()) else Failure(CheckpointBusy);
    }

    /** Write zero blobs over the free pages, chunk by chunk; whether the disk had room for all of them. */
    method ZeroFill(disk: Disk, policy: VacuumPolicy, bytes: nat) returns (r: Result<bool, Failed>)
      requires Valid()
      modifies this`db, this`commits, this`tick
      ensures Valid() && Scrubs(old(db), db, old(commits), commits)
      ensures r.Success? && r.value ==> FreePages !in db.residue
      ensures db == old(db).(residue := db.residue)
      ensures r.Failure? ==> r.error != SecureDeleteOff
      ensures Ample(disk, policy) ==> r == Success(true)
      // each chunk only where there is room for it
      ensures tick >= old(tick)
      ensures r == Success(true) && bytes > 0 ==> RoomWithin(disk, policy, old(tick), tick, bytes)
      ensures r == Success(false) ==> exists t, chunk: nat :: old(tick) <= t < tick && !TakesChunk(disk, policy, t, chunk)
    {
      NothingYet(db, commits);
      var remaining, zeroed := bytes, 0;
      while remaining > 0
        invariant Valid() && Scrubs(old(db), db, old(commits), commits)
        invariant zeroed + remaining == bytes && db == old(db).(residue := db.residue) && tick >= old(tick)
        invariant zeroed > 0 ==> RoomWithin(disk, policy, old(tick), tick, bytes)
      {
        var chunk := if remaining < SCRUB_CHUNK_BYTES then remaining else SCRUB_CHUNK_BYTES;
        if Ample(disk, policy) { RoomForAll(disk, policy, tick, Saturated(chunk + policy.headroomBytes)); }
        var room := HasRoom(disk, tick, Saturated(chunk + policy.headroomBytes));
        assert room <==> TakesChunk(disk, policy, tick, chunk);
        tick := tick + 1;
        if !room { return Success(false); }
        var inserted := Execute(disk);
        if !inserted { return Failure(StatementFailed); }
        ghost var m, along := db, commits;
        var ok := CheckpointTruncate(disk);
        ScrubsOn(old(db), m, db, old(commits), along, commits);
        if !ok { return Failure(CheckpointBusy); }
        remaining := remaining - chunk;
        zeroed := zeroed + chunk;
      }
      ghost var m, along := db, commits;
      LessResidue(db, Overwritten(db, zeroed, bytes), commits);
      Commit(Overwritten(db, zeroed, bytes));
      ScrubsOn(old(db), m, db, old(commits), along, commits);
      r := Success(true);
    }

    /** Overwrite every free page with zeros, unless the disk lacks the room for a chunk. */
    method ScrubFreelist(disk: Disk, policy: VacuumPolicy) returns (r: Result<Option<nat>, Failed>)
      requires Valid()
      modifies this
      ensures Valid() && Scrubs(old(db), db, old(commits), commits)
      ensures r.Success? ==> secureDelete
      ensures r.Success? && r.value.Some? ==> FreePages !in db.residue
      ensures db == old(db).(residue := db.residue)
      ensures r.Failure? ==> r.error != SecureDeleteOff
      ensures Ample(disk, policy) ==> r.Success? && r.value.Some?
      ensures tick >= old(tick)
      ensures r.Success? && r.value.Some? ==> exists t :: old(tick) <= t < tick && r.value.value == disk.freePages(t)
    {
      var cleared := DropScrubTable(disk);
      if cleared.Failure? { return Failure(cleared.error); }
      var pages, pageSize := disk.freePages(tick), disk.pageSize(tick);
      tick := tick + 1;
      ghost var m, along := db, commits;
      if pages == 0 {
        LessResidue(db, Overwritten(db, 0, pages * pageSize), commits);
        Commit(Overwritten(db, 0, pages * pageSize));
        ScrubsOn(old(db), m, db, old(commits), along, commits);
        return Success(Some(0));
      }
      var created := Execute(disk);
      if !created { return Failure(StatementFailed); }
      var filled := ZeroFill(disk, policy, pages * pageSize);
      ScrubsOn(old(db), m, db, old(commits), along, commits);
      m, along := db, commits;
      var dropped := DropScrubTable(disk);
      ScrubsOn(old(db), m, db, old(commits), along, commits);
      if filled.Failure? { return Failure(filled.error); }
      if dropped.Failure? { return Failure(dropped.error); }
      return Success(if filled.value then Some(pages) else None);
    }

    /** Mark the store pending, with what its cursor says. */
    method SetPending(cursor: PendingCursor)
      requires Valid() && (cursor.scrubbed ==> FreePages !in db.residue)
      modifies this`db, this`commits
      ensures Valid() && Scrubs(old(db), db, old(commits), commits)
      ensures db == WithPending(old(db), cursor)
    {
      PendingRow(db, cursor, commits);
      Commit(WithPending(db, cursor));
    }

    /** Rebuild the file, truncate the WAL, and only then record the store as clean. */
    method Vacuum(disk: Disk) returns (r: Result<(), Failed>)
      requires Valid()
      modifies this`db, this`commits, this`tick, this`rebuilt
      ensures Valid() && Scrubs(old(db), db, old(commits), commits)
      ensures r.Success? ==> db.residue == {} && db.store == WithStoreState(old(db), StoreOk, NO_CURSOR).store
      ensures r.Failure? ==> db == old(db) && r.error != SecureDeleteOff
      ensures AllWorks(disk) ==> r.Success?
      ensures tick > old(tick)
    {
      NothingYet(db, commits);
      rebuilt := Execute(disk);
      if !rebuilt { return Failure(StatementFailed); }
      var ok := CheckpointTruncate(disk);
      if !ok { return Failure(CheckpointBusy); }
      ghost var m, along := db, commits;
      CleanRow(db, commits);
      Commit(WithStoreState(db, StoreOk, NO_CURSOR));
      ScrubsOn(old(db), m, db, old(commits), along, commits);
      r := Success(());
    }

    /** `finish_store` after a migration: scrub, then compact now or leave it owed. */
    method FinishInner(disk: Disk, policy: VacuumPolicy) returns (r: Result<FinishOutcome, Failed>)
      requires Valid() && secureDelete && DebtRecorded(db)
      modifies this
      ensures Valid() && Scrubs(old(db), db, old(commits), commits)
      ensures r.Success? ==> secureDelete && r.value.vacuumPending == !r.value.vacuumed
      ensures r.Success? && r.value.vacuumed ==> db.residue == {} && db.store.Some? && db.store.value.state == StoreOk
      ensures r.Success? && !r.value.vacuumed ==> IsPending(db)
      ensures r.Failure? ==> r.error != SecureDeleteOff && db == old(db).(residue := db.residue)
      ensures Ample(disk, policy) ==> r.Success? && r.value.vacuumed
      ensures Blocked(disk, old(tick)) ==> r == Failure(CheckpointBusy) && db == old(db)
      // it rebuilds the file only where that fits, and defers it only where not
      ensures tick >= old(tick)
      ensures r.Success? && r.value.vacuumed ==> FitsWithin(disk, policy, old(tick), tick)
      ensures r.Success? && !r.value.vacuumed ==>
        || db.store.value.cursor == NO_CURSOR
        || (db.store.value.cursor == PendingCursor(true, None) && exists t :: t >= old(tick) && !Fits(disk, policy, t))
    {
      hide Scrubs, HasRoom, Fits;
      var truncated := CheckpointTruncate(disk);
      if !truncated { return Failure(CheckpointBusy); }
      ghost var m, along := db, commits;
      var scrubbed := Success(Some(0));
      if !(db.store.Some? && db.store.value.state == VacuumPending && db.store.value.cursor.scrubbed) {
        scrubbed := ScrubFreelist(disk, policy);
        ScrubsOn(old(db), m, db, old(commits), along, commits);
        if scrubbed.Failure? { return Failure(scrubbed.error); }
        m, along := db, commits;
      }
      if scrubbed.value.None? {
        SetPending(NO_CURSOR);
        ScrubsOn(old(db), m, db, old(commits), along, commits);
        return Success(FinishOutcome(0, false, true));
      }
      var size := disk.storeSize(tick);
      if Ample(disk, policy) { RoomForAll(disk, policy, tick, VacuumNeeds(size, policy)); }
      FitsIs(disk, policy, tick);
      ghost var at := tick;
      if size <= policy.vacuumNowMaxBytes && HasRoom(disk, tick, VacuumNeeds(size, policy)) {
        var vacuumed := Vacuum(disk);
        ScrubsOn(old(db), m, db, old(commits), along, commits);
        if vacuumed.Failure? { return Failure(vacuumed.error); }
        return Success(FinishOutcome(scrubbed.value.value, true, false));
      }
      SetPending(PendingCursor(true, None));
      ScrubsOn(old(db), m, db, old(commits), along, commits);
      r := Success(FinishOutcome(scrubbed.value.value, false, true));
    }

    /** As `FinishInner`; an error leaves the store pending, as far as that can still be written. */
    method FinishStore(disk: Disk, policy: VacuumPolicy) returns (r: Result<FinishOutcome, Failed>)
      requires Valid() && DebtRecorded(db)
      modifies this
      ensures Valid() && Scrubs(old(db), db, old(commits), commits)
      ensures r == Failure(SecureDeleteOff) <==> !old(secureDelete)
      ensures r == Failure(SecureDeleteOff) ==> db == old(db)
      ensures r.Success? ==> secureDelete && r.value.vacuumPending == !r.value.vacuumed
      ensures r.Success? && r.value.vacuumed ==> db.residue == {} && db.store.Some? && db.store.value.state == StoreOk
      ensures r.Success? && !r.value.vacuumed ==> IsPending(db)
      ensures r.Failure? && r.error != SecureDeleteOff ==>
        (IsPending(db) && db.store.value.cursor == NO_CURSOR) || db == old(db).(residue := db.residue)
      ensures old(secureDelete) && Ample(disk, policy) ==> r.Success? && r.value.vacuumed
      ensures old(secureDelete) && Blocked(disk, old(tick)) ==> r == Failure(CheckpointBusy)
      // after an error the store is pending, if the last statement, which says so, works
      ensures r.Failure? && r.error != SecureDeleteOff ==>
        tick > old(tick) && (disk.works(tick - 1) ==> IsPending(db) && db.store.value.cursor == NO_CURSOR)
      ensures r.Success? && r.value.vacuumed ==> FitsWithin(disk, policy, old(tick), tick)
      ensures r.Success? && !r.value.vacuumed ==>
        || db.store.value.cursor == NO_CURSOR
        || (db.store.value.cursor == PendingCursor(true, None) && exists t :: t >= old(tick) && !Fits(disk, policy, t))
    {
      hide Fits;
      NothingYet(db, commits);
      if !secureDelete { return Failure(SecureDeleteOff); }
      r := FinishInner(disk, policy);
      if r.Failure? {
        var written := Execute(disk);
        if written {
          ghost var m, along := db, commits;
          SetPending(NO_CURSOR);
          ScrubsOn(old(db), m, db, old(commits), along, commits);
        }
      }
    }

    /** At a store's start: finish what the last run deferred. Whether it vacuumed. */
    method RunPendingVacuum(disk: Disk, policy: VacuumPolicy, now: int) returns (r: Result<bool, Failed>)
      requires Valid() && DebtRecorded(db)
      modifies this
      ensures Valid() && Scrubs(old(db), db, old(commits), commits)
      ensures !IsPending(old(db)) || TooSoon(old(db), now) ==> r == Success(false) && db == old(db)
      ensures r == Success(true) ==> db.residue == {} && db.store.Some? && db.store.value.state == StoreOk
      ensures r != Success(true) ==> IsPending(db) == IsPending(old(db))
      ensures IsPending(old(db)) && !TooSoon(old(db), now) && old(secureDelete) && Ample(disk, policy) ==> r == Success(true)
      ensures IsPending(old(db)) && !TooSoon(old(db), now) ==>
        && (!old(secureDelete) ==> r == Failure(SecureDeleteOff))
        && (old(secureDelete) && Blocked(disk, old(tick)) ==> r == Failure(CheckpointBusy) && db == old(db))
      // it rebuilds the file only where that fits; a refusal for want of room is on record, with the time
      ensures r == Success(true) ==> FitsWithin(disk, policy, old(tick), tick)
      ensures r == Success(false) && IsPending(old(db)) && !TooSoon(old(db), now) ==>
        || db.store.value.cursor.lastAttempt == Some(now)
        || (db.store.value.cursor.scrubbed && exists t :: t >= old(tick) && disk.storeSize(t) > policy.vacuumNowMaxBytes)
    {
      hide Scrubs, HasRoom, Fits;
      NothingYet(db, commits);
      if db.store.None? || db.store.value.state != VacuumPending { return Success(false); }
      var cursor := db.store.value.cursor;
      if cursor.lastAttempt.Some? && now - cursor.lastAttempt.value < VACUUM_RETRY_SECS { return Success(false); }
      if !secureDelete { return Failure(SecureDeleteOff); }
      var truncated := CheckpointTruncate(disk);
      if !truncated { return Failure(CheckpointBusy); }
      ghost var m, along := db, commits;
      if !cursor.scrubbed {
        var scrubbed := ScrubFreelist(disk, policy);
        ScrubsOn(old(db), m, db, old(commits), along, commits);
        if scrubbed.Failure? { return Failure(scrubbed.error); }
        m, along := db, commits;
        if scrubbed.value.None? {
          SetPending(cursor.(lastAttempt := Some(now)));
          ScrubsOn(old(db), m, db, old(commits), along, commits);
          return Success(false);
        }
        cursor := PendingCursor(true, None);
        SetPending(cursor);
        ScrubsOn(old(db), m, db, old(commits), along, commits);
        m, along := db, commits;
      }
      var size := disk.storeSize(tick);
      if size > policy.vacuumNowMaxBytes { return Success(false); }
      if Ample(disk, policy) { RoomForAll(disk, policy, tick, VacuumNeeds(size, policy)); }
      FitsIs(disk, policy, tick);
      ghost var at := tick;
      if !HasRoom(disk, tick, VacuumNeeds(size, policy)) {
        SetPending(cursor.(lastAttempt := Some(now)));
        ScrubsOn(old(db), m, db, old(commits), along, commits);
        return Success(false);
      }
      var vacuumed := Vacuum(disk);
      ScrubsOn(old(db), m, db, old(commits), along, commits);
      if vacuumed.Failure? { return Failure(vacuumed.error); }
      assert Fits(disk, policy, at);
      r := Success(true);
    }

    /** After a start that was refused for want of room, one less than a day later does nothing. */
    method RefusedForADay(disk: Disk, policy: VacuumPolicy, now: int, next: int) returns (first: Result<bool, Failed>, second: Result<bool, Failed>)
      requires Valid() && DebtRecorded(db) && IsPending(db) && !TooSoon(db, now) && next < now + 86400
      requires forall t :: disk.storeSize(t) <= policy.vacuumNowMaxBytes
      modifies this
      ensures Valid()
      ensures first == Success(false) ==> second == Success(false) && IsPending(db) && db.store.value.cursor.lastAttempt == Some(now)
    {
      hide Scrubs, Ample;
      ghost var before, along := db, commits;
      first := RunPendingVacuum(disk, policy, now);
      StillRecorded(before, db, along, commits);
      second := RunPendingVacuum(disk, policy, next);
    }
  }

  lemma StillRecorded(d: Db, d': Db, commits: seq<Db>, commits': seq<Db>)
    requires Scrubs(d, d', commits, commits') && DebtRecorded(d)
    ensures DebtRecorded(d')
  {}

  // ── A store's whole life ────────────────────────────────────────────────────

  /** One run of a process over the store. */
  datatype Session =
    | Reset(plans: seq<Item>)
    | Migrate(plans: seq<Item>, draw: int -> bytes)
    | Finish(disk: Disk, policy: VacuumPolicy)
    | Start(disk: Disk, policy: VacuumPolicy, now: int)

  ghost predicate Sensible(original: Db, session: Session) {
    session.Migrate? ==> DrawsNonces(session.draw) && Walkable(original, session.plans)
  }

  lemma {:induction false} KeptCommitsMigrate(s: Sealer, original: Db, d: Db, commits: seq<Db>, at: nat)
    requires Migrating(s, original, d) && 1 <= at < |commits| && CommitsKept(d, commits, 1)
    ensures Migrating(s, original, commits[at])
  {
    if at == |commits| - 1 {
      StateOnlyKeeps(s, original, d, commits[at]);
    } else {
      KeptCommitsMigrate(s, original, d, commits[..|commits| - 1], at);
    }
  }

  /** How many of `n` steps a session comes to. */
  function UpTo(cut: Option<nat>, n: nat): (m: nat)
    ensures m <= n && (cut.None? ==> m == n)
  {
    if cut.Some? && cut.value < n then cut.value else n
  }

  /**
   What a session does to the store it finds: a reset marks its items, one by one; a migration that is not
   cut off and not refused settles what was planned and needs the retired keys no more; one that finishes or
   starts the store touches no value, and with room for it and no reader in its way leaves no residue.
   */
  ghost predicate SessionDid(c: Cipher, d: Db, session: Session, secureDelete: bool, cut: Option<nat>, d': Db) {
    match session
    case Reset(plans) =>
      var reset := plans[..UpTo(cut, |plans|)];
      && d' == d.(items := d'.items) && d'.items.Keys == d.items.Keys + (set p | p in reset)
      && forall p :: p in d'.items ==> if p in reset then d'.items[p] == ItemRow(Pending, None) else d'.items[p] == d.items[p]
    case Migrate(plans, _) =>
      && (!secureDelete || !Admitted(c, d) ==> d' == d)
      && (secureDelete && Admitted(c, d) && cut.None? ==> PlansDone(SealerOf(c), d', plans) && RetiredKeysUnneeded(c, d', plans))
    case Finish(disk, policy) =>
      && d'.columns == d.columns && d'.items == d.items
      && (secureDelete && cut.None? && Ample(disk, policy) ==> d'.residue == {} && !IsPending(d'))
    case Start(disk, policy, now) =>
      && d'.columns == d.columns && d'.items == d.items
      && (secureDelete && cut.None? && IsPending(d) && !TooSoon(d, now) && Ample(disk, policy) ==> d'.residue == {} && !IsPending(d'))
  }

  lemma DidReset(c: Cipher, d: Db, session: Session, secureDelete: bool, cut: Option<nat>, d': Db)
    requires session.Reset?
    requires var reset := session.plans[..UpTo(cut, |session.plans|)];
      && d' == d.(items := d'.items) && d'.items.Keys == d.items.Keys + (set p | p in reset)
      && forall p :: p in d'.items ==> if p in reset then d'.items[p] == ItemRow(Pending, None) else d'.items[p] == d.items[p]
    ensures SessionDid(c, d, session, secureDelete, cut, d')
  {}

  lemma DidMigrate(c: Cipher, d: Db, session: Session, secureDelete: bool, cut: Option<nat>, d': Db,
                   commits: seq<Db>, last: Db, done: Result<Report, Refusal>)
    requires session.Migrate? && commits != [] && commits[|commits| - 1] == last && d' == commits[UpTo(cut, |commits| - 1)]
    requires done.Failure? ==> commits == [d] && done.error != WalBusy
    requires done == Failure(NoSecureDelete) <==> !secureDelete
    requires done == Failure(NewerFormat) <==> secureDelete && RecordedByNewer(d)
    requires done == Failure(KeyMismatch) <==> secureDelete && !RecordedByNewer(d) && RecordsOtherKey(d, c)
    requires done.Success? ==> PlansDone(SealerOf(c), last, session.plans) && RetiredKeysUnneeded(c, last, session.plans)
    ensures SessionDid(c, d, session, secureDelete, cut, d')
  {
    hide PlansDone, RetiredKeysUnneeded, RecordedByNewer, RecordsOtherKey;
    if done.Failure? {
      match done.error
      case NoSecureDelete =>
      case NewerFormat =>
      case KeyMismatch =>
    }
  }

  lemma DidScrub(c: Cipher, d: Db, session: Session, secureDelete: bool, cut: Option<nat>, d': Db, last: Db)
    requires session.Finish? || session.Start?
    requires d'.columns == d.columns && d'.items == d.items && (cut.None? ==> d' == last)
    requires secureDelete && Ample(session.disk, session.policy) && (session.Start? ==> IsPending(d) && !TooSoon(d, session.now)) ==>
      last.residue == {} && last.store.Some? && last.store.value.state == StoreOk
    ensures SessionDid(c, d, session, secureDelete, cut, d')
  {
    hide Ample, TooSoon;
  }

  lemma LastCommit(store: ScrubbedStore)
    requires store.Valid()
    ensures |store.commits| > 0 && store.commits[|store.commits| - 1] == store.db
  {}

  lemma LastSealedCommit(store: SealedStore)
    requires store.Valid()
    ensures |store.commits| > 0 && store.commits[|store.commits| - 1] == store.db
  {}

  lemma ScrubTouchesNothing(d: Db, d': Db, commits: seq<Db>, at: nat)
    requires Scrubs(d, d', [d], commits) && at < |commits|
    ensures commits[at].columns == d.columns && commits[at].items == d.items
  {
    if at > 0 { KeptCommit(d, commits, at); }
  }

  lemma {:induction false} KeptCommit(d: Db, commits: seq<Db>, at: nat)
    requires CommitsKept(d, commits, 1) && 1 <= at < |commits|
    ensures commits[at].columns == d.columns && commits[at].items == d.items
  {
    if at < |commits| - 1 { KeptCommit(d, commits[..|commits| - 1], at); }
  }

  /** Where a session that was cut off at commit `cut`, or not at all, leaves the store. */
  method CutSession(c: Cipher, original: Db, before: Db, session: Session, secureDelete: bool, cut: Option<nat>) returns (db: Db)
    requires c.Lawful() && Sensible(original, session)
    requires Migrating(SealerOf(c), original, before) && DebtRecorded(before)
    ensures Migrating(SealerOf(c), original, db) && DebtRecorded(db)
    ensures SessionDid(c, before, session, secureDelete, cut, db)
  {
    hide *;
    var s := SealerOf(c);
    match session {
      case Reset(plans) =>
        var store := new SealedStore(before, secureDelete);
        // Every item is reset in a transaction of its own.
        store.ResetItems(plans[..UpTo(cut, |plans|)]);
        db := store.db;
        ResetKeeps(s, original, before, db);
        DidReset(c, before, session, secureDelete, cut, db);
      case Migrate(plans, draw) =>
        SessionIsSensible(s, original, before, session);
        var store := new SealedStore(before, secureDelete);
        var done := store.MigrateColumns(c, plans, draw, original);
        assert [before] <= store.commits;
        AllCommits(s, original, store.commits, 1);
        LastSealedCommit(store);
        var at := UpTo(cut, |store.commits| - 1);
        db := store.commits[at];
        DidMigrate(c, before, session, secureDelete, cut, db, store.commits, store.db, done);
      case Finish(disk, policy) =>
        var store := new ScrubbedStore(before, secureDelete);
        var done := store.FinishStore(disk, policy);
        ScrubsAppend(before, store.db, [before], store.commits);
        var at := UpTo(cut, |store.commits| - 1);
        db := store.commits[at];
        CutScrub(s, original, before, store.db, store.commits, at);
        ScrubTouchesNothing(before, store.db, store.commits, at);
        LastCommit(store);
        DidScrub(c, before, session, secureDelete, cut, db, store.db);
      case Start(disk, policy, now) =>
        var store := new ScrubbedStore(before, secureDelete);
        var done := store.RunPendingVacuum(disk, policy, now);
        ScrubsAppend(before, store.db, [before], store.commits);
        var at := UpTo(cut, |store.commits| - 1);
        db := store.commits[at];
        CutScrub(s, original, before, store.db, store.commits, at);
        ScrubTouchesNothing(before, store.db, store.commits, at);
        LastCommit(store);
        DidScrub(c, before, session, secureDelete, cut, db, store.db);
    }
  }

  lemma CutScrub(s: Sealer, original: Db, before: Db, after: Db, commits: seq<Db>, at: nat)
    requires Migrating(s, original, before) && DebtRecorded(before) && Scrubs(before, after, [before], commits)
    requires at < |commits|
    ensures Migrating(s, original, commits[at]) && DebtRecorded(commits[at])
  {
    hide Migrating, DebtRecorded;
    if at > 0 {
      KeptCommitsMigrate(s, original, before, commits, at);
      AllCommits(s, original, commits, 1);
    }
  }

  lemma SessionIsSensible(s: Sealer, original: Db, d: Db, session: Session)
    requires Migrating(s, original, d) && Sensible(original, session) && session.Migrate?
    ensures DrawsNonces(session.draw) && Walkable(d, session.plans)
  {
    hide Migrating;
    MigratingIsWalkable(s, original, d, session.plans);
  }

  /** The store before each session and after the last. */
  ghost predicate AllDid(c: Cipher, states: seq<Db>, sessions: seq<Session>, secure: nat -> bool, cuts: nat -> Option<nat>) {
    |states| == |sessions| + 1
    && forall n :: 0 <= n < |sessions| ==> SessionDid(c, states[n], sessions[n], secure(n), cuts(n), states[n + 1])
  }

  lemma OneMoreSession(c: Cipher, states: seq<Db>, sessions: seq<Session>, secure: nat -> bool, cuts: nat -> Option<nat>, n: nat, db: Db)
    requires n < |sessions| && AllDid(c, states, sessions[..n], secure, cuts)
    requires SessionDid(c, states[n], sessions[n], secure(n), cuts(n), db)
    ensures AllDid(c, states + [db], sessions[..n + 1], secure, cuts)
  {
    hide SessionDid;
    var more := states + [db];
    forall m | 0 <= m < n + 1 ensures SessionDid(c, more[m], sessions[..n + 1][m], secure(m), cuts(m), more[m + 1]) {
      if m < n { assert more[m] == states[m] && more[m + 1] == states[m + 1] && sessions[..n][m] == sessions[..n + 1][m]; }
    }
  }

  /**
   Any sequence of runs, each cut off anywhere or not at all, loses no value and forgets no scrub it owes;
   and each did what it is for, as far as it came.
   */
  method StoreLife(c: Cipher, original: Db, sessions: seq<Session>, secure: nat -> bool, cuts: nat -> Option<nat>)
    returns (db: Db, ghost states: seq<Db>)
    requires c.Lawful() && DebtRecorded(original) && forall p :: p in original.items ==> original.items[p] == ItemRow(Pending, None)
    requires forall session :: session in sessions ==> Sensible(original, session)
    ensures Migrating(SealerOf(c), original, db)
    ensures db.residue != {} ==> IsPending(db)
    ensures AllDid(c, states, sessions, secure, cuts) && states[0] == original && states[|sessions|] == db
  {
    hide *;
    db, states := original, [original];
    StartsMigrating(SealerOf(c), original);
    NoSessionYet(c, original, secure, cuts);
    assert sessions[..0] == [];
    for n := 0 to |sessions|
      invariant Migrating(SealerOf(c), original, db) && DebtRecorded(db)
      invariant |states| == n + 1 && states[0] == original && states[n] == db
      invariant AllDid(c, states, sessions[..n], secure, cuts)
    {
      db := CutSession(c, original, db, sessions[n], secure(n), cuts(n));
      OneMoreSession(c, states, sessions, secure, cuts, n, db);
      states := states + [db];
    }
    assert sessions[..|sessions|] == sessions;
    OwesWhatIsLeft(db);
  }

  lemma NoSessionYet(c: Cipher, original: Db, secure: nat -> bool, cuts: nat -> Option<nat>)
    ensures AllDid(c, [original], [], secure, cuts)
  {}

  lemma OwesWhatIsLeft(db: Db)
    requires DebtRecorded(db)
    ensures db.residue != {} ==> IsPending(db)
  {}
}
