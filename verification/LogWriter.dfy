/**
 Writing a sealed log: creating it, re-opening it for append after whatever a crash left, and
 appending records. The durability theorem is `LogLife`.
 */
module LogWriter {
  import opened Wrappers
  import opened Bytes
  import opened Content
  import opened SealedLog

  /** A file by its path: absent, or its bytes. */
  class LogFile {
    var data: Option<bytes>

    constructor (data: Option<bytes>)
      ensures this.data == data
    {
      this.data := data;
    }
  }

  class SealedLogWriter {
    const file: LogFile
    const l: LogKey
    var nextIndex: nat
    /** The committed records, first to last. */
    ghost var records: seq<bytes>

    ghost predicate Valid() reads this, file {
      && file.data.Some? && ParseHeader(file.data.value).None?
      && |file.data.value| >= HEADER_LEN && l.header == file.data.value[..HEADER_LEN]
      && Holds(l, 0, file.data.value[HEADER_LEN..], records) && nextIndex == |records|
    }

    constructor (file: LogFile, l: LogKey, count: nat, ghost records: seq<bytes>)
      requires file.data.Some? && ParseHeader(file.data.value).None?
      requires |file.data.value| >= HEADER_LEN && l.header == file.data.value[..HEADER_LEN]
      requires Holds(l, 0, file.data.value[HEADER_LEN..], records) && count == |records|
      ensures Valid() && this.file == file && this.l == l && this.records == records
    {
      this.file, this.l, this.nextIndex, this.records := file, l, count, records;
    }

    /** Append one record as one frame. */
    method Append(record: bytes, nonce: bytes) returns (r: Result<nat, LogError>)
      requires Valid() && l.aead.Lawful() && |nonce| == NONCE_LEN
      modifies this, file
      ensures Valid() && file.data.Some?
      ensures r == if |record| + NONCE_LEN + TAG_LEN > MAX_RECORD_BODY then Failure(RecordTooLong) else Success(old(nextIndex))
      ensures r.Failure? ==> file.data == old(file.data) && records == old(records)
      ensures r.Success? ==>
        file.data.value == old(file.data.value) + Frame(l, old(nextIndex), nonce, record) && records == old(records) + [record]
    {
      if |record| + NONCE_LEN + TAG_LEN > MAX_RECORD_BODY { return Failure(RecordTooLong); }
      var index, before := nextIndex, file.data.value;
      var frame := Frame(l, index, nonce, record);
      AppendKeeps(l, before, records, nonce, record);
      file.data := Some(before + frame);
      nextIndex := nextIndex + 1;
      records := records + [record];
      hide *;
      return Success(index);
    }
  }

  lemma AppendKeeps(l: LogKey, b: bytes, records: seq<bytes>, nonce: bytes, record: bytes)
    requires ParseHeader(b).None? && |b| >= HEADER_LEN && Holds(l, 0, b[HEADER_LEN..], records)
    requires l.aead.Lawful() && |nonce| == NONCE_LEN && |record| + NONCE_LEN + TAG_LEN <= MAX_RECORD_BODY
    ensures var b' := b + Frame(l, |records|, nonce, record);
      ParseHeader(b').None? && b'[..HEADER_LEN] == b[..HEADER_LEN] && Holds(l, 0, b'[HEADER_LEN..], records + [record])
  {
    hide ParseHeader, Holds, Frame;
    var frame := Frame(l, |records|, nonce, record);
    var b' := b + frame;
    assert b'[..HEADER_LEN] == b[..HEADER_LEN] && b'[HEADER_LEN..] == b[HEADER_LEN..] + frame;
    HeaderIsLocal(b, b');
    FrameHolds(l, |records|, nonce, record);
    HoldsAppend(l, 0, b[HEADER_LEN..], records, frame, [record]);
  }

  lemma FrameHolds(l: LogKey, index: nat, nonce: bytes, record: bytes)
    requires l.aead.Lawful() && |nonce| == NONCE_LEN && |record| + NONCE_LEN + TAG_LEN <= MAX_RECORD_BODY
    ensures Holds(l, index, Frame(l, index, nonce, record), [record])
  {
    hide HeadOf, Frame;
    var frame := Frame(l, index, nonce, record);
    FrameOpens(l, index, nonce, record, []);
    assert frame + [] == frame;
    assert frame[|frame|..] == [];
  }

  /** Create a log; the salt is random. */
  method Create(file: LogFile, v: Vault, salt: bytes) returns (w: SealedLogWriter)
    requires file.data.None? && |salt| == SALT_LEN
    modifies file
    ensures fresh(w) && w.Valid() && w.file == file && w.records == [] && w.l == LogKeyOf(v, NewHeader(salt), 0)
    ensures file.data == Some(NewHeader(salt))
  {
    var header := NewHeader(salt);
    file.data := Some(header);
    assert header[..HEADER_LEN] == header && header[HEADER_LEN..] == [];
    w := new SealedLogWriter(file, LogKeyOf(v, header, 0), 0, []);
  }

  /**
   Open a log for append, whatever is there: every record that opens in sequence is kept, nothing
   before the committed end changes, and a log that is refused is not touched.
   */
  method OpenAppend(file: LogFile, v: Vault, salt: bytes) returns (r: Result<SealedLogWriter, LogError>)
    requires |salt| == SALT_LEN
    modifies file
    ensures r.Failure? ==> file.data == old(file.data) && file.data.Some?
    ensures r.Success? ==> fresh(r.value) && r.value.Valid() && r.value.file == file && file.data.Some?
    ensures r.Success? && old(file.data).None? ==>
      r.value.records == [] && r.value.l == LogKeyOf(v, NewHeader(salt), 0) && file.data.value == NewHeader(salt)
    ensures old(file.data).Some? ==>
      (r.Success? <==> ParseHeader(old(file.data).value).None? && FirstAccepting(v, old(file.data).value, 0) == 0)
    ensures r.Success? && old(file.data).Some? ==>
      var b := old(file.data).value;
      var scan := ScanUnder(v, b, 0);
      && scan.Success? && r.value.records == scan.value.records && r.value.l == LogKeyOf(v, b[..HEADER_LEN], 0)
      && file.data.value == b[..HEADER_LEN + scan.value.committed]
  {
    if file.data.None? {
      var w := Create(file, v, salt);
      return Success(w);
    }
    var b := file.data.value;
    hide ParseHeader, ScanFrom, FirstAccepting, Accepts, Holds, Boundary;
    var o := OpenLog(v, b, false);
    if o.Failure? { return Failure(o.error); }
    if o.value.retired { return Failure(UnderRetiredKey); }
    ghost var scan := ScanUnder(v, b, 0).value;
    var end := HEADER_LEN + o.value.scan.committed;
    CommittedPart(v, b, scan);
    if o.value.scan.tail != Clean {
      file.data := Some(b[..end]);
    }
    var count := CountRecords(b[..end], o.value.l, scan.records);
    var w := new SealedLogWriter(file, o.value.l, count, scan.records);
    r := Success(w);
  }

  /** The committed part of a scanned log holds its records, and is all of a clean one. */
  lemma CommittedPart(v: Vault, b: bytes, scan: Scan)
    requires ParseHeader(b).None? && |b| >= HEADER_LEN && ScanUnder(v, b, 0) == Success(scan)
    ensures HEADER_LEN + scan.committed <= |b| && LogHolds(v, b[..HEADER_LEN + scan.committed], scan.records)
    ensures b[..HEADER_LEN + scan.committed][..HEADER_LEN] == b[..HEADER_LEN]
    ensures scan.tail == Clean ==> b[..HEADER_LEN + scan.committed] == b
  {
    hide ParseHeader, ScanFrom, Holds;
    var l, end := LogKeyOf(v, b[..HEADER_LEN], 0), HEADER_LEN + scan.committed;
    ScanMeaning(l, 0, b[HEADER_LEN..]);
    assert b[..end][..HEADER_LEN] == b[..HEADER_LEN];
    assert b[..end][HEADER_LEN..] == b[HEADER_LEN..][..scan.committed];
    HeaderIsLocal(b, b[..end]);
  }

  // ── Crashes ─────────────────────────────────────────────────────────────────

  /** A record and the random nonce it is sealed with. */
  datatype Entry = Entry(record: bytes, nonce: bytes)
  {
    predicate Fits() {
      |record| + NONCE_LEN + TAG_LEN <= MAX_RECORD_BODY && |nonce| == NONCE_LEN
    }
  }

  function Records(entries: seq<Entry>): (r: seq<bytes>)
    ensures |r| == |entries|
  {
    if entries == [] then [] else Records(entries[..|entries| - 1]) + [entries[|entries| - 1].record]
  }

  /** What a process appends and syncs, what it appends after that, and how many bytes of this a crash leaves. */
  datatype LogSession = LogSession(synced: seq<Entry>, unsynced: seq<Entry>, left: nat)
  {
    predicate Fits() {
      forall e :: e in synced + unsynced ==> e.Fits()
    }
  }

  /** What a crash left of a log: opening it for append recovers exactly `records`. */
  ghost predicate Recovers(v: Vault, data: Option<bytes>, records: seq<bytes>) {
    match data
    case None => records == []
    case Some(b) =>
      ParseHeader(b).None? && |b| >= HEADER_LEN && FirstAccepting(v, b, 0) == 0
      && ScanUnder(v, b, 0).Success? && ScanUnder(v, b, 0).value.records == records
  }

  /** How many bytes records take in a log: each its own and 32. */
  ghost function Framed(records: seq<bytes>): nat {
    if records == [] then 0 else 32 + |records[0]| + Framed(records[1..])
  }

  /** How many of the records, from the first on, are whole within `left` bytes. */
  ghost function FitIn(records: seq<bytes>, left: nat): (n: nat)
    ensures n <= |records|
  {
    if records == [] || 32 + |records[0]| > left then 0 else 1 + FitIn(records[1..], left - 32 - |records[0]|)
  }

  lemma HeadSize(l: LogKey, index: nat, b: bytes)
    requires l.aead.Lawful() && HeadOf(l, index, b).Opens?
    ensures HeadOf(l, index, b).size == 32 + |HeadOf(l, index, b).record|
  {
    hide FromBigEndian;
  }

  lemma {:induction false} HoldsSizes(l: LogKey, index: nat, b: bytes, records: seq<bytes>)
    requires Holds(l, index, b, records) && l.aead.Lawful()
    ensures |b| == Framed(records)
    decreases |records|
  {
    hide HeadOf, FromBigEndian;
    if records != [] {
      HeadSize(l, index, b);
      HoldsSizes(l, index + 1, b[HeadOf(l, index, b).size..], records[1..]);
    }
  }

  lemma {:induction false} WholeIsFit(l: LogKey, index: nat, b: bytes, records: seq<bytes>, cut: nat)
    requires Holds(l, index, b, records) && l.aead.Lawful() && cut <= |b|
    ensures WholeBefore(b, cut) == FitIn(records, cut)
    decreases |records|
  {
    hide HeadOf, FromBigEndian;
    if records != [] {
      HeadSize(l, index, b);
      var size := HeadOf(l, index, b).size;
      if size <= cut { WholeIsFit(l, index + 1, b[size..], records[1..], cut - size); }
    }
  }

  lemma {:induction false} FitAfter(a: seq<bytes>, more: seq<bytes>, left: nat)
    ensures FitIn(a + more, Framed(a) + left) == |a| + FitIn(more, left)
    decreases |a|
  {
    if a == [] {
      assert a + more == more;
    } else {
      assert (a + more)[1..] == a[1..] + more;
      FitAfter(a[1..], more, left);
    }
  }

  /** Room beyond all of them makes no difference. */
  lemma {:induction false} FitAll(records: seq<bytes>, left: nat)
    requires left >= Framed(records)
    ensures FitIn(records, left) == |records|
  {
    if records != [] { FitAll(records[1..], left - 32 - |records[0]|); }
  }

  /**
   What a crash spares, exactly: everything found and synced, and of what was appended after that the
   records that are whole within the bytes that reached the disk.
   */
  ghost predicate Survives(session: LogSession, before: seq<bytes>, after: seq<bytes>) {
    var more := Records(session.unsynced);
    after == before + Records(session.synced) + more[..FitIn(more, session.left)]
  }

  /** A crash that spares the first `|first|` bytes spares the records they hold. */
  lemma CrashSparesSynced(v: Vault, first: bytes, records: seq<bytes>, b: bytes, all: seq<bytes>, cut: nat)
    returns (k: nat)
    requires LogHolds(v, first, records) && LogHolds(v, b, all) && first <= b
    requires |first| <= cut <= |b|
    ensures |records| <= k <= |all| && Recovers(v, Some(b[..cut]), all[..k])
    ensures v.cipher.aead.Lawful() && records <= all ==> k == |records| + FitIn(all[|records|..], cut - |first|)
  {
    hide ScanFrom, Holds, FirstAccepting, Boundary, WholeBefore, ParseHeader;
    HeaderSizes(first);
    HeaderSizes(b);
    CutLogOpens(v, b, all, cut);
    k := WholeBefore(b[HEADER_LEN..], cut - HEADER_LEN);
    assert first[..HEADER_LEN] == b[..HEADER_LEN];
    var rest := b[|first|..];
    assert b[HEADER_LEN..] == first[HEADER_LEN..] + rest;
    WholeAtLeast(LogKeyOf(v, b[..HEADER_LEN], 0), 0, first[HEADER_LEN..], records, rest, cut - HEADER_LEN);
    if v.cipher.aead.Lawful() && records <= all { WholeRecords(v, first, records, b, all, cut); }
  }

  lemma WholeRecords(v: Vault, first: bytes, records: seq<bytes>, b: bytes, all: seq<bytes>, cut: nat)
    requires LogHolds(v, first, records) && LogHolds(v, b, all) && first <= b && v.cipher.aead.Lawful() && records <= all
    requires HEADER_LEN <= |first| <= cut <= |b|
    ensures WholeBefore(b[HEADER_LEN..], cut - HEADER_LEN) == |records| + FitIn(all[|records|..], cut - |first|)
  {
    hide ScanFrom, Holds, WholeBefore, ParseHeader, FitIn, Framed;
    var l := LogKeyOf(v, b[..HEADER_LEN], 0);
    assert first[..HEADER_LEN] == b[..HEADER_LEN];
    HoldsSizes(l, 0, first[HEADER_LEN..], records);
    WholeIsFit(l, 0, b[HEADER_LEN..], all, cut - HEADER_LEN);
    assert all == records + all[|records|..];
    FitAfter(records, all[|records|..], cut - |first|);
  }

  /** The crash may leave all that was written, or more than that. */
  lemma CutOrAll(v: Vault, first: bytes, records: seq<bytes>, b: bytes, more: seq<bytes>, left: nat)
    requires LogHolds(v, first, records) && LogHolds(v, b, records + more) && first <= b && v.cipher.aead.Lawful()
    requires HEADER_LEN <= |first| && |first| + left > |b|
    ensures FitIn(more, |b| - |first|) == FitIn(more, left)
  {
    hide ScanFrom, Holds, ParseHeader, FitIn, Framed;
    var l := LogKeyOf(v, b[..HEADER_LEN], 0);
    assert first[..HEADER_LEN] == b[..HEADER_LEN];
    HoldsSizes(l, 0, first[HEADER_LEN..], records);
    HoldsSizes(l, 0, b[HEADER_LEN..], records + more);
    FramedJoin(records, more);
    FitAll(more, |b| - |first|);
    FitAll(more, left);
  }

  lemma {:induction false} FramedJoin(a: seq<bytes>, b: seq<bytes>)
    ensures Framed(a + b) == Framed(a) + Framed(b)
  {
    if a == [] {
      assert a + b == b;
    } else {
      assert (a + b)[1..] == a[1..] + b;
      FramedJoin(a[1..], b);
    }
  }

  method AppendAll(w: SealedLogWriter, v: Vault, entries: seq<Entry>)
    requires w.Valid() && w.l.aead.Lawful() && forall e :: e in entries ==> e.Fits()
    requires w.l == LogKeyOf(v, w.l.header, 0)
    modifies w, w.file
    ensures w.Valid() && w.file.data.Some? && old(w.file.data).Some?
    ensures old(w.file.data.value) <= w.file.data.value
    ensures w.records == old(w.records) + Records(entries)
  {
    for n := 0 to |entries|
      invariant w.Valid() && w.file.data.Some? && old(w.file.data.value) <= w.file.data.value
      invariant w.records == old(w.records) + Records(entries[..n])
    {
      assert entries[..n + 1][..n] == entries[..n];
      assert entries[n] in entries;
      var r := w.Append(entries[n].record, entries[n].nonce);
    }
    assert entries[..|entries|] == entries;
  }

  lemma WriterHolds(v: Vault, b: bytes, l: LogKey, records: seq<bytes>)
    requires ParseHeader(b).None? && |b| >= HEADER_LEN && l.header == b[..HEADER_LEN] && l == LogKeyOf(v, l.header, 0)
    requires Holds(l, 0, b[HEADER_LEN..], records)
    ensures LogHolds(v, b, records)
  {}

  /** One run: open the log, append and sync, append more, crash. */
  method RunAndCrash(file: LogFile, v: Vault, salt: bytes, session: LogSession, ghost before: seq<bytes>)
    returns (ghost after: seq<bytes>)
    requires v.cipher.aead.Lawful() && |salt| == SALT_LEN && session.Fits()
    requires Recovers(v, file.data, before)
    modifies file
    ensures Recovers(v, file.data, after)
    ensures Survives(session, before, after)
  {
    hide Holds, ParseHeader, ScanFrom, FirstAccepting, LogHolds, FitIn;
    var r := OpenAppend(file, v, salt);
    var w := r.value;
    AppendAll(w, v, session.synced);
    ghost var first, records := file.data.value, w.records;
    WriterHolds(v, first, w.l, records);
    var durable := |file.data.value|;
    AppendAll(w, v, session.unsynced);
    var b := file.data.value;
    WriterHolds(v, b, w.l, w.records);
    var cut := if durable + session.left <= |b| then durable + session.left else |b|;
    ghost var more := Records(session.unsynced);
    ghost var k := CrashSparesSynced(v, first, records, b, w.records, cut);
    HeaderSizes(first);
    if durable + session.left > |b| { CutOrAll(v, first, records, b, more, session.left); }
    assert w.records[|records|..] == more;
    assert w.records[..k] == records + more[..FitIn(more, session.left)];
    after := w.records[..k];
    file.data := Some(b[..cut]);
  }

  /**
   `history` is what each run found and left: every record it synced survived its crash in order,
   and nothing was there afterwards that it had not found or appended.
   */
  ghost predicate AllSurvive(sessions: seq<LogSession>, history: seq<seq<bytes>>) {
    if sessions == [] then history == [[]]
    else
      var n := |sessions| - 1;
      && |history| == |sessions| + 1 && AllSurvive(sessions[..n], history[..n + 1])
      && Survives(sessions[n], history[n], history[n + 1])
  }

  lemma OneMoreRun(sessions: seq<LogSession>, history: seq<seq<bytes>>, session: LogSession, after: seq<bytes>)
    requires AllSurvive(sessions, history) && |history| == |sessions| + 1
    requires Survives(session, history[|sessions|], after)
    ensures AllSurvive(sessions + [session], history + [after])
  {
    assert (sessions + [session])[..|sessions|] == sessions && (history + [after])[..|sessions| + 1] == history;
  }

  /** Any number of runs, each ended by a crash. */
  method LogLife(v: Vault, salt: bytes, sessions: seq<LogSession>) returns (file: LogFile, ghost history: seq<seq<bytes>>)
    requires v.cipher.aead.Lawful() && |salt| == SALT_LEN && forall s :: s in sessions ==> s.Fits()
    ensures |history| == |sessions| + 1 && AllSurvive(sessions, history)
    ensures Recovers(v, file.data, history[|sessions|])
  {
    file := new LogFile(None);
    history := [[]];
    for n := 0 to |sessions|
      invariant |history| == n + 1 && AllSurvive(sessions[..n], history)
      invariant Recovers(v, file.data, history[n]) && fresh(file)
    {
      hide Recovers, AllSurvive, Survives;
      assert sessions[n] in sessions;
      ghost var after := RunAndCrash(file, v, salt, sessions[n], history[n]);
      OneMoreRun(sessions[..n], history, sessions[n], after);
      assert sessions[..n + 1] == sessions[..n] + [sessions[n]];
      history := history + [after];
    }
    assert sessions[..|sessions|] == sessions;
  }
}
