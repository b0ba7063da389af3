/**
 Logs the scan does not simply recover: a torn record that was followed by zero bytes (a file extended
 before a crash), a damaged length, and a header that was not written to its end.
 */
module TornLogs {
  import opened Wrappers
  import opened Bytes
  import opened Content
  import opened Resealing
  import opened SealedLog
  import opened LogWriter

  // ── A torn record and zeros ─────────────────────────────────────────────────

  /** A record's frame cut at `k`, then zero bytes. */
  function TornThenZeros(frame: bytes, k: nat, zeros: bytes): bytes
    requires k <= |frame|
  {
    frame[..k] + zeros
  }

  /** Where the record that the first four bytes announce ends. */
  function ClaimedSize(t: bytes): nat
    requires |t| >= 4
  {
    4 + FromBigEndian(t[..4])
  }

  /** The bytes leave nothing to judge: no length yet, or zeros only. */
  predicate Blank(t: bytes) {
    |t| < 4 || AllZero(t)
  }

  /** The announced record is all there, and does not open. */
  predicate Broken(l: LogKey, index: nat, t: bytes) {
    !Blank(t) && ClaimedSize(t) <= |t| && !HeadOf(l, index, t[..ClaimedSize(t)]).Opens?
  }

  /** Cutting the low bytes of a length to zero leaves zero, or one still long enough for a record. */
  lemma MisreadLength(b: bytes, k: nat, t: bytes)
    requires |b| == 4 && |t| == 4 && k <= 4 && t[..k] == b[..k] && AllZero(t[k..])
    ensures FromBigEndian(t) <= FromBigEndian(b)
    ensures AllZero(t) || k == 4 || FromBigEndian(t) >= 256
  {
    Four(b);
    Four(t);
    assert forall i :: 0 <= i < k ==> t[i] == t[..k][i] == b[..k][i] == b[i];
    assert forall i :: k <= i < 4 ==> t[i] == t[k..][i - k] == 0;
  }

  lemma Four(b: bytes)
    requires |b| == 4
    ensures FromBigEndian(b) == 0x100_0000 * (b[0] as int) + 0x1_0000 * (b[1] as int) + 0x100 * (b[2] as int) + b[3] as int
  {
    assert b[..3][..2] == b[..2] && b[..2][..1] == b[..1] && b[..1][..0] == [];
    assert FromBigEndian(b[..1]) == b[0];
    assert FromBigEndian(b[..2]) == 256 * (b[0] as int) + b[1] as int;
    assert FromBigEndian(b[..3]) == 256 * (256 * (b[0] as int) + b[1] as int) + b[2] as int;
  }

  lemma ClaimedIsValid(l: LogKey, index: nat, frame: bytes, k: nat, zeros: bytes)
    requires HeadOf(l, index, frame).Opens? && HeadOf(l, index, frame).size == |frame|
    requires 0 < k < |frame| && AllZero(zeros) && !Blank(TornThenZeros(frame, k, zeros))
    ensures var t := TornThenZeros(frame, k, zeros);
      && 4 + NONCE_LEN + TAG_LEN <= ClaimedSize(t) <= |frame| <= 4 + MAX_RECORD_BODY
      && (k >= 4 ==> ClaimedSize(t) == |frame|)
  {
    var t := TornThenZeros(frame, k, zeros);
    if k >= 4 {
      assert t[..4] == frame[..4];
    } else {
      assert t[..4][..k] == frame[..4][..k];
      assert forall i :: k <= i < 4 ==> t[..4][i] == zeros[i - k];
      assert t == t[..4] + t[4..] && forall i :: 4 <= i < |t| ==> t[i] == zeros[i - k];
      MisreadLength(frame[..4], k, t[..4]);
    }
  }

  /** What the scan makes of a torn record followed by zeros. */
  lemma TornThenZerosScan(l: LogKey, index: nat, frame: bytes, k: nat, zeros: bytes)
    requires HeadOf(l, index, frame).Opens? && HeadOf(l, index, frame).size == |frame|
    requires 0 < k < |frame| && AllZero(zeros)
    ensures var t := TornThenZeros(frame, k, zeros);
      var scan := ScanFrom(l, index, t);
      if Blank(t) || |t| < ClaimedSize(t) then scan == Success(Scan([], 0, Short))
      else if Broken(l, index, t) then
        scan == if |t| == ClaimedSize(t) then Success(Scan([], 0, FinalFailed)) else Failure(FailsMidFile(index))
      else scan.Success? && |scan.value.records| == 1 && scan.value.tail != FinalFailed
  {
    hide FromBigEndian, HeadOf, ScanFrom;
    var t := TornThenZeros(frame, k, zeros);
    if |t| >= 4 && AllZero(t) { ZeroLength(t[..4]); }
    if !Blank(t) {
      ClaimedIsValid(l, index, frame, k, zeros);
      if ClaimedSize(t) <= |t| { Announced(l, index, t); }
      if ClaimedSize(t) <= |t| && HeadOf(l, index, t[..ClaimedSize(t)]).Opens? {
        ZerosAfter(l, index, frame, k, zeros, ClaimedSize(t));
        return;
      }
    }
    StopsAt(l, index, t);
  }

  /** What the announced record, if it is all there, says of opening. */
  lemma Announced(l: LogKey, index: nat, t: bytes)
    requires |t| >= 4 && 4 + NONCE_LEN + TAG_LEN <= ClaimedSize(t) <= 4 + MAX_RECORD_BODY && ClaimedSize(t) <= |t|
    ensures var size := ClaimedSize(t);
      var h := HeadOf(l, index, t[..size]);
      if h.Opens? then h.size == size
      else l.aead.open(l.key, t[4..16], l.header + BigEndian(index, 8), t[16..size]).None?
  {
    hide FromBigEndian, BigEndian;
    var size := ClaimedSize(t);
    assert t[..size][..4] == t[..4] && t[..size][4..size] == t[4..size];
    assert t[4..size][..NONCE_LEN] == t[4..16] && t[4..size][NONCE_LEN..] == t[16..size];
  }

  lemma ZerosAfter(l: LogKey, index: nat, frame: bytes, k: nat, zeros: bytes, size: nat)
    requires k < |frame| && AllZero(zeros)
    requires var t := TornThenZeros(frame, k, zeros);
      4 <= size <= |t| && k <= size && HeadOf(l, index, t[..size]).Opens? && HeadOf(l, index, t[..size]).size == size
    ensures var scan := ScanFrom(l, index, TornThenZeros(frame, k, zeros)); scan.Success? && |scan.value.records| == 1 && scan.value.tail != FinalFailed
  {
    hide HeadOf;
    var t := TornThenZeros(frame, k, zeros);
    var record := HeadOf(l, index, t[..size]).record;
    var rest := t[size..];
    assert forall i :: 0 <= i < |rest| ==> rest[i] == zeros[size - k + i];
    assert t[..size][size..] == [];
    assert Holds(l, index, t[..size], [record]);
    assert t == t[..size] + rest;
    if rest == [] {
      ScanContinues(l, index, t[..size], [record], []);
      assert t[..size] + [] == t;
      AtTheEnd(l, index + 1);
    } else {
      ZeroTailIsTorn(l, index, t[..size], [record], rest);
    }
  }

  lemma AtTheEnd(l: LogKey, index: nat)
    ensures ScanFrom(l, index, []) == Success(Scan([], 0, Clean))
  {}

  /**
   Whole records, then a torn one, then zero bytes: the log is read if and only if the announced record
   is not there to be judged, opens, or fails with nothing after it. For a record cut after its length,
   the announced end is its own: the file is refused exactly when it was extended past that, unless the
   zeros complete the record.
   */
  lemma TornThenZerosReads(l: LogKey, index: nat, b: bytes, records: seq<bytes>, frame: bytes, k: nat, zeros: bytes)
    requires Holds(l, index, b, records)
    requires var i := index + |records|; HeadOf(l, i, frame).Opens? && HeadOf(l, i, frame).size == |frame|
    requires 0 < k < |frame| && AllZero(zeros)
    ensures var t := TornThenZeros(frame, k, zeros);
      && (ScanFrom(l, index, b + t).Success? <==> !(Broken(l, index + |records|, t) && |t| > ClaimedSize(t)))
      && (ScanFrom(l, index, b + t).Success? ==> records <= ScanFrom(l, index, b + t).value.records)
      && (k >= 4 ==> |t| >= 4 && ClaimedSize(t) == |frame|)
  {
    hide HeadOf, ScanFrom, Broken;
    var t := TornThenZeros(frame, k, zeros);
    ScanContinues(l, index, b, records, t);
    TornThenZerosScan(l, index + |records|, frame, k, zeros);
    BrokenIs(l, index + |records|, t);
    if k >= 4 { AnnouncesItself(l, index + |records|, frame, k, zeros); }
  }

  lemma BrokenIs(l: LogKey, index: nat, t: bytes)
    ensures Broken(l, index, t) ==> !Blank(t) && ClaimedSize(t) <= |t|
  {}

  lemma AnnouncesItself(l: LogKey, index: nat, frame: bytes, k: nat, zeros: bytes)
    requires HeadOf(l, index, frame).Opens? && HeadOf(l, index, frame).size == |frame| && 4 <= k < |frame|
    ensures var t := TornThenZeros(frame, k, zeros); |t| >= 4 && ClaimedSize(t) == |frame|
  {
    assert TornThenZeros(frame, k, zeros)[..4] == frame[..4];
  }

  /** In the first record a failing end is refused too: the log is not recognised under this key. */
  lemma TornFirstRecord(l: LogKey, frame: bytes, k: nat, zeros: bytes)
    requires HeadOf(l, 0, frame).Opens? && HeadOf(l, 0, frame).size == |frame| && 0 < k < |frame| && AllZero(zeros)
    ensures Accepts(ScanFrom(l, 0, TornThenZeros(frame, k, zeros))) <==> !Broken(l, 0, TornThenZeros(frame, k, zeros))
  {
    hide HeadOf, ScanFrom, Broken;
    var t := TornThenZeros(frame, k, zeros);
    TornThenZerosScan(l, 0, frame, k, zeros);
    BrokenIs(l, 0, t);
  }

  /**
   A whole log file, then a torn record and zero bytes: the current key opens it, and with all its
   records, unless the torn record is broken and either is the first or has something after its end.
   */
  lemma TornLogOpens(v: Vault, b: bytes, records: seq<bytes>, frame: bytes, k: nat, zeros: bytes)
    requires LogHolds(v, b, records) && |b| >= HEADER_LEN
    requires var l := LogKeyOf(v, b[..HEADER_LEN], 0);
      HeadOf(l, |records|, frame).Opens? && HeadOf(l, |records|, frame).size == |frame|
    requires 0 < k < |frame| && AllZero(zeros)
    ensures var l, t := LogKeyOf(v, b[..HEADER_LEN], 0), TornThenZeros(frame, k, zeros);
      && (FirstAccepting(v, b + t, 0) == 0 <==> !(Broken(l, |records|, t) && (records == [] || |t| > ClaimedSize(t))))
      && (FirstAccepting(v, b + t, 0) == 0 ==> ScanUnder(v, b + t, 0).Success? && records <= ScanUnder(v, b + t, 0).value.records)
  {
    hide HeadOf, ScanFrom, Broken, FirstAccepting, Holds, ParseHeader;
    var l, t, body := LogKeyOf(v, b[..HEADER_LEN], 0), TornThenZeros(frame, k, zeros), b[HEADER_LEN..];
    assert (b + t)[..HEADER_LEN] == b[..HEADER_LEN] && (b + t)[HEADER_LEN..] == body + t;
    ScanContinues(l, 0, body, records, t);
    TornThenZerosScan(l, |records|, frame, k, zeros);
    BrokenIs(l, |records|, t);
    TakesRoom(l, body, records);
    assert ScanUnder(v, b + t, 0) == ScanFrom(l, 0, body + t);
    assert |body| == 0 <==> records == [];
    assert Accepts(ScanUnder(v, b + t, 0)) <==> !(Broken(l, |records|, t) && (records == [] || |t| > ClaimedSize(t)));
    FirstAcceptingIs(v, b + t, 0);
  }

  lemma TakesRoom(l: LogKey, body: bytes, records: seq<bytes>)
    requires Holds(l, 0, body, records)
    ensures body == [] <==> records == []
  {}

  /** A concrete torn record, cut one byte short and extended by two, that the scan refuses. */
  lemma SomeTornRecordIsRefused(header: bytes)
    ensures var l, nonce := LogKey(ToyAead(), AeadKey(2), header), seq(NONCE_LEN, i => 0);
      var frame := Frame(l, 0, nonce, []);
      |frame| == 32 && ScanFrom(l, 0, TornThenZeros(frame, 31, [0, 0])) == Failure(FailsMidFile(0))
  {
    var l, nonce := LogKey(ToyAead(), AeadKey(2), header), seq(NONCE_LEN, i => 0);
    var frame := Frame(l, 0, nonce, []);
    ToyAeadIsLawful();
    FrameOpens(l, 0, nonce, [], []);
    assert frame + [] == frame;
    var t := TornThenZeros(frame, 31, [0, 0]);
    AnnouncesItself(l, 0, frame, 31, [0, 0]);
    CutTagFails(l, frame, t);
    TornThenZerosScan(l, 0, frame, 31, [0, 0]);
  }

  lemma CutTagFails(l: LogKey, frame: bytes, t: bytes)
    requires l.aead == ToyAead() && l.key == AeadKey(2) && |frame| == 32 && t == TornThenZeros(frame, 31, [0, 0])
    requires ClaimedSize(t) == 32
    ensures Broken(l, 0, t)
  {
    var body := t[..32][4..32];
    assert t[..32][..4] == t[..4];
    assert body[NONCE_LEN..][15] == t[31] == 0;
    assert seq(TAG_LEN, i => AeadKey(2).id % 256)[15] == 2;
    assert body[NONCE_LEN..][0..] == body[NONCE_LEN..];
    ZeroLengthIsNoRecord(t);
  }

  lemma ZeroLengthIsNoRecord(t: bytes)
    requires |t| >= 4 && ClaimedSize(t) > 4
    ensures !AllZero(t)
  {
    if AllZero(t) { ZeroLength(t[..4]); }
  }

  // ── A damaged length ────────────────────────────────────────────────────────

  lemma InvalidLengthIsNoTail(v: Vault, b: bytes, records: seq<bytes>, rest: bytes, j: nat)
    requires LogHolds(v, b, records) && |b| >= HEADER_LEN && j < |rest| && rest[j] != 0
    requires |rest| >= 4 && !(28 <= FromBigEndian(rest[..4]) <= 0x100_0000)
    ensures ParseHeader(b + rest).None? && FirstAccepting(v, b + rest, 0) != 0
    ensures ScanUnder(v, b + rest, 0) == Failure(InvalidLength(|records|))
  {
    hide ScanFrom, FirstAccepting, Holds, ParseHeader, FromBigEndian;
    var l, f := LogKeyOf(v, b[..HEADER_LEN], 0), b + rest;
    assert f[..HEADER_LEN] == b[..HEADER_LEN] && f[HEADER_LEN..] == b[HEADER_LEN..] + rest;
    HeaderIsLocal(b, f);
    WhereScanStops(l, 0, b[HEADER_LEN..], records, rest);
    FirstAcceptingIs(v, f, 0);
  }

  /**
   A log with a length no writer produces, anywhere after its whole records and with a byte that is not
   zero from there on, is refused and left as it is: no record after the damage is cut off.
   */
  method InvalidLengthIsRefused(v: Vault, b: bytes, ghost records: seq<bytes>, rest: bytes, ghost j: nat, salt: bytes)
    returns (file: LogFile, r: Result<SealedLogWriter, LogError>)
    requires LogHolds(v, b, records) && |b| >= HEADER_LEN && j < |rest| && rest[j] != 0 && |salt| == SALT_LEN
    requires |rest| >= 4 && !(28 <= FromBigEndian(rest[..4]) <= 0x100_0000)
    ensures r.Failure? && fresh(file) && file.data == Some(b + rest)
  {
    hide ScanFrom, FirstAccepting, Holds, ParseHeader, FromBigEndian;
    InvalidLengthIsNoTail(v, b, records, rest, j);
    file := new LogFile(Some(b + rest));
    r := OpenAppend(file, v, salt);
  }

  // ── A header that is not all there ──────────────────────────────────────────

  /** A log whose header was cut off by a crash is refused and left as it is. */
  method CutHeaderIsRefused(v: Vault, salt: bytes, cut: nat, salt': bytes)
    returns (file: LogFile, r: Result<SealedLogWriter, LogError>)
    requires |salt| == SALT_LEN && |salt'| == SALT_LEN && cut < HEADER_LEN
    ensures r.Failure? && fresh(file) && file.data == Some(NewHeader(salt)[..cut])
  {
    var left := NewHeader(salt)[..cut];
    file := new LogFile(Some(left));
    HeaderSizes(left);
    r := OpenAppend(file, v, salt');
  }
}
