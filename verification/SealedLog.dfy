/**
 `RYU-SL01`, the append-only sealed log: a 32-byte header, then records that are framed by a
 big-endian length and sealed with their index. Opening scans to the end and cuts off a torn tail.
 */
module SealedLog {
  import opened Wrappers
  import opened Bytes
  import opened Content

  const HEADER_LEN := 32
  const SALT_LEN := 20
  const MAX_RECORD_BODY := 16 * 1024 * 1024
  const LOG_VERSION: byte := 1

  /** The AEAD of one log: its derived key and the header every record is bound to. */
  datatype LogKey = LogKey(aead: Aead, key: AeadKey, header: bytes)
  {
    function RecordAad(index: nat): bytes {
      header + BigEndian(index, 8)
    }

    function OpenBody(index: nat, body: bytes): Option<bytes>
      requires |body| >= NONCE_LEN
    {
      aead.open(key, body[..NONCE_LEN], RecordAad(index), body[NONCE_LEN..])
    }
  }

  datatype LogError =
    | TooShort
    | NotALog
    | UnsupportedHeader
    | InvalidLength(index: nat)
    | FailsMidFile(index: nat)
    | DoesNotOpenAnywhere
    | UnderRetiredKey
    | RecordTooLong
    | Incomplete

  // ── One frame ───────────────────────────────────────────────────────────────

  function Frame(l: LogKey, index: nat, nonce: bytes, record: bytes): bytes
    requires |nonce| == NONCE_LEN
  {
    var ciphertext := l.aead.seal(l.key, nonce, l.RecordAad(index), record);
    BigEndian(NONCE_LEN + |ciphertext|, 4) + nonce + ciphertext
  }

  predicate AllZero(b: bytes) {
    forall i :: 0 <= i < |b| ==> b[i] == 0
  }

  /** What stands at the head of the unread bytes, when the record with number `index` is due. */
  datatype Head = AtEnd | Torn | Invalid | Opens(record: bytes, size: nat) | Fails(size: nat)

  function HeadOf(l: LogKey, index: nat, rest: bytes): (h: Head)
    ensures h.Opens? || h.Fails? ==> 4 + NONCE_LEN + TAG_LEN <= h.size <= |rest| && h.size == 4 + FromBigEndian(rest[..4])
    ensures h.AtEnd? <==> rest == []
  {
    if rest == [] then AtEnd
    else if |rest| < 4 then Torn
    else
      var bodyLen := FromBigEndian(rest[..4]);
      if !(NONCE_LEN + TAG_LEN <= bodyLen <= MAX_RECORD_BODY) then
        if AllZero(rest) then Torn else Invalid
      else if |rest| - 4 < bodyLen then Torn
      else match l.OpenBody(index, rest[4..4 + bodyLen])
        case Some(record) => Opens(record, 4 + bodyLen)
        case None => Fails(4 + bodyLen)
  }

  /** A written frame opens, whatever follows it. */
  lemma FrameOpens(l: LogKey, index: nat, nonce: bytes, record: bytes, rest: bytes)
    requires l.aead.Lawful() && |nonce| == NONCE_LEN && |record| + NONCE_LEN + TAG_LEN <= MAX_RECORD_BODY
    ensures var frame := Frame(l, index, nonce, record);
      |frame| == 4 + NONCE_LEN + |record| + TAG_LEN && HeadOf(l, index, frame + rest) == Opens(record, |frame|)
  {
    var ciphertext := l.aead.seal(l.key, nonce, l.RecordAad(index), record);
    var bodyLen := NONCE_LEN + |ciphertext|;
    var all := Frame(l, index, nonce, record) + rest;
    Widths();
    BigEndianRoundTrip(bodyLen, 4);
    assert all[..4] == BigEndian(bodyLen, 4);
    assert all[4..4 + bodyLen] == nonce + ciphertext;
    assert (nonce + ciphertext)[..NONCE_LEN] == nonce && (nonce + ciphertext)[NONCE_LEN..] == ciphertext;
  }

  /** A record that opens does so whatever follows it; cut short of its end it is torn. */
  lemma HeadIsLocal(l: LogKey, index: nat, rest: bytes, cut: nat, tail: bytes)
    requires HeadOf(l, index, rest).Opens? && cut <= |rest|
    ensures var h := HeadOf(l, index, rest);
      && (cut >= h.size ==> HeadOf(l, index, rest[..cut] + tail) == h)
      && (0 < cut < h.size ==> HeadOf(l, index, rest[..cut]) == Torn)
  {
    var bodyLen := FromBigEndian(rest[..4]);
    if cut >= 4 + bodyLen {
      assert (rest[..cut] + tail)[..4] == rest[..4];
      assert (rest[..cut] + tail)[4..4 + bodyLen] == rest[4..4 + bodyLen];
    } else if cut >= 4 {
      assert rest[..cut][..4] == rest[..4];
    }
  }

  // ── The scan ────────────────────────────────────────────────────────────────

  datatype Tail = Clean | Short | FinalFailed

  /** The records found, how many bytes they take, and what the rest is. */
  datatype Scan = Scan(records: seq<bytes>, committed: nat, tail: Tail)

  function ScanFrom(l: LogKey, index: nat, rest: bytes): (r: Result<Scan, LogError>)
    ensures r.Success? ==> r.value.committed <= |rest|
    decreases |rest|
  {
    match HeadOf(l, index, rest)
    case AtEnd => Success(Scan([], 0, Clean))
    case Torn => Success(Scan([], 0, Short))
    case Invalid => Failure(InvalidLength(index))
    case Fails(size) => if size == |rest| then Success(Scan([], 0, FinalFailed)) else Failure(FailsMidFile(index))
    case Opens(record, size) =>
      var more :- ScanFrom(l, index + 1, rest[size..]);
      Success(Scan([record] + more.records, size + more.committed, more.tail))
  }

  /** `b` is exactly the frames of `records`, the first numbered `index`, each of which opens. */
  ghost predicate Holds(l: LogKey, index: nat, b: bytes, records: seq<bytes>)
    decreases |records|
  {
    if records == [] then b == []
    else
      var h := HeadOf(l, index, b);
      h.Opens? && h.record == records[0] && Holds(l, index + 1, b[h.size..], records[1..])
  }

  function After(records: seq<bytes>, committed: nat, more: Result<Scan, LogError>): Result<Scan, LogError> {
    match more
    case Success(s) => Success(Scan(records + s.records, committed + s.committed, s.tail))
    case Failure(e) => Failure(e)
  }

  lemma ScanStep(l: LogKey, index: nat, b: bytes)
    requires HeadOf(l, index, b).Opens?
    ensures var h := HeadOf(l, index, b);
      ScanFrom(l, index, b) == After([h.record], h.size, ScanFrom(l, index + 1, b[h.size..]))
  {
    hide HeadOf, FromBigEndian;
  }

  lemma AfterAfter(first: seq<bytes>, n: nat, second: seq<bytes>, m: nat, more: Result<Scan, LogError>)
    ensures After(first, n, After(second, m, more)) == After(first + second, n + m, more)
  {
    if more.Success? {
      assert first + (second + more.value.records) == first + second + more.value.records;
    }
  }

  /** Committed frames are scanned as they are, and the scan goes on after them. */
  lemma {:induction false} ScanContinues(l: LogKey, index: nat, b: bytes, records: seq<bytes>, rest: bytes)
    requires Holds(l, index, b, records)
    ensures ScanFrom(l, index, b + rest) == After(records, |b|, ScanFrom(l, index + |records|, rest))
    decreases |records|
  {
    hide HeadOf, FromBigEndian, ScanFrom;
    if records == [] {
      assert b + rest == rest;
      var more := ScanFrom(l, index, rest);
      assert more.Success? ==> [] + more.value.records == more.value.records;
    } else {
      var size := HeadOf(l, index, b).size;
      HeadIsLocal(l, index, b, |b|, rest);
      assert b[..|b|] + rest == b + rest;
      assert (b + rest)[size..] == b[size..] + rest;
      ScanContinues(l, index + 1, b[size..], records[1..], rest);
      ScanStep(l, index, b + rest);
      AfterAfter([records[0]], size, records[1..], |b[size..]|, ScanFrom(l, index + |records|, rest));
      assert [records[0]] + records[1..] == records;
    }
  }

  lemma HoldsHead(l: LogKey, index: nat, b: bytes, records: seq<bytes>)
    requires Holds(l, index, b, records) && records != []
    ensures var h := HeadOf(l, index, b);
      h.Opens? && h.record == records[0] && Holds(l, index + 1, b[h.size..], records[1..])
    ensures var size := HeadOf(l, index, b).size;
      forall k: nat :: Boundary(b, k + 1) == size + Boundary(b[size..], k)
  {
    hide HeadOf, FromBigEndian;
  }

  lemma HoldsBuild(l: LogKey, index: nat, b: bytes, records: seq<bytes>)
    requires records != [] && HeadOf(l, index, b).Opens? && HeadOf(l, index, b).record == records[0]
    requires Holds(l, index + 1, b[HeadOf(l, index, b).size..], records[1..])
    ensures Holds(l, index, b, records)
  {}

  lemma HoldsNothing(l: LogKey, index: nat, b: bytes)
    ensures Holds(l, index, [], []) && Boundary(b, 0) == 0
  {}

  /** How the scan's last step reads what is left. */
  ghost predicate LeftAs(l: LogKey, index: nat, left: bytes, tail: Tail) {
    match tail
    case Clean => left == []
    case Short => HeadOf(l, index, left) == Torn
    case FinalFailed => HeadOf(l, index, left) == Fails(|left|)
  }

  lemma ScanStops(l: LogKey, index: nat, rest: bytes)
    requires ScanFrom(l, index, rest).Success? && !HeadOf(l, index, rest).Opens?
    ensures var s := ScanFrom(l, index, rest).value; s == Scan([], 0, s.tail) && LeftAs(l, index, rest, s.tail)
  {
    hide HeadOf, FromBigEndian;
  }

  /**
   What a successful scan of any bytes says: the committed part holds the records, and what is
   left does not start with a record that opens.
   */
  lemma {:induction false} ScanMeaning(l: LogKey, index: nat, rest: bytes)
    requires ScanFrom(l, index, rest).Success?
    ensures var s := ScanFrom(l, index, rest).value;
      Holds(l, index, rest[..s.committed], s.records)
      && LeftAs(l, index + |s.records|, rest[s.committed..], s.tail)
    decreases |rest|
  {
    hide HeadOf, FromBigEndian, ScanFrom, Holds, LeftAs;
    var h, s := HeadOf(l, index, rest), ScanFrom(l, index, rest).value;
    if h.Opens? {
      var next := rest[h.size..];
      ScanStep(l, index, rest);
      ScanMeaning(l, index + 1, next);
      var more := ScanFrom(l, index + 1, next).value;
      HeadIsLocal(l, index, rest, s.committed, []);
      assert rest[..s.committed] + [] == rest[..s.committed];
      assert rest[..s.committed][h.size..] == next[..more.committed];
      assert rest[s.committed..] == next[more.committed..];
      assert s.records[1..] == more.records;
      HoldsBuild(l, index, rest[..s.committed], s.records);
    } else {
      ScanStops(l, index, rest);
      HoldsNothing(l, index, rest);
      assert rest[0..] == rest && rest[..0] == [];
    }
  }

  /** Every record of the part before the cut is whole. */
  lemma {:induction false} WholeAtLeast(l: LogKey, index: nat, a: bytes, first: seq<bytes>, rest: bytes, cut: nat)
    requires Holds(l, index, a, first) && |a| <= cut <= |a + rest|
    ensures WholeBefore(a + rest, cut) >= |first|
    decreases |first|
  {
    hide HeadOf, FromBigEndian;
    if first != [] {
      HoldsHead(l, index, a, first);
      var size := HeadOf(l, index, a).size;
      assert (a + rest)[..4] == a[..4];
      assert (a + rest)[size..] == a[size..] + rest;
      WholeAtLeast(l, index + 1, a[size..], first[1..], rest, cut - size);
    }
  }

  lemma {:induction false} HoldsAppend(l: LogKey, index: nat, a: bytes, first: seq<bytes>, b: bytes, second: seq<bytes>)
    requires Holds(l, index, a, first) && Holds(l, index + |first|, b, second)
    ensures Holds(l, index, a + b, first + second)
    decreases |first|
  {
    hide HeadOf, FromBigEndian;
    if first == [] {
      assert a + b == b && first + second == second;
    } else {
      var size := HeadOf(l, index, a).size;
      HeadIsLocal(l, index, a, |a|, b);
      assert a[..|a|] + b == a + b;
      assert (a + b)[size..] == a[size..] + b;
      assert (first + second)[1..] == first[1..] + second;
      HoldsAppend(l, index + 1, a[size..], first[1..], b, second);
    }
  }

  /** The frames say how many records there are and where each ends. */
  function Boundary(b: bytes, k: nat): nat
  {
    if k == 0 || |b| < 4 then 0
    else
      var size := 4 + FromBigEndian(b[..4]);
      if size > |b| then 0 else size + Boundary(b[size..], k - 1)
  }

  /** A torn or missing head ends the scan. */
  lemma ScanEnds(l: LogKey, index: nat, b: bytes)
    requires HeadOf(l, index, b) == Torn || b == []
    ensures ScanFrom(l, index, b) == Success(Scan([], 0, if b == [] then Clean else Short))
  {}

  /** A log splits after any of its records. */
  lemma {:induction false} HoldsPrefix(l: LogKey, index: nat, b: bytes, records: seq<bytes>, k: nat)
    requires Holds(l, index, b, records) && k <= |records|
    ensures Boundary(b, k) <= |b| && Holds(l, index, b[..Boundary(b, k)], records[..k])
    ensures Holds(l, index + k, b[Boundary(b, k)..], records[k..])
    decreases k
  {
    hide *;
    HoldsNothing(l, index, b);
    if k == 0 {
      assert b[0..] == b && records[0..] == records;
      assert b[..0] == [] && records[..0] == [];
    } else {
      HoldsHead(l, index, b, records);
      var size := HeadOf(l, index, b).size;
      var at := Boundary(b[size..], k - 1);
      HoldsPrefix(l, index + 1, b[size..], records[1..], k - 1);
      assert Boundary(b, k - 1 + 1) == size + at;
      HeadIsLocal(l, index, b, size + at, []);
      assert b[..size + at] + [] == b[..size + at];
      assert b[..size + at][size..] == b[size..][..at];
      assert b[size + at..] == b[size..][at..];
      assert records[..k][1..] == records[1..][..k - 1] && records[k..] == records[1..][k - 1..];
      HoldsBuild(l, index, b[..size + at], records[..k]);
    }
  }

  lemma {:induction false} NextBoundary(l: LogKey, index: nat, b: bytes, records: seq<bytes>, k: nat)
    requires Holds(l, index, b, records) && k < |records|
    ensures Boundary(b, k) <= |b| && HeadOf(l, index + k, b[Boundary(b, k)..]).Opens?
    ensures Boundary(b, k + 1) == Boundary(b, k) + HeadOf(l, index + k, b[Boundary(b, k)..]).size
    decreases k
  {
    hide HeadOf, FromBigEndian, Holds;
    HoldsHead(l, index, b, records);
    if k == 0 {
      assert b[0..] == b;
      assert Boundary(b, 0 + 1) == HeadOf(l, index, b).size + Boundary(b[HeadOf(l, index, b).size..], 0);
    } else {
      var size := HeadOf(l, index, b).size;
      NextBoundary(l, index + 1, b[size..], records[1..], k - 1);
      var at := Boundary(b[size..], k - 1);
      assert Boundary(b, k - 1 + 1) == size + at;
      assert Boundary(b, k + 1) == size + Boundary(b[size..], k);
      assert b[size + at..] == b[size..][at..];
    }
  }

  /** How many records end at or before `cut`. */
  function WholeBefore(b: bytes, cut: nat): nat
    requires cut <= |b|
    decreases |b|
  {
    if |b| < 4 then 0
    else
      var size := 4 + FromBigEndian(b[..4]);
      if size > cut then 0 else 1 + WholeBefore(b[size..], cut - size)
  }

  lemma {:induction false} WholeBeforeIs(l: LogKey, index: nat, b: bytes, records: seq<bytes>, cut: nat)
    requires Holds(l, index, b, records) && cut <= |b|
    ensures var k := WholeBefore(b, cut);
      k <= |records| && Boundary(b, k) <= cut && (k < |records| ==> cut < Boundary(b, k + 1))
    decreases |records|
  {
    hide HeadOf, FromBigEndian;
    if records != [] {
      var size := HeadOf(l, index, b).size;
      if size <= cut {
        WholeBeforeIs(l, index + 1, b[size..], records[1..], cut - size);
      } else {
        assert Boundary(b, 1) == size + Boundary(b[size..], 0);
      }
    }
  }

  /**
   Cut anywhere, a log holds the records that lie wholly before the cut and nothing else; the cut
   is never mistaken for corruption or for a foreign key.
   */
  lemma CutKeepsWholeRecords(l: LogKey, index: nat, b: bytes, records: seq<bytes>, cut: nat)
    requires Holds(l, index, b, records) && cut <= |b|
    ensures var k := WholeBefore(b, cut); var at := Boundary(b, k);
      && k <= |records| && at <= cut && (k < |records| ==> cut < Boundary(b, k + 1))
      && Holds(l, index, b[..at], records[..k])
      && ScanFrom(l, index, b[..cut]) == Success(Scan(records[..k], at, if cut == at then Clean else Short))
  {
    hide HeadOf, FromBigEndian, ScanFrom, Holds, Boundary, WholeBefore;
    WholeBeforeIs(l, index, b, records, cut);
    var k := WholeBefore(b, cut);
    HoldsPrefix(l, index, b, records, k);
    var at := Boundary(b, k);
    var left := b[at..cut];
    assert b[..cut] == b[..at] + left;
    assert left == b[at..][..cut - at];
    ScanContinues(l, index, b[..at], records[..k], left);
    if k < |records| { NextBoundary(l, index, b, records, k); }
    if left != [] { LeftIsTorn(l, index + k, b[at..], records[k..], cut - at); }
    ScanEnds(l, index + k, left);
    assert records[..k] + [] == records[..k];
  }

  lemma LeftIsTorn(l: LogKey, index: nat, b: bytes, records: seq<bytes>, cut: nat)
    requires Holds(l, index, b, records) && 0 < cut <= |b| && (records != [] ==> cut < HeadOf(l, index, b).size)
    ensures HeadOf(l, index, b[..cut]) == Torn
  {
    HeadIsLocal(l, index, b, cut, []);
  }

  lemma {:induction false} ZeroLength(b: bytes)
    requires AllZero(b)
    ensures FromBigEndian(b) == 0
  {
    if b != [] { ZeroLength(b[..|b| - 1]); }
  }

  /** Zero bytes after the last record (a file extended before a crash) are a torn tail. */
  lemma ZeroTailIsTorn(l: LogKey, index: nat, b: bytes, records: seq<bytes>, zeros: bytes)
    requires Holds(l, index, b, records) && AllZero(zeros) && zeros != []
    ensures ScanFrom(l, index, b + zeros) == Success(Scan(records, |b|, Short))
  {
    assert HeadOf(l, index + |records|, zeros).Torn? by {
      if |zeros| >= 4 { ZeroLength(zeros[..4]); }
    }
    hide Holds, HeadOf, AllZero;
    ScanContinues(l, index, b, records, zeros);
    assert records + [] == records;
  }

  /** A record that fails and is followed by more data is an error, never a truncation. */
  lemma FailureMidFileIsAnError(l: LogKey, index: nat, b: bytes, records: seq<bytes>, rest: bytes)
    requires Holds(l, index, b, records)
    requires var h := HeadOf(l, index + |records|, rest); h.Fails? && h.size < |rest|
    ensures ScanFrom(l, index, b + rest) == Failure(FailsMidFile(index + |records|))
  {
    ScanContinues(l, index, b, records, rest);
  }

  /**
   What the scan makes of the bytes after the records it read, by the bytes alone: a length no writer
   produces is an error unless only zeros follow, a body that is not all there is torn, and a body that
   does not open is a failing end or an error.
   */
  lemma WhereScanStops(l: LogKey, index: nat, b: bytes, records: seq<bytes>, rest: bytes)
    requires Holds(l, index, b, records)
    requires var i, n := index + |records|, if |rest| >= 4 then FromBigEndian(rest[..4]) else 0;
      28 <= n <= 0x100_0000 && |rest| >= 4 + n ==>
        l.aead.open(l.key, rest[4..16], l.header + BigEndian(i, 8), rest[16..4 + n]).None?
    ensures var i, n := index + |records|, if |rest| >= 4 then FromBigEndian(rest[..4]) else 0;
      ScanFrom(l, index, b + rest) ==
        if rest == [] then Success(Scan(records, |b|, Clean))
        else if |rest| < 4 then Success(Scan(records, |b|, Short))
        else if n < 28 || n > 0x100_0000 then
          if exists j :: 0 <= j < |rest| && rest[j] != 0 then Failure(InvalidLength(i)) else Success(Scan(records, |b|, Short))
        else if |rest| < 4 + n then Success(Scan(records, |b|, Short))
        else if |rest| == 4 + n then Success(Scan(records, |b|, FinalFailed))
        else Failure(FailsMidFile(i))
  {
    hide FromBigEndian, Holds, HeadOf, ScanFrom, BigEndian;
    ScanContinues(l, index, b, records, rest);
    StopsAt(l, index + |records|, rest);
    assert records + [] == records;
  }

  lemma StopsAt(l: LogKey, i: nat, rest: bytes)
    requires var n := if |rest| >= 4 then FromBigEndian(rest[..4]) else 0;
      28 <= n <= 0x100_0000 && |rest| >= 4 + n ==>
        l.aead.open(l.key, rest[4..16], l.header + BigEndian(i, 8), rest[16..4 + n]).None?
    ensures var n := if |rest| >= 4 then FromBigEndian(rest[..4]) else 0;
      ScanFrom(l, i, rest) ==
        if rest == [] then Success(Scan([], 0, Clean))
        else if |rest| < 4 then Success(Scan([], 0, Short))
        else if n < 28 || n > 0x100_0000 then
          if exists j :: 0 <= j < |rest| && rest[j] != 0 then Failure(InvalidLength(i)) else Success(Scan([], 0, Short))
        else if |rest| < 4 + n then Success(Scan([], 0, Short))
        else if |rest| == 4 + n then Success(Scan([], 0, FinalFailed))
        else Failure(FailsMidFile(i))
  {
    hide FromBigEndian, BigEndian;
    var n := if |rest| >= 4 then FromBigEndian(rest[..4]) else 0;
    if 28 <= n && |rest| >= 4 + n {
      assert rest[4..4 + n][..NONCE_LEN] == rest[4..16] && rest[4..4 + n][NONCE_LEN..] == rest[16..4 + n];
    }
  }

  // ── The scan and the count, as loops ────────────────────────────────────────

  function Kept(keep: bool, s: Scan): Scan {
    if keep then s else s.(records := [])
  }

  method ScanWith(l: LogKey, b: bytes, keep: bool) returns (r: Result<Scan, LogError>)
    requires |b| >= HEADER_LEN
    ensures var s := ScanFrom(l, 0, b[HEADER_LEN..]);
      r == if s.Success? then Success(Kept(keep, s.value)) else s
  {
    hide ScanFrom, HeadOf, After, Kept, FromBigEndian;
    var position, index, records := HEADER_LEN, 0, [];
    ghost var found: seq<bytes> := [];
    NothingBefore(ScanFrom(l, 0, b[HEADER_LEN..]));
    while true
      invariant HEADER_LEN <= position <= |b| && index == |found|
      invariant records == if keep then found else []
      invariant ScanFrom(l, 0, b[HEADER_LEN..]) == After(found, position - HEADER_LEN, ScanFrom(l, index, b[position..]))
      decreases |b| - position
    {
      ScanCases(l, index, b[position..], found, position - HEADER_LEN);
      match HeadOf(l, index, b[position..]) {
        case AtEnd => return Success(Scan(records, position - HEADER_LEN, Clean));
        case Torn => return Success(Scan(records, position - HEADER_LEN, Short));
        case Invalid => return Failure(InvalidLength(index));
        case Fails(size) =>
          if position + size == |b| { return Success(Scan(records, position - HEADER_LEN, FinalFailed)); }
          return Failure(FailsMidFile(index));
        case Opens(record, size) =>
          assert b[position..][size..] == b[position + size..];
          if keep { records := records + [record]; }
          found := found + [record];
          position, index := position + size, index + 1;
      }
    }
  }

  lemma NothingBefore(more: Result<Scan, LogError>)
    ensures After([], 0, more) == more
  {
    if more.Success? { assert [] + more.value.records == more.value.records; }
  }

  /** The scan after `found` records, by what stands at its head. */
  lemma ScanCases(l: LogKey, index: nat, b: bytes, found: seq<bytes>, n: nat)
    ensures forall keep, s: Scan :: Kept(keep, s) == if keep then s else s.(records := [])
    ensures var h := HeadOf(l, index, b);
            var r := After(found, n, ScanFrom(l, index, b));
            match h
            case AtEnd => r == Success(Scan(found, n, Clean)) && b == []
            case Torn => r == Success(Scan(found, n, Short))
            case Invalid => r == Failure(InvalidLength(index))
            case Fails(size) => size <= |b|
              && r == if size == |b| then Success(Scan(found, n, FinalFailed)) else Failure(FailsMidFile(index))
            case Opens(record, size) =>
              0 < size <= |b|
              && r == After(found + [record], n + size, ScanFrom(l, index + 1, b[size..]))
  {
    assert found + [] == found;
    if HeadOf(l, index, b).Opens? {
      ScanStep(l, index, b);
      var h := HeadOf(l, index, b);
      AfterAfter(found, n, [h.record], h.size, ScanFrom(l, index + 1, b[h.size..]));
    }
  }

  /** Count records by their lengths alone, as `open_append` does once the file is verified. */
  method CountRecords(b: bytes, ghost l: LogKey, ghost records: seq<bytes>) returns (count: nat)
    requires |b| >= HEADER_LEN && Holds(l, 0, b[HEADER_LEN..], records)
    ensures count == |records|
  {
    hide Holds, FromBigEndian;
    var position := HEADER_LEN;
    count := 0;
    assert records[0..] == records;
    while position + 4 <= |b|
      invariant HEADER_LEN <= position <= |b| && count <= |records|
      invariant Holds(l, count, b[position..], records[count..])
      decreases |b| - position
    {
      HoldsNext(l, count, b[position..], records[count..]);
      var size := 4 + FromBigEndian(b[position..position + 4]);
      assert b[position..position + 4] == b[position..][..4];
      assert b[position..][size..] == b[position + size..];
      assert records[count..][1..] == records[count + 1..];
      position, count := position + size, count + 1;
    }
    HoldsNext(l, count, b[position..], records[count..]);
  }

  lemma HoldsNext(l: LogKey, index: nat, b: bytes, records: seq<bytes>)
    requires Holds(l, index, b, records)
    ensures |b| < 4 ==> records == []
    ensures |b| >= 4 ==> records != []
    ensures records != [] ==>
      var size := 4 + FromBigEndian(b[..4]);
      size <= |b| && Holds(l, index + 1, b[size..], records[1..])
  {
    hide HeadOf, FromBigEndian;
  }

  // ── Which key opens a log ───────────────────────────────────────────────────

  function LogKeyOf(v: Vault, header: bytes, i: nat): LogKey
    requires |header| == HEADER_LEN && i < |v.Keys()|
  {
    LogKey(v.cipher.aead, v.FileKey(header[12..], i), header)
  }

  function ParseHeader(b: bytes): Option<LogError> {
    if |b| < HEADER_LEN then Some(TooShort)
    else if !(LOG_MAGIC <= b) then Some(NotALog)
    else if b[8] != LOG_VERSION || b[9] != 0 || b[10] != 0 || b[11] != 0 then Some(UnsupportedHeader)
    else None
  }

  function NewHeader(salt: bytes): (header: bytes)
    requires |salt| == SALT_LEN
    ensures |header| == HEADER_LEN && ParseHeader(header) == None && header[12..] == salt
  {
    LOG_MAGIC + [LOG_VERSION, 0, 0, 0] + salt
  }

  /** What a log starts with; a file that does not is refused for the first reason that applies. */
  lemma HeadersOfLogs(b: bytes)
    ensures ParseHeader(b).None? <==> |b| >= 32 && b[..12] == Ascii("RYU-SL01") + [1, 0, 0, 0]
    ensures ParseHeader(b) == Some(TooShort) <==> |b| < 32
    ensures ParseHeader(b) == Some(NotALog) <==> |b| >= 32 && b[..8] != Ascii("RYU-SL01")
  {
    assert Ascii("RYU-SL01") == LOG_MAGIC;
    if |b| >= 32 {
      assert b[..12] == b[..8] + b[8..12];
      assert LOG_MAGIC <= b <==> b[..8] == LOG_MAGIC;
      assert b[8..12] == [b[8], b[9], b[10], b[11]];
    }
  }

  /** The header is all that decides whether a file is a log. */
  lemma HeaderIsLocal(b: bytes, b': bytes)
    requires |b| >= HEADER_LEN && |b'| >= HEADER_LEN && b[..HEADER_LEN] == b'[..HEADER_LEN]
    ensures ParseHeader(b) == ParseHeader(b')
  {
    assert forall i :: 0 <= i < HEADER_LEN ==> b[i] == b[..HEADER_LEN][i] && b'[i] == b'[..HEADER_LEN][i];
    assert LOG_MAGIC <= b <==> LOG_MAGIC <= b[..HEADER_LEN];
    assert LOG_MAGIC <= b' <==> LOG_MAGIC <= b'[..HEADER_LEN];
  }

  function ScanUnder(v: Vault, b: bytes, i: nat): Result<Scan, LogError>
    requires |b| >= HEADER_LEN && i < |v.Keys()|
  {
    ScanFrom(LogKeyOf(v, b[..HEADER_LEN], i), 0, b[HEADER_LEN..])
  }

  /** The key opens the log: the scan succeeds and does not fail on a complete first record. */
  predicate Accepts(r: Result<Scan, LogError>) {
    r.Success? && !(r.value.tail == FinalFailed && r.value.committed == 0)
  }

  /** The first key from the `i`-th on that opens the log, or how many keys there are. */
  function FirstAccepting(v: Vault, b: bytes, i: nat): (k: nat)
    requires |b| >= HEADER_LEN && i <= |v.Keys()|
    ensures i <= k <= |v.Keys()|
    decreases |v.Keys()| - i
  {
    if i == |v.Keys()| || Accepts(ScanUnder(v, b, i)) then i else FirstAccepting(v, b, i + 1)
  }

  lemma {:induction false} FirstAcceptingIs(v: Vault, b: bytes, i: nat)
    requires |b| >= HEADER_LEN && i <= |v.Keys()|
    ensures var k := FirstAccepting(v, b, i);
      && (k < |v.Keys()| ==> Accepts(ScanUnder(v, b, k)))
      && (forall j :: i <= j < k ==> !Accepts(ScanUnder(v, b, j)))
    decreases |v.Keys()| - i
  {
    hide ScanUnder;
    if i < |v.Keys()| && !Accepts(ScanUnder(v, b, i)) { FirstAcceptingIs(v, b, i + 1); }
  }

  datatype OpenedLog = OpenedLog(l: LogKey, retired: bool, scan: Scan)

  /** Of the first `n` keys none accepts the log, and `first` is the first error a scan ran into. */
  ghost predicate NoneAccepts(v: Vault, b: bytes, n: nat, first: Option<LogError>)
    requires |b| >= HEADER_LEN && n <= |v.Keys()|
  {
    && (forall j :: 0 <= j < n ==> !Accepts(ScanUnder(v, b, j)))
    && match first
       case None => forall j :: 0 <= j < n ==> ScanUnder(v, b, j).Success?
       case Some(e) => exists i :: 0 <= i < n && ScanUnder(v, b, i) == Failure(e) && forall j :: 0 <= j < i ==> ScanUnder(v, b, j).Success?
  }

  lemma NotThisKey(v: Vault, b: bytes, n: nat, first: Option<LogError>)
    requires |b| >= HEADER_LEN && n < |v.Keys()| && NoneAccepts(v, b, n, first) && !Accepts(ScanUnder(v, b, n))
    ensures NoneAccepts(v, b, n + 1, if first.None? && ScanUnder(v, b, n).Failure? then Some(ScanUnder(v, b, n).error) else first)
  {
    hide ScanUnder, Accepts;
  }

  /** The error is the first that a scan ran into, if any did. */
  ghost predicate RefusedFor(v: Vault, b: bytes, e: LogError)
    requires |b| >= HEADER_LEN
  {
    NoneAccepts(v, b, |v.Keys()|, Some(e)) || (NoneAccepts(v, b, |v.Keys()|, None) && e == DoesNotOpenAnywhere)
  }

  /** What opening a file with a log's header gives: its scan under the first key that accepts it. */
  ghost predicate OpenedAs(v: Vault, b: bytes, keep: bool, r: Result<OpenedLog, LogError>)
    requires |b| >= HEADER_LEN
  {
    var k := FirstAccepting(v, b, 0);
    if k == |v.Keys()| then r.Failure? && RefusedFor(v, b, r.error)
    else
      && ScanUnder(v, b, k).Success?
      && r == Success(OpenedLog(LogKeyOf(v, b[..HEADER_LEN], k), k > 0, Kept(keep, ScanUnder(v, b, k).value)))
  }

  lemma OpenedBy(v: Vault, b: bytes, keep: bool, i: nat, scan: Scan)
    requires |b| >= HEADER_LEN && i < |v.Keys()|
    requires Accepts(ScanUnder(v, b, i)) && scan == Kept(keep, ScanUnder(v, b, i).value)
    requires exists first :: NoneAccepts(v, b, i, first)
    ensures OpenedAs(v, b, keep, Success(OpenedLog(LogKeyOf(v, b[..HEADER_LEN], i), i > 0, scan)))
  {
    hide ScanUnder, Kept;
    FirstAcceptingIs(v, b, 0);
  }

  lemma OpenedByNone(v: Vault, b: bytes, keep: bool, e: LogError)
    requires |b| >= HEADER_LEN && RefusedFor(v, b, e)
    ensures OpenedAs(v, b, keep, Failure(e))
  {
    hide ScanUnder, Accepts, Kept;
    FirstAcceptingIs(v, b, 0);
  }

  method OpenLog(v: Vault, b: bytes, keep: bool) returns (r: Result<OpenedLog, LogError>)
    ensures ParseHeader(b).Some? ==> r == Failure(ParseHeader(b).value)
    ensures ParseHeader(b).None? ==> OpenedAs(v, b, keep, r)
  {
    var refused := ParseHeader(b);
    if refused.Some? { return Failure(refused.value); }
    hide ScanUnder, Accepts, Kept, OpenedAs, FirstAccepting, ScanFrom, ParseHeader, NoneAccepts, RefusedFor;
    var keys := v.Keys();
    var firstError: Option<LogError> := None;
    NoKeyYet(v, b);
    for i := 0 to |keys|
      invariant NoneAccepts(v, b, i, firstError)
    {
      var l := LogKeyOf(v, b[..HEADER_LEN], i);
      var scan := ScanWith(l, b, keep);
      AcceptsKept(v, b, i, keep);
      if scan.Success? && !(scan.value.tail == FinalFailed && scan.value.committed == 0) {
        OpenedBy(v, b, keep, i, scan.value);
        return Success(OpenedLog(l, i > 0, scan.value));
      }
      NotThisKey(v, b, i, firstError);
      if scan.Failure? && firstError.None? { firstError := Some(scan.error); }
    }
    r := Failure(if firstError.Some? then firstError.value else DoesNotOpenAnywhere);
    RefusedForIs(v, b, firstError);
    OpenedByNone(v, b, keep, r.error);
  }

  lemma NoKeyYet(v: Vault, b: bytes)
    requires |b| >= HEADER_LEN
    ensures NoneAccepts(v, b, 0, None)
  {}

  lemma RefusedForIs(v: Vault, b: bytes, first: Option<LogError>)
    requires |b| >= HEADER_LEN && NoneAccepts(v, b, |v.Keys()|, first)
    ensures RefusedFor(v, b, if first.Some? then first.value else DoesNotOpenAnywhere)
  {
    hide NoneAccepts;
  }

  lemma AcceptsKept(v: Vault, b: bytes, i: nat, keep: bool)
    requires |b| >= HEADER_LEN && i < |v.Keys()|
    ensures ScanUnder(v, b, i) == ScanFrom(LogKeyOf(v, b[..HEADER_LEN], i), 0, b[HEADER_LEN..])
    ensures var r := ScanUnder(v, b, i);
      && (r.Success? ==> Kept(keep, r.value).tail == r.value.tail && Kept(keep, r.value).committed == r.value.committed)
      && (Accepts(r) <==> r.Success? && !(r.value.tail == FinalFailed && r.value.committed == 0))
  {
    hide ScanFrom;
  }

  /** A log file that `records` were written to under the store's current key. */
  ghost predicate LogHolds(v: Vault, b: bytes, records: seq<bytes>) {
    ParseHeader(b).None? && Holds(LogKeyOf(v, b[..HEADER_LEN], 0), 0, b[HEADER_LEN..], records)
  }

  ghost predicate HoldsUnderSomeKey(v: Vault, b: bytes, records: seq<bytes>) {
    ParseHeader(b).None?
    && exists i :: 0 <= i < |v.Keys()| && Holds(LogKeyOf(v, b[..HEADER_LEN], i), 0, b[HEADER_LEN..], records)
  }

  function TornIf(torn: bool): Tail {
    if torn then Short else Clean
  }

  lemma OpensUnderCurrent(v: Vault, b: bytes, keep: bool, scan: Scan)
    requires |b| >= HEADER_LEN && ScanUnder(v, b, 0) == Success(scan) && scan.tail != FinalFailed
    ensures FirstAccepting(v, b, 0) == 0
  {}

  /** Cut at or after its header, a log opens under the key it was written with, with every whole record. */
  lemma CutLogOpens(v: Vault, b: bytes, records: seq<bytes>, cut: nat)
    requires LogHolds(v, b, records) && HEADER_LEN <= cut <= |b|
    ensures var k := WholeBefore(b[HEADER_LEN..], cut - HEADER_LEN);
      var at := Boundary(b[HEADER_LEN..], k);
      && k <= |records| && HEADER_LEN + at <= cut && LogHolds(v, b[..HEADER_LEN + at], records[..k])
      && ParseHeader(b[..cut]).None? && FirstAccepting(v, b[..cut], 0) == 0
      && ScanUnder(v, b[..cut], 0) == Success(Scan(records[..k], at, TornIf(cut != HEADER_LEN + at)))
  {
    hide HeadOf, ScanFrom, Holds, Boundary, WholeBefore, ParseHeader, FirstAccepting;
    var header, body := b[..HEADER_LEN], b[HEADER_LEN..];
    var l := LogKeyOf(v, header, 0);
    HeaderSizes(b);
    CutKeepsWholeRecords(l, 0, body, records, cut - HEADER_LEN);
    var at := Boundary(body, WholeBefore(body, cut - HEADER_LEN));
    assert b[..cut][..HEADER_LEN] == header && b[..cut][HEADER_LEN..] == body[..cut - HEADER_LEN];
    assert b[..HEADER_LEN + at][..HEADER_LEN] == header && b[..HEADER_LEN + at][HEADER_LEN..] == body[..at];
    HeaderIsLocal(b, b[..cut]);
    HeaderIsLocal(b, b[..HEADER_LEN + at]);
    OpensUnderCurrent(v, b[..cut], true, ScanUnder(v, b[..cut], 0).value);
  }

  lemma HeaderSizes(b: bytes)
    ensures ParseHeader(b).None? ==> |b| >= HEADER_LEN
  {}

  /** The same for zero bytes after the last record. */
  lemma ZeroPaddedLogOpens(v: Vault, b: bytes, records: seq<bytes>, zeros: bytes)
    requires LogHolds(v, b, records) && AllZero(zeros) && zeros != []
    ensures ParseHeader(b + zeros).None? && FirstAccepting(v, b + zeros, 0) == 0
    ensures ScanUnder(v, b + zeros, 0) == Success(Scan(records, |b| - HEADER_LEN, Short))
  {
    hide HeadOf, ScanFrom, Holds, ParseHeader, FirstAccepting;
    HeaderSizes(b);
    assert (b + zeros)[..HEADER_LEN] == b[..HEADER_LEN] && (b + zeros)[HEADER_LEN..] == b[HEADER_LEN..] + zeros;
    HeaderIsLocal(b, b + zeros);
    ZeroTailIsTorn(LogKeyOf(v, b[..HEADER_LEN], 0), 0, b[HEADER_LEN..], records, zeros);
    OpensUnderCurrent(v, b + zeros, true, ScanUnder(v, b + zeros, 0).value);
  }

  lemma ForeignHeadIsRefused(l: LogKey, b: bytes)
    requires HeadOf(l, 0, b).Fails?
    ensures !Accepts(ScanFrom(l, 0, b))
  {}

  /** A file whose complete first record opens under no key is no log of this store. */
  lemma ForeignLogIsRefused(v: Vault, b: bytes)
    requires |b| >= HEADER_LEN
    requires forall i :: 0 <= i < |v.Keys()| ==> HeadOf(LogKeyOf(v, b[..HEADER_LEN], i), 0, b[HEADER_LEN..]).Fails?
    ensures FirstAccepting(v, b, 0) == |v.Keys()|
  {
    hide HeadOf, ScanFrom, Accepts, FirstAccepting;
    FirstAcceptingIs(v, b, 0);
    var k := FirstAccepting(v, b, 0);
    if k < |v.Keys()| { ForeignHeadIsRefused(LogKeyOf(v, b[..HEADER_LEN], k), b[HEADER_LEN..]); }
  }

  /** A log written under the `i`-th key opens under it, when no earlier key opens its first record. */
  lemma RetiredLogIsFound(v: Vault, b: bytes, records: seq<bytes>, i: nat)
    requires |b| >= HEADER_LEN && i < |v.Keys()|
    requires Holds(LogKeyOf(v, b[..HEADER_LEN], i), 0, b[HEADER_LEN..], records)
    requires forall j :: 0 <= j < i ==> HeadOf(LogKeyOf(v, b[..HEADER_LEN], j), 0, b[HEADER_LEN..]).Fails?
    ensures FirstAccepting(v, b, 0) == i && ScanUnder(v, b, i) == Success(Scan(records, |b| - HEADER_LEN, Clean))
  {
    hide HeadOf, FromBigEndian, FirstAccepting, Holds, Accepts, ScanFrom;
    var l := LogKeyOf(v, b[..HEADER_LEN], i);
    ScanEnds(l, |records|, []);
    ScanContinues(l, 0, b[HEADER_LEN..], records, []);
    assert b[HEADER_LEN..] + [] == b[HEADER_LEN..] && records + [] == records;
    CleanIsAccepted(Scan(records, |b| - HEADER_LEN, Clean));
    assert Accepts(ScanUnder(v, b, i));
    FirstAcceptingIs(v, b, 0);
    var k := FirstAccepting(v, b, 0);
    if k < i { ForeignHeadIsRefused(LogKeyOf(v, b[..HEADER_LEN], k), b[HEADER_LEN..]); }
  }

  lemma CleanIsAccepted(s: Scan)
    requires s.tail == Clean
    ensures Accepts(Success(s))
  {}

  // ── Readers ─────────────────────────────────────────────────────────────────

  /** Strict: a torn tail is an error. */
  method ReadLog(v: Vault, b: bytes) returns (r: Result<seq<bytes>, LogError>)
    ensures forall records :: LogHolds(v, b, records) ==> r == Success(records)
    ensures r.Success? ==> HoldsUnderSomeKey(v, b, r.value)
  {
    hide ScanFrom, HeadOf, FirstAccepting, Accepts, ParseHeader, Holds, Boundary, WholeBefore;
    var o := OpenLog(v, b, true);
    HeaderSizes(b);
    forall records | LogHolds(v, b, records)
      ensures o.Success? && o.value.scan == Scan(records, |b| - HEADER_LEN, Clean)
    {
      WholeLogOpens(v, b, records);
    }
    if o.Failure? { return Failure(o.error); }
    if o.value.scan.tail != Clean { return Failure(Incomplete); }
    var k := FirstAccepting(v, b, 0);
    ScanMeaning(LogKeyOf(v, b[..HEADER_LEN], k), 0, b[HEADER_LEN..]);
    CleanTakesAll(LogKeyOf(v, b[..HEADER_LEN], k), b[HEADER_LEN..], o.value.scan);
    r := Success(o.value.scan.records);
  }

  lemma WholeLogOpens(v: Vault, b: bytes, records: seq<bytes>)
    requires LogHolds(v, b, records)
    ensures |b| >= HEADER_LEN && FirstAccepting(v, b, 0) == 0
    ensures ScanUnder(v, b, 0) == Success(Scan(records, |b| - HEADER_LEN, Clean))
  {
    hide HeadOf, FromBigEndian, FirstAccepting, Holds, ScanFrom, ParseHeader;
    HeaderSizes(b);
    var l := LogKeyOf(v, b[..HEADER_LEN], 0);
    ScanEnds(l, |records|, []);
    ScanContinues(l, 0, b[HEADER_LEN..], records, []);
    assert b[HEADER_LEN..] + [] == b[HEADER_LEN..] && records + [] == records;
    OpensUnderCurrent(v, b, true, ScanUnder(v, b, 0).value);
  }

  lemma CleanTakesAll(l: LogKey, b: bytes, scan: Scan)
    requires ScanFrom(l, 0, b) == Success(scan) && scan.tail == Clean
    ensures Holds(l, 0, b, scan.records)
  {
    hide HeadOf, ScanFrom, Holds;
    ScanMeaning(l, 0, b);
    assert b[..scan.committed] == b;
  }
}
