/**
 Reading a sealed file: opening verifies the last chunk, then ranges and a cursor read through a
 cache of one chunk. A file that is not what was sealed never shows a byte that was not sealed.
 */
module FileReader {
  import opened Wrappers
  import opened Bytes
  import opened Content
  import opened Spans
  import opened SealedFile

  // ── What the bytes of a file show ───────────────────────────────────────────

  /** A file of any bytes whose size is that of some layout. */
  ghost predicate LaidOut(f: bytes, lay: Layout) {
    |f| >= FILE_HEADER_LEN && Fills(lay, |f| - FILE_HEADER_LEN)
  }

  /** Which chunk plaintext byte `q` is in, and how far into it. */
  lemma Locate(lay: Layout, size: nat, q: nat)
    requires Fills(lay, size) && q < lay.plaintextLen
    ensures q / lay.chunkSize < lay.chunkCount && q % lay.chunkSize < lay.ChunkLen(q / lay.chunkSize)
    ensures q == Span(q / lay.chunkSize, lay.chunkSize) + q % lay.chunkSize
  {
    DivMod(q, lay.chunkSize);
    if q / lay.chunkSize >= lay.chunkCount {
      SpanGrows(lay.chunkCount, q / lay.chunkSize, lay.chunkSize);
    }
  }

  /** The plaintext byte a file shows at `q`, `None` when its chunk does not open. */
  function ByteAt(k: ChunkKey, f: bytes, lay: Layout, q: nat): Option<byte>
    requires LaidOut(f, lay) && q < lay.plaintextLen
  {
    Locate(lay, |f| - FILE_HEADER_LEN, q);
    match ChunkAt(k, f, lay, q / lay.chunkSize)
    case None => None
    case Some(chunk) => if q % lay.chunkSize < |chunk| then Some(chunk[q % lay.chunkSize]) else None
  }

  ghost predicate Shows(k: ChunkKey, f: bytes, lay: Layout, start: nat, out: bytes) {
    && LaidOut(f, lay) && start + |out| <= lay.plaintextLen
    && forall q :: start <= q < start + |out| ==> ByteAt(k, f, lay, q) == Some(out[q - start])
  }

  /** Every chunk opens. */
  ghost predicate AllOpen(k: ChunkKey, f: bytes, lay: Layout) {
    LaidOut(f, lay) && forall i :: 0 <= i < lay.chunkCount ==> ChunkAt(k, f, lay, i).Some?
  }

  /** The file shows exactly `p`. */
  ghost predicate Presents(k: ChunkKey, f: bytes, lay: Layout, p: bytes) {
    AllOpen(k, f, lay) && lay.plaintextLen == |p| && Shows(k, f, lay, 0, p)
  }

  lemma ShownIsSlice(k: ChunkKey, f: bytes, lay: Layout, p: bytes, start: nat, out: bytes)
    requires Presents(k, f, lay, p) && Shows(k, f, lay, start, out)
    ensures start + |out| <= |p| && out == p[start..start + |out|]
  {
    hide LaidOut, ByteAt, AllOpen;
    forall j | 0 <= j < |out| ensures out[j] == p[start..start + |out|][j] {
      assert ByteAt(k, f, lay, start + j) == Some(p[start + j - 0]);
    }
  }

  lemma ShowsNothing(k: ChunkKey, f: bytes, lay: Layout, start: nat)
    requires LaidOut(f, lay) && start <= lay.plaintextLen
    ensures Shows(k, f, lay, start, [])
  {
    hide LaidOut, ByteAt;
  }

  lemma ShowsMore(k: ChunkKey, f: bytes, lay: Layout, start: nat, out: bytes, more: bytes)
    requires Shows(k, f, lay, start, out) && Shows(k, f, lay, start + |out|, more)
    ensures Shows(k, f, lay, start, out + more)
  {
    hide LaidOut, ByteAt;
  }

  lemma ByteAtIs(k: ChunkKey, f: bytes, lay: Layout, q: nat, i: nat, chunk: bytes, at: nat)
    requires LaidOut(f, lay) && q < lay.plaintextLen && q / lay.chunkSize == i < lay.chunkCount && q % lay.chunkSize == at
    requires ChunkAt(k, f, lay, i) == Some(chunk) && at < |chunk|
    ensures ByteAt(k, f, lay, q) == Some(chunk[at])
  {
    hide ChunkAt, Span;
  }

  /** A piece of an opened chunk, at its place. */
  lemma ChunkShows(k: ChunkKey, f: bytes, lay: Layout, start: nat, chunk: bytes, take: nat)
    requires LaidOut(f, lay) && k.aead.Lawful() && start < lay.plaintextLen
    requires start / lay.chunkSize < lay.chunkCount && ChunkAt(k, f, lay, start / lay.chunkSize) == Some(chunk)
    requires start % lay.chunkSize + take <= |chunk|
    ensures Shows(k, f, lay, start, chunk[start % lay.chunkSize..start % lay.chunkSize + take])
  {
    hide ChunkAt, Span, ByteAt;
    var c := lay.chunkSize;
    ChunkAtLength(k, f, lay, start / c);
    PieceWithinChunk(lay, |f| - FILE_HEADER_LEN, start, take);
    var out := chunk[start % c..start % c + take];
    forall q | start <= q < start + |out| ensures ByteAt(k, f, lay, q) == Some(out[q - start]) {
      hide *;
      SameChunk(c, start, q - start);
      ByteAtIs(k, f, lay, q, start / c, chunk, start % c + (q - start));
    }
  }

  lemma PieceWithinChunk(lay: Layout, size: nat, start: nat, take: nat)
    requires Fills(lay, size) && start < lay.plaintextLen
    requires start % lay.chunkSize + take <= lay.ChunkLen(start / lay.chunkSize)
    ensures start + take <= lay.plaintextLen && start % lay.chunkSize + take <= lay.chunkSize
  {
    Locate(lay, size, start);
    SpanGrows(start / lay.chunkSize, lay.chunkCount - 1, lay.chunkSize);
  }

  lemma SameChunk(c: nat, start: nat, j: nat)
    requires c > 0 && start % c + j < c
    ensures (start + j) / c == start / c && (start + j) % c == start % c + j
  {
    DivMod(start, c);
    QuotientIs(c, start / c, start % c + j);
  }

  // ── What was sealed is what is shown ────────────────────────────────────────

  /** The key a file was sealed under fits the chunk size its header names. */
  predicate HeaderFits(k: ChunkKey) {
    && k.Sized() && FILE_MAGIC <= k.header && 10 <= k.header[8] <= 20
    && k.header[9] == 0 && k.header[10] == 0 && k.header[11] == 0 && k.chunkSize == Pow2(k.header[8])
  }

  /** The layout of every file with this header is the arithmetic of its size. */
  lemma LayoutByHeader(k: ChunkKey, f: bytes)
    requires HeaderFits(k) && |f| >= FILE_HEADER_LEN && f[..FILE_HEADER_LEN] == k.header
    ensures |f| < FILE_HEADER_LEN + TAG_LEN ==> LayoutOf(f).Failure?
    ensures |f| >= FILE_HEADER_LEN + TAG_LEN ==>
      match LayoutFor(k.chunkSize, |f| - FILE_HEADER_LEN)
      case None => LayoutOf(f).Failure?
      case Some(lay) => LayoutOf(f) == Success(lay)
  {
    assert f[8] == k.header[8] && f[9] == k.header[9] && f[10] == k.header[10] && f[11] == k.header[11];
    assert f[..8] == k.header[..8];
    hide LayoutFor;
  }

  function LayoutOfPlain(k: ChunkKey, p: bytes): Layout
    requires k.Sized()
  {
    Layout(k.chunkSize, LastIndex(k.chunkSize, |p|) + 1, |p|)
  }

  lemma HeaderAndBody(header: bytes, body: bytes)
    requires |header| == FILE_HEADER_LEN
    ensures (header + body)[..FILE_HEADER_LEN] == header && (header + body)[FILE_HEADER_LEN..] == body
  {}

  lemma SealedBodyLength(k: ChunkKey, p: bytes)
    requires k.Sized() && k.aead.Lawful()
    ensures var n := LastIndex(k.chunkSize, |p|);
      |SealedBody(k, p)| == Span(n, k.chunkSize + TAG_LEN) + (|p| - Span(n, k.chunkSize)) + TAG_LEN
    ensures Fills(LayoutOfPlain(k, p), |SealedBody(k, p)|)
  {
    hide LastIndex, Fulls, Span, ChunkNonce;
    FullsLength(k, p, LastIndex(k.chunkSize, |p|));
  }

  lemma PlainLayoutIs(k: ChunkKey, p: bytes)
    requires HeaderFits(k)
    ensures k.Sized() && |k.header| == FILE_HEADER_LEN && SealedForm(k, p) == k.header + SealedBody(k, p)
    ensures LayoutOfPlain(k, p) == Layout(k.chunkSize, LastIndex(k.chunkSize, |p|) + 1, |p|)
  {}

  lemma LaidOutIs(f: bytes, body: bytes, lay: Layout)
    requires |f| >= FILE_HEADER_LEN && f[FILE_HEADER_LEN..] == body && Fills(lay, |body|)
    ensures LaidOut(f, lay) && |f| >= FILE_HEADER_LEN + TAG_LEN
  {
    hide Span;
  }

  lemma SealedFormLayout(k: ChunkKey, p: bytes)
    requires HeaderFits(k) && k.aead.Lawful()
    ensures var f := SealedForm(k, p);
      && |f| >= FILE_HEADER_LEN && LayoutOf(f) == Success(LayoutOfPlain(k, p)) && LaidOut(f, LayoutOfPlain(k, p))
      && f[..FILE_HEADER_LEN] == k.header && f[FILE_HEADER_LEN..] == SealedBody(k, p)
  {
    PlainLayoutIs(k, p);
    hide *;
    var f, body := SealedForm(k, p), SealedBody(k, p);
    SealedBodyLength(k, p);
    HeaderAndBody(k.header, body);
    LaidOutIs(f, body, LayoutOfPlain(k, p));
    LayoutOfSealedForm(k.chunkSize, |p|);
    LayoutByHeader(k, f);
  }

  /** The plaintext of chunk `i`. */
  function ChunkOf(k: ChunkKey, p: bytes, i: nat): bytes
    requires k.Sized() && i <= LastIndex(k.chunkSize, |p|)
  {
    var n := LastIndex(k.chunkSize, |p|);
    SpanGrows(i, n, k.chunkSize);
    if i == n then p[Span(n, k.chunkSize)..] else p[Span(i, k.chunkSize)..Span(i, k.chunkSize) + k.chunkSize]
  }

  lemma ChunkOfLength(k: ChunkKey, p: bytes, i: nat)
    requires k.Sized() && i <= LastIndex(k.chunkSize, |p|)
    ensures |ChunkOf(k, p, i)| == LayoutOfPlain(k, p).ChunkLen(i)
  {
    hide LastIndex;
    SpanGrows(i, LastIndex(k.chunkSize, |p|), k.chunkSize);
  }

  /** Each chunk of a sealed form is its piece of the plaintext, sealed at its index. */
  lemma SealedFormChunk(k: ChunkKey, p: bytes, i: nat)
    requires k.Sized() && k.aead.Lawful() && i <= LastIndex(k.chunkSize, |p|)
    ensures var n, at := LastIndex(k.chunkSize, |p|), Span(i, k.chunkSize + TAG_LEN);
      at + |ChunkOf(k, p, i)| + TAG_LEN <= |SealedBody(k, p)|
      && SealedBody(k, p)[at..at + |ChunkOf(k, p, i)| + TAG_LEN] == k.Seal(i, i == n, ChunkOf(k, p, i))
  {
    hide LastIndex, Fulls, Span, ChunkNonce;
    var n := LastIndex(k.chunkSize, |p|);
    SpanGrows(i, n, k.chunkSize);
    var last := k.Seal(n, true, p[Span(n, k.chunkSize)..]);
    FullsLength(k, p, n);
    if i < n {
      FullsAt(k, p, n, i);
      SliceOfFirst(Fulls(k, p, n), last, Span(i, k.chunkSize + TAG_LEN), Span(i, k.chunkSize + TAG_LEN) + k.chunkSize + TAG_LEN);
    } else {
      SliceOfSecond(Fulls(k, p, n), last);
    }
  }

  lemma ChunkAtSlice(k: ChunkKey, f: bytes, lay: Layout, i: nat, c: bytes)
    requires LaidOut(f, lay) && i < lay.chunkCount
    requires 0 <= lay.ChunkLen(i) && Offset(lay, i) + lay.ChunkLen(i) + TAG_LEN <= |f|
    requires c == f[Offset(lay, i)..Offset(lay, i) + lay.ChunkLen(i) + TAG_LEN]
    ensures ChunkAt(k, f, lay, i) == k.Open(i, i + 1 == lay.chunkCount, c)
  {
    hide Span, ChunkNonce;
  }

  lemma SealOpens(k: ChunkKey, i: nat, last: bool, plain: bytes)
    requires k.aead.Lawful()
    ensures k.Open(i, last, k.Seal(i, last, plain)) == Some(plain) && |k.Seal(i, last, plain)| == |plain| + TAG_LEN
  {}

  lemma ChunkFitsIn(f: bytes, lay: Layout, i: nat)
    requires LaidOut(f, lay) && i < lay.chunkCount
    ensures 0 <= lay.ChunkLen(i)
    ensures Offset(lay, i) == FILE_HEADER_LEN + Span(i, lay.chunkSize + TAG_LEN)
    ensures Offset(lay, i) + lay.ChunkLen(i) + TAG_LEN <= |f|
  {
    hide Span;
    ChunkFits(lay, |f| - FILE_HEADER_LEN, i);
  }

  lemma SealedFormOpens(k: ChunkKey, p: bytes, i: nat)
    requires HeaderFits(k) && k.aead.Lawful() && i <= LastIndex(k.chunkSize, |p|)
    requires LaidOut(SealedForm(k, p), LayoutOfPlain(k, p))
    ensures ChunkAt(k, SealedForm(k, p), LayoutOfPlain(k, p), i) == Some(ChunkOf(k, p, i))
  {
    PlainLayoutIs(k, p);
    hide *;
    var f, lay := SealedForm(k, p), LayoutOfPlain(k, p);
    SealedFormLayout(k, p);
    SealedFormChunk(k, p, i);
    ChunkOfLength(k, p, i);
    ChunkFitsIn(f, lay, i);
    var last := i == LastIndex(k.chunkSize, |p|);
    var c := k.Seal(i, last, ChunkOf(k, p, i));
    SealOpens(k, i, last, ChunkOf(k, p, i));
    SliceAfterHeader(f, SealedBody(k, p), Span(i, k.chunkSize + TAG_LEN), lay.ChunkLen(i) + TAG_LEN, c);
    ChunkAtSlice(k, f, lay, i, c);
  }

  lemma SliceAfterHeader(f: bytes, body: bytes, at: nat, n: nat, c: bytes)
    requires FILE_HEADER_LEN + at + n <= |f| && f[FILE_HEADER_LEN..] == body && at + n <= |body| && c == body[at..at + n]
    ensures f[FILE_HEADER_LEN + at..FILE_HEADER_LEN + at + n] == c
  {}

  lemma ByteOfChunk(k: ChunkKey, p: bytes, size: nat, q: nat)
    requires k.Sized() && q < |p| && Fills(LayoutOfPlain(k, p), size)
    ensures var i := q / k.chunkSize;
      i <= LastIndex(k.chunkSize, |p|) && q % k.chunkSize < |ChunkOf(k, p, i)| && ChunkOf(k, p, i)[q % k.chunkSize] == p[q]
  {
    hide LastIndex, Span, Fills;
    Locate(LayoutOfPlain(k, p), size, q);
    ChunkOfLength(k, p, q / k.chunkSize);
    SpanGrows(q / k.chunkSize, LastIndex(k.chunkSize, |p|), k.chunkSize);
  }

  lemma SealedFormByte(k: ChunkKey, p: bytes, q: nat)
    requires HeaderFits(k) && k.aead.Lawful() && q < |p|
    requires LaidOut(SealedForm(k, p), LayoutOfPlain(k, p))
    ensures ByteAt(k, SealedForm(k, p), LayoutOfPlain(k, p), q) == Some(p[q])
  {
    hide SealedForm, ChunkAt, ByteAt, ChunkOf, LastIndex, SealedBody, Span, Fills, Pow2;
    var f, lay, i := SealedForm(k, p), LayoutOfPlain(k, p), q / k.chunkSize;
    ByteOfChunk(k, p, |f| - FILE_HEADER_LEN, q);
    SealedFormOpens(k, p, i);
    ByteAtIs(k, f, lay, q, i, ChunkOf(k, p, i), q % k.chunkSize);
  }

  /** Round trip: the sealed form of a plaintext presents it, under the key it was sealed with. */
  lemma SealedFormPresents(k: ChunkKey, p: bytes)
    requires HeaderFits(k) && k.aead.Lawful()
    ensures LayoutOf(SealedForm(k, p)) == Success(LayoutOfPlain(k, p))
    ensures Presents(k, SealedForm(k, p), LayoutOfPlain(k, p), p)
  {
    assert k.Sized();
    hide LayoutOf, SealedForm, ChunkAt, ByteAt, HeaderFits, LaidOut, LastIndex;
    var f, lay := SealedForm(k, p), LayoutOfPlain(k, p);
    SealedFormLayout(k, p);
    forall i | 0 <= i < lay.chunkCount ensures ChunkAt(k, f, lay, i).Some? {
      SealedFormOpens(k, p, i);
    }
    forall q | 0 <= q < |p| ensures ByteAt(k, f, lay, q) == Some(p[q - 0]) {
      SealedFormByte(k, p, q);
    }
  }

  // ── The reader ──────────────────────────────────────────────────────────────

  datatype SeekFrom = FromStart(offset: nat) | FromEnd(delta: int) | FromCurrent(delta: int)

  function Clamped(start: nat, len: nat, plaintextLen: nat): nat {
    var end := if start + len > U64_MAX then U64_MAX else start + len;
    if end < plaintextLen then end else plaintextLen
  }

  lemma ClampedBounds(start: nat, len: nat, plaintextLen: nat)
    ensures Clamped(start, len, plaintextLen) <= plaintextLen
  {}

  /** How many bytes one read gives: never past the end of the chunk the cursor is in. */
  function ReadLen(lay: Layout, position: nat, n: nat): int {
    if position >= lay.plaintextLen || n == 0 || lay.chunkSize == 0 then 0
    else
      var left := lay.ChunkLen(ChunkIndex(lay, position)) - Within(lay, position);
      if n < left then n else left
  }

  /** The chunk a plaintext position is in, and how far into it. */
  function ChunkIndex(lay: Layout, position: nat): nat
    requires lay.chunkSize > 0
  {
    position / lay.chunkSize
  }

  function Within(lay: Layout, position: nat): nat
    requires lay.chunkSize > 0
  {
    position % lay.chunkSize
  }

  lemma ReadLenIs(lay: Layout, position: nat, n: nat)
    ensures position >= lay.plaintextLen || n == 0 ==> ReadLen(lay, position, n) == 0
    ensures position < lay.plaintextLen && n > 0 && lay.chunkSize > 0 ==>
      var left := lay.ChunkLen(ChunkIndex(lay, position)) - Within(lay, position);
      ReadLen(lay, position, n) == if n < left then n else left
  {
    hide ChunkIndex, Within;
  }

  function SeekTarget(from: SeekFrom, position: nat, plaintextLen: nat): int {
    match from
    case FromStart(offset) => offset
    case FromEnd(delta) => plaintextLen + delta
    case FromCurrent(delta) => position + delta
  }

  class SealedFileReader {
    const inner: bytes
    const k: ChunkKey
    const lay: Layout
    const retired: bool
    var position: nat
    var cached: Option<(nat, bytes)>

    ghost predicate Valid() reads this {
      && LaidOut(inner, lay) && k.aead.Lawful()
      && (cached.Some? ==> cached.value.0 < lay.chunkCount && ChunkAt(k, inner, lay, cached.value.0) == Some(cached.value.1))
    }

    constructor (inner: bytes, k: ChunkKey, lay: Layout, retired: bool)
      requires LaidOut(inner, lay) && k.aead.Lawful()
      ensures Valid() && this.inner == inner && this.k == k && this.lay == lay && this.retired == retired && position == 0
    {
      this.inner, this.k, this.lay, this.retired, this.position, this.cached := inner, k, lay, retired, 0, None;
    }

    /** Bring one chunk into the cache; the cache only ever holds a chunk that opened, at its own index. */
    method LoadChunk(index: nat) returns (r: Result<(), FileError>)
      requires Valid()
      modifies this`cached
      ensures Valid()
      ensures r == if index >= lay.chunkCount then Failure(OutOfRange(index))
                   else if ChunkAt(k, inner, lay, index).None? then Failure(ChunkFails(index)) else Success(())
      ensures cached == if r.Success? then Some((index, ChunkAt(k, inner, lay, index).value)) else old(cached)
    {
      hide ChunkAt, Fills, Span;
      if cached.Some? && cached.value.0 == index { return Success(()); }
      if index >= lay.chunkCount { return Failure(OutOfRange(index)); }
      var opening := ChunkAt(k, inner, lay, index);
      if opening.None? { return Failure(ChunkFails(index)); }
      cached := Some((index, opening.value));
      return Success(());
    }

    /** What the chunk that holds `at` has from there on, at most `n` bytes of it. */
    method Piece(at: nat, n: nat) returns (r: Result<bytes, FileError>)
      requires Valid() && at < lay.plaintextLen && n > 0
      modifies this`cached
      ensures Valid()
      ensures 0 < ReadLen(lay, at, n) <= n
      ensures r.Success? ==> |r.value| == ReadLen(lay, at, n) && Shows(k, inner, lay, at, r.value)
      ensures r.Failure? ==> !AllOpen(k, inner, lay)
    {
      ReaderIsLaidOut(this);
      ReadLenIs(lay, at, n);
      hide *;
      PieceAt(k, inner, lay, at, n);
      var index := ChunkIndex(lay, at);
      var loaded := LoadChunk(index);
      if loaded.Failure? { return Failure(loaded.error); }
      var chunk, within := cached.value.1, Within(lay, at);
      var take := if n < |chunk| - within then n else |chunk| - within;
      return Success(chunk[within..within + take]);
    }

    /** Exactly the bytes of a range, clamped to the end of the file. */
    method ReadRange(start: nat, len: nat) returns (r: Result<bytes, FileError>)
      requires Valid() && start <= U64_MAX && len <= U64_MAX
      modifies this`cached
      ensures Valid()
      ensures r.Success? ==>
        var end := Clamped(start, len, lay.plaintextLen);
        if start >= end then r.value == [] else |r.value| == end - start && Shows(k, inner, lay, start, r.value)
      ensures r.Failure? ==> !AllOpen(k, inner, lay)
    {
      ReaderIsLaidOut(this);
      ClampedBounds(start, len, lay.plaintextLen);
      hide *;
      var end := Clamped(start, len, lay.plaintextLen);
      if start >= end { return Success([]); }
      var out: bytes := [];
      var at := start;
      ShowsNothing(k, inner, lay, start);
      while at < end
        invariant Valid() && start <= at <= end <= lay.plaintextLen && at == start + |out|
        invariant Shows(k, inner, lay, start, out)
      {
        var piece := Piece(at, end - at);
        if piece.Failure? { return Failure(piece.error); }
        ShowsMore(k, inner, lay, start, out, piece.value);
        out := out + piece.value;
        at := at + |piece.value|;
      }
      return Success(out);
    }

    /** Read on from the cursor, at most `n` bytes. */
    method Read(n: nat) returns (r: Result<bytes, FileError>)
      requires Valid()
      modifies this`cached, this`position
      ensures Valid()
      ensures r.Success? ==> |r.value| == ReadLen(lay, old(position), n) && position == old(position) + |r.value|
      ensures r.Success? && old(position) <= lay.plaintextLen ==> Shows(k, inner, lay, old(position), r.value)
      ensures old(position) < lay.plaintextLen && n > 0 ==> ReadLen(lay, old(position), n) > 0
      ensures r.Failure? ==> position == old(position) && !AllOpen(k, inner, lay)
    {
      ReaderIsLaidOut(this);
      ReadLenIs(lay, position, n);
      hide *;
      if position >= lay.plaintextLen || n == 0 {
        if position <= lay.plaintextLen { ShowsNothing(k, inner, lay, position); }
        return Success([]);
      }
      r := Piece(position, n);
      if r.Success? { Advance(|r.value|); }
    }

    method Advance(n: nat)
      requires Valid()
      modifies this`position
      ensures Valid() && position == old(position) + n
    {
      position := position + n;
    }

    /** Move the cursor; the target is kept modulo 2^64. */
    method Seek(from: SeekFrom) returns (r: Result<nat, FileError>)
      requires Valid()
      modifies this`position
      ensures Valid()
      ensures var target := SeekTarget(from, old(position), lay.plaintextLen);
        r == if target < 0 then Failure(BeforeStart) else Success(target % (U64_MAX + 1))
      ensures position == if r.Success? then r.value else old(position)
    {
      hide ChunkAt, Fills, Span;
      var target := SeekTarget(from, position, lay.plaintextLen);
      if target < 0 { return Failure(BeforeStart); }
      position := target % (U64_MAX + 1);
      return Success(position);
    }
  }

  /** A seek one byte past the largest offset lands at the start of the file. */
  method SeekPastTheLargestOffset(reader: SealedFileReader)
    requires reader.Valid()
    modifies reader`position
    ensures reader.Valid() && reader.position == 0
  {
    var _ := reader.Seek(FromStart(U64_MAX));
    var _ := reader.Seek(FromCurrent(1));
  }

  /** What one step of a read finds at `at`: the rest of the chunk that holds it, or a chunk that does not open. */
  lemma PieceAt(k: ChunkKey, f: bytes, lay: Layout, at: nat, n: nat)
    requires LaidOut(f, lay) && k.aead.Lawful() && at < lay.plaintextLen
    ensures lay.chunkSize > 0 && ChunkIndex(lay, at) < lay.chunkCount
    ensures var left := lay.ChunkLen(ChunkIndex(lay, at)) - Within(lay, at); left > 0
    ensures ChunkAt(k, f, lay, ChunkIndex(lay, at)).None? ==> !AllOpen(k, f, lay)
    ensures ChunkAt(k, f, lay, ChunkIndex(lay, at)).Some? ==>
      var chunk, within := ChunkAt(k, f, lay, ChunkIndex(lay, at)).value, Within(lay, at);
      && |chunk| == lay.ChunkLen(ChunkIndex(lay, at))
      && var take := if n < |chunk| - within then n else |chunk| - within;
         Shows(k, f, lay, at, chunk[within..within + take])
  {
    hide ChunkAt, Shows, Span;
    Locate(lay, |f| - FILE_HEADER_LEN, at);
    ChunkAtLength(k, f, lay, at / lay.chunkSize);
    if ChunkAt(k, f, lay, at / lay.chunkSize).Some? {
      var chunk, within := ChunkAt(k, f, lay, at / lay.chunkSize).value, at % lay.chunkSize;
      ChunkShows(k, f, lay, at, chunk, if n < |chunk| - within then n else |chunk| - within);
    }
  }

  // ── Opening ─────────────────────────────────────────────────────────────────

  /** Whether the last chunk, which opening verifies, opens under the `i`-th key. */
  predicate OpensUnder(v: Vault, f: bytes, lay: Layout, i: nat)
    requires LaidOut(f, lay) && i < |v.Keys()|
  {
    ChunkAt(ChunkKeyOf(v, f[..FILE_HEADER_LEN], i), f, lay, lay.chunkCount - 1).Some?
  }

  /** The reader a file opens to: the first key that opens the last chunk, at position 0. */
  ghost predicate OpenedBy(v: Vault, f: bytes, lay: Layout, r: SealedFileReader, i: nat)
    requires LaidOut(f, lay)
    reads r
  {
    && i < |v.Keys()| && OpensUnder(v, f, lay, i) && (forall j :: 0 <= j < i ==> !OpensUnder(v, f, lay, j))
    && r.Valid() && r.inner == f && r.lay == lay && r.position == 0
    && r.k == ChunkKeyOf(v, f[..FILE_HEADER_LEN], i) && r.retired == (i > 0)
  }

  lemma LayoutIsLaidOut(f: bytes)
    requires LayoutOf(f).Success?
    ensures LaidOut(f, LayoutOf(f).value)
  {
    hide LayoutOf;
    LayoutOfFills(f);
  }

  method Open(v: Vault, f: bytes) returns (r: Result<SealedFileReader, FileError>, ghost which: nat)
    requires v.cipher.aead.Lawful()
    ensures LayoutOf(f).Failure? ==> r == Failure(LayoutOf(f).error)
    ensures LayoutOf(f).Success? ==> LaidOut(f, LayoutOf(f).value)
    ensures LayoutOf(f).Success? && r.Failure? ==>
      r.error == FileError.DoesNotOpenAnywhere && forall i :: 0 <= i < |v.Keys()| ==> !OpensUnder(v, f, LayoutOf(f).value, i)
    ensures r.Success? ==> LayoutOf(f).Success? && fresh(r.value) && OpenedBy(v, f, LayoutOf(f).value, r.value, which)
  {
    var layout := LayoutOf(f);
    which := 0;
    if layout.Failure? { return Failure(layout.error), 0; }
    LayoutIsLaidOut(f);
    var lay := layout.value;
    assert lay.chunkCount > 0;
    hide ChunkAt, LayoutOf, Fills, Span, LaidOut, ChunkNonce, Pow2;
    for i := 0 to |v.Keys()|
      invariant forall j :: 0 <= j < i ==> !OpensUnder(v, f, lay, j)
    {
      var k := ChunkKeyOf(v, f[..FILE_HEADER_LEN], i);
      var reader := new SealedFileReader(f, k, lay, i > 0);
      var loaded := reader.LoadChunk(lay.chunkCount - 1);
      if loaded.Success? {
        return Success(reader), i;
      }
    }
    r := Failure(FileError.DoesNotOpenAnywhere);
  }

  /** Read from the cursor to the end. */
  method ReadToEnd(reader: SealedFileReader, bufferSize: nat) returns (r: Result<bytes, FileError>)
    requires reader.Valid() && reader.position <= reader.lay.plaintextLen && bufferSize > 0
    modifies reader
    ensures reader.Valid()
    ensures r.Success? ==>
      old(reader.position) + |r.value| == reader.lay.plaintextLen
      && Shows(reader.k, reader.inner, reader.lay, old(reader.position), r.value)
    ensures r.Failure? ==> !AllOpen(reader.k, reader.inner, reader.lay)
  {
    hide LaidOut, Shows, ChunkAt, Span, ReadLen;
    var out: bytes := [];
    ReaderIsLaidOut(reader);
    ShowsNothing(reader.k, reader.inner, reader.lay, reader.position);
    while true
      invariant reader.Valid() && reader.position <= reader.lay.plaintextLen
      invariant reader.position == old(reader.position) + |out|
      invariant Shows(reader.k, reader.inner, reader.lay, old(reader.position), out)
      decreases reader.lay.plaintextLen - reader.position
    {
      ghost var at := reader.position;
      var piece := reader.Read(bufferSize);
      if piece.Failure? { return Failure(piece.error); }
      ShowsWithin(reader.k, reader.inner, reader.lay, at, piece.value);
      if piece.value == [] { return Success(out); }
      ShowsMore(reader.k, reader.inner, reader.lay, old(reader.position), out, piece.value);
      out := out + piece.value;
    }
  }

  lemma ReaderIsLaidOut(reader: SealedFileReader)
    requires reader.Valid()
    ensures LaidOut(reader.inner, reader.lay) && reader.k.aead.Lawful()
  {}

  lemma ShowsWithin(k: ChunkKey, f: bytes, lay: Layout, start: nat, out: bytes)
    requires Shows(k, f, lay, start, out)
    ensures start + |out| <= lay.plaintextLen
  {}

  /** Everything a file shows, from its start. */
  lemma AllIsShown(k: ChunkKey, f: bytes, lay: Layout, p: bytes, out: bytes)
    requires Presents(k, f, lay, p) && Shows(k, f, lay, 0, out) && |out| == lay.plaintextLen
    ensures out == p
  {
    ShownIsSlice(k, f, lay, p, 0, out);
  }

  // ── Reading is a cursor over the plaintext ──────────────────────────────────

  datatype Request = ReadOn(n: nat) | SeekTo(from: SeekFrom) | Range(start: nat, len: nat)

  datatype Reply = Data(data: bytes) | At(position: nat) | Refused

  /** A cursor over a plaintext, as a reference. */
  function Reference(p: bytes, lay: Layout, position: nat, request: Request): (r: (Reply, nat))
    requires lay.plaintextLen == |p|
  {
    match request
    case ReadOn(n) =>
      var len := ReadLen(lay, position, n);
      if 0 <= len && position + len <= |p| then (Data(p[position..position + len]), position + len) else (Data([]), position)
    case SeekTo(from) =>
      var target := SeekTarget(from, position, |p|);
      if target < 0 then (Refused, position) else (At(target % (U64_MAX + 1)), target % (U64_MAX + 1))
    case Range(start, len) =>
      var end := Clamped(start, len, |p|);
      (Data(if start >= end then [] else p[start..end]), position)
  }

  lemma LeftInChunk(lay: Layout, size: nat, at: nat)
    requires Fills(lay, size) && at < lay.plaintextLen
    ensures var left := lay.ChunkLen(ChunkIndex(lay, at)) - Within(lay, at); 0 < left && at + left <= lay.plaintextLen
  {
    Locate(lay, size, at);
    var i := at / lay.chunkSize;
    SpanGrows(i, lay.chunkCount - 1, lay.chunkSize);
  }

  /**
   What each request of the reference means: a read gives bytes from the cursor on, at most as many as
   asked for and at least one before the end; a seek goes to its target, modulo 2^64, unless that is
   before the start; a range gives what the plaintext has of it.
   */
  lemma ReferenceMeans(p: bytes, lay: Layout, size: nat, position: nat, request: Request)
    requires lay.plaintextLen == |p| && Fills(lay, size)
    ensures var (reply, next) := Reference(p, lay, position, request);
      match request
      case ReadOn(n) =>
        && reply.Data? && next == position + |reply.data| && |reply.data| <= n
        && (reply.data == [] <==> n == 0 || position >= |p|)
        && (reply.data != [] ==> next <= |p| && reply.data == p[position..next])
      case SeekTo(FromStart(offset)) => offset <= U64_MAX ==> reply == At(offset) && next == offset
      case SeekTo(FromEnd(delta)) =>
        if |p| + delta < 0 then reply == Refused && next == position
        else |p| + delta <= U64_MAX ==> reply == At(|p| + delta) && next == |p| + delta
      case SeekTo(FromCurrent(delta)) =>
        if position + delta < 0 then reply == Refused && next == position
        else position + delta <= U64_MAX ==> reply == At(position + delta) && next == position + delta
      case Range(start, len) =>
        && reply.Data? && next == position
        && (start + len <= |p| <= U64_MAX ==> reply.data == p[start..start + len])
        && (start <= |p| < start + len && |p| <= U64_MAX ==> reply.data == p[start..])
        && (start > |p| ==> reply.data == [])
  {
    match request
    case ReadOn(n) =>
      if position < |p| { LeftInChunk(lay, size, position); }
      ReadLenIs(lay, position, n);
      hide ReadLen, ChunkIndex, Within, Fills;
    case _ =>
  }

  function References(p: bytes, lay: Layout, position: nat, requests: seq<Request>): (r: (seq<Reply>, nat))
    requires lay.plaintextLen == |p|
  {
    if requests == [] then ([], position)
    else
      var before := References(p, lay, position, requests[..|requests| - 1]);
      var last := Reference(p, lay, before.1, requests[|requests| - 1]);
      (before.0 + [last.0], last.1)
  }

  method Answer(reader: SealedFileReader, request: Request, ghost p: bytes) returns (reply: Reply)
    requires reader.Valid() && Presents(reader.k, reader.inner, reader.lay, p)
    requires request.Range? ==> request.start <= U64_MAX && request.len <= U64_MAX
    modifies reader
    ensures reader.Valid() && (reply, reader.position) == Reference(p, reader.lay, old(reader.position), request)
  {
    PresentsLength(reader.k, reader.inner, reader.lay, p);
    hide LaidOut, Shows, ChunkAt, Span, AllOpen, ReadLen, Presents;
    match request {
      case ReadOn(n) =>
        ghost var at := reader.position;
        var piece := reader.Read(n);
        ReadIsSlice(reader.k, reader.inner, reader.lay, p, at, n, piece.value);
        return Data(piece.value);
      case SeekTo(from) =>
        var moved := reader.Seek(from);
        return if moved.Success? then At(moved.value) else Refused;
      case Range(start, len) =>
        var range := reader.ReadRange(start, len);
        ghost var end := Clamped(start, len, |p|);
        if start < end { ShownIsSlice(reader.k, reader.inner, reader.lay, p, start, range.value); }
        return Data(range.value);
    }
  }

  lemma PresentsLength(k: ChunkKey, f: bytes, lay: Layout, p: bytes)
    requires Presents(k, f, lay, p)
    ensures lay.plaintextLen == |p| && AllOpen(k, f, lay)
  {}

  lemma ReadIsSlice(k: ChunkKey, f: bytes, lay: Layout, p: bytes, at: nat, n: nat, piece: bytes)
    requires Presents(k, f, lay, p) && |piece| == ReadLen(lay, at, n)
    requires at <= lay.plaintextLen ==> Shows(k, f, lay, at, piece)
    ensures lay.plaintextLen == |p|
    ensures (Data(piece), at + |piece|) == Reference(p, lay, at, ReadOn(n))
  {
    hide AllOpen, LaidOut, ChunkAt, Span;
    if at <= lay.plaintextLen { ShownIsSlice(k, f, lay, p, at, piece); }
  }

  /** Any mix of reads, seeks and range reads through the one-chunk cache answers as a cursor over the plaintext. */
  method AnswerAll(reader: SealedFileReader, requests: seq<Request>, ghost p: bytes) returns (replies: seq<Reply>)
    requires reader.Valid() && Presents(reader.k, reader.inner, reader.lay, p)
    requires forall q :: q in requests && q.Range? ==> q.start <= U64_MAX && q.len <= U64_MAX
    modifies reader
    ensures reader.Valid() && reader.lay.plaintextLen == |p|
    ensures (replies, reader.position) == References(p, reader.lay, old(reader.position), requests)
  {
    PresentsLength(reader.k, reader.inner, reader.lay, p);
    hide LaidOut, Presents, ChunkAt, Reference;
    replies := [];
    for n := 0 to |requests|
      invariant reader.Valid() && reader.lay.plaintextLen == |p|
      invariant (replies, reader.position) == References(p, reader.lay, old(reader.position), requests[..n])
    {
      assert requests[n] in requests && requests[..n + 1][..n] == requests[..n];
      var reply := Answer(reader, requests[n], p);
      replies := replies + [reply];
    }
    assert requests[..|requests|] == requests;
  }
}
