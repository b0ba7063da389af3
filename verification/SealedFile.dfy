/**
 `RYU-SF01`, the write-once sealed file: a 32-byte header, then chunks of one size, each sealed
 under a nonce that holds its index and whether it is the last one.
 */
module SealedFile {
  import opened Wrappers
  import opened Bytes
  import opened Content
  import opened Spans

  const FILE_HEADER_LEN := 32
  const FILE_SALT_LEN := 20
  const U64_MAX := 0xFFFF_FFFF_FFFF_FFFF

  // ── The format ──────────────────────────────────────────────────────────────

  function Pow2(n: nat): (p: nat)
    ensures p >= 1
  {
    if n == 0 then 1 else 2 * Pow2(n - 1)
  }

  /** The AEAD of one file: its derived key, its header and its chunk size. */
  datatype ChunkKey = ChunkKey(aead: Aead, key: AeadKey, header: bytes, chunkSize: nat)
  {
    predicate Sized() { chunkSize > 0 && |header| == FILE_HEADER_LEN }

    function Seal(index: nat, last: bool, plain: bytes): bytes {
      aead.seal(key, ChunkNonce(index, last), header, plain)
    }

    function Open(index: nat, last: bool, sealed: bytes): Option<bytes> {
      aead.open(key, ChunkNonce(index, last), header, sealed)
    }
  }

  /** Three zero bytes, the index as a 64-bit big-endian integer, and the last-chunk flag. */
  function ChunkNonce(index: nat, last: bool): (nonce: bytes)
    ensures |nonce| == NONCE_LEN
  {
    [0, 0, 0] + BigEndian(index, 8) + [if last then 1 else 0]
  }

  /** Within a file no two chunks share a nonce, nor do the last and a non-last chunk. */
  lemma NoncesDistinct(i: nat, last: bool, j: nat, last': bool)
    requires i <= U64_MAX && j <= U64_MAX
    requires ChunkNonce(i, last) == ChunkNonce(j, last')
    ensures i == j && last == last'
  {
    var a, b := ChunkNonce(i, last), ChunkNonce(j, last');
    Widths();
    BigEndianRoundTrip(i, 8);
    BigEndianRoundTrip(j, 8);
    assert a[3..11] == BigEndian(i, 8) && b[3..11] == BigEndian(j, 8);
    assert a[11] == (if last then 1 else 0) && b[11] == (if last' then 1 else 0);
  }

  /** The first `n` chunks of `p`, none of them the last. */
  function Fulls(k: ChunkKey, p: bytes, n: nat): bytes
    requires k.Sized() && Span(n, k.chunkSize) <= |p|
  {
    if n == 0 then []
    else
      Fulls(k, p, n - 1) + k.Seal(n - 1, false, p[Span(n - 1, k.chunkSize)..Span(n, k.chunkSize)])
  }

  /** The index of the last chunk; the empty file has one empty chunk. */
  function LastIndex(chunkSize: nat, length: nat): (n: nat)
    requires chunkSize > 0
    ensures Span(n, chunkSize) <= length && length - Span(n, chunkSize) <= chunkSize
    ensures n > 0 ==> length - Span(n, chunkSize) > 0
  {
    var n := if length == 0 then 0 else (length - 1) / chunkSize;
    LastIndexBounds(chunkSize, length, n);
    n
  }

  lemma LastIndexBounds(c: nat, length: nat, n: nat)
    requires c > 0 && n == if length == 0 then 0 else (length - 1) / c
    ensures Span(n, c) <= length <= Span(n, c) + c && (n > 0 ==> length > Span(n, c))
  {
    if length > 0 { DivMod(length - 1, c); }
  }

  lemma LastIndexIs(c: nat, length: nat, n: nat)
    requires c > 0 && Span(n, c) <= length <= Span(n, c) + c && (n > 0 ==> length > Span(n, c))
    ensures LastIndex(c, length) == n
  {
    if length > 0 {
      QuotientIs(c, n, length - 1 - Span(n, c));
    }
  }

  function SealedBody(k: ChunkKey, p: bytes): bytes
    requires k.Sized()
  {
    var n := LastIndex(k.chunkSize, |p|);
    Fulls(k, p, n) + k.Seal(n, true, p[Span(n, k.chunkSize)..])
  }

  /** The sealed form of a plaintext: what the file holds, however it was written. */
  function SealedForm(k: ChunkKey, p: bytes): bytes
    requires k.Sized()
  {
    k.header + SealedBody(k, p)
  }

  lemma {:induction false} FullsPrefix(k: ChunkKey, p: bytes, q: bytes, n: nat)
    requires k.Sized() && Span(n, k.chunkSize) <= |p| && p <= q
    ensures Fulls(k, p, n) == Fulls(k, q, n)
  {
    if n > 0 {
      FullsPrefix(k, p, q, n - 1);
      assert p[Span(n - 1, k.chunkSize)..Span(n, k.chunkSize)] == q[Span(n - 1, k.chunkSize)..Span(n, k.chunkSize)];
    }
  }

  lemma {:induction false} FullsLength(k: ChunkKey, p: bytes, n: nat)
    requires k.Sized() && k.aead.Lawful() && Span(n, k.chunkSize) <= |p|
    ensures |Fulls(k, p, n)| == Span(n, k.chunkSize + TAG_LEN)
  {
    if n > 0 {
      FullsLength(k, p, n - 1);
    }
  }

  lemma SliceOfFirst(a: bytes, b: bytes, i: nat, j: nat)
    requires i <= j <= |a|
    ensures (a + b)[i..j] == a[i..j]
  {}

  lemma SliceOfSecond(a: bytes, b: bytes)
    ensures (a + b)[|a|..|a| + |b|] == b
  {}

  lemma MovePiece(done: bytes, rest: bytes, n: nat)
    requires n <= |rest|
    ensures done + rest[..n] + rest[n..] == done + rest && |rest[..n]| == n && |rest[n..]| == |rest| - n
  {
    assert rest == rest[..n] + rest[n..];
  }

  lemma FullsStep(k: ChunkKey, p: bytes, n: nat)
    requires k.Sized() && k.aead.Lawful() && n > 0 && Span(n, k.chunkSize) <= |p|
    ensures Span(n, k.chunkSize) == Span(n - 1, k.chunkSize) + k.chunkSize
    ensures |Fulls(k, p, n - 1)| == Span(n - 1, k.chunkSize + TAG_LEN)
    ensures Fulls(k, p, n)
         == Fulls(k, p, n - 1) + k.Seal(n - 1, false, p[Span(n - 1, k.chunkSize)..Span(n, k.chunkSize)])
    ensures |Fulls(k, p, n)| == Span(n, k.chunkSize + TAG_LEN) == Span(n - 1, k.chunkSize + TAG_LEN) + k.chunkSize + TAG_LEN
  {
    FullsLength(k, p, n - 1);
  }

  /** Every non-last chunk stands at its place. */
  lemma {:induction false} FullsAt(k: ChunkKey, p: bytes, n: nat, i: nat)
    requires k.Sized() && k.aead.Lawful() && Span(n, k.chunkSize) <= |p| && i < n
    ensures Span(i, k.chunkSize) + k.chunkSize <= |p|
    ensures var at := Span(i, k.chunkSize + TAG_LEN);
      at + k.chunkSize + TAG_LEN <= |Fulls(k, p, n)|
      && Fulls(k, p, n)[at..at + k.chunkSize + TAG_LEN]
         == k.Seal(i, false, p[Span(i, k.chunkSize)..Span(i, k.chunkSize) + k.chunkSize])
    decreases n
  {
    FullsStep(k, p, n);
    hide Fulls, Span;
    var before, last := Fulls(k, p, n - 1), k.Seal(n - 1, false, p[Span(n - 1, k.chunkSize)..Span(n, k.chunkSize)]);
    if i < n - 1 {
      FullsAt(k, p, n - 1, i);
      SliceOfFirst(before, last, Span(i, k.chunkSize + TAG_LEN), Span(i, k.chunkSize + TAG_LEN) + k.chunkSize + TAG_LEN);
    } else {
      SliceOfSecond(before, last);
    }
  }

  // ── The writer ──────────────────────────────────────────────────────────────

  datatype FileError = BadChunkSize | Truncated | NotASealedFile | UnsupportedHeader | Malformed | DoesNotOpenAnywhere
    | ChunkFails(index: nat) | OutOfRange(index: nat) | BeforeStart

  function BuildHeader(chunkLog2: byte, salt: bytes): (header: bytes)
    requires |salt| == FILE_SALT_LEN
    ensures |header| == FILE_HEADER_LEN
  {
    FILE_MAGIC + [chunkLog2, 0, 0, 0] + salt
  }

  function ChunkKeyOf(v: Vault, header: bytes, i: nat): ChunkKey
    requires |header| == FILE_HEADER_LEN && i < |v.Keys()|
  {
    ChunkKey(v.cipher.aead, v.FileKey(header[12..], i), header, Pow2(header[8]))
  }

  /** A file partway through being written: `n` chunks are sealed, and one more is in the buffer. */
  ghost predicate Buffered(k: ChunkKey, sink: bytes, buffer: bytes, n: nat, written: bytes) {
    && k.Sized() && Span(n, k.chunkSize) <= |written|
    && sink == k.header + Fulls(k, written, n)
    && buffer == written[Span(n, k.chunkSize)..] && |buffer| <= k.chunkSize
  }

  lemma SealingBuffered(k: ChunkKey, sink: bytes, buffer: bytes, n: nat, written: bytes)
    requires Buffered(k, sink, buffer, n, written) && |buffer| == k.chunkSize
    ensures Buffered(k, sink + k.Seal(n, false, buffer), [], n + 1, written)
  {
    assert written[Span(n, k.chunkSize)..] == written[Span(n, k.chunkSize)..Span(n + 1, k.chunkSize)];
    assert k.header + Fulls(k, written, n) + k.Seal(n, false, buffer) == k.header + (Fulls(k, written, n) + k.Seal(n, false, buffer));
  }

  lemma FillingBuffered(k: ChunkKey, sink: bytes, buffer: bytes, n: nat, written: bytes, piece: bytes)
    requires Buffered(k, sink, buffer, n, written) && |buffer| + |piece| <= k.chunkSize
    ensures Buffered(k, sink, buffer + piece, n, written + piece)
  {
    FullsPrefix(k, written, written + piece, n);
  }

  lemma LastChunkCompletes(k: ChunkKey, sink: bytes, buffer: bytes, n: nat, written: bytes)
    requires Buffered(k, sink, buffer, n, written) && LastIndex(k.chunkSize, |written|) == n
    ensures sink + k.Seal(n, true, buffer) == SealedForm(k, written)
  {
    hide LastIndex, Span, ChunkNonce;
    assert k.header + Fulls(k, written, n) + k.Seal(n, true, buffer) == k.header + (Fulls(k, written, n) + k.Seal(n, true, buffer));
  }

  class SealedFileWriter {
    const k: ChunkKey
    var sink: bytes
    var buffer: bytes
    var nextIndex: nat
    var plaintextLen: nat
    /** All the plaintext written so far. */
    ghost var written: bytes

    ghost predicate Valid() reads this {
      Buffered(k, sink, buffer, nextIndex, written) && (nextIndex > 0 ==> buffer != []) && plaintextLen == |written|
    }

    constructor (v: Vault, chunkLog2: byte, salt: bytes)
      requires 10 <= chunkLog2 <= 20 && |salt| == FILE_SALT_LEN
      ensures Valid() && written == [] && k == ChunkKeyOf(v, BuildHeader(chunkLog2, salt), 0)
      ensures sink == k.header
    {
      var header := BuildHeader(chunkLog2, salt);
      k := ChunkKeyOf(v, header, 0);
      sink, buffer, nextIndex, plaintextLen, written := header, [], 0, 0, [];
    }

    /** Seal the buffered chunk. */
    method SealChunk(last: bool)
      modifies this`sink, this`buffer, this`nextIndex
      ensures sink == old(sink) + k.Seal(old(nextIndex), last, old(buffer))
      ensures buffer == [] && nextIndex == old(nextIndex) + 1
    {
      sink := sink + k.Seal(nextIndex, last, buffer);
      nextIndex := nextIndex + 1;
      buffer := [];
    }

    /** Append plaintext; a full chunk is sealed only once more data follows. */
    method WritePlain(data: bytes)
      requires Valid()
      modifies this
      ensures Valid() && written == old(written) + data
    {
      BufferFits(k, sink, buffer, nextIndex, written);
      hide *;
      plaintextLen := plaintextLen + |data|;
      var rest := data;
      ghost var before := written;
      while rest != []
        invariant Buffered(k, sink, buffer, nextIndex, written) && |buffer| <= k.chunkSize && k.chunkSize > 0
        invariant nextIndex > 0 ==> buffer != []
        invariant written + rest == before + data && plaintextLen == |before| + |data|
        decreases |rest|
      {
        if |buffer| == k.chunkSize {
          SealingBuffered(k, sink, buffer, nextIndex, written);
          SealChunk(false);
        }
        var room := k.chunkSize - |buffer|;
        var take := if room < |rest| then room else |rest|;
        FillingBuffered(k, sink, buffer, nextIndex, written, rest[..take]);
        MovePiece(written, rest, take);
        buffer := buffer + rest[..take];
        written := written + rest[..take];
        rest := rest[take..];
      }
    }

    /** Seal the last chunk. The file depends on the plaintext alone, not on how it was split into writes. */
    method Finish() returns (file: bytes, length: nat)
      requires Valid()
      modifies this
      ensures file == SealedForm(k, written) && length == |written| && written == old(written)
    {
      BufferFits(k, sink, buffer, nextIndex, written);
      LastIndexIs(k.chunkSize, |written|, nextIndex);
      LastChunkCompletes(k, sink, buffer, nextIndex, written);
      SealChunk(true);
      return sink, plaintextLen;
    }
  }

  lemma BufferFits(k: ChunkKey, sink: bytes, buffer: bytes, n: nat, written: bytes)
    requires Buffered(k, sink, buffer, n, written)
    ensures k.Sized() && |buffer| <= k.chunkSize && Span(n, k.chunkSize) <= |written| <= Span(n, k.chunkSize) + k.chunkSize
    ensures |buffer| == |written| - Span(n, k.chunkSize)
  {}

  /** Start a sealed file; the salt is random. */
  method CreateWriter(v: Vault, chunkLog2: byte, salt: bytes) returns (r: Result<SealedFileWriter, FileError>)
    requires |salt| == FILE_SALT_LEN
    ensures r.Failure? <==> !(10 <= chunkLog2 <= 20)
    ensures r.Success? ==> fresh(r.value) && r.value.Valid() && r.value.written == []
    ensures r.Success? ==> r.value.k == ChunkKeyOf(v, BuildHeader(chunkLog2, salt), 0)
  {
    if !(10 <= chunkLog2 <= 20) { return Failure(BadChunkSize); }
    var w := new SealedFileWriter(v, chunkLog2, salt);
    return Success(w);
  }

  // ── Where the chunks of a file are ──────────────────────────────────────────

  datatype Layout = Layout(chunkSize: nat, chunkCount: nat, plaintextLen: nat)
  {
    /** The plaintext bytes in chunk `i`. */
    function ChunkLen(i: nat): int {
      if i + 1 == chunkCount then plaintextLen - Span(i, chunkSize) else chunkSize
    }
  }

  /** The chunk count and plaintext length of a body of `size` bytes, `None` when no file has that size. */
  function LayoutFor(c: nat, size: nat): (r: Option<Layout>)
    requires c > 0
  {
    var full, rem := size / (c + TAG_LEN), size % (c + TAG_LEN);
    if rem == 0 then Some(Layout(c, full, full * c))
    else if rem < TAG_LEN then None
    else Some(Layout(c, full + 1, full * c + (rem - TAG_LEN)))
  }

  /** The chunks of a layout fill the body exactly. */
  ghost predicate Fills(lay: Layout, size: int) {
    && lay.chunkSize > 0 && lay.chunkCount > 0
    && 0 <= lay.ChunkLen(lay.chunkCount - 1) <= lay.chunkSize
    && size == Span(lay.chunkCount - 1, lay.chunkSize + TAG_LEN) + lay.ChunkLen(lay.chunkCount - 1) + TAG_LEN
  }

  lemma LayoutFills(c: nat, size: nat)
    requires c > 0 && size >= TAG_LEN
    ensures LayoutFor(c, size).Some? ==> Fills(LayoutFor(c, size).value, size)
  {
    DivMod(size, c + TAG_LEN);
    SpanIsProduct(size / (c + TAG_LEN), c);
  }

  /** The size of a sealed form gives back the chunk count and the exact plaintext length. */
  lemma LayoutOfSealedForm(c: nat, length: nat)
    requires c > 0
    ensures var n := LastIndex(c, length);
      LayoutFor(c, Span(n, c + TAG_LEN) + (length - Span(n, c)) + TAG_LEN) == Some(Layout(c, n + 1, length))
  {
    var n := LastIndex(c, length);
    var last := length - Span(n, c);
    SpanIsProduct(n, c);
    SpanIsProduct(n + 1, c);
    hide Span;
    if last == c {
      OneMore(n, c + TAG_LEN);
      OneMore(n, c);
      QuotientIs(c + TAG_LEN, n + 1, 0);
    } else {
      QuotientIs(c + TAG_LEN, n, last + TAG_LEN);
    }
  }

  /** The header checks and the length arithmetic of opening: the size alone gives the plaintext's length. */
  function LayoutOf(f: bytes): (r: Result<Layout, FileError>)
    ensures r.Success? ==> |f| >= FILE_HEADER_LEN + TAG_LEN && r.value.chunkSize > 0
  {
    if |f| < FILE_HEADER_LEN + TAG_LEN then Failure(Truncated)
    else if !(FILE_MAGIC <= f) then Failure(NotASealedFile)
    else if !(10 <= f[8] <= 20) || f[9] != 0 || f[10] != 0 || f[11] != 0 then Failure(UnsupportedHeader)
    else match LayoutFor(Pow2(f[8]), |f| - FILE_HEADER_LEN)
      case None => Failure(FileError.Malformed)
      case Some(lay) => Success(lay)
  }

  /** What a sealed file starts with; any other is refused for the first reason that applies. */
  lemma HeadersOfFiles(f: bytes)
    ensures LayoutOf(f) == Failure(Truncated) <==> |f| < 48
    ensures LayoutOf(f) == Failure(NotASealedFile) <==> |f| >= 48 && f[..8] != Ascii("RYU-SF01")
    ensures LayoutOf(f) == Failure(UnsupportedHeader) <==>
      |f| >= 48 && f[..8] == Ascii("RYU-SF01") && forall log2: byte | 10 <= log2 <= 20 :: f[8..12] != [log2, 0, 0, 0]
    ensures LayoutOf(f).Success? ==>
      var c := LayoutOf(f).value.chunkSize;
      (f[8] == 10 <==> c == 1024) && (f[8] == 16 <==> c == 65536) && (f[8] == 20 <==> c == 1048576)
  {
    assert Ascii("RYU-SF01") == FILE_MAGIC;
    hide LayoutFor, Pow2;
    if |f| >= 48 {
      assert FILE_MAGIC <= f <==> f[..8] == FILE_MAGIC;
      assert f[8..12] == [f[8], f[9], f[10], f[11]];
      if 10 <= f[8] <= 20 {
        PowersOfTwo(f[8] as nat);
        ChunkSizeIs(f[8] as nat, |f| - FILE_HEADER_LEN);
      }
    }
  }

  lemma PowersOfTwo(n: nat)
    requires 10 <= n <= 20
    ensures (n == 10 <==> Pow2(n) == 1024) && (n == 16 <==> Pow2(n) == 65536) && (n == 20 <==> Pow2(n) == 1048576)
  {
    assert Pow2(5) == 32;
    assert Pow2(10) == 1024;
    assert Pow2(15) == 32768;
    assert Pow2(20) == 1048576;
    Doubles(10, n);
    if n <= 16 { Doubles(n, 16); } else { Doubles(16, n); }
    Doubles(n, 20);
  }

  lemma {:induction false} Doubles(a: nat, b: nat)
    requires a <= b
    ensures Pow2(b) >= Pow2(a) && (a < b ==> Pow2(b) > Pow2(a))
  {
    if a < b { Doubles(a, b - 1); }
  }

  lemma ChunkSizeIs(n: nat, size: nat)
    ensures LayoutFor(Pow2(n), size).Some? ==> LayoutFor(Pow2(n), size).value.chunkSize == Pow2(n)
  {}

  lemma LayoutOfFills(f: bytes)
    requires LayoutOf(f).Success?
    ensures LayoutOf(f) == Success(LayoutFor(Pow2(f[8]), |f| - FILE_HEADER_LEN).value)
    ensures Fills(LayoutOf(f).value, |f| - FILE_HEADER_LEN)
  {
    LayoutFills(Pow2(f[8]), |f| - FILE_HEADER_LEN);
    hide LayoutFor, Fills;
  }

  /** Every chunk lies within the body, back to back, and nothing follows the last. */
  lemma ChunkFits(lay: Layout, size: nat, i: nat)
    requires Fills(lay, size) && i < lay.chunkCount
    ensures 0 <= lay.ChunkLen(i)
    ensures var end := Span(i, lay.chunkSize + TAG_LEN) + lay.ChunkLen(i) + TAG_LEN;
      end <= size && (i + 1 == lay.chunkCount <==> end == size)
  {
    SpanGrows(i, lay.chunkCount - 1, lay.chunkSize + TAG_LEN);
  }

  function Offset(lay: Layout, i: nat): nat {
    FILE_HEADER_LEN + Span(i, lay.chunkSize + TAG_LEN)
  }

  /** One chunk of any file, opened under a key; `None` when it does not open. */
  function ChunkAt(k: ChunkKey, f: bytes, lay: Layout, i: nat): (r: Option<bytes>)
    requires Fills(lay, |f| - FILE_HEADER_LEN) && i < lay.chunkCount
  {
    ChunkFits(lay, |f| - FILE_HEADER_LEN, i);
    k.Open(i, i + 1 == lay.chunkCount, f[Offset(lay, i)..Offset(lay, i) + lay.ChunkLen(i) + TAG_LEN])
  }

  lemma ChunkAtLength(k: ChunkKey, f: bytes, lay: Layout, i: nat)
    requires Fills(lay, |f| - FILE_HEADER_LEN) && i < lay.chunkCount && k.aead.Lawful()
    ensures ChunkAt(k, f, lay, i).Some? ==> |ChunkAt(k, f, lay, i).value| == lay.ChunkLen(i)
  {
    ChunkFits(lay, |f| - FILE_HEADER_LEN, i);
  }
}
