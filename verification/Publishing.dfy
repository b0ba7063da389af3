/**
 Replacing a file by its sealed form, and a closed log by a sealed file: the sealed copy is written
 under a temporary name, checked, and only then renamed over the destination.
 */
module Publishing {
  import opened Wrappers
  import opened Bytes
  import opened Content
  import opened Spans
  import opened SealedFile
  import opened FileReader
  import Log = SealedLog

  const SEAL_IN_PLACE_HEADROOM := 64 * 1024 * 1024
  const DEFAULT_CHUNK_LOG2: byte := 16

  datatype PublishError = NoSpace | SpaceUnknown | WriteFailed | CopyDoesNotVerify | RenameFailed | LogRefused(error: Log.LogError)

  datatype SealInPlace = AlreadySealed | Sealed(plaintextLen: nat)

  /** The destination, and `<name>.sealing` beside it. */
  datatype Files = Files(dest: Option<bytes>, temp: Option<bytes>)

  /** From position `from` on, the destination was always one of these. */
  ghost predicate DestFrom(trail: seq<Files>, from: nat, a: Option<bytes>, b: Option<bytes>) {
    forall i :: from <= i < |trail| ==> trail[i].dest == a || trail[i].dest == b
  }

  /**
   What a run of the outside world answers: whether each step succeeds, how much a read returns, and
   what the disk gives back of a file that was written whole.
   */
  datatype Steps = Steps(works: nat -> bool, readSize: nat -> nat, torn: nat -> nat, kept: bytes -> bytes)

  /** The write, the re-opening and the rename succeed. */
  predicate AllWork(steps: Steps) {
    steps.works(0) && steps.works(1) && steps.works(2)
  }

  /** `f` opens under the first key that opens its last chunk, and every chunk of it opens, to `q`. */
  ghost predicate ReadsBack(v: Vault, f: bytes, q: bytes) {
    LayoutOf(f).Success? && LaidOut(f, LayoutOf(f).value)
    && exists i :: FirstOpens(v, f, LayoutOf(f).value, i) && Presents(ChunkKeyOf(v, f[..FILE_HEADER_LEN], i), f, LayoutOf(f).value, q)
  }

  ghost predicate FirstOpens(v: Vault, f: bytes, lay: Layout, i: nat)
    requires LaidOut(f, lay)
  {
    i < |v.Keys()| && OpensUnder(v, f, lay, i) && forall j :: 0 <= j < i ==> !OpensUnder(v, f, lay, j)
  }

  /** The copy reads back to bytes with the digest of `plain`. */
  ghost predicate Verified(v: Vault, copy: bytes, plain: bytes, hash: bytes -> bytes) {
    exists q :: ReadsBack(v, copy, q) && hash(q) == hash(plain)
  }

  function Lower(a: nat, b: nat): nat { if a < b then a else b }

  predicate HasRoom(freeSpace: Option<nat>, size: nat) {
    freeSpace.Some? && freeSpace.value >= if size + SEAL_IN_PLACE_HEADROOM > U64_MAX then U64_MAX else size + SEAL_IN_PLACE_HEADROOM
  }

  class Folder {
    var files: Files
    /** Every state a crash could leave, the current one last. */
    ghost var trail: seq<Files>

    ghost predicate Valid() reads this {
      |trail| > 0 && trail[|trail| - 1] == files
    }

    constructor (files: Files)
      ensures Valid() && this.files == files && trail == [files]
    {
      this.files, this.trail := files, [files];
    }

    method Set(next: Files)
      requires Valid()
      modifies this
      ensures Valid() && files == next && trail == old(trail) + [next]
    {
      files := next;
      trail := trail + [next];
    }

    /** Write the temporary file; a write that stops partway leaves a prefix of it. */
    method WriteTemp(data: bytes, steps: Steps) returns (ok: bool)
      requires Valid()
      modifies this
      ensures Valid() && files.dest == old(files).dest && old(trail) <= trail
      ensures DestFrom(trail, |old(trail)|, old(files).dest, old(files).dest)
      ensures ok == steps.works(0) && (ok ==> files.temp == Some(steps.kept(data)))
      ensures !ok ==> files.temp.Some? && files.temp.value <= data
    {
      Set(files.(temp := None));
      var cut := if steps.torn(0) < |data| then steps.torn(0) else |data|;
      Set(files.(temp := Some(data[..cut])));
      ok := steps.works(0);
      if ok { Set(files.(temp := Some(steps.kept(data)))); }
    }

    /** Rename the temporary file over the destination, or remove it. */
    method Settle(publish: bool)
      requires Valid() && (publish ==> files.temp.Some?)
      modifies this
      ensures Valid() && trail == old(trail) + [files]
      ensures files == if publish then Files(old(files).temp, None) else old(files).(temp := None)
    {
      Set(if publish then Files(files.temp, None) else files.(temp := None));
    }

    /**
     Seal a plaintext file in place. The copy on disk is published if and only if it reads back to bytes
     with the plaintext's digest, whatever the disk made of it; a crash leaves the plaintext or that copy.
     */
    method SealFileInPlace(v: Vault, salt: bytes, freeSpace: Option<nat>, hash: bytes -> bytes, steps: Steps)
      returns (r: Result<SealInPlace, PublishError>)
      requires Valid() && files.dest.Some? && v.cipher.aead.Lawful() && |salt| == FILE_SALT_LEN
      modifies this
      ensures Valid() && old(trail) <= trail
      ensures r == Success(AlreadySealed) <==> FILE_MAGIC <= old(files).dest.value
      ensures var plain := old(files).dest.value;
        var copy := steps.kept(SealedUnder(v, salt, plain));
        && DestFrom(trail, |old(trail)|, Some(plain), Some(copy))
        && (r.Success? && r.value.Sealed? ==>
              r.value.plaintextLen == |plain| && files == Files(Some(copy), None) && Verified(v, copy, plain, hash))
        && (!(r.Success? && r.value.Sealed?) ==> files.dest == Some(plain))
        && (!Verified(v, copy, plain, hash) ==> DestFrom(trail, |old(trail)|, Some(plain), Some(plain)))
        && (r == Failure(CopyDoesNotVerify) ==> files.temp.None?)
        && (!(FILE_MAGIC <= plain) ==>
              && (r == Failure(SpaceUnknown) <==> freeSpace.None?)
              && (r == Failure(NoSpace) <==> (freeSpace.Some? && freeSpace.value < Lower(|plain| + 64 * 1024 * 1024, U64_MAX))))
        && (AllWork(steps) && HasRoom(freeSpace, |plain|) && !(FILE_MAGIC <= plain) ==>
              r == if Verified(v, copy, plain, hash) then Success(Sealed(|plain|)) else Failure(CopyDoesNotVerify))
        && (copy == SealedUnder(v, salt, plain) ==> Verified(v, copy, plain, hash))
    {
      var plain := files.dest.value;
      IntactCopyVerifies(v, salt, plain, hash);
      if FILE_MAGIC <= plain { return Success(AlreadySealed); }
      if freeSpace.None? { return Failure(SpaceUnknown); }
      if !HasRoom(freeSpace, |plain|) { return Failure(NoSpace); }
      assert Concat([plain]) == plain;
      hide SealedUnder, Verified, Concat;
      var sealed, length := SealPieces(v, salt, [plain], steps);
      var written := WriteTemp(sealed, steps);
      var verified := false;
      if written && steps.works(1) { verified := Verifies(v, files.temp.value, plain, hash); }
      if verified && !steps.works(2) { return Failure(RenameFailed); }
      Settle(verified);
      if !written { return Failure(WriteFailed); }
      if !verified { return Failure(CopyDoesNotVerify); }
      return Success(Sealed(length));
    }

    /**
     Turn a closed log into a sealed file of its records, one after the other. The destination is
     replaced only by the finished file, as the disk kept it; nothing reads it back here.
     */
    method CompactToSealedFile(logVault: Vault, log: bytes, v: Vault, salt: bytes, steps: Steps)
      returns (r: Result<nat, PublishError>, ghost records: seq<bytes>)
      requires Valid() && |salt| == FILE_SALT_LEN
      modifies this
      ensures Valid() && old(trail) <= trail
      ensures DestFrom(trail, |old(trail)|, old(files).dest, Some(steps.kept(SealedUnder(v, salt, Concat(records)))))
      ensures r.Failure? ==> files.dest == old(files).dest
      ensures r.Success? ==> Log.HoldsUnderSomeKey(logVault, log, records) && r.value == |Concat(records)|
      ensures r.Success? ==> files == Files(Some(steps.kept(SealedUnder(v, salt, Concat(records)))), None)
      ensures forall written :: Log.LogHolds(logVault, log, written) ==> (AllWork(steps) ==> r.Success?) && records == written
    {
      hide SealedUnder, Log.LogHolds, Log.HoldsUnderSomeKey, Concat;
      records := [];
      var read := Log.ReadLog(logVault, log);
      if read.Failure? { return Failure(LogRefused(read.error)), []; }
      records := read.value;
      var copy, length := SealPieces(v, salt, read.value, steps);
      var written := WriteTemp(copy, steps);
      if written && !steps.works(2) { return Failure(RenameFailed), records; }
      Settle(written);
      return if written then Success(length) else Failure(WriteFailed), records;
    }
  }

  /** The sealed form of a plaintext under the store's current key, with a given salt. */
  function SealedUnder(v: Vault, salt: bytes, plain: bytes): bytes
    requires |salt| == FILE_SALT_LEN
  {
    SealedForm(ChunkKeyOf(v, BuildHeader(DEFAULT_CHUNK_LOG2, salt), 0), plain)
  }

  lemma NewHeaderFits(v: Vault, salt: bytes)
    requires |salt| == FILE_SALT_LEN
    ensures HeaderFits(ChunkKeyOf(v, BuildHeader(DEFAULT_CHUNK_LOG2, salt), 0))
  {}

  lemma ConcatOne(before: seq<bytes>, piece: bytes)
    ensures Concat(before + [piece]) == Concat(before) + piece
  {
    ConcatAppend(before, [piece]);
    assert Concat([piece]) == piece;
  }

  /** Write pieces through one writer, each in portions of whatever size the reads return. */
  method SealPieces(v: Vault, salt: bytes, pieces: seq<bytes>, steps: Steps) returns (file: bytes, length: nat)
    requires |salt| == FILE_SALT_LEN
    ensures file == SealedUnder(v, salt, Concat(pieces))
    ensures length == |Concat(pieces)|
  {
    hide SealedForm, ChunkKeyOf, Buffered;
    var writer := new SealedFileWriter(v, DEFAULT_CHUNK_LOG2, salt);
    for n := 0 to |pieces|
      invariant writer.Valid() && fresh(writer) && writer.written == Concat(pieces[..n])
    {
      var rest := pieces[n];
      ghost var before := writer.written;
      while rest != []
        invariant writer.Valid() && fresh(writer) && writer.written + rest == before + pieces[n]
        decreases |rest|
      {
        var size := if steps.readSize(|rest|) + 1 < |rest| then steps.readSize(|rest|) + 1 else |rest|;
        MovePiece(writer.written, rest, size);
        writer.WritePlain(rest[..size]);
        rest := rest[size..];
      }
      assert pieces[..n + 1] == pieces[..n] + [pieces[n]];
      ConcatOne(pieces[..n], pieces[n]);
    }
    assert pieces[..|pieces|] == pieces;
    file, length := writer.Finish();
  }

  /** What is published reads back: it opens under the current key and shows exactly the plaintext. */
  lemma SealedUnderPresents(v: Vault, salt: bytes, plain: bytes)
    requires |salt| == FILE_SALT_LEN && v.cipher.aead.Lawful()
    ensures var f := SealedUnder(v, salt, plain);
      && |f| >= FILE_HEADER_LEN && LayoutOf(f).Success? && LayoutOf(f).value.plaintextLen == |plain|
      && LaidOut(f, LayoutOf(f).value) && OpensUnder(v, f, LayoutOf(f).value, 0)
      && Presents(ChunkKeyOf(v, f[..FILE_HEADER_LEN], 0), f, LayoutOf(f).value, plain)
  {
    var k := ChunkKeyOf(v, BuildHeader(DEFAULT_CHUNK_LOG2, salt), 0);
    NewHeaderFits(v, salt);
    hide HeaderFits, LayoutOf, SealedBody, ChunkAt, Fills, Shows;
    SealedFormLayout(k, plain);
    SealedFormPresents(k, plain);
    assert LayoutOfPlain(k, plain).chunkCount > 0;
  }

  /** A copy the disk kept as it was written verifies. */
  lemma IntactCopyVerifies(v: Vault, salt: bytes, plain: bytes, hash: bytes -> bytes)
    requires |salt| == FILE_SALT_LEN && v.cipher.aead.Lawful()
    ensures Verified(v, SealedUnder(v, salt, plain), plain, hash)
  {
    SealedUnderPresents(v, salt, plain);
    hide LayoutOf, OpensUnder, Presents, LaidOut, SealedUnder;
    var f := SealedUnder(v, salt, plain);
    assert FirstOpens(v, f, LayoutOf(f).value, 0);
    assert ReadsBack(v, f, plain);
  }

  /** What shows as a whole, and whose last chunk opens, has all its chunks open. */
  lemma WholeIsPresented(k: ChunkKey, f: bytes, lay: Layout, q: bytes)
    requires Shows(k, f, lay, 0, q) && |q| == lay.plaintextLen
    requires ChunkAt(k, f, lay, lay.chunkCount - 1).Some?
    ensures Presents(k, f, lay, q)
  {
    forall i | 0 <= i < lay.chunkCount ensures ChunkAt(k, f, lay, i).Some? {
      if i < lay.chunkCount - 1 {
        FirstByte(lay, |f| - FILE_HEADER_LEN, i);
        hide ChunkAt;
        assert ByteAt(k, f, lay, Span(i, lay.chunkSize)).Some?;
      }
    }
  }

  /** Every chunk but the last has a byte to show. */
  lemma FirstByte(lay: Layout, size: nat, i: nat)
    requires Fills(lay, size) && i + 1 < lay.chunkCount
    ensures lay.chunkSize > 0 && Span(i, lay.chunkSize) < lay.plaintextLen && Span(i, lay.chunkSize) / lay.chunkSize == i
  {
    var c := lay.chunkSize;
    SpanGrows(i + 1, lay.chunkCount - 1, c);
    QuotientIs(c, i, 0);
  }

  /** Re-open the copy and compare the digest of what it decrypts to. */
  method Verifies(v: Vault, copy: bytes, plain: bytes, hash: bytes -> bytes) returns (ok: bool)
    requires v.cipher.aead.Lawful()
    ensures ok <==> Verified(v, copy, plain, hash)
  {
    hide LayoutOf, OpensUnder, Presents, Shows, LaidOut, AllOpen, ChunkAt;
    var opening, which := Open(v, copy);
    if opening.Failure? { return false; }
    var reader := opening.value;
    ghost var lay := LayoutOf(copy).value;
    assert FirstOpens(v, copy, lay, which);
    OnlyOneOpensFirst(v, copy, which);
    var read := ReadToEnd(reader, 8192);
    if read.Failure? {
      NotAllOpenNotRead(v, copy, which);
      return false;
    }
    LastOpens(v, copy, lay, which);
    WholeIsPresented(reader.k, copy, lay, read.value);
    ReadsOnlyThis(v, copy, which, read.value);
    return hash(read.value) == hash(plain);
  }

  lemma LastOpens(v: Vault, f: bytes, lay: Layout, i: nat)
    requires LaidOut(f, lay) && i < |v.Keys()| && OpensUnder(v, f, lay, i)
    ensures |f| >= FILE_HEADER_LEN && lay.chunkCount > 0
    ensures ChunkAt(ChunkKeyOf(v, f[..FILE_HEADER_LEN], i), f, lay, lay.chunkCount - 1).Some?
  {}

  lemma OnlyOneOpensFirst(v: Vault, f: bytes, i: nat)
    requires LayoutOf(f).Success? && LaidOut(f, LayoutOf(f).value) && FirstOpens(v, f, LayoutOf(f).value, i)
    ensures |f| >= FILE_HEADER_LEN && i < |v.Keys()|
    ensures forall j :: FirstOpens(v, f, LayoutOf(f).value, j) ==> j == i
  {
    hide OpensUnder, LayoutOf;
  }

  lemma NotAllOpenNotRead(v: Vault, f: bytes, i: nat)
    requires LayoutOf(f).Success? && LaidOut(f, LayoutOf(f).value) && FirstOpens(v, f, LayoutOf(f).value, i)
    requires |f| >= FILE_HEADER_LEN && !AllOpen(ChunkKeyOf(v, f[..FILE_HEADER_LEN], i), f, LayoutOf(f).value)
    ensures forall q :: !ReadsBack(v, f, q)
  {
    hide AllOpen, FirstOpens, LayoutOf;
    forall q ensures !ReadsBack(v, f, q) { OnlyOneOpensFirst(v, f, i); }
  }

  lemma ReadsOnlyThis(v: Vault, f: bytes, i: nat, q: bytes)
    requires LayoutOf(f).Success? && LaidOut(f, LayoutOf(f).value) && FirstOpens(v, f, LayoutOf(f).value, i)
    requires |f| >= FILE_HEADER_LEN && Presents(ChunkKeyOf(v, f[..FILE_HEADER_LEN], i), f, LayoutOf(f).value, q)
    ensures forall q' :: ReadsBack(v, f, q') <==> q' == q
  {
    hide FirstOpens, LayoutOf, AllOpen;
    OnlyOneOpensFirst(v, f, i);
    forall q' | ReadsBack(v, f, q') ensures q' == q {
      AllIsShown(ChunkKeyOf(v, f[..FILE_HEADER_LEN], i), f, LayoutOf(f).value, q, q');
    }
  }
}
