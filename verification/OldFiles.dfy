/** Logs and sealed files that were written before a change of key: they open under the retired one. */
module OldFiles {
  import opened Wrappers
  import opened Bytes
  import opened Content
  import opened SealedFile
  import Log = SealedLog
  import LogWriter
  import File = FileReader

  /** The place of the same file after a change of key: the key that was current is the `i`-th retired one. */
  ghost predicate Retires(v: Vault, v': Vault, i: nat) {
    && v'.cipher.aead == v.cipher.aead && v'.aad == v.aad && v'.derive == v.derive
    && i < |v'.cipher.retired| && v'.cipher.retired[i] == v.cipher.current
  }

  lemma SameLogKey(v: Vault, v': Vault, i: nat, header: bytes)
    requires Retires(v, v', i) && |header| == Log.HEADER_LEN
    ensures i + 1 < |v'.Keys()| && Log.LogKeyOf(v', header, i + 1) == Log.LogKeyOf(v, header, 0)
  {}

  /** No key before the `n`-th opens the log's first record. */
  ghost predicate FailsBefore(v: Vault, b: bytes, n: nat)
    requires |b| >= Log.HEADER_LEN && n <= |v.Keys()|
  {
    forall j :: 0 <= j < n ==> Log.HeadOf(Log.LogKeyOf(v, b[..Log.HEADER_LEN], j), 0, b[Log.HEADER_LEN..]).Fails?
  }

  /**
   A log written under a key that has since been retired is read in full, unless a key before it opens
   its first record; and it is not appended to, and left as it is.
   */
  method OldLogReads(v: Vault, v': Vault, ghost i: nat, b: bytes, ghost records: seq<bytes>, salt: bytes)
    returns (r: Result<seq<bytes>, Log.LogError>, file: LogWriter.LogFile, w: Result<LogWriter.SealedLogWriter, Log.LogError>)
    requires Log.LogHolds(v, b, records) && Retires(v, v', i) && |salt| == Log.SALT_LEN
    requires |b| >= Log.HEADER_LEN && i + 1 <= |v'.Keys()| && FailsBefore(v', b, i + 1)
    ensures r == Success(records)
    ensures w.Failure? && file.data == Some(b)
  {
    OldLogIsFound(v, v', i, b, records);
    hide Log.ScanFrom, Log.FirstAccepting, Log.Holds, Log.ParseHeader, Log.OpenedAs, Log.Kept;
    var o := Log.OpenLog(v', b, true);
    OldLogOpens(v', b, i + 1, records, o);
    r := Success(o.value.scan.records);
    file := new LogWriter.LogFile(Some(b));
    w := LogWriter.OpenAppend(file, v', salt);
  }

  lemma OldLogIsFound(v: Vault, v': Vault, i: nat, b: bytes, records: seq<bytes>)
    requires Log.LogHolds(v, b, records) && Retires(v, v', i)
    requires |b| >= Log.HEADER_LEN && i + 1 <= |v'.Keys()| && FailsBefore(v', b, i + 1)
    ensures i + 1 < |v'.Keys()| && Log.ParseHeader(b).None? && Log.FirstAccepting(v', b, 0) == i + 1
    ensures Log.ScanUnder(v', b, i + 1) == Success(Log.Scan(records, |b| - Log.HEADER_LEN, Log.Clean))
  {
    hide Log.HeadOf, Log.Holds, Log.ParseHeader, Log.FirstAccepting, Log.ScanUnder, Log.LogKeyOf;
    SameLogKey(v, v', i, b[..Log.HEADER_LEN]);
    Log.RetiredLogIsFound(v', b, records, i + 1);
  }

  lemma OldLogOpens(v: Vault, b: bytes, n: nat, records: seq<bytes>, o: Result<Log.OpenedLog, Log.LogError>)
    requires |b| >= Log.HEADER_LEN && n < |v.Keys()| && Log.FirstAccepting(v, b, 0) == n && Log.OpenedAs(v, b, true, o)
    requires Log.ScanUnder(v, b, n) == Success(Log.Scan(records, |b| - Log.HEADER_LEN, Log.Clean))
    ensures o.Success? && o.value.scan == Log.Scan(records, |b| - Log.HEADER_LEN, Log.Clean)
  {
    hide Log.FirstAccepting, Log.ScanUnder;
  }

  /** A sealed file written under a key that has since been retired shows the same plaintext. */
  method OldFileReads(v: Vault, v': Vault, ghost i: nat, header: bytes, p: bytes) returns (r: Result<bytes, FileError>)
    requires v'.cipher.aead.Lawful() && Retires(v, v', i) && |header| == FILE_HEADER_LEN
    requires File.HeaderFits(ChunkKeyOf(v, header, 0))
    requires var f := SealedForm(ChunkKeyOf(v, header, 0), p);
      forall lay :: LayoutOf(f) == Success(lay) && File.LaidOut(f, lay) ==>
        forall j :: 0 <= j <= i && j < |v'.Keys()| ==> !File.OpensUnder(v', f, lay, j)
    ensures r == Success(p)
  {
    var k := ChunkKeyOf(v, header, 0);
    var f := SealedForm(k, p);
    File.SealedFormPresents(k, p);
    File.SealedFormLayout(k, p);
    SameFileKey(v, v', i, header);
    ghost var lay := File.LayoutOfPlain(k, p);
    LastChunkOpens(v', f, lay, i + 1, k, p);
    hide LayoutOf, File.Presents, File.Shows, File.LaidOut, ChunkAt, File.OpensUnder, SealedForm, File.AllOpen;
    var opening, which := File.Open(v', f);
    assert opening.Success? && which == i + 1;
    var read := File.ReadToEnd(opening.value, 8192);
    WholeFile(k, f, lay, p, read);
    r := read;
  }

  lemma SameFileKey(v: Vault, v': Vault, i: nat, header: bytes)
    requires Retires(v, v', i) && |header| == FILE_HEADER_LEN
    ensures i + 1 < |v'.Keys()| && ChunkKeyOf(v', header, i + 1) == ChunkKeyOf(v, header, 0)
  {}

  lemma LastChunkOpens(v: Vault, f: bytes, lay: Layout, n: nat, k: ChunkKey, p: bytes)
    requires File.Presents(k, f, lay, p) && n < |v.Keys()| && |f| >= FILE_HEADER_LEN && lay.chunkCount > 0
    requires ChunkKeyOf(v, f[..FILE_HEADER_LEN], n) == k
    ensures File.LaidOut(f, lay) && File.OpensUnder(v, f, lay, n)
  {}

  lemma WholeFile(k: ChunkKey, f: bytes, lay: Layout, p: bytes, read: Result<bytes, FileError>)
    requires File.Presents(k, f, lay, p)
    requires read.Success? ==> |read.value| == lay.plaintextLen && File.Shows(k, f, lay, 0, read.value)
    requires read.Failure? ==> !File.AllOpen(k, f, lay)
    ensures read == Success(p)
  {
    hide File.Shows, File.AllOpen;
    if read.Success? { File.AllIsShown(k, f, lay, p, read.value); }
  }
}
