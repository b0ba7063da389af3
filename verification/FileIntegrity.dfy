/**
 What no change to a sealed file can do, as long as it holds no forgery: the file's key sealed one
 file, so whatever part of a file opens under it is a chunk of that one, under that chunk's nonce.
 */
module FileIntegrity {
  import opened Wrappers
  import opened Bytes
  import opened Content
  import opened Spans
  import opened SealedFile
  import opened FileReader

  /** Of all that `f` holds, the file's key opens only the sealed chunks of `p`, each under its own nonce. */
  ghost predicate HoldsNoForgery(k: ChunkKey, p: bytes, f: bytes)
    requires k.Sized()
  {
    forall nonce, from: nat, to: nat | from <= to <= |f| ::
      k.aead.open(k.key, nonce, k.header, f[from..to]).Some? ==> IsSealedChunk(k, p, nonce, f[from..to])
  }

  ghost predicate IsSealedChunk(k: ChunkKey, p: bytes, nonce: bytes, c: bytes)
    requires k.Sized()
  {
    exists i :: 0 <= i <= LastIndex(k.chunkSize, |p|)
      && nonce == ChunkNonce(i, i == LastIndex(k.chunkSize, |p|))
      && c == k.Seal(i, i == LastIndex(k.chunkSize, |p|), ChunkOf(k, p, i))
  }

  /** A chunk opens only at the index, and with the last-chunk flag, it was sealed with. */
  lemma OpensAtItsIndex(k: ChunkKey, p: bytes, f: bytes, from: nat, to: nat, i: nat, last: bool, c: bytes)
    requires k.Sized() && k.aead.Lawful() && HoldsNoForgery(k, p, f) && i <= U64_MAX && |p| <= U64_MAX
    requires from <= to <= |f| && c == f[from..to] && k.Open(i, last, c).Some?
    ensures i <= LastIndex(k.chunkSize, |p|) && last == (i == LastIndex(k.chunkSize, |p|))
    ensures c == k.Seal(i, last, ChunkOf(k, p, i)) && k.Open(i, last, c) == Some(ChunkOf(k, p, i))
  {
    hide LastIndex, ChunkOf, ChunkNonce;
    var n := LastIndex(k.chunkSize, |p|);
    assert IsSealedChunk(k, p, ChunkNonce(i, last), c);
    var j :| 0 <= j <= n && ChunkNonce(i, last) == ChunkNonce(j, j == n) && c == k.Seal(j, j == n, ChunkOf(k, p, j));
    SpanAtLeast(n, k.chunkSize);
    NoncesDistinct(i, last, j, j == n);
  }

  lemma {:induction false} SpanAtLeast(n: nat, c: nat)
    requires c > 0
    ensures Span(n, c) >= n
  {
    if n > 0 { SpanAtLeast(n - 1, c); }
  }

  lemma FewerChunksThanBytes(lay: Layout, size: nat)
    requires Fills(lay, size)
    ensures lay.chunkCount <= size
  {
    SpanAtLeast(lay.chunkCount - 1, lay.chunkSize + TAG_LEN);
  }

  /** A file altered in any way but its header, if it opens at all, has exactly the sealed file's length. */
  lemma OpenedHasSealedLength(k: ChunkKey, p: bytes, f: bytes, lay: Layout)
    requires HeaderFits(k) && k.aead.Lawful() && HoldsNoForgery(k, p, f) && |p| <= U64_MAX
    requires |f| >= FILE_HEADER_LEN && f[..FILE_HEADER_LEN] == k.header && |f| <= U64_MAX
    requires LayoutOf(f) == Success(lay) && LaidOut(f, lay)
    requires ChunkAt(k, f, lay, lay.chunkCount - 1).Some?
    ensures lay == LayoutOfPlain(k, p) && |f| == |SealedForm(k, p)|
  {
    hide LastIndex, ChunkOf, LayoutFor, SealedBody, HoldsNoForgery;
    LayoutByHeader(k, f);
    LayoutKeepsChunkSize(k.chunkSize, |f| - FILE_HEADER_LEN);
    FewerChunksThanBytes(lay, |f| - FILE_HEADER_LEN);
    var i := lay.chunkCount - 1;
    ChunkFits(lay, |f| - FILE_HEADER_LEN, i);
    var c := f[Offset(lay, i)..Offset(lay, i) + lay.ChunkLen(i) + TAG_LEN];
    OpensAtItsIndex(k, p, f, Offset(lay, i), Offset(lay, i) + lay.ChunkLen(i) + TAG_LEN, i, true, c);
    ChunkOfLength(k, p, i);
    assert |c| == lay.ChunkLen(i) + TAG_LEN;
    SealedBodyLength(k, p);
  }

  lemma LayoutKeepsChunkSize(c: nat, size: nat)
    requires c > 0
    ensures LayoutFor(c, size).Some? ==> LayoutFor(c, size).value.chunkSize == c
  {}

  /** No proper prefix of a sealed file opens. */
  lemma NoPrefixOpens(k: ChunkKey, p: bytes, cut: nat)
    requires HeaderFits(k) && k.aead.Lawful() && |p| <= U64_MAX && cut < |SealedForm(k, p)| <= U64_MAX
    requires HoldsNoForgery(k, p, SealedForm(k, p)[..cut])
    ensures var f := SealedForm(k, p)[..cut];
      LayoutOf(f).Success? ==>
        LaidOut(f, LayoutOf(f).value) && ChunkAt(k, f, LayoutOf(f).value, LayoutOf(f).value.chunkCount - 1).None?
  {
    assert k.Sized();
    hide *;
    var f := SealedForm(k, p)[..cut];
    if LayoutOf(f).Success? {
      LayoutIsLaidOut(f);
      SealedFormLayout(k, p);
      LongEnough(f);
      assert f[..FILE_HEADER_LEN] == SealedForm(k, p)[..FILE_HEADER_LEN];
      if ChunkAt(k, f, LayoutOf(f).value, LayoutOf(f).value.chunkCount - 1).Some? {
        OpenedHasSealedLength(k, p, f, LayoutOf(f).value);
      }
    }
  }

  lemma LongEnough(f: bytes)
    requires LayoutOf(f).Success?
    ensures |f| >= FILE_HEADER_LEN && LayoutOf(f).value.chunkCount > 0
  {
    LayoutIsLaidOut(f);
    hide Span, LayoutFor;
  }

  /** Every byte an altered file still shows is the byte that was sealed there. */
  lemma ShownIsSealed(k: ChunkKey, p: bytes, f: bytes, lay: Layout, start: nat, out: bytes)
    requires HeaderFits(k) && k.aead.Lawful() && HoldsNoForgery(k, p, f) && |p| <= U64_MAX
    requires |f| >= FILE_HEADER_LEN && f[..FILE_HEADER_LEN] == k.header && |f| <= U64_MAX
    requires LayoutOf(f) == Success(lay) && LaidOut(f, lay)
    requires ChunkAt(k, f, lay, lay.chunkCount - 1).Some? && Shows(k, f, lay, start, out)
    ensures start + |out| <= |p| && out == p[start..start + |out|]
  {
    hide LastIndex, ChunkOf, LayoutFor, SealedBody, HoldsNoForgery, ChunkAt, HeaderFits, SealedForm, LayoutOf;
    OpenedHasSealedLength(k, p, f, lay);
    forall q | start <= q < start + |out| ensures out[q - start] == p[q] {
      ShownByteIsSealed(k, p, f, lay, q);
    }
  }

  lemma ShownByteIsSealed(k: ChunkKey, p: bytes, f: bytes, lay: Layout, q: nat)
    requires k.Sized() && k.aead.Lawful() && HoldsNoForgery(k, p, f) && |p| <= U64_MAX
    requires LaidOut(f, lay) && lay == LayoutOfPlain(k, p) && q < |p| && ByteAt(k, f, lay, q).Some?
    ensures ByteAt(k, f, lay, q) == Some(p[q])
  {
    hide LastIndex, ChunkOf, HoldsNoForgery, ChunkNonce, Span, Fills;
    var i, size := q / lay.chunkSize, |f| - FILE_HEADER_LEN;
    Locate(lay, size, q);
    ByteOfChunk(k, p, size, q);
    ChunkFits(lay, size, i);
    SpanAtLeast(LastIndex(k.chunkSize, |p|), k.chunkSize);
    var from, to := Offset(lay, i), Offset(lay, i) + lay.ChunkLen(i) + TAG_LEN;
    OpensAtItsIndex(k, p, f, from, to, i, i + 1 == lay.chunkCount, f[from..to]);
  }

  // ── What the program's open makes of them ───────────────────────────────────

  ghost predicate OpensNothing(k: ChunkKey, f: bytes) {
    forall nonce, from: nat, to: nat | from <= to <= |f| :: k.aead.open(k.key, nonce, k.header, f[from..to]).None?
  }

  /**
   Of all that `f` holds, the store's keys open only the chunks of `p` that the `w`-th of them (the
   current one, or a retired one) sealed.
   */
  ghost predicate Unforged(v: Vault, header: bytes, w: nat, p: bytes, f: bytes)
    requires |header| == FILE_HEADER_LEN && w < |v.Keys()| && ChunkKeyOf(v, header, w).Sized()
  {
    && HoldsNoForgery(ChunkKeyOf(v, header, w), p, f)
    && forall i :: 0 <= i < |v.Keys()| && i != w ==> OpensNothing(ChunkKeyOf(v, header, i), f)
  }

  lemma NothingOpens(v: Vault, header: bytes, f: bytes, lay: Layout, i: nat)
    requires |header| == FILE_HEADER_LEN && i < |v.Keys()| && LaidOut(f, lay) && f[..FILE_HEADER_LEN] == header
    requires OpensNothing(ChunkKeyOf(v, header, i), f)
    ensures !OpensUnder(v, f, lay, i)
  {
    hide ChunkNonce;
    ChunkFitsIn(f, lay, lay.chunkCount - 1);
  }

  lemma KeyHeader(v: Vault, header: bytes, w: nat)
    requires |header| == FILE_HEADER_LEN && w < |v.Keys()|
    ensures var k := ChunkKeyOf(v, header, w); k.header == header && k.aead == v.cipher.aead && k.Sized()
  {}

  /**
   Open a file that was altered in any way but its header: if it opens, it does so under the key that
   sealed it, has exactly the sealed length, and shows nothing but what was sealed.
   */
  method OpenAltered(v: Vault, header: bytes, w: nat, p: bytes, f: bytes) returns (r: Result<SealedFileReader, FileError>)
    requires v.cipher.aead.Lawful() && |header| == FILE_HEADER_LEN && w < |v.Keys()|
    requires HeaderFits(ChunkKeyOf(v, header, w)) && |p| <= U64_MAX && |f| <= U64_MAX
    requires |f| >= FILE_HEADER_LEN ==> f[..FILE_HEADER_LEN] == header
    requires ChunkKeyOf(v, header, w).Sized() && Unforged(v, header, w, p, f)
    ensures r.Success? ==>
      var k := ChunkKeyOf(v, header, w);
      && fresh(r.value) && r.value.Valid() && r.value.inner == f && r.value.k == k
      && r.value.lay == LayoutOfPlain(k, p) && |f| == |SealedForm(k, p)|
      && forall start: nat, out :: Shows(k, f, r.value.lay, start, out) ==> start + |out| <= |p| && out == p[start..start + |out|]
  {
    KeyHeader(v, header, w);
    hide *;
    ghost var which;
    r, which := Open(v, f);
    if r.Success? {
      OpenedFacts(v, f, r.value, which);
      assert LayoutOf(f).Success?;
      LongEnough(f);
      TheSealingKey(v, header, w, p, f, r.value.lay, which);
      var k := ChunkKeyOf(v, header, w);
      SealingKeyOpens(v, f, r.value.lay, which);
      NoForgeryUnder(v, header, w, p, f);
      OpenedHasSealedLength(k, p, f, r.value.lay);
      forall start: nat, out | Shows(k, f, r.value.lay, start, out)
        ensures start + |out| <= |p| && out == p[start..start + |out|]
      {
        ShownIsSealed(k, p, f, r.value.lay, start, out);
      }
    }
  }

  lemma OpenedFacts(v: Vault, f: bytes, r: SealedFileReader, which: nat)
    requires LayoutOf(f).Success? && LaidOut(f, LayoutOf(f).value) && OpenedBy(v, f, LayoutOf(f).value, r, which)
    ensures r.Valid() && r.inner == f && r.lay == LayoutOf(f).value && which < |v.Keys()|
    ensures |f| >= FILE_HEADER_LEN && r.k == ChunkKeyOf(v, f[..FILE_HEADER_LEN], which) && OpensUnder(v, f, r.lay, which)
    ensures r.lay.chunkCount > 0
  {
    LongEnough(f);
  }

  lemma NoForgeryUnder(v: Vault, header: bytes, w: nat, p: bytes, f: bytes)
    requires |header| == FILE_HEADER_LEN && w < |v.Keys()| && ChunkKeyOf(v, header, w).Sized()
    requires Unforged(v, header, w, p, f)
    ensures HoldsNoForgery(ChunkKeyOf(v, header, w), p, f)
  {}

  lemma SealingKeyOpens(v: Vault, f: bytes, lay: Layout, i: nat)
    requires LaidOut(f, lay) && i < |v.Keys()| && OpensUnder(v, f, lay, i) && |f| >= FILE_HEADER_LEN && lay.chunkCount > 0
    ensures ChunkAt(ChunkKeyOf(v, f[..FILE_HEADER_LEN], i), f, lay, lay.chunkCount - 1).Some?
  {}

  lemma TheSealingKey(v: Vault, header: bytes, w: nat, p: bytes, f: bytes, lay: Layout, which: nat)
    requires |header| == FILE_HEADER_LEN && w < |v.Keys()| && ChunkKeyOf(v, header, w).Sized()
    requires Unforged(v, header, w, p, f) && LaidOut(f, lay) && |f| >= FILE_HEADER_LEN && f[..FILE_HEADER_LEN] == header
    requires which < |v.Keys()| && OpensUnder(v, f, lay, which)
    ensures which == w
  {
    hide OpensNothing, HoldsNoForgery, OpensUnder, ChunkKeyOf;
    if which != w { NothingOpens(v, header, f, lay, which); }
  }

  /** No proper prefix of a sealed file opens, whatever key of the store sealed it. */
  method PrefixIsRefused(v: Vault, header: bytes, w: nat, p: bytes, cut: nat) returns (r: Result<SealedFileReader, FileError>)
    requires v.cipher.aead.Lawful() && |header| == FILE_HEADER_LEN && w < |v.Keys()|
    requires HeaderFits(ChunkKeyOf(v, header, w)) && ChunkKeyOf(v, header, w).Sized() && |p| <= U64_MAX
    requires var f := SealedForm(ChunkKeyOf(v, header, w), p);
      cut < |f| <= U64_MAX && Unforged(v, header, w, p, f[..cut])
    ensures r.Failure?
  {
    KeyHeader(v, header, w);
    var f := SealedForm(ChunkKeyOf(v, header, w), p)[..cut];
    assert cut >= FILE_HEADER_LEN ==> f[..FILE_HEADER_LEN] == header;
    hide *;
    r := OpenAltered(v, header, w, p, f);
  }

  // ── Such files exist ────────────────────────────────────────────────────────

  /**
   The tag of a toy AEAD made for one file of plaintext `p`: sevens for its chunks under their nonces and
   one key, nines for all else.
   */
  ghost function ToyTag(p: bytes, key: AeadKey, nonce: bytes, plain: bytes): (tag: bytes)
    ensures |tag| == TAG_LEN
  {
    if key == AeadKey(0) && exists i :: IsPlainChunk(p, nonce, plain, i) then seq(TAG_LEN, i => 7) else seq(TAG_LEN, i => 9)
  }

  ghost predicate IsPlainChunk(p: bytes, nonce: bytes, plain: bytes, i: nat) {
    var n := LastIndex(Pow2(10), |p|);
    i <= n && nonce == ChunkNonce(i, i == n) && plain == PlainChunk(p, i)
  }

  ghost function PlainChunk(p: bytes, i: nat): bytes
    requires i <= LastIndex(Pow2(10), |p|)
  {
    var n, c := LastIndex(Pow2(10), |p|), Pow2(10);
    SpanGrows(i, n, c);
    if i == n then p[Span(n, c)..] else p[Span(i, c)..Span(i, c) + c]
  }

  ghost function ToyOpen(p: bytes, key: AeadKey, nonce: bytes, sealed: bytes): Option<bytes> {
    if |sealed| < TAG_LEN then None
    else
      var plain := sealed[..|sealed| - TAG_LEN];
      if sealed[|sealed| - TAG_LEN..] == ToyTag(p, key, nonce, plain) then Some(plain) else None
  }

  ghost function ToyFileKey(p: bytes): (k: ChunkKey)
    ensures k.Sized()
  {
    ChunkKey(
      Aead((k: AeadKey, n: bytes, a: bytes, plain: bytes) => plain + ToyTag(p, k, n, plain),
           (k: AeadKey, n: bytes, a: bytes, s: bytes) => ToyOpen(p, k, n, s)),
      AeadKey(0), FILE_MAGIC + [10, 0, 0, 0] + seq(FILE_SALT_LEN, i => 0), Pow2(10))
  }

  lemma ToySealOpens(p: bytes, key: AeadKey, nonce: bytes, plain: bytes)
    ensures ToyOpen(p, key, nonce, plain + ToyTag(p, key, nonce, plain)) == Some(plain)
  {
    var sealed := plain + ToyTag(p, key, nonce, plain);
    assert sealed[..|sealed| - TAG_LEN] == plain;
  }

  lemma ToyKeyIsLawful(p: bytes)
    ensures var k := ToyFileKey(p); HeaderFits(k) && k.aead.Lawful() && 9 !in k.header
  {
    hide ToyTag, Pow2;
    forall key: AeadKey, n: bytes, plain: bytes { ToySealOpens(p, key, n, plain); }
  }

  lemma ToySealed(p: bytes, i: nat)
    requires i <= LastIndex(Pow2(10), |p|)
    ensures var k, n := ToyFileKey(p), LastIndex(Pow2(10), |p|);
      ChunkOf(k, p, i) == PlainChunk(p, i)
      && k.Seal(i, i == n, PlainChunk(p, i)) == PlainChunk(p, i) + seq(TAG_LEN, i => 7)
  {
    hide LastIndex, ChunkNonce, Pow2;
    var n := LastIndex(Pow2(10), |p|);
    assert IsPlainChunk(p, ChunkNonce(i, i == n), PlainChunk(p, i), i);
  }

  lemma {:induction false} ToyFullsHaveNoNine(p: bytes, n: nat)
    requires 9 !in p && n <= LastIndex(Pow2(10), |p|) && Span(n, Pow2(10)) <= |p|
    ensures 9 !in Fulls(ToyFileKey(p), p, n)
  {
    hide ChunkNonce, Pow2, LastIndex, ToyTag;
    var k := ToyFileKey(p);
    ToyKeyIsLawful(p);
    if n > 0 {
      ToyFullsHaveNoNine(p, n - 1);
      FullsStep(k, p, n);
      ToySealed(p, n - 1);
    }
  }

  lemma ToyFileHasNoNine(p: bytes)
    requires 9 !in p
    ensures 9 !in SealedForm(ToyFileKey(p), p)
  {
    hide ChunkNonce, Pow2, LastIndex, ToyTag, Fulls;
    var k, n := ToyFileKey(p), LastIndex(Pow2(10), |p|);
    ToyKeyIsLawful(p);
    ToyFullsHaveNoNine(p, n);
    ToySealed(p, n);
  }

  lemma ToyOpensChunks(p: bytes, key: AeadKey, nonce: bytes, c: bytes)
    requires ToyFileKey(p).aead.open(key, nonce, ToyFileKey(p).header, c).Some?
    requires forall i :: 0 <= i < |c| ==> c[i] != 9
    ensures key == ToyFileKey(p).key && IsSealedChunk(ToyFileKey(p), p, nonce, c)
  {
    hide ChunkNonce, LastIndex, ChunkOf, PlainChunk, Pow2;
    var plain, tag := c[..|c| - TAG_LEN], c[|c| - TAG_LEN..];
    assert tag[0] == c[|c| - TAG_LEN] && c == plain + tag;
    var i :| IsPlainChunk(p, nonce, plain, i);
    ToySealed(p, i);
  }

  /**
   The assumption of this module can be met by files of any number of chunks: for every plaintext
   without the byte 9, of a whole sealed file and of every prefix of it, while no other key opens any
   of it.
   */
  lemma SomeFileHoldsNoForgery(p: bytes, cut: nat)
    requires 9 !in p && cut <= |SealedForm(ToyFileKey(p), p)|
    ensures var k := ToyFileKey(p);
      && HeaderFits(k) && k.aead.Lawful() && HoldsNoForgery(k, p, SealedForm(k, p)[..cut])
      && forall other :: other != k.key ==> OpensNothing(k.(key := other), SealedForm(k, p)[..cut])
  {
    var k := ToyFileKey(p);
    ToyKeyIsLawful(p);
    ToyFileHasNoNine(p);
    hide Fulls, SealedForm, ChunkNonce, LastIndex, ChunkOf, PlainChunk, Pow2, IsSealedChunk, ToyOpen, ToyTag;
    var f := SealedForm(k, p)[..cut];
    assert forall i :: 0 <= i < |f| ==> f[i] != 9;
    forall nonce, from: nat, to: nat | from <= to <= |f| && k.aead.open(k.key, nonce, k.header, f[from..to]).Some?
      ensures IsSealedChunk(k, p, nonce, f[from..to])
    {
      ToyOpensChunks(p, k.key, nonce, f[from..to]);
    }
    forall other, nonce, from: nat, to: nat | other != k.key && from <= to <= |f|
      ensures k.aead.open(other, nonce, k.header, f[from..to]).None?
    {
      if k.aead.open(other, nonce, k.header, f[from..to]).Some? { ToyOpensChunks(p, other, nonce, f[from..to]); }
    }
  }
}
