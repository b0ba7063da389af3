/**
 Sealed content values: the associated data that binds a value to its place, the TEXT envelope
 `encb:v1:` and the BLOB envelope `RYU-CB01`, with retired keys and the keyless escape.
 */
module Content {
  import opened Wrappers
  import opened Bytes

  /** A symmetric key. Its check value identifies it, so keys are compared directly. */
  datatype AeadKey = AeadKey(id: nat)

  const NONCE_LEN := 12
  const TAG_LEN := 16

  /**
   ChaCha20-Poly1305 (section 2.8 of RFC 8439), as a parameter: sealing adds a 16-byte tag, opening
   removes it, and what was sealed opens under the same key, nonce and associated data.
   */
  datatype Aead = Aead(
    seal: (AeadKey, bytes, bytes, bytes) -> bytes,
    open: (AeadKey, bytes, bytes, bytes) -> Option<bytes>)
  {
    ghost predicate Lawful() {
      && (forall k, n, a, p :: |seal(k, n, a, p)| == |p| + TAG_LEN && open(k, n, a, seal(k, n, a, p)) == Some(p))
      && (forall k, n, a, c :: open(k, n, a, c).Some? ==> |c| == |open(k, n, a, c).value| + TAG_LEN)
    }
  }

  /** Text encodings, as parameters: base64 (decoding trims first) and UTF-8. */
  datatype Codec = Codec(
    encode64: bytes -> string,
    decode64: string -> Option<bytes>,
    utf8: string -> bytes,
    fromUtf8: bytes -> Option<string>)
  {
    ghost predicate Lawful() {
      && (forall b :: decode64(encode64(b)) == Some(b))
      && (forall s :: fromUtf8(utf8(s)) == Some(s))
    }
  }

  // ── Where a value lives ─────────────────────────────────────────────────────

  /** A purpose and labelled stable ids, each as its UTF-8 bytes. */
  datatype ContentContext = ContentContext(purpose: bytes, fields: seq<(bytes, bytes)>)

  /** `ryu-content-seal-v1`, `store` and `purpose` in ASCII. */
  const AAD_LABEL: bytes := [114, 121, 117, 45, 99, 111, 110, 116, 101, 110, 116, 45, 115, 101, 97, 108, 45, 118, 49]
  const STORE_LABEL: bytes := [115, 116, 111, 114, 101]
  const PURPOSE_LABEL: bytes := [112, 117, 114, 112, 111, 115, 101]

  function Flatten(fields: seq<(bytes, bytes)>): (parts: seq<bytes>)
    ensures |parts| == 2 * |fields|
  {
    if fields == [] then [] else [fields[0].0, fields[0].1] + Flatten(fields[1..])
  }

  function Parts(store: bytes, c: ContentContext): seq<bytes> {
    [AAD_LABEL, STORE_LABEL, store, PURPOSE_LABEL, c.purpose] + Flatten(c.fields)
  }

  /** Every part preceded by its length as a 64-bit big-endian integer. */
  function LengthPrefixed(parts: seq<bytes>): bytes {
    if parts == [] then [] else BigEndian(|parts[0]|, 8) + parts[0] + LengthPrefixed(parts[1..])
  }

  function AssociatedData(store: bytes, c: ContentContext): bytes {
    LengthPrefixed(Parts(store, c))
  }

  /** Every part is shorter than 2^64 bytes. */
  predicate Encodable(parts: seq<bytes>) {
    forall p :: p in parts ==> |p| < Pow256(8)
  }

  lemma {:induction false} LengthPrefixedInjective(a: seq<bytes>, b: seq<bytes>)
    requires Encodable(a) && Encodable(b)
    requires LengthPrefixed(a) == LengthPrefixed(b)
    ensures a == b
  {
    hide BigEndian, Pow256;
    if a != [] && b != [] {
      var x, y := LengthPrefixed(a), LengthPrefixed(b);
      BigEndianRoundTrip(|a[0]|, 8);
      BigEndianRoundTrip(|b[0]|, 8);
      assert x[..8] == BigEndian(|a[0]|, 8) && y[..8] == BigEndian(|b[0]|, 8);
      assert |a[0]| == |b[0]|;
      assert x[8..8 + |a[0]|] == a[0] && y[8..8 + |b[0]|] == b[0];
      assert x[8 + |a[0]|..] == LengthPrefixed(a[1..]) && y[8 + |b[0]|..] == LengthPrefixed(b[1..]);
      LengthPrefixedInjective(a[1..], b[1..]);
      assert a == [a[0]] + a[1..] && b == [b[0]] + b[1..];
    }
  }

  lemma {:induction false} FlattenInjective(a: seq<(bytes, bytes)>, b: seq<(bytes, bytes)>)
    requires Flatten(a) == Flatten(b)
    ensures a == b
  {
    if a != [] && b != [] {
      var x, y := Flatten(a), Flatten(b);
      assert x[0] == a[0].0 && x[1] == a[0].1 && y[0] == b[0].0 && y[1] == b[0].1;
      assert x[2..] == Flatten(a[1..]) && y[2..] == Flatten(b[1..]);
      FlattenInjective(a[1..], b[1..]);
      assert a == [a[0]] + a[1..] && b == [b[0]] + b[1..];
    }
  }

  /** No two places encode to the same associated data. */
  lemma AssociatedDataInjective(store: bytes, c: ContentContext, store': bytes, c': ContentContext)
    requires Encodable(Parts(store, c)) && Encodable(Parts(store', c'))
    requires AssociatedData(store, c) == AssociatedData(store', c')
    ensures store == store' && c == c'
  {
    LengthPrefixedInjective(Parts(store, c), Parts(store', c'));
    var x, y := Parts(store, c), Parts(store', c');
    assert x[2] == store && y[2] == store';
    assert x[4] == c.purpose && y[4] == c'.purpose;
    assert x[5..] == Flatten(c.fields) && y[5..] == Flatten(c'.fields);
    FlattenInjective(c.fields, c'.fields);
  }

  // ── The cipher of one store ─────────────────────────────────────────────────

  datatype SealError = UnknownVersion | DoesNotOpen | Malformed | AlreadyAnEnvelope

  datatype Opened<T> = Opened(value: T, needsReseal: bool)

  const TEXT_FAMILY := "encb:"
  const TEXT_PREFIX := "encb:v1:"
  const COMPAT_ESCAPE := "encb:raw:"

  /** The four bytes `RYU-` every magic starts with, and the three magics of this version. */
  const MAGIC_HEAD: bytes := [82, 89, 85, 45]
  const CONTENT_MAGIC: bytes := MAGIC_HEAD + [67, 66, 48, 49]
  const FILE_MAGIC: bytes := MAGIC_HEAD + [83, 70, 48, 49]
  const LOG_MAGIC: bytes := MAGIC_HEAD + [83, 76, 48, 49]

  /** `RYU-`, two upper-case letters and two digits. */
  predicate LooksLikeMagic(b: bytes) {
    && |b| >= 8 && MAGIC_HEAD <= b
    && 65 <= b[4] <= 90 && 65 <= b[5] <= 90
    && 48 <= b[6] <= 57 && 48 <= b[7] <= 57
  }

  predicate StartsWithRyuMagic(b: bytes) {
    CONTENT_MAGIC <= b || FILE_MAGIC <= b || LOG_MAGIC <= b
  }

  function DigitRun(s: string): (n: nat)
    ensures n <= |s|
  {
    if s != [] && '0' <= s[0] <= '9' then 1 + DigitRun(s[1..]) else 0
  }

  /** `encb:v<digits>:`, an envelope of some version. */
  predicate VersionedFamily(s: string) {
    && TEXT_FAMILY <= s
    && var rest := s[|TEXT_FAMILY|..];
       && rest != [] && rest[0] == 'v'
       && var digits := DigitRun(rest[1..]);
          digits > 0 && 1 + digits < |rest| && rest[1 + digits] == ':'
  }

  datatype Cipher = Cipher(aead: Aead, codec: Codec, current: AeadKey, retired: seq<AeadKey>)
  {
    ghost predicate Lawful() { aead.Lawful() && codec.Lawful() }

    /** The same cipher, also opening under `roots`; the current key and repeats are left out. */
    function WithRetiredRoots(roots: seq<AeadKey>): (c: Cipher)
      ensures c.current == current && current !in c.retired
      ensures forall k :: k in c.retired <==> k in roots && k != current
      ensures forall i, j :: 0 <= i < j < |c.retired| ==> c.retired[i] != c.retired[j]
    {
      this.(retired := DistinctExcept(roots, current))
    }

    /** The first retired key that opens the blob. */
    function OpenRetired(keys: seq<AeadKey>, nonce: bytes, aad: bytes, sealed: bytes): Option<bytes> {
      if keys == [] then None
      else match aead.open(keys[0], nonce, aad, sealed)
        case Some(plain) => Some(plain)
        case None => OpenRetired(keys[1..], nonce, aad, sealed)
    }

    /** The plaintext, and whether only a retired key opened it. */
    function OpenBlob(blob: bytes, aad: bytes): Option<(bytes, bool)>
      requires |blob| >= NONCE_LEN
    {
      var nonce, sealed := blob[..NONCE_LEN], blob[NONCE_LEN..];
      match aead.open(current, nonce, aad, sealed)
      case Some(plain) => Some((plain, false))
      case None =>
        match OpenRetired(retired, nonce, aad, sealed)
        case Some(plain) => Some((plain, true))
        case None => None
    }

    function SealText(plain: string, aad: bytes, nonce: bytes): string
      requires |nonce| == NONCE_LEN
    {
      TEXT_PREFIX + codec.encode64(nonce + aead.seal(current, nonce, aad, codec.utf8(plain)))
    }

    function OpenText(stored: string, aad: bytes): Result<Opened<string>, SealError> {
      if TEXT_PREFIX <= stored then
        match codec.decode64(stored[|TEXT_PREFIX|..])
        case None => Failure(Malformed)
        case Some(blob) =>
          if |blob| < NONCE_LEN + TAG_LEN then Failure(Malformed)
          else match OpenBlob(blob, aad)
            case None => Failure(DoesNotOpen)
            case Some(found) =>
              match codec.fromUtf8(found.0)
              case None => Failure(Malformed)
              case Some(text) => Success(Opened(text, found.1))
      else if VersionedFamily(stored) then Failure(UnknownVersion)
      else Success(Opened(stored, stored != []))
    }

    function SealBytes(plain: bytes, aad: bytes, nonce: bytes): Result<bytes, SealError>
      requires |nonce| == NONCE_LEN
    {
      if StartsWithRyuMagic(plain) then Failure(AlreadyAnEnvelope)
      else Success(CONTENT_MAGIC + nonce + aead.seal(current, nonce, aad, plain))
    }

    function OpenBytes(stored: bytes, aad: bytes): Result<Opened<bytes>, SealError> {
      if CONTENT_MAGIC <= stored then
        var blob := stored[8..];
        if |blob| < NONCE_LEN + TAG_LEN then Failure(Malformed)
        else match OpenBlob(blob, aad)
          case None => Failure(DoesNotOpen)
          case Some(found) => Success(Opened(found.0, found.1))
      else if LooksLikeMagic(stored) then Failure(UnknownVersion)
      else Success(Opened(stored, stored != []))
    }

    lemma SealedTextOpens(plain: string, aad: bytes, nonce: bytes)
      requires Lawful() && |nonce| == NONCE_LEN
      ensures OpenText(SealText(plain, aad, nonce), aad) == Success(Opened(plain, false))
    {
      var sealed := aead.seal(current, nonce, aad, codec.utf8(plain));
      var blob := nonce + sealed;
      assert SealText(plain, aad, nonce)[|TEXT_PREFIX|..] == codec.encode64(blob);
      assert blob[..NONCE_LEN] == nonce && blob[NONCE_LEN..] == sealed;
    }

    lemma SealedBytesOpen(plain: bytes, aad: bytes, nonce: bytes)
      requires Lawful() && |nonce| == NONCE_LEN && !StartsWithRyuMagic(plain)
      ensures OpenBytes(SealBytes(plain, aad, nonce).value, aad) == Success(Opened(plain, false))
    {
      var sealed := aead.seal(current, nonce, aad, plain);
      var stored := CONTENT_MAGIC + nonce + sealed;
      assert stored[..8] == CONTENT_MAGIC;
      assert stored[8..] == nonce + sealed;
      assert stored[8..][..NONCE_LEN] == nonce && stored[8..][NONCE_LEN..] == sealed;
    }
  }

  /**
   A store's cipher and the place of one of its files, with the derivation of the file's own key
   (HKDF over the store key, the file's salt and its place).
   */
  datatype Vault = Vault(cipher: Cipher, aad: bytes, derive: (AeadKey, bytes, bytes) -> AeadKey)
  {
    /** The keys to try: the current one, then the retired ones. */
    function Keys(): (keys: seq<AeadKey>)
      ensures |keys| > 0 && keys[0] == cipher.current
    {
      [cipher.current] + cipher.retired
    }

    function FileKey(salt: bytes, i: nat): AeadKey
      requires i < |Keys()|
    {
      derive(Keys()[i], salt, aad)
    }
  }

  function DistinctExcept(roots: seq<AeadKey>, current: AeadKey): (r: seq<AeadKey>)
    ensures forall k :: k in r <==> k in roots && k != current
    ensures forall i, j :: 0 <= i < j < |r| ==> r[i] != r[j]
    decreases |roots|
  {
    if roots == [] then []
    else
      var before := DistinctExcept(roots[..|roots| - 1], current);
      var last := roots[|roots| - 1];
      if last == current || last in before then before else before + [last]
  }

  /** Retired roots are tried in the order they were given. */
  lemma {:induction false} RootsInOrder(roots: seq<AeadKey>, more: seq<AeadKey>, current: AeadKey)
    ensures DistinctExcept(roots, current) <= DistinctExcept(roots + more, current)
  {
    if more == [] {
      assert roots + more == roots;
    } else {
      RootsInOrder(roots, more[..|more| - 1], current);
      assert (roots + more)[..|roots + more| - 1] == roots + more[..|more| - 1];
    }
  }

  // ── What opens, under which key ─────────────────────────────────────────────

  /** The `i`-th key, the current one first, is the first that opens the ciphertext, to `plain`. */
  ghost predicate FirstOpens(c: Cipher, nonce: bytes, aad: bytes, sealed: bytes, i: nat, plain: bytes) {
    var keys := [c.current] + c.retired;
    && i < |keys| && c.aead.open(keys[i], nonce, aad, sealed) == Some(plain)
    && forall j :: 0 <= j < i ==> c.aead.open(keys[j], nonce, aad, sealed).None?
  }

  ghost predicate NoneOpens(c: Cipher, nonce: bytes, aad: bytes, sealed: bytes) {
    forall k :: k in [c.current] + c.retired ==> c.aead.open(k, nonce, aad, sealed).None?
  }

  lemma {:induction false} FirstRetiredOpens(c: Cipher, keys: seq<AeadKey>, nonce: bytes, aad: bytes, sealed: bytes)
    ensures match c.OpenRetired(keys, nonce, aad, sealed)
      case Some(plain) =>
        exists i :: 0 <= i < |keys| && c.aead.open(keys[i], nonce, aad, sealed) == Some(plain)
                 && forall j :: 0 <= j < i ==> c.aead.open(keys[j], nonce, aad, sealed).None?
      case None => forall k :: k in keys ==> c.aead.open(k, nonce, aad, sealed).None?
  {
    if keys != [] && c.aead.open(keys[0], nonce, aad, sealed).None? {
      var rest := keys[1..];
      FirstRetiredOpens(c, rest, nonce, aad, sealed);
      var r := c.OpenRetired(rest, nonce, aad, sealed);
      if r.Some? {
        var i :| 0 <= i < |rest| && c.aead.open(rest[i], nonce, aad, sealed) == r
              && forall j :: 0 <= j < i ==> c.aead.open(rest[j], nonce, aad, sealed).None?;
        assert forall j :: 0 < j <= i ==> keys[j] == rest[j - 1];
        assert keys[i + 1] == rest[i];
      }
    }
  }

  lemma OneOpensFirst(c: Cipher, nonce: bytes, aad: bytes, sealed: bytes, i: nat, plain: bytes, j: nat, other: bytes)
    requires FirstOpens(c, nonce, aad, sealed, i, plain) && FirstOpens(c, nonce, aad, sealed, j, other)
    ensures i == j && plain == other
  {}

  /** The first key that opens a blob decides, and whether it is the current one. */
  lemma BlobOpens(c: Cipher, nonce: bytes, sealed: bytes, aad: bytes)
    requires |nonce| == NONCE_LEN
    ensures forall i: nat, plain :: FirstOpens(c, nonce, aad, sealed, i, plain) ==>
      c.OpenBlob(nonce + sealed, aad) == Some((plain, i > 0))
    ensures c.OpenBlob(nonce + sealed, aad).None? <==> NoneOpens(c, nonce, aad, sealed)
    ensures c.OpenBlob(nonce + sealed, aad).Some? ==>
      c.OpenBlob(nonce + sealed, aad).value.1 == c.aead.open(c.current, nonce, aad, sealed).None?
  {
    assert (nonce + sealed)[..NONCE_LEN] == nonce && (nonce + sealed)[NONCE_LEN..] == sealed;
    FirstRetiredOpens(c, c.retired, nonce, aad, sealed);
    var keys, r := [c.current] + c.retired, c.OpenBlob(nonce + sealed, aad);
    assert forall k :: k in keys <==> k == c.current || k in c.retired;
    if c.aead.open(c.current, nonce, aad, sealed).Some? {
      assert FirstOpens(c, nonce, aad, sealed, 0, r.value.0);
      forall i: nat, plain | FirstOpens(c, nonce, aad, sealed, i, plain) ensures r == Some((plain, i > 0)) {
        OneOpensFirst(c, nonce, aad, sealed, 0, r.value.0, i, plain);
      }
      assert c.current in keys;
    } else if r.Some? {
      var i :| 0 <= i < |c.retired| && c.aead.open(c.retired[i], nonce, aad, sealed) == Some(r.value.0)
            && forall j :: 0 <= j < i ==> c.aead.open(c.retired[j], nonce, aad, sealed).None?;
      assert forall j :: 0 < j <= i + 1 ==> keys[j] == c.retired[j - 1];
      assert FirstOpens(c, nonce, aad, sealed, i + 1, r.value.0);
      forall j: nat, plain | FirstOpens(c, nonce, aad, sealed, j, plain) ensures r == Some((plain, j > 0)) {
        OneOpensFirst(c, nonce, aad, sealed, i + 1, r.value.0, j, plain);
      }
      assert keys[i + 1] in keys;
    } else {
      assert NoneOpens(c, nonce, aad, sealed);
    }
  }

  /**
   What opening a TEXT envelope returns: the plaintext under the first key that opens it, flagged for
   resealing exactly when the current key does not.
   */
  lemma TextEnvelopeOpens(c: Cipher, stored: string, aad: bytes, nonce: bytes, sealed: bytes)
    requires TEXT_PREFIX <= stored && c.codec.decode64(stored[|TEXT_PREFIX|..]) == Some(nonce + sealed)
    requires |nonce| == NONCE_LEN && |sealed| >= TAG_LEN
    ensures forall i: nat, plain :: FirstOpens(c, nonce, aad, sealed, i, plain) ==>
      c.OpenText(stored, aad)
        == if c.codec.fromUtf8(plain).Some? then Success(Opened(c.codec.fromUtf8(plain).value, i > 0)) else Failure(Malformed)
    ensures c.OpenText(stored, aad) == Failure(DoesNotOpen) <==> NoneOpens(c, nonce, aad, sealed)
    ensures c.OpenText(stored, aad).Success? ==>
      (c.OpenText(stored, aad).value.needsReseal <==> c.aead.open(c.current, nonce, aad, sealed).None?)
  {
    hide FirstOpens, NoneOpens;
    BlobOpens(c, nonce, sealed, aad);
  }

  /** The same for a BLOB envelope. */
  lemma BytesEnvelopeOpens(c: Cipher, aad: bytes, nonce: bytes, sealed: bytes)
    requires |nonce| == NONCE_LEN && |sealed| >= TAG_LEN
    ensures var r := c.OpenBytes(CONTENT_MAGIC + (nonce + sealed), aad);
      && (forall i: nat, plain :: FirstOpens(c, nonce, aad, sealed, i, plain) ==> r == Success(Opened(plain, i > 0)))
      && (r == Failure(DoesNotOpen) <==> NoneOpens(c, nonce, aad, sealed))
      && (r.Success? ==> (r.value.needsReseal <==> c.aead.open(c.current, nonce, aad, sealed).None?))
  {
    hide FirstOpens, NoneOpens;
    BlobOpens(c, nonce, sealed, aad);
    var stored := CONTENT_MAGIC + (nonce + sealed);
    assert stored[..8] == CONTENT_MAGIC && stored[8..] == nonce + sealed;
  }

  /** `encb:v`, at least one digit, a colon. */
  ghost predicate IsVersion(s: string, digits: string, rest: string) {
    digits != [] && (forall i :: 0 <= i < |digits| ==> '0' <= digits[i] <= '9') && s == "encb:v" + digits + ":" + rest
  }

  lemma {:induction false} DigitRunIs(s: string)
    ensures forall i :: 0 <= i < DigitRun(s) ==> '0' <= s[i] <= '9'
    ensures DigitRun(s) < |s| ==> !('0' <= s[DigitRun(s)] <= '9')
  {
    if s != [] && '0' <= s[0] <= '9' { DigitRunIs(s[1..]); }
  }

  /**
   TEXT without this version's prefix: refused exactly when it is an envelope of another version, and
   otherwise legacy plaintext, to be sealed unless empty.
   */
  lemma OtherTextOpens(c: Cipher, stored: string, aad: bytes)
    requires !(TEXT_PREFIX <= stored)
    ensures (exists digits, rest :: IsVersion(stored, digits, rest)) <==> c.OpenText(stored, aad) == Failure(UnknownVersion)
    ensures (exists digits, rest :: IsVersion(stored, digits, rest)) || c.OpenText(stored, aad) == Success(Opened(stored, stored != []))
  {
    if VersionedFamily(stored) {
      var rest := stored[6..];
      DigitRunIs(rest);
      var n := DigitRun(rest);
      assert stored[..5] == TEXT_FAMILY && stored[5] == 'v' && stored[5..][1..] == rest;
      assert stored == "encb:v" + rest[..n] + ":" + rest[n + 1..];
      assert IsVersion(stored, rest[..n], rest[n + 1..]);
    }
    forall digits, rest | IsVersion(stored, digits, rest) ensures VersionedFamily(stored) {
      assert stored[5..][1..] == digits + ":" + rest;
      DigitsThenColon(digits, rest);
      assert TEXT_FAMILY <= stored;
    }
  }

  lemma {:induction false} DigitsThenColon(digits: string, rest: string)
    requires forall i :: 0 <= i < |digits| ==> '0' <= digits[i] <= '9'
    ensures DigitRun(digits + ":" + rest) == |digits|
  {
    if digits != [] {
      DigitsThenColon(digits[1..], rest);
      assert (digits + ":" + rest)[1..] == digits[1..] + ":" + rest;
    }
  }

  /** BLOBs without this version's magic: refused exactly when they start like `RYU-CB02`. */
  lemma OtherBytesOpen(c: Cipher, stored: bytes, aad: bytes)
    requires !(CONTENT_MAGIC <= stored)
    ensures c.OpenBytes(stored, aad)
      == if exists v, rest :: IsMagic(stored, v, rest) then Failure(UnknownVersion) else Success(Opened(stored, stored != []))
  {
    if LooksLikeMagic(stored) {
      var v := seq(4, i requires 0 <= i < 4 => stored[4 + i] as char);
      assert stored == Ascii("RYU-") + Ascii(v) + stored[8..];
      assert IsMagic(stored, v, stored[8..]);
    }
  }

  function Ascii(s: string): bytes {
    seq(|s|, i requires 0 <= i < |s| => (s[i] as int % 256) as byte)
  }

  ghost predicate IsMagic(b: bytes, v: string, rest: bytes) {
    && |v| == 4 && b == Ascii("RYU-") + Ascii(v) + rest
    && 'A' <= v[0] <= 'Z' && 'A' <= v[1] <= 'Z' && '0' <= v[2] <= '9' && '0' <= v[3] <= '9'
  }

  /** What may not be sealed as a blob: `RYU-CB01`, `RYU-SF01` and `RYU-SL01` at its start. */
  lemma SealRefuses(c: Cipher, plain: bytes, aad: bytes, nonce: bytes)
    requires |nonce| == NONCE_LEN
    ensures c.SealBytes(plain, aad, nonce).Failure? <==> exists v :: v in ["CB01", "SF01", "SL01"] && Ascii("RYU-" + v) <= plain
  {
    assert Ascii("RYU-CB01") == CONTENT_MAGIC && Ascii("RYU-SF01") == FILE_MAGIC && Ascii("RYU-SL01") == LOG_MAGIC;
    assert "RYU-" + "CB01" == "RYU-CB01" && "RYU-" + "SF01" == "RYU-SF01" && "RYU-" + "SL01" == "RYU-SL01";
    assert "CB01" in ["CB01", "SF01", "SL01"];
    assert "SF01" in ["CB01", "SF01", "SL01"];
    assert "SL01" in ["CB01", "SF01", "SL01"];
  }

  // ── Stores without a key ────────────────────────────────────────────────────

  /** What a keyless store keeps for a TEXT value. */
  function CompatText(value: string): string {
    if TEXT_FAMILY <= value then COMPAT_ESCAPE + value else value
  }

  /** A TEXT value as the store layer reads it once a key is held: the escape is stripped first. */
  function ReadText(c: Cipher, stored: string, aad: bytes): Result<string, SealError> {
    if COMPAT_ESCAPE <= stored then Success(stored[|COMPAT_ESCAPE|..])
    else
      var found :- c.OpenText(stored, aad);
      Success(found.value)
  }

  lemma LongerPrefix(p: string, q: string, s: string)
    requires p <= q
    ensures q <= s ==> p <= s
  {}

  /** Every text written without a key, envelope lookalikes included, reads back once a key is held. */
  lemma CompatTextSurvives(c: Cipher, value: string, aad: bytes)
    ensures ReadText(c, CompatText(value), aad) == Success(value)
    ensures CompatText(value) == if |value| >= 5 && value[..5] == "encb:" then "encb:raw:" + value else value
  {
    if TEXT_FAMILY <= value {
      assert (COMPAT_ESCAPE + value)[|COMPAT_ESCAPE|..] == value;
    } else {
      assert TEXT_FAMILY <= TEXT_PREFIX && TEXT_FAMILY <= COMPAT_ESCAPE;
      LongerPrefix(TEXT_FAMILY, TEXT_PREFIX, value);
      LongerPrefix(TEXT_FAMILY, COMPAT_ESCAPE, value);
    }
  }

  /**
   A BLOB written without a key (anything but an `RYU-CB01` lookalike is accepted) reads back once
   a key is held exactly when it does not look like some Ryu magic; such a value is refused.
   */
  lemma CompatBytesSurvive(c: Cipher, value: bytes, aad: bytes)
    requires !(CONTENT_MAGIC <= value)
    ensures c.OpenBytes(value, aad) == Success(Opened(value, value != [])) <==> !LooksLikeMagic(value)
    ensures LooksLikeMagic(value) ==> c.OpenBytes(value, aad) == Failure(UnknownVersion)
  {}

  /** A concrete keyless blob that is accepted and cannot be read once a key is held. */
  lemma SomeCompatBlobIsRefused(c: Cipher, aad: bytes)
    ensures !(CONTENT_MAGIC <= LOG_MAGIC) && LooksLikeMagic(LOG_MAGIC)
    ensures c.OpenBytes(LOG_MAGIC, aad) == Failure(UnknownVersion)
  {
    assert LOG_MAGIC[4] == 83 && LOG_MAGIC[5] == 76 && LOG_MAGIC[6] == 48 && LOG_MAGIC[7] == 49;
    assert CONTENT_MAGIC[4] == 67 && LOG_MAGIC[..4] == MAGIC_HEAD;
  }
}
