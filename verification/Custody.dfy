/**
 Master-key custody: where the key of a data folder lives, which key a start of the program
 resolves, and how adopting, importing and retiring keys rewrite the folder.

 A folder is a value of `World`; `DataFolder` updates it one atomic write at a time and keeps
 every state it has been in on `trail`. A crash can only stop the program between two writes,
 so what holds of every state of the trail holds after every crash.
 */
module Custody {
  import opened Wrappers

  /** A 32-byte key, known only by its identity. */
  datatype Key = Key(id: nat)

  /** The key check value of a key. A free constructor: different keys have different values. */
  datatype Kcv = KcvOf(key: Key)

  /** What reading one keychain account returns. */
  datatype Slot = Holds(key: Key) | Empty | Corrupt | Unavailable

  datatype Account = MasterAccount | RetiredAccount(kcv: Kcv)

  datatype Place = InKeychain | InFile

  datatype RetiredEntry = RetiredEntry(kcv: Kcv, place: Place)

  /** Everything custody keeps: the keychain accounts, the key files and the state records. */
  datatype World = World(
    slot: Slot,
    retiredSlots: map<Kcv, Slot>,
    masterFile: Stored<Key>,
    legacyFile: Stored<Key>,
    retiredFiles: map<Kcv, Stored<Key>>,
    index: Stored<seq<RetiredEntry>>,
    record: Stored<Kcv>,
    minReader: Stored<int>)

  const MAX_RETIRED_KEYS := 4
  const SUPPORTED_MIN_READER := 2

  /** The answer of the keychain to one store: whether it reports success, and what it did. */
  datatype StoreReply = StoreReply(reported: bool, effect: StoreEffect)
  datatype StoreEffect = Took | Ignored | Seeded(other: Key)

  datatype KeyProbe = ProbePassed | NoSealedData | ProbeFailed

  datatype Source = FromEnv | FromKeychain | FromFile

  /** What one start of the program (or one key command) runs under. */
  datatype Boot = Boot(
    env: Option<Option<Key>>,  // the environment key: unset, set but not a key, set
    keychainEnabled: bool,
    keychainReachable: bool,
    store: (Account, Key) -> StoreReply,
    allowFile: bool,
    recordsKcv: bool,
    probe: Key -> KeyProbe,
    sealedEvidence: bool,
    generated: Key)  // the key a generation would draw
  {
    predicate SeesKeychain() { keychainEnabled && keychainReachable }

    function Get(s: Slot): Slot { if SeesKeychain() then s else Unavailable }

    /** The slot after storing `key` over `s`; another process can only win an empty slot. */
    function AfterStore(account: Account, s: Slot, key: Key): Slot
    {
      if !SeesKeychain() then s
      else match store(account, key).effect
        case Took => Holds(key)
        case Ignored => s
        case Seeded(other) => if s == Empty then Holds(other) else s
    }

    predicate StoreReports(account: Account, key: Key) { SeesKeychain() && store(account, key).reported }

    function EnvKey(): Option<Key> { if env.Some? then env.value else None }
  }

  // ── What a folder holds ─────────────────────────────────────────────────────

  function Entries(w: World): seq<RetiredEntry> {
    if w.index.Present? then w.index.value else []
  }

  function RetiredSlot(w: World, kcv: Kcv): Slot {
    if kcv in w.retiredSlots then w.retiredSlots[kcv] else Empty
  }

  function RetiredFile(w: World, kcv: Kcv): Stored<Key> {
    if kcv in w.retiredFiles then w.retiredFiles[kcv] else Absent
  }

  /** The key is in the keychain slot, the key file or the legacy file. */
  ghost predicate Live(w: World, key: Key) {
    w.slot == Holds(key) || w.masterFile == Present(key) || w.legacyFile == Present(key)
  }

  predicate EntryHolds(w: World, e: RetiredEntry, key: Key) {
    && e.kcv == KcvOf(key)
    && match e.place
       case InKeychain => RetiredSlot(w, e.kcv) == Holds(key)
       case InFile => RetiredFile(w, e.kcv) == Present(key)
  }

  /** The key is listed as retired and its material is stored. */
  ghost predicate IsRetired(w: World, key: Key) {
    exists e :: e in Entries(w) && EntryHolds(w, e, key)
  }

  /** The retired set is consistent: small, every entry backed by its key, no file misnamed. */
  ghost predicate Sound(w: World) {
    && !w.index.Damaged?
    && |Entries(w)| <= MAX_RETIRED_KEYS
    && (forall e :: e in Entries(w) ==> EntryHolds(w, e, e.kcv.key))
    && (forall kcv :: kcv in w.retiredFiles && w.retiredFiles[kcv].Present? ==> KcvOf(w.retiredFiles[kcv].value) == kcv)
  }

  /** The key whose check value is recorded is still held somewhere in the folder. */
  ghost predicate RecordHeld(w: World) {
    w.record.Present? ==> Live(w, w.record.value.key) || IsRetired(w, w.record.value.key)
  }

  /** The key cannot be lost: it is retired, in the keychain slot, or recorded and live. */
  ghost predicate Secure(w: World, key: Key) {
    IsRetired(w, key) || w.slot == Holds(key) || (w.record == Present(KcvOf(key)) && Live(w, key))
  }

  /** What every single write keeps. */
  ghost predicate StepSafe(w: World, w': World) {
    Sound(w) ==>
      && Sound(w') && w'.minReader == w.minReader
      && (w.record.Present? ==> w'.record.Present?)
      && (forall key :: IsRetired(w, key) ==> IsRetired(w', key))
      && (forall key :: Secure(w, key) ==> Secure(w', key))
  }

  /** A write that only moves key material between the live places. */
  ghost predicate Kept(w: World, w': World) {
    && w'.index == w.index && w'.retiredSlots == w.retiredSlots && w'.retiredFiles == w.retiredFiles
    && w'.record == w.record && w'.minReader == w.minReader
    && (forall key :: Live(w, key) ==> Live(w', key))
  }

  /** What the custody ladder may do to the live keys. */
  ghost predicate LadderMoves(w: World, w': World, b: Boot, mayGenerate: bool) {
    && Kept(w, w')
    && (forall key :: SeesLive(w, b, key) ==> SeesLive(w', b, key))
    && (forall key :: Live(w', key) ==> Live(w, key) || SeededElsewhere(b, key) || (mayGenerate && key == b.generated))
    && (forall key :: SeesLive(w', b, key) ==>
          SeesLive(w, b, key) || SeededElsewhere(b, key) || (mayGenerate && key == b.generated))
  }

  /** No key enters the keychain: its slot is as it was, and what is newly retired went to a file. */
  ghost predicate KeychainKept(w: World, w': World) {
    w'.slot == w.slot && forall e :: e in Entries(w') ==> e in Entries(w) || e.place == InFile
  }

  /** The states added to a run leave the keychain alone. */
  ghost predicate KeychainLeft(run: seq<World>, longer: seq<World>) {
    && run != [] && run <= longer
    && forall j :: |run| <= j < |longer| ==> KeychainKept(run[|run| - 1], longer[j])
  }

  lemma NothingAdded(run: seq<World>)
    requires run != []
    ensures KeychainLeft(run, run)
  {}

  lemma OneAdded(run: seq<World>, w: World)
    requires run != [] && KeychainKept(run[|run| - 1], w)
    ensures KeychainLeft(run, run + [w])
  {}

  lemma LeftOn(run: seq<World>, middle: seq<World>, longer: seq<World>)
    requires KeychainLeft(run, middle) && KeychainLeft(middle, longer)
    ensures KeychainLeft(run, longer)
  {
    var m := middle[|middle| - 1];
    assert KeychainKept(run[|run| - 1], m);
    forall j | |run| <= j < |longer| ensures KeychainKept(run[|run| - 1], longer[j]) {
      if j >= |middle| { assert KeychainKept(m, longer[j]); }
    }
  }

  /** The states added to a run keep the record and the key it names, and the keychain unless it can be read. */
  ghost predicate Along(b: Boot, run: seq<World>, longer: seq<World>) {
    && run != [] && run <= longer
    && (RecordHeld(run[|run| - 1]) ==> AllHeld(longer, |run|))
    && (forall j :: |run| <= j < |longer| ==> longer[j].record == run[|run| - 1].record)
    && (!b.SeesKeychain() ==> KeychainLeft(run, longer))
  }

  /** The same for states that may end in a write of the record. */
  ghost predicate Recording(b: Boot, run: seq<World>, longer: seq<World>) {
    && run != [] && run <= longer
    && (!b.SeesKeychain() ==> KeychainLeft(run, longer))
    && (b.EnvKey().None? && RecordHeld(run[|run| - 1]) ==> AllHeld(longer, |run|))
    && (forall j :: |run| <= j < |longer| - 1 ==> longer[j].record == run[|run| - 1].record)
  }

  lemma AlongRecording(b: Boot, run: seq<World>, middle: seq<World>, longer: seq<World>)
    requires Along(b, run, middle) && Recording(b, middle, longer)
    ensures Recording(b, run, longer)
  {
    hide RecordHeld, KeychainLeft;
    if !b.SeesKeychain() { LeftOn(run, middle, longer); }
    assert RecordHeld(run[|run| - 1]) ==> RecordHeld(middle[|middle| - 1]);
  }

  lemma AlongIsRecording(b: Boot, run: seq<World>, longer: seq<World>)
    requires Along(b, run, longer)
    ensures Recording(b, run, longer)
  {
    hide RecordHeld, KeychainLeft;
  }

  lemma AlongMeans(b: Boot, run: seq<World>, longer: seq<World>)
    requires Along(b, run, longer)
    ensures RecordHeld(run[|run| - 1]) ==> AllHeld(longer, |run|)
    ensures forall j :: |run| <= j < |longer| ==> longer[j].record == run[|run| - 1].record
  {
    hide RecordHeld, KeychainLeft;
  }

  lemma RecordingMeans(b: Boot, run: seq<World>, longer: seq<World>)
    requires Recording(b, run, longer)
    ensures run <= longer && (!b.SeesKeychain() ==> KeychainLeft(run, longer))
    ensures b.EnvKey().None? && RecordHeld(run[|run| - 1]) ==> AllHeld(longer, |run|)
    ensures forall j :: |run| <= j < |longer| - 1 ==> longer[j].record == run[|run| - 1].record
  {
    hide RecordHeld, KeychainLeft;
  }

  lemma AlongSelf(b: Boot, run: seq<World>)
    requires run != []
    ensures Along(b, run, run)
  {}

  lemma AlongOne(b: Boot, run: seq<World>, w: World)
    requires run != [] && w.record == run[|run| - 1].record && (RecordHeld(run[|run| - 1]) ==> RecordHeld(w))
    requires !b.SeesKeychain() ==> KeychainKept(run[|run| - 1], w)
    ensures Along(b, run, run + [w])
  {}

  lemma AlongOn(b: Boot, run: seq<World>, middle: seq<World>, longer: seq<World>)
    requires Along(b, run, middle) && Along(b, middle, longer)
    ensures Along(b, run, longer)
  {
    hide RecordHeld, KeychainLeft;
    if !b.SeesKeychain() { LeftOn(run, middle, longer); }
    assert RecordHeld(run[|run| - 1]) ==> RecordHeld(middle[|middle| - 1]);
  }

  lemma SameRetired(w: World, w': World)
    requires w'.index == w.index && w'.retiredSlots == w.retiredSlots && w'.retiredFiles == w.retiredFiles
    ensures forall key :: IsRetired(w, key) <==> IsRetired(w', key)
    ensures Sound(w) <==> Sound(w')
  {
    assert Entries(w) == Entries(w');
    forall e, key ensures EntryHolds(w, e, key) <==> EntryHolds(w', e, key) {}
  }

  lemma SeedingIsSafe(w: World, slot: Slot)
    requires w.slot == Empty
    ensures var w' := w.(slot := slot); StepSafe(w, w') && Kept(w, w')
  {
    SameRetired(w, w.(slot := slot));
  }

  lemma KeptStaysHeld(w: World, w': World)
    requires Kept(w, w')
    ensures forall key :: IsRetired(w, key) <==> IsRetired(w', key)
    ensures RecordHeld(w) ==> RecordHeld(w')
  {
    forall e, key ensures EntryHolds(w, e, key) <==> EntryHolds(w', e, key) {}
    assert Entries(w) == Entries(w');
  }

  /** A write that only adds to the retired set: live keys and records as before, entries kept. */
  ghost predicate Extends(w: World, w': World) {
    && w'.slot == w.slot && w'.masterFile == w.masterFile && w'.legacyFile == w.legacyFile
    && w'.record == w.record && w'.minReader == w.minReader
    && (w.index.Damaged? <==> w'.index.Damaged?)
    && Entries(w) <= Entries(w')
    && (forall e :: e in Entries(w) ==>
          RetiredSlot(w', e.kcv) == RetiredSlot(w, e.kcv) && RetiredFile(w', e.kcv) == RetiredFile(w, e.kcv))
  }

  lemma ExtendingKeepsKeys(w: World, w': World)
    requires Extends(w, w')
    ensures forall key :: Live(w, key) <==> Live(w', key)
    ensures forall key :: IsRetired(w, key) ==> IsRetired(w', key)
    ensures forall b, key :: SeesRetired(w, b, key) ==> SeesRetired(w', b, key)
    ensures RecordHeld(w) ==> RecordHeld(w')
  {
    forall e, key | e in Entries(w) ensures e in Entries(w') && (EntryHolds(w, e, key) <==> EntryHolds(w', e, key)) {}
    forall e, b | e in Entries(w) ensures e in Entries(w') && Load(w, b, e) == Load(w', b, e) {}
  }

  lemma ExtendedHeld(w: World, w': World)
    requires Extends(w, w')
    ensures w'.slot == w.slot && w'.record == w.record && (RecordHeld(w) ==> RecordHeld(w'))
  {
    ExtendingKeepsKeys(w, w');
  }

  lemma ExtendedSlots(w: World, w': World)
    requires Extends(w, w')
    ensures w'.slot == w.slot && w'.masterFile == w.masterFile && w'.legacyFile == w.legacyFile && w'.record == w.record
  {}

  lemma ExtendsCompose(w: World, m: World, w': World)
    requires Extends(w, m) && Extends(m, w')
    ensures Extends(w, w')
  {
    assert forall e :: e in Entries(w) ==> e in Entries(m);
  }

  lemma ExtendsPrefix(w: World, w': World)
    requires Extends(w, w')
    ensures Entries(w) <= Entries(w')
  {}

  lemma ExtendsSelf(w: World)
    ensures Extends(w, w)
  {}

  lemma SoundIndex(w: World)
    requires Sound(w)
    ensures !w.index.Damaged? && forall e :: e in Entries(w) ==> EntryHolds(w, e, e.kcv.key)
  {}

  lemma AddingMaterial(w: World, w': World, key: Key)
    requires !Listed(Entries(w), key)
    requires
      || w' == w.(retiredSlots := w.retiredSlots[KcvOf(key) := RetiredSlot(w', KcvOf(key))])
      || w' == w.(retiredFiles := w.retiredFiles[KcvOf(key) := Present(key)])
    ensures Extends(w, w') && Entries(w') == Entries(w) && (Sound(w) ==> Sound(w'))
  {
    forall e | e in Entries(w)
      ensures RetiredSlot(w', e.kcv) == RetiredSlot(w, e.kcv) && RetiredFile(w', e.kcv) == RetiredFile(w, e.kcv)
    {
      assert e.kcv != KcvOf(key);
    }
    forall e, k | e in Entries(w) ensures EntryHolds(w', e, k) <==> EntryHolds(w, e, k) {}
  }

  lemma AddingEntry(w: World, w': World, entry: RetiredEntry)
    requires !w.index.Damaged? && |Entries(w)| < MAX_RETIRED_KEYS
    requires w' == w.(index := Present(Entries(w) + [entry]))
    ensures Extends(w, w') && Entries(w') == Entries(w) + [entry]
    ensures forall k :: EntryHolds(w', entry, k) <==> EntryHolds(w, entry, k)
    ensures Sound(w) && EntryHolds(w, entry, entry.kcv.key) ==> Sound(w')
  {
    forall e, k ensures EntryHolds(w', e, k) <==> EntryHolds(w, e, k) {}
  }

  /** Removing the key file, or the legacy file, of a retired key that is not the recorded one. */
  lemma RemovalIsSafe(w: World, w': World, key: Key)
    requires
      || (w' == w.(masterFile := Absent) && w.masterFile == Present(key))
      || (w' == w.(legacyFile := Absent) && w.legacyFile == Present(key))
    requires IsRetired(w, key) && w.record != Present(KcvOf(key))
    ensures StepSafe(w, w') && (RecordHeld(w) ==> RecordHeld(w'))
    ensures IsRetired(w', key) && forall k :: Live(w, k) ==> Live(w', k) || k == key
    ensures forall k :: IsRetired(w, k) <==> IsRetired(w', k)
  {
    SameRetired(w, w');
  }

  /** The key reached an empty keychain slot from another process. */
  ghost predicate SeededElsewhere(b: Boot, key: Key) {
    exists account, k :: b.store(account, k).effect == Seeded(key)
  }

  ghost predicate SafePath(run: seq<World>) {
    forall i, j :: 0 <= i && j == i + 1 < |run| ==> StepSafe(run[i], run[j])
  }

  /** From position `from` on, every state holds the key it records. */
  ghost predicate AllHeld(run: seq<World>, from: nat) {
    forall j :: from <= j < |run| ==> RecordHeld(run[j])
  }

  // ── What a start can see ────────────────────────────────────────────────────

  function Load(w: World, b: Boot, e: RetiredEntry): Option<Key> {
    match e.place
    case InKeychain =>
      var s := b.Get(RetiredSlot(w, e.kcv));
      if s.Holds? && KcvOf(s.key) == e.kcv then Some(s.key) else None
    case InFile =>
      var f := RetiredFile(w, e.kcv);
      if f.Present? && KcvOf(f.value) == e.kcv then Some(f.value) else None
  }

  datatype Kind = EnvKind | KeychainKind | FileKind | LegacyKind | RetiredKind(kcv: Kcv)

  datatype Candidate = Candidate(kind: Kind, key: Key)

  function SourceOf(kind: Kind): Source {
    match kind
    case EnvKind => FromEnv
    case KeychainKind => FromKeychain
    case _ => FromFile
  }

  function LoadEntries(w: World, b: Boot, es: seq<RetiredEntry>): (cs: seq<Candidate>)
    ensures forall c :: c in cs ==> c.kind.RetiredKind? && c.kind.kcv == KcvOf(c.key)
    ensures forall c :: c in cs ==> exists e :: e in es && Load(w, b, e) == Some(c.key)
    ensures forall e :: e in es && Load(w, b, e).Some? ==> Candidate(RetiredKind(e.kcv), Load(w, b, e).value) in cs
  {
    if es == [] then []
    else
      var rest := LoadEntries(w, b, es[1..]);
      var first := Load(w, b, es[0]);
      if first.Some? then [Candidate(RetiredKind(es[0].kcv), first.value)] + rest else rest
  }

  function LoadAll(w: World, b: Boot): seq<Candidate> {
    LoadEntries(w, b, Entries(w))
  }

  /** The key is retired and this start can read it. */
  predicate SeesRetired(w: World, b: Boot, key: Key) {
    exists e :: e in Entries(w) && Load(w, b, e) == Some(key)
  }

  /** Every key the folder can see, in recovery order. */
  function Candidates(w: World, b: Boot): (cs: seq<Candidate>)
    ensures forall c :: c in cs ==>
      match c.kind
      case EnvKind => b.EnvKey() == Some(c.key)
      case KeychainKind => b.SeesKeychain() && w.slot == Holds(c.key)
      case FileKind => w.masterFile == Present(c.key)
      case LegacyKind => w.legacyFile == Present(c.key)
      case RetiredKind(_) => c in LoadAll(w, b)
  {
    (if b.EnvKey().Some? then [Candidate(EnvKind, b.EnvKey().value)] else [])
    + (if b.Get(w.slot).Holds? then [Candidate(KeychainKind, w.slot.key)] else [])
    + (if w.masterFile.Present? then [Candidate(FileKind, w.masterFile.value)] else [])
    + (if w.legacyFile.Present? then [Candidate(LegacyKind, w.legacyFile.value)] else [])
    + LoadAll(w, b)
  }

  function First(cs: seq<Candidate>, p: Candidate -> bool): (r: Option<Candidate>)
    ensures r.Some? ==> r.value in cs && p(r.value)
    ensures r.None? ==> forall c :: c in cs ==> !p(c)
  {
    if cs == [] then None else if p(cs[0]) then Some(cs[0]) else First(cs[1..], p)
  }

  function ByKcv(cs: seq<Candidate>, kcv: Kcv): (r: Option<Candidate>)
    ensures r.Some? ==> r.value in cs && KcvOf(r.value.key) == kcv
    ensures r.None? ==> forall c :: c in cs ==> KcvOf(c.key) != kcv
  {
    First(cs, (c: Candidate) => KcvOf(c.key) == kcv)
  }

  /** The key is in a live place this start can read. */
  ghost predicate SeesLive(w: World, b: Boot, key: Key) {
    || (b.SeesKeychain() && w.slot == Holds(key))
    || w.masterFile == Present(key)
    || w.legacyFile == Present(key)
  }

  /** The key is in the folder and this start can read it. */
  ghost predicate Sees(w: World, b: Boot, key: Key) {
    SeesLive(w, b, key) || SeesRetired(w, b, key)
  }

  lemma LoadedIsRetired(w: World, b: Boot, key: Key)
    ensures SeesRetired(w, b, key) ==> IsRetired(w, key)
    ensures SeesRetired(w, b, key) <==> exists c :: c in LoadAll(w, b) && c.key == key
  {
    if SeesRetired(w, b, key) {
      var e :| e in Entries(w) && Load(w, b, e) == Some(key);
      assert EntryHolds(w, e, key);
      assert Candidate(RetiredKind(e.kcv), key) in LoadAll(w, b);
    }
  }

  lemma CandidatesAreWhatIsSeen(w: World, b: Boot, key: Key)
    ensures (exists c :: c in Candidates(w, b) && c.key == key) <==> b.EnvKey() == Some(key) || Sees(w, b, key)
  {
    var parts := LoadAll(w, b);
    if b.EnvKey() == Some(key) {
      assert Candidate(EnvKind, key) in Candidates(w, b);
    } else if b.SeesKeychain() && w.slot == Holds(key) {
      assert Candidate(KeychainKind, key) in Candidates(w, b);
    } else if w.masterFile == Present(key) {
      assert Candidate(FileKind, key) in Candidates(w, b);
    } else if w.legacyFile == Present(key) {
      assert Candidate(LegacyKind, key) in Candidates(w, b);
    } else if SeesRetired(w, b, key) {
      var e :| e in Entries(w) && Load(w, b, e) == Some(key);
      assert Candidate(RetiredKind(e.kcv), key) in parts;
      assert Candidate(RetiredKind(e.kcv), key) in Candidates(w, b);
    }
  }

  /** The keys of the candidates, `key` left out. */
  function KeysExcept(cs: seq<Candidate>, key: Key): (ks: seq<Key>)
    ensures forall k :: k in ks <==> k != key && exists c :: c in cs && c.key == k
  {
    if cs == [] then []
    else
      var rest := KeysExcept(cs[1..], key);
      if cs[0].key == key then rest else [cs[0].key] + rest
  }

  predicate FormatReadable(w: World) {
    match w.minReader
    case Absent => true
    case Present(n) => n <= SUPPORTED_MIN_READER
    case Damaged => false
  }

  predicate HasEvidence(w: World, b: Boot) {
    b.sealedEvidence || Entries(w) != []
  }

  predicate MayGenerate(w: World, b: Boot) {
    !w.record.Present? && !HasEvidence(w, b)
  }

  /** What a start needs to resolve to the recorded key. */
  ghost predicate Recoverable(w: World, b: Boot, key: Key) {
    (w.minReader == Absent || (w.minReader.Present? && w.minReader.value <= 2)) && CanRecover(w, b, key)
  }

  /** The recorded key can be seen, and an environment key is that key or a retired one. */
  ghost predicate CanRecover(w: World, b: Boot, key: Key) {
    match b.EnvKey()
    case Some(env) => env == key || (SeesRetired(w, b, env) && Sees(w, b, key))
    case None => Sees(w, b, key)
  }

  /** The key that seeds an empty place: one the folder already uses before a generated one. */
  function SeedKey(w: World, b: Boot, mayGenerate: bool): (r: Result<Key, Refusal>)
    ensures r == match SeedOf(w, b, mayGenerate)
      case Some(key) => Success(key)
      case None => Failure(WouldOrphanData)
  {
    if b.allowFile && w.masterFile.Present? then Success(w.masterFile.value)
    else if w.legacyFile.Present? then Success(w.legacyFile.value)
    else if mayGenerate then Success(b.generated)
    else Failure(WouldOrphanData)
  }

  // ── What the ladder comes to ────────────────────────────────────────────────

  /** The first of the keys a start may put in an empty place, in order of preference. */
  ghost function SeedOf(w: World, b: Boot, mayGenerate: bool): Option<Key> {
    var keys := (if b.allowFile && w.masterFile.Present? then [w.masterFile.value] else [])
              + (if w.legacyFile.Present? then [w.legacyFile.value] else [])
              + (if mayGenerate then [b.generated] else []);
    if keys == [] then None else Some(keys[0])
  }

  /** The key a start comes to: the environment's, else the keychain's, else one that seeds. */
  ghost function LadderKey(w: World, b: Boot, mayGenerate: bool): Option<Key> {
    if b.env.Some? then b.env.value
    else if b.SeesKeychain() && w.slot.Holds? then Some(w.slot.key)
    else SeedOf(w, b, mayGenerate)
  }

  /** The key is, or goes, in the keychain. */
  ghost predicate InSlot(w: World, b: Boot, key: Key) {
    b.SeesKeychain() && (w.slot.Holds? || (w.slot == Empty && b.StoreReports(MasterAccount, key)))
  }

  ghost function LadderSource(w: World, b: Boot, key: Key): Source {
    if b.env.Some? then FromEnv else if InSlot(w, b, key) then FromKeychain else FromFile
  }

  /** When a start comes to a key at all. */
  ghost predicate LadderAnswers(w: World, b: Boot, mayGenerate: bool) {
    var key := LadderKey(w, b, mayGenerate);
    && key.Some?
    && (b.env.None? ==>
          && !w.legacyFile.Damaged?
          && match b.Get(w.slot)
             case Holds(_) => true
             case Corrupt => false
             case Unavailable => b.allowFile && !w.masterFile.Damaged?
             case Empty =>
               && !(b.allowFile && w.masterFile.Damaged?)
               && if b.StoreReports(MasterAccount, key.value) then KeychainTakes(w, b, key.value) else b.allowFile)
  }

  /** The folder once a start came to `key` without an environment key. */
  ghost function AfterLadder(w: World, b: Boot, key: Key): World {
    var inSlot := InSlot(w, b, key);
    w.(slot := if b.SeesKeychain() && w.slot == Empty then b.AfterStore(MasterAccount, Empty, key) else w.slot,
       masterFile := if inSlot then w.masterFile else Present(key),
       legacyFile := if inSlot && w.legacyFile == Present(key) then Absent else w.legacyFile)
  }

  /** What the ladder answers: a key exactly when it should, and which, and from where. */
  ghost predicate LadderSays(w: World, b: Boot, mayGenerate: bool, r: Result<Found, Refusal>) {
    var key := LadderKey(w, b, mayGenerate);
    && (r.Success? <==> LadderAnswers(w, b, mayGenerate))
    && (r.Success? ==> key.Some? && r.value == Found(key.value, LadderSource(w, b, key.value)))
  }

  /** The key is the environment's, or in a live place this start can read. */
  ghost predicate IsFound(w: World, b: Boot, found: Found) {
    if b.EnvKey().Some? then found == Found(b.EnvKey().value, FromEnv)
    else found.source != FromEnv && SeesLive(w, b, found.key)
  }

  // ── Which candidate recovers a folder ───────────────────────────────────────

  function Rank(kind: Kind): nat {
    match kind
    case EnvKind => 0
    case KeychainKind => 1
    case FileKind => 2
    case LegacyKind => 3
    case RetiredKind(_) => 4
  }

  /** Recovery prefers the environment to the keychain, then the key file, the legacy file, and retired keys. */
  lemma CandidatesInOrder(w: World, b: Boot)
    ensures forall i, j :: 0 <= i < j < |Candidates(w, b)| ==> Rank(Candidates(w, b)[i].kind) <= Rank(Candidates(w, b)[j].kind)
  {
    hide Load, LoadEntries, EntryHolds;
  }

  lemma {:induction false} FirstIsEarliest(cs: seq<Candidate>, p: Candidate -> bool)
    ensures First(cs, p).Some? ==>
      exists i :: 0 <= i < |cs| && cs[i] == First(cs, p).value && p(cs[i]) && forall j :: 0 <= j < i ==> !p(cs[j])
  {
    if cs != [] && !p(cs[0]) {
      FirstIsEarliest(cs[1..], p);
      if First(cs[1..], p).Some? {
        var i :| 0 <= i < |cs| - 1 && cs[1..][i] == First(cs[1..], p).value && forall j :: 0 <= j < i ==> !p(cs[1..][j]);
        assert cs[i + 1] == cs[1..][i] && forall j :: 0 < j <= i ==> cs[j] == cs[1..][j - 1];
      }
    }
  }

  /** `c` is a candidate that `p` accepts, from a place no worse than any other such. */
  ghost predicate BestCandidate(w: World, b: Boot, p: Candidate -> bool, c: Candidate) {
    c in Candidates(w, b) && p(c) && forall d :: d in Candidates(w, b) && p(d) ==> Rank(c.kind) <= Rank(d.kind)
  }

  lemma FirstIsBest(w: World, b: Boot, p: Candidate -> bool)
    ensures First(Candidates(w, b), p).Some? ==> BestCandidate(w, b, p, First(Candidates(w, b), p).value)
    ensures First(Candidates(w, b), p).Some? <==> exists c :: c in Candidates(w, b) && p(c)
  {
    hide Candidates;
    FirstIsEarliest(Candidates(w, b), p);
    CandidatesInOrder(w, b);
  }

  ghost predicate HoldsLive(w: World, b: Boot, c: Candidate) {
    && (c.kind == FileKind ==> w.masterFile == Present(c.key)) && (c.kind == LegacyKind ==> w.legacyFile == Present(c.key))
    && !c.kind.RetiredKind?
  }

  lemma LoadIsElsewhere(w: World, w': World, b: Boot, e: RetiredEntry)
    requires w' == w.(masterFile := w'.masterFile, legacyFile := w'.legacyFile)
    ensures Load(w', b, e) == Load(w, b, e) && Entries(w') == Entries(w)
  {}

  /** A key that is not the recorded one and that the environment or a file holds, and not the keychain. */
  ghost predicate CanRetire(w: World, b: Boot, kcv: Kcv) {
    && !w.record.Damaged? && w.record != Present(kcv)
    && (b.EnvKey() == Some(kcv.key)
        || (!(b.SeesKeychain() && w.slot == Holds(kcv.key)) && (w.masterFile == Present(kcv.key) || w.legacyFile == Present(kcv.key))))
  }

  /** The first place outside the retired set that holds the key. */
  lemma FirstLivePlace(w: World, b: Boot, kcv: Kcv)
    ensures var found := First(Candidates(w, b), (c: Candidate) => KcvOf(c.key) == kcv && !c.kind.RetiredKind?);
      found.Some? ==>
        && KcvOf(found.value.key) == kcv && HoldsLive(w, b, found.value)
        && found.value.kind == (if b.EnvKey() == Some(kcv.key) then EnvKind
                                else if b.SeesKeychain() && w.slot == Holds(kcv.key) then KeychainKind
                                else if w.masterFile == Present(kcv.key) then FileKind
                                else LegacyKind)
    ensures CanRetire(w, b, kcv) ==>
      First(Candidates(w, b), (c: Candidate) => KcvOf(c.key) == kcv && !c.kind.RetiredKind?).Some?
  {
    var p, cs := (c: Candidate) => KcvOf(c.key) == kcv && !c.kind.RetiredKind?, Candidates(w, b);
    FirstIsBest(w, b, p);
    assert b.EnvKey() == Some(kcv.key) ==> Candidate(EnvKind, kcv.key) in cs;
    assert b.SeesKeychain() && w.slot == Holds(kcv.key) ==> Candidate(KeychainKind, kcv.key) in cs;
    assert w.masterFile == Present(kcv.key) ==> Candidate(FileKind, kcv.key) in cs;
    assert w.legacyFile == Present(kcv.key) ==> Candidate(LegacyKind, kcv.key) in cs;
  }

  /** A key other than the ladder's that this start can see, and that opens what is sealed. */
  ghost predicate Passes(w: World, b: Boot, primary: Key, key: Key) {
    key != primary && b.probe(key) == ProbePassed && (b.EnvKey() == Some(key) || Sees(w, b, key))
  }

  lemma PassingCandidates(w: World, b: Boot, primary: Key)
    ensures var found := First(Candidates(w, b), (c: Candidate) => c.key != primary && b.probe(c.key) == ProbePassed);
      && (found.Some? <==> exists key :: Passes(w, b, primary, key))
      && (found.Some? ==> Passes(w, b, primary, found.value.key))
  {
    hide Candidates, SeesRetired, SeesLive;
    var p := (c: Candidate) => c.key != primary && b.probe(c.key) == ProbePassed;
    FirstIsBest(w, b, p);
    forall c | c in Candidates(w, b) && p(c) ensures Passes(w, b, primary, c.key) { CandidatesAreWhatIsSeen(w, b, c.key); }
    forall key | Passes(w, b, primary, key) ensures exists c :: c in Candidates(w, b) && p(c) {
      CandidatesAreWhatIsSeen(w, b, key);
      var c :| c in Candidates(w, b) && c.key == key;
      assert p(c);
    }
  }

  /** The folder is recovered with a candidate. */
  ghost predicate RecoversWith(w: World, b: Boot, p: Candidate -> bool, r: Resolution) {
    exists c :: BestCandidate(w, b, p, c) && r.key == c.key && r.source == SourceOf(c.kind) && r.health == RecoveredFrom(c.kind)
  }

  lemma FirstRecovers(w: World, b: Boot, p: Candidate -> bool, r: Resolution)
    requires First(Candidates(w, b), p).Some?
    requires var c := First(Candidates(w, b), p).value; r.key == c.key && r.source == SourceOf(c.kind) && r.health == RecoveredFrom(c.kind)
    ensures RecoversWith(w, b, p, r)
  {
    FirstIsBest(w, b, p);
  }

  lemma RecoveredIs(w: World, b: Boot, p: Candidate -> bool, r: Resolution)
    requires RecoversWith(w, b, p, r)
    ensures r.health != Ok && exists c :: p(c) && c.key == r.key
  {}

  /** Which key an unrecorded folder resolves to: the ladder's, or the best candidate when the probe rejects that. */
  ghost predicate UnrecordedChoice(w: World, b: Boot, primary: Found, r: Result<Resolution, Refusal>) {
    if b.recordsKcv && b.probe(primary.key) == ProbeFailed then
      && (r.Success? <==> exists key :: Passes(w, b, primary.key, key))
      && (r.Success? ==>
            && RecoversWith(w, b, (c: Candidate) => c.key != primary.key && b.probe(c.key) == ProbePassed, r.value)
            && primary.key in r.value.retired)
    else r.Success? && r.value.key == primary.key && r.value.source == primary.source && r.value.health == Ok
  }

  /** How a recorded folder resolves: with the ladder's key if that is the recorded one, else with the best candidate that is. */
  ghost predicate RecordedChoice(w: World, b: Boot, kcv: Kcv, ladder: Result<Found, Refusal>, r: Resolution) {
    if ladder.Success? && KcvOf(ladder.value.key) == kcv then r.source == ladder.value.source && r.health == Ok
    else
      && RecoversWith(w, b, (c: Candidate) => KcvOf(c.key) == kcv, r)
      && (ladder.Success? ==> ladder.value.key in r.retired)
  }

  /** Which key a start resolves to, said of the folder it found. */
  ghost predicate Chooses(w: World, b: Boot, r: Result<Resolution, Refusal>) {
    var answers, found := LadderAnswers(w, b, MayGenerate(w, b)), LadderKey(w, b, MayGenerate(w, b));
    && (w.record.Absent? && FormatReadable(w) ==>
          if !answers then r.Failure?
          else if b.recordsKcv && b.probe(found.value) == ProbeFailed then
            && (r.Success? ==>
                  && r.value.key != found.value && b.probe(r.value.key) == ProbePassed
                  && found.value in r.value.retired && r.value.health != Ok)
            && ((exists key :: Passes(w, b, found.value, key)) ==> r.Success?)
          else r.Success? && r.value.key == found.value && r.value.source == LadderSource(w, b, found.value) && r.value.health == Ok)
    && (w.record.Present? && r.Success? ==>
          if answers && found == Some(r.value.key) then r.value.health == Ok && r.value.source == LadderSource(w, b, r.value.key)
          else r.value.health != Ok)
  }

  lemma ChoiceUnrecorded(w: World, w': World, b: Boot, ladder: Result<Found, Refusal>, r: Result<Resolution, Refusal>)
    requires w.record.Absent? && LadderMoves(w, w', b, MayGenerate(w, b)) && LadderSays(w, b, MayGenerate(w, b), ladder)
    requires if ladder.Success? then UnrecordedChoice(w', b, ladder.value, r) else r.Failure?
    ensures Chooses(w, b, r)
  {
    hide LadderMoves, LadderAnswers, LadderKey, LadderSource, RecoversWith, Passes;
    if ladder.Success? {
      var key := ladder.value.key;
      forall other | Passes(w, b, key, other) ensures Passes(w', b, key, other) {
        StillPasses(w, w', b, MayGenerate(w, b), key, other);
      }
      if r.Success? && b.recordsKcv && b.probe(key) == ProbeFailed {
        RecoveredIs(w', b, (c: Candidate) => c.key != key && b.probe(c.key) == ProbePassed, r.value);
      }
    }
  }

  lemma ChoiceRecorded(w: World, w': World, b: Boot, ladder: Result<Found, Refusal>, r: Result<Resolution, Refusal>)
    requires w.record.Present? && LadderSays(w, b, MayGenerate(w, b), ladder)
    requires r.Success? ==> KcvOf(r.value.key) == w.record.value && RecordedChoice(w', b, w.record.value, ladder, r.value)
    ensures Chooses(w, b, r)
  {
    hide LadderAnswers, LadderKey, LadderSource, RecoversWith;
    var kcv := w.record.value;
    if r.Success? && !(ladder.Success? && KcvOf(ladder.value.key) == kcv) {
      RecoveredIs(w', b, (c: Candidate) => KcvOf(c.key) == kcv, r.value);
    }
  }

  /** What a start can see, and what the folder holds, once the ladder was climbed. */
  lemma Climbed(w: World, w': World, b: Boot, mayGenerate: bool)
    requires LadderMoves(w, w', b, mayGenerate)
    ensures w'.record == w.record && w'.minReader == w.minReader && (RecordHeld(w) ==> RecordHeld(w'))
    ensures forall key :: SeesRetired(w', b, key) <==> SeesRetired(w, b, key)
    ensures forall key :: IsRetired(w', key) <==> IsRetired(w, key)
    ensures forall key :: Live(w, key) ==> Live(w', key)
    ensures forall key :: Live(w', key) ==> Live(w, key) || SeededElsewhere(b, key) || (mayGenerate && key == b.generated)
    ensures forall key :: CanRecover(w, b, key) ==> CanRecover(w', b, key)
    ensures forall key :: CanRecover(w', b, key) ==> CanRecover(w, b, key) || SeededElsewhere(b, key) || (mayGenerate && key == b.generated)
  {
    KeptStaysHeld(w, w');
    assert forall e :: Load(w', b, e) == Load(w, b, e);
    assert Entries(w') == Entries(w);
  }

  lemma Refused(w: World, b: Boot, e: Refusal, run: seq<World>)
    requires w.record.Damaged? || !FormatReadable(w)
    requires run != [] && run[|run| - 1] == w
    ensures Chooses(w, b, Failure(e)) && KeychainLeft(run, run) && AllHeld(run, |run|)
    ensures w.record.Present? ==> !Recoverable(w, b, w.record.value.key)
  {}

  lemma NotMinted(w: World, b: Boot)
    ensures MayGenerate(w, b) ==> !w.record.Present? && !b.sealedEvidence && Entries(w) == []
    ensures w.record.Present? ==> !MayGenerate(w, b)
    ensures FormatReadable(w) <==> !(w.minReader.Damaged? || (w.minReader.Present? && w.minReader.value > 2))
    ensures forall key :: FormatReadable(w) ==> (Recoverable(w, b, key) <==> CanRecover(w, b, key))
  {}

  lemma StillPasses(w: World, w': World, b: Boot, mayGenerate: bool, primary: Key, key: Key)
    requires LadderMoves(w, w', b, mayGenerate) && Passes(w, b, primary, key)
    ensures Passes(w', b, primary, key)
  {
    assert forall e :: Load(w', b, e) == Load(w, b, e);
    assert Entries(w') == Entries(w);
  }

  // ── Installing another key ──────────────────────────────────────────────────

  datatype AdoptFrom = AdoptEnv | AdoptKeychain | AdoptFile | AdoptRetired(kcv: Kcv)

  datatype AdoptOutcome = AdoptOutcome(kcv: Kcv, custody: Option<Source>, retired: Option<Kcv>)

  function Wanted(from: AdoptFrom): Kind {
    match from
    case AdoptEnv => EnvKind
    case AdoptKeychain => KeychainKind
    case AdoptFile => FileKind
    case AdoptRetired(kcv) => RetiredKind(kcv)
  }

  /** The key in persistent custody: the keychain's, else the key file's. */
  function PersistentKey(w: World, b: Boot): Option<Key> {
    if b.Get(w.slot).Holds? then Some(w.slot.key)
    else if w.masterFile.Present? then Some(w.masterFile.value) else None
  }

  /** The recorded key, if a live place (the environment included) holds it. */
  function RecordedKey(w: World, b: Boot): (r: Option<Key>)
    requires !w.record.Damaged?
    ensures r.Some? ==> w.record == Present(KcvOf(r.value)) && (SeesLive(w, b, r.value) || b.EnvKey() == Some(r.value))
    ensures w.record.Present? && b.EnvKey() == Some(w.record.value.key) ==> r == Some(w.record.value.key)
    ensures w.record.Present? && SeesLive(w, b, w.record.value.key) ==> r == Some(w.record.value.key)
  {
    if w.record.Absent? then None
    else
      var cs := Candidates(w, b);
      var found := First(cs, (c: Candidate) => !c.kind.RetiredKind? && KcvOf(c.key) == w.record.value);
      assert b.EnvKey().Some? ==> Candidate(EnvKind, b.EnvKey().value) in cs;
      assert w.masterFile.Present? ==> Candidate(FileKind, w.masterFile.value) in cs;
      assert w.legacyFile.Present? ==> Candidate(LegacyKind, w.legacyFile.value) in cs;
      assert b.Get(w.slot).Holds? ==> Candidate(KeychainKind, w.slot.key) in cs;
      if found.Some? then Some(found.value.key) else None
  }

  lemma SameRecordedKey(w: World, w': World, b: Boot)
    requires !w.record.Damaged? && Extends(w, w')
    ensures RecordedKey(w', b) == RecordedKey(w, b) && PersistentKey(w', b) == PersistentKey(w, b)
  {
    if w.record.Present? {
      var key := w.record.value.key;
      assert SeesLive(w, b, key) <==> SeesLive(w', b, key);
    }
  }

  function AddDistinct(ks: seq<Key>, key: Key, more: seq<Key>): (r: seq<Key>)
    ensures forall k :: k in r <==> k in ks || (k in more && k != key)
    decreases more
  {
    if more == [] then ks
    else AddDistinct(if more[0] != key && more[0] !in ks then ks + [more[0]] else ks, key, more[1..])
  }

  function Optional(k: Option<Key>): seq<Key> {
    if k.Some? then [k.value] else []
  }

  /** The keys to retire before `key` becomes current. */
  function Displaced(w: World, b: Boot, key: Key, extra: seq<Key>): (ks: seq<Key>)
    requires !w.record.Damaged?
    ensures forall k :: k in ks <==>
      k != key && (PersistentKey(w, b) == Some(k) || RecordedKey(w, b) == Some(k) || k in extra)
  {
    AddDistinct([], key, Optional(PersistentKey(w, b)) + Optional(RecordedKey(w, b)) + extra)
  }

  predicate Listed(entries: seq<RetiredEntry>, key: Key) {
    exists e :: e in entries && e.kcv == KcvOf(key)
  }

  function CountNew(entries: seq<RetiredEntry>, ks: seq<Key>): nat {
    if ks == [] then 0 else (if Listed(entries, ks[0]) then 0 else 1) + CountNew(entries, ks[1..])
  }

  lemma CountOne(entries: seq<RetiredEntry>, key: Key)
    ensures CountNew(entries, [key]) == if Listed(entries, key) then 0 else 1
  {
    assert [key][1..] == [];
  }

  lemma ListedIsRetired(w: World)
    requires Sound(w)
    ensures forall k :: Listed(Entries(w), k) ==> IsRetired(w, k)
  {
    forall k | Listed(Entries(w), k) ensures IsRetired(w, k) {
      var e :| e in Entries(w) && e.kcv == KcvOf(k);
      assert EntryHolds(w, e, e.kcv.key);
    }
  }

  lemma {:induction false} CountNewShrinks(entries: seq<RetiredEntry>, more: seq<RetiredEntry>, ks: seq<Key>)
    requires entries <= more
    ensures CountNew(more, ks) <= CountNew(entries, ks)
  {
    if ks != [] {
      assert Listed(entries, ks[0]) ==> Listed(more, ks[0]);
      CountNewShrinks(entries, more, ks[1..]);
    }
  }

  /** Where `key` went. */
  ghost predicate StoredIn(w: World, w': World, b: Boot, key: Key, custody: Source) {
    && (w'.slot == w.slot || w'.slot == Holds(key) || w.slot == Empty)
    && if custody == FromKeychain then
      b.StoreReports(MasterAccount, key) && w'.slot == Holds(key) && w'.masterFile == w.masterFile
    else custody == FromFile && w'.masterFile == Present(key)
  }

  /** The keys fit in the retired set and no unreadable file is in their way. */
  ghost predicate Retirable(w: World, ks: seq<Key>) {
    && |Entries(w)| + CountNew(Entries(w), ks) <= MAX_RETIRED_KEYS
    && (forall k :: k in ks ==> !RetiredFile(w, KcvOf(k)).Damaged?)
  }

  /** The keychain reports that it stored `key`, and reads it back. */
  ghost predicate KeychainTakes(w: World, b: Boot, key: Key) {
    b.StoreReports(MasterAccount, key) && b.AfterStore(MasterAccount, w.slot, key) == Holds(key)
  }

  /** The keychain reports that it stored a key to be retired, and reads it back. */
  ghost predicate KeychainKeeps(w: World, b: Boot, key: Key) {
    var account := RetiredAccount(KcvOf(key));
    b.StoreReports(account, key) && b.AfterStore(account, RetiredSlot(w, KcvOf(key)), key) == Holds(key)
  }

  /** This start can store `key` somewhere. */
  ghost predicate CanStore(w: World, b: Boot, key: Key) {
    b.allowFile || KeychainTakes(w, b, key)
  }

  ghost predicate CanInstall(w: World, b: Boot, key: Key, extra: seq<Key>) {
    Sound(w) && !w.record.Damaged? && CanStore(w, b, key) && Retirable(w, Displaced(w, b, key, extra))
  }

  /** The key an adoption names. */
  ghost predicate Names(w: World, b: Boot, from: AdoptFrom, key: Key) {
    match from
    case AdoptEnv => b.EnvKey() == Some(key)
    case AdoptKeychain => b.SeesKeychain() && w.slot == Holds(key)
    case AdoptFile => w.masterFile == Present(key)
    case AdoptRetired(kcv) => KcvOf(key) == kcv && SeesRetired(w, b, key)
  }

  lemma NamedCandidate(w: World, b: Boot, from: AdoptFrom, c: Candidate)
    ensures c in Candidates(w, b) && c.kind == Wanted(from) ==> Names(w, b, from, c.key)
    ensures Names(w, b, from, c.key) && c.kind == Wanted(from) ==> c in Candidates(w, b)
  {
    LoadedIsRetired(w, b, c.key);
    if Names(w, b, from, c.key) && c.kind == Wanted(from) && from.AdoptRetired? {
      var e :| e in Entries(w) && Load(w, b, e) == Some(c.key);
      assert Candidate(RetiredKind(e.kcv), c.key) in LoadAll(w, b);
    }
  }

  /** Retiring the keys `key` displaces took the folder from `w` to `w'`. */
  ghost predicate Displacing(w: World, w': World, b: Boot, key: Key, extra: seq<Key>)
    requires !w.record.Damaged?
  {
    && Extends(w, w')
    && (forall k :: IsRetired(w, k) ==> IsRetired(w', k))
    && (forall k :: IsRetired(w', k) ==> IsRetired(w, k) || k in Displaced(w, b, key, extra))
    && (Sound(w) ==> Sound(w'))
  }

  /** What storing `key` makes of the folder: the keychain's answer, and the key file unless that suffices. */
  ghost function AfterStoring(w: World, b: Boot, key: Key): World {
    w.(slot := b.AfterStore(MasterAccount, w.slot, key),
       masterFile := if KeychainTakes(w, b, key) then w.masterFile else Present(key))
  }

  /**
   The keys an installation of `key` destroys: an unrecorded key that is only in the key file, behind
   another key in the keychain, when the keychain does not take the new one.
   */
  ghost predicate Overwrites(w: World, b: Boot, key: Key, extra: seq<Key>, k: Key) {
    && w.masterFile == Present(k) && b.Get(w.slot).Holds? && w.slot != Holds(k) && w.legacyFile != Present(k)
    && k != key && w.record != Present(KcvOf(k)) && k !in extra && !IsRetired(w, k)
    && !KeychainTakes(w, b, key)
  }

  /** Storing `key` took the folder from `w` to `w'`. */
  ghost predicate Storing(w: World, w': World, b: Boot, key: Key) {
    && w' == w.(slot := w'.slot, masterFile := w'.masterFile)
    && (!b.SeesKeychain() ==> w'.slot == w.slot)
    && (w'.slot == w.slot || w'.slot == Holds(key) || w.slot == Empty)
    && (w'.masterFile == w.masterFile || w'.masterFile == Present(key))
  }

  /** The key an installation of `key` reports as replaced: the recorded one if this start holds it live, else the persistent one. */
  ghost function Replaced(w: World, b: Boot, key: Key): Option<Kcv> {
    if w.record.Present? && w.record.value.key != key && (SeesLive(w, b, w.record.value.key) || b.EnvKey() == Some(w.record.value.key))
    then Some(w.record.value)
    else if PersistentKey(w, b).Some? && PersistentKey(w, b).value != key then Some(KcvOf(PersistentKey(w, b).value))
    else None
  }

  /** Where an installation of `key` puts it, and what it reports. */
  ghost predicate Installed(w: World, w': World, b: Boot, key: Key, o: AdoptOutcome) {
    && CanStore(w, b, key) && w'.record == Present(KcvOf(key)) && w'.legacyFile == w.legacyFile
    && w'.slot == AfterStoring(w, b, key).slot && w'.masterFile == AfterStoring(w, b, key).masterFile
    && o == AdoptOutcome(KcvOf(key), Some(if KeychainTakes(w, b, key) then FromKeychain else FromFile), Replaced(w, b, key))
  }

  /** The record names `key`, and the environment, the keychain or the key file holds it. */
  ghost predicate AlreadyCurrent(w: World, b: Boot, key: Key) {
    && w.record == Present(KcvOf(key))
    && (b.EnvKey() == Some(key) || (b.SeesKeychain() && w.slot == Holds(key)) || w.masterFile == Present(key))
  }

  lemma CurrentCandidate(w: World, b: Boot, key: Key)
    ensures First(Candidates(w, b), (c: Candidate) => (c.kind == EnvKind || c.kind == KeychainKind || c.kind == FileKind) && c.key == key).Some?
      <==> b.EnvKey() == Some(key) || (b.SeesKeychain() && w.slot == Holds(key)) || w.masterFile == Present(key)
  {
    var cs := Candidates(w, b);
    assert b.EnvKey() == Some(key) ==> Candidate(EnvKind, key) in cs;
    assert b.SeesKeychain() && w.slot == Holds(key) ==> Candidate(KeychainKind, key) in cs;
    assert w.masterFile == Present(key) ==> Candidate(FileKind, key) in cs;
  }

  /**
   What an installation of `key` retires (the displaced keys; the recorded one exactly when this
   start sees it), and exactly which live key it destroys.
   */
  ghost predicate Installs(w: World, w': World, b: Boot, key: Key, extra: seq<Key>) {
    && (forall k :: IsRetired(w, k) ==> IsRetired(w', k))
    && (forall k :: IsRetired(w', k) ==>
          IsRetired(w, k) || PersistentKey(w, b) == Some(k) || w.record == Present(KcvOf(k)) || k in extra)
    && (forall k :: k != key && (k in extra || PersistentKey(w, b) == Some(k)) ==> IsRetired(w', k))
    && (forall k :: k != key && w.record == Present(KcvOf(k)) ==>
          (IsRetired(w', k) <==>
            IsRetired(w, k) || SeesLive(w, b, k) || b.EnvKey() == Some(k) || k in extra))
    && (forall k :: k != key && w.record == Present(KcvOf(k)) && Live(w', k) && !IsRetired(w', k) ==> w'.slot == Holds(k))
    && (forall k :: Live(w, k) ==> (!Live(w', k) && !IsRetired(w', k) <==> Overwrites(w, b, key, extra, k)))
  }

  lemma InstallationRetires(w: World, m: World, w': World, b: Boot, key: Key, extra: seq<Key>)
    requires !w.record.Damaged? && Displacing(w, m, b, key, extra) && w' == AfterStoring(m, b, key)
    requires forall k :: k in Displaced(w, b, key, extra) ==> IsRetired(m, k)
    ensures Installs(w, w', b, key, extra)
  {
    SameRetired(m, w');
    forall k | Live(w, k) ensures !Live(w', k) && !IsRetired(w', k) <==> Overwrites(w, b, key, extra, k) {
      assert PersistentKey(w, b) == Some(k) && k != key ==> k in Displaced(w, b, key, extra);
    }
  }

  lemma RecordingInstalls(w: World, m: World, w': World, b: Boot, key: Key, extra: seq<Key>)
    requires Installs(w, m, b, key, extra) && w' == m.(record := Present(KcvOf(key)))
    ensures Installs(w, w', b, key, extra)
  {
    SameRetired(m, w');
  }

  /** The record may be moved away from its key. */
  ghost predicate RecordMayMove(w: World, kcv: Kcv) {
    w.record.Present? && w.record.value != kcv ==>
      var key := w.record.value.key;
      Live(w, key) ==> IsRetired(w, key) || w.slot == Holds(key)
  }

  lemma InstalledMayMove(w: World, w': World, b: Boot, key: Key, extra: seq<Key>)
    requires Installs(w, w', b, key, extra) && w'.record == w.record
    ensures RecordMayMove(w', KcvOf(key))
  {
    if w.record.Present? { assert w.record == Present(KcvOf(w.record.value.key)); }
  }

  /**
   An installation of `key` that brings `extra` along keeps `k` current or retired: it sees `k`, finds
   it retired, or brings it itself.
   */
  ghost predicate Spares(w: World, b: Boot, key: Key, extra: seq<Key>, k: Key) {
    SeesLive(w, b, k) || b.EnvKey() == Some(k) || IsRetired(w, k) || k in extra || k == key
  }

  /** The key recorded in `w` is the one recorded in `w'`, or retired there. */
  ghost predicate RecordSpared(w: World, w': World) {
    w.record.Present? ==> w'.record == w.record || IsRetired(w', w.record.value.key)
  }

  lemma InstalledRecord(w: World, w': World, b: Boot, key: Key, extra: seq<Key>)
    requires Installs(w, w', b, key, extra) && w'.record == Present(KcvOf(key))
    ensures RecordSpared(w, w') <==> (w.record.Present? ==> Spares(w, b, key, extra, w.record.value.key))
  {
    if w.record.Present? { assert w.record == Present(KcvOf(w.record.value.key)); }
  }

  // ── The folder and its writes ───────────────────────────────────────────────

  datatype Refusal =
    | NewerFormat | RecordUnreadable | IndexUnreadable
    | EnvNotAKey | KeyFileCorrupt | KeychainCorrupt | KeychainUnverified
    | NoCustody | WouldOrphanData
    | Mismatch | NoSuchCandidate | ProbeRejected
    | RetiredSetFull | RetiredFileDamaged
    | IsCurrent | InKeychainSlot | EnvDiffers

  datatype Found = Found(key: Key, source: Source)

  datatype Health = Ok | RecoveredFrom(kind: Kind)

  datatype Resolution = Resolution(key: Key, source: Source, retired: seq<Key>, health: Health)

  class DataFolder {
    var world: World
    /** Every state the folder has been in, the current one last. */
    var trail: seq<World>

    ghost predicate Valid() reads this {
      |trail| > 0 && trail[|trail| - 1] == world && SafePath(trail)
    }

    lemma ValidIs()
      requires Valid()
      ensures |trail| > 0 && trail[|trail| - 1] == world
    {}

    /** A folder with this history: after a crash, the history up to the last finished write. */
    constructor (history: seq<World>)
      requires history != [] && SafePath(history)
      ensures Valid() && trail == history
    {
      world := history[|history| - 1];
      trail := history;
    }

    method Write(w: World)
      requires Valid() && StepSafe(world, w)
      modifies this
      ensures Valid() && world == w && trail == old(trail) + [w]
      ensures Kept(old(world), w) && RecordHeld(old(world)) ==> RecordHeld(w)
    {
      if Kept(world, w) { KeptStaysHeld(world, w); }
      world := w;
      trail := trail + [w];
    }

    /** Remove the legacy file once the keychain is known to hold the same key. */
    method RetireMatchingLegacyKey(b: Boot, key: Key) returns (r: Result<(), Refusal>)
      requires Valid() && world.slot == Holds(key)
      modifies this
      ensures Valid()
      ensures r.Success? <==> !old(world).legacyFile.Damaged?
      ensures if old(world).legacyFile == Present(key)
              then world == old(world).(legacyFile := Absent) && trail == old(trail) + [world]
              else world == old(world) && trail == old(trail)
      ensures RecordHeld(old(world)) ==> RecordHeld(world)
    {
      if world.legacyFile.Damaged? { return Failure(KeyFileCorrupt); }
      if world.legacyFile == Present(key) {
        Write(world.(legacyFile := Absent));
      }
      return Success(());
    }
  
    /** Publish `key` as the key file unless one is there, and return the key the file then holds. */
    method WriteKeyFile(key: Key) returns (held: Key)
      requires Valid() && !world.masterFile.Damaged?
      modifies this
      ensures Valid() && old(trail) <= trail <= old(trail) + [world]
      ensures world == old(world).(masterFile := Present(held))
      ensures held == if old(world).masterFile.Present? then old(world).masterFile.value else key
      ensures RecordHeld(old(world)) ==> RecordHeld(world)
    {
      if world.masterFile.Present? { return world.masterFile.value; }
      Write(world.(masterFile := Present(key)));
      return key;
    }

    /** The key file: the one there, else the legacy key or a generated one published there. */
    method LoadFromFile(b: Boot, mayGenerate: bool) returns (r: Result<Found, Refusal>)
      requires Valid() && b.env.None?
      modifies this
      ensures Valid() && Along(b, old(trail), trail)
      ensures LadderMoves(old(world), world, b, mayGenerate)
      ensures r.Success? <==> b.allowFile && !old(world).masterFile.Damaged? && SeedOf(old(world), b, mayGenerate).Some?
      ensures r.Success? ==> r.value == Found(SeedOf(old(world), b, mayGenerate).value, FromFile)
      ensures world == if r.Success? then old(world).(masterFile := Present(r.value.key)) else old(world)
    {
      if !b.allowFile { return Failure(NoCustody); }
      match world.masterFile {
        case Damaged => return Failure(KeyFileCorrupt);
        case Present(key) => return Success(Found(key, FromFile));
        case Absent =>
      }
      var key :- SeedKey(world, b, mayGenerate);
      var held := WriteKeyFile(key);
      return Success(Found(held, FromFile));
    }

    /** An empty keychain slot: seed it, read it back, and fall back to the key file. */
    method SeedKeychain(b: Boot, mayGenerate: bool) returns (r: Result<Found, Refusal>)
      requires Valid() && b.env.None? && b.SeesKeychain() && world.slot == Empty
      modifies this
      ensures Valid() && Along(b, old(trail), trail)
      ensures LadderMoves(old(world), world, b, mayGenerate)
      ensures !old(world).legacyFile.Damaged? ==> (r.Success? <==> LadderAnswers(old(world), b, mayGenerate))
      ensures r.Success? ==>
        var key := LadderKey(old(world), b, mayGenerate);
        && key.Some? && r.value == Found(key.value, LadderSource(old(world), b, key.value))
        && world == AfterLadder(old(world), b, key.value)
      ensures r.Success? && r.value.source == FromKeychain ==> world.slot == Holds(r.value.key)
      ensures r.Failure? && !old(world).legacyFile.Damaged? ==> world == old(world).(slot := world.slot)
    {
      hide EntryHolds, IsRetired, Sound, RecordHeld, KeychainLeft;
      if b.allowFile && world.masterFile.Damaged? { return Failure(KeyFileCorrupt); }
      var key :- SeedKey(world, b, mayGenerate);
      SeedingIsSafe(world, b.AfterStore(MasterAccount, world.slot, key));
      Write(world.(slot := b.AfterStore(MasterAccount, world.slot, key)));
      if b.StoreReports(MasterAccount, key) {
        if world.slot != Holds(key) { return Failure(KeychainUnverified); }
        var _ :- RetireMatchingLegacyKey(b, key);
        return Success(Found(key, FromKeychain));
      }
      if !b.allowFile { return Failure(NoCustody); }
      var held := WriteKeyFile(key);
      return Success(Found(held, FromFile));
    }

    /**
     The custody ladder: the environment key, else the keychain (seeding an empty slot from the
     folder's own files before ever generating), else the key file.
     */
    method LoadMasterKey(b: Boot, mayGenerate: bool) returns (r: Result<Found, Refusal>)
      requires Valid()
      modifies this
      ensures Valid() && Along(b, old(trail), trail)
      ensures LadderMoves(old(world), world, b, mayGenerate)
      ensures b.env.Some? ==> world == old(world) && trail == old(trail)
      ensures LadderSays(old(world), b, mayGenerate, r)
      ensures r.Success? && b.env.None? ==> world == AfterLadder(old(world), b, r.value.key)
      ensures r.Success? ==>
        match r.value.source
        case FromEnv => b.EnvKey() == Some(r.value.key)
        case FromKeychain => b.env.None? && b.SeesKeychain() && world.slot == Holds(r.value.key)
        case FromFile => b.env.None? && b.allowFile && world.masterFile == Present(r.value.key)
      ensures if r.Success? then IsFound(world, b, r.value) else b.EnvKey().None?
      ensures r.Failure? ==> world == old(world).(slot := world.slot)
      // where the key is, said of the folder found
      ensures b.env.None? && !old(world).legacyFile.Damaged? && b.SeesKeychain() && old(world).slot.Holds? ==>
        r == Success(Found(old(world).slot.key, FromKeychain))
      ensures r.Success? && b.env.None? && !(b.SeesKeychain() && old(world).slot.Holds?) ==>
        if b.allowFile && old(world).masterFile.Present? then r.value.key == old(world).masterFile.value
        else if old(world).legacyFile.Present? then r.value.key == old(world).legacyFile.value
        else mayGenerate && r.value.key == b.generated
    {
      if b.env.Some? {
        match b.env.value {
          case Some(key) => return Success(Found(key, FromEnv));
          case None => return Failure(EnvNotAKey);
        }
      }
      var legacy := world.legacyFile;
      if legacy.Damaged? { return Failure(KeyFileCorrupt); }
      match b.Get(world.slot) {
        case Holds(key) =>
          var _ := RetireMatchingLegacyKey(b, key);
          return Success(Found(key, FromKeychain));
        case Empty =>
          r := SeedKeychain(b, mayGenerate);
        case Corrupt =>
          return Failure(KeychainCorrupt);
        case Unavailable =>
          r := LoadFromFile(b, mayGenerate);
      }
    }
  
    method WriteExtending(w: World)
      requires Valid() && Extends(world, w) && (Sound(world) ==> Sound(w))
      modifies this
      ensures Valid() && world == w && trail == old(trail) + [w]
      ensures RecordHeld(old(world)) ==> RecordHeld(w)
    {
      ExtendingKeepsKeys(world, w);
      Write(w);
    }

    ghost predicate Lists(key: Key) reads this {
      Listed(Entries(world), key)
    }

    /** Store the material of a key about to be listed: a keychain account that reads it back, else a file. */
    method StoreRetired(b: Boot, key: Key, preferKeychain: bool) returns (r: Result<Place, Refusal>)
      requires Valid() && !Lists(key)
      modifies this
      ensures Valid() && Along(b, old(trail), trail)
      ensures forall kcv :: RetiredFile(world, kcv).Damaged? ==> RetiredFile(old(world), kcv).Damaged?
      ensures Extends(old(world), world) && world.index == old(world).index
      ensures Sound(old(world)) ==> Sound(world)
      ensures r.Success? && Sound(world) ==> EntryHolds(world, RetiredEntry(KcvOf(key), r.value), key)
      ensures r.Success? && !b.SeesKeychain() ==> r.value == InFile
      ensures r.Success? ==> (r.value == InKeychain <==> preferKeychain && KeychainKeeps(old(world), b, key))
      ensures r.Failure? ==> r.error == RetiredFileDamaged && RetiredFile(old(world), KcvOf(key)).Damaged?
    {
      var kcv := KcvOf(key);
      if preferKeychain && b.keychainEnabled {
        var slot := b.AfterStore(RetiredAccount(kcv), RetiredSlot(world, kcv), key);
        var w := world.(retiredSlots := world.retiredSlots[kcv := slot]);
        AddingMaterial(world, w, key);
        WriteExtending(w);
        if b.StoreReports(RetiredAccount(kcv), key) && b.Get(slot) == Holds(key) {
          return Success(InKeychain);
        }
      }
      match RetiredFile(world, kcv) {
        case Damaged => return Failure(RetiredFileDamaged);
        case Present(_) =>
        case Absent =>
          var w := world.(retiredFiles := world.retiredFiles[kcv := Present(key)]);
          AddingMaterial(world, w, key);
          WriteExtending(w);
      }
      return Success(InFile);
    }

    /** Add a key to the retired set (once), its material first and the index last. */
    method Retire(b: Boot, key: Key, preferKeychain: bool) returns (r: Result<RetiredEntry, Refusal>)
      requires Valid()
      modifies this
      ensures Valid() && Along(b, old(trail), trail)
      ensures forall kcv :: RetiredFile(world, kcv).Damaged? ==> RetiredFile(old(world), kcv).Damaged?
      ensures Extends(old(world), world)
      ensures r.Success? ==> r.value.kcv == KcvOf(key) && r.value in Entries(world)
      ensures r.Success? && Sound(old(world)) ==> EntryHolds(world, r.value, key)
      ensures r.Failure? ==> Entries(world) == Entries(old(world))
      ensures forall e :: e in Entries(world) ==> e in Entries(old(world)) || e.kcv == KcvOf(key)
      ensures |Entries(world)| <= |Entries(old(world))| + (if old(Lists(key)) then 0 else 1)
      ensures Sound(old(world)) ==> Sound(world)
      ensures r == Failure(RetiredSetFull) ==> !old(Lists(key)) && |Entries(old(world))| >= MAX_RETIRED_KEYS
      ensures r.Success? && !old(Lists(key)) ==> (r.value.place == InKeychain <==> preferKeychain && KeychainKeeps(old(world), b, key))
      ensures r.Failure? && Sound(old(world)) ==>
        !old(Lists(key)) && (RetiredFile(old(world), KcvOf(key)).Damaged? || |Entries(old(world))| >= MAX_RETIRED_KEYS)
    {
      hide Along, RecordHeld, Sound, EntryHolds, Extends;
      AlongSelf(b, trail);
      ExtendsSelf(world);
      if Sound(world) { SoundIndex(world); }
      if world.index.Damaged? { return Failure(IndexUnreadable); }
      var entries := Entries(world);
      if e :| e in entries && e.kcv == KcvOf(key) {
        return Success(e);
      }
      if |entries| >= MAX_RETIRED_KEYS { return Failure(RetiredSetFull); }
      var place :- StoreRetired(b, key, preferKeychain);
      var entry := RetiredEntry(KcvOf(key), place);
      var w := world.(index := Present(entries + [entry]));
      AddingEntry(world, w, entry);
      ExtendsCompose(old(world), world, w);
      ExtendedHeld(world, w);
      AlongOne(b, trail, w);
      AlongOn(b, old(trail), trail, trail + [w]);
      WriteExtending(w);
      return Success(entry);
    }
  
    /** Keep the mismatched primary key readable and use the matching candidate `found`. */
    method Recover(b: Boot, primary: Found, found: Candidate, retiredAll: seq<Candidate>)
      returns (r: Resolution)
      requires Valid()
      requires primary.source != FromEnv ==> Live(world, primary.key)
      modifies this
      ensures Valid() && Along(b, old(trail), trail)
      ensures Extends(old(world), world)
      ensures forall key :: IsRetired(old(world), key) ==> IsRetired(world, key)
      ensures forall key :: IsRetired(world, key) ==> IsRetired(old(world), key) || Live(old(world), key)
      ensures r.key == found.key && r.source == SourceOf(found.kind) && r.health == RecoveredFrom(found.kind)
      ensures forall k :: k in r.retired <==> k == primary.key || (k != found.key && exists c :: c in retiredAll && c.key == k)
      // the mismatched key stays readable, as far as the retired set takes it
      ensures primary.source != FromEnv && Sound(old(world)) && Retirable(old(world), [primary.key]) ==> IsRetired(world, primary.key)
      ensures primary.source == FromEnv ==> world == old(world)
    {
      if primary.source != FromEnv {
        var retiring := Retire(b, primary.key, primary.source == FromKeychain);
        if Sound(old(world)) && Retirable(old(world), [primary.key]) {
          CountOne(Entries(old(world)), primary.key);
          ListedIsRetired(old(world));
          assert retiring.Success?;
          SoundIndex(world);
          assert EntryHolds(world, retiring.value, primary.key);
        }
      }
      assert forall e, key :: e in Entries(world) && EntryHolds(world, e, key) && e in Entries(old(world)) ==>
        EntryHolds(old(world), e, key);
      var retired := KeysExcept(retiredAll, found.key);
      if primary.key !in retired {
        retired := retired + [primary.key];
      }
      ExtendingKeepsKeys(old(world), world);
      return Resolution(found.key, SourceOf(found.kind), retired, RecoveredFrom(found.kind));
    }
  
    /** Resolution of a folder whose check value is recorded, after the ladder answered. */
    method ResolveRecorded(b: Boot, kcv: Kcv, ladder: Result<Found, Refusal>) returns (r: Result<Resolution, Refusal>)
      requires Valid() && world.record == Present(kcv)
      requires ladder.Success? ==> IsFound(world, b, ladder.value)
      requires ladder.Failure? ==> b.EnvKey().None?
      modifies this
      ensures Valid() && Along(b, old(trail), trail)
      ensures Extends(old(world), world)
      ensures forall key :: IsRetired(old(world), key) ==> IsRetired(world, key)
      ensures forall key :: IsRetired(world, key) ==> IsRetired(old(world), key) || Live(old(world), key)
      ensures r.Success? ==> KcvOf(r.value.key) == kcv
      ensures r.Success? <==> CanRecover(old(world), b, kcv.key)
      ensures r.Success? ==> forall key :: SeesRetired(old(world), b, key) && key != r.value.key ==> key in r.value.retired
      ensures r.Success? ==> RecordedChoice(old(world), b, kcv, ladder, r.value)
      ensures ladder.Success? && KcvOf(ladder.value.key) == kcv ==> world == old(world)
      ensures r.Success? && ladder.Success? && KcvOf(ladder.value.key) != kcv && ladder.value.source != FromEnv ==>
        (Sound(old(world)) && Retirable(old(world), [ladder.value.key]) ==> IsRetired(world, ladder.value.key))
    {
      var retiredAll := LoadAll(world, b);
      forall key ensures SeesRetired(world, b, key) <==> exists c :: c in retiredAll && c.key == key {
        LoadedIsRetired(world, b, key);
      }
      CandidatesAreWhatIsSeen(world, b, kcv.key);
      var match_ := ByKcv(Candidates(world, b), kcv);
      hide RecoversWith, BestCandidate, Candidates;
      if ladder.Failure? {
        if match_.None? { return Failure(ladder.error); }
        var c := match_.value;
        r := Success(Resolution(c.key, SourceOf(c.kind), KeysExcept(retiredAll, c.key), RecoveredFrom(c.kind)));
        FirstRecovers(world, b, (c: Candidate) => KcvOf(c.key) == kcv, r.value);
        return;
      }
      var primary := ladder.value;
      if KcvOf(primary.key) == kcv {
        return Success(Resolution(primary.key, primary.source, KeysExcept(retiredAll, primary.key), Ok));
      }
      var primaryIsRetired := First(retiredAll, (c: Candidate) => c.kind == RetiredKind(KcvOf(primary.key)));
      if primary.source == FromEnv && primaryIsRetired.None? { return Failure(Mismatch); }
      if match_.None? { return Failure(Mismatch); }
      ghost var before := world;
      var resolution := Recover(b, primary, match_.value, retiredAll);
      FirstRecovers(before, b, (c: Candidate) => KcvOf(c.key) == kcv, resolution);
      return Success(resolution);
    }

    /** Resolution of a folder with no recorded check value: probe the key, then record it. */
    method ResolveUnrecorded(b: Boot, primary: Found) returns (r: Result<Resolution, Refusal>)
      requires Valid() && world.record.Absent?
      requires IsFound(world, b, primary)
      modifies this
      ensures Valid() && Recording(b, old(trail), trail)
      ensures forall key :: Live(world, key) <==> Live(old(world), key)
      ensures forall key :: IsRetired(old(world), key) ==> IsRetired(world, key)
      ensures forall key :: IsRetired(world, key) ==> IsRetired(old(world), key) || Live(old(world), key)
      ensures world.record == if r.Success? && b.recordsKcv then Present(KcvOf(r.value.key)) else Absent
      ensures r.Success? && b.recordsKcv ==> b.probe(r.value.key) != ProbeFailed
      ensures r.Success? ==> forall key :: SeesRetired(old(world), b, key) && key != r.value.key ==> key in r.value.retired
      ensures UnrecordedChoice(old(world), b, primary, r)
      ensures r.Failure? ==> world == old(world)
    {
      hide EntryHolds, Load, LoadEntries, Candidates, KeysExcept, Sound, RecordHeld, Extends, Retirable, RecoversWith, Passes;
      ghost var before := world;
      PassingCandidates(world, b, primary.key);
      var retiredAll := LoadAll(world, b);
      forall key ensures SeesRetired(world, b, key) <==> exists c :: c in retiredAll && c.key == key {
        LoadedIsRetired(world, b, key);
      }
      var plain := Resolution(primary.key, primary.source, KeysExcept(retiredAll, primary.key), Ok);
      if !b.recordsKcv { return Success(plain); }
      if b.probe(primary.key) != ProbeFailed {
        WriteRecord(KcvOf(primary.key));
        return Success(plain);
      }
      var recovered := First(Candidates(world, b),
        (c: Candidate) => c.key != primary.key && b.probe(c.key) == ProbePassed);
      if recovered.None? { return Failure(Mismatch); }
      CandidatesAreWhatIsSeen(world, b, recovered.value.key);
      LoadedIsRetired(world, b, recovered.value.key);
      var resolution := Recover(b, primary, recovered.value, retiredAll);
      FirstRecovers(before, b, (c: Candidate) => c.key != primary.key && b.probe(c.key) == ProbePassed, resolution);
      WriteRecord(KcvOf(recovered.value.key));
      return Success(resolution);
    }

    method WriteRecord(kcv: Kcv)
      requires Valid()
      requires Sound(world) ==> RecordMayMove(world, kcv)
      modifies this
      ensures Valid() && world == old(world).(record := Present(kcv)) && trail == old(trail) + [world]
      ensures forall key :: IsRetired(world, key) <==> IsRetired(old(world), key)
      ensures Live(world, kcv.key) || IsRetired(world, kcv.key) ==> RecordHeld(world)
    {
      var w := world.(record := Present(kcv));
      assert forall e, key :: EntryHolds(w, e, key) <==> EntryHolds(world, e, key);
      assert Entries(w) == Entries(world);
      Write(w);
    }

    /** Resolve the master key of the folder under the check-value rules. */
    method Resolve(b: Boot) returns (r: Result<Resolution, Refusal>)
      requires Valid()
      modifies this
      ensures Valid() && old(trail) <= trail
      ensures !b.SeesKeychain() ==> KeychainLeft(old(trail), trail)
      ensures (b.EnvKey().None? || old(world).record.Present?) && RecordHeld(old(world)) ==> AllHeld(trail, |old(trail)|)
      ensures old(world).record.Present? ==> forall j :: |old(trail)| <= j < |trail| ==> trail[j].record == old(world).record
      ensures forall j :: |old(trail)| <= j < |trail| - 1 ==> trail[j].record == old(world).record
      // a recorded folder resolves to the recorded key or not at all, and when exactly it resolves
      ensures old(world).record.Present? ==> world.record == old(world).record
      ensures old(world).record.Present? && r.Success? ==> KcvOf(r.value.key) == old(world).record.value
      ensures old(world).record.Present? && Recoverable(old(world), b, old(world).record.value.key) ==> r.Success?
      ensures old(world).record.Present? && r.Success? && !SeededElsewhere(b, old(world).record.value.key) ==>
        Recoverable(old(world), b, old(world).record.value.key)
      // an unrecorded folder of a recording host records the key it resolves
      ensures old(world).record.Absent? ==>
        world.record == if r.Success? && b.recordsKcv then Present(KcvOf(r.value.key)) else Absent
      ensures old(world).record.Absent? && r.Success? && b.recordsKcv ==> b.probe(r.value.key) != ProbeFailed
      ensures old(world).record.Damaged? || !FormatReadable(old(world)) ==> r.Failure? && world == old(world)
      // no key is lost, and none is minted over a record or sealed data
      ensures forall key :: Live(old(world), key) ==> Live(world, key)
      ensures forall key :: IsRetired(old(world), key) ==> IsRetired(world, key)
      ensures forall key :: Live(world, key) || IsRetired(world, key) ==>
        || Live(old(world), key) || IsRetired(old(world), key)
        || SeededElsewhere(b, key)
        || (MayGenerate(old(world), b) && key == b.generated)
      ensures r.Success? ==> forall key :: SeesRetired(old(world), b, key) && key != r.value.key ==> key in r.value.retired
      ensures Chooses(old(world), b, r)
      // nothing is minted beside a record, a retired key or sealed data, and no newer folder is touched
      ensures !old(world).record.Absent? || b.sealedEvidence || Entries(old(world)) != [] ==>
        forall key :: Live(world, key) || IsRetired(world, key) ==>
          Live(old(world), key) || IsRetired(old(world), key) || SeededElsewhere(b, key)
      ensures old(world).minReader.Damaged? || (old(world).minReader.Present? && old(world).minReader.value > 2) ==>
        r == Failure(NewerFormat) && world == old(world)
    {
      hide *;
      ValidIs();
      NotMinted(world, b);
      if !FormatReadable(world) {
        Refused(world, b, NewerFormat, trail);
        return Failure(NewerFormat);
      }
      if world.record.Damaged? {
        Refused(world, b, RecordUnreadable, trail);
        return Failure(RecordUnreadable);
      }
      var ladder := LoadMasterKey(b, MayGenerate(world, b));
      ghost var climbed, along := world, trail;
      ValidIs();
      Climbed(old(world), world, b, MayGenerate(old(world), b));
      AlongIsRecording(b, old(trail), along);
      if world.record.Present? {
        r := ResolveRecorded(b, world.record.value, ladder);
        ChoiceRecorded(old(world), climbed, b, ladder, r);
        ExtendingKeepsKeys(climbed, world);
        AlongOn(b, old(trail), along, trail);
        AlongMeans(b, old(trail), trail);
        AlongIsRecording(b, old(trail), trail);
      } else if ladder.Failure? {
        r := Failure(ladder.error);
        ChoiceUnrecorded(old(world), climbed, b, ladder, r);
      } else {
        r := ResolveUnrecorded(b, ladder.value);
        ChoiceUnrecorded(old(world), climbed, b, ladder, r);
        AlongRecording(b, old(trail), along, trail);
      }
      ValidIs();
      RecordingMeans(b, old(trail), trail);
    }

    /** Retire every key of `ks`; the caller checked that they fit. */
    method RetireEach(b: Boot, ks: seq<Key>) returns (r: Result<(), Refusal>)
      requires Valid()
      modifies this
      ensures Valid() && Along(b, old(trail), trail)
      ensures forall kcv :: RetiredFile(world, kcv).Damaged? ==> RetiredFile(old(world), kcv).Damaged?
      ensures Extends(old(world), world)
      ensures Sound(old(world)) ==> Sound(world)
      ensures r.Success? ==> forall k :: k in ks ==> Listed(Entries(world), k)
      ensures forall e :: e in Entries(world) ==> e in Entries(old(world)) || e.kcv.key in ks
      ensures |Entries(old(world))| + CountNew(Entries(old(world)), ks) <= MAX_RETIRED_KEYS && Sound(old(world)) ==>
        r != Failure(RetiredSetFull)
      ensures Sound(old(world)) && Retirable(old(world), ks) ==> r.Success?
    {
      hide Along, RecordHeld, Sound, EntryHolds, Extends;
      AlongSelf(b, trail);
      ExtendsSelf(world);
      var i := 0;
      while i < |ks|
        invariant 0 <= i <= |ks|
        invariant Valid() && Along(b, old(trail), trail)
        invariant forall kcv :: RetiredFile(world, kcv).Damaged? ==> RetiredFile(old(world), kcv).Damaged?
        invariant Extends(old(world), world)
        invariant Sound(old(world)) ==> Sound(world)
        invariant forall k :: k in ks[..i] ==> Listed(Entries(world), k)
        invariant forall e :: e in Entries(world) ==> e in Entries(old(world)) || e.kcv.key in ks
        invariant |Entries(old(world))| + CountNew(Entries(old(world)), ks) <= MAX_RETIRED_KEYS ==>
          |Entries(world)| + CountNew(Entries(world), ks[i..]) <= MAX_RETIRED_KEYS
      {
        label before:
        var retired := Retire(b, ks[i], b.keychainEnabled);
        AlongOn(b, old(trail), old@before(trail), trail);
        ExtendsCompose(old(world), old@before(world), world);
        ExtendsPrefix(old@before(world), world);
        if retired.Failure? { return Failure(retired.error); }
        CountNewShrinks(old@before(Entries(world)), Entries(world), ks[i + 1..]);
        assert ks[..i + 1] == ks[..i] + [ks[i]];
        i := i + 1;
      }
      return Success(());
    }

    /** Whether every key that storing `key` may displace is already retired. */
    ghost predicate Cleared(b: Boot, key: Key)
      requires !world.record.Damaged?
      reads this
    {
      forall k :: k != key && (PersistentKey(world, b) == Some(k) || RecordedKey(world, b) == Some(k)) ==>
        IsRetired(world, k)
    }

    /** Store `key` in the keychain if it reads back, else in the key file. */
    method StoreCurrent(b: Boot, key: Key) returns (r: Result<Source, Refusal>)
      requires Valid() && !world.record.Damaged?
      requires Sound(world) ==> Cleared(b, key)
      modifies this
      ensures Valid() && old(trail) <= trail
      ensures !b.SeesKeychain() ==> KeychainLeft(old(trail), trail)
      ensures Storing(old(world), world, b, key)
      ensures Sound(old(world)) && RecordHeld(old(world)) ==> AllHeld(trail, |old(trail)|)
      ensures forall j :: |old(trail)| <= j < |trail| ==> trail[j].record == old(world).record
      ensures forall j, k :: |old(trail)| <= j < |trail| && IsRetired(old(world), k) ==> IsRetired(trail[j], k)
      ensures r.Success? ==> StoredIn(old(world), world, b, key, r.value) && world == AfterStoring(old(world), b, key)
      ensures r.Success? <==> CanStore(old(world), b, key)
      ensures r.Success? ==> r.value == if KeychainTakes(old(world), b, key) then FromKeychain else FromFile
      ensures r.Failure? ==> r.error == NoCustody
    {
      if b.keychainEnabled {
        var w := world.(slot := b.AfterStore(MasterAccount, world.slot, key));
        SameRetired(world, w);
        Write(w);
        if b.StoreReports(MasterAccount, key) && b.Get(world.slot) == Holds(key) {
          return Success(FromKeychain);
        }
      }
      if !b.allowFile { return Failure(NoCustody); }
      var w := world.(masterFile := Present(key));
      SameRetired(world, w);
      Write(w);
      return Success(FromFile);
    }
  
    /** The first half of installing `key`: check that the displaced keys fit, then retire them. */
    method RetireDisplaced(b: Boot, key: Key, extra: seq<Key>) returns (r: Result<(), Refusal>)
      requires Valid() && !world.record.Damaged?
      modifies this
      ensures Valid() && Along(b, old(trail), trail)
      ensures Displacing(old(world), world, b, key, extra)
      ensures r.Success? && Sound(world) ==>
        Cleared(b, key) && forall k :: k in Displaced(old(world), b, key, extra) ==> IsRetired(world, k)
      ensures r == Failure(RetiredSetFull) && Sound(old(world)) ==> world == old(world)
      ensures old(world).index.Damaged? ==> r.Failure? && world == old(world)
      ensures Sound(old(world)) && Retirable(old(world), Displaced(old(world), b, key, extra)) ==> r.Success?
    {
      if world.index.Damaged? { return Failure(IndexUnreadable); }
      var displaced := Displaced(world, b, key, extra);
      if |Entries(world)| + CountNew(Entries(world), displaced) > MAX_RETIRED_KEYS {
        return Failure(RetiredSetFull);
      }
      r := RetireEach(b, displaced);
      ExtendingKeepsKeys(old(world), world);
      assert forall e, k :: e in Entries(old(world)) ==> (EntryHolds(world, e, k) <==> EntryHolds(old(world), e, k));
      SameRecordedKey(old(world), world, b);
      if Sound(world) { ListedIsRetired(world); }
    }

    /** Everything installing `key` writes before the record: the displaced keys, then the key itself. */
    method DisplaceAndStore(b: Boot, key: Key, extra: seq<Key>) returns (r: Result<Source, Refusal>)
      requires Valid() && !world.record.Damaged?
      modifies this
      ensures Valid() && old(trail) <= trail
      ensures !b.SeesKeychain() ==> KeychainLeft(old(trail), trail)
      ensures Sound(old(world)) && RecordHeld(old(world)) ==> AllHeld(trail, |old(trail)|)
      ensures forall j :: |old(trail)| <= j < |trail| ==> trail[j].record == old(world).record
      ensures world.record == old(world).record
      ensures Sound(old(world)) ==> Sound(world)
      ensures world.legacyFile == old(world).legacyFile
      ensures r.Success? ==> StoredIn(old(world), world, b, key, r.value)
      ensures r.Success? ==> Live(world, key) && (Sound(world) ==> Installs(old(world), world, b, key, extra))
      ensures r.Success? ==>
        && CanStore(old(world), b, key) && r.value == (if KeychainTakes(old(world), b, key) then FromKeychain else FromFile)
        && world.slot == AfterStoring(old(world), b, key).slot && world.masterFile == AfterStoring(old(world), b, key).masterFile
      ensures r == Failure(RetiredSetFull) && Sound(old(world)) ==> world == old(world)
      ensures old(world).index.Damaged? ==> r.Failure? && world == old(world)
      ensures Sound(old(world)) && Retirable(old(world), Displaced(old(world), b, key, extra)) && CanStore(old(world), b, key) ==> r.Success?
    {
      var _ :- RetireDisplaced(b, key, extra);
      ghost var cleared := world;
      r := StoreCurrent(b, key);
      SameRetired(cleared, world);
      if r.Success? && Sound(world) {
        InstallationRetires(old(world), cleared, world, b, key, extra);
      }
    }

    /** Make `key` current: retire the keys it displaces, store it, then record its check value. */
    method InstallCurrent(b: Boot, key: Key, extra: seq<Key>) returns (r: Result<AdoptOutcome, Refusal>)
      requires Valid()
      modifies this
      ensures Valid() && old(trail) <= trail
      ensures !b.SeesKeychain() ==> KeychainLeft(old(trail), trail)
      ensures Sound(old(world)) && RecordHeld(old(world)) ==> AllHeld(trail, |old(trail)|)
      ensures r.Success? ==> r.value.kcv == KcvOf(key) && world.record == Present(KcvOf(key)) && Live(world, key)
      ensures r.Failure? ==> world.record == old(world).record
      ensures r == Failure(RetiredSetFull) && Sound(old(world)) ==> world == old(world)
      ensures old(world).index.Damaged? || old(world).record.Damaged? ==> r.Failure? && world == old(world)
      ensures world.legacyFile == old(world).legacyFile
      ensures r.Success? ==> r.value.custody.Some? && StoredIn(old(world), world, b, key, r.value.custody.value)
      ensures r.Success? && Sound(old(world)) ==> Installs(old(world), world, b, key, extra)
      ensures r.Success? ==> Installed(old(world), world, b, key, r.value)
      // the record changes with the last write, when the recorded key this call sees is already retired
      ensures forall j :: |old(trail)| <= j < |trail| - 1 ==> trail[j].record == old(world).record
      // exactly when the key recorded before is still current or retired
      ensures r.Failure? ==> RecordSpared(old(world), world)
      ensures r.Success? && Sound(old(world)) ==>
        (RecordSpared(old(world), world) <==>
          (old(world).record.Present? ==> Spares(old(world), b, key, extra, old(world).record.value.key)))
      ensures CanInstall(old(world), b, key, extra) ==> r.Success?
    {
      hide KeychainLeft, RecordHeld, EntryHolds, IsRetired, Retirable, Displaced, Installs, Sound, SeesLive, RecordedKey,
        PersistentKey, RecordMayMove;
      NothingAdded(trail);
      if world.record.Damaged? { return Failure(RecordUnreadable); }
      var recorded := RecordedKey(world, b);
      var previous := PersistentKey(world, b);
      var custody :- DisplaceAndStore(b, key, extra);
      if Sound(old(world)) {
        RecordingInstalls(old(world), world, world.(record := Present(KcvOf(key))), b, key, extra);
        InstalledMayMove(old(world), world, b, key, extra);
        InstalledRecord(old(world), world.(record := Present(KcvOf(key))), b, key, extra);
      }
      if !b.SeesKeychain() {
        OneAdded(trail, world.(record := Present(KcvOf(key))));
        LeftOn(old(trail), trail, trail + [world.(record := Present(KcvOf(key)))]);
      }
      WriteRecord(KcvOf(key));
      var gone := if recorded.Some? && recorded.value != key then recorded else previous;
      return Success(AdoptOutcome(KcvOf(key), Some(custody),
        if gone.Some? && gone.value != key then Some(KcvOf(gone.value)) else None));
    }

    /** Make a candidate the current key, after the check-value and probe checks. */
    method Adopt(b: Boot, from: AdoptFrom, acceptUnreadable: bool) returns (r: Result<AdoptOutcome, Refusal>)
      requires Valid()
      modifies this
      ensures Valid() && old(trail) <= trail
      ensures !b.SeesKeychain() ==> KeychainLeft(old(trail), trail)
      ensures Sound(old(world)) && RecordHeld(old(world)) ==> AllHeld(trail, |old(trail)|)
      ensures forall j :: |old(trail)| <= j < |trail| - 1 ==> trail[j].record == old(world).record
      // exactly when the key recorded before is still current or retired
      ensures r.Failure? ==> RecordSpared(old(world), world)
      ensures r.Success? && Sound(old(world)) ==>
        (RecordSpared(old(world), world) <==>
          (old(world).record.Present? ==> Spares(old(world), b, r.value.kcv.key, [], old(world).record.value.key)))
      ensures r.Success? ==>
        && world.record == Present(r.value.kcv) && Live(world, r.value.kcv.key)
        && Names(old(world), b, from, r.value.kcv.key)
        && (old(world).record == Present(r.value.kcv) || acceptUnreadable || b.probe(r.value.kcv.key) != ProbeFailed)
        && Installed(old(world), world, b, r.value.kcv.key, r.value)
        && (Sound(old(world)) ==> Installs(old(world), world, b, r.value.kcv.key, []))
      ensures r.Failure? ==> world.record == old(world).record
      ensures old(world).index.Damaged? || old(world).record.Damaged? ==> r.Failure? && world == old(world)
      ensures forall key :: Names(old(world), b, from, key) && CanInstall(old(world), b, key, []) ==>
        (old(world).record == Present(KcvOf(key)) || acceptUnreadable || b.probe(key) != ProbeFailed) ==>
        r.Success?
    {
      var found := First(Candidates(world, b), (c: Candidate) => c.kind == Wanted(from));
      forall c: Candidate { NamedCandidate(world, b, from, c); }
      if found.None? {
        assert forall key :: Names(world, b, from, key) ==> Candidate(Wanted(from), key) in Candidates(world, b);
        return Failure(NoSuchCandidate);
      }
      var key := found.value.key;
      if world.record.Damaged? { return Failure(RecordUnreadable); }
      if world.record != Present(KcvOf(key)) && b.probe(key) == ProbeFailed && !acceptUnreadable {
        return Failure(ProbeRejected);
      }
      r := InstallCurrent(b, key, []);
    }

    /** Make the key of an exported bundle current, keeping the bundle's retired keys too. */
    method Import(b: Boot, current: Key, retired: seq<Key>) returns (r: Result<AdoptOutcome, Refusal>)
      requires Valid()
      modifies this
      ensures Valid() && old(trail) <= trail
      ensures !b.SeesKeychain() ==> KeychainLeft(old(trail), trail)
      ensures Sound(old(world)) && RecordHeld(old(world)) ==> AllHeld(trail, |old(trail)|)
      ensures forall j :: |old(trail)| <= j < |trail| - 1 ==> trail[j].record == old(world).record
      // exactly when the key recorded before is still current or retired
      ensures r.Failure? ==> RecordSpared(old(world), world)
      ensures r.Success? && Sound(old(world)) ==>
        (RecordSpared(old(world), world) <==>
          (old(world).record.Present? ==> Spares(old(world), b, current, retired, old(world).record.value.key)))
      ensures r.Success? ==> r.value.kcv == KcvOf(current) && world.record == Present(KcvOf(current))
      ensures r.Success? ==> Live(world, current) || b.EnvKey() == Some(current)
      ensures r.Success? && Sound(old(world)) ==> forall k :: k in retired && k != current ==> IsRetired(world, k)
      // a key that is current already goes nowhere, an environment key least of all
      ensures AlreadyCurrent(old(world), b, current) ==>
        && Extends(old(world), world) && (r.Success? ==> r.value == AdoptOutcome(KcvOf(current), None, None))
      ensures r.Success? && !AlreadyCurrent(old(world), b, current) ==>
        && Installed(old(world), world, b, current, r.value)
        && (Sound(old(world)) ==> Installs(old(world), world, b, current, retired))
      ensures b.EnvKey().Some? && b.EnvKey().value != current && b.EnvKey().value !in retired ==>
        r == Failure(EnvDiffers) && world == old(world)
      ensures CanInstall(old(world), b, current, retired) && Retirable(old(world), AddDistinct([], current, retired)) ==>
        (b.EnvKey().Some? ==> b.EnvKey().value == current || b.EnvKey().value in retired) ==>
        r.Success?
    {
      if b.EnvKey().Some? && b.EnvKey().value != current && b.EnvKey().value !in retired {
        return Failure(EnvDiffers);
      }
      if world.record.Damaged? { return Failure(RecordUnreadable); }
      CurrentCandidate(world, b, current);
      ExtendsSelf(world);
      var live := First(Candidates(world, b),
        (c: Candidate) => (c.kind == EnvKind || c.kind == KeychainKind || c.kind == FileKind) && c.key == current);
      if world.record == Present(KcvOf(current)) && live.Some? {
        var others := AddDistinct([], current, retired);
        var _ :- RetireEach(b, others);
        if Sound(world) { ListedIsRetired(world); }
        return Success(AdoptOutcome(KcvOf(current), None, None));
      }
      r := InstallCurrent(b, current, retired);
    }

    /** A retired file or legacy key leaves its slot once the vault reads the key back. */
    method RemoveRetiredFile(b: Boot, kind: Kind, key: Key, entry: RetiredEntry)
      requires Valid() && entry in Entries(world) && world.record != Present(KcvOf(key))
      requires kind == FileKind ==> world.masterFile == Present(key)
      requires kind == LegacyKind ==> world.legacyFile == Present(key)
      modifies this
      ensures Valid() && Along(b, old(trail), trail)
      ensures world == old(world).(masterFile := world.masterFile, legacyFile := world.legacyFile)
      ensures forall k :: Live(old(world), k) ==> Live(world, k) || IsRetired(world, k)
      ensures forall k :: IsRetired(old(world), k) <==> IsRetired(world, k)
      // the file goes if and only if the vault reads the key back
      ensures world ==
        if Load(old(world), b, entry) == Some(key) && kind == FileKind then old(world).(masterFile := Absent)
        else if Load(old(world), b, entry) == Some(key) && kind == LegacyKind then old(world).(legacyFile := Absent)
        else old(world)
    {
      if (kind == FileKind || kind == LegacyKind) && Load(world, b, entry) == Some(key) {
        LoadedIsRetired(world, b, key);
        var w := if kind == FileKind then world.(masterFile := Absent) else world.(legacyFile := Absent);
        RemovalIsSafe(world, w, key);
        Write(w);
      }
    }

    /** Move a candidate that is not current into the retired set and out of its file. */
    method RetireCommand(b: Boot, kcv: Kcv) returns (r: Result<RetiredEntry, Refusal>)
      requires Valid()
      modifies this
      ensures Valid() && old(trail) <= trail
      ensures !b.SeesKeychain() ==> KeychainLeft(old(trail), trail)
      ensures Sound(old(world)) && RecordHeld(old(world)) ==> AllHeld(trail, |old(trail)|)
      ensures forall j :: |old(trail)| <= j < |trail| ==> trail[j].record == old(world).record
      ensures world.record == old(world).record && world.slot == old(world).slot
      ensures forall k :: Live(old(world), k) ==> Live(world, k) || IsRetired(world, k)
      ensures r.Success? ==> r.value.kcv == kcv && r.value in Entries(world)
      ensures r.Success? && Sound(old(world)) ==> IsRetired(world, kcv.key)
      ensures old(world).record == Present(kcv) ==> r.Failure? && world == old(world)
      // which file goes: the first live place that holds the key, once the vault reads it back
      ensures r.Success? ==>
        var kept := Load(world, b, r.value) == Some(kcv.key);
        if b.EnvKey() == Some(kcv.key) then world.masterFile == old(world).masterFile && world.legacyFile == old(world).legacyFile
        else if old(world).masterFile == Present(kcv.key) then
          world.masterFile == (if kept then Absent else old(world).masterFile) && world.legacyFile == old(world).legacyFile
        else
          && old(world).legacyFile == Present(kcv.key) && world.masterFile == old(world).masterFile
          && world.legacyFile == if kept then Absent else old(world).legacyFile
      ensures r.Success? ==> !(b.SeesKeychain() && old(world).slot == Holds(kcv.key)) || b.EnvKey() == Some(kcv.key)
      ensures Sound(old(world)) && Retirable(old(world), [kcv.key]) && CanRetire(old(world), b, kcv) ==> r.Success?
    {
      if world.record.Damaged? { return Failure(RecordUnreadable); }
      if world.record == Present(kcv) { return Failure(IsCurrent); }
      var found := First(Candidates(world, b), (c: Candidate) => KcvOf(c.key) == kcv && !c.kind.RetiredKind?);
      FirstLivePlace(world, b, kcv);
      if found.None? { return Failure(NoSuchCandidate); }
      AlongSelf(b, trail);
      hide EntryHolds, IsRetired, Sound, Candidates, Load, RecordHeld, KeychainLeft, Live, Along, CountNew;
      var kind, key := found.value.kind, found.value.key;
      if kind == KeychainKind { return Failure(InKeychainSlot); }
      CountOne(Entries(world), key);
      var entry :- Retire(b, key, b.keychainEnabled);
      ghost var retired, along := world, trail;
      ExtendingKeepsKeys(old(world), world);
      ExtendedSlots(old(world), world);
      RemoveRetiredFile(b, kind, key, entry);
      LoadIsElsewhere(retired, world, b, entry);
      AlongOn(b, old(trail), along, trail);
      return Success(entry);
    }
  }
}
