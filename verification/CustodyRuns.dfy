/**
 What custody guarantees over whole runs: any sequence of starts and key commands, each of which
 may be cut off by a crash after any of its writes.
 */
module CustodyRuns {
  import opened Wrappers
  import opened Custody

  lemma {:induction false} SafePathKeeps(run: seq<World>, i: nat, key: Key)
    requires SafePath(run) && run != [] && Sound(run[0]) && i < |run|
    ensures Sound(run[i])
    ensures forall j :: i <= j < |run| && IsRetired(run[i], key) ==> IsRetired(run[j], key)
    ensures forall j :: i <= j < |run| && Secure(run[i], key) ==> Secure(run[j], key)
  {
    SoundAlong(run, i);
    var j := i;
    while j + 1 < |run|
      invariant i <= j < |run| && Sound(run[j])
      invariant forall k :: i <= k <= j && IsRetired(run[i], key) ==> IsRetired(run[k], key)
      invariant forall k :: i <= k <= j && Secure(run[i], key) ==> Secure(run[k], key)
    {
      assert StepSafe(run[j], run[j + 1]);
      j := j + 1;
    }
  }

  lemma {:induction false} SoundAlong(run: seq<World>, i: nat)
    requires SafePath(run) && run != [] && Sound(run[0]) && i < |run|
    ensures Sound(run[i]) && run[i].minReader == run[0].minReader
    ensures run[0].record.Present? ==> run[i].record.Present?
  {
    if i > 0 {
      SoundAlong(run, i - 1);
      assert StepSafe(run[i - 1], run[i]);
    }
  }

  /**
   A key that is recorded while the folder holds it is never lost afterwards: it stays recorded
   and live, or retired, or in the keychain slot, and the retired set never exceeds its bound.
   */
  lemma RecordedKeyIsNeverLost(run: seq<World>, i: nat, j: nat, key: Key)
    requires SafePath(run) && run != [] && Sound(run[0])
    requires i <= j < |run|
    requires run[i].record == Present(KcvOf(key)) && Live(run[i], key)
    ensures Secure(run[j], key)
    ensures |Entries(run[j])| <= MAX_RETIRED_KEYS
  {
    SafePathKeeps(run, i, key);
    SoundAlong(run, j);
  }

  datatype Call =
    | CallResolve(b: Boot)
    | CallAdopt(b: Boot, from: AdoptFrom, acceptUnreadable: bool)
    | CallImport(b: Boot, current: Key, retired: seq<Key>)
    | CallRetire(b: Boot, kcv: Kcv)

  /** From state `i` on, the recorded key of an earlier state stays recorded or is retired. */
  ghost predicate RecordedOrRetired(run: seq<World>) {
    forall i, j :: 0 <= i <= j < |run| && run[i].record.Present? ==>
      run[j].record == run[i].record || IsRetired(run[j], run[i].record.value.key)
  }

  /** What one call adds to a run: only its last write may change the record. */
  ghost predicate Extending(run: seq<World>, longer: seq<World>)
    requires run != []
  {
    && run <= longer && SafePath(longer) && AllHeld(longer, |run|)
    && (forall j :: |run| <= j < |longer| - 1 ==> longer[j].record == run[|run| - 1].record)
  }

  lemma CutRun(run: seq<World>, longer: seq<World>, cut: nat)
    requires run != [] && |run| <= cut <= |longer|
    requires Sound(run[0]) && AllHeld(run, 0) && Extending(run, longer)
    ensures SafePath(longer[..cut]) && AllHeld(longer[..cut], 0)
    ensures RecordedOrRetired(run) && RecordSpared(run[|run| - 1], longer[|longer| - 1]) ==> RecordedOrRetired(longer[..cut])
  {
    var s := longer[..cut];
    var last := |run| - 1;
    if RecordedOrRetired(run) && RecordSpared(run[last], longer[|longer| - 1]) {
      forall i, j | 0 <= i <= j < |s| && s[i].record.Present?
        ensures s[j].record == s[i].record || IsRetired(s[j], s[i].record.value.key)
      {
        var key := s[i].record.value.key;
        if i <= last < j {
          assert run[last].record == run[i].record || IsRetired(run[last], key);
          SafePathKeeps(longer, last, key);
        }
      }
    }
  }

  /** The call puts another key in place. */
  predicate Replaces(call: Call) {
    call.CallAdopt? || call.CallImport?
  }

  /** The call brings the key along: an import of a bundle that holds it. */
  predicate Brings(call: Call, key: Key) {
    call.CallImport? && (key == call.current || key in call.retired)
  }

  /** The call would replace a recorded key that it neither sees, nor finds retired, nor brings along. */
  ghost predicate Overlooks(w: World, call: Call) {
    Replaces(call) && w.record.Present? &&
      var key := w.record.value.key;
      !SeesLive(w, call.b, key) && !IsRetired(w, key) && !Brings(call, key)
  }

  /** Nothing stands in the way of the call. */
  ghost predicate CanDo(w: World, call: Call) {
    match call
    case CallResolve(b) =>
      && w.record.Absent? && FormatReadable(w) && LadderAnswers(w, b, MayGenerate(w, b)) && b.recordsKcv
      && b.probe(LadderKey(w, b, MayGenerate(w, b)).value) != ProbeFailed
    case CallAdopt(b, from, acceptUnreadable) =>
      exists key :: Names(w, b, from, key) && CanInstall(w, b, key, [])
        && (w.record == Present(KcvOf(key)) || acceptUnreadable || b.probe(key) != ProbeFailed)
    case CallImport(b, current, retired) =>
      CanInstall(w, b, current, retired) && Retirable(w, AddDistinct([], current, retired))
    case CallRetire(b, kcv) => Retirable(w, [kcv.key]) && CanRetire(w, b, kcv)
  }

  /** The call did what it is for. */
  ghost predicate Did(w: World, call: Call, w': World) {
    match call
    case CallResolve(b) => CanDo(w, call) ==> w'.record == Present(KcvOf(LadderKey(w, b, MayGenerate(w, b)).value))
    case CallAdopt(b, from, _) =>
      w'.record.Present? && Names(w, b, from, w'.record.value.key) && Live(w', w'.record.value.key)
    case CallImport(_, current, retired) =>
      w'.record == Present(KcvOf(current)) && Live(w', current) && forall k :: k in retired && k != current ==> IsRetired(w', k)
    case CallRetire(_, kcv) => IsRetired(w', kcv.key)
  }

  lemma ResolvedAs(w: World, b: Boot, r: Result<Resolution, Refusal>, w': World)
    requires w.record.Absent? && Chooses(w, b, r)
    requires w'.record == if r.Success? && b.recordsKcv then Present(KcvOf(r.value.key)) else Absent
    ensures Did(w, CallResolve(b), w')
    ensures CanDo(w, CallResolve(b)) ==> r.Success?
  {
    hide LadderAnswers, LadderKey, Passes;
  }

  /**
   One call: whatever it is, every write keeps the folder safe and its recorded key held, and the
   record moves with the last write at most. A key it does not overlook is kept; one that a successful
   replacement overlooks is not.
   */
  method Perform(folder: DataFolder, call: Call) returns (done: bool)
    requires folder.Valid() && Sound(folder.world) && RecordHeld(folder.world)
    requires call.b.EnvKey().None?
    modifies folder
    ensures Extending(old(folder.trail), folder.trail)
    ensures !call.b.SeesKeychain() ==> KeychainLeft(old(folder.trail), folder.trail)
    ensures folder.Valid() && (done ==> Did(old(folder.world), call, folder.world)) && (CanDo(old(folder.world), call) ==> done)
    ensures !Overlooks(old(folder.world), call) ==> RecordSpared(old(folder.world), folder.trail[|folder.trail| - 1])
    ensures done && Overlooks(old(folder.world), call) ==> !RecordSpared(old(folder.world), folder.trail[|folder.trail| - 1])
  {
    hide Chooses, Installs, Installed, AlreadyCurrent, CanInstall, CanRetire, Recoverable, Retirable, Extends, LadderKey;
    match call {
      case CallResolve(b) =>
        var r := folder.Resolve(b);
        done := r.Success?;
        if old(folder.world).record.Absent? { ResolvedAs(old(folder.world), b, r, folder.world); }
      case CallAdopt(b, from, acceptUnreadable) =>
        var r := folder.Adopt(b, from, acceptUnreadable);
        done := r.Success?;
        if done { NamedIsSeen(old(folder.world), b, from, r.value.kcv.key); }
      case CallImport(b, current, retired) =>
        var r := folder.Import(b, current, retired);
        done := r.Success?;
      case CallRetire(b, kcv) =>
        var r := folder.RetireCommand(b, kcv);
        done := r.Success?;
    }
  }

  lemma NamedIsSeen(w: World, b: Boot, from: AdoptFrom, key: Key)
    requires Names(w, b, from, key) && b.EnvKey().None?
    ensures SeesLive(w, b, key) || IsRetired(w, key)
  {
    LoadedIsRetired(w, b, key);
  }

  /** A folder that keeps nothing in the keychain. */
  ghost predicate InFilesOnly(w: World) {
    !w.slot.Holds? && forall e :: e in Entries(w) ==> e.place == InFile
  }

  /**
   A host on which no call can overlook a recorded key: calls that replace it read the keychain, or no
   key is there and no call can put one there (a host without a keychain).
   */
  ghost predicate NoneOverlooks(start: World, calls: seq<Call>) {
    || (forall c :: c in calls && Replaces(c) ==> c.b.SeesKeychain())
    || (!start.slot.Holds? && forall c :: c in calls ==> !c.b.SeesKeychain())
  }

  lemma RecordIsSeen(w: World, call: Call)
    requires RecordHeld(w) && (!Replaces(call) || call.b.SeesKeychain() || !w.slot.Holds?)
    ensures !Overlooks(w, call)
  {}

  /** Where in the run each call found the folder. */
  ghost predicate Located(run: seq<World>, at: seq<nat>) {
    forall n :: 0 <= n < |at| ==> at[n] < |run|
  }

  /** No call overlooked the recorded key of the folder it found. */
  ghost predicate NoneOverlooked(run: seq<World>, at: seq<nat>, calls: seq<Call>) {
    Located(run, at) && |at| <= |calls| && forall n :: 0 <= n < |at| ==> !Overlooks(run[at[n]], calls[n])
  }

  lemma OneMoreCall(run: seq<World>, at: seq<nat>, calls: seq<Call>, longer: seq<World>)
    requires run != [] && Located(run, at) && run <= longer && |at| < |calls|
    ensures Located(longer, at + [|run| - 1])
    ensures NoneOverlooked(longer, at + [|run| - 1], calls) <==>
      NoneOverlooked(run, at, calls) && !Overlooks(run[|run| - 1], calls[|at|])
  {
    hide Overlooks;
    var more := at + [|run| - 1];
    assert forall n :: 0 <= n < |at| ==> more[n] == at[n] && longer[at[n]] == run[at[n]];
    assert more[|at|] == |run| - 1 && longer[|run| - 1] == run[|run| - 1];
  }

  /** Where in the run the `n`-th call's part ends. */
  ghost function EndOf(run: seq<World>, at: seq<nat>, n: nat): int {
    if n + 1 < |at| then at[n + 1] else |run| - 1
  }

  /**
   Each call came to at most so many writes before it was cut off; one that was not cut off did what it is
   for, if nothing stood in its way.
   */
  ghost predicate Performed(run: seq<World>, at: seq<nat>, calls: seq<Call>, cuts: seq<Option<nat>>) {
    && |at| <= |cuts| == |calls| && Located(run, at) && run != [] && (at != [] ==> at[0] == 0)
    && forall n :: 0 <= n < |at| ==> OnePerformed(run, at[n], EndOf(run, at, n), calls[n], cuts[n])
  }

  ghost predicate OnePerformed(run: seq<World>, from: nat, to: int, call: Call, cut: Option<nat>) {
    && from <= to < |run|
    && match cut
       case Some(n) => to <= from + n
       case None => CanDo(run[from], call) ==> Did(run[from], call, run[to])
  }

  lemma OneMorePerformed(run: seq<World>, at: seq<nat>, calls: seq<Call>, cuts: seq<Option<nat>>, longer: seq<World>)
    requires Performed(run, at, calls, cuts) && |at| < |calls| && (at == [] ==> |run| == 1) && run <= longer
    requires OnePerformed(longer, |run| - 1, |longer| - 1, calls[|at|], cuts[|at|])
    ensures Performed(longer, at + [|run| - 1], calls, cuts)
  {
    hide CanDo, Did;
    var more := at + [|run| - 1];
    forall n | 0 <= n < |more| ensures OnePerformed(longer, more[n], EndOf(longer, more, n), calls[n], cuts[n]) {
      if n < |at| {
        assert OnePerformed(run, at[n], EndOf(run, at, n), calls[n], cuts[n]);
        assert more[n] == at[n] && EndOf(longer, more, n) == EndOf(run, at, n);
      }
    }
  }

  /**
   Any sequence of calls without an environment key, each cut off after `cuts[i]` of its writes (or not
   at all). On every host the recorded key is always held and the retired set never exceeds its bound.
   As long as no call overlooks the recorded key of the folder it finds (`run[at[n]]`), every key ever
   recorded stays recorded or retired.
   */
  method RunWithCrashes(start: World, calls: seq<Call>, cuts: seq<Option<nat>>) returns (run: seq<World>, at: seq<nat>)
    requires Sound(start) && RecordHeld(start) && |calls| == |cuts|
    requires forall c :: c in calls ==> c.b.EnvKey().None?
    ensures run != [] && run[0] == start && AllHeld(run, 0)
    ensures forall i :: 0 <= i < |run| ==> |Entries(run[i])| <= MAX_RETIRED_KEYS
    ensures |at| == |calls| && Located(run, at) && Performed(run, at, calls, cuts)
    ensures NoneOverlooked(run, at, calls) ==> RecordedOrRetired(run)
    ensures NoneOverlooks(start, calls) ==> NoneOverlooked(run, at, calls)
  {
    hide Overlooks, SafePath, RecordSpared, RecordedOrRetired, NoneOverlooked, Located, Sound, RecordHeld, NoneOverlooks, Performed,
      OnePerformed, CanDo, Did;
    run, at := [start], [];
    NothingRun(start, calls);
    for n := 0 to |calls|
      invariant run != [] && run[0] == start && |at| == n && Located(run, at)
      invariant Performed(run, at, calls, cuts) && (n == 0 ==> |run| == 1)
      invariant SafePath(run) && AllHeld(run, 0)
      invariant NoneOverlooked(run, at, calls) ==> RecordedOrRetired(run)
      invariant NoneOverlooks(start, calls) ==> NoneOverlooked(run, at, calls)
      invariant (forall c :: c in calls ==> !c.b.SeesKeychain()) ==> run[|run| - 1].slot == start.slot
    {
      SoundAlong(run, |run| - 1);
      var folder := new DataFolder(run);
      assert calls[n] in calls;
      if NoneOverlooks(start, calls) { NotThisOne(start, folder.world, calls, n); }
      ghost var found := folder.world;
      var done := Perform(folder, calls[n]);
      var cut := if cuts[n].Some? && cuts[n].value < |folder.trail| - |run| then |run| + cuts[n].value else |folder.trail|;
      CutRun(run, folder.trail, cut);
      OneMoreCall(run, at, calls, folder.trail[..cut]);
      ThisPerformed(folder.trail, |run|, cut, calls[n], cuts[n], done);
      OneMorePerformed(run, at, calls, cuts, folder.trail[..cut]);
      if !calls[n].b.SeesKeychain() { LeftAtCut(run, folder.trail, cut); }
      at := at + [|run| - 1];
      run := folder.trail[..cut];
    }
    forall i | 0 <= i < |run| ensures |Entries(run[i])| <= MAX_RETIRED_KEYS {
      SoundAlong(run, i);
      SoundIsSmall(run[i]);
    }
  }

  lemma ThisPerformed(trail: seq<World>, from: nat, cut: nat, call: Call, cutAt: Option<nat>, done: bool)
    requires 0 < from <= cut <= |trail|
    requires cut == if cutAt.Some? && cutAt.value < |trail| - from then from + cutAt.value else |trail|
    requires done ==> Did(trail[from - 1], call, trail[|trail| - 1])
    requires CanDo(trail[from - 1], call) ==> done
    ensures OnePerformed(trail[..cut], from - 1, cut - 1, call, cutAt)
  {
    hide Did, CanDo;
  }

  lemma SoundIsSmall(w: World)
    requires Sound(w)
    ensures |Entries(w)| <= MAX_RETIRED_KEYS
  {}

  lemma NothingRun(start: World, calls: seq<Call>)
    requires RecordHeld(start)
    ensures SafePath([start]) && AllHeld([start], 0) && RecordedOrRetired([start])
    ensures Located([start], []) && NoneOverlooked([start], [], calls) 
    ensures forall cuts: seq<Option<nat>> :: |cuts| == |calls| ==> Performed([start], [], calls, cuts)
  {}

  lemma NotThisOne(start: World, w: World, calls: seq<Call>, n: nat)
    requires NoneOverlooks(start, calls) && n < |calls| && RecordHeld(w)
    requires (forall c :: c in calls ==> !c.b.SeesKeychain()) ==> w.slot == start.slot
    ensures !Overlooks(w, calls[n])
  {
    assert calls[n] in calls;
    RecordIsSeen(w, calls[n]);
  }

  lemma LeftAtCut(run: seq<World>, longer: seq<World>, cut: nat)
    requires KeychainLeft(run, longer) && |run| <= cut <= |longer|
    ensures KeychainKept(run[|run| - 1], longer[cut - 1])
  {}

  /**
   Whatever write of a call a crash follows, the next start without an environment key resolves:
   to the key recorded before the call, or to another one with that key in its retired list. The
   call must not overlook the key, and the next start must be able to read what the folder holds: its
   keychain, or all of it when nothing was in the keychain and the call could not put anything there.
   */
  method ResolveAfterCrash(before: World, call: Call, cut: nat, next: Boot) returns (r: Resolution)
    requires Sound(before) && before.record.Present? && RecordHeld(before)
    requires call.b.EnvKey().None? && next.EnvKey().None? && FormatReadable(before)
    requires !Overlooks(before, call)
    requires next.SeesKeychain() || (InFilesOnly(before) && !call.b.SeesKeychain())
    ensures var key := before.record.value.key; r.key == key || key in r.retired
  {
    var folder := new DataFolder([before]);
    var _ := Perform(folder, call);
    var run := folder.trail;
    var after := if 1 + cut < |run| then 1 + cut else |run|;
    CutRun([before], run, after);
    SoundAlong(run, after - 1);
    if !call.b.SeesKeychain() {
      LeftAtCut([before], run, after);
      StaysInFiles(before, run[after - 1]);
    }
    HeldIsSeen(run[after - 1], next);
    var restarted := new DataFolder(run[..after]);
    assert run[..after][0] == before;
    var resolved := restarted.Resolve(next);
    r := resolved.value;
  }

  lemma StaysInFiles(w: World, w': World)
    requires KeychainKept(w, w')
    ensures InFilesOnly(w) ==> InFilesOnly(w')
  {}

  lemma HeldIsSeen(w: World, b: Boot)
    requires Sound(w) && (b.SeesKeychain() || InFilesOnly(w))
    ensures forall key :: Live(w, key) ==> SeesLive(w, b, key)
    ensures forall key :: IsRetired(w, key) ==> SeesRetired(w, b, key)
  {
    forall key | IsRetired(w, key) ensures SeesRetired(w, b, key) {
      var e :| e in Entries(w) && EntryHolds(w, e, key);
      assert Load(w, b, e) == Some(key);
    }
  }

  /** Nothing outside touched the record of the folder. */
  ghost predicate RecordKept(outside: World -> World) {
    forall w :: outside(w).record == w.record
  }

  /**
   Starts of a recording host, with anything but the record changing outside in between
   (keychain, key files, retired material, environment): every start that resolves at all
   resolves to the same key.
   */
  method BootRepeatedly(start: World, boots: seq<Boot>, outside: seq<World -> World>)
    returns (results: seq<Result<Resolution, Refusal>>)
    requires !start.record.Damaged? && |outside| == |boots|
    requires forall b :: b in boots ==> b.recordsKcv
    requires forall f :: f in outside ==> RecordKept(f)
    ensures |results| == |boots|
    ensures forall i, j :: 0 <= i < j < |results| && results[i].Success? && results[j].Success? ==>
      results[i].value.key == results[j].value.key
    ensures start.record.Present? ==>
      forall i :: 0 <= i < |results| && results[i].Success? ==> KcvOf(results[i].value.key) == start.record.value
  {
    results := [];
    var w := start;
    for n := 0 to |boots|
      invariant |results| == n
      invariant start.record.Present? ==> w.record == start.record
      invariant !w.record.Damaged?
      invariant forall i :: 0 <= i < n && results[i].Success? ==> w.record == Present(KcvOf(results[i].value.key))
    {
      assert outside[n] in outside && boots[n] in boots;
      var folder := new DataFolder([outside[n](w)]);
      var r := folder.Resolve(boots[n]);
      w := folder.world;
      results := results + [r];
    }
  }

  // ── Where custody stops short ───────────────────────────────────────────────

  /** A host with a key file, no environment key, and a keychain that stores nothing. */
  function FileHost(keychainEnabled: bool): Boot {
    Boot(None, keychainEnabled, true, (a: Account, k: Key) => StoreReply(false, Ignored),
         true, true, (k: Key) => NoSealedData, false, Key(0))
  }

  function FolderOf(slot: Key, file: Key): World {
    World(Holds(slot), map[], Present(file), Absent, map[], Absent, Present(KcvOf(slot)), Absent)
  }

  lemma NothingRetired(w: World)
    requires w.index.Absent?
    ensures Sound(w) <==> forall kcv :: kcv in w.retiredFiles && w.retiredFiles[kcv].Present? ==> KcvOf(w.retiredFiles[kcv].value) == kcv
    ensures forall k :: !IsRetired(w, k)
  {}

  /**
   With the keychain switched off, installing the file's key moves the record away from a key
   that only the keychain holds, and does not retire it: it is neither current nor retired.
   */
  method InstallMissesAnUnseenKey() returns (w: World)
    ensures w.record == Present(KcvOf(Key(2))) && w.slot == Holds(Key(1)) && !IsRetired(w, Key(1))
  {
    var start := FolderOf(Key(1), Key(2));
    var b := FileHost(false);
    NothingRetired(start);
    var folder := new DataFolder([start]);
    assert Optional(PersistentKey(start, b)) + Optional(RecordedKey(start, b)) + [] == [Key(2)];
    assert AddDistinct([], Key(2), [Key(2)]) == [];
    var r := folder.InstallCurrent(b, Key(2), []);
    w := folder.world;
  }

  lemma SlotKeyDisplaced(start: World, b: Boot)
    requires start == FolderOf(Key(1), Key(2)) && b == FileHost(true)
    ensures Retirable(start, Displaced(start, b, Key(3), []))
  {
    var all := Optional(PersistentKey(start, b)) + Optional(RecordedKey(start, b)) + [];
    assert all == [Key(1), Key(1)];
    assert all[1..] == [Key(1)];
    assert AddDistinct([], Key(3), all) == AddDistinct([Key(1)], Key(3), [Key(1)]);
    assert AddDistinct([Key(1)], Key(3), [Key(1)]) == [Key(1)];
  }

  /**
   With a recorded key in a keychain that refuses writes, installing a third key overwrites the
   key file: the key it held is neither live nor retired afterwards.
   */
  method InstallOverwritesAnUnrecordedKeyFile() returns (w: World)
    ensures !Live(w, Key(2)) && !IsRetired(w, Key(2))
  {
    var start := FolderOf(Key(1), Key(2));
    var b := FileHost(true);
    NothingRetired(start);
    var folder := new DataFolder([start]);
    SlotKeyDisplaced(start, b);
    var r := folder.InstallCurrent(b, Key(3), []);
    w := folder.world;
  }
}
