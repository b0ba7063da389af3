# Verified models of the subtitle sidecar and its at-rest crypto

The Ryu subtitle sidecar turns a video into subtitle files, and keeps what it learns sealed at rest
with the crypto crate it links. These Dafny files model the parts where order, crashes or arithmetic
decide whether data survives, and prove what the program promises of them. `dafny verify dfyconfig.toml`
checks all of it.

## What is modelled

- **Key custody** (`Custody`, `CustodyRuns`, `KeyRace`). A data folder is a keychain slot, key files, a
  recorded key check value and a retired set of at most four keys. `DataFolder` performs one atomic
  write at a time and keeps every state on its `trail`, so a crash is a prefix of the trail and a
  property of every state of the trail holds after every crash. `CustodyRuns` runs any sequence of
  calls, each cut off anywhere; `KeyRace` interleaves processes that start on one fresh folder.
- **Content migration and scrub debt** (`Content`, `Resealing`, `Migration`, `Rotation`, `Writers`,
  `Scrub`). Envelopes of text and blobs, batches of rows with their cursor in one transaction, and the
  store row that says what is still owed. A component of the modelled store says where freed plaintext may still be (the
  WAL, free pages, partly used pages), so the row can be compared with the truth. `Rotation` follows
  values and records through changes of key; `Writers` lets the application write between the batches.
- **Sealed logs and files** (`SealedLog`, `LogWriter`, `TornLogs`, `SealedFile`, `FileReader`,
  `FileIntegrity`, `OldFiles`, `Publishing`). The bytes on disk: an append-only framed log with torn tails, and a chunked
  write-once file with random access through a one-chunk cache.
- **Vector cache** (`VectorCache`, `VectorBudget`, `Ranking`). A byte budget shared by all indexes,
  swap-remove arrays with an inverse position map, least-recently-used eviction, and top-k.
- **Audio and cues** (`Resampling`, `Windowing`, `Decoding`, `Cues`, `CueText`). The streaming
  resampler, the window cutter, the ordering and clipping of cues, and the splitting of their text.
- **Jobs and translation** (`Jobs`, `Translate`). The worker as a program counter over its store
  calls, interleaved with the handlers, whose look at a job and later write are separate steps; the
  class `Sidecar` performs these steps through the store's methods. And the numbered-line protocol
  with the language model, with a transcript of what was asked and answered.

`Wrappers`, `Bytes`, `Spans` and `Text` hold what several of them share.

## Assumptions

- An AEAD (section 2.8 of RFC 8439) is a pair of functions whose `open` inverts its `seal` and whose
  sealed form is 16 bytes longer. Only `FileIntegrity` assumes more: what opens under a file's key was
  sealed under it (`HoldsNoForgery`, which a concrete AEAD is shown to meet).
- A key check value determines its key. Key derivation, the base64 and UTF-8 codecs and hashes are
  parameters; the codecs are inverted by their decoders.
- A SQLite transaction, a rename and a no-clobber publish are each one atomic step; a write to a file
  may stop after any byte. What the keychain, the disk, the gateway and the clock answer is a
  parameter of each call, so the statements hold for every answer.
- Resampling positions are exact fractions, energies and samples are reals or integers, and scores
  are integers standing for any total order.

## Where the code does less than one might expect

Each of these but the last is a lemma or a method below, with its exact condition; most name an input too.

- An adoption or import that succeeds leaves the recorded key neither current nor retired exactly when
  this start cannot see it (for example a keychain that is switched off), it was not retired before and
  is not among the keys the call brings along: `Custody.DataFolder.InstallCurrent`, `CustodyRuns.Perform`;
  an input, `CustodyRuns.InstallMissesAnUnseenKey`.
- An installation destroys a live key exactly when that key is unrecorded, not retired and held by the
  key file alone, another key is in the keychain, and the keychain does not take the new key:
  `Custody.InstallationRetires`; an input, `CustodyRuns.InstallOverwritesAnUnrecordedKeyFile`.
- A readable blob under a retired key whose plaintext starts with a Ryu magic is refused by sealing,
  counted unreadable and left alone: `Resealing.SettledIsSealedUnlessRefused`; an input,
  `Resealing.SomeBlobRefuses`. The store never makes such a blob itself: `Rotation.OwnBlobsNeverRefuse`.
- A blob stored without a key reads back once a key is held if and only if it looks like no Ryu magic:
  `Content.CompatBytesSurvive`; an input, `Content.SomeCompatBlobIsRefused`.
- The recorded key can move on while a planned cell is unreadable. A run that met nothing unreadable
  leaves every planned cell sealed if and only if it skipped no unreadable one:
  `Rotation.LeftBehindExactly`; an input, `Rotation.RecordMovesPastAnUnreadableCell`.
- A run whose job is cancelled and retried under it is not told, and completes the requeued job without
  cues: exactly when, `Jobs.CompletedRunHasItsCues`; an input, `Jobs.RetryUnderRunLosesCues`.
- After the first cut, frame energies are measured from behind the retained samples, so a later cut
  falls in the frame it was chosen for if and only if at most 800 samples were retained:
  `Windowing.LaterCutsAreShifted`; an input, `Windowing.SomeCutMissesItsFrame`.
- A seek keeps its target modulo 2^64: `FileReader.SealedFileReader.Seek`; an input,
  `FileReader.SeekPastTheLargestOffset`.
- A torn log record followed by zero bytes, as left by a file that was extended before a crash, makes
  the log unreadable if and only if the record announced there is all there, does not open, and is the
  first or has something after it: `TornLogs.TornLogOpens`; an input, `TornLogs.SomeTornRecordIsRefused`.
- A log cut off within its header is refused, not started anew: `TornLogs.CutHeaderIsRefused`.
- The pieces of a cue tile its span if and only if each part but the last gets at least a millisecond;
  shorter cues are stretched and overlap: `CueText.SharePieces`; an input, `CueText.SomePieces`.
- The reply to a request for one line is taken whole when it numbers the line differently, although the
  comment on the fallback speaks of a line without a number: `Translate.OtherNumberIsKept`.
- A plaintext file is taken for sealed already if and only if it starts with the sealed-file magic:
  `Publishing.Folder.SealFileInPlace`.
- The comment on `best_break` speaks of the last sentence end; the code takes the last place of the
  first pattern in its list that occurs at all. The model follows the code.

## Model

| member | source | states |
|---|---|---|
| CustodyRuns.RunWithCrashes | crates/core/crypto/src/custody.rs:568-1201 | Any sequence of resolve, adopt, import and retire calls without an environment key, each cut off after any of its writes or not at all, on any host: the recorded key is held in every state and the retired index never exceeds 4. Every key ever recorded stays recorded or is retired as long as no call overlooks the recorded key of the folder it finds (replaces a key it neither sees, nor finds retired, nor brings along), which no call does where replacing calls read the keychain or none is in use. A call that is not cut off and that nothing stands in the way of does what it is for |
| CustodyRuns.ResolveAfterCrash | crates/core/crypto/src/custody.rs:568-1201 | Whatever write of a call that does not overlook the recorded key a crash follows, imports that bring the key along included, the next start resolves, and to the previously recorded key or to another one with that key in its retired list; on hosts with a keychain and on file-only hosts alike |
| CustodyRuns.Perform | crates/core/crypto/src/custody.rs:568-1201 | What any one call adds to a run: the record changes with its last write at most; a call that cannot read the keychain leaves it alone and retires into files; a recorded key the call does not overlook stays recorded or is retired, and one that a successful call overlooks is neither; when it must succeed, and what it then did |
| CustodyRuns.BootRepeatedly | crates/core/crypto/src/custody.rs:568-746 | Starts of a recording host, with anything but the record changed from outside in between (keychain, files, environment): all that resolve return the same key, the recorded one if there was one |
| CustodyRuns.RecordedKeyIsNeverLost | crates/core/crypto/src/custody.rs:418-456 | Along any path of safe writes a key that was recorded while live stays recorded and live, retired, or in the keychain slot; the index stays within 4 |
| CustodyRuns.SafePathKeeps | crates/core/crypto/src/custody.rs:418-456 | A retired key stays retired, and a secured key secured, in every later state of a run |
| CustodyRuns.SoundAlong | crates/core/crypto/src/custody.rs:418-456 | Every state of a run has a consistent retired set, and a record once written is never removed |
| CustodyRuns.CutRun | crates/core/crypto/src/custody.rs:955-1024 | Cutting the newest call of a run anywhere keeps what the whole run guarantees |
| CustodyRuns.InstallMissesAnUnseenKey | crates/core/crypto/src/custody.rs:940-1024 | A concrete folder where the keychain is switched off: installing another key leaves the recorded one neither current nor retired |
| CustodyRuns.InstallOverwritesAnUnrecordedKeyFile | crates/core/crypto/src/custody.rs:928-1024 | A concrete folder where an unrecorded key file behind a keychain key is overwritten and not retired |
| Custody.DataFolder.Resolve | crates/core/crypto/src/custody.rs:568-746 | A recorded folder resolves to the recorded key or not at all, and does when that key can be seen (with an environment key: when that is the recorded key or a retired one); an unrecorded one resolves to the key of the ladder unless the probe rejects it, then to one that passes; from which place and in which health; nothing live or retired is lost; nothing is generated beside a record, a retired key or sealed data; a newer folder is refused untouched; the retired list names every other retired key |
| Custody.DataFolder.InstallCurrent | crates/core/crypto/src/custody.rs:955-1024 | Displaced keys are retired before the new key is stored, the record moves with the last write; the recorded key ends current or retired if and only if this start sees it, it already was retired, or the call brings it along; where the key goes, what is reported as custody and as replaced, and exactly which live key is destroyed, in terms of the folder and the keychain reply before the call; a full retired set changes nothing, a damaged one or a damaged record is refused untouched; when it must succeed |
| Custody.DataFolder.Adopt | crates/core/crypto/src/custody.rs:1026-1051 | The adopted key is the one the candidate names, passes the record or probe check, and becomes recorded and live, where it goes and what is retired as for any installation; exactly when the key recorded before stays current or retired; a refusal leaves the record alone; when it must succeed |
| Custody.DataFolder.Import | crates/core/crypto/src/custody.rs:1156-1201 | After an import the current key is recorded and live and every bundled key is retired; a key that is current already is written nowhere, and only the retired set grows; the key recorded before stays current or retired if and only if this start sees it, it was retired, or the bundle holds it; a foreign environment key is refused with nothing written |
| Custody.DataFolder.RetireCommand | crates/core/crypto/src/custody.rs:1075-1101 | A retired candidate is in the vault before its file is removed, and which file that is; the current key and one in the keychain slot are refused; the record and the slot are untouched; when it must succeed |
| Custody.DataFolder.RemoveRetiredFile | crates/core/crypto/src/custody.rs:1075-1101 | A key file, or the legacy file, is removed if and only if the vault reads the key back |
| Custody.DataFolder.ResolveRecorded | crates/core/crypto/src/custody.rs:568-746 | With a record, resolution succeeds if and only if the recorded key can be seen (and an environment key is that key or a retired one): with the ladder's key where that is it, else with the candidate from the best place; a mismatched key stays readable and is retired as far as there is room |
| Custody.DataFolder.ResolveUnrecorded | crates/core/crypto/src/custody.rs:568-746 | Without a record, the ladder's key is recorded unless the probe rejects it; then the candidate from the best place that passes is, if and only if there is one |
| Custody.DataFolder.Recover | crates/core/crypto/src/custody.rs:568-746 | The matching candidate is used, with its place and the health that says so; the mismatched key is in the retired list, and in the retired set as far as there is room |
| Custody.DataFolder.Retire | crates/core/crypto/src/custody.rs:418-456 | A key enters the index once, its material first and the index last; the limit of 4 and a damaged retired file are the only refusals of a sound vault |
| Custody.DataFolder.StoreRetired | crates/core/crypto/src/custody.rs:418-456 | Retired material is stored where it reads back before it is listed: in the keychain exactly where that is preferred, reports success and reads back, else in a file |
| Custody.DataFolder.RetireEach | crates/core/crypto/src/custody.rs:955-1024 | Retiring a list of keys that fits lists them all and never runs into the limit |
| Custody.DataFolder.StoreCurrent | crates/core/crypto/src/custody.rs:955-1024 | The current key goes to the keychain if it reads back there, else to the key file where that may be used, without endangering a retired key; exactly when it is stored |
| Custody.DataFolder.RetireDisplaced | crates/core/crypto/src/custody.rs:928-1024 | The persistent, recorded and extra keys are retired, or nothing happens when they do not fit |
| Custody.DataFolder.DisplaceAndStore | crates/core/crypto/src/custody.rs:955-1024 | Everything before the record is written keeps the record and the key it names |
| Custody.InstallationRetires | crates/core/crypto/src/custody.rs:928-1024 | Which keys an installation retires; a live key is lost if and only if it is an unrecorded, unretired key held by the key file alone, behind another key in the keychain, and the keychain does not take the new one |
| Custody.RemovalIsSafe | crates/core/crypto/src/custody.rs:1075-1101 | Removing the file of a retired key that is not the recorded one loses no key |
| Custody.CandidatesAreWhatIsSeen | crates/core/crypto/src/custody.rs:545-565 | A key is a candidate if and only if this start can read it somewhere |
| Custody.CandidatesInOrder | crates/core/crypto/src/custody.rs:545-565 | Recovery prefers the environment to the keychain, then the key file, the legacy file, and retired keys |
| Custody.FirstIsBest | crates/core/crypto/src/custody.rs:545-746 | The candidate taken is from a place no worse than any other that would do |
| Custody.CountNewShrinks | crates/core/crypto/src/custody.rs:955-1024 | The room computed before retiring is still enough while the index grows |
| Custody.DataFolder.Write | crates/core/crypto/src/custody.rs:225-243 | One atomic write, allowed only when it keeps every retired and secured key |
| Custody.DataFolder.LoadMasterKey | crates/core/crypto/src/lib.rs:1228-1349 | The ladder over the folder it found: the environment's key, else the keychain's, else the key file's where that may be used, else the legacy key, else a generated one where that is allowed; exactly when it answers, from which place, and what it leaves in the folder; no live key is lost |
| Custody.DataFolder.SeedKeychain | crates/core/crypto/src/lib.rs:1253-1318 | An empty keychain slot takes the first of key file, legacy file and generated key; exactly when that succeeds, where the key then is, and the whole folder afterwards |
| Custody.DataFolder.LoadFromFile | crates/core/crypto/src/lib.rs:1327-1348 | The key file's key, else the legacy key, else a generated one; exactly when it succeeds, and the key file then holds it |
| Custody.DataFolder.WriteKeyFile | crates/core/crypto/src/lib.rs:1011-1050 | A published key file is never replaced; the key on disk is the one returned |
| Custody.DataFolder.RetireMatchingLegacyKey | crates/core/crypto/src/lib.rs:1357-1376 | The legacy file is removed exactly when it duplicates the keychain key |
| KeyRace.FinishedProcessesAgree | crates/core/crypto/src/lib.rs:1011-1050 | Under every schedule of any number of processes a published key file is never replaced, and all that finished hold the key on disk |
| KeyRace.ThreeStepsFinish | crates/core/crypto/src/lib.rs:1011-1050 | A process given three steps finishes, whatever the others do |
| KeyRace.FreshFolderRace | crates/core/crypto/src/lib.rs:1011-1050 | On a fresh folder any two processes that finish return one and the same key |
| Content.AssociatedDataInjective | crates/core/crypto/src/content.rs:153-179 | Two places share associated data only if store, purpose and fields are the same |
| Content.Cipher.WithRetiredRoots | crates/core/crypto/src/content.rs:359-385 | Exactly the given roots but the current one, each once |
| Content.RootsInOrder | crates/core/crypto/src/content.rs:359-385 | Retired roots are tried in the order they were given |
| Content.Cipher.SealedTextOpens | crates/core/crypto/src/content.rs:464-511 | Text sealed under the current key opens and needs no reseal |
| Content.Cipher.SealedBytesOpen | crates/core/crypto/src/content.rs:532-573 | Bytes sealed under the current key open and need no reseal |
| Content.BlobOpens | crates/core/crypto/src/content.rs:513-524 | The first key that opens a ciphertext, the current one first, decides; and whether it is the current one |
| Content.TextEnvelopeOpens | crates/core/crypto/src/content.rs:489-511 | A TEXT envelope opens to the plaintext under the first key that opens it, flagged for resealing if and only if the current key does not |
| Content.BytesEnvelopeOpens | crates/core/crypto/src/content.rs:555-573 | The same for a BLOB envelope |
| Content.OtherTextOpens | crates/core/crypto/src/content.rs:489-497 | TEXT without this version's prefix is refused if and only if it is `encb:v`, digits and a colon; anything else is legacy plaintext, to be sealed unless empty |
| Content.OtherBytesOpen | crates/core/crypto/src/content.rs:555-573 | BLOBs without this version's magic are refused if and only if they start with `RYU-`, two upper-case letters and two digits; anything else is legacy plaintext |
| Content.SealRefuses | crates/core/crypto/src/content.rs:526-550 | A blob is refused for sealing if and only if it starts with one of the three magics |
| Content.CompatTextSurvives | crates/core/crypto/src/plugin_keys/store_seal.rs:83-127 | Every text stored without a key, envelope lookalikes included, reads back once a key is held |
| Content.CompatBytesSurvive | crates/core/crypto/src/plugin_keys/store_seal.rs:146-170 | A keyless blob reads back exactly when it does not look like a Ryu magic |
| Content.SomeCompatBlobIsRefused | crates/core/crypto/src/plugin_keys/store_seal.rs:146-170 | A concrete keyless blob that is refused once a key is held |
| Resealing.ResealDecides | crates/core/crypto/src/content_sqlite.rs:404-465 | A value is left alone exactly when nothing is left to do for it, and counted unreadable exactly when it does not read or refuses |
| Resealing.ResealKeepsReading | crates/core/crypto/src/content_sqlite.rs:404-465 | A sealed replacement reads as the value it replaces, under the current key |
| Resealing.SettledIsSealedUnlessRefused | crates/core/crypto/src/content_sqlite.rs:404-465 | A settled, readable, non-empty value is an envelope that opens under the current key if and only if it is no blob that refuses resealing |
| Resealing.SettledReadsAlone | crates/core/crypto/src/content_sqlite.rs:404-465 | A settled value reads the same once all retired keys are dropped if and only if it is no blob that refuses resealing |
| Resealing.SomeBlobRefuses | crates/core/crypto/src/content.rs:526-550 | A concrete readable blob under a retired key that is counted unreadable and left as it is |
| Resealing.CipherSealsLawfully | crates/core/crypto/src/content_sqlite.rs:404-465 | The rules above hold for every lawful cipher, as the migration uses them |
| Migration.MigrateThroughCrashes | crates/core/crypto/src/content_sqlite.rs:480-587 | Any number of runs cut off after any commit and a last complete one: every value still reads as at the start, unreadable ones are unchanged; the last run succeeds if and only if the store was not recorded by a newer version or under a key the cipher lacks; then every planned item is settled, and all its values read the same without the retired keys, blobs that refuse resealing excepted |
| Migration.SealedStore.MigrateColumns | crates/core/crypto/src/content_sqlite.rs:480-587 | One run: every commit keeps the migration, records the scrub debt and names a key the cipher knows; each refusal with its exact condition and no write; unreadable values are counted; afterwards the planned values read the same without the retired keys, except exactly the blobs that refuse resealing; exactly when the recorded key moves on |
| Migration.NothingLeftBehind | crates/core/crypto/src/content_sqlite.rs:567-570 | After a reset, a run that met nothing unreadable left every cell of every planned column NULL, empty or opening under the current key, and reading the same once the retired keys are dropped |
| Rotation.LeftBehindExactly | crates/core/crypto/src/content_sqlite.rs:492-571 | A run that met nothing unreadable left every planned cell so if and only if no unreadable cell stands in what it skipped: before a saved cursor, or in a finished item |
| Rotation.RecordMovesPastAnUnreadableCell | crates/core/crypto/src/content_sqlite.rs:565-571 | A concrete run, over an item finished earlier with an unreadable cell and a pending one: the record moves on although a planned cell is not sealed |
| Rotation.RotationsKeepReadings | crates/core/crypto/src/content.rs:513-573 | Through any number of key changes that keep the old keys, each followed by any migration with crashes and resets: what read under the first key reads the same under the last |
| Rotation.StillReads | crates/core/crypto/src/content.rs:489-573 | A value that reads under a cipher reads the same under one that has its keys among its own |
| Rotation.SomeCipherSucceeds | crates/core/crypto/src/content.rs:359-385 | Such a change of key exists, under a concrete AEAD |
| Rotation.OwnBlobsNeverRefuse | crates/core/crypto/src/content.rs:526-573 | A blob the store sealed itself never refuses resealing after a change of key |
| Migration.AllPlannedAllFinished | crates/core/crypto/src/content_sqlite.rs:590-602 | When every item of the state table was planned, the run finished them all |
| Migration.SecondWalkChangesNothing | crates/core/crypto/src/content_sqlite.rs:606-612 | A forced second walk over finished columns changes no cell |
| Migration.CountsAfterReset | crates/core/crypto/src/content_sqlite.rs:567-587 | After a reset a run counts no unreadable value exactly when no planned column has one |
| Migration.WalkKeeps | crates/core/crypto/src/content_sqlite.rs:513-564 | What holds along a walk is kept by every batch |
| Migration.WalkMigratesItem | crates/core/crypto/src/content_sqlite.rs:513-566 | A walk that reaches the end of a column settled all of it |
| Migration.PlanIsWalked | crates/core/crypto/src/content_sqlite.rs:492-587 | Finishing one more plan extends what was promised of the earlier ones |
| Migration.BatchKeeps | crates/core/crypto/src/content_sqlite.rs:513-564 | One batch with its cursor, in one transaction, keeps the migration |
| Migration.BatchAdvances | crates/core/crypto/src/content_sqlite.rs:513-564 | A batch touches no settled row, and its cursor points exactly past it |
| Migration.ResealBatch | crates/core/crypto/src/content_sqlite.rs:541-555 | A batch reseals exactly its rows; its counts add up and count the unreadable ones |
| Migration.CountsThem | crates/core/crypto/src/content_sqlite.rs:541-555 | The number of unreadable rows is the number of rows that are unreadable |
| Migration.StartsMigrating | crates/core/crypto/src/content_sqlite.rs:480-500 | Untouched data is a valid start |
| Migration.ResetKeeps | crates/core/crypto/src/content_sqlite.rs:606-612 | Resetting items never breaks a migration under way |
| Migration.MigratingIsWalkable | crates/core/crypto/src/content_sqlite.rs:306-320 | Key order is kept, so a run can always be resumed |
| Migration.CursorRoundTrip | crates/core/crypto/src/content_sqlite.rs:838-868 | The pending cursor parses back as it was encoded |
| Writers.WalkBesideWriters | crates/core/crypto/src/content_sqlite.rs:513-564 | A walk over a column while the application replaces, adds and deletes rows between the batches: every commit is a migration of what had been written by then and owes the scrub; at the end every row is settled, and the column reads as the original rows with all those writes |
| Writers.BatchAndWrites | crates/core/crypto/src/content_sqlite.rs:513-564 | One batch and the writes after it: both keep the migration, and the rows still to visit decrease |
| Writers.ApplyWrites | crates/core/crypto/src/content_sqlite.rs:513-564 | Any sequence of writes, each its own transaction, keeps the migration of what was last written |
| Writers.WriteKeepsMigrating | crates/core/crypto/src/content_sqlite.rs:513-564 | One write before or behind the cursor leaves a migration under way of the column with that write |
| Writers.WriteStaysSettled | crates/core/crypto/src/content_sqlite.rs:513-564 | Rows up to the cursor stay settled when a stored value is written or a row added or deleted among them |
| Writers.WriteIsFaithful | crates/core/crypto/src/content_sqlite.rs:513-564 | The same write on the original and on the migrated rows leaves them reading the same |
| Migration.ScrubOwedIsRecorded | crates/core/crypto/src/content_sqlite.rs:883-902 | Marking a scrub owed makes the store pending, forgets a finished scrub, and keeps the key and the last attempt |
| Migration.SealedStore.CheckStoreKey | crates/core/crypto/src/content_sqlite.rs:751-807 | Each answer with its exact condition; the key is recorded on first use only |
| Migration.SealedStore.ResetItems | crates/core/crypto/src/content_sqlite.rs:606-612 | Exactly the planned items are pending afterwards |
| Migration.SealedStore.StartItem | crates/core/crypto/src/content_sqlite.rs:505-512 | The scrub debt and the item state are written in one transaction, before any cell |
| Migration.SealedStore.WalkBatch | crates/core/crypto/src/content_sqlite.rs:513-564 | One commit with one batch; a cell that changed marks that its plaintext may be anywhere |
| Migration.SealedStore.WalkItem | crates/core/crypto/src/content_sqlite.rs:513-564 | A walk ends at the end of the column, and what every batch keeps holds of every commit |
| Migration.SealedStore.WalkStarted | crates/core/crypto/src/content_sqlite.rs:509-564 | Every commit of a walk owes the scrub |
| Migration.SealedStore.FinishItem | crates/core/crypto/src/content_sqlite.rs:565-571 | The item is finished, and the recorded key moves only when all items are |
| Migration.SealedStore.MigrateRows | crates/core/crypto/src/content_sqlite.rs:505-564 | An unfinished item is walked to its end, all of it settled |
| Migration.SealedStore.MigrateItem | crates/core/crypto/src/content_sqlite.rs:498-571 | One item migrated, and exactly when the recorded key moves |
| Migration.SealedStore.MigratePlan | crates/core/crypto/src/content_sqlite.rs:492-571 | A finished item is skipped and counted as such, any other migrated |
| Migration.SealedStore.MigratePlans | crates/core/crypto/src/content_sqlite.rs:492-571 | All plans in order; the key record moves exactly when, at some plan still to migrate, nothing was unreadable so far and all items were then finished |
| Migration.MovesAfterReset | crates/core/crypto/src/content_sqlite.rs:563-571 | After resetting the planned items the recorded key moves on exactly when no planned value is unreadable and every other item is finished |
| Migration.MovesNext | crates/core/crypto/src/content_sqlite.rs:492-571 | One more plan moves the record exactly when it still had to be migrated, nothing was unreadable and all items are then finished |
| Scrub.StoreLife | crates/core/crypto/src/content_sqlite.rs:480-1258 | Any sequence of resets, migrations, finishes and starts, each cut off anywhere or not at all: no value is lost, while freed plaintext may remain the store row is pending, and each session did what it is for, as far as it came |
| Scrub.CutSession | crates/core/crypto/src/content_sqlite.rs:480-1258 | The same for one session: a reset marks its items one by one, a migration that is neither cut off nor refused settles what was planned and needs the retired keys no more, finishing or starting touches no value and leaves no residue where there is room |
| Scrub.ScrubbedStore.FinishStore | crates/core/crypto/src/content_sqlite.rs:1063-1078 | Ends clean or pending as reported, rebuilds the file where that fits and defers it where not; fails where a reader blocks the checkpoint; after an error the store is pending if the last statement works; refused exactly without secure_delete; succeeds on an ample volume |
| Scrub.ScrubbedStore.FinishInner | crates/core/crypto/src/content_sqlite.rs:1080-1140 | Clean after truncate, scrub and a VACUUM for which the store was small enough and the volume had room; otherwise pending, and what its row says of why |
| Scrub.ScrubbedStore.RunPendingVacuum | crates/core/crypto/src/content_sqlite.rs:1198-1258 | Does nothing unless pending and due; rebuilds the file where that fits and reports success with no residue left; a refusal for want of room is on record with its time; stays pending otherwise; succeeds on an ample volume |
| Scrub.ScrubbedStore.RefusedForADay | crates/core/crypto/src/content_sqlite.rs:1198-1258 | After a start that was refused for want of room, one less than a day later does nothing |
| Scrub.ScrubbedStore.Vacuum | crates/core/crypto/src/content_sqlite.rs:1115-1120 | The row is cleaned only after the rebuilt file was copied back |
| Scrub.ScrubbedStore.ScrubFreelist | crates/core/crypto/src/content_sqlite.rs:959-995 | Reports a scrub, and of as many pages as were free, with no plaintext left on a free page and secure_delete on again |
| Scrub.ScrubbedStore.ZeroFill | crates/core/crypto/src/content_sqlite.rs:973-990 | Zeros are written over all free bytes, from a chunk for which there is room, or the disk gate stops it where there is none |
| Scrub.ScrubbedStore.DropScrubTable | crates/core/crypto/src/content_sqlite.rs:937-949 | secure_delete is on again after success, and after a failed drop wherever turning it on works |
| Scrub.ScrubbedStore.CheckpointTruncate | crates/core/crypto/src/content_sqlite.rs:909-932 | Succeeds exactly when one of three attempts truncates |
| Scrub.ScrubbedStore.SetPending | crates/core/crypto/src/content_sqlite.rs:870-877 | A finished scrub is recorded only when it is true |
| Scrub.ScrubsOn | crates/core/crypto/src/content_sqlite.rs:1063-1140 | Scrub steps compose: content, debt and commits are kept across them |
| LogWriter.LogLife | crates/core/crypto/src/sealed_log.rs:331-410 | Any number of sessions, each opening, appending, syncing, appending more and crashing with any number of the later bytes on disk: exactly every record found or synced survives, followed by those of the later ones that are whole within these bytes, in order |
| LogWriter.RunAndCrash | crates/core/crypto/src/sealed_log.rs:331-410 | The same for one session |
| LogWriter.CrashSparesSynced | crates/core/crypto/src/sealed_log.rs:110-168 | A cut at or after the synced length recovers the synced records and exactly the later ones that are whole within what the cut leaves |
| TornLogs.CutHeaderIsRefused | crates/core/crypto/src/sealed_log.rs:331-366 | A log cut off within its header is refused and its file left as it is |
| TornLogs.InvalidLengthIsRefused | crates/core/crypto/src/sealed_log.rs:331-366 | A log with an ill-sized length anywhere after its whole records is refused and left as it is; nothing after the damage is cut off |
| LogWriter.OpenAppend | crates/core/crypto/src/sealed_log.rs:331-366 | Opens exactly when the current key is the first that accepts the log; keeps every record that opens in sequence, changes no byte before the committed end, and leaves a refused file untouched |
| LogWriter.AppendAll | crates/core/crypto/src/sealed_log.rs:375-410 | Appends follow the recovered records with consecutive indices; earlier bytes are unchanged |
| LogWriter.SealedLogWriter.Append | crates/core/crypto/src/sealed_log.rs:381-410 | One record adds one frame at the next index, or is refused as too long with nothing written |
| LogWriter.Create | crates/core/crypto/src/sealed_log.rs:302-325 | A new log holds no record |
| SealedLog.ScanMeaning | crates/core/crypto/src/sealed_log.rs:110-168 | A successful scan is exactly the longest run of records that open in sequence, with what stopped it |
| SealedLog.WhereScanStops | crates/core/crypto/src/sealed_log.rs:118-168 | What the scan makes of whatever follows the records, by the bytes: an ill-sized length is an error unless all the rest is zero, a body not all there is torn, one that does not open is a failing end or an error |
| SealedLog.HeadersOfLogs | crates/core/crypto/src/sealed_log.rs:56-64 | What a log starts with, and for which reason any other file is refused |
| SealedLog.CutKeepsWholeRecords | crates/core/crypto/src/sealed_log.rs:110-168 | For every cut, the scan yields exactly the records whose frames lie wholly before it |
| SealedLog.CutLogOpens | crates/core/crypto/src/sealed_log.rs:170-211 | Cut at or after the header, a log opens under its key with exactly its whole records |
| SealedLog.ZeroTailIsTorn | crates/core/crypto/src/sealed_log.rs:110-168 | Zero bytes after a record boundary are a torn tail, never an error |
| SealedLog.ZeroPaddedLogOpens | crates/core/crypto/src/sealed_log.rs:170-211 | A zero-padded log opens with all its records |
| TornLogs.TornThenZerosReads | crates/core/crypto/src/sealed_log.rs:110-168 | A torn record followed by zero bytes: the scan succeeds, with all records before it, unless the record announced by its first bytes is all there, does not open, and is followed by more; past the length field that is the torn record itself |
| TornLogs.TornLogOpens | crates/core/crypto/src/sealed_log.rs:170-211 | The same for a whole log file under its current key: it opens with all its records unless the torn record is broken and either is the first or has something after its announced end |
| TornLogs.TornFirstRecord | crates/core/crypto/src/sealed_log.rs:170-211 | In the first record of a log a broken end is refused too |
| TornLogs.MisreadLength | crates/core/crypto/src/sealed_log.rs:118-140 | A length cut within its four bytes and completed with zeros is zero, or announces no more than before and at least 256 bytes |
| TornLogs.SomeTornRecordIsRefused | crates/core/crypto/src/sealed_log.rs:140-160 | A concrete record, cut one byte short and extended by two zero bytes, that the scan refuses |
| SealedLog.FailureMidFileIsAnError | crates/core/crypto/src/sealed_log.rs:140-160 | A failing record followed by more data is an error, never a truncation |
| SealedLog.ForeignLogIsRefused | crates/core/crypto/src/sealed_log.rs:170-211 | A file whose complete first record opens under no key is refused |
| SealedLog.RetiredLogIsFound | crates/core/crypto/src/sealed_log.rs:170-211 | A log under a retired key opens under that key |
| SealedLog.WholeLogOpens | crates/core/crypto/src/sealed_log.rs:170-211 | A whole log opens under the current key, clean |
| SealedLog.FrameOpens | crates/core/crypto/src/sealed_log.rs:381-410 | A written frame opens, whatever follows it |
| SealedLog.HeadIsLocal | crates/core/crypto/src/sealed_log.rs:118-160 | A record that opens does so whatever follows; cut short it is torn |
| SealedLog.ScanContinues | crates/core/crypto/src/sealed_log.rs:110-168 | Committed frames are scanned as written and the scan goes on after them |
| SealedLog.ScanWith | crates/core/crypto/src/sealed_log.rs:110-168 | The loop computes the recursive reading of the bytes |
| SealedLog.CountRecords | crates/core/crypto/src/sealed_log.rs:418-427 | Counting by length alone gives the number of records of a verified file |
| SealedLog.OpenLog | crates/core/crypto/src/sealed_log.rs:170-211 | The first key that accepts the log decides; if none does it is refused with the first error a scan ran into |
| SealedLog.ReadLog | crates/core/crypto/src/sealed_log.rs:269-276 | Strict reading returns exactly the records of a whole log, and only of such |
| OldFiles.OldLogReads | crates/core/crypto/src/sealed_log.rs:170-276 | After a change of key that retires it, a log written under the old key is read in full, unless a key before it opens its first record; it is not appended to and left as it is |
| OldFiles.OldFileReads | crates/core/crypto/src/sealed_file.rs:318-374 | After a change of key that retires it, a sealed file written under the old key shows the same plaintext, unless a key before it opens its last chunk |
| FileReader.AnswerAll | crates/core/crypto/src/sealed_file.rs:386-472 | Any mix of reads, seeks and range reads through the one-chunk cache answers as a cursor over the plaintext |
| FileReader.Answer | crates/core/crypto/src/sealed_file.rs:386-472 | The same for one request |
| FileReader.ReferenceMeans | crates/core/crypto/src/sealed_file.rs:421-472 | What the cursor gives: reads are bytes from the cursor on, at most as many as asked for and some before the end; seeks go to their target unless before the start; ranges give what the plaintext has of them |
| FileReader.SealedFormPresents | crates/core/crypto/src/sealed_file.rs:195-242 | Round trip: the sealed form opens with the exact length and shows exactly the plaintext |
| FileReader.Open | crates/core/crypto/src/sealed_file.rs:318-374 | Opens under the first key whose last chunk opens, with length and layout from the file size alone; each refusal with its condition |
| FileReader.ReadToEnd | crates/core/crypto/src/sealed_file.rs:442-454 | Reading on to the end returns everything from the cursor on |
| FileReader.SealedFileReader.LoadChunk | crates/core/crypto/src/sealed_file.rs:386-417 | The cache only ever holds a chunk that opened at its own index |
| FileReader.SealedFileReader.Piece | crates/core/crypto/src/sealed_file.rs:421-454 | One step returns the rest of the chunk at the cursor, or fails only on a chunk that does not open |
| FileReader.SealedFileReader.ReadRange | crates/core/crypto/src/sealed_file.rs:421-438 | Exactly the bytes of the range, clamped to the end |
| FileReader.SealedFileReader.Read | crates/core/crypto/src/sealed_file.rs:442-454 | The bytes at the cursor, which moves by as many |
| FileReader.SealedFileReader.Seek | crates/core/crypto/src/sealed_file.rs:458-472 | The cursor ends at the target modulo 2^64, or is refused before the start and unmoved |
| FileReader.SeekPastTheLargestOffset | crates/core/crypto/src/sealed_file.rs:458-472 | A concrete seek past the largest offset that lands at the start |
| FileIntegrity.PrefixIsRefused | crates/core/crypto/src/sealed_file.rs:318-374 | No proper prefix of a sealed file opens, whichever of the store's keys sealed it and whatever others it holds |
| FileIntegrity.OpenAltered | crates/core/crypto/src/sealed_file.rs:318-374 | A file altered anywhere but in its header that opens at all does so under the key that sealed it, has exactly the sealed length, and its reader shows nothing but what was sealed, at its place |
| FileIntegrity.NoPrefixOpens | crates/core/crypto/src/sealed_file.rs:346-362 | The last chunk of a proper prefix, wherever its size puts it, does not open under the sealing key |
| FileIntegrity.OpenedHasSealedLength | crates/core/crypto/src/sealed_file.rs:340-374 | The same for the length, in terms of the last chunk under the sealing key |
| FileIntegrity.ShownIsSealed | crates/core/crypto/src/sealed_file.rs:386-417 | The same for every byte shown |
| FileIntegrity.OpensAtItsIndex | crates/core/crypto/src/sealed_file.rs:92-97 | A chunk opens only at the index and with the flag it was sealed with |
| FileIntegrity.SomeFileHoldsNoForgery | crates/core/crypto/src/sealed_file.rs:318-374 | The no-forgery assumption can be met by files of any number of chunks: a concrete lawful AEAD meets it for every plaintext without the byte 9, for the whole sealed file and each of its prefixes |
| SealedFile.NoncesDistinct | crates/core/crypto/src/sealed_file.rs:92-97 | Within a file no nonce is used twice |
| SealedFile.FullsAt | crates/core/crypto/src/sealed_file.rs:195-230 | Every full chunk stands at its computed place |
| SealedFile.LayoutOfSealedForm | crates/core/crypto/src/sealed_file.rs:334-345 | The size of a sealed form gives back chunk count and exact plaintext length |
| SealedFile.LayoutFills | crates/core/crypto/src/sealed_file.rs:334-345 | An accepted size is filled by its chunks without gap |
| SealedFile.HeadersOfFiles | crates/core/crypto/src/sealed_file.rs:318-333 | What a sealed file starts with, for which reason any other is refused, and the chunk size the header gives |
| SealedFile.ChunkFits | crates/core/crypto/src/sealed_file.rs:386-417 | Every chunk lies within the body, and exactly the last ends with it |
| SealedFile.SealedFileWriter.WritePlain | crates/core/crypto/src/sealed_file.rs:216-230 | However the plaintext is split into writes, the writer holds the same file so far |
| SealedFile.SealingBuffered | crates/core/crypto/src/sealed_file.rs:195-230 | Sealing the full buffer at the next index keeps what was written so far at its place in the file |
| SealedFile.LastChunkCompletes | crates/core/crypto/src/sealed_file.rs:195-242 | Sealing the last buffer completes exactly the sealed form of the plaintext |
| SealedFile.SealedFileWriter.Finish | crates/core/crypto/src/sealed_file.rs:234-242 | The finished file is the sealed form of all that was written |
| SealedFile.CreateWriter | crates/core/crypto/src/sealed_file.rs:157-193 | Refused exactly outside chunk sizes 2^10 to 2^20 |
| Publishing.Folder.SealFileInPlace | crates/core/crypto/src/sealed_file.rs:537-596 | At every step the path holds the plaintext or the copy as the disk kept it; the copy is published if and only if it reads back under the first key that opens it to bytes with the plaintext's digest; each refusal with its exact condition, the room of 64 MiB beyond the file included, and that an intact copy is never refused |
| Publishing.Folder.CompactToSealedFile | crates/core/crypto/src/sealed_log.rs:435-469 | The destination is replaced by nothing but what the disk kept of the sealed file of exactly the records; each failure leaves it alone; when it must succeed |
| Publishing.SealPieces | crates/core/crypto/src/sealed_log.rs:435-469 | Pieces written through one writer give the sealed form of their concatenation |
| Publishing.SealedUnderPresents | crates/core/crypto/src/sealed_file.rs:318-374 | What is published opens under the current key and shows the plaintext |
| Publishing.Verifies | crates/core/crypto/src/sealed_file.rs:574-581 | Whatever the disk gives back of a copy: it is accepted if and only if it opens and every chunk of it decrypts, to bytes with the digest of the plaintext |
| Publishing.IntactCopyVerifies | crates/core/crypto/src/sealed_file.rs:556-585 | A copy the disk kept as it was written is accepted |
| VectorBudget.Budget.MakeRoom | crates/core/crypto/src/vector_index.rs:186-213 | Evicts least recently used partitions, never the kept one, and only as long as needed; fails only when nothing else is left |
| VectorBudget.Budget.Hydrate | crates/core/crypto/src/vector_index.rs:291-328 | Replaces the partition by exactly its vectors within the limit; only one larger than the whole budget is refused, and is then marked evicted |
| VectorBudget.LoadedHolds | crates/core/crypto/src/vector_index.rs:291-328 | Every id given is loaded, and no other, with the values it was given last |
| VectorBudget.Budget.InsertWithRoom | crates/core/crypto/src/vector_index.rs:305-328 | A partition that fits the limit always finds room |
| VectorBudget.Budget.Upsert | crates/core/crypto/src/vector_index.rs:355-375 | One vector changed in one partition, totals counted once; afterwards the budget holds or only that partition is left |
| VectorBudget.Budget.Remove | crates/core/crypto/src/vector_index.rs:378-394 | One vector removed from memory and from the total |
| VectorBudget.Budget.DropPartition | crates/core/crypto/src/vector_index.rs:397-407 | The partition, its total and its evicted mark are gone, all else is as before |
| VectorBudget.Budget.Search | crates/core/crypto/src/vector_index.rs:411-436 | Over the contents of a partition in memory, which is marked used: min(k, number of vectors of the query's length in scope) ids, each once and with its score, best first, and no id in scope that is left out scores more than one that is not; nothing when the partition is not in memory |
| VectorBudget.Budget.CoverageOf | crates/core/crypto/src/vector_index.rs:439-459 | Hydrated, total and evicted counts of one index |
| VectorBudget.Budget.Victim | crates/core/crypto/src/vector_index.rs:186-213 | The victim is least recently used among all but the kept one |
| VectorBudget.Budget.EvictNext | crates/core/crypto/src/vector_index.rs:186-213 | One eviction keeps the accounts and extends the list of victims |
| VectorBudget.EvictOne | crates/core/crypto/src/vector_index.rs:186-213 | Taking out the least recent partition keeps `used` equal to the sum of the rest |
| VectorBudget.CandidatesAreStored | crates/core/crypto/src/vector_index.rs:471-488 | The ranked candidates are exactly the stored vectors of the query's length that are in scope, each once |
| VectorBudget.BestAnswer | crates/core/crypto/src/vector_index.rs:462-504 | The best candidates, named by their ids, answer the search |
| VectorCache.Partition.Upsert | crates/core/crypto/src/vector_index.rs:63-76 | The contents gain or replace one id; the reported growth is exact |
| VectorCache.Partition.Remove | crates/core/crypto/src/vector_index.rs:78-90 | The contents lose one id; the reported shrinkage is exact, zero only when it was absent |
| VectorCache.SwapRemoving | crates/core/crypto/src/vector_index.rs:78-90 | Ids and positions stay mutually inverse through swap-remove |
| VectorCache.PartitionView.CountsItsContents | crates/core/crypto/src/vector_index.rs:46-90 | As many vectors as distinct ids |
| Ranking.BestScoresAgree | crates/core/crypto/src/vector_index.rs:462-575 | Two best choices of the same candidates have the same scores in the same places |
| Ranking.BestMeans | crates/core/crypto/src/vector_index.rs:462-575 | A best choice of different items, member by member: each once, as many as asked for or there are, none left out better than one chosen |
| Ranking.StreamAgrees | crates/core/crypto/src/vector_index.rs:462-575 | Streaming through the collector and selecting at once give the same scores |
| Ranking.SelectBest | crates/core/crypto/src/vector_index.rs:462-504 | The best k, best first |
| Ranking.TopK.Push | crates/core/crypto/src/vector_index.rs:556-564 | After any stream the heap is a best choice of all that was pushed |
| Ranking.TopK.Accepts | crates/core/crypto/src/vector_index.rs:544-553 | Accepts exactly the scores a push would keep |
| Ranking.TopK.IntoSorted | crates/core/crypto/src/vector_index.rs:567-575 | min(k, n) of the pushed candidates, none rejected beating one kept, in descending order |
| Decoding.Decode | backend/src/media.rs:143-252 | The windows of a file are the one-shot resampling of all of it, in a row and without loss, however it was cut into packets, less a tail under 4000 samples |
| Decoding.PushAll | backend/src/media.rs:409-423 | Samples pushed one by one stage every completed window in order |
| Decoding.TakeAll | backend/src/media.rs:473-479 | Staged windows are handed on once, in order |
| Resampling.Resampler.Push | backend/src/media.rs:305-346 | Streaming equals batch: what was emitted is the one-shot resampling of what was fed |
| Resampling.Resampler.Drain | backend/src/media.rs:322-346 | All outputs the source allows are out, and the carry stays below 2*rate/16000 + 1 |
| Resampling.NextBox | backend/src/media.rs:322-346 | The loop averages exactly the box of the next output |
| Resampling.NoneMissing | backend/src/media.rs:322-346 | When the loop stops, exactly floor(16000*n/rate) outputs are out |
| Resampling.BoxFits | backend/src/media.rs:322-346 | Every output averages a non-empty stretch inside the source |
| Resampling.BoxIsCover | backend/src/media.rs:322-346 | The box of an output is the fewest whole source samples that cover its stretch, and boxes leave no sample out between them |
| Resampling.AverageIs | backend/src/media.rs:322-346 | The average of one sample is that sample, and averages of parts weigh in with their lengths |
| Resampling.TargetRateIsIdentity | backend/src/media.rs:305-321 | At 16 kHz resampling is the identity |
| Windowing.WindowAccumulator.Push | backend/src/media.rs:409-423 | Windows and buffer together are the pushed samples; a window is cut exactly when the buffer is full |
| Windowing.WindowAccumulator.Cut | backend/src/media.rs:426-440 | The head is staged with its offset and the rest kept |
| Windowing.WindowAccumulator.QuietestCut | backend/src/media.rs:445-471 | The middle of the quietest frame measured in the band, else the nominal point |
| Windowing.WindowAccumulator.TakeReady | backend/src/media.rs:473-479 | Windows leave in the order they were staged |
| Windowing.WindowAccumulator.TakeRemainder | backend/src/media.rs:484-495 | At the end all that is left is handed on, unless shorter than 4000 samples |
| Windowing.ExactOffsets | backend/src/media.rs:375-395 | Offsets lose nothing to rounding: every window starts where the last ended |
| Windowing.EveryWindow | backend/src/media.rs:375-395 | Each window has 400800 to 559200 samples, a multiple of 16, and its exact offset |
| Windowing.CutIsInBand | backend/src/media.rs:445-471 | Every cut falls strictly inside the buffer, within the band |
| Windowing.FirstCutIsQuiet | backend/src/media.rs:445-471 | The first cut is in the quietest frame between 25 and 35 seconds |
| Windowing.EnergyIs | backend/src/media.rs:409-423 | Energies add up, none for silence, one for a sample at full scale, and scale with the square of the volume |
| Windowing.LaterCutsAreShifted | backend/src/media.rs:426-440 | Later cuts fall in the frame they were chosen for if and only if at most half a frame was retained |
| Windowing.SomeCutMissesItsFrame | backend/src/media.rs:426-471 | A concrete silent buffer whose cut lies outside the frame it was chosen for |
| Cues.Normalize | backend/src/cues.rs:188-207 | The in-place pass computes the specification below |
| Cues.SortIsStable | backend/src/cues.rs:188-207 | A stable sort by start and end |
| Cues.NormalizedIsReadable | backend/src/cues.rs:188-207 | No blank cue, every end after its start, no overlap when starts differ, a 40 ms gap when there is room |
| Cues.NormalizedKeepsContent | backend/src/cues.rs:188-207 | All but ends is the stable sort of the cues that are not blank; a cue that can be shown in full (its own length, at least 800 ms) 40 ms before the next one is, as is the last; any other ends exactly 40 ms before the next, or after one millisecond |
| Cues.RetainedJoin | backend/src/cues.rs:188-190 | Cues are kept if and only if they have a character that is not white space, in their order |
| Cues.NormalizedTwice | backend/src/cues.rs:188-207 | Normalizing twice is normalizing once |
| CueText.SplitKeepsText | backend/src/cues.rs:252-269 | Chunks are non-empty, trimmed and within the budget, and lose nothing but white space |
| CueText.Split | backend/src/cues.rs:252-269 | The loop terminates and computes the chunks |
| CueText.HeadIsNeverEmpty | backend/src/cues.rs:252-269 | The early way out of the loop, on an empty head, is never taken |
| CueText.NeverMidWord | backend/src/cues.rs:274-294 | Where the budget holds a space, a break follows a space or a full-width mark |
| CueText.WhereItBreaks | backend/src/cues.rs:271-294 | Of what fits the budget a break is after the last place of the first sentence end that occurs, else of the first clause end, else after the last space, else where the budget ends |
| CueText.WrapKeepsText | backend/src/cues.rs:297-311 | Wrapping loses nothing but white space |
| CueText.WrapsToTwoLines | backend/src/cues.rs:297-311 | At most two lines, the first of at most 42 characters, for text without line breaks |
| CueText.SplitLong | backend/src/cues.rs:212-247 | When a cue is split, and that the pieces tile its span if and only if every part but the last gets a millisecond: its length times the duration is at least the number of all characters |
| CueText.SharePieces | backend/src/cues.rs:223-247 | The pieces carry the parts in order, each lasting at least a millisecond, and follow each other from start to end without gap or overlap if and only if every part but the last gets a millisecond of its own; then each lasts its part's share of the characters, to the millisecond |
| CueText.SomePieces | backend/src/cues.rs:223-247 | Two concrete cues shorter than their characters: one of 1 ms whose pieces overlap, one of 84 ms whose pieces tile |
| Jobs.JobLife | backend/src/engine.rs:178-406 | In every interleaving of worker and handlers: at most one attempt ends a job between two requeues, counts match the stored cues, active rows have no stamp, and every step that writes the file beside the video is one of a run whose own completion won |
| Jobs.WritesAfterItsWin | backend/src/engine.rs:358-385 | Before every such step there is the step that won the completion, and the worker has stood where it writes ever since: the run that writes is the run that won |
| Jobs.Sidecar.Run | backend/src/engine.rs:127-406 | Any history, performed as calls of the store methods, gives exactly the state the interleaving theorems speak of |
| Jobs.Sidecar.Work | backend/src/engine.rs:178-406 | Each step of the worker, as store calls, is the step of the state machine |
| Jobs.Sidecar.Handle | backend/src/api.rs:496-565 | Each step of a handler, as store calls, is the step of the state machine |
| Jobs.TryToEnd | backend/src/store.rs:446-486 | Of any attempts to cancel, complete or fail a job the first wins if the job is active, no other does, and the row is what that one made it |
| Jobs.UpdatesKeepRow | backend/src/store.rs:446-601 | Every update keeps the counts those of the stored cues and active rows without a completion stamp |
| Jobs.EndingsShow | backend/src/engine.rs:127-406 | A failure leaves the row failed with its message, a completion completed at full progress, a cancellation canceled, each stamped once and with the cues as they were |
| Jobs.RequeueClears | backend/src/store.rs:564-574 | A requeued job has nothing left of its run |
| Jobs.RunsFail | backend/src/engine.rs:273-335 | A run fails on its own on a file without speech, and when no line came back translated, then with its cues stored |
| Jobs.ProgressShows | backend/src/store.rs:490-511 | Progress stays between none and all, changes nothing else of a running job, and keeps a duration once known |
| Jobs.TranslatedInCounts | backend/src/store.rs:514-524 | The translated count is the number of cues with a translation |
| Jobs.AlwaysInvariant | backend/src/engine.rs:127-406 | Every reachable state satisfies the invariant |
| Jobs.StepKeeps | backend/src/engine.rs:178-406 | Every single step keeps the invariant |
| Jobs.TerminalIsFrozen | backend/src/store.rs:446-524 | A finished job stays as it finished until requeued or deleted, whatever the worker and handlers do |
| Jobs.TerminalStep | backend/src/store.rs:446-524 | The same for one step |
| Jobs.CompletedRunHasItsCues | backend/src/engine.rs:351-365 | In every history, a run that completes its job leaves it with the non-empty cues it made if and only if nobody requeued it since they were stored; otherwise it has none |
| Jobs.RetryUnderRunLosesCues | backend/src/api.rs:496-543 | From a fresh job, a concrete interleaving of cancel and retry under a run that ends completed without cues |
| Jobs.SubtitleStore.SetCues | backend/src/store.rs:514-524 | Stores cues and their counts on an active row only |
| Translate.TranslateCues | backend/src/translate.rs:114-184 | For arbitrary replies only translations change; cue n gets the text its batch reply gave under number n, else what its own single request was answered; these exchanges are all that was said in the call, each batch asked for once and then each line left out, in order; the count is the number of cues set |
| Translate.AskBatch | backend/src/translate.rs:130-170 | A batch is asked for once, then each line its reply left out, once and in order; every number holds what these exchanges gave it |
| Translate.FillBatch | backend/src/translate.rs:172-180 | The texts of a batch are written to exactly their cues |
| Translate.ReplyInvertsBatch | backend/src/translate.rs:187-218 | Parsing inverts rendering for every cue list: breaks flattened, blanks absent, markers in the text kept |
| Translate.EchoAt | backend/src/translate.rs:187-218 | Which number stands for which cue, and with which text |
| Translate.RequestsNameTheirCues | backend/src/translate.rs:114-195 | A request names its cue by the number its answer is looked up under, alone and in its batch of 25 |
| Translate.NumberedLineParses | backend/src/translate.rs:197-218 | One rendered line reads back as its number and trimmed text |
| Translate.ListItemParses | backend/src/translate.rs:197-218 | A line the model made a list item of, with white space anywhere around, still gives its number and text |
| Translate.ChatterIsIgnored | backend/src/translate.rs:197-218 | A line without the marker says nothing |
| Translate.LastLineCounts | backend/src/translate.rs:197-218 | Of several lines with one number the last counts |
| Translate.FallbackIsFirst | backend/src/translate.rs:220-228 | A single line's fallback is the first line that says something, fences of code aside |
| Translate.OtherNumberIsKept | backend/src/translate.rs:140-165 | A reply to a single request under another number is taken as it is, number and all |
| Translate.ParseReply | backend/src/translate.rs:197-218 | The loop computes the last numbered line for every number |

## Left out

- CustodyRuns.RunWithCrashes: no environment key, because a key the environment supplies may be recorded without the folder holding it; with one, `Custody.DataFolder.Resolve` and `Custody.DataFolder.InstallCurrent` say call by call what is kept.
- CustodyRuns.ResolveAfterCrash: the next start reads the keychain, unless nothing is in it and the call could put nothing there; a key held only there cannot be returned otherwise.
- Migration.NothingLeftBehind: stated for one uninterrupted call after resetting all items, because the count of unreadable values is per call; `Rotation.LeftBehindExactly` says what holds otherwise.
- Rotation.RotationsKeepReadings: assumes that no two keys of a cipher open one ciphertext to different plaintexts.
- SealedLog.ZeroTailIsTorn: zero bytes after a record boundary; after a torn record, `TornLogs.TornThenZerosReads`.
- LogWriter.LogLife: starts from a log whose header was synced, see `TornLogs.CutHeaderIsRefused`; the records a session finds when it opens count as durable from then on, although the code does not sync a log it finds clean.
- Windowing.FirstCutIsQuiet: the quietest frame is claimed for the first window only, see `Windowing.LaterCutsAreShifted`.
- Decoding.Decode: one source rate per file and a consumer that takes every window; a change of rate is covered by `Resampling.Resampler.Push`.
- CueText.WrapsToTwoLines: no bound on the second line, which joins all that is left.
- Cues.NormalizedIsReadable: cues that start together overlap, the earlier keeping one millisecond.
- VectorBudget.Budget.Search: scores are any function of the stored and the query vector; half-precision storage and floating-point dot products are not modelled.
- Custody records without their labels and timestamps, and builds without a keychain feature.
- Several processes seeding the keychain at once; the race is modelled for the key file.
- Key generation, key derivation, bundles' wrapping, and the tenant, plugin and field ciphers.
- Writers.WalkBesideWriters: one item's walk, with writes that fall between transactions, so the `raced` counter stays zero; the application goes quiet after some number of batches, without which the walk need not end.
- Row keys are integers in order; TEXT keys and their cursors differ only in how they are compared.
- Busy timeouts, the compaction queue and its threads, and the failure of reading the state table.
- `recover` and `debug` variants of reading a log, and copying keys between profiles.
- The digest of a sealed copy, beyond being a function of what is read; syncing a copy before it is renamed.
- Overflow of byte counts beyond 64 bits in the vector cache, and its locks.
- Container demuxing, downmixing, the conversion to 16 bits (a parameter) and WAV encoding.
- Turning transcript segments into cues, cleaning text, and the SRT and WebVTT writers.
- How many values a run sealed or found sealed, beyond one batch of it.
- More than one job, the sealing of the jobs table's columns, and the timing of progress reports (a progress report is a step that may come at any time).
- HTTP routes, directory browsing, events and notifications, and the prompts sent to the model.
