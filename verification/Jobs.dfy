/**
 One subtitle job: the guarded updates of its row, and every interleaving of the worker that runs it
 with the handlers that cancel, retry, delete and re-render it.
 */
module Jobs {
  import opened Wrappers
  import opened Cues

  datatype Status = Queued | Transcribing | Translating | Completed | Failed | Canceled
  {
    predicate Terminal() { this == Completed || this == Failed || this == Canceled }
  }

  datatype Layout = TranslatedOnly | SourceOnly | Bilingual

  datatype Format = Srt | Vtt

  datatype Row = Row(
    status: Status,
    progress: real,
    stage: string,
    error: Option<string>,
    durationMs: Option<nat>,
    cues: seq<Cue>,
    cueCount: nat,
    translatedCount: nat,
    outputPath: Option<string>,
    format: Format,
    layout: Layout,
    updatedAt: int,
    completedAt: Option<int>)

  function TranslatedIn(cues: seq<Cue>): nat {
    if cues == [] then 0
    else TranslatedIn(cues[..|cues| - 1]) + if cues[|cues| - 1].translated.Some? then 1 else 0
  }

  /** It counts the cues that have a translation. */
  lemma {:induction false} TranslatedInCounts(cues: seq<Cue>)
    ensures TranslatedIn(cues) == |set i | 0 <= i < |cues| && cues[i].translated.Some?|
  {
    if cues != [] {
      var n := |cues| - 1;
      TranslatedInCounts(cues[..n]);
      var before := set i | 0 <= i < n && cues[..n][i].translated.Some?;
      assert (set i | 0 <= i < |cues| && cues[i].translated.Some?)
        == if cues[n].translated.Some? then before + {n} else before;
    }
  }

  // ── The updates, as SQL states them ─────────────────────────────────────────

  function Coalesce<T>(first: Option<T>, second: Option<T>): Option<T> {
    if first.Some? then first else second
  }

  predicate Active(row: Option<Row>) {
    row.Some? && !row.value.status.Terminal()
  }

  function WithStatus(row: Row, status: Status, error: Option<string>, now: int): Row {
    row.(status := status, error := error, updatedAt := now,
         completedAt := Coalesce(row.completedAt, if status.Terminal() then Some(now) else None))
  }

  function WithCompletion(row: Row, now: int): Row {
    row.(status := Completed, progress := 1.0, stage := "Done", error := None, updatedAt := now,
         completedAt := Coalesce(row.completedAt, Some(now)))
  }

  function Clamped(p: real): real {
    if p < 0.0 then 0.0 else if p > 1.0 then 1.0 else p
  }

  function WithProgress(row: Row, progress: real, stage: string, durationMs: Option<nat>, now: int): Row {
    row.(progress := Clamped(progress), stage := stage, durationMs := Coalesce(durationMs, row.durationMs), updatedAt := now)
  }

  function WithCues(row: Row, cues: seq<Cue>, now: int): Row {
    row.(cues := cues, cueCount := |cues|, translatedCount := TranslatedIn(cues), updatedAt := now)
  }

  function Requeued(row: Row, now: int): Row {
    row.(status := Queued, progress := 0.0, stage := "Queued", error := None, cues := [], cueCount := 0,
         translatedCount := 0, completedAt := None, updatedAt := now)
  }

  /** A store that refuses writes cannot seal the error text, so it is cleared. */
  function AfterRestart(row: Row, writable: bool, now: int): Row {
    if row.status == Transcribing || row.status == Translating then
      row.(status := Canceled, stage := "Interrupted by a restart",
           error := if writable then Some("The node restarted while this job was running.") else None, updatedAt := now)
    else row
  }

  /** The row's counts are those of its cues, and only a finished job has a completion stamp. */
  predicate Consistent(row: Row) {
    && row.cueCount == |row.cues| && row.translatedCount == TranslatedIn(row.cues)
    && (!row.status.Terminal() ==> row.completedAt.None?)
  }

  /** The store's methods, each one atomic statement on the row. */
  class SubtitleStore {
    var row: Option<Row>

    constructor (row: Option<Row>)
      ensures this.row == row
    {
      this.row := row;
    }

    method SetStatusIfActive(status: Status, error: Option<string>, now: int) returns (won: bool)
      modifies this
      ensures won <==> Active(old(row))
      ensures row == if won then Some(WithStatus(old(row).value, status, error, now)) else old(row)
    {
      won := Active(row);
      if won { row := Some(WithStatus(row.value, status, error, now)); }
    }

    method CancelIfActive(reason: string, now: int) returns (won: bool)
      modifies this
      ensures won <==> Active(old(row))
      ensures row == if won then Some(WithStatus(old(row).value, Canceled, Some(reason), now)) else old(row)
    {
      won := Active(row);
      if won {
        row := Some(row.value.(status := Canceled, error := Some(reason), updatedAt := now,
                               completedAt := Coalesce(row.value.completedAt, Some(now))));
      }
    }

    method CompleteIfActive(now: int) returns (won: bool)
      modifies this
      ensures won <==> Active(old(row))
      ensures row == if won then Some(WithCompletion(old(row).value, now)) else old(row)
    {
      won := Active(row);
      if won { row := Some(WithCompletion(row.value, now)); }
    }

    method SetProgress(progress: real, stage: string, durationMs: Option<nat>, now: int)
      modifies this
      ensures row == if Active(old(row)) then Some(WithProgress(old(row).value, progress, stage, durationMs, now)) else old(row)
    {
      if Active(row) { row := Some(WithProgress(row.value, progress, stage, durationMs, now)); }
    }

    method SetCues(cues: seq<Cue>, now: int)
      modifies this
      ensures row == if Active(old(row)) then Some(WithCues(old(row).value, cues, now)) else old(row)
    {
      var translated := 0;
      for i := 0 to |cues|
        invariant translated == TranslatedIn(cues[..i])
      {
        assert cues[..i + 1][..i] == cues[..i];
        if cues[i].translated.Some? { translated := translated + 1; }
      }
      assert cues[..|cues|] == cues;
      if Active(row) {
        row := Some(row.value.(cues := cues, cueCount := |cues|, translatedCount := translated, updatedAt := now));
      }
    }

    method SetOutputPath(path: Option<string>, now: int)
      modifies this
      ensures row == if old(row).Some? then Some(old(row).value.(outputPath := path, updatedAt := now)) else None
    {
      if row.Some? { row := Some(row.value.(outputPath := path, updatedAt := now)); }
    }

    method SetRenderOptions(format: Format, layout: Layout, now: int)
      modifies this
      ensures row == if old(row).Some? then Some(old(row).value.(format := format, layout := layout, updatedAt := now)) else None
    {
      if row.Some? { row := Some(row.value.(format := format, layout := layout, updatedAt := now)); }
    }

    /** Unconditional: whoever calls it looked at the status earlier. */
    method Requeue(now: int)
      modifies this
      ensures row == if old(row).Some? then Some(Requeued(old(row).value, now)) else None
    {
      if row.Some? { row := Some(Requeued(row.value, now)); }
    }

    method DeleteJob() returns (there: bool)
      modifies this
      ensures there == old(row).Some? && row == None
    {
      there := row.Some?;
      row := None;
    }

    method ResetInterrupted(writable: bool, now: int)
      modifies this
      ensures row == if old(row).Some? then Some(AfterRestart(old(row).value, writable, now)) else None
    {
      if row.Some? { row := Some(AfterRestart(row.value, writable, now)); }
    }
  }

  // ── The worker and the handlers, step by step ───────────────────────────────

  /** Where the worker is in a run: the store call or the outside call it makes next. */
  datatype Pc =
    | Idle
    | Begin
    | Reading
    | Validating
    | Listening
    | StoringCues
    | MarkingTranslating
    | TranslatingCues
    | StoringTranslation(count: nat)
    | Writing
    | LastCheck
    | Completing
    | Publishing
    | SettingPath(path: Option<string>)
    | Failing(message: string)

  /** What the outside world makes of the worker's step. */
  datatype Outcome =
    | Fine
    | Breaks(message: string)                   // the step fails with an error
    | ReadFails                                 // the status cannot be read
    | Heard(cues: seq<Cue>)                     // one more window was transcribed
    | SilentEnd                                 // the file ended
    | NeedsTranslation
    | TranslationStopped
    | Translation(cues: seq<Cue>, count: nat)
    | WroteBeside(path: string)

  datatype Action =
    | Pick
    | Work(outcome: Outcome)
    | ReportProgress(progress: real, stage: string, durationMs: Option<nat>)
    | StartRetry
    | FinishRetry
    | StartCancel
    | FinishCancel
    | Delete
    | Render(format: Format, layout: Layout)
    | Restart(writable: bool)

  /**
   The job's row, the worker with the cues it holds, and handlers between their look at the row and
   their write; then what happened so far: attempts that ended the job since it was last queued,
   completions won, files written beside the video, whether the job was requeued since the run last
   stored its cues, and whether this run's completion won.
   */
  datatype System = System(
    row: Option<Row>,
    pc: Pc,
    cues: seq<Cue>,
    retries: nat,
    cancels: nat,
    wins: nat,
    completions: nat,
    published: nat,
    requeuedSinceStored: bool,
    wonRun: bool)

  predicate IsCanceled(row: Option<Row>) {
    row.None? || row.value.status == Canceled
  }

  /** Move a job to a status while it is active, and go on; stop the run when it is not. */
  function Move(s: System, status: Status, now: int, next: Pc): System {
    if Active(s.row) then s.(row := Some(WithStatus(s.row.value, status, None, now)), pc := next) else s.(pc := Idle)
  }

  function ProgressTo(s: System, progress: real, stage: string, durationMs: Option<nat>, now: int): System {
    if Active(s.row) then s.(row := Some(WithProgress(s.row.value, progress, stage, durationMs, now))) else s
  }

  function StoreCues(s: System, now: int): System {
    var t := s.(requeuedSinceStored := false);
    if Active(s.row) then t.(row := Some(WithCues(s.row.value, s.cues, now))) else t
  }

  function StopOr(s: System, outcome: Outcome, next: System): System {
    if IsCanceled(s.row) || outcome.ReadFails? then s.(pc := Idle) else next
  }

  const NO_SPEECH := "no speech was found in this file"
  const NO_LINE :=
    "the transcript was created, but no line could be translated \U{2014} check that the local gateway is running"

  /** One step of `run_job`, and of the loop around it. */
  function WorkerStep(s: System, outcome: Outcome, now: int): System {
    if outcome.Breaks? && !s.pc.Idle? && !s.pc.Failing? && !s.pc.Publishing? then
      s.(pc := Failing(outcome.message))
    else match s.pc
      case Idle => s
      case Begin => Move(s, Transcribing, now, Reading)
      case Reading => ProgressTo(s, 0.0, "Reading the video", None, now).(pc := Validating)
      case Validating => s.(pc := Listening)
      case Listening =>
        (match outcome
         case Heard(cues) => StopOr(s, outcome, s.(cues := s.cues + cues))
         case SilentEnd =>
           var all := Normalized(s.cues);
           StopOr(s, outcome, if all == [] then s.(pc := Failing(NO_SPEECH)) else s.(cues := all, pc := StoringCues))
         case ReadFails => s.(pc := Idle)
         case _ => s)
      case StoringCues => StoreCues(s, now).(pc := if outcome.NeedsTranslation? then MarkingTranslating else Writing)
      case MarkingTranslating => Move(s, Translating, now, TranslatingCues)
      case TranslatingCues =>
        (match outcome
         case Translation(cues, count) =>
           if |cues| == |s.cues| then StopOr(s, outcome, s.(cues := cues, pc := StoringTranslation(count))) else s
         case TranslationStopped => s.(pc := Idle)
         case _ => s)
      case StoringTranslation(count) =>
        StoreCues(s, now).(pc := if count == 0 then Failing(NO_LINE) else Writing)
      case Writing => ProgressTo(s, 0.98, "Writing the subtitle file", None, now).(pc := LastCheck)
      case LastCheck => StopOr(s, outcome, s.(pc := Completing))
      case Completing =>
        if Active(s.row) then
          s.(row := Some(WithCompletion(s.row.value, now)), pc := Publishing, wins := s.wins + 1, completions := s.completions + 1,
            wonRun := true)
        else s.(pc := Idle)
      case Publishing =>
        (match outcome
         case WroteBeside(path) => s.(pc := SettingPath(Some(path)), published := s.published + 1)
         case _ => s.(pc := SettingPath(None)))
      case SettingPath(path) =>
        s.(pc := Idle, row := if s.row.Some? then Some(s.row.value.(outputPath := path, updatedAt := now)) else None)
      case Failing(message) =>
        if outcome.Breaks? then s.(pc := Idle)
        else if Active(s.row) then
          s.(row := Some(WithStatus(s.row.value, Failed, Some(message), now)), pc := Idle, wins := s.wins + 1)
        else s.(pc := Idle)
  }

  function Step(s: System, action: Action, now: int): System {
    match action
    case Pick =>
      if s.pc.Idle? && s.row.Some? && s.row.value.status == Queued then
        s.(pc := Begin, cues := [], requeuedSinceStored := false, wonRun := false)
      else s
    case Work(outcome) => WorkerStep(s, outcome, now)
    case ReportProgress(progress, stage, durationMs) => ProgressTo(s, progress, stage, durationMs, now)
    case StartRetry => if s.row.Some? && s.row.value.status.Terminal() then s.(retries := s.retries + 1) else s
    case FinishRetry =>
      if s.retries == 0 then s
      else s.(retries := s.retries - 1, wins := 0, requeuedSinceStored := true,
              row := if s.row.Some? then Some(Requeued(s.row.value, now)) else None)
    case StartCancel => if Active(s.row) then s.(cancels := s.cancels + 1) else s
    case FinishCancel =>
      if s.cancels == 0 then s
      else if Active(s.row) then
        s.(cancels := s.cancels - 1, wins := s.wins + 1, row := Some(WithStatus(s.row.value, Canceled, Some("Cancelled."), now)))
      else s.(cancels := s.cancels - 1)
    case Delete => s.(row := None)
    case Render(format, layout) =>
      s.(row := if s.row.Some? then Some(s.row.value.(format := format, layout := layout, updatedAt := now)) else None)
    case Restart(writable) =>
      s.(pc := Idle, retries := 0, cancels := 0, row := if s.row.Some? then Some(AfterRestart(s.row.value, writable, now)) else None)
  }

  // ── What the steps leave in the row ─────────────────────────────────────────

  /** The rows differ in nothing but how the job ended. */
  ghost predicate SameJob(row: Row, row': Row) {
    && row'.cues == row.cues && row'.cueCount == row.cueCount && row'.translatedCount == row.translatedCount
    && row'.durationMs == row.durationMs && row'.format == row.format && row'.layout == row.layout
    && row'.outputPath == row.outputPath
  }

  /**
   What a user sees of each way a job ends or starts again: a failure says why, a completion and a
   cancellation say so, each with the time unless the job was stamped before and with its cues as they
   were; a requeued job has nothing left of its run.
   */
  lemma EndingsShow(s: System, action: Action, now: int)
    requires Active(s.row)
    ensures var row, s' := s.row.value, Step(s, action, now);
      && (action == Work(Fine) && s.pc.Failing? ==>
            && s'.row.Some? && s'.row.value.status == Failed && s'.row.value.error == Some(s.pc.message)
            && SameJob(row, s'.row.value) && s'.row.value.progress == row.progress && s'.pc == Idle)
      && (action == Work(Fine) && s.pc == Completing ==>
            && s'.row.Some? && s'.row.value.status == Completed && s'.row.value.error == None && s'.row.value.progress == 1.0
            && s'.row.value.stage == "Done" && SameJob(row, s'.row.value) && s'.pc == Publishing)
      && (action == FinishCancel && s.cancels > 0 ==>
            && s'.row.Some? && s'.row.value.status == Canceled && s'.row.value.error == Some("Cancelled.")
            && SameJob(row, s'.row.value) && s'.pc == s.pc)
      && ((action == Work(Fine) && (s.pc.Failing? || s.pc == Completing)) || (action == FinishCancel && s.cancels > 0) ==>
            s'.row.Some? && s'.row.value.completedAt == if row.completedAt.Some? then row.completedAt else Some(now))
  {}

  lemma RequeueClears(s: System, now: int)
    requires s.retries > 0 && s.row.Some?
    ensures var row, row' := s.row.value, Step(s, FinishRetry, now).row;
      && row'.Some? && row'.value.status == Queued && row'.value.cues == [] && row'.value.cueCount == 0
      && row'.value.translatedCount == 0 && row'.value.error == None && row'.value.completedAt == None
      && row'.value.progress == 0.0 && row'.value.stage == "Queued"
      && row'.value.format == row.format && row'.value.layout == row.layout && row'.value.durationMs == row.durationMs
      && row'.value.outputPath == row.outputPath
  {}

  /** When a run fails on its own: on a file without speech, and when no line came back translated, with its cues stored. */
  lemma RunsFail(s: System, now: int)
    requires Active(s.row)
    ensures s.pc == Listening && (forall c :: c in s.cues ==> IsBlank(c)) ==>
      Step(s, Work(SilentEnd), now).pc == Failing("no speech was found in this file")
    ensures s.pc == StoringTranslation(0) ==>
      var s' := Step(s, Work(Fine), now);
      s'.pc == Failing(NO_LINE) && s'.row.Some? && s'.row.value.cues == s.cues
    ensures s.pc.StoringTranslation? && s.pc.count > 0 ==> Step(s, Work(Fine), now).pc == Writing
  {
    hide IsBlank;
    if forall c :: c in s.cues ==> IsBlank(c) { NothingRetained(s.cues); }
  }

  lemma {:induction false} NothingRetained(cues: seq<Cue>)
    requires forall c :: c in cues ==> IsBlank(c)
    ensures Retained(cues) == []
  {
    hide IsBlank;
    if cues != [] { NothingRetained(cues[..|cues| - 1]); }
  }

  /** Progress stays between none and all, changes nothing else of a running job, and keeps a duration once known. */
  lemma ProgressShows(s: System, progress: real, stage: string, durationMs: Option<nat>, now: int)
    requires Active(s.row)
    ensures var row, row' := s.row.value, Step(s, ReportProgress(progress, stage, durationMs), now).row;
      && row'.Some? && 0.0 <= row'.value.progress <= 1.0 && (0.0 <= progress <= 1.0 ==> row'.value.progress == progress)
      && row'.value.stage == stage && row'.value.status == row.status && row'.value.error == row.error
      && row'.value.cues == row.cues && row'.value.completedAt == row.completedAt
      && (durationMs.Some? ==> row'.value.durationMs == durationMs) && (durationMs.None? ==> row'.value.durationMs == row.durationMs)
  {}

  // ── The steps as calls of the store ─────────────────────────────────────────

  /** An attempt to end a job. */
  datatype Ending = ByCancel(reason: string) | ByCompletion | ByFailure(error: string)

  function Ended(row: Row, ending: Ending, now: int): Row {
    match ending
    case ByCancel(reason) => WithStatus(row, Canceled, Some(reason), now)
    case ByCompletion => WithCompletion(row, now)
    case ByFailure(error) => WithStatus(row, Failed, Some(error), now)
  }

  /** Of any attempts to end a job, whoever makes them, the first wins if the job is active, and no other does. */
  method TryToEnd(store: SubtitleStore, endings: seq<Ending>, now: int) returns (won: seq<bool>)
    modifies store
    ensures |won| == |endings|
    ensures forall i :: 0 <= i < |won| ==> (won[i] <==> i == 0 && Active(old(store.row)))
    ensures store.row ==
      if endings != [] && Active(old(store.row)) then Some(Ended(old(store.row).value, endings[0], now)) else old(store.row)
  {
    won := [];
    for n := 0 to |endings|
      invariant |won| == n
      invariant forall i :: 0 <= i < n ==> (won[i] <==> i == 0 && Active(old(store.row)))
      invariant store.row ==
        if n > 0 && Active(old(store.row)) then Some(Ended(old(store.row).value, endings[0], now)) else old(store.row)
    {
      var w;
      match endings[n] {
        case ByCancel(reason) => w := store.CancelIfActive(reason, now);
        case ByCompletion => w := store.CompleteIfActive(now);
        case ByFailure(error) => w := store.SetStatusIfActive(Failed, Some(error), now);
      }
      won := won + [w];
    }
  }

  /** The worker and the handlers over one store: what each step does is a call of the store's methods. */
  class Sidecar {
    const store: SubtitleStore
    var pc: Pc
    var cues: seq<Cue>
    var retries: nat
    var cancels: nat
    ghost var wins: nat
    ghost var completions: nat
    ghost var published: nat
    ghost var requeuedSinceStored: bool
    ghost var wonRun: bool

    ghost function View(): System reads this, store {
      System(store.row, pc, cues, retries, cancels, wins, completions, published, requeuedSinceStored, wonRun)
    }

    constructor (store: SubtitleStore)
      ensures this.store == store && View() == System(store.row, Idle, [], 0, 0, 0, 0, 0, false, false)
    {
      this.store := store;
      pc, cues, retries, cancels := Idle, [], 0, 0;
      wins, completions, published, requeuedSinceStored, wonRun := 0, 0, 0, false, false;
    }

    method StopOr(outcome: Outcome, next: Pc)
      modifies this`pc
      ensures pc == if IsCanceled(store.row) || outcome.ReadFails? then Idle else next
    {
      pc := if IsCanceled(store.row) || outcome.ReadFails? then Idle else next;
    }

    /** The steps of a run up to its transcript. */
    method Transcribe(outcome: Outcome, now: int)
      requires pc.Begin? || pc.Reading? || pc.Validating? || pc.Listening? || pc.StoringCues?
      requires !outcome.Breaks?
      modifies this, store
      ensures View() == WorkerStep(old(View()), outcome, now)
    {
      hide WithStatus, WithCompletion, WithProgress, WithCues, Clamped, Coalesce, Normalized, TranslatedIn;
      match pc {
        case Begin =>
          var moved := store.SetStatusIfActive(Transcribing, None, now);
          pc := if moved then Reading else Idle;
        case Reading =>
          store.SetProgress(0.0, "Reading the video", None, now);
          pc := Validating;
        case Validating =>
          pc := Listening;
        case Listening =>
          match outcome {
            case Heard(heard) =>
              StopOr(outcome, Listening);
              if pc == Listening { cues := cues + heard; }
            case SilentEnd =>
              var all := Normalize(cues);
              StopOr(outcome, if all == [] then Failing(NO_SPEECH) else StoringCues);
              if pc == StoringCues { cues := all; }
            case ReadFails =>
              pc := Idle;
            case _ =>
          }
        case StoringCues =>
          store.SetCues(cues, now);
          requeuedSinceStored := false;
          pc := if outcome.NeedsTranslation? then MarkingTranslating else Writing;
      }
    }

    /** The steps of a run over its translation. */
    method TranslateAll(outcome: Outcome, now: int)
      requires pc.MarkingTranslating? || pc.TranslatingCues? || pc.StoringTranslation?
      requires !outcome.Breaks?
      modifies this, store
      ensures View() == WorkerStep(old(View()), outcome, now)
    {
      hide WithStatus, WithCompletion, WithProgress, WithCues, Clamped, Coalesce, Normalized, TranslatedIn;
      match pc {
        case MarkingTranslating =>
          var moved := store.SetStatusIfActive(Translating, None, now);
          pc := if moved then TranslatingCues else Idle;
        case TranslatingCues =>
          match outcome {
            case Translation(translated, count) =>
              if |translated| == |cues| {
                StopOr(outcome, StoringTranslation(count));
                if pc.StoringTranslation? { cues := translated; }
              }
            case TranslationStopped =>
              pc := Idle;
            case _ =>
          }
        case StoringTranslation(count) =>
          store.SetCues(cues, now);
          requeuedSinceStored := false;
          pc := if count == 0 then Failing(NO_LINE) else Writing;
      }
    }

    /** The steps up to the completion of a run. */
    method Complete(outcome: Outcome, now: int)
      requires pc.Writing? || pc.LastCheck? || pc.Completing?
      requires !outcome.Breaks?
      modifies this, store
      ensures View() == WorkerStep(old(View()), outcome, now)
    {
      hide WithStatus, WithCompletion, WithProgress, WithCues, Clamped, Coalesce, Normalized, TranslatedIn;
      match pc {
        case Writing =>
          store.SetProgress(0.98, "Writing the subtitle file", None, now);
          pc := LastCheck;
        case LastCheck =>
          StopOr(outcome, Completing);
        case Completing =>
          var won := store.CompleteIfActive(now);
          pc := if won then Publishing else Idle;
          if won { wins, completions, wonRun := wins + 1, completions + 1, true; }
      }
    }

    /** The steps after it, or after a failure. */
    method Finish(outcome: Outcome, now: int)
      requires pc.Publishing? || pc.SettingPath? || pc.Failing?
      requires outcome.Breaks? ==> pc.Publishing? || pc.Failing?
      modifies this, store
      ensures View() == WorkerStep(old(View()), outcome, now)
    {
      hide WithStatus, WithCompletion, WithProgress, WithCues, Clamped, Coalesce, Normalized, TranslatedIn;
      match pc {
        case Publishing =>
          match outcome {
            case WroteBeside(path) =>
              pc := SettingPath(Some(path));
              published := published + 1;
            case _ =>
              pc := SettingPath(None);
          }
        case SettingPath(path) =>
          store.SetOutputPath(path, now);
          pc := Idle;
        case Failing(message) =>
          if !outcome.Breaks? {
            var failed := store.SetStatusIfActive(Failed, Some(message), now);
            if failed { wins := wins + 1; }
          }
          pc := Idle;
      }
    }

    /** The worker's next step. */
    method Work(outcome: Outcome, now: int)
      modifies this, store
      ensures View() == WorkerStep(old(View()), outcome, now)
    {
      if outcome.Breaks? && !pc.Idle? && !pc.Failing? && !pc.Publishing? {
        pc := Failing(outcome.message);
        return;
      }
      hide WithStatus, WithCompletion, WithProgress, WithCues;
      match pc {
        case Idle =>
        case Begin | Reading | Validating | Listening | StoringCues => Transcribe(outcome, now);
        case MarkingTranslating | TranslatingCues | StoringTranslation(_) => TranslateAll(outcome, now);
        case Writing | LastCheck | Completing => Complete(outcome, now);
        case Publishing | SettingPath(_) | Failing(_) => Finish(outcome, now);
      }
    }

    /** A retry or a cancellation, between its look at the job and its write; the other requests are one step. */
    method Handle(action: Action, now: int)
      requires !action.Pick? && !action.Work?
      modifies this, store
      ensures View() == Step(old(View()), action, now)
    {
      match action {
        case ReportProgress(progress, stage, durationMs) =>
          store.SetProgress(progress, stage, durationMs, now);
        case StartRetry =>
          if store.row.Some? && store.row.value.status.Terminal() { retries := retries + 1; }
        case FinishRetry =>
          if retries > 0 {
            store.Requeue(now);
            retries := retries - 1;
            wins, requeuedSinceStored := 0, true;
          }
        case StartCancel =>
          if Active(store.row) { cancels := cancels + 1; }
        case FinishCancel =>
          if cancels > 0 {
            var won := store.CancelIfActive("Cancelled.", now);
            cancels := cancels - 1;
            if won { wins := wins + 1; }
          }
        case Delete =>
          var _ := store.DeleteJob();
        case Render(format, layout) =>
          store.SetRenderOptions(format, layout, now);
        case Restart(writable) =>
          store.ResetInterrupted(writable, now);
          pc, retries, cancels := Idle, 0, 0;
      }
    }

    /** Any history of the job, step by step through the store. */
    method Run(events: seq<Event>)
      modifies this, store
      ensures View() == Execute(old(View()), events)
    {
      hide Step, WorkerStep;
      ExecuteNothing(View());
      for n := 0 to |events|
        invariant View() == Execute(old(View()), events[..n])
      {
        ghost var s := View();
        match events[n].action {
          case Pick => Pick();
          case Work(outcome) => Work(outcome, events[n].now); WorkIs(s, outcome, events[n].now);
          case _ => Handle(events[n].action, events[n].now);
        }
        PickIs(s, events[n].now);
        assert events[..n + 1][..n] == events[..n];
      }
      assert events[..|events|] == events;
    }

    method Pick()
      modifies this
      ensures View() == Step(old(View()), Action.Pick, 0)
    {
      if pc.Idle? && store.row.Some? && store.row.value.status == Queued {
        pc, cues := Begin, [];
        requeuedSinceStored, wonRun := false, false;
      }
    }
  }

  lemma WorkIs(s: System, outcome: Outcome, now: int)
    ensures Step(s, Work(outcome), now) == WorkerStep(s, outcome, now)
  {}

  lemma PickIs(s: System, now: int)
    ensures Step(s, Pick, now) == Step(s, Pick, 0)
  {}

  // ── What every interleaving keeps ───────────────────────────────────────────

  /** The run's cues are stored at this point, unless the job was requeued since. */
  predicate CuesStored(pc: Pc) {
    pc.MarkingTranslating? || pc.TranslatingCues? || pc.Writing? || pc.LastCheck? || pc.Completing?
  }

  predicate HoldsCues(pc: Pc) {
    pc.StoringCues? || pc.StoringTranslation? || CuesStored(pc)
  }

  ghost predicate Invariant(s: System) {
    (s.row.Some? ==> Consistent(s.row.value)) && RunInvariant(s)
  }

  /** Every update leaves a consistent row consistent. */
  lemma UpdatesKeepRow(row: Row, status: Status, error: Option<string>, p: real, stage: string, d: Option<nat>, cues: seq<Cue>,
                       path: Option<string>, format: Format, layout: Layout, now: int)
    requires Consistent(row)
    ensures !row.status.Terminal() ==> Consistent(WithStatus(row, status, error, now)) && Consistent(WithCompletion(row, now))
    ensures Consistent(WithProgress(row, p, stage, d, now)) && Consistent(WithCues(row, cues, now))
    ensures Consistent(Requeued(row, now)) && forall w :: Consistent(AfterRestart(row, w, now))
    ensures Consistent(row.(outputPath := path, updatedAt := now))
    ensures Consistent(row.(format := format, layout := layout, updatedAt := now))
  {
    hide TranslatedIn;
    NoneTranslated();
  }

  lemma WorkerRowKeeps(s: System, outcome: Outcome, now: int)
    requires s.row.Some? ==> Consistent(s.row.value)
    ensures var t := WorkerStep(s, outcome, now); t.row.Some? ==> Consistent(t.row.value)
  {
    hide Consistent, WithStatus, WithCompletion, WithProgress, WithCues, Normalized, Clamped, Coalesce;
    if s.row.Some? {
      var row := s.row.value;
      var path := if s.pc.SettingPath? then s.pc.path else None;
      UpdatesKeepRow(row, Transcribing, None, 0.0, "Reading the video", None, s.cues, path, Srt, TranslatedOnly, now);
      UpdatesKeepRow(row, Translating, None, 0.98, "Writing the subtitle file", None, s.cues, path, Srt, TranslatedOnly, now);
      if s.pc.Failing? {
        UpdatesKeepRow(row, Failed, Some(s.pc.message), 0.98, "", None, s.cues, path, Srt, TranslatedOnly, now);
      }
    }
  }

  lemma HandlerRowKeeps(s: System, action: Action, now: int)
    requires (s.row.Some? ==> Consistent(s.row.value)) && !action.Work?
    ensures var t := Step(s, action, now); t.row.Some? ==> Consistent(t.row.value)
  {
    hide Consistent, WithStatus, WithProgress, Requeued, AfterRestart, Clamped, Coalesce;
    if s.row.Some? {
      var format, layout := if action.Render? then action.format else Srt, if action.Render? then action.layout else TranslatedOnly;
      var p, stage, d := if action.ReportProgress? then action.progress else 0.0,
        if action.ReportProgress? then action.stage else "", if action.ReportProgress? then action.durationMs else None;
      UpdatesKeepRow(s.row.value, Canceled, Some("Cancelled."), p, stage, d, [], None, format, layout, now);
    }
  }

  /** The invariant but for the row itself. */
  ghost predicate RunInvariant(s: System) {
    && s.wins <= 1 && (s.wins == 1 ==> !Active(s.row))
    && s.published + (if s.pc.Publishing? then 1 else 0) <= s.completions
    && (s.pc.Publishing? || s.pc.SettingPath? ==> s.wonRun)
    && (HoldsCues(s.pc) ==> s.cues != [])
    && (CuesStored(s.pc) && Active(s.row) ==> s.row.value.cues == if s.requeuedSinceStored then [] else s.cues)
  }

  lemma ListeningKeeps(s: System, outcome: Outcome, now: int)
    requires RunInvariant(s) && (s.pc.Listening? || s.pc.TranslatingCues? || s.pc.LastCheck?)
    ensures RunInvariant(WorkerStep(s, outcome, now))
  {
    hide Normalized, Clamped, Coalesce, TranslatedIn, WithStatus, WithCompletion, WithProgress, WithCues;
  }

  lemma StoringKeeps(s: System, outcome: Outcome, now: int)
    requires RunInvariant(s) && (s.pc.StoringCues? || s.pc.StoringTranslation? || s.pc.MarkingTranslating? || s.pc.Writing?)
    ensures RunInvariant(WorkerStep(s, outcome, now))
  {
    hide Normalized, Clamped, Coalesce, TranslatedIn;
  }

  lemma EndingKeeps(s: System, outcome: Outcome, now: int)
    requires RunInvariant(s) && (s.pc.Completing? || s.pc.Publishing? || s.pc.SettingPath? || s.pc.Failing?)
    ensures RunInvariant(WorkerStep(s, outcome, now))
  {
    hide Normalized, Clamped, Coalesce, TranslatedIn;
  }

  lemma BeginningKeeps(s: System, outcome: Outcome, now: int)
    requires RunInvariant(s) && (s.pc.Idle? || s.pc.Begin? || s.pc.Reading? || s.pc.Validating?)
    ensures RunInvariant(WorkerStep(s, outcome, now))
  {
    hide Normalized, Clamped, Coalesce, TranslatedIn;
  }

  lemma WorkerRunKeeps(s: System, outcome: Outcome, now: int)
    requires RunInvariant(s)
    ensures RunInvariant(WorkerStep(s, outcome, now))
  {
    hide *;
    match s.pc {
      case Idle | Begin | Reading | Validating => BeginningKeeps(s, outcome, now);
      case Listening | TranslatingCues | LastCheck => ListeningKeeps(s, outcome, now);
      case StoringCues | StoringTranslation(_) | MarkingTranslating | Writing => StoringKeeps(s, outcome, now);
      case Completing | Publishing | SettingPath(_) | Failing(_) => EndingKeeps(s, outcome, now);
    }
  }

  lemma HandlerRunKeeps(s: System, action: Action, now: int)
    requires RunInvariant(s) && !action.Work?
    ensures RunInvariant(Step(s, action, now))
  {
    hide Normalized, Clamped, Coalesce, TranslatedIn;
  }

  lemma StepKeeps(s: System, action: Action, now: int)
    requires Invariant(s)
    ensures Invariant(Step(s, action, now))
  {
    hide Consistent, RunInvariant, WorkerStep;
    if action.Work? {
      WorkerRowKeeps(s, action.outcome, now);
      WorkerRunKeeps(s, action.outcome, now);
    } else {
      HandlerRowKeeps(s, action, now);
      HandlerRunKeeps(s, action, now);
    }
  }

  lemma NoneTranslated()
    ensures TranslatedIn([]) == 0
  {}

  /** A finished job's outcome, which no later step but a requeue or a deletion changes. */
  ghost predicate SameOutcome(a: Row, b: Row) {
    && b.status == a.status && b.error == a.error && b.stage == a.stage && b.progress == a.progress
    && b.cues == a.cues && b.cueCount == a.cueCount && b.translatedCount == a.translatedCount
    && b.completedAt == a.completedAt && b.durationMs == a.durationMs
  }

  predicate Reopens(action: Action) {
    action == FinishRetry || action == Delete
  }

  /** The guarded updates leave a finished job's row alone. */
  lemma TerminalUpdates(s: System, now: int)
    requires s.row.Some? && s.row.value.status.Terminal()
    ensures forall status, next :: Move(s, status, now, next) == s.(pc := Idle)
    ensures forall p, stage, d :: ProgressTo(s, p, stage, d, now) == s
    ensures StoreCues(s, now) == s.(requeuedSinceStored := false)
    ensures forall path: Option<string> :: SameOutcome(s.row.value, s.row.value.(outputPath := path, updatedAt := now))
    ensures SameOutcome(s.row.value, s.row.value)
  {}

  /** The job stays as it finished, and nobody else ends it. */
  ghost predicate OutcomeKept(s: System, t: System) {
    s.row.Some? && t.row.Some? && SameOutcome(s.row.value, t.row.value) && t.wins == s.wins && t.completions == s.completions
  }

  lemma TerminalEarly(s: System, outcome: Outcome, now: int)
    requires s.row.Some? && s.row.value.status.Terminal()
    requires s.pc.Idle? || s.pc.Begin? || s.pc.Reading? || s.pc.Validating? || s.pc.Listening? || s.pc.StoringCues?
    ensures OutcomeKept(s, WorkerStep(s, outcome, now))
  {
    TerminalUpdates(s, now);
    hide TranslatedIn, Normalized, WithStatus, WithCompletion, WithProgress, WithCues, Move, ProgressTo, StoreCues, SameOutcome;
  }

  lemma TerminalMidway(s: System, outcome: Outcome, now: int)
    requires s.row.Some? && s.row.value.status.Terminal()
    requires s.pc.MarkingTranslating? || s.pc.TranslatingCues? || s.pc.StoringTranslation? || s.pc.Writing? || s.pc.LastCheck?
    ensures OutcomeKept(s, WorkerStep(s, outcome, now))
  {
    TerminalUpdates(s, now);
    hide TranslatedIn, Normalized, WithStatus, WithCompletion, WithProgress, WithCues, Move, ProgressTo, StoreCues, SameOutcome;
  }

  lemma TerminalLate(s: System, outcome: Outcome, now: int)
    requires s.row.Some? && s.row.value.status.Terminal()
    requires s.pc.Completing? || s.pc.Publishing? || s.pc.SettingPath? || s.pc.Failing?
    ensures OutcomeKept(s, WorkerStep(s, outcome, now))
  {
    TerminalUpdates(s, now);
    hide TranslatedIn, Normalized, WithStatus, WithCompletion, WithProgress, WithCues, Move, ProgressTo, StoreCues, SameOutcome;
  }

  lemma TerminalWorkerStep(s: System, outcome: Outcome, now: int)
    requires s.row.Some? && s.row.value.status.Terminal()
    ensures OutcomeKept(s, WorkerStep(s, outcome, now))
  {
    hide *;
    match s.pc {
      case Idle | Begin | Reading | Validating | Listening | StoringCues => TerminalEarly(s, outcome, now);
      case MarkingTranslating | TranslatingCues | StoringTranslation(_) | Writing | LastCheck => TerminalMidway(s, outcome, now);
      case Completing | Publishing | SettingPath(_) | Failing(_) => TerminalLate(s, outcome, now);
    }
  }

  lemma TerminalStep(s: System, action: Action, now: int)
    requires s.row.Some? && s.row.value.status.Terminal() && !Reopens(action)
    ensures OutcomeKept(s, Step(s, action, now))
  {
    hide WorkerStep, TranslatedIn, Normalized, Clamped, Coalesce, WithStatus, WithCompletion, WithProgress, WithCues, Requeued;
    if action.Work? { TerminalWorkerStep(s, action.outcome, now); }
  }

  datatype Event = Event(action: Action, now: int)

  function Execute(s: System, events: seq<Event>): System {
    if events == [] then s
    else
      var last := events[|events| - 1];
      Step(Execute(s, events[..|events| - 1]), last.action, last.now)
  }

  /** Every state that any interleaving reaches satisfies the invariant. */
  lemma {:induction false} AlwaysInvariant(s: System, events: seq<Event>)
    requires Invariant(s)
    ensures Invariant(Execute(s, events))
  {
    hide Invariant, Step;
    if events != [] {
      AlwaysInvariant(s, events[..|events| - 1]);
      StepKeeps(Execute(s, events[..|events| - 1]), events[|events| - 1].action, events[|events| - 1].now);
    }
  }

  /** A finished job stays exactly as it finished, whatever the worker and the handlers do, until it is requeued or deleted. */
  lemma {:induction false} TerminalIsFrozen(s: System, events: seq<Event>)
    requires s.row.Some? && s.row.value.status.Terminal()
    requires forall i :: 0 <= i < |events| ==> !Reopens(events[i].action)
    ensures OutcomeKept(s, Execute(s, events))
  {
    hide Step;
    if events != [] {
      TerminalIsFrozen(s, events[..|events| - 1]);
      TerminalStep(Execute(s, events[..|events| - 1]), events[|events| - 1].action, events[|events| - 1].now);
    }
  }

  /** A job as it is created. */
  predicate Fresh(s: System) {
    && s.row.Some? && s.row.value.status == Queued && Consistent(s.row.value)
    && s.pc == Idle && s.retries == 0 && s.cancels == 0 && s.wins == 0 && s.completions == 0 && s.published == 0
  }

  /**
   Whatever happens to a job from its creation on: one attempt at most ends it between two requeues,
   its counts are right, an active job has no stamp, and a step that writes the file beside the video
   is one of a run whose completion won.
   */
  lemma JobLife(s: System, events: seq<Event>, action: Action, now: int)
    requires Fresh(s)
    ensures var t := Execute(s, events);
      && t.wins <= 1
      && (t.row.Some? ==> Consistent(t.row.value))
      && (Step(t, action, now).published != t.published ==>
            t.wonRun && Step(t, action, now).published == t.published + 1 <= t.completions)
  {
    hide Execute, Consistent, Normalized, Clamped, Coalesce, TranslatedIn, WithStatus, WithCompletion, WithProgress, WithCues;
    FreshHolds(s);
    AlwaysInvariant(s, events);
  }

  /** The worker got where it writes the file by winning the completion, and has been there since. */
  lemma {:induction false} PublishingSince(s: System, events: seq<Event>) returns (win: nat)
    requires Fresh(s) && Execute(s, events).pc == Publishing
    ensures win < |events| && WinsAt(s, events, win)
    ensures forall m :: win < m <= |events| ==> Execute(s, events[..m]).pc == Publishing
  {
    hide Step;
    var n := |events| - 1;
    ExecuteNothing(s);
    var last := events[n];
    OnlyAWinPublishes(Execute(s, events[..n]), last.action, last.now);
    assert events[..|events|] == events;
    if Execute(s, events[..n]).pc == Publishing {
      win := PublishingSince(s, events[..n]);
      forall m | win < m <= n ensures Execute(s, events[..m]).pc == Publishing {
        assert events[..n][..m] == events[..m];
      }
      assert events[..n][..win] == events[..win] && events[..n][..win + 1] == events[..win + 1];
    } else {
      win := n;
    }
  }

  /** The step at position `at` completed the job. */
  ghost predicate WinsAt(s: System, events: seq<Event>, at: nat)
    requires at < |events|
  {
    Execute(s, events[..at + 1]).completions == Execute(s, events[..at]).completions + 1
  }

  lemma OnlyAWinPublishes(s: System, action: Action, now: int)
    requires Step(s, action, now).pc == Publishing
    ensures s.pc == Publishing || Step(s, action, now).completions == s.completions + 1
  {
    hide Normalized, Clamped, Coalesce, TranslatedIn, WithStatus, WithCompletion, WithProgress, WithCues, Requeued;
  }

  /**
   Before every step that writes the file beside the video, the very run that writes it won the
   completion: the worker has stood where it writes ever since that win.
   */
  lemma WritesAfterItsWin(s: System, events: seq<Event>) returns (win: nat)
    requires Fresh(s) && events != []
    requires Execute(s, events).published > Execute(s, events[..|events| - 1]).published
    ensures win < |events| - 1 && WinsAt(s, events, win)
    ensures forall m :: win < m < |events| ==> Execute(s, events[..m]).pc == Publishing
  {
    hide Step;
    var n := |events| - 1;
    OnlyPublishingWrites(Execute(s, events[..n]), events[n].action, events[n].now);
    win := PublishingSince(s, events[..n]);
    forall m | win < m <= n ensures Execute(s, events[..m]).pc == Publishing {
      assert events[..n][..m] == events[..m];
    }
    assert events[..n][..win] == events[..win] && events[..n][..win + 1] == events[..win + 1];
  }

  lemma OnlyPublishingWrites(s: System, action: Action, now: int)
    ensures Step(s, action, now).published > s.published ==> s.pc == Publishing
  {
    hide Normalized, Clamped, Coalesce, TranslatedIn, WithStatus, WithCompletion, WithProgress, WithCues, Requeued;
  }

  lemma FreshHolds(s: System)
    requires Fresh(s)
    ensures Invariant(s)
  {}

  /**
   In every history of a job, a run that completes it leaves it with the cues it made, which are not
   empty, if and only if nobody requeued the job since the run stored them; otherwise it has none.
   */
  lemma CompletedRunHasItsCues(s: System, events: seq<Event>, outcome: Outcome, now: int)
    requires Fresh(s)
    requires var t := Execute(s, events); t.pc == Completing && Active(t.row) && !outcome.Breaks?
    ensures var t := Execute(s, events);
      var done := Step(t, Work(outcome), now).row.value;
      && done.status == Completed && t.cues != []
      && done.cues == (if t.requeuedSinceStored then [] else t.cues)
      && (done.cueCount > 0 <==> !t.requeuedSinceStored)
  {
    hide Execute;
    FreshHolds(s);
    AlwaysInvariant(s, events);
  }

  // ── A requeue during a run ──────────────────────────────────────────────────

  lemma ExecuteNext(s: System, events: seq<Event>, action: Action)
    ensures Execute(s, events + [Event(action, 0)]) == Step(Execute(s, events), action, 0)
  {
    hide Step;
    assert (events + [Event(action, 0)])[..|events|] == events;
  }

  /** A run up to where its cues are stored. */
  lemma CuesGetStored(s: System, heard: seq<Cue>) returns (events: seq<Event>)
    requires Fresh(s) && Normalized(heard) != []
    ensures var t := Execute(s, events);
      t.pc == Writing && t.cues == Normalized(heard) && Active(t.row) && t.row.value.cues == t.cues
      && t.retries == 0 && t.cancels == 0 && t.wins == 0
  {
    hide Execute, Normalized, TranslatedIn;
    events := [];
    ExecuteNothing(s);
    ExecuteNext(s, events, Pick);
    events := events + [Event(Pick, 0)];
    ExecuteNext(s, events, Work(Fine));
    events := events + [Event(Work(Fine), 0)];
    ExecuteNext(s, events, Work(Fine));
    events := events + [Event(Work(Fine), 0)];
    ExecuteNext(s, events, Work(Fine));
    events := events + [Event(Work(Fine), 0)];
    ExecuteNext(s, events, Work(Heard(heard)));
    events := events + [Event(Work(Heard(heard)), 0)];
    assert [] + heard == heard;
    ExecuteNext(s, events, Work(SilentEnd));
    events := events + [Event(Work(SilentEnd), 0)];
    ExecuteNext(s, events, Work(Fine));
    events := events + [Event(Work(Fine), 0)];
  }

  lemma ExecuteNothing(s: System)
    ensures Execute(s, []) == s
  {}

  lemma CancelledAndRetried(s: System, before: seq<Event>) returns (events: seq<Event>)
    requires var t := Execute(s, before); t.pc == Writing && Active(t.row) && t.retries == 0 && t.cancels == 0
    ensures var t, u := Execute(s, before), Execute(s, events);
      u.pc == Writing && u.cues == t.cues && u.row.Some? && u.row.value.status == Queued && u.row.value.cues == []
  {
    hide Execute, Normalized, TranslatedIn, Coalesce;
    events := before;
    ExecuteNext(s, events, StartCancel);
    events := events + [Event(StartCancel, 0)];
    ExecuteNext(s, events, FinishCancel);
    events := events + [Event(FinishCancel, 0)];
    ExecuteNext(s, events, StartRetry);
    events := events + [Event(StartRetry, 0)];
    ExecuteNext(s, events, FinishRetry);
    events := events + [Event(FinishRetry, 0)];
  }

  lemma WrittenOut(s: System, before: seq<Event>) returns (events: seq<Event>)
    requires var t := Execute(s, before); t.pc == Writing && Active(t.row)
    ensures var t, u := Execute(s, before), Execute(s, events);
      u.row.Some? && u.row.value.status == Completed && u.row.value.cues == t.row.value.cues && u.cues == t.cues
  {
    hide Execute, Normalized, TranslatedIn, Coalesce;
    events := before;
    ExecuteNext(s, events, Work(Fine));
    events := events + [Event(Work(Fine), 0)];
    ExecuteNext(s, events, Work(Fine));
    events := events + [Event(Work(Fine), 0)];
    ExecuteNext(s, events, Work(Fine));
    events := events + [Event(Work(Fine), 0)];
  }

  /**
   A job that is cancelled and retried while its run is about to write: the run is not told, and
   completes the requeued job, whose cues are gone.
   */
  lemma RetryUnderRunLosesCues(s: System, heard: seq<Cue>) returns (events: seq<Event>)
    requires Fresh(s) && Normalized(heard) != []
    ensures var t := Execute(s, events);
      t.row.Some? && t.row.value.status == Completed && t.row.value.cues == [] && t.cues != []
  {
    hide Execute, Normalized;
    events := CuesGetStored(s, heard);
    events := CancelledAndRetried(s, events);
    events := WrittenOut(s, events);
  }
}
