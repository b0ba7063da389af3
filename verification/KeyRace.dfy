/**
 Several processes resolving the key of a fresh folder through the file fallback at once.
 Each reads the key file, draws a key if there is none, publishes it without replacing an
 existing file, and re-reads the file when it lost. Steps of different processes interleave,
 and a process that crashes simply takes no further step.
 */
module KeyRace {
  import opened Wrappers
  import opened Custody

  datatype Proc =
    | Starting(drawn: Key)    // has not looked at the key file yet
    | Publishing(key: Key)    // saw no key file; about to publish this key
    | Rereading               // lost the race; about to read the winner's file
    | Resolved(key: Key)

  datatype Race = Race(file: Option<Key>, legacy: Option<Key>, procs: seq<Proc>)

  /** Process `i` takes its next step. */
  function Advance(r: Race, i: nat): Race
    requires i < |r.procs|
  {
    match r.procs[i]
    case Starting(drawn) =>
      var next := match r.file
        case Some(key) => Resolved(key)
        case None => Publishing(if r.legacy.Some? then r.legacy.value else drawn);
      r.(procs := r.procs[i := next])
    case Publishing(key) =>
      if r.file.None? then r.(file := Some(key), procs := r.procs[i := Resolved(key)])
      else r.(procs := r.procs[i := Rereading])
    case Rereading =>
      if r.file.Some? then r.(procs := r.procs[i := Resolved(r.file.value)]) else r
    case Resolved(_) => r
  }

  predicate Scheduled(schedule: seq<nat>, n: nat) {
    forall k :: 0 <= k < |schedule| ==> schedule[k] < n
  }

  function Play(r: Race, schedule: seq<nat>): (r': Race)
    requires Scheduled(schedule, |r.procs|)
    ensures |r'.procs| == |r.procs| && r'.legacy == r.legacy
    decreases schedule
  {
    if schedule == [] then r else Play(Advance(r, schedule[0]), schedule[1..])
  }

  ghost predicate Agreed(r: Race) {
    forall i :: 0 <= i < |r.procs| && r.procs[i].Resolved? ==> r.file == Some(r.procs[i].key)
  }

  /**
   Under every schedule of every set of processes, a published key file is never replaced and all
   processes that finished hold exactly the key on disk, so they all hold the same one.
   */
  lemma {:induction false} FinishedProcessesAgree(r: Race, schedule: seq<nat>)
    requires Scheduled(schedule, |r.procs|)
    requires Agreed(r)
    ensures var r' := Play(r, schedule);
      Agreed(r') && (r.file.Some? ==> r'.file == r.file)
    decreases schedule
  {
    if schedule != [] {
      FinishedProcessesAgree(Advance(r, schedule[0]), schedule[1..]);
    }
  }

  ghost predicate Fresh(r: Race) {
    r.file.None? && forall i :: 0 <= i < |r.procs| ==> r.procs[i].Starting?
  }

  function CountOf(schedule: seq<nat>, i: nat): nat {
    if schedule == [] then 0 else (if schedule[0] == i then 1 else 0) + CountOf(schedule[1..], i)
  }

  /** Steps process `i` still needs to finish. */
  function Remaining(r: Race, i: nat): nat
    requires i < |r.procs|
  {
    match r.procs[i]
    case Starting(_) => 3
    case Publishing(_) => 2
    case Rereading => 1
    case Resolved(_) => 0
  }

  /** A process that is given three steps finishes, whatever the others do in between. */
  lemma {:induction false} ThreeStepsFinish(r: Race, schedule: seq<nat>, i: nat)
    requires Scheduled(schedule, |r.procs|)
    requires i < |r.procs|
    requires forall k :: 0 <= k < |r.procs| && r.procs[k].Rereading? ==> r.file.Some?
    requires CountOf(schedule, i) >= Remaining(r, i)
    ensures Play(r, schedule).procs[i].Resolved?
    decreases schedule
  {
    if schedule != [] {
      ThreeStepsFinish(Advance(r, schedule[0]), schedule[1..], i);
    }
  }

  /** On a fresh folder, any two processes that both get three steps return one and the same key. */
  lemma FreshFolderRace(r: Race, schedule: seq<nat>, i: nat, j: nat)
    requires Fresh(r) && Scheduled(schedule, |r.procs|)
    requires i < |r.procs| && j < |r.procs|
    requires CountOf(schedule, i) >= 3 && CountOf(schedule, j) >= 3
    ensures var r' := Play(r, schedule);
      && r'.procs[i].Resolved? && r'.procs[j].Resolved?
      && r'.procs[i].key == r'.procs[j].key && r'.file == Some(r'.procs[i].key)
  {
    FinishedProcessesAgree(r, schedule);
    ThreeStepsFinish(r, schedule, i);
    ThreeStepsFinish(r, schedule, j);
  }
}
