/**
 * Supervising the Studio worker: one thread that starts it again and again, and another that stops it for good.
 *
 * A state machine whose steps are the atomic actions of either thread; a worker is its whole process group, which
 * lives until it is killed or dies by itself, and the next one to be started gets the next number.
 */
module StudioWorker {
  import opened Basics

  // The delay between restarts

  const MIN_BACKOFF := 5.0
  const MAX_BACKOFF := 300.0
  const STABLE_RUN := 600.0

  function RealMax(a: real, b: real): real {
    if a < b then b else a
  }

  function RealMin(a: real, b: real): real {
    if a < b then a else b
  }

  function NextBackoff(previous: real, ranFor: real): real {
    if ranFor >= STABLE_RUN then MIN_BACKOFF else RealMin(MAX_BACKOFF, RealMax(MIN_BACKOFF, previous * 2.0))
  }

  /** The delay after these runs in a row, the first of which started from the least delay. */
  function BackoffAfter(runs: seq<real>): real {
    if runs == [] then MIN_BACKOFF else NextBackoff(BackoffAfter(runs[..|runs| - 1]), runs[|runs| - 1])
  }

  function Power2(n: nat): nat {
    if n == 0 then 1 else 2 * Power2(n - 1)
  }

  /** Quick failures in a row double the delay from five seconds up to five minutes, whatever happened before them. */
  lemma {:induction false} QuickFailuresDouble(runs: seq<real>, quick: seq<real>)
    requires forall i | 0 <= i < |quick| :: quick[i] < STABLE_RUN
    requires runs == [] || runs[|runs| - 1] >= STABLE_RUN
    ensures BackoffAfter(runs + quick) == RealMin(MAX_BACKOFF, 5.0 * Power2(|quick|) as real)
  {
    if quick == [] {
      assert runs + quick == runs;
    } else {
      var n := |quick| - 1;
      assert (runs + quick)[..|runs + quick| - 1] == runs + quick[..n];
      QuickFailuresDouble(runs, quick[..n]);
      assert Power2(|quick|) as real == 2.0 * Power2(n) as real;
    }
  }

  // The supervisor's two threads

  /** Within a cleanup, which holds the process lock from its check to its end. */
  datatype Cleaning = Wanting | Killing | Clearing

  datatype RunPc =
    | Top
    | Spawning
    | Spawned(p: nat)
    | Recorded(p: nat)
    | EarlyCleanup(p: nat, at: Cleaning)
    | Waiting(p: nat)
    | Cleanup(p: nat, at: Cleaning)
    | Cleaned
    | Returned

  datatype StopPc = NotCalled | StopSet | StopCleanup(p: nat, at: Cleaning) | Finished

  datatype Who = Runner | Stopper

  /** `failed` is whether a cleanup could not kill its group; `late` counts workers started once stop was called. */
  datatype State = State(
    run: RunPc, stop: StopPc, stopping: bool, process: Option<nat>, lock: Option<Who>, alive: set<nat>, next: nat,
    failed: bool, late: nat)

  datatype Event =
    | Check
    | Spawn(starts: bool, retry: bool)
    | Record
    | CheckAgain
    | WaitReturns
    | AfterCleanup(exitedCleanly: bool)
    | SetStopping
    | ReadProcess
    | Lock(who: Who)
    | Kill(who: Who, works: bool)
    | Clear(who: Who)
    | Dies(p: nat)

  /** The cleanup this thread is in, if any. */
  function CleanupOf(s: State, who: Who): Option<(nat, Cleaning)> {
    match who
    case Runner =>
      if s.run.EarlyCleanup? || s.run.Cleanup? then Some((s.run.p, s.run.at)) else None
    case Stopper => if s.stop.StopCleanup? then Some((s.stop.p, s.stop.at)) else None
  }

  function MoveTo(s: State, who: Who, at: Cleaning): State {
    match who
    case Runner =>
      if s.run.EarlyCleanup? then s.(run := EarlyCleanup(s.run.p, at))
      else if s.run.Cleanup? then s.(run := Cleanup(s.run.p, at))
      else s
    case Stopper => if s.stop.StopCleanup? then s.(stop := StopCleanup(s.stop.p, at)) else s
  }

  /** The cleanup returns whether the worker's group is gone. */
  function ReturnFrom(s: State, who: Who, gone: bool): State {
    match who
    case Runner =>
      s.(run := if !gone then Returned
                else if s.run.EarlyCleanup? then Waiting(s.run.p)
                else if s.run.Cleanup? then Cleaned
                else s.run)
    case Stopper => s.(stop := Finished)
  }

  function Step(s: State, e: Event): State {
    match e
    case Check => if s.run == Top then s.(run := if s.stopping then Returned else Spawning) else s
    case Spawn(starts, retry) =>
      if s.run != Spawning then s
      else if !starts then s.(run := if retry then Top else Returned)
      else s.(run := Spawned(s.next), alive := s.alive + {s.next}, next := s.next + 1,
              late := s.late + if s.stopping then 1 else 0)
    case Record =>
      if s.run.Spawned? && s.lock.None? then s.(run := Recorded(s.run.p), process := Some(s.run.p)) else s
    case CheckAgain =>
      if s.run.Recorded? then s.(run := if s.stopping then EarlyCleanup(s.run.p, Wanting) else Waiting(s.run.p)) else s
    case WaitReturns => if s.run.Waiting? then s.(run := Cleanup(s.run.p, Wanting)) else s
    case AfterCleanup(exitedCleanly) =>
      if s.run == Cleaned then s.(run := if s.stopping || exitedCleanly then Returned else Top) else s
    case SetStopping => if s.stop == NotCalled then s.(stop := StopSet, stopping := true) else s
    case ReadProcess =>
      if s.stop != StopSet then s
      else s.(stop := if s.process.Some? then StopCleanup(s.process.value, Wanting) else Finished)
    case Lock(who) =>
      var c := CleanupOf(s, who);
      if c.None? || c.value.1 != Wanting || s.lock.Some? then s
      else if s.process != Some(c.value.0) then ReturnFrom(s, who, true)
      else MoveTo(s, who, Killing).(lock := Some(who))
    case Kill(who, works) =>
      var c := CleanupOf(s, who);
      if c.None? || c.value.1 != Killing then s
      else if works then MoveTo(s, who, Clearing).(alive := s.alive - {c.value.0})
      else ReturnFrom(s, who, false).(lock := None, failed := true)
    case Clear(who) =>
      var c := CleanupOf(s, who);
      if c.None? || c.value.1 != Clearing then s
      else ReturnFrom(s, who, true).(lock := None, process := None)
    case Dies(p) => s.(alive := s.alive - {p})
  }

  function Run(s: State, events: seq<Event>): State
    decreases |events|
  {
    if events == [] then s else Run(Step(s, events[0]), events[1..])
  }

  const INITIAL := State(Top, NotCalled, false, None, None, {}, 0, false, 0)

  /** The worker the runner is looking after, from its start to the end of its cleanup. */
  function Worker(s: State): Option<nat> {
    match s.run
    case Spawned(p) => Some(p)
    case Recorded(p) => Some(p)
    case EarlyCleanup(p, _) => Some(p)
    case Waiting(p) => Some(p)
    case Cleanup(p, _) => Some(p)
    case _ => None
  }

  predicate Inside(c: Option<(nat, Cleaning)>) {
    c.Some? && c.value.1 != Wanting
  }

  /** A cleanup holds the lock exactly while it works on the recorded worker, which is dead once it is killed. */
  ghost predicate LockInv(s: State, who: Who) {
    HoldsInv(s, who) && WorksInv(s, who)
  }

  ghost predicate HoldsInv(s: State, who: Who) {
    s.lock == Some(who) <==> Inside(CleanupOf(s, who))
  }

  ghost predicate WorksInv(s: State, who: Who) {
    var c := CleanupOf(s, who);
    && (c.Some? ==> c.value.0 < s.next)
    && (Inside(c) ==> s.process == Some(c.value.0))
    && (Inside(c) && c.value.1 == Clearing ==> c.value.0 !in s.alive)
  }

  /** The one worker that may live: the one just started, or the one on record. */
  function Living(s: State): Option<nat> {
    if s.run.Spawned? then Some(s.run.p) else s.process
  }

  /** The worker on record is the runner's own, unless the runner gave up on a failed cleanup. */
  ghost predicate RecordInv(s: State) {
    && (s.process.Some? ==> s.process.value < s.next)
    && (Worker(s).Some? ==> Worker(s).value < s.next)
    && (s.process.Some? ==> if s.run == Returned then s.failed else s.process == Worker(s) && !s.run.Spawned?)
  }

  /** Only the worker just started, or the one on record, lives. */
  ghost predicate AliveInv(s: State) {
    forall p | p in s.alive :: Living(s) == Some(p)
  }

  /** At most one worker is started once stop has been called. */
  ghost predicate LateInv(s: State) {
    (s.stop == NotCalled <==> !s.stopping) && s.late <= (if s.stopping && s.run != Spawning then 1 else 0)
  }

  ghost predicate Inv(s: State) {
    LockInv(s, Runner) && LockInv(s, Stopper) && RecordInv(s) && AliveInv(s) && LateInv(s)
  }

  lemma StepKeepsLock(s: State, e: Event, who: Who)
    requires Inv(s)
    ensures LockInv(Step(s, e), who)
  {
    StepKeepsHolds(s, e, who);
    StepKeepsWorks(s, e, who);
  }

  lemma StepKeepsHolds(s: State, e: Event, who: Who)
    requires Inv(s)
    ensures HoldsInv(Step(s, e), who)
  {
  }

  lemma StepKeepsWorks(s: State, e: Event, who: Who)
    requires Inv(s)
    ensures WorksInv(Step(s, e), who)
  {
  }

  lemma StepKeepsRecord(s: State, e: Event)
    requires Inv(s)
    ensures RecordInv(Step(s, e))
  {
  }

  lemma StepKeepsAlive(s: State, e: Event)
    requires Inv(s)
    ensures AliveInv(Step(s, e))
  {
  }

  lemma StepKeepsLate(s: State, e: Event)
    requires Inv(s)
    ensures LateInv(Step(s, e))
  {
  }

  lemma {:induction false} RunKeepsInv(s: State, events: seq<Event>)
    requires Inv(s)
    ensures Inv(Run(s, events))
    decreases |events|
  {
    if events != [] {
      StepKeepsLock(s, events[0], Runner);
      StepKeepsLock(s, events[0], Stopper);
      StepKeepsRecord(s, events[0]);
      StepKeepsAlive(s, events[0]);
      StepKeepsLate(s, events[0]);
      RunKeepsInv(Step(s, events[0]), events[1..]);
    }
  }

  /**
   * In every interleaving of running and stopping, at most one worker lives, at most one is started after stop was
   * called, and once both threads have returned with no cleanup failed, none is left.
   */
  lemma EveryInterleaving(events: seq<Event>)
    ensures var s := Run(INITIAL, events);
            |s.alive| <= 1 && s.late <= 1 && (s.run == Returned && !s.failed ==> s.alive == {})
  {
    RunKeepsInv(INITIAL, events);
    var s := Run(INITIAL, events);
    if p :| p in s.alive {
      assert s.alive == {p};
    }
  }
}
