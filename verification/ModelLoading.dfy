/**
 * Fetching models from many loader threads: one download at a time under `download_lock`, and a fast path past it.
 *
 * A state machine whose steps are the atomic actions of one thread. A download may make its directory look cached, or
 * not, at any moment while it writes. `cachedFirst` is the order of the two reads of the fast path. A thread leaves
 * before them when the model is loaded, and skips them when downloads are off and models are staged.
 */
module ModelLoading {
  import opened Basics

  /** Where a thread is in `fetch`; a read remembers the download that was writing its directory at that moment. */
  datatype Pc =
    | Start
    | HasCached(seen: Option<nat>)
    | HasLooked
    | Waiting
    | Locked
    | Registered
    | Writing(download: nat)
    | Ended
    | Unregistered
    | LeftFast(seen: Option<nat>)
    | Left

  datatype State = State(
    cachedFirst: bool,
    dirs: seq<nat>,
    pcs: seq<Pc>,
    holder: Option<nat>,
    downloading: set<nat>,
    cached: set<nat>,
    downloads: nat)

  datatype Event =
    | FoundLoadedFirst(t: nat)
    | SkipReads(t: nat)
    | ReadCached(t: nat)
    | ReadDownloading(t: nat)
    | Acquire(t: nat)
    | FoundLoaded(t: nat)
    | Register(t: nat)
    | BeginWrite(t: nat)
    | Write(t: nat, looksCached: bool)
    | EndWrite(t: nat)
    | Unregister(t: nat)
    | Release(t: nat)
    | Again(t: nat)

  predicate Threads(s: State) {
    |s.dirs| == |s.pcs| && (s.holder.Some? ==> s.holder.value < |s.pcs|)
  }

  /** The download in progress and its directory; only the lock's holder can be writing. */
  function Current(s: State): Option<(nat, nat)>
    requires Threads(s)
  {
    if s.holder.Some? && s.pcs[s.holder.value].Writing? then
      Some((s.pcs[s.holder.value].download, s.dirs[s.holder.value]))
    else None
  }

  /** The download writing this directory now. */
  function Writer(s: State, dir: nat): Option<nat>
    requires Threads(s)
  {
    if Current(s).Some? && Current(s).value.1 == dir then Some(Current(s).value.0) else None
  }

  function At(s: State, t: nat, pc: Pc): State
    requires t < |s.pcs|
  {
    s.(pcs := s.pcs[t := pc])
  }

  /** One atomic action; nothing happens when the thread is not at that point. */
  function Step(s: State, e: Event): (s': State)
    requires Threads(s)
    ensures Threads(s') && s'.dirs == s.dirs && |s'.pcs| == |s.pcs| && s'.cachedFirst == s.cachedFirst
  {
    if e.t >= |s.pcs| then s
    else
      var t, dir, pc := e.t, s.dirs[e.t], s.pcs[e.t];
      match e
      case FoundLoadedFirst(_) => if pc == Start then At(s, t, Left) else s
      case SkipReads(_) => if pc == Start then At(s, t, Waiting) else s
      case ReadCached(_) =>
        if s.cachedFirst && pc == Start then At(s, t, if dir in s.cached then HasCached(Writer(s, dir)) else Waiting)
        else if !s.cachedFirst && pc == HasLooked then
          At(s, t, if dir in s.cached then LeftFast(Writer(s, dir)) else Waiting)
        else s
      case ReadDownloading(_) =>
        if s.cachedFirst && pc.HasCached? then At(s, t, if dir in s.downloading then Waiting else LeftFast(pc.seen))
        else if !s.cachedFirst && pc == Start then At(s, t, if dir in s.downloading then Waiting else HasLooked)
        else s
      case Acquire(_) => if pc == Waiting && s.holder.None? then At(s, t, Locked).(holder := Some(t)) else s
      case FoundLoaded(_) => if pc == Locked then At(s, t, Unregistered) else s
      case Register(_) => if pc == Locked then At(s, t, Registered).(downloading := s.downloading + {dir}) else s
      case BeginWrite(_) =>
        if pc == Registered then At(s, t, Writing(s.downloads)).(downloads := s.downloads + 1) else s
      case Write(_, looksCached) =>
        if pc.Writing? then s.(cached := if looksCached then s.cached + {dir} else s.cached - {dir}) else s
      case EndWrite(_) => if pc.Writing? || pc == Registered then At(s, t, Ended) else s
      case Unregister(_) => if pc == Ended then At(s, t, Unregistered).(downloading := s.downloading - {dir}) else s
      case Release(_) => if pc == Unregistered then At(s, t, Left).(holder := None) else s
      case Again(_) => if pc == Left || pc.LeftFast? then At(s, t, Start) else s
  }

  function Run(s: State, events: seq<Event>): (s': State)
    requires Threads(s)
    ensures Threads(s')
    decreases |events|
  {
    if events == [] then s else Run(Step(s, events[0]), events[1..])
  }

  predicate Init(s: State) {
    && |s.dirs| == |s.pcs| && (forall t | 0 <= t < |s.pcs| :: s.pcs[t] == Start)
    && s.holder == None && s.downloading == {}
  }

  predicate HoldsLock(pc: Pc) {
    pc in {Locked, Registered, Ended, Unregistered} || pc.Writing?
  }

  predicate IsRegistered(pc: Pc) {
    pc in {Registered, Ended} || pc.Writing?
  }

  /** The lock has one holder, and the only directory registered is the one its holder is downloading into. */
  ghost predicate LockInv(s: State) {
    Threads(s) && (forall t | 0 <= t < |s.pcs| :: HolderInv(s, t)) && RegisteredInv(s)
  }

  ghost predicate HolderInv(s: State, t: nat)
    requires t < |s.pcs|
  {
    HoldsLock(s.pcs[t]) <==> s.holder == Some(t)
  }

  ghost predicate RegisteredInv(s: State)
    requires Threads(s)
  {
    s.downloading ==
      if s.holder.Some? && IsRegistered(s.pcs[s.holder.value]) then {s.dirs[s.holder.value]} else {}
  }

  /** What a thread saw of its own directory's download; the fast path is left only once that download has ended. */
  ghost predicate Honest(s: State, t: nat)
    requires Threads(s) && t < |s.pcs|
  {
    match s.pcs[t]
    case Writing(d) => d < s.downloads
    case HasCached(Some(d)) =>
      d < s.downloads && (Current(s).Some? && Current(s).value.0 == d ==> Current(s).value.1 == s.dirs[t])
    case LeftFast(Some(d)) => s.cachedFirst ==> d < s.downloads && (Current(s).Some? ==> Current(s).value.0 != d)
    case _ => true
  }

  ghost predicate Inv(s: State) {
    LockInv(s) && forall t | 0 <= t < |s.pcs| :: Honest(s, t)
  }

  lemma StepKeepsLock(s: State, e: Event)
    requires LockInv(s)
    ensures LockInv(Step(s, e))
  {
    forall t | 0 <= t < |s.pcs|
      ensures HolderInv(Step(s, e), t)
    {
      StepKeepsHolder(s, e, t);
    }
    StepKeepsRegistered(s, e);
  }

  lemma StepKeepsHolder(s: State, e: Event, t: nat)
    requires LockInv(s) && t < |s.pcs|
    ensures HolderInv(Step(s, e), t)
  {
    assert HolderInv(s, t) && (e.t < |s.pcs| ==> HolderInv(s, e.t));
  }

  lemma StepKeepsRegistered(s: State, e: Event)
    requires LockInv(s)
    ensures RegisteredInv(Step(s, e))
  {
    assert e.t < |s.pcs| ==> HolderInv(s, e.t);
  }

  lemma StepKeepsHonest(s: State, e: Event, t: nat)
    requires Inv(s) && t < |s.pcs|
    ensures Honest(Step(s, e), t)
  {
    if t == e.t {
      StepKeepsOwn(s, e);
    } else if e.t < |s.pcs| {
      StepKeepsOther(s, e, t);
    }
  }

  lemma StepKeepsOwn(s: State, e: Event)
    requires Inv(s) && e.t < |s.pcs|
    ensures Honest(Step(s, e), e.t)
  {
    assert Honest(s, e.t) && HolderInv(s, e.t);
    assert s.holder.Some? ==> Honest(s, s.holder.value);
  }

  /** Another thread's action ends the download that was in progress, begins one of a new number, or neither. */
  lemma StepKeepsOther(s: State, e: Event, t: nat)
    requires Inv(s) && t < |s.pcs| && e.t < |s.pcs| && t != e.t
    ensures Honest(Step(s, e), t)
  {
    assert Honest(s, t) && HolderInv(s, e.t) && HolderInv(s, t);
  }

  lemma {:induction false} RunKeepsInv(s: State, events: seq<Event>)
    requires Inv(s)
    ensures Inv(Run(s, events))
    decreases |events|
  {
    if events != [] {
      StepKeepsLock(s, events[0]);
      forall t | 0 <= t < |s.pcs|
        ensures Honest(Step(s, events[0]), t)
      {
        StepKeepsHonest(s, events[0], t);
      }
      RunKeepsInv(Step(s, events[0]), events[1..]);
    }
  }

  /** A thread that is writing a directory holds `download_lock`, and that directory is the one registered. */
  predicate WritesAlone(s: State, t: nat)
    requires Threads(s) && t < |s.pcs|
  {
    s.pcs[t].Writing? ==> s.holder == Some(t) && s.downloading == {s.dirs[t]}
  }

  /** A thread that left by the fast path did not see the partial work of a download that is still in progress. */
  predicate LeftSafely(s: State, t: nat)
    requires Threads(s) && t < |s.pcs|
  {
    s.pcs[t].LeftFast? && s.pcs[t].seen.Some? ==> Current(s).None? || Current(s).value.0 != s.pcs[t].seen.value
  }

  /** Both hold in every interleaving, of any number of threads, that reads `cached` before `downloading`. */
  lemma EveryRunIsSafe(s: State, events: seq<Event>, t: nat)
    requires Init(s) && t < |s.pcs|
    ensures var end := Run(s, events);
            |end.pcs| == |s.pcs| && WritesAlone(end, t) && (s.cachedFirst ==> LeftSafely(end, t))
  {
    RunKeepsInv(s, events);
    SameThreads(s, events);
    var end := Run(s, events);
    assert Honest(end, t) && HolderInv(end, t);
  }

  lemma {:induction false} SameThreads(s: State, events: seq<Event>)
    requires Threads(s)
    ensures Run(s, events).cachedFirst == s.cachedFirst && |Run(s, events).pcs| == |s.pcs|
    decreases |events|
  {
    if events != [] {
      SameThreads(Step(s, events[0]), events[1..]);
    }
  }

  /** Two loaders of one model that read `downloading` before `cached`. */
  function Loaders(first: Pc, second: Pc): State {
    State(false, [7, 7], [first, second], None, {}, {}, 0)
  }

  /** Both look at `downloading`; one then begins to write and writes a part; the other reads `cached` and leaves. */
  function BadRun(): seq<Event> {
    [ReadDownloading(0), ReadDownloading(1), ReadCached(1), Acquire(1), Register(1), BeginWrite(1), Write(1, true),
     ReadCached(0)]
  }

  /** With the reads the other way round, a thread leaves on the partial work of a download that is still writing. */
  lemma OtherOrderIsUnsafe()
    ensures Init(Loaders(Start, Start))
    ensures var end := Run(Loaders(Start, Start), BadRun());
            |end.pcs| == 2 && end.pcs[0] == LeftFast(Some(0)) && Current(end) == Some((0, 7))
  {
  }
}
