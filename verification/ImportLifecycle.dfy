/**
 * Driving one common import on the Server: completing it, or rolling it back, against a journal that only the Server
 * writes and that may change with every launch.
 */
module ImportLifecycle {
  import opened Basics

  datatype RunStatus = RunCopying | RunVerifying | RunActivated | RunAbandoned
  datatype Phase = Prepared | Copying | Verifying | Activating | Activated | RollingBack | Abandoned
  datatype Source = Source(kind: string, version: string)
  datatype Run = Run(operation: nat, source: Source, status: RunStatus)
  datatype Execution = Execution(phase: Phase, writersMayHaveStarted: bool, abandoned: bool)
  datatype Status = Status(run: Option<Run>, execution: Option<Execution>)

  datatype Action = ReadStatus | StartRun | ResumeRun | VerifyAndActivate | Rollback

  /** What one launch does: the journal it leaves, and whether its answer arrives, is malformed, or is lost. */
  datatype Answer = Honest | Malformed | Lost
  datatype Reply = Reply(next: Status, answer: Answer)

  /** A journal keeps its execution record, which never forgets that writers started or that it was abandoned. */
  predicate Monotone(was: Status, now: Status) {
    was.execution.Some? ==>
      && now.execution.Some?
      && (was.execution.value.writersMayHaveStarted ==> now.execution.value.writersMayHaveStarted)
      && (was.execution.value.abandoned ==> now.execution.value.abandoned)
  }

  /** The journal after a launch; the Server writes none that forgets. */
  function Next(journal: Status, reply: Reply): Status {
    if Monotone(journal, reply.next) then reply.next else journal
  }

  predicate Writers(s: Status) {
    s.execution.Some? && s.execution.value.writersMayHaveStarted
  }

  predicate IsAbandoned(s: Status) {
    s.execution.Some? && s.execution.value.abandoned
  }

  /** A status that shows writers or an activation, under way or done. */
  predicate ShowsActivation(s: Status) {
    s.execution.Some? &&
    (s.execution.value.writersMayHaveStarted || s.execution.value.phase in {Activating, Activated} ||
     (s.run.Some? && s.run.value.status == RunActivated))
  }

  /** The run is this operation's import of this source, and has an execution record. */
  predicate Ours(s: Status, operation: nat, source: Source) {
    s.run.Some? ==> s.execution.Some? && s.run.value.operation == operation && s.run.value.source == source
  }

  datatype Progress = Fresh | Resumable | ToVerify | IsActivated | Unexpected

  function ProgressOf(s: Status): Progress {
    if IsAbandoned(s) then Unexpected
    else if s.run.None? then
      (if s.execution.Some? && (s.execution.value.phase != Prepared || Writers(s)) then Unexpected else Fresh)
    else if s.execution.None? then Unexpected
    else
      var status, phase, writers := s.run.value.status, s.execution.value.phase, Writers(s);
      if status == RunActivated && writers && phase == Activated then IsActivated
      else if status == RunActivated && writers && phase == Activating then ToVerify
      else if status == RunCopying && !writers && phase in {Prepared, Copying} then Resumable
      else if status == RunVerifying && (phase in {Copying, Verifying} || (phase == Activating && writers)) then
        ToVerify
      else Unexpected
  }

  datatype Undo = Untouched | IsAbandonedNow | CanRollBack | MustNot

  function UndoOf(s: Status): Undo {
    if s.execution.None? then Untouched
    else if ShowsActivation(s) then MustNot
    else
      var phase := s.execution.value.phase;
      if s.execution.value.abandoned then
        (if (s.run.None? || s.run.value.status == RunAbandoned) && phase in {Prepared, RollingBack, Abandoned}
         then IsAbandonedNow else MustNot)
      else if phase == Abandoned || (s.run.None? && phase != Prepared) then MustNot
      else CanRollBack
  }

  /** One launch, and the status last read when it was made. */
  datatype Launched = Launched(action: Action, shown: Option<Status>)

  /** The launches of a completion: at most one run or resume, then at most one activating verification. */
  predicate CompletionLaunches(l: seq<Launched>) {
    && 1 <= |l| <= 5 && l[0].action == ReadStatus
    && (|l| > 1 ==> l[1].action in {StartRun, ResumeRun, VerifyAndActivate})
    && (|l| > 2 ==> l[2].action == ReadStatus)
    && (|l| > 3 ==> l[1].action != VerifyAndActivate && l[3].action == VerifyAndActivate)
    && (|l| > 4 ==> l[4].action == ReadStatus)
  }

  predicate StartLaunches(l: seq<Launched>) {
    && 1 <= |l| <= 3 && l[0].action == ReadStatus
    && (|l| > 1 ==> l[1].action in {StartRun, ResumeRun})
    && (|l| > 2 ==> l[2].action == ReadStatus)
  }

  predicate RollbackLaunches(l: seq<Launched>) {
    && 1 <= |l| <= 3 && l[0].action == ReadStatus
    && (|l| > 1 ==> l[1].action == Rollback)
    && (|l| > 2 ==> l[2].action == ReadStatus)
  }

  /** Nothing is launched but what the status read just before calls for. */
  predicate CalledFor(l: Launched) {
    match l.action
    case ReadStatus => true
    case StartRun => l.shown.Some? && ProgressOf(l.shown.value) == Fresh
    case ResumeRun => l.shown.Some? && ProgressOf(l.shown.value) == Resumable
    case VerifyAndActivate => l.shown.Some? && ProgressOf(l.shown.value) == ToVerify
    case Rollback => l.shown.Some? && UndoOf(l.shown.value) == CanRollBack && !ShowsActivation(l.shown.value)
  }

  // The Server behaviours that an operation completes under

  /** Launching the verification and reading the status then ends in an activation. */
  predicate Activates(operation: nat, source: Source, journal: Status, future: seq<Reply>) {
    && |future| >= 2 && future[0].answer != Lost && future[1].answer == Honest
    && var activated := Next(Next(journal, future[0]), future[1]);
       Ours(activated, operation, source) && ProgressOf(activated) == IsActivated
  }

  predicate VerifiesOn(operation: nat, source: Source, journal: Status, future: seq<Reply>) {
    && Ours(journal, operation, source) && ProgressOf(journal) in {IsActivated, ToVerify}
    && (ProgressOf(journal) == ToVerify ==> Activates(operation, source, journal, future))
  }

  /** The import gets to its activation: at once, from the verification on, or from a run or a resumption on. */
  predicate Completes(operation: nat, source: Source, journal: Status, future: seq<Reply>) {
    && |future| >= 1 && future[0].answer == Honest
    && var now := Next(journal, future[0]);
       if Ours(now, operation, source) && ProgressOf(now) in {Fresh, Resumable} then
         && |future| >= 3 && future[1].answer != Lost && future[2].answer == Honest
         && VerifiesOn(operation, source, Next(Next(now, future[1]), future[2]), future[3..])
       else VerifiesOn(operation, source, now, future[1..])
  }

  /** The import is untouched or abandoned, at once or by one rollback. */
  predicate RollsBack(operation: nat, source: Source, journal: Status, future: seq<Reply>) {
    && |future| >= 1 && future[0].answer == Honest
    && var now := Next(journal, future[0]);
       && Ours(now, operation, source) && UndoOf(now) != MustNot
       && (UndoOf(now) == CanRollBack ==>
             && |future| >= 3 && future[1].answer != Lost && future[2].answer == Honest
             && var undone := Next(Next(now, future[1]), future[2]);
                Ours(undone, operation, source) && UndoOf(undone) == IsAbandonedNow)
  }

  /** A Server that does what it is asked: its status launches change nothing, and its others succeed. */
  function Cooperation(operation: nat, source: Source, journal: Status): seq<Reply> {
    var verifying := Status(
      Some(Run(operation, source, RunVerifying)), Some(Execution(Verifying, Writers(journal), false)));
    var activated := Status(Some(Run(operation, source, RunActivated)), Some(Execution(Activated, true, false)));
    var activation := [Reply(activated, Honest), Reply(activated, Honest)];
    match ProgressOf(journal)
    case Fresh => [Reply(journal, Honest), Reply(verifying, Honest), Reply(verifying, Honest)] + activation
    case Resumable => [Reply(journal, Honest), Reply(verifying, Honest), Reply(verifying, Honest)] + activation
    case ToVerify => [Reply(journal, Honest)] + activation
    case _ => [Reply(journal, Honest)]
  }

  lemma CooperationCompletes(operation: nat, source: Source, journal: Status)
    requires Ours(journal, operation, source) && ProgressOf(journal) != Unexpected
    ensures Completes(operation, source, journal, Cooperation(operation, source, journal))
  {
    var future := Cooperation(operation, source, journal);
    if ProgressOf(journal) in {Fresh, Resumable} {
      assert future[3..] == [future[3], future[4]];
    } else if ProgressOf(journal) == ToVerify {
      assert future[1..] == [future[1], future[2]];
    }
  }

  /** The first status launch changes nothing, so what it shows is the journal as it is. */
  predicate Quiet(journal: Status, future: seq<Reply>) {
    |future| >= 1 && Next(journal, future[0]) == journal
  }

  /**
   * Where status reads change nothing, an import can still be completed exactly from the statuses that completion
   * expects; from any other it is refused, whatever the Server does next.
   */
  lemma CompletesFromExpected(operation: nat, source: Source, journal: Status)
    ensures (exists future :: Quiet(journal, future) && Completes(operation, source, journal, future)) <==>
            Ours(journal, operation, source) && ProgressOf(journal) != Unexpected
  {
    if Ours(journal, operation, source) && ProgressOf(journal) != Unexpected {
      CooperationCompletes(operation, source, journal);
      assert Quiet(journal, Cooperation(operation, source, journal));
    }
  }

  /** A Server that does what a rollback asks, and nothing on a status read. */
  function Undoing(journal: Status): seq<Reply> {
    var abandoned := Status(None, Some(Execution(Abandoned, false, true)));
    [Reply(journal, Honest), Reply(abandoned, Honest), Reply(abandoned, Honest)]
  }

  /** The same of a rollback: it can still return exactly from the statuses it does not refuse. */
  lemma RollsBackFromExpected(operation: nat, source: Source, journal: Status)
    ensures (exists future :: Quiet(journal, future) && RollsBack(operation, source, journal, future)) <==>
            Ours(journal, operation, source) && UndoOf(journal) != MustNot
  {
    if Ours(journal, operation, source) && UndoOf(journal) != MustNot {
      assert Quiet(journal, Undoing(journal)) && RollsBack(operation, source, journal, Undoing(journal));
    }
  }

  /** Some Server behaviour still completes an import exactly until it is abandoned. */
  lemma CompletesUnlessAbandoned(operation: nat, source: Source, journal: Status)
    ensures (exists future :: Completes(operation, source, journal, future)) <==> !IsAbandoned(journal)
  {
    if !IsAbandoned(journal) {
      var activated := Status(Some(Run(operation, source, RunActivated)), Some(Execution(Activated, true, false)));
      assert Completes(operation, source, journal, [Reply(activated, Honest)]);
    }
  }

  /** Some Server behaviour still rolls an import back exactly until its writers may have started. */
  lemma RollsBackUnlessWriters(operation: nat, source: Source, journal: Status)
    ensures (exists future :: RollsBack(operation, source, journal, future)) <==> !Writers(journal)
  {
    if !Writers(journal) {
      var abandoned := Status(None, Some(Execution(Abandoned, false, true)));
      assert RollsBack(operation, source, journal, [Reply(abandoned, Honest)]);
    }
  }

  class Import {
    const operation: nat
    const source: Source
    var journal: Status
    var future: seq<Reply>
    ghost var launched: seq<Launched>
    ghost var shown: Option<Status>

    // Whether any completion has confirmed activation, and any rollback abandonment.
    ghost var activated: bool
    ghost var abandoned: bool

    constructor (operation: nat, source: Source, journal: Status)
      ensures Valid() && this.operation == operation && this.source == source && this.journal == journal
      ensures !activated && !abandoned && launched == []
    {
      this.operation := operation;
      this.source := source;
      this.journal := journal;
      future := [];
      launched := [];
      shown := None;
      activated, abandoned := false, false;
    }

    /** What was confirmed once holds for good, and never both ways. */
    ghost predicate Valid()
      reads this
    {
      && (activated ==> Writers(journal)) && (abandoned ==> IsAbandoned(journal)) && !(activated && abandoned)
      && (forall i | 0 <= i < |launched| :: CalledFor(launched[i]))
    }

    /** Launches one action on the Server: whether anything came back, and the journal if that is what came back. */
    method Launch(action: Action) returns (returned: bool, answer: Option<Status>)
      modifies `journal, `future, `launched
      ensures launched == old(launched) + [Launched(action, shown)]
      ensures Monotone(old(journal), journal)
      ensures if old(future) == [] then !returned && answer == None && journal == old(journal) && future == []
              else
                var reply := old(future)[0];
                && journal == Next(old(journal), reply) && future == old(future)[1..]
                && (returned <==> reply.answer != Lost)
                && answer == if reply.answer == Honest then Some(journal) else None
    {
      launched := launched + [Launched(action, shown)];
      if future == [] {
        return false, None;
      }
      var reply := future[0];
      future := future[1..];
      journal := Next(journal, reply);
      return reply.answer != Lost, if reply.answer == Honest then Some(journal) else None;
    }

    method ReadProgress() returns (progress: Progress)
      modifies `journal, `future, `launched, `shown
      ensures launched == old(launched) + [Launched(ReadStatus, old(shown))] && Monotone(old(journal), journal)
      ensures progress != Unexpected ==> shown == Some(journal)
      ensures if old(future) != [] && old(future)[0].answer == Honest && Ours(journal, operation, source)
              then progress == ProgressOf(journal) else progress == Unexpected
      ensures old(future) != [] ==> journal == Next(old(journal), old(future)[0]) && future == old(future)[1..]
    {
      var _, answer := Launch(ReadStatus);
      shown := answer;
      return if answer.None? || !Ours(answer.value, operation, source) then Unexpected else ProgressOf(answer.value);
    }

    /** Reads where the import is, and runs or resumes it once if it has not got to verification. */
    method RunOrResume() returns (progress: Progress)
      requires Valid()
      modifies `journal, `future, `launched, `shown
      ensures Valid() && Monotone(old(journal), journal)
      ensures old(launched) <= launched && |old(launched)| + 1 <= |launched| <= |old(launched)| + 3
      ensures StartLaunches(launched[|old(launched)|..])
      ensures progress in {ToVerify, IsActivated} ==>
                |launched| != |old(launched)| + 2 && shown == Some(journal) &&
                Ours(journal, operation, source) && progress == ProgressOf(journal)
      ensures old(IsAbandoned(journal)) ==> progress == Unexpected && |launched| == |old(launched)| + 1
      ensures old(Completes(operation, source, journal, future)) <==>
              progress == IsActivated || (progress == ToVerify && Activates(operation, source, journal, future))
    {
      progress := ReadProgress();
      if progress == Fresh || progress == Resumable {
        var returned, _ := Launch(if progress == Fresh then StartRun else ResumeRun);
        if !returned {
          return Unexpected;
        }
        progress := ReadProgress();
      }
    }

    /** Runs or resumes, verifies and activates the import, as far as the Server's journal says it has not been. */
    method CompleteCommonImport() returns (o: Outcome)
      requires Valid()
      modifies this
      ensures Valid() && Monotone(old(journal), journal)
      ensures old(launched) <= launched && CompletionLaunches(launched[|old(launched)|..])
      ensures old(IsAbandoned(journal)) ==> o != Done && |launched| == |old(launched)| + 1
      ensures o == Done <==> old(Completes(operation, source, journal, future))
      ensures o == Done ==> activated && ProgressOf(journal) == IsActivated && Ours(journal, operation, source)
      ensures abandoned == old(abandoned) && activated == (old(activated) || o == Done)
    {
      var progress := RunOrResume();
      if progress == IsActivated {
        activated := true;
        return Done;
      }
      if progress != ToVerify {
        return Refused("import_common_status_unexpected");
      }
      var returned, _ := Launch(VerifyAndActivate);
      if !returned {
        return Refused("import_common_status_unexpected");
      }
      progress := ReadProgress();
      if progress != IsActivated {
        return Refused("import_common_status_unexpected");
      }
      activated := true;
      return Done;
    }

    method Inspect() returns (undo: Undo)
      modifies `journal, `future, `launched, `shown
      ensures launched == old(launched) + [Launched(ReadStatus, old(shown))] && Monotone(old(journal), journal)
      ensures undo != MustNot ==> shown == Some(journal)
      ensures if old(future) != [] && old(future)[0].answer == Honest && Ours(journal, operation, source)
              then undo == UndoOf(journal) else undo == MustNot
      ensures old(future) != [] ==> journal == Next(old(journal), old(future)[0]) && future == old(future)[1..]
    {
      var _, answer := Launch(ReadStatus);
      shown := answer;
      return if answer.None? || !Ours(answer.value, operation, source) then MustNot else UndoOf(answer.value);
    }

    /**
     * Rolls the import back unless the Server may have started writing. Returns once the journal is untouched or the
     * Server has confirmed abandonment, which `confirmed` tells apart.
     */
    method RollbackCommonImport() returns (o: Outcome, confirmed: bool)
      requires Valid()
      modifies this
      ensures Valid() && Monotone(old(journal), journal)
      ensures old(launched) <= launched && RollbackLaunches(launched[|old(launched)|..])
      ensures old(Writers(journal)) ==> o != Done && |launched| == |old(launched)| + 1
      ensures o == Done <==> old(RollsBack(operation, source, journal, future))
      ensures confirmed ==> o == Done && IsAbandoned(journal) && !Writers(journal) && UndoOf(journal) == IsAbandonedNow
      ensures o == Done && !confirmed ==> journal.execution.None? && |launched| == |old(launched)| + 1
      ensures activated == old(activated) && abandoned == (old(abandoned) || confirmed)
    {
      var undo := Inspect();
      if undo == Untouched {
        return Done, false;
      }
      if undo == IsAbandonedNow {
        abandoned := true;
        return Done, true;
      }
      if undo == MustNot {
        return Refused("import_common_status_unexpected"), false;
      }
      var returned, _ := Launch(Rollback);
      if !returned {
        return Refused("import_common_status_unexpected"), false;
      }
      undo := Inspect();
      if undo != IsAbandonedNow {
        return Refused("import_common_status_unexpected"), false;
      }
      abandoned := true;
      return Done, true;
    }

    /** Any sequence of completions and rollbacks, each against whatever the Server then does. */
    method Attempts(schedule: seq<(bool, seq<Reply>)>)
      requires Valid()
      modifies this
      ensures Valid() && Monotone(old(journal), journal) && old(launched) <= launched
      ensures old(activated) ==> activated && !abandoned
      ensures old(abandoned) ==> abandoned && !activated
      ensures !(activated && abandoned)
    {
      for i := 0 to |schedule|
        invariant Valid() && Monotone(old(journal), journal) && old(launched) <= launched
        invariant (old(activated) ==> activated) && (old(abandoned) ==> abandoned)
      {
        future := schedule[i].1;
        if schedule[i].0 {
          var o := CompleteCommonImport();
        } else {
          var o, confirmed := RollbackCommonImport();
        }
      }
    }
  }
}
