/**
 * Fencing of an import source on Unraid: the journalled in-place edit of the autostart list, and the journalled
 * retirement of the source's database and Redis with its recovery.
 *
 * `budget` is the number of durable effects that still happen before the Manager process dies, so a method called
 * with every budget is a method crashed at every point; one written byte is one effect.
 */
module Fencing {
  import opened Basics
  import opened RestartPolicies
  import opened AutostartText
  import opened TornWrite
  import opened RetiredServices
  import opened FenceReview
  import Discovery

  datatype Pending = Pending(text: string, modified: string)

  /** One run of an operation: how long the process lives, whether others may write the media, and who is listed. */
  datatype Attempt = Attempt(recover: bool, budget: nat, answers: seq<bool>, inventory: set<int>)

  /** What the host writes to the list between Manager's read and its open, and before Manager reads it back. */
  datatype Host = Host(early: Option<string>, late: Option<string>)
  const QUIET := Host(None, None)

  /** Effects enough for one edit of the list: finishing a pending one, two journal entries, and the write itself. */
  function EditCost(was: string, now: string): nat {
    |was| + |now| + 5
  }

  ghost function HiddenNames(source: Source, names: map<int, string>, services: Option<seq<Service>>): set<string>
    requires Sane(source, names)
  {
    (set id | id in source.workers :: names[id]) + if services.Some? then ServiceNames(services.value) else {}
  }

  /** The list once a pending edit is finished. */
  function Settled(file: string, pending: Option<Pending>): string {
    if pending.Some? then pending.value.modified else file
  }

  /** A pending edit is one this file can have been left in the middle of. */
  ghost predicate Resumable(file: string, pending: Option<Pending>) {
    pending.Some? ==> Interrupted(file, pending.value.text, pending.value.modified)
  }

  /**
   * A pending edit can be finished; a journal entry still describes the services as they were, and recovery can work
   * from what is left of their containers and of the list.
   */
  ghost predicate Sound(
    source: Source, unraid: bool, names: map<int, string>, file: string, pending: Option<Pending>,
    services: Option<seq<Service>>, containers: map<int, Container>,
    before: map<int, Container>, read: string, latest: string, removed: bool)
    requires Sane(source, names)
  {
    && containers.Keys == names.Keys && Resumable(file, pending)
    && match services
       case None => !removed
       case Some(list) =>
         && Journalled(source, names, containers, list, before, read)
         && (unraid ==> Kept(Settled(file, pending), latest, list, HiddenNames(source, names, services), removed))
         && (removed ==> unraid)
  }

  /** The journal entry describes the services as they were, and recovery can work from what their containers are. */
  ghost predicate Journalled(
    source: Source, names: map<int, string>, containers: map<int, Container>,
    list: seq<Service>, before: map<int, Container>, read: string)
  {
    && Recorded(list, before, read)
    && forall s | s in list ::
         Safe(s, containers) && s.id in names && s.name == names[s.id] && s.id !in source.workers
  }

  /** The list is one that recovery can work from. */
  ghost predicate Kept(text: string, latest: string, list: seq<Service>, hidden: set<string>, removed: bool) {
    Fits(text, latest, list, hidden) && (removed ==> Removed(text, list))
  }

  class Fencing {
    const source: Source
    const revalidates: Revalidation
    const unraid: bool
    const names: map<int, string>
    var file: string
    var pending: Option<Pending>
    var intent: bool
    var services: Option<seq<Service>>
    var containers: map<int, Container>
    var answers: seq<bool>
    var budget: nat

    // When the services were recorded: the containers, the list as it was read, and the list itself. Then, the list as
    // the host last left it, and whether a retirement has got past removing the services from it.
    ghost var before: map<int, Container>
    ghost var read: string
    ghost var base: string
    ghost var latest: string
    ghost var removed: bool

    constructor (
      source: Source, revalidates: Revalidation, unraid: bool, names: map<int, string>, file: string,
      pending: Option<Pending>, intent: bool, containers: map<int, Container>)
      requires Sane(source, names) && containers.Keys == names.Keys
      requires Resumable(file, pending)
      ensures this.source == source && this.revalidates == revalidates && this.unraid == unraid && this.names == names
      ensures this.file == file && this.containers == containers && this.pending == pending && services == None
      ensures this.intent == intent && answers == []
      ensures Inv()
    {
      this.source := source;
      this.revalidates := revalidates;
      this.unraid := unraid;
      this.names := names;
      this.intent := intent;
      answers := [];
      this.file := file;
      this.containers := containers;
      this.pending := pending;
      services := None;
      budget := 0;
      removed := false;
    }

    // The journalled edit of the list

    method Spend() returns (ok: bool)
      modifies `budget
      ensures ok <==> old(budget) > 0
      ensures budget == if ok then old(budget) - 1 else 0
    {
      ok := budget > 0;
      if ok {
        budget := budget - 1;
      }
    }

    /** Overwrites the list in place, byte by byte, and truncates it. Only an unchanged list is touched. */
    method Write(expected: string, modified: string, host: Host) returns (o: Outcome)
      modifies `file, `budget
      ensures var seen := if host.early.Some? then host.early.value else old(file);
              if seen != expected then
                o == Refused("autostart_changed") && file == seen && budget == old(budget)
              else match o
                case Done => file == modified && (host.late.Some? ==> host.late.value == modified)
                case Crashed => exists k | 0 <= k <= |modified| :: file == Torn(expected, modified, k)
                case Refused(code) => code == "autostart_write_failed" && host.late == Some(file) && file != modified
      ensures old(budget) > |modified| ==> o != Crashed && budget >= old(budget) - |modified| - 1
    {
      if host.early.Some? {
        file := host.early.value;
      }
      if file != expected {
        return Refused("autostart_changed");
      }
      var i := 0;
      TornEnds(expected, modified);
      while i < |modified|
        invariant i <= |modified|
        invariant file == Torn(expected, modified, i)
        invariant old(budget) > |modified| ==> budget == old(budget) - i
      {
        var ok := Spend();
        if !ok {
          return Crashed;
        }
        TornStep(expected, modified, i);
        file := Overwrite(file, i, modified[i]);
        i := i + 1;
      }
      var ok := Spend();
      if !ok {
        return Crashed;
      }
      file := file[..|modified|];
      if host.late.Some? {
        file := host.late.value;
      }
      return if file == modified then Done else Refused("autostart_write_failed");
    }

    function Text(): string
      reads `file, `pending
    {
      Settled(file, pending)
    }

    ghost predicate Consistent()
      reads `file, `pending
    {
      Resumable(file, pending)
    }

    method Reconcile(host: Host) returns (o: Outcome)
      modifies `file, `pending, `budget
      ensures pending == old(pending) || pending == None
      ensures old(pending) == None ==> o == Done && file == old(file) && budget == old(budget)
      ensures !old(Consistent()) ==>
                o == Refused("autostart_changed") && file == old(file) && pending == old(pending)
      ensures old(Consistent()) && host == QUIET ==>
                !o.Refused? && Consistent() && Text() == old(Text()) &&
                (o == Done ==> pending == None && file == old(Text()))
      ensures host == QUIET && old(budget) >= |old(Text())| + 2 ==>
                o != Crashed && budget >= old(budget) - |old(Text())| - 2
    {
      if pending.None? {
        return Done;
      }
      var before, after := pending.value.text, pending.value.modified;
      var current := file;
      RecognisesInterrupted(current, before, after);
      if current != after {
        if current != before && current != Torn(before, after, CommonPrefix(current, after)) {
          return Refused("autostart_changed");
        }
        o := Write(current, after, host);
        if o != Done {
          if o == Crashed && host == QUIET {
            ghost var k :| 0 <= k <= |after| && file == Torn(current, after, k);
            InterruptedAgain(current, before, after, k);
          }
          return;
        }
      }
      var ok := Spend();
      if !ok {
        return Crashed;
      }
      pending := None;
      return Done;
    }

    /** Applies `change` to the list. A crash leaves the list as it was, finished, or pending with a recognised file. */
    method Rewrite(change: string -> string, host: Host) returns (o: Outcome)
      modifies `file, `pending, `budget
      ensures !old(Consistent()) ==>
                o == Refused("autostart_changed") && file == old(file) && pending == old(pending)
      ensures old(Consistent()) ==> match o
                case Done => pending == None && file == change(old(Text()))
                case Crashed => Consistent() && (Text() == old(Text()) || Text() == change(old(Text())))
                case Refused(code) =>
                  if code == "autostart_changed" then pending == None && host.early == Some(file)
                  else
                    code == "autostart_write_failed" && host.late == Some(file) &&
                    pending == Some(Pending(old(Text()), change(old(Text()))))
      ensures old(Consistent()) && host == QUIET ==> !o.Refused? && Consistent()
      ensures old(Consistent()) && host == QUIET && old(budget) >= EditCost(old(Text()), change(old(Text()))) ==>
                o == Done && budget >= old(budget) - EditCost(old(Text()), change(old(Text())))
    {
      o := Reconcile(QUIET);
      if o != Done {
        return;
      }
      var text := file;
      var modified := change(text);
      if modified == text {
        return Done;
      }
      var ok := Spend();
      if !ok {
        return Crashed;
      }
      pending := Some(Pending(text, modified));
      o := Write(text, modified, host);
      if o == Refused("autostart_changed") {
        pending := None;
      }
      if o != Done {
        return;
      }
      ok := Spend();
      if !ok {
        return Crashed;
      }
      pending := None;
      return Done;
    }

    /** However many repairs are interrupted, one that is not finishes the edit. */
    method RepairAfterCrashes(budgets: seq<nat>, enough: nat) returns (o: Outcome)
      requires Consistent()
      requires enough >= |Text()| + 2
      modifies `file, `pending, `budget
      ensures o == Done && pending == None && file == old(Text())
    {
      for i := 0 to |budgets|
        invariant Consistent() && Text() == old(Text())
      {
        budget := budgets[i];
        var interrupted := Reconcile(QUIET);
      }
      budget := enough;
      o := Reconcile(QUIET);
    }

    // The source's containers

    method SetPolicy(id: int, flag: Flag) returns (o: Outcome)
      requires id in containers
      modifies `containers, `budget
      ensures containers == if o == Done then old(containers)[id := old(containers)[id].(policy := Applied(flag))]
                            else old(containers)
      ensures o == Refused("invalid_restart_policy") || !o.Refused?
      ensures o.Refused? <==> !ValidFlag(flag)
      ensures ValidFlag(flag) && old(budget) > 0 ==> o == Done && budget == old(budget) - 1
    {
      if !ValidFlag(flag) {
        return Refused("invalid_restart_policy");
      }
      var ok := Spend();
      if !ok {
        return Crashed;
      }
      containers := containers[id := containers[id].(policy := Applied(flag))];
      return Done;
    }

    method SetRunning(id: int, running: bool) returns (o: Outcome)
      requires id in containers
      modifies `containers, `budget
      ensures containers == if o == Done then old(containers)[id := old(containers)[id].(running := running)]
                            else old(containers)
      ensures !o.Refused?
      ensures old(budget) > 0 ==> o == Done && budget == old(budget) - 1
    {
      var ok := Spend();
      if !ok {
        return Crashed;
      }
      containers := containers[id := containers[id].(running := running)];
      return Done;
    }

    function WorkerNames(): set<string>
      requires Sane(source, names)
    {
      set id | id in source.workers :: names[id]
    }

    ghost function Workers(): set<int> {
      set id | id in source.workers
    }

    ghost function Retirable(): set<int>
      reads `services
    {
      if services.Some? then ServiceIds(services.value) else {}
    }

    /** The containers whose lines Manager moves. */
    ghost function Hidden(): set<string>
      reads `services
      requires Sane(source, names)
    {
      HiddenNames(source, names, services)
    }

    ghost predicate Inv()
      reads `file, `pending, `services, `containers, `before, `read, `latest, `removed
    {
      Sane(source, names) &&
      Sound(source, unraid, names, file, pending, services, containers, before, read, latest, removed)
    }

    /** Finishes a pending edit, which leaves the list what it is. */
    method Settle() returns (o: Outcome)
      requires Inv()
      modifies `file, `pending, `budget
      ensures Inv() && !o.Refused? && Text() == old(Text()) && (o == Done ==> pending.None?)
      ensures old(budget) >= |old(Text())| + 2 ==> o == Done && budget >= old(budget) - |old(Text())| - 2
    {
      o := Reconcile(QUIET);
    }

    /** Removes the lines of hidden containers. */
    method RemoveNames(names: set<string>) returns (o: Outcome)
      requires Inv() && names <= Hidden() && (services.Some? ==> unraid)
      modifies `file, `pending, `budget
      ensures Inv() && !o.Refused?
      ensures Text() == old(Text()) || Text() == Remove(old(Text()), names)
      ensures o == Done ==> pending == None && file == Remove(old(Text()), names)
      ensures old(budget) >= EditCost(old(Text()), Remove(old(Text()), names)) ==>
                o == Done && budget >= old(budget) - EditCost(old(Text()), Remove(old(Text()), names))
    {
      o := Rewrite(text => Remove(text, names), QUIET);
      if services.Some? {
        FitsRemove(old(Text()), latest, services.value, Hidden(), names);
      }
    }

    /** Takes each container's restart policy away and stops it. */
    method Halt(ids: seq<int>) returns (o: Outcome)
      requires forall id | id in ids :: id in containers
      modifies `containers, `budget
      ensures !o.Refused? && Untouched(old(containers), containers, set id | id in ids)
      ensures forall id | id in containers :: Halting(old(containers)[id], containers[id])
      ensures o == Done ==> forall id | id in ids :: containers[id] == Container(NEVER, false)
      ensures old(budget) >= 2 * |ids| ==> o == Done && budget >= old(budget) - 2 * |ids|
    {
      for i := 0 to |ids|
        invariant Untouched(old(containers), containers, set id | id in ids)
        invariant forall id | id in containers :: Halting(old(containers)[id], containers[id])
        invariant forall j | 0 <= j < i :: ids[j] in containers && containers[ids[j]] == Container(NEVER, false)
        invariant old(budget) >= 2 * |ids| ==> budget >= old(budget) - 2 * i
      {
        assert ids[i] in ids;
        o := SetPolicy(ids[i], Plain("no"));
        if o != Done {
          return;
        }
        o := SetRunning(ids[i], false);
        if o != Done {
          return;
        }
      }
      return Done;
    }

    // Verifying the fence

    /** No other container that may write the media is running or can start; every answer so far says so. */
    ghost predicate Clear()
      reads `answers
    {
      forall i | 0 <= i < |answers| :: answers[i]
    }

    method AssertMedia() returns (clear: bool)
      modifies `answers
      ensures old(Clear()) ==> clear && Clear()
    {
      if answers == [] {
        return true;
      }
      clear := answers[0];
      answers := answers[1..];
    }

    /** The reviewed containers are unchanged, but for the policies Manager itself sets once it is `fencing`. */
    predicate Reviewed(fencing: bool)
      reads `services, `containers
    {
      revalidates(services, containers, fencing)
    }

    /** The workers are stopped, have no restart policy, and are not on the list. */
    predicate Fenced()
      requires Sane(source, names)
      reads `containers, `file
    {
      WorkersDown(containers) && (unraid ==> Unlisted(file))
    }

    predicate WorkersDown(containers: map<int, Container>) {
      forall id | id in source.workers ::
        id in containers && !containers[id].running && containers[id].policy.name == "no"
    }

    predicate Unlisted(text: string)
      requires Sane(source, names)
    {
      Remove(text, WorkerNames()) == text
    }

    /** Checks the fence, all of which is read from Docker and the list as they are. */
    method Verify() returns (o: Outcome)
      requires Inv()
      modifies `answers
      ensures o == Done ==> Reviewed(true) && Fenced()
      ensures old(Clear()) ==> Clear() && (o == Done <==> Reviewed(true) && Fenced())
    {
      if !Reviewed(true) {
        return Refused("source_changed_review_again");
      }
      var clear := AssertMedia();
      if !clear {
        return Refused("other_media_writer_detected");
      }
      if !WorkersDown(containers) {
        return Refused("source_not_fenced");
      }
      if unraid && Remove(file, WorkerNames()) != file {
        return Refused("source_autostart_enabled");
      }
      return Done;
    }

    /** Revalidation bears Manager's own changes, and what is to be put back lasts. */
    ghost predicate LastingPolicies()
      reads `services
    {
      Stable(source, revalidates) && AllLasting(source, services)
    }

    /** Manager's own changes to its containers keep a reviewed source reviewed. */
    lemma StaysReviewed(services0: Option<seq<Service>>, containers0: map<int, Container>)
      requires Inv() && LastingPolicies()
      requires revalidates(services0, containers0, true)
      requires OwnSince(source, services0, containers0, services, containers)
      ensures Reviewed(true)
    {
      assert StableAt(source, revalidates, services0, containers0, services, containers);
    }

    // Retiring the source's services

    /** Writes the journal entry that recovery works from, before anything else changes. */
    method RecordServices() returns (o: Outcome)
      requires Inv() && services.None?
      modifies `services, `budget, `before, `read, `base, `latest
      ensures Inv() && (o == Done <==> services.Some?)
      ensures o == Done ==>
                && before == containers && base == latest && (unraid ==> read == file && base == Text())
                && |services.value| <= 2 && ServiceIds(services.value) == RetiredIds(source, before)
      ensures source.database in containers && old(budget) > 0 ==> o == Done && budget == old(budget) - 1
    {
      if source.database !in containers {
        return Refused("source_changed_review_again");
      }
      var ok := Spend();
      if !ok {
        return Crashed;
      }
      before := containers;
      read := if unraid then file else "";
      base := if unraid then Text() else "";
      latest := base;
      services := Some(Records(source, names, containers, Split(if unraid then file else "")));
      JournalStarts();
      return Done;
    }

    lemma JournalStarts()
      requires Sane(source, names) && containers.Keys == names.Keys && source.database in containers && !removed
      requires Consistent() && before == containers && (unraid ==> latest == Text())
      requires services == Some(Records(source, names, containers, Split(read)))
      ensures Inv() && |services.value| <= 2
      ensures ServiceIds(services.value) == RetiredIds(source, before)
    {
      RecordsAreRecorded(source, names, containers, read);
    }

    method RemoveServices() returns (o: Outcome)
      requires Inv() && services.Some? && unraid
      modifies `file, `pending, `budget, `removed
      ensures Inv() && !o.Refused? && (old(removed) ==> removed)
      ensures o == Done ==>
                && removed && pending.None? && file == Remove(old(Text()), ServiceNames(services.value))
                && forall s | s in services.value :: LinesOf(file, s.name) == []
      ensures old(budget) >= 2 * |old(Text())| + 5 ==> o == Done && budget >= old(budget) - 2 * |old(Text())| - 5
    {
      var list := services.value;
      RemoveShorter(Text(), ServiceNames(list));
      o := RemoveNames(ServiceNames(list));
      if o == Done {
        forall s | s in list
          ensures LinesOf(file, s.name) == []
        {
          RemoveEffect(old(Text()), ServiceNames(list), s.name, {});
        }
        removed := true;
      }
    }

    method HaltServices() returns (o: Outcome)
      requires Inv() && services.Some?
      modifies `containers, `budget
      ensures Inv() && Untouched(old(containers), containers, Retirable()) && !o.Refused?
      ensures o == Done ==> forall s | s in services.value :: containers[s.id] == Container(NEVER, false)
      ensures old(budget) >= 2 * |services.value| ==> o == Done
    {
      var list := services.value;
      IdsAreServiceIds(list);
      o := Halt(Ids(list));
      HaltedIsSafe(list, old(containers), containers);
    }

    function RetireCost(): nat
      reads `file, `pending, `services
    {
      2 * |Text()| + 6 + 2 * if services.Some? then |services.value| else 2
    }

    /**
     * Retires the source's database and Redis after a verified import. The journal entry is written first and once; the
     * fence is verified before and after.
     */
    method RetireSourceServices() returns (o: Outcome)
      requires Inv()
      modifies `file, `pending, `services, `containers, `answers, `budget, `before, `read, `base, `latest, `removed
      ensures Inv() && (old(removed) ==> removed)
      ensures old(services).Some? ==> SameJournal(old((services, before, read, base, latest)))
      ensures old(services).None? && services.Some? ==>
                && before == old(containers) && base == latest && (unraid ==> read == old(file) && base == old(Text()))
                && ServiceIds(services.value) == RetiredIds(source, before)
      ensures services.None? ==> file == old(file) && pending == old(pending) && containers == old(containers)
      ensures Untouched(old(containers), containers, Retirable())
      ensures o == Done ==>
                services.Some? && (forall s | s in services.value :: containers[s.id] == Container(NEVER, false)) &&
                (unraid ==> removed && pending.None? && forall s | s in services.value :: LinesOf(file, s.name) == [])
      ensures o == Done ==> old(Reviewed(true)) && old(Fenced()) && Reviewed(true) && Fenced()
      ensures (old(Clear()) && old(Reviewed(true)) && old(Fenced()) && (unraid ==> old(Unlisted(Text()))) &&
               source.database in old(containers) && old(budget) >= old(RetireCost())) ==>
                services.Some? && (LastingPolicies() ==> o == Done)
    {
      o := BeginRetire();
      if o != Done {
        return;
      }
      RecordingStaysReviewed(old(services));
      o := FinishRetire();
    }

    /** Recording a service with the policy it has changes nothing that is compared. */
    lemma RecordingStaysReviewed(services0: Option<seq<Service>>)
      requires Inv() && services.Some? && if services0.Some? then services0 == services else before == containers
      ensures revalidates(services0, containers, true) && LastingPolicies() ==> Reviewed(true)
    {
      if revalidates(services0, containers, true) && LastingPolicies() {
        OthersOwn(source, containers, containers);
        StaysReviewed(services0, containers);
      }
    }

    method FinishRetire() returns (o: Outcome)
      requires Inv() && services.Some?
      modifies `file, `pending, `containers, `answers, `budget, `removed
      ensures Inv() && (old(removed) ==> removed)
      ensures Untouched(old(containers), containers, Retirable())
      ensures o == Done ==> forall s | s in services.value :: containers[s.id] == Container(NEVER, false)
      ensures o == Done && unraid ==>
                removed && pending.None? && forall s | s in services.value :: LinesOf(file, s.name) == []
      ensures o == Done ==> Reviewed(true) && Fenced()
      ensures (old(Clear()) && old(Reviewed(true)) && old(WorkersDown(containers)) && LastingPolicies() &&
               (unraid ==> old(Unlisted(Text()))) &&
               old(budget) >= 2 * |old(Text())| + 5 + 2 * |services.value|) ==> o == Done && Clear()
    {
      o := Retire();
      if o != Done {
        return;
      }
      StaysFenced(services, old(containers), old(Text()));
      o := Verify();
    }

    /** What precedes any change of a service: the fence, and the journal entry. */
    method BeginRetire() returns (o: Outcome)
      requires Inv()
      modifies `services, `answers, `budget, `before, `read, `base, `latest
      ensures Inv() && (o == Done ==> services.Some? && old(Reviewed(true)) && old(Fenced()))
      ensures old(services).Some? ==> SameJournal(old((services, before, read, base, latest)))
      ensures old(services).None? && services.Some? ==>
                && before == containers && base == latest && (unraid ==> read == file && base == Text())
                && ServiceIds(services.value) == RetiredIds(source, before) && |services.value| <= 2
      ensures (old(Clear()) && old(Reviewed(true)) && old(Fenced()) && source.database in containers &&
               old(budget) > 0) ==>
                o == Done && Clear() && budget >= old(budget) - 1
    {
      o := Verify();
      if o == Done && services.None? {
        o := RecordServices();
      }
    }

    /** The journal entry and what it was written from. */
    ghost predicate SameJournal(was: (Option<seq<Service>>, map<int, Container>, string, string, string))
      reads `services, `before, `read, `base, `latest
    {
      (services, before, read, base, latest) == was
    }

    /** Takes the recorded services off the list, and stops them for good. */
    method Retire() returns (o: Outcome)
      requires Inv() && services.Some?
      modifies `file, `pending, `containers, `budget, `removed
      ensures Inv() && !o.Refused? && (old(removed) ==> removed)
      ensures Untouched(old(containers), containers, Retirable())
      ensures o == Done ==> forall s | s in services.value :: containers[s.id] == Container(NEVER, false)
      ensures o == Done && unraid ==>
                && removed && pending.None? && file == Remove(old(Text()), ServiceNames(services.value))
                && forall s | s in services.value :: LinesOf(file, s.name) == []
      ensures o == Done && !unraid ==> file == old(file)
      ensures old(budget) >= 2 * |old(Text())| + 5 + 2 * |services.value| ==> o == Done
    {
      if unraid {
        o := RemoveServices();
        if o != Done {
          return;
        }
      }
      o := HaltServices();
    }

    /** A retirement leaves a fence as it was. */
    lemma StaysFenced(services0: Option<seq<Service>>, containers0: map<int, Container>, text0: string)
      requires Inv() && services.Some? && Untouched(containers0, containers, Retirable())
      requires if services0.Some? then services0 == services && forall s | s in services0.value :: Safe(s, containers0)
               else before == containers0
      requires unraid ==> file == Remove(text0, ServiceNames(services.value))
      ensures revalidates(services0, containers0, true) && LastingPolicies() ==> Reviewed(true)
      ensures WorkersDown(containers0) ==> WorkersDown(containers)
      ensures unraid && Unlisted(text0) ==> Unlisted(file)
    {
      ServicesLeaveWorkers(containers0);
      if revalidates(services0, containers0, true) && LastingPolicies() {
        StaysReviewed(services0, containers0);
      }
      if unraid && Unlisted(text0) {
        StaysRemoved(text0, WorkerNames(), ServiceNames(services.value));
      }
    }

    // Recovery

    ghost predicate ServicesBack()
      reads `containers, `services
    {
      services.Some? ==> forall s | s in services.value :: Back(s, containers)
    }

    /** Every recorded line is on the list again and no other line has changed. */
    ghost predicate ListBack()
      requires Sane(source, names)
      reads `file, `pending, `services, `latest
    {
      services.Some? && unraid ==>
        pending.None? && LinesBack(file, latest, services.value) && Others(file, Hidden()) == Others(latest, Hidden())
    }

    /** The recorded services are all there and their policies are ones Docker takes back. */
    ghost predicate Restorable(inventory: set<int>)
      reads `services
    {
      services.Some? ==> forall s | s in services.value :: s.id in inventory && ValidFlag(RestartFlag(s.policy))
    }

    function RestoreCost(text: string): nat
      reads `services
    {
      if services.None? then 0
      else EditCost(text, Restore(text, Lines(services.value))) + 2 * |services.value|
    }

    /** Puts the retired services back; `inventory` is the containers Docker lists. */
    method RestoreSourceServices(inventory: set<int>) returns (o: Outcome)
      requires Inv()
      modifies `file, `pending, `containers, `budget
      ensures Inv() && Untouched(old(containers), containers, Retirable())
      ensures services.None? ==> o == Done && Text() == old(Text()) && containers == old(containers)
      ensures o == Done && services.Some? ==> ServicesBack() && ListBack()
      ensures (o == Done && services.Some? && unraid &&
               (forall s | s in services.value :: LinesOf(old(Text()), s.name) == [])) ==>
                Split(file) == Lines(services.value) + Split(old(Text()))
      ensures Restorable(inventory) && old(budget) >= old(RestoreCost(Text())) ==> o == Done
    {
      if services.None? {
        return Done;
      }
      var list := services.value;
      if unraid {
        o := RestoreLines(list);
        if o != Done {
          return;
        }
      }
      o := StartServices(list, inventory);
    }

    /** Puts the recorded lines back on the list: in the recorded order and above it, where none of them is on it. */
    method RestoreLines(list: seq<Service>) returns (o: Outcome)
      requires Inv() && unraid && services == Some(list)
      modifies `file, `pending, `budget
      ensures Inv() && !o.Refused?
      ensures o == Done ==> ListBack() && file == Restore(old(Text()), Lines(list))
      ensures o == Done && (forall s | s in list :: LinesOf(old(Text()), s.name) == []) ==>
                Split(file) == Lines(list) + Split(old(Text()))
      ensures var cost := EditCost(old(Text()), Restore(old(Text()), Lines(list)));
              old(budget) >= cost ==> o == Done && budget >= old(budget) - cost
    {
      o := Rewrite(text => Restore(text, Lines(list)), QUIET);
      FitsRestore(old(Text()), latest, list, Hidden(), before, read);
      if forall s | s in list :: LinesOf(old(Text()), s.name) == [] {
        RestoreInOrder(old(Text()), list, before, read);
      }
    }

    method StartServices(list: seq<Service>, inventory: set<int>) returns (o: Outcome)
      requires forall s | s in list :: Safe(s, containers)
      requires forall i, j | 0 <= i < j < |list| :: list[i].id != list[j].id
      modifies `containers, `budget
      ensures Untouched(old(containers), containers, ServiceIds(list))
      ensures forall s | s in list :: Safe(s, containers)
      ensures o == Done ==> forall s | s in list :: Back(s, containers)
      ensures (old(budget) >= 2 * |list| &&
               (forall s | s in list :: s.id in inventory && ValidFlag(RestartFlag(s.policy)))) ==> o == Done
    {
      for i := 0 to |list|
        invariant Untouched(old(containers), containers, ServiceIds(list))
        invariant forall s | s in list :: Safe(s, containers)
        invariant forall j | 0 <= j < i :: Back(list[j], containers)
        invariant old(budget) >= 2 * |list| && (forall s | s in list :: ValidFlag(RestartFlag(s.policy))) ==>
                    budget >= old(budget) - 2 * i
      {
        var s := list[i];
        assert s in list && Safe(s, containers);
        if s.id !in inventory {
          return Refused("source_changed_review_again");
        }
        o := Start(s);
        if o != Done {
          return;
        }
      }
      return Done;
    }

    method Start(s: Service) returns (o: Outcome)
      requires Safe(s, containers)
      modifies `containers, `budget
      ensures Safe(s, containers)
      ensures containers == old(containers)[s.id := containers[s.id]]
      ensures o == Done ==> Back(s, containers)
      ensures ValidFlag(RestartFlag(s.policy)) && old(budget) >= 2 ==> o == Done && budget >= old(budget) - 2
    {
      o := SetPolicy(s.id, RestartFlag(s.policy));
      if o == Done && s.running {
        o := SetRunning(s.id, true);
      }
    }

    /** The list without the workers, where there is a list. */
    function Stopped(text: string): string
      requires Sane(source, names)
    {
      if unraid then Remove(text, WorkerNames()) else text
    }

    function StopCost(text: string): nat
      requires Sane(source, names)
    {
      |text| + 3 + EditCost(text, Stopped(text)) + 2 * |source.workers|
    }

    /** Fences the source: its workers leave the list, lose their restart policy and stop. */
    method Stop() returns (o: Outcome)
      requires Inv()
      modifies `file, `pending, `intent, `containers, `answers, `budget
      ensures Inv() && Untouched(old(containers), containers, Workers()) && (old(intent) ==> intent)
      ensures forall id | id in containers :: Halting(old(containers)[id], containers[id])
      ensures Text() == old(Text()) || Text() == Remove(old(Text()), WorkerNames())
      ensures o == Done ==>
                (forall id | id in source.workers :: containers[id] == Container(NEVER, false)) &&
                Text() == Stopped(old(Text())) &&
                (unraid ==> pending.None? && file == Remove(old(Text()), WorkerNames()))
      ensures o == Done ==> intent && Reviewed(true) && Fenced()
      ensures (old(Clear()) && old(intent) && old(Reviewed(true)) && LastingPolicies() &&
               old(budget) >= StopCost(old(Text()))) ==>
                o == Done && Clear() && budget >= old(budget) - StopCost(old(Text()))
    {
      o := BeginStop();
      if o != Done {
        return;
      }
      o := StopWorkers();
      if o != Done {
        return;
      }
      StoppedIsFenced(old(containers), old(Text()));
      o := Verify();
    }

    /** What precedes any change of the source: its review, a settled list, and the journalled intent to fence it. */
    method BeginStop() returns (o: Outcome)
      requires Inv()
      modifies `file, `pending, `intent, `answers, `budget
      ensures Inv() && (old(intent) ==> intent) && Text() == old(Text())
      ensures o == Done ==> pending.None? && intent
      ensures old(Clear()) && old(Reviewed(intent)) && old(budget) >= |old(Text())| + 3 ==>
                o == Done && Clear() && budget >= old(budget) - |old(Text())| - 3
    {
      if !Reviewed(intent) {
        return Refused("source_changed_review_again");
      }
      o := Settle();
      if o != Done {
        return;
      }
      var clear := AssertMedia();
      if !clear {
        return Refused("other_media_writer_detected");
      }
      var ok := Spend();
      if !ok {
        return Crashed;
      }
      intent := true;
    }

    /** A source stopped from a reviewed state is fenced, and still as reviewed. */
    lemma StoppedIsFenced(containers0: map<int, Container>, text0: string)
      requires Inv() && Untouched(containers0, containers, Workers())
      requires forall id | id in containers :: Halting(containers0[id], containers[id])
      requires forall id | id in source.workers :: containers[id] == Container(NEVER, false)
      requires unraid ==> file == Remove(text0, WorkerNames())
      ensures Fenced()
      ensures revalidates(services, containers0, true) && LastingPolicies() ==> Reviewed(true)
    {
      RemoveTwice(text0, WorkerNames());
      if revalidates(services, containers0, true) && LastingPolicies() {
        assert services.Some? ==> forall s | s in services.value :: s.id in containers && s.id !in Workers();
        StaysReviewed(services, containers0);
      }
    }

    method StopWorkers() returns (o: Outcome)
      requires Inv() && pending.None?
      modifies `file, `pending, `containers, `budget
      ensures Inv() && Untouched(old(containers), containers, Workers()) && !o.Refused?
      ensures forall id | id in containers :: Halting(old(containers)[id], containers[id])
      ensures Text() == old(file) || Text() == Remove(old(file), WorkerNames())
      ensures o == Done ==>
                (forall id | id in source.workers :: containers[id] == Container(NEVER, false)) &&
                pending.None? && file == Stopped(old(file))
      ensures var cost := EditCost(old(file), Stopped(old(file))) + 2 * |source.workers|;
              old(budget) >= cost ==> o == Done && budget >= old(budget) - cost
    {
      if unraid {
        o := RemoveNames(WorkerNames());
        if o != Done {
          return;
        }
      }
      o := Halt(source.workers);
    }

    ghost predicate WorkerBack(id: int)
      reads `containers
    {
      id in containers && id in source.restart && containers[id] == Container(PutBack(source.restart[id]), false)
    }

    /** Docker takes the workers' recorded policies back. */
    ghost predicate ValidRestart() {
      forall id | id in source.workers && id in source.restart :: ValidFlag(RestartFlag(source.restart[id]))
    }

    method PutBackWorkers() returns (o: Outcome)
      requires forall id | id in source.workers :: id in containers && id in source.restart && !containers[id].running
      modifies `containers, `budget
      ensures Untouched(old(containers), containers, Workers()) && WorkersOwn(source, old(containers), containers)
      ensures o == Done ==> forall id | id in source.workers :: WorkerBack(id)
      ensures old(budget) >= |source.workers| && ValidRestart() ==>
                o == Done && budget >= old(budget) - |source.workers|
    {
      var ids := source.workers;
      for i := 0 to |ids|
        invariant Untouched(old(containers), containers, Workers()) && WorkersOwn(source, old(containers), containers)
        invariant forall id | id in ids :: !containers[id].running
        invariant forall j | 0 <= j < i :: WorkerBack(ids[j])
        invariant old(budget) >= |ids| ==> budget >= old(budget) - i
      {
        assert ids[i] in ids;
        o := SetPolicy(ids[i], RestartFlag(source.restart[ids[i]]));
        if o != Done {
          return;
        }
      }
      return Done;
    }

    method StopAndVerify() returns (o: Outcome)
      requires Inv()
      modifies `file, `pending, `intent, `containers, `answers, `budget
      ensures Inv() && Untouched(old(containers), containers, Workers()) && (old(intent) ==> intent)
      ensures forall id | id in containers :: Halting(old(containers)[id], containers[id])
      ensures Text() == old(Text()) || Text() == Remove(old(Text()), WorkerNames())
      ensures o == Done ==>
                Text() == Stopped(old(Text())) &&
                forall id | id in source.workers :: containers[id] == Container(NEVER, false)
      ensures (old(Clear()) && old(intent) && old(Reviewed(true)) && LastingPolicies() &&
               old(budget) >= StopCost(old(Text()))) ==>
                o == Done && budget >= old(budget) - StopCost(old(Text()))
    {
      o := Stop();
      if o == Done {
        o := Verify();
      }
    }

    /** Fences the source again, verifies the fence, and gives the stopped workers their restart policies back. */
    method RecoverWorkers() returns (o: Outcome)
      requires Inv()
      modifies `file, `pending, `intent, `containers, `answers, `budget
      ensures Inv() && Untouched(old(containers), containers, Workers()) && (old(intent) ==> intent)
      ensures WorkersOwn(source, old(containers), containers)
      ensures Text() == old(Text()) || Text() == Remove(old(Text()), WorkerNames())
      ensures o == Done ==> Text() == Stopped(old(Text())) && forall id | id in source.workers :: WorkerBack(id)
      ensures (old(Clear()) && old(intent) && old(Reviewed(true)) && LastingPolicies() && ValidRestart() &&
               old(budget) >= StopCost(old(Text())) + |source.workers|) ==>
                o == Done && budget >= old(budget) - StopCost(old(Text())) - |source.workers|
    {
      o := StopAndVerify();
      OthersOwn(source, old(containers), containers);
      if o != Done {
        return;
      }
      ghost var between := containers;
      o := PutBackWorkers();
      WorkersOwnAfter(source, old(containers), between, containers);
    }

    /**
     * Nothing that this model covers stands in the way of recovery: the fence was journalled and its source is as
     * reviewed, the services are there, and their policies are ones that Docker takes and that last.
     */
    ghost predicate Recoverable(inventory: set<int>)
      reads `services, `containers, `intent
    {
      intent && Reviewed(true) && Restorable(inventory) && ValidRestart() && LastingPolicies()
    }

    function RecoveryCost(text: string): nat
      requires Sane(source, names)
      reads `services
    {
      |text| + 2 + StopCost(text) + |source.workers| + RestoreCost(Stopped(text))
    }

    /** Undoes a source's fence and retirement, and leaves the source application stopped for the host to start. */
    method Recover(mayHaveWrittenMedia: bool, inventory: set<int>) returns (o: Outcome)
      requires Inv()
      modifies `file, `pending, `intent, `containers, `answers, `budget
      ensures Inv() && Untouched(old(containers), containers, Workers() + Retirable()) && (old(intent) ==> intent)
      ensures WorkersOwn(source, old(containers), containers)
      ensures mayHaveWrittenMedia ==>
                o == Refused("media_recovery_required_no_automatic_source_restart") &&
                file == old(file) && pending == old(pending) && containers == old(containers)
      ensures services.None? ==> Text() == old(Text()) || Text() == Remove(old(Text()), WorkerNames())
      ensures o == Done ==> ServicesBack() && ListBack() && forall id | id in source.workers :: WorkerBack(id)
      ensures (!mayHaveWrittenMedia && old(Clear()) && old(Recoverable(inventory)) &&
               old(budget) >= RecoveryCost(old(Text()))) ==> o == Done
    {
      if mayHaveWrittenMedia {
        OthersOwn(source, containers, containers);
        return Refused("media_recovery_required_no_automatic_source_restart");
      }
      o := Undo(inventory);
    }

    method Undo(inventory: set<int>) returns (o: Outcome)
      requires Inv()
      modifies `file, `pending, `intent, `containers, `answers, `budget
      ensures Inv() && Untouched(old(containers), containers, Workers() + Retirable()) && (old(intent) ==> intent)
      ensures WorkersOwn(source, old(containers), containers)
      ensures services.None? ==> Text() == old(Text()) || Text() == Remove(old(Text()), WorkerNames())
      ensures o == Done ==> ServicesBack() && ListBack() && forall id | id in source.workers :: WorkerBack(id)
      ensures old(Clear()) && old(Recoverable(inventory)) && old(budget) >= RecoveryCost(old(Text())) ==> o == Done
    {
      OthersOwn(source, containers, containers);
      o := Settle();
      if o != Done {
        return;
      }
      o := RecoverWorkers();
      if o != Done {
        return;
      }
      ghost var between := containers;
      o := RestoreSourceServices(inventory);
      ServicesLeaveWorkers(between);
      WorkersOwnAfter(source, old(containers), between, containers);
    }

    lemma ServicesLeaveWorkers(between: map<int, Container>)
      requires Inv() && Untouched(between, containers, Retirable())
      ensures forall id | id in source.workers :: id in between && containers[id] == between[id]
      ensures WorkersOwn(source, between, containers)
    {
      OthersOwn(source, between, containers);
    }

    // Any number of interrupted runs

    /** What any run leaves as it was: what was journalled, and all but what Manager itself changes. */
    twostate predicate Ran()
      requires Sane(source, names)
      reads this
    {
      && (old(removed) ==> removed) && (old(intent) ==> intent)
      && (old(services).Some? ==> SameJournal(old((services, before, read, base, latest))))
      && (old(services).None? && services.Some? ==>
            before == old(containers) && base == latest && (unraid ==> read == old(file) && base == old(Text())))
      && (services.None? ==>
            Untouched(old(containers), containers, Workers()) && SameBut(Text(), old(Text()), WorkerNames()))
      && Untouched(old(containers), containers, Workers() + Retirable())
      && WorkersOwn(source, old(containers), containers)
    }

    /** One run of retirement or recovery in a process that lives for `attempt.budget` effects. */
    method Run(attempt: Attempt) returns (o: Outcome)
      requires Inv()
      modifies `file, `pending, `intent, `services, `containers, `answers, `budget
      modifies `before, `read, `base, `latest, `removed
      ensures Inv() && Ran()
      ensures o == Done && attempt.recover ==> ServicesBack() && ListBack()
    {
      if attempt.recover {
        o := RunRecovery(attempt);
      } else {
        o := RunRetirement(attempt);
      }
    }

    method RunRecovery(attempt: Attempt) returns (o: Outcome)
      requires Inv()
      modifies `file, `pending, `intent, `containers, `answers, `budget
      ensures Inv() && Ran()
      ensures o == Done ==> ServicesBack() && ListBack()
    {
      budget, answers := attempt.budget, attempt.answers;
      o := Recover(false, attempt.inventory);
      RemoveSameBut(old(Text()), WorkerNames());
    }

    method RunRetirement(attempt: Attempt) returns (o: Outcome)
      requires Inv()
      modifies `file, `pending, `services, `containers, `answers, `budget, `before, `read, `base, `latest, `removed
      ensures Inv() && Ran()
    {
      budget, answers := attempt.budget, attempt.answers;
      o := RetireSourceServices();
      ServicesLeaveWorkers(old(containers));
    }

    /**
     * The containers and the list are as they were at the start, or were when the services were recorded, but for the
     * workers.
     */
    ghost predicate Since(containers0: map<int, Container>, text0: string)
      requires Sane(source, names)
      reads `file, `pending, `services, `containers, `before, `base, `latest
    {
      if services.None? then
        Untouched(containers0, containers, Workers()) && SameBut(Text(), text0, WorkerNames())
      else
        && Untouched(containers0, before, Workers())
        && (unraid ==> base == latest && SameBut(base, text0, WorkerNames()))
    }

    method RunAll(attempts: seq<Attempt>)
      requires Inv()
      modifies `file, `pending, `intent, `services, `containers, `answers, `budget
      modifies `before, `read, `base, `latest, `removed
      ensures Inv() && (old(removed) ==> removed) && (old(intent) ==> intent)
      ensures old(services).Some? ==> SameJournal(old((services, before, read, base, latest)))
      ensures old(services).None? ==> Since(old(containers), old(Text()))
      ensures OwnSince(source, old(services), old(containers), services, containers)
    {
      for i := 0 to |attempts|
        invariant Inv() && (old(removed) ==> removed) && (old(intent) ==> intent)
        invariant old(services).Some? ==> SameJournal(old((services, before, read, base, latest)))
        invariant old(services).None? ==> Since(old(containers), old(Text()))
        invariant Untouched(old(containers), containers, Workers() + Retirable())
        invariant WorkersOwn(source, old(containers), containers)
      {
        var o := Run(attempts[i]);
      }
      OnlyOwn(old(services), old(containers), old(Text()));
    }

    lemma OnlyOwn(services0: Option<seq<Service>>, containers0: map<int, Container>, text0: string)
      requires Inv() && Untouched(containers0, containers, Workers() + Retirable())
      requires WorkersOwn(source, containers0, containers)
      requires if services0.Some? then services == services0 && forall s | s in services0.value :: Safe(s, containers0)
               else Since(containers0, text0)
      ensures OwnSince(source, services0, containers0, services, containers)
    {
      assert Changeable(source, services) == Workers() + Retirable();
    }

    /**
     * From any state before the services are recorded, even with an edit of the list still pending: any number of
     * interrupted retirements and recoveries, in any order, then one recovery that completes. Every retired service
     * has the restart policy and the running state it had at the start, its recorded line is on the list, and every
     * other line is in its place. A service is started as it was at the start if it was read as the list had it, and
     * once a retirement has removed it from the list only if it was.
     */
    method RetireAndRecover(attempts: seq<Attempt>, last: Attempt) returns (o: Outcome)
      requires Inv() && services.None? && last.recover
      modifies `file, `pending, `intent, `services, `containers, `answers, `budget
      modifies `before, `read, `base, `latest, `removed
      ensures Inv()
      ensures services.None? ==>
                Untouched(old(containers), containers, Workers()) && SameBut(Text(), old(Text()), WorkerNames())
      ensures services.Some? && o == Done ==> forall s | s in services.value ::
                s.id in old(containers) && s.id in containers &&
                containers[s.id] == Container(PutBack(old(containers)[s.id].policy), old(containers)[s.id].running)
      ensures services.Some? && o == Done && unraid ==>
                && pending.None? && LinesBack(file, old(Text()), services.value)
                && Others(file, Hidden()) == Others(old(Text()), Hidden())
                && forall s | s in services.value ::
                     (StartedBy(read, s.name) == StartedBy(base, s.name) ==>
                        StartedBy(file, s.name) == StartedBy(old(Text()), s.name)) &&
                     (removed && StartedBy(file, s.name) == StartedBy(old(Text()), s.name) ==>
                        StartedBy(read, s.name) == StartedBy(base, s.name))
    {
      RunAll(attempts);
      o := Run(last);
      if services.Some? && o == Done && unraid {
        ListIsBack(old(Text()));
      }
    }

    /** What a completed recovery says of the list when the services were recorded, it says of the list before that. */
    lemma ListIsBack(text0: string)
      requires Inv() && services.Some? && unraid && ListBack()
      requires base == latest && SameBut(base, text0, WorkerNames())
      ensures LinesBack(file, text0, services.value) && Others(file, Hidden()) == Others(text0, Hidden())
      ensures forall s | s in services.value ::
                (StartedBy(read, s.name) == StartedBy(base, s.name) ==>
                   StartedBy(file, s.name) == StartedBy(text0, s.name)) &&
                (removed && StartedBy(file, s.name) == StartedBy(text0, s.name) ==>
                   StartedBy(read, s.name) == StartedBy(base, s.name))
    {
      var list := services.value;
      SameButOthers(base, text0, WorkerNames(), Hidden());
      SameButLinesBack(file, base, text0, list, WorkerNames());
      forall s | s in list
        ensures StartedBy(read, s.name) == StartedBy(base, s.name) ==>
                  StartedBy(file, s.name) == StartedBy(base, s.name)
        ensures removed && StartedBy(file, s.name) == StartedBy(base, s.name) ==>
                  StartedBy(read, s.name) == StartedBy(base, s.name)
      {
        if StartedBy(read, s.name) == StartedBy(base, s.name) {
          StartedAsRead(file, base, list, before, read, s);
        }
        if removed {
          StartedExactlyAsRead(file, base, list, before, read, s);
        }
      }
    }

    /**
     * A retirement that completes, any number of interrupted runs, and a recovery that completes leave of each service
     * the one line that started it in the file as it was before the retirement, trimmed, and no other. So the service
     * is started as the list started it exactly when the file did so, and the list has the same lines of it as before
     * exactly when it had just that one. File and list differ only while an interrupted edit is pending: a caller can
     * tell before the call.
     */
    method RetireThenRecover(first: Attempt, attempts: seq<Attempt>, last: Attempt) returns (o: Outcome)
      requires Inv() && services.None? && unraid && !first.recover && last.recover
      modifies `file, `pending, `intent, `services, `containers, `answers, `budget
      modifies `before, `read, `base, `latest, `removed
      ensures o == Done ==>
                && services.Some? && ServicesBack() && before == old(containers)
                && ServiceIds(services.value) == RetiredIds(source, before)
                && (forall s | s in services.value :: s.id in names && s.name == names[s.id])
                && pending.None? && Others(file, Hidden()) == Others(old(Text()), Hidden())
      ensures o == Done ==> forall s | s in services.value ::
                && LinesOf(file, s.name) == StartLine(old(file), s.name)
                && (LinesOf(file, s.name) == LinesOf(old(Text()), s.name) <==>
                    LinesOf(old(Text()), s.name) == StartLine(old(file), s.name))
                && (StartedBy(file, s.name) == StartedBy(old(Text()), s.name) <==>
                    StartedBy(old(file), s.name) == StartedBy(old(Text()), s.name))
      ensures o == Done && old(pending).None? ==>
                forall s | s in services.value :: StartedBy(file, s.name) == StartedBy(old(file), s.name)
    {
      budget, answers := first.budget, first.answers;
      o := RetireSourceServices();
      if o != Done {
        return;
      }
      RunAll(attempts);
      o := Run(last);
      if o == Done {
        ListIsBack(old(Text()));
        RecoveredAsRead();
      }
    }

    /**
     * The host may edit the list between runs; `removed` stays only where the edit does not put a service back. An edit
     * over a pending one is not recognised, and refused until someone settles it.
     */
    method HostEdit(edit: string)
      requires Inv() && pending.None?
      modifies `file, `latest, `removed
      ensures Inv() && file == edit && latest == edit
    {
      file := edit;
      latest := edit;
      removed := removed && Removed(edit, services.value);
    }

    /**
     * Whatever was done before, the host's last edit stands: a recovery that completes after it leaves every line of
     * other containers as the host left it, and puts back the recorded line of each service the host left unlisted.
     */
    method RecoverAfterEdit(edit: string, attempts: seq<Attempt>, last: Attempt) returns (o: Outcome)
      requires Inv() && services.Some? && pending.None? && last.recover
      modifies `file, `pending, `intent, `services, `containers, `answers, `budget
      modifies `before, `read, `base, `latest, `removed
      ensures Inv() && services == old(services) && before == old(before)
      ensures o == Done ==> ServicesBack()
      ensures o == Done && unraid ==>
                && pending.None? && Others(file, Hidden()) == Others(edit, Hidden())
                && LinesBack(file, edit, services.value)
    {
      HostEdit(edit);
      RunAll(attempts);
      o := Run(last);
    }

    /** Docker takes the policies of all containers back, they last, and it lists all of them. */
    ghost predicate Ordinary(containers: map<int, Container>, inventory: set<int>) {
      && names.Keys <= inventory && ValidRestart() && AllLasting(source, None) && Stable(source, revalidates)
      && forall id | id in containers :: ValidFlag(RestartFlag(containers[id].policy)) && Lasting(containers[id].policy)
    }

    lemma OrdinaryIsRestorable(containers0: map<int, Container>, inventory: set<int>)
      requires Inv() && services.Some? && Ordinary(containers0, inventory)
      requires Untouched(containers0, before, Workers())
      ensures Restorable(inventory) && LastingPolicies()
    {
      forall s | s in services.value
        ensures s.id in inventory && ValidFlag(RestartFlag(s.policy)) && Lasting(s.policy)
      {
        assert before[s.id] == containers0[s.id];
      }
    }

    /** One retirement and one recovery that run through give every service back exactly as it was read. */
    method RetireAndRecoverOnce(inventory: set<int>) returns (retired: Outcome, recovered: Outcome)
      requires Inv() && services.None? && unraid && source.database in containers && Ordinary(containers, inventory)
      requires intent && Reviewed(true) && Fenced() && Unlisted(Text())
      modifies `file, `pending, `intent, `services, `containers, `answers, `budget
      modifies `before, `read, `base, `latest, `removed
      ensures retired == Done && recovered == Done && services.Some? && ServicesBack()
      ensures ServiceIds(services.value) == RetiredIds(source, old(containers))
      ensures forall s | s in services.value ::
                s.id in names && s.name == names[s.id] && StartedBy(file, s.name) == StartedBy(old(file), s.name)
    {
      retired := RetireInFull(inventory);
      recovered := RecoverInFull(inventory);
      RecoveredAsRead();
    }

    method RetireInFull(inventory: set<int>) returns (o: Outcome)
      requires Inv() && services.None? && unraid && source.database in containers && Ordinary(containers, inventory)
      requires Reviewed(true) && Fenced() && Unlisted(Text())
      modifies `file, `pending, `services, `containers, `answers, `budget, `before, `read, `base, `latest, `removed
      ensures Inv() && o == Done && services.Some? && removed && Reviewed(true)
      ensures before == old(containers) && read == old(file) && Restorable(inventory) && LastingPolicies()
      ensures ServiceIds(services.value) == RetiredIds(source, before)
    {
      budget, answers := RetireCost(), [];
      o := RetireSourceServices();
      OrdinaryIsRestorable(old(containers), inventory);
    }

    /** A recovery that is not interrupted, and that nothing stands in the way of, completes from any state. */
    method RecoverInFull(inventory: set<int>) returns (o: Outcome)
      requires Inv() && Recoverable(inventory)
      modifies `file, `pending, `intent, `containers, `answers, `budget
      ensures Inv() && o == Done && ServicesBack() && ListBack() && forall id | id in source.workers :: WorkerBack(id)
    {
      budget, answers := RecoveryCost(Text()), [];
      o := Recover(false, inventory);
    }

    lemma RecoveredAsRead()
      requires Inv() && services.Some? && removed && ListBack()
      ensures forall s | s in services.value :: StartedBy(file, s.name) == StartedBy(read, s.name)
      ensures forall s | s in services.value :: LinesOf(file, s.name) == StartLine(read, s.name)
    {
      forall s | s in services.value
        ensures StartedBy(file, s.name) == StartedBy(read, s.name)
        ensures LinesOf(file, s.name) == StartLine(read, s.name)
      {
        StartedAsRecorded(file, latest, services.value, before, read, s);
      }
    }

    /**
     * However many runs are interrupted, a recovery that is not completes: its source still revalidates after all of
     * Manager's own changes. Only what is outside is taken for granted: that no other container writes the media.
     */
    method RecoverAfterCrashes(attempts: seq<Attempt>, inventory: set<int>) returns (o: Outcome)
      requires Inv() && Ordinary(containers, inventory) && Recoverable(inventory)
      modifies `file, `pending, `intent, `services, `containers, `answers, `budget
      modifies `before, `read, `base, `latest, `removed
      ensures Inv() && o == Done && ServicesBack() && ListBack() && forall id | id in source.workers :: WorkerBack(id)
    {
      RunAll(attempts);
      if services.Some? && old(services).None? {
        OrdinaryIsRestorable(old(containers), inventory);
      }
      StaysReviewed(old(services), old(containers));
      o := RecoverInFull(inventory);
    }

    /** The same of a source that Docker's listing is compared with: its revalidation bears Manager's own changes. */
    method RecoverReviewed(review: Review, attempts: seq<Attempt>, inventory: set<int>) returns (o: Outcome)
      requires Inv() && revalidates == OfDocker(source, review) && services.None?
      requires Revalidated(source, review, None, containers, true) && intent && names.Keys <= inventory
      requires AllLasting(source, None) && ValidRestart()
      requires forall id | id in containers ::
                 ValidFlag(RestartFlag(containers[id].policy)) && Lasting(containers[id].policy)
      modifies `file, `pending, `intent, `services, `containers, `answers, `budget
      modifies `before, `read, `base, `latest, `removed
      ensures Inv() && o == Done && ServicesBack() && ListBack() && forall id | id in source.workers :: WorkerBack(id)
    {
      OfDockerIsStable(source, review);
      o := RecoverAfterCrashes(attempts, inventory);
    }
  }

  /**
   * In a list still half-written a service's line can be hidden from the reading that records it, though the fence
   * verifies: the retirement and the recovery both complete, and the line is lost.
   */
  method HalfWrittenListLosesLine() returns (f: Fencing, retired: Outcome, recovered: Outcome)
    ensures Remove("w\ndb", {"w"}) == "db" && Torn("w\ndb", "db", 2) == "dbdb"
    ensures Remove("dbdb", {"w"}) == "dbdb" && StartedBy("db", "db") == Some("db")
    ensures retired == Done && recovered == Done && StartedBy(f.file, "db") == None
  {
    HalfWritten();
    HalfWrittenIsInterrupted();
    f, retired, recovered := HiddenLineIsLost("dbdb", "w\ndb", "db");
  }

  /** A line that is hidden in a half-written list is lost, whatever the texts. */
  method HiddenLineIsLost(file: string, was: string, list: string)
    returns (f: Fencing, retired: Outcome, recovered: Outcome)
    requires Interrupted(file, was, list) && Remove(file, {"w"}) == file && Remove(list, {"w"}) == list
    requires StartedBy(file, "db") == None
    ensures retired == Done && recovered == Done && StartedBy(f.file, "db") == None
  {
    var names := map[1 := "w", 2 := "db"];
    var source := Source(2, None, [1], map[1 := NEVER]);
    var containers := map[1 := Container(NEVER, false), 2 := Container(NEVER, true)];
    var review := OneWorkerReview();
    OneWorker(source, review, names, containers);
    OfDockerIsStable(source, review);
    f := new Fencing(source, OfDocker(source, review), true, names, file, Some(Pending(was, list)), true, containers);
    assert f.WorkerNames() == {"w"};
    retired, recovered := f.RetireAndRecoverOnce({1, 2});
    assert 2 in ServiceIds(f.services.value);
  }

  /** A worker and its database as they were reviewed. */
  function OneWorkerReview(): Review {
    var inspected := [Plain(1), Plain(2)];
    Review(false, [1, 2], Discovery.SourceFingerprint(inspected), inspected)
  }

  function Plain(id: int): Discovery.Container {
    Discovery.Container(id, 0, 0, [], NEVER, 0, [])
  }

  lemma OneWorker(source: Source, review: Review, names: map<int, string>, containers: map<int, Container>)
    requires source == Source(2, None, [1], map[1 := NEVER]) && names == map[1 := "w", 2 := "db"]
    requires review == OneWorkerReview()
    requires containers == map[1 := Container(NEVER, false), 2 := Container(NEVER, true)]
    ensures Sane(source, names) && Revalidated(source, review, None, containers, true)
  {
    assert "w"[0] != "db"[0];
    var pinned, all := Pinned(source, review, None), Listing(review.inspected, containers);
    assert all == review.inspected;
    assert Discovery.Lookup(all, 1) == Some(Plain(1));
    assert all[1..] == [Plain(2)] && Discovery.Lookup(all[1..], 2) == Some(Plain(2));
    assert Discovery.Lookup(all, 2) == Some(Plain(2));
    assert Discovery.NormalizedAll(pinned, all, true) == all;
  }

  lemma HalfWrittenIsInterrupted()
    ensures Interrupted("dbdb", "w\ndb", "db")
  {
    assert "dbdb" == Torn("w\ndb", "db", 2);
  }

  lemma HalfWritten()
    ensures Remove("w\ndb", {"w"}) == "db" && Torn("w\ndb", "db", 2) == "dbdb"
    ensures Remove("db", {"w"}) == "db" && Remove("dbdb", {"w"}) == "dbdb"
    ensures StartedBy("db", "db") == Some("db") && StartedBy("dbdb", "db") == None
  {
    Words();
    OneLineKept("db", "w");
    OneLineKept("dbdb", "w");
    WorkerAbove();
  }

  lemma OneLineKept(line: string, name: string)
    requires OneLine(line) && Name(line) != name
    ensures Split(line) == [line] && Remove(line, {name}) == line
  {
    SplitLine(line, "");
    assert Keep([line], {name}) == [line];
  }

  lemma WorkerAbove()
    ensures Remove("w\ndb", {"w"}) == "db"
  {
    Words();
    SplitLine("w", "db");
    SplitLine("db", "");
    assert "w" + "\n" + "db" == "w\ndb";
    KeepConcat(["w"], ["db"], {"w"});
    assert Keep(["w"], {"w"}) == [] && Keep(["db"], {"w"}) == ["db"];
  }

  lemma Words()
    ensures Name("w") == "w" && Name("db") == "db" && Name("dbdb") == "dbdb" && Trim("db") == "db"
  {
    assert "w"[1..] == "" && "db"[1..] == "b" && "b"[1..] == "";
    assert Word("b") == "b" && Word("db") == "db";
    assert "dbdb"[1..] == "bdb" && "bdb"[1..] == "db";
    assert Word("bdb") == "bdb" && Word("dbdb") == "dbdb";
  }
}
