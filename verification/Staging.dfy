/**
 * Staging a model's files beside its cache: refreshing and rolling back by renaming whole trees.
 *
 * `faults` says how each rename or deletion goes, in order: it works, raises an OS error, or the process dies there.
 */
module Staging {
  import opened Basics

  datatype File = File(top: string, rest: string)

  /** A cache directory: the digest of each file, and the receipt written when it was staged. */
  datatype Tree = Tree(files: map<File, nat>, receipt: Option<map<File, nat>>)

  datatype Slot = Active | Previous | Swap | Unverified
  datatype Fault = Works | Fails | Dies

  /** The receipt is there and still says what the files are. */
  predicate Verified(tree: Tree) {
    tree.receipt.Some? && tree.receipt.value != map[] && tree.receipt.value == tree.files
  }

  predicate VerifiedAt(dirs: map<Slot, Tree>, slot: Slot) {
    slot in dirs && Verified(dirs[slot])
  }

  const EMPTY := Tree(map[], None)

  /** The downloaded files, and what a verified active cache holds for the model's other types, with its receipt. */
  function Candidate(fetched: map<File, nat>, active: Option<Tree>, otherTypes: set<string>): Tree {
    var files :=
      if active.Some? && Verified(active.value) then
        (map f | f in active.value.files && f.top in otherTypes :: active.value.files[f]) + fetched
      else fetched;
    Tree(files, Some(files))
  }

  /** One staging command: a rollback, or an acquisition with what the download produced. */
  datatype Command =
    | Rollback
    | Acquire(refresh: bool, cached: bool, fetched: Option<map<File, nat>>, otherTypes: set<string>)

  /** What an acquisition stages beside this active cache, if there is one. */
  function Staged(command: Command, dirs: map<Slot, Tree>): Tree
    requires command.Acquire? && command.fetched.Some?
  {
    Candidate(command.fetched.value, if Active in dirs then Some(dirs[Active]) else None, command.otherTypes)
  }

  predicate Holds(dirs: map<Slot, Tree>, slot: Slot, tree: Tree) {
    slot in dirs && dirs[slot] == tree
  }

  predicate Somewhere(tree: Tree, dirs: map<Slot, Tree>) {
    Holds(dirs, Active, tree) || Holds(dirs, Previous, tree) || Holds(dirs, Swap, tree) || Holds(dirs, Unverified, tree)
  }

  /** The tree is where no acquisition deletes it: anywhere, but at `Previous` only while nothing is active. */
  predicate Safe(tree: Tree, dirs: map<Slot, Tree>) {
    Somewhere(tree, dirs) && (Holds(dirs, Previous, tree) && Active in dirs ==>
      Holds(dirs, Active, tree) || Holds(dirs, Swap, tree) || Holds(dirs, Unverified, tree))
  }

  class Staging {
    var dirs: map<Slot, Tree>
    var faults: seq<Fault>

    constructor (dirs: map<Slot, Tree>)
      ensures this.dirs == dirs
    {
      this.dirs := dirs;
      faults := [];
    }

    method Next() returns (fault: Fault)
      modifies `faults
      ensures old(faults) == [] ==> fault == Works && faults == []
      ensures old(faults) != [] ==> fault == old(faults)[0] && faults == old(faults)[1..]
    {
      if faults == [] {
        return Works;
      }
      fault := faults[0];
      faults := faults[1..];
    }

    /** Renames one tree. A directory is never renamed over another, unless that one is empty. */
    method Rename(from: Slot, to: Slot) returns (o: Outcome)
      requires from != to
      modifies `dirs, `faults
      ensures o == Done ==>
                from in old(dirs) && (to in old(dirs) ==> old(dirs)[to] == EMPTY) &&
                dirs == (old(dirs) - {from})[to := old(dirs)[from]]
      ensures o != Done ==> dirs == old(dirs)
      ensures old(faults) == [] ==> faults == [] && o != Crashed
      ensures old(faults) == [] && from in old(dirs) && to !in old(dirs) ==> o == Done
    {
      var fault := Next();
      if fault == Dies {
        return Crashed;
      }
      if fault == Fails || from !in dirs || (to in dirs && dirs[to] != EMPTY) {
        return Refused("os_error");
      }
      dirs := (dirs - {from})[to := dirs[from]];
      return Done;
    }

    /** Moves the finished candidate into place. */
    method Place(candidate: Tree) returns (o: Outcome)
      modifies `dirs, `faults
      ensures o == Done ==>
                (Active in old(dirs) ==> old(dirs)[Active] == EMPTY) && dirs == old(dirs)[Active := candidate]
      ensures o != Done ==> dirs == old(dirs)
      ensures old(faults) == [] ==> faults == [] && o != Crashed && (Active !in old(dirs) ==> o == Done)
    {
      var fault := Next();
      if fault == Dies {
        return Crashed;
      }
      if fault == Fails || (Active in dirs && dirs[Active] != EMPTY) {
        return Refused("os_error");
      }
      dirs := dirs[Active := candidate];
      return Done;
    }

    /** Deletes the previous tree; a deletion that does not finish leaves `remains` of it. */
    method Delete(remains: Tree) returns (o: Outcome)
      requires Previous in dirs
      modifies `dirs, `faults
      ensures dirs == if o == Done then old(dirs) - {Previous} else old(dirs)[Previous := remains]
      ensures old(faults) == [] ==> faults == [] && o == Done
    {
      var fault := Next();
      if fault != Works {
        dirs := dirs[Previous := remains];
        return if fault == Dies then Crashed else Refused("os_error");
      }
      dirs := dirs - {Previous};
      return Done;
    }

    /** Swaps the previous tree in. Nothing is deleted: every tree is still somewhere, wherever it stops. */
    method RollBack() returns (o: Outcome)
      modifies `dirs, `faults
      ensures o == Done ==>
                VerifiedAt(old(dirs), Previous) && Swap !in old(dirs) &&
                dirs == if Active in old(dirs) then
                          old(dirs)[Active := old(dirs)[Previous]][Previous := old(dirs)[Active]]
                        else (old(dirs) - {Previous})[Active := old(dirs)[Previous]]
      ensures forall tree | Somewhere(tree, old(dirs)) :: Somewhere(tree, dirs)
      ensures forall tree | Safe(tree, old(dirs)) && o != Done :: Safe(tree, dirs)
      ensures old(faults) == [] && VerifiedAt(old(dirs), Previous) && Swap !in old(dirs) ==> o == Done && faults == []
    {
      if Swap in dirs {
        return Refused("An interrupted rollback needs recovery before staging");
      }
      if !VerifiedAt(dirs, Previous) {
        return Refused("Model cache is absent, incomplete or changed");
      }
      var hadActive := Active in dirs;
      if hadActive {
        o := Rename(Active, Swap);
        if o != Done {
          return;
        }
      }
      o := Rename(Previous, Active);
      if o != Done {
        if o.Refused? && hadActive {
          var undone := Rename(Swap, Active);
          if undone == Crashed {
            o := Crashed;
          }
        }
        return;
      }
      if hadActive {
        o := Rename(Swap, Previous);
      }
    }

    /** Sets the active tree aside: as the previous one when it verifies, as the unverified one when it does not. */
    method SetAside(remains: Tree) returns (o: Outcome, backup: Slot)
      requires Active in dirs
      modifies `dirs, `faults
      ensures backup == if Verified(old(dirs)[Active]) then Previous else Unverified
      ensures o == Done ==> Active !in dirs && Holds(dirs, backup, old(dirs)[Active])
      ensures o == Done && backup == Unverified ==> Unverified !in old(dirs)
      ensures o != Done ==> Holds(dirs, Active, old(dirs)[Active])
      ensures Swap in old(dirs) ==> Holds(dirs, Swap, old(dirs)[Swap])
      ensures Unverified in old(dirs) ==> Holds(dirs, Unverified, old(dirs)[Unverified])
      ensures Swap in dirs ==> Swap in old(dirs)
      ensures Previous in old(dirs) && !Holds(dirs, Previous, old(dirs)[Previous]) ==>
                Verified(old(dirs)[Previous]) && Verified(old(dirs)[Active])
      ensures (old(faults) == [] && Verified(old(dirs)[Active]) &&
               (Previous in old(dirs) ==> Verified(old(dirs)[Previous]))) ==>
                o == Done && faults == [] && dirs == (old(dirs) - {Active})[Previous := old(dirs)[Active]]
    {
      backup := Previous;
      if !Verified(dirs[Active]) {
        backup := Unverified;
        if Unverified in dirs {
          return Refused("Preserve the existing unverified cache before staging again"), backup;
        }
      }
      if backup == Previous && Previous in dirs {
        if !Verified(dirs[Previous]) {
          return Refused("Model cache is absent, incomplete or changed"), backup;
        }
        o := Delete(remains);
        if o != Done {
          return;
        }
      }
      o := Rename(Active, backup);
    }

    /** Puts a verified candidate in the place of the active tree, which is set aside, and put back if that fails. */
    method Replace(candidate: Tree, remains: Tree) returns (o: Outcome)
      requires Swap !in dirs && Verified(candidate)
      modifies `dirs, `faults
      ensures Swap !in dirs
      ensures Active in old(dirs) ==> Somewhere(old(dirs)[Active], dirs)
      ensures Unverified in old(dirs) ==> Holds(dirs, Unverified, old(dirs)[Unverified])
      ensures Previous in old(dirs) && !Holds(dirs, Previous, old(dirs)[Previous]) ==>
                VerifiedAt(old(dirs), Previous) && VerifiedAt(old(dirs), Active)
      ensures o != Done && Previous in old(dirs) && Active !in old(dirs) ==> dirs == old(dirs)
      ensures o != Done && Active in old(dirs) ==> Safe(old(dirs)[Active], dirs)
      ensures o == Done ==>
                Holds(dirs, Active, candidate) &&
                (Active in old(dirs) ==>
                   Holds(dirs, if VerifiedAt(old(dirs), Active) then Previous else Unverified, old(dirs)[Active]))
      ensures (old(faults) == [] && VerifiedAt(old(dirs), Active) &&
               (Previous in old(dirs) ==> VerifiedAt(old(dirs), Previous))) ==>
                o == Done && faults == [] && dirs == old(dirs)[Previous := old(dirs)[Active]][Active := candidate]
    {
      var hadActive := Active in dirs;
      var backup := Previous;
      if hadActive {
        o, backup := SetAside(remains);
        if o != Done {
          return;
        }
      }
      o := Place(candidate);
      if o.Refused? && hadActive {
        var undone := Rename(backup, Active);
        if undone == Crashed {
          o := Crashed;
        }
      }
    }

    /**
     * Acquires the model beside the active cache and puts it in its place. The active tree that was there is kept; the
     * only tree ever deleted is a previous one that verified while the active one did too.
     */
    method Acquire(command: Command, remains: Tree) returns (o: Outcome)
      requires command.Acquire?
      modifies `dirs, `faults
      ensures Active in old(dirs) ==> Somewhere(old(dirs)[Active], dirs)
      ensures Swap in old(dirs) ==> Holds(dirs, Swap, old(dirs)[Swap])
      ensures Unverified in old(dirs) ==> Holds(dirs, Unverified, old(dirs)[Unverified])
      ensures Previous in old(dirs) && !Holds(dirs, Previous, old(dirs)[Previous]) ==>
                VerifiedAt(old(dirs), Previous) && VerifiedAt(old(dirs), Active)
      ensures Swap in dirs ==> Swap in old(dirs)
      ensures forall tree | Safe(tree, old(dirs)) && o != Done :: Safe(tree, dirs)
      ensures forall tree | Safe(tree, old(dirs)) :: Somewhere(tree, dirs)
      ensures o == Done ==> VerifiedAt(dirs, Active)
      ensures o == Done && dirs != old(dirs) ==>
                command.fetched.Some? && dirs[Active] == Staged(command, old(dirs)) &&
                (Active in old(dirs) ==>
                   Holds(dirs, if VerifiedAt(old(dirs), Active) then Previous else Unverified, old(dirs)[Active]))
      ensures (old(faults) == [] && command.refresh && command.fetched.Some? && command.fetched.value != map[] &&
               Swap !in old(dirs) && VerifiedAt(old(dirs), Active) &&
               (Previous in old(dirs) ==> VerifiedAt(old(dirs), Previous))) ==>
                o == Done && faults == [] &&
                dirs == old(dirs)[Previous := old(dirs)[Active]][Active := Staged(command, old(dirs))]
    {
      if Swap in dirs {
        return Refused("An interrupted rollback needs recovery before staging");
      }
      if !command.refresh && command.cached && Active in dirs && dirs[Active].receipt.Some? {
        return if Verified(dirs[Active]) then Done else Refused("Model cache is absent, incomplete or changed");
      }
      if command.fetched.None? {
        return Refused("Model staging did not produce a complete model");
      }
      var candidate := Staged(command, dirs);
      if !Verified(candidate) {
        return Refused("Model cache is absent, incomplete or changed");
      }
      o := Replace(candidate, remains);
    }

    method StageModel(command: Command, remains: Tree) returns (o: Outcome)
      modifies `dirs, `faults
      ensures forall tree | Safe(tree, old(dirs)) && o != Done :: Safe(tree, dirs)
      ensures forall tree | Safe(tree, old(dirs)) :: Somewhere(tree, dirs)
    {
      if command.Rollback? {
        o := RollBack();
      } else {
        o := Acquire(command, remains);
      }
    }

    /** However many commands fail or die in a row, and even when the next one completes, no active tree is lost. */
    method StageUntilDone(attempts: seq<(Command, seq<Fault>, Tree)>) returns (o: Outcome)
      modifies `dirs, `faults
      ensures Active in old(dirs) ==> Somewhere(old(dirs)[Active], dirs)
    {
      o := Crashed;
      for i := 0 to |attempts|
        invariant Active in old(dirs) ==> Safe(old(dirs)[Active], dirs)
      {
        faults := attempts[i].1;
        o := StageModel(attempts[i].0, attempts[i].2);
        if o == Done {
          return;
        }
      }
    }

    /** A refresh of a verified active tree, rolled back, leaves that tree active and the new one previous. */
    method RefreshAndRollBack(fetched: map<File, nat>, otherTypes: set<string>) returns (o: Outcome)
      requires VerifiedAt(dirs, Active) && Swap !in dirs && (Previous in dirs ==> VerifiedAt(dirs, Previous))
      requires fetched != map[]
      modifies `dirs, `faults
      ensures o == Done && dirs == old(dirs)[Previous := Candidate(fetched, Some(old(dirs)[Active]), otherTypes)]
    {
      faults := [];
      o := Acquire(Command.Acquire(true, false, Some(fetched), otherTypes), EMPTY);
      o := RollBack();
    }

    /** Rolling back twice changes nothing when both trees verify. */
    method RollBackTwice() returns (o: Outcome)
      requires VerifiedAt(dirs, Active) && VerifiedAt(dirs, Previous) && Swap !in dirs
      modifies `dirs, `faults
      ensures o == Done && dirs == old(dirs)
    {
      faults := [];
      o := RollBack();
      o := RollBack();
    }
  }
}
