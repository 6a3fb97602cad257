/**
 * Decoded audio buffers, bounded across HTTP lifetimes and native operations that cannot be cancelled.
 *
 * A method is one critical section of the budget's lock, or one unlocked step between two, so an interleaving of
 * threads is a sequence of calls. `http`, `operations` and `phase` say which threads are between which steps.
 */
module AudioMemory {
  import opened Basics

  function Sum(sizes: seq<nat>): nat {
    if sizes == [] then 0 else sizes[0] + Sum(sizes[1..])
  }

  lemma {:induction false} SumAppend(sizes: seq<nat>, size: nat)
    ensures Sum(sizes + [size]) == Sum(sizes) + size
  {
    if sizes == [] {
      assert sizes + [size] == [size];
    } else {
      assert (sizes + [size])[1..] == sizes[1..] + [size];
      SumAppend(sizes[1..], size);
    }
  }

  lemma {:induction false} SumUpdate(sizes: seq<nat>, k: nat, size: nat)
    requires k < |sizes|
    ensures Sum(sizes[k := size]) == Sum(sizes) - sizes[k] + size
  {
    if k == 0 {
      assert sizes[k := size][1..] == sizes[1..];
    } else {
      assert sizes[k := size][1..] == sizes[1..][k - 1 := size];
      SumUpdate(sizes[1..], k - 1, size);
    }
  }

  lemma {:induction false} SumZero(sizes: seq<nat>)
    requires forall i | 0 <= i < |sizes| :: sizes[i] == 0
    ensures Sum(sizes) == 0
  {
    if sizes != [] {
      SumZero(sizes[1..]);
    }
  }

  /** The HTTP owner holds the reservation, has marked it released but not yet left, or has left. */
  datatype Http = Holds | Leaving | Left

  /** After the last owner left: the cleanup is due, has run, has been cleared, and the budget is returned. */
  datatype Phase = Owned | CleanupDue | CleanedUp | Cleared | Returned

  class AudioMemoryReservation {
    const size: nat
    var owners: int
    var released: bool
    var cleanup: bool

    // Where the threads that own this reservation are, and what has been registered and run for it.
    var http: Http
    var operations: nat
    var phase: Phase
    ghost var registered: bool
    ghost var cleanups: nat

    constructor (size: nat)
      ensures Valid() && this.size == size && phase == Owned && http == Holds && operations == 0
      ensures !registered && cleanups == 0
    {
      this.size := size;
      owners := 1;
      released := false;
      cleanup := false;
      http := Holds;
      operations := 0;
      phase := Owned;
      registered := false;
      cleanups := 0;
    }

    ghost predicate Valid()
      reads this
    {
      && owners == operations + (if http == Left then 0 else 1)
      && (released <==> http != Holds)
      && (phase == Owned <==> owners > 0)
      && (cleanup ==> registered)
      && (phase in {Owned, CleanupDue} ==> cleanup == registered)
      && cleanups == (if registered && phase in {CleanedUp, Cleared, Returned} then 1 else 0)
      && (phase in {Cleared, Returned} ==> !cleanup)
    }

    method Leave(isHttp: bool) returns (last: bool)
      requires Valid() && if isHttp then http == Leaving else operations > 0
      modifies `owners, `http, `operations, `phase
      ensures Valid() && owners == old(owners) - 1
      ensures http == (if isHttp then Left else old(http))
      ensures operations == old(operations) - (if isHttp then 0 else 1)
      ensures last <==> operations == 0 && http == Left
      ensures old(phase) == Owned && phase == if last then CleanupDue else Owned
    {
      owners := owners - 1;
      if isHttp {
        http := Left;
      } else {
        operations := operations - 1;
      }
      if owners != 0 {
        return false;
      }
      phase := CleanupDue;
      return true;
    }
  }

  function Rank(phase: Phase): nat {
    match phase
    case Owned => 0
    case CleanupDue => 1
    case CleanedUp => 2
    case Cleared => 3
    case Returned => 4
  }

  /** A reservation only moves on: once released it stays released, and once its last owner left it has none again. */
  twostate predicate Later(r: AudioMemoryReservation)
    reads r
  {
    && (old(r.released) ==> r.released)
    && Rank(old(r.phase)) <= Rank(r.phase)
    && (old(r.owners) == 0 ==> r.owners == 0 && r.operations == 0)
    && old(r.cleanups) <= r.cleanups
    && (old(r.registered) ==> r.registered)
  }

  /** One step of one thread, on the reservation with this number. */
  datatype Event =
    | Reserve(size: int)
    | SetCleanup(k: nat)
    | Release(k: nat)
    | Leave(k: nat)
    | Run(k: nat)
    | Finish(k: nat)
    | Cleanup(k: nat)
    | Clear(k: nat)
    | Return(k: nat)

  class AudioMemoryBudget {
    const limit: nat
    var used: int
    var issued: seq<AudioMemoryReservation>
    ghost var held: seq<nat>

    constructor (limit: nat)
      requires limit > 0
      ensures Valid() && this.limit == limit && used == 0 && issued == []
    {
      this.limit := limit;
      used := 0;
      issued := [];
      held := [];
    }

    /** What is used is the sum of the sizes not returned, and never more than the limit. */
    ghost predicate Valid()
      reads this, issued
    {
      && used == Sum(held) <= limit
      && |held| == |issued|
      && (forall i | 0 <= i < |issued| ::
            issued[i].Valid() && held[i] == if issued[i].phase == Returned then 0 else issued[i].size)
      && (forall i, j | 0 <= i < j < |issued| :: issued[i] != issued[j])
    }

    /** A reservation of `size`, refused when that is not positive or more than is left. */
    method Reserve(size: int) returns (o: Outcome, reservation: AudioMemoryReservation?)
      requires Valid()
      modifies this
      ensures Valid()
      ensures o == if size <= 0 then Refused("Audio reservation must be positive")
                   else if size > limit - old(used) then Refused("ml_worker_busy") else Done
      ensures o == Done <==> reservation != null
      ensures o != Done ==> used == old(used) && issued == old(issued)
      ensures o == Done ==>
                fresh(reservation) && issued == old(issued) + [reservation] && used == old(used) + size &&
                reservation.size == size && reservation.http == Holds && reservation.phase == Owned
    {
      if size <= 0 {
        return Refused("Audio reservation must be positive"), null;
      }
      if size > limit - used {
        return Refused("ml_worker_busy"), null;
      }
      used := used + size;
      reservation := new AudioMemoryReservation(size);
      issued := issued + [reservation];
      held := held + [size];
      SumAppend(old(held), size);
      o := Done;
    }

    /** Registers the cleanup; refused once one is registered or the reservation is released. */
    method SetCleanup(r: AudioMemoryReservation) returns (ok: bool)
      requires Valid() && r in issued
      modifies r
      ensures Valid()
      ensures ok <==> !old(r.released) && !old(r.registered)
      ensures r.registered == (old(r.registered) || ok) && r.cleanup == (old(r.cleanup) || ok)
      ensures r.owners == old(r.owners) && r.released == old(r.released) && r.http == old(r.http)
      ensures r.operations == old(r.operations) && r.phase == old(r.phase) && r.cleanups == old(r.cleanups)
    {
      if r.released || r.cleanup {
        return false;
      }
      r.cleanup := true;
      r.registered := true;
      return true;
    }

    /** Marks the reservation released; true when this caller is the HTTP owner that must now leave. */
    method Release(r: AudioMemoryReservation) returns (leave: bool)
      requires Valid() && r in issued
      modifies r`released, r`http
      ensures Valid() && r.released
      ensures leave <==> old(r.http) == Holds
      ensures r.http == if leave then Leaving else old(r.http)
    {
      if r.released {
        return false;
      }
      r.released := true;
      r.http := Leaving;
      return true;
    }

    /** Starts an operation that owns the reservation; refused once it is released, so it is never revived. */
    method Run(r: AudioMemoryReservation) returns (ok: bool)
      requires Valid() && r in issued
      modifies r`owners, r`operations
      ensures Valid()
      ensures ok <==> !old(r.released)
      ensures r.owners == old(r.owners) + (if ok then 1 else 0)
      ensures r.operations == old(r.operations) + (if ok then 1 else 0)
      ensures ok ==> r.phase == Owned
    {
      if r.released {
        return false;
      }
      r.owners := r.owners + 1;
      r.operations := r.operations + 1;
      return true;
    }

    /** One owner leaves: an operation that ended, or the HTTP owner. True for the last, which then cleans up. */
    method OperationDone(r: AudioMemoryReservation, isHttp: bool) returns (last: bool)
      requires Valid() && r in issued
      requires if isHttp then r.http == Leaving else r.operations > 0
      modifies r`owners, r`http, r`operations, r`phase
      ensures Valid() && r.owners == old(r.owners) - 1
      ensures r.http == (if isHttp then Left else old(r.http))
      ensures r.operations == old(r.operations) - (if isHttp then 0 else 1)
      ensures last <==> r.operations == 0 && r.http == Left
      ensures old(r.phase) == Owned && r.phase == if last then CleanupDue else Owned
    {
      last := r.Leave(isHttp);
    }

    /** The last owner runs the registered cleanup, whether or not it raises. */
    method RunCleanup(r: AudioMemoryReservation) returns (ran: bool)
      requires Valid() && r in issued && r.phase == CleanupDue
      modifies r`phase, r`cleanups
      ensures Valid() && r.phase == CleanedUp
      ensures (ran <==> r.registered) && old(r.cleanups) == 0 && r.cleanups == if ran then 1 else 0
      ensures r.operations == 0 && r.http == Left
    {
      ran := r.cleanup;
      if ran {
        r.cleanups := r.cleanups + 1;
      }
      r.phase := CleanedUp;
    }

    method ClearCleanup(r: AudioMemoryReservation)
      requires Valid() && r in issued && r.phase == CleanedUp
      modifies r`cleanup, r`phase
      ensures Valid() && r.phase == Cleared
    {
      r.cleanup := false;
      r.phase := Cleared;
    }

    method ReturnBudget(r: AudioMemoryReservation)
      requires Valid() && r in issued && r.phase == Cleared
      modifies this, r`phase
      ensures Valid() && issued == old(issued)
      ensures used == old(used) - r.size && r.phase == Returned
    {
      used := used - r.size;
      ghost var k :| 0 <= k < |issued| && issued[k] == r;
      SumUpdate(held, k, 0);
      held := held[k := 0];
      r.phase := Returned;
    }

    /** Once every reservation is returned the whole budget is free again. */
    lemma AllReturned()
      requires Valid() && forall r | r in issued :: r.phase == Returned
      ensures used == 0
    {
      assert forall i | 0 <= i < |issued| :: issued[i] in issued;
      SumZero(held);
    }

    /** One step of any thread; nothing happens when no thread is at that step. */
    method Step(e: Event)
      requires Valid()
      modifies this, issued
      ensures Valid() && old(issued) <= issued && fresh(set r | r in issued && r !in old(issued))
      ensures forall r | r in old(issued) :: Later(r)
    {
      if e.Reserve? {
        var o, r := Reserve(e.size);
      } else if e.k < |issued| {
        var r := issued[e.k];
        if e.Cleanup? {
          if r.phase == CleanupDue { var ran := RunCleanup(r); }
        } else if e.Clear? {
          if r.phase == CleanedUp { ClearCleanup(r); }
        } else if e.Return? {
          if r.phase == Cleared { ReturnBudget(r); }
        } else {
          OwnersStep(r, e);
        }
      }
    }

    /** A step of a thread that owns the reservation, or wants to. */
    method OwnersStep(r: AudioMemoryReservation, e: Event)
      requires Valid() && r in issued && (e.SetCleanup? || e.Release? || e.Run? || e.Leave? || e.Finish?)
      modifies r
      ensures Valid() && Later(r)
    {
      match e
      case SetCleanup(_) => var ok := SetCleanup(r);
      case Release(_) => var leave := Release(r);
      case Run(_) => var ok := Run(r);
      case Leave(_) => if r.http == Leaving { var last := OperationDone(r, true); }
      case Finish(_) => if r.operations > 0 { var last := OperationDone(r, false); }
    }

    /**
     * In every interleaving the budget holds: what is used is what is not returned, no reservation that lost its
     * last owner gets another, and each is cleaned up and returned at most once, in that order.
     */
    method Interleave(schedule: seq<Event>)
      requires Valid()
      modifies this, issued
      ensures Valid() && old(issued) <= issued
      ensures forall r | r in old(issued) :: Later(r)
    {
      for i := 0 to |schedule|
        invariant Valid() && old(issued) <= issued && fresh(set r | r in issued && r !in old(issued))
        invariant forall r | r in old(issued) :: Later(r)
      {
        Step(schedule[i]);
      }
    }
  }
}
