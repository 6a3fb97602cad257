/**
 * Admission to the native inference threads: a call holds a slot until its work has really ended, even after the
 * HTTP request it came from was cancelled.
 *
 * A method is one atomic action of one thread: taking a slot, counting the call, handing it to the pool, and, in the
 * callback of its future, counting it out and giving the slot back.
 */
module InferenceExecution {
  /** Where an admitted call stands; `Working` is queued in the pool or running in one of its threads. */
  datatype Phase = Admitted | Counted | Working | Ended | Uncounted | Released

  const HOLDING := {Admitted, Counted, Working, Ended, Uncounted}
  const PENDING := {Counted, Working, Ended}

  function Count(calls: seq<Phase>, phases: set<Phase>): nat {
    if calls == [] then 0 else (if calls[0] in phases then 1 else 0) + Count(calls[1..], phases)
  }

  lemma {:induction false} CountAppend(calls: seq<Phase>, phase: Phase, phases: set<Phase>)
    ensures Count(calls + [phase], phases) == Count(calls, phases) + if phase in phases then 1 else 0
  {
    if calls == [] {
      assert calls + [phase] == [phase];
    } else {
      assert (calls + [phase])[1..] == calls[1..] + [phase];
      CountAppend(calls[1..], phase, phases);
    }
  }

  lemma {:induction false} CountUpdate(calls: seq<Phase>, k: nat, phase: Phase, phases: set<Phase>)
    requires k < |calls|
    ensures Count(calls[k := phase], phases) ==
            Count(calls, phases) - (if calls[k] in phases then 1 else 0) + if phase in phases then 1 else 0
  {
    if k == 0 {
      assert calls[k := phase][1..] == calls[1..];
    } else {
      assert calls[k := phase][1..] == calls[1..][k - 1 := phase];
      CountUpdate(calls[1..], k - 1, phase, phases);
    }
  }

  lemma {:induction false} CountMore(calls: seq<Phase>, few: set<Phase>, many: set<Phase>)
    requires few <= many
    ensures Count(calls, few) <= Count(calls, many)
  {
    if calls != [] {
      CountMore(calls[1..], few, many);
    }
  }

  lemma {:induction false} CountNone(calls: seq<Phase>, phases: set<Phase>)
    ensures Count(calls, phases) == 0 <==> forall i | 0 <= i < |calls| :: calls[i] !in phases
  {
    if calls != [] {
      CountNone(calls[1..], phases);
      assert forall i | 0 <= i < |calls| - 1 :: calls[1..][i] == calls[i + 1];
      assert forall i | 1 <= i < |calls| :: calls[i] == calls[1..][i - 1];
    }
  }

  datatype Event =
    | Submit
    | CountIn(k: nat)
    | Enqueue(k: nat, accepted: bool)
    | Finish(k: nat)
    | CountOut(k: nat)
    | GiveBack(k: nat)

  class InferenceExecutor {
    const maxWorkers: nat
    var slots: int
    var pending: int
    var calls: seq<Phase>

    constructor (maxWorkers: nat)
      ensures Valid() && this.maxWorkers == maxWorkers && calls == []
    {
      this.maxWorkers := maxWorkers;
      slots := maxWorkers;
      pending := 0;
      calls := [];
    }

    /** Every slot is free or held by one call, and the counter is the number of counted calls. */
    ghost predicate Valid()
      reads this
    {
      0 <= slots && slots + Count(calls, HOLDING) == maxWorkers && pending == Count(calls, PENDING)
    }

    /**
     * No more calls are in the pool than it has threads, the semaphore never goes above its bound, the executor is
     * busy while any call is in the pool, and once all have left it is idle with every slot free.
     */
    lemma Admission()
      requires Valid()
      ensures Count(calls, {Working}) <= pending <= maxWorkers && slots <= maxWorkers
      ensures pending == 0 ==> Working !in calls
      ensures (forall i | 0 <= i < |calls| :: calls[i] == Released) <==> slots == maxWorkers
      ensures slots == maxWorkers ==> pending == 0
    {
      CountMore(calls, {Working}, PENDING);
      CountMore(calls, PENDING, HOLDING);
      CountNone(calls, PENDING);
      CountNone(calls, HOLDING);
    }

    method Busy() returns (busy: bool)
      requires Valid()
      ensures Working in calls ==> busy
      ensures busy <==> exists i :: 0 <= i < |calls| && calls[i] in PENDING
    {
      CountNone(calls, PENDING);
      busy := pending > 0;
    }

    /** Takes a slot without waiting; refused exactly when every slot is held. */
    method Acquire() returns (admitted: bool)
      requires Valid()
      modifies this
      ensures Valid()
      ensures admitted <==> Count(old(calls), HOLDING) < maxWorkers
      ensures calls == old(calls) + (if admitted then [Admitted] else []) && pending == old(pending)
    {
      if slots == 0 {
        return false;
      }
      slots := slots - 1;
      CountAppend(calls, Admitted, HOLDING);
      CountAppend(calls, Admitted, PENDING);
      calls := calls + [Admitted];
      return true;
    }

    /** Counts the admitted call; `busy` is true from here on. */
    method CountIn(k: nat)
      requires Valid() && k < |calls| && calls[k] == Admitted
      modifies `pending, `calls
      ensures Valid() && calls == old(calls)[k := Counted] && pending == old(pending) + 1
    {
      CountUpdate(calls, k, Counted, HOLDING);
      CountUpdate(calls, k, Counted, PENDING);
      pending := pending + 1;
      calls := calls[k := Counted];
    }

    /** Hands the call to the pool; when the pool does not take it, the call has ended already. */
    method Enqueue(k: nat, accepted: bool)
      requires Valid() && k < |calls| && calls[k] == Counted
      modifies `calls
      ensures Valid() && calls == old(calls)[k := if accepted then Working else Ended]
    {
      var to := if accepted then Working else Ended;
      CountUpdate(calls, k, to, HOLDING);
      CountUpdate(calls, k, to, PENDING);
      calls := calls[k := to];
    }

    /** The native work returns, whatever became of the request; only now its callback can run. */
    method Finish(k: nat)
      requires Valid() && k < |calls| && calls[k] == Working
      modifies `calls
      ensures Valid() && calls == old(calls)[k := Ended]
    {
      CountUpdate(calls, k, Ended, HOLDING);
      CountUpdate(calls, k, Ended, PENDING);
      calls := calls[k := Ended];
    }

    method CountOut(k: nat)
      requires Valid() && k < |calls| && calls[k] == Ended
      modifies `pending, `calls
      ensures Valid() && calls == old(calls)[k := Uncounted] && pending == old(pending) - 1 >= 0
    {
      CountUpdate(calls, k, Uncounted, HOLDING);
      CountUpdate(calls, k, Uncounted, PENDING);
      pending := pending - 1;
      calls := calls[k := Uncounted];
    }

    /** Gives the slot back, which the bounded semaphore takes: it is never above its bound. */
    method GiveBack(k: nat)
      requires Valid() && k < |calls| && calls[k] == Uncounted
      modifies `slots, `calls
      ensures Valid() && calls == old(calls)[k := Released] && slots == old(slots) + 1 <= maxWorkers
    {
      CountUpdate(calls, k, Released, HOLDING);
      CountUpdate(calls, k, Released, PENDING);
      slots := slots + 1;
      calls := calls[k := Released];
    }

    method Step(e: Event)
      requires Valid()
      modifies this
      ensures Valid() && |old(calls)| <= |calls|
      ensures forall i | 0 <= i < |old(calls)| :: Rank(old(calls)[i]) <= Rank(calls[i])
    {
      match e
      case Submit => var admitted := Acquire();
      case CountIn(k) => if k < |calls| && calls[k] == Admitted { CountIn(k); }
      case Enqueue(k, accepted) => if k < |calls| && calls[k] == Counted { Enqueue(k, accepted); }
      case Finish(k) => if k < |calls| && calls[k] == Working { Finish(k); }
      case CountOut(k) => if k < |calls| && calls[k] == Ended { CountOut(k); }
      case GiveBack(k) => if k < |calls| && calls[k] == Uncounted { GiveBack(k); }
    }

    /** In every interleaving the counts hold, and no call gives its slot back twice. */
    method Interleave(schedule: seq<Event>)
      requires Valid()
      modifies this
      ensures Valid() && |old(calls)| <= |calls|
      ensures forall i | 0 <= i < |old(calls)| :: Rank(old(calls)[i]) <= Rank(calls[i])
    {
      for n := 0 to |schedule|
        invariant Valid() && |old(calls)| <= |calls|
        invariant forall i | 0 <= i < |old(calls)| :: Rank(old(calls)[i]) <= Rank(calls[i])
      {
        Step(schedule[n]);
      }
    }
  }

  function Rank(phase: Phase): nat {
    match phase
    case Admitted => 0
    case Counted => 1
    case Working => 2
    case Ended => 3
    case Uncounted => 4
    case Released => 5
  }
}
