/** The bridge's sliding-window limits on authentication actions: per account for credentials, and over all. */
module RateLimit {

  const ACCOUNT_LIMIT := 10
  const GLOBAL_LIMIT := 300
  const WINDOW := 60_000_000_000

  /** The times after `cutoff`, in order. */
  function Recent(times: seq<int>, cutoff: int): seq<int> {
    if times == [] then []
    else
      var rest := Recent(times[..|times| - 1], cutoff);
      if times[|times| - 1] > cutoff then rest + [times[|times| - 1]] else rest
  }

  /** The same filter in place: the kept times are moved to the front of the slice, over those it drops. */
  method RecentAttempts(times: array<int>, length: nat, cutoff: int) returns (kept: nat)
    requires length <= times.Length
    modifies times
    ensures kept <= length && times[..kept] == Recent(old(times[..length]), cutoff)
    ensures times[length..] == old(times[length..])
  {
    kept := 0;
    for i := 0 to length
      invariant kept <= i
      invariant times[..kept] == Recent(old(times[..i]), cutoff)
      invariant forall j | i <= j < times.Length :: times[j] == old(times[j])
    {
      assert old(times[..i + 1])[..i] == old(times[..i]);
      if times[i] > cutoff {
        times[kept] := times[i];
        kept := kept + 1;
      }
    }
  }

  // Filtering and windows

  lemma {:induction false} RecentAgain(times: seq<int>, earlier: int, later: int)
    requires earlier <= later
    ensures Recent(Recent(times, earlier), later) == Recent(times, later)
  {
    if times != [] {
      var last := times[|times| - 1];
      RecentAgain(times[..|times| - 1], earlier, later);
      if last > earlier {
        var rest := Recent(times[..|times| - 1], earlier);
        assert (rest + [last])[..|rest|] == rest;
      }
    }
  }

  lemma RecentAppend(times: seq<int>, cutoff: int, time: int)
    ensures Recent(times + [time], cutoff) == Recent(times, cutoff) + if time > cutoff then [time] else []
  {
    assert (times + [time])[..|times|] == times;
  }

  lemma {:induction false} RecentFewer(times: seq<int>, earlier: int, later: int)
    requires earlier <= later
    ensures |Recent(times, later)| <= |Recent(times, earlier)|
  {
    if times != [] {
      RecentFewer(times[..|times| - 1], earlier, later);
    }
  }

  predicate Ascending(times: seq<int>) {
    forall i, j | 0 <= i < j < |times| :: times[i] <= times[j]
  }

  /** How many times fall in the window that opens just after `start` and is one window long. */
  function InWindow(times: seq<int>, start: int): nat {
    if times == [] then 0
    else InWindow(times[..|times| - 1], start) + if start < times[|times| - 1] <= start + WINDOW then 1 else 0
  }

  lemma {:induction false} WindowIsRecent(times: seq<int>, start: int)
    requires forall i | 0 <= i < |times| :: times[i] <= start + WINDOW
    ensures InWindow(times, start) == |Recent(times, start)|
  {
    if times != [] {
      WindowIsRecent(times[..|times| - 1], start);
    }
  }

  /** Time `k` was admitted while fewer than `limit` others were within one window before it. */
  predicate LimitedAt(times: seq<int>, limit: nat, k: nat)
    requires k < |times|
  {
    |Recent(times[..k], times[k] - WINDOW)| < limit
  }

  predicate Limited(times: seq<int>, limit: nat) {
    forall k | 0 <= k < |times| :: LimitedAt(times, limit, k)
  }

  lemma LimitedAppend(times: seq<int>, limit: nat, time: int)
    requires Limited(times, limit) && |Recent(times, time - WINDOW)| < limit
    ensures Limited(times + [time], limit)
  {
    var all := times + [time];
    forall k | 0 <= k < |all|
      ensures LimitedAt(all, limit, k)
    {
      if k < |times| {
        assert all[..k] == times[..k];
        assert LimitedAt(times, limit, k);
      } else {
        assert all[..k] == times;
      }
    }
  }

  lemma LimitedRest(times: seq<int>, limit: nat)
    requires times != [] && Limited(times, limit)
    ensures Limited(times[..|times| - 1], limit)
  {
    var rest := times[..|times| - 1];
    forall k | 0 <= k < |rest|
      ensures LimitedAt(rest, limit, k)
    {
      assert rest[..k] == times[..k] && LimitedAt(times, limit, k);
    }
  }

  /** So no window of that length anywhere holds more than `limit`. */
  lemma {:induction false} EveryWindow(times: seq<int>, limit: nat, start: int)
    requires Ascending(times) && Limited(times, limit)
    ensures InWindow(times, start) <= limit
  {
    if times != [] {
      var n := |times| - 1;
      var last, rest := times[n], times[..n];
      if last > start + WINDOW {
        LimitedRest(times, limit);
        EveryWindow(rest, limit, start);
      } else {
        WindowIsRecent(rest, start);
        RecentFewer(rest, last - WINDOW, start);
        assert LimitedAt(times, limit, n);
      }
    }
  }

  lemma {:induction false} RecentShorter(times: seq<int>, cutoff: int)
    ensures |Recent(times, cutoff)| <= |times|
  {
    if times != [] {
      RecentShorter(times[..|times| - 1], cutoff);
    }
  }

  lemma {:induction false} RecentNone(times: seq<int>, cutoff: int)
    requires forall i | 0 <= i < |times| :: times[i] <= cutoff
    ensures Recent(times, cutoff) == []
  {
    if times != [] {
      RecentNone(times[..|times| - 1], cutoff);
    }
  }

  lemma {:induction false} RecentConcat(a: seq<int>, b: seq<int>, cutoff: int)
    ensures Recent(a + b, cutoff) == Recent(a, cutoff) + Recent(b, cutoff)
  {
    if b == [] {
      assert a + b == a;
    } else {
      assert (a + b)[..|a + b| - 1] == a + b[..|b| - 1];
      RecentConcat(a, b[..|b| - 1], cutoff);
    }
  }

  /** An admitted action: when, and for a credential action the account. */
  datatype Action = Action(time: int, account: string, credential: bool)

  function Times(log: seq<Action>): seq<int> {
    seq(|log|, i requires 0 <= i < |log| => log[i].time)
  }

  function CredentialTimes(log: seq<Action>, account: string): seq<int> {
    if log == [] then []
    else
      var rest := CredentialTimes(log[..|log| - 1], account);
      var last := log[|log| - 1];
      if last.credential && last.account == account then rest + [last.time] else rest
  }

  lemma TimesAppend(log: seq<Action>, action: Action)
    ensures Times(log + [action]) == Times(log) + [action.time]
  {
  }

  lemma CredentialAppend(log: seq<Action>, action: Action, account: string)
    ensures CredentialTimes(log + [action], account) ==
            CredentialTimes(log, account) + if action.credential && action.account == account then [action.time] else []
  {
    assert (log + [action])[..|log|] == log;
  }

  function Of(attempts: map<string, seq<int>>, account: string): seq<int> {
    if account in attempts then attempts[account] else []
  }

  /** The table holds each account's admitted credential actions after `cutoff`. */
  ghost predicate Tracks(attempts: map<string, seq<int>>, log: seq<Action>, cutoff: int) {
    forall account :: Of(attempts, account) == Recent(CredentialTimes(log, account), cutoff)
  }

  lemma TracksAppend(attempts: map<string, seq<int>>, log: seq<Action>, action: Action, cutoff: int)
    requires Tracks(attempts, log, cutoff) && action.time > cutoff
    ensures var counted := attempts[action.account := Of(attempts, action.account) + [action.time]];
            Tracks(if action.credential then counted else attempts, log + [action], cutoff)
  {
    forall account
      ensures Recent(CredentialTimes(log + [action], account), cutoff) ==
              Of(attempts, account) + if action.credential && action.account == account then [action.time] else []
    {
      CredentialAppend(log, action, account);
      RecentAppend(CredentialTimes(log, account), cutoff, action.time);
    }
  }

  predicate Ordered(times: seq<int>, clock: int) {
    Ascending(times) && forall i | 0 <= i < |times| :: times[i] <= clock
  }

  /** The limits hold for everything admitted so far: over all, and for every account's credential actions. */
  ghost predicate AllLimited(log: seq<Action>, clock: int) {
    && Ordered(Times(log), clock) && Limited(Times(log), GLOBAL_LIMIT)
    && forall account :: AccountLimited(CredentialTimes(log, account), clock)
  }

  predicate AccountLimited(times: seq<int>, clock: int) {
    Ordered(times, clock) && Limited(times, ACCOUNT_LIMIT)
  }

  lemma Later(log: seq<Action>, clock: int, later: int)
    requires AllLimited(log, clock) && clock <= later
    ensures AllLimited(log, later)
  {
    forall account
      ensures AccountLimited(CredentialTimes(log, account), later)
    {
      assert AccountLimited(CredentialTimes(log, account), clock);
    }
  }

  lemma AdmitLimited(log: seq<Action>, action: Action)
    requires AllLimited(log, action.time)
    requires |Recent(Times(log), action.time - WINDOW)| < GLOBAL_LIMIT
    requires action.credential ==> |Recent(CredentialTimes(log, action.account), action.time - WINDOW)| < ACCOUNT_LIMIT
    ensures AllLimited(log + [action], action.time)
  {
    AdmitTimes(Times(log), action.time, GLOBAL_LIMIT);
    TimesAppend(log, action);
    forall account
      ensures AccountLimited(CredentialTimes(log + [action], account), action.time)
    {
      assert AccountLimited(CredentialTimes(log, account), action.time);
      AdmitAccount(log, action, account);
    }
  }

  lemma AdmitTimes(times: seq<int>, time: int, limit: nat)
    requires Ordered(times, time) && Limited(times, limit) && |Recent(times, time - WINDOW)| < limit
    ensures Ordered(times + [time], time) && Limited(times + [time], limit)
  {
    LimitedAppend(times, limit, time);
  }

  lemma AdmitAccount(log: seq<Action>, action: Action, account: string)
    requires AccountLimited(CredentialTimes(log, account), action.time)
    requires action.credential ==> |Recent(CredentialTimes(log, action.account), action.time - WINDOW)| < ACCOUNT_LIMIT
    ensures AccountLimited(CredentialTimes(log + [action], account), action.time)
  {
    CredentialAppend(log, action, account);
    if action.credential && action.account == account {
      AdmitTimes(CredentialTimes(log, account), action.time, ACCOUNT_LIMIT);
    }
  }

  /** In any window, at most 300 actions were admitted, and at most 10 credential actions of any one account. */
  lemma AdmittedInAnyWindow(log: seq<Action>, clock: int, start: int, account: string)
    requires AllLimited(log, clock)
    ensures InWindow(Times(log), start) <= GLOBAL_LIMIT
    ensures InWindow(CredentialTimes(log, account), start) <= ACCOUNT_LIMIT
  {
    EveryWindow(Times(log), GLOBAL_LIMIT, start);
    assert AccountLimited(CredentialTimes(log, account), clock);
    EveryWindow(CredentialTimes(log, account), ACCOUNT_LIMIT, start);
  }

  // Closed windows

  /** How many times fall in the closed window that starts at `start`. */
  function InClosed(times: seq<int>, start: int, length: nat): nat {
    if times == [] then 0
    else InClosed(times[..|times| - 1], start, length) + if start <= times[|times| - 1] <= start + length then 1 else 0
  }

  lemma {:induction false} ClosedIsInWindow(times: seq<int>, start: int, length: nat)
    requires length < WINDOW
    ensures InClosed(times, start, length) <= InWindow(times, start - 1)
  {
    if times != [] {
      ClosedIsInWindow(times[..|times| - 1], start, length);
    }
  }

  lemma {:induction false} AllInClosed(times: seq<int>, start: int, length: nat)
    requires forall i | 0 <= i < |times| :: start <= times[i] <= start + length
    ensures InClosed(times, start, length) == |times|
  {
    if times != [] {
      AllInClosed(times[..|times| - 1], start, length);
    }
  }

  /** As many actions as the limit allows at one time, and as many again one window later. */
  function TwoBursts(limit: nat, credential: bool): (log: seq<Action>)
    ensures |log| == 2 * limit
    ensures forall i | 0 <= i < |log| :: log[i] == Action(if i < limit then 0 else WINDOW, "account", credential)
  {
    seq(2 * limit, i requires 0 <= i < 2 * limit => Action(if i < limit then 0 else WINDOW, "account", credential))
  }

  lemma BurstsAreLimited(times: seq<int>, limit: nat)
    requires |times| == 2 * limit && forall i | 0 <= i < |times| :: times[i] == if i < limit then 0 else WINDOW
    ensures Ordered(times, WINDOW) && Limited(times, limit)
  {
    forall k | 0 <= k < |times|
      ensures LimitedAt(times, limit, k)
    {
      if k < limit {
        RecentShorter(times[..k], -WINDOW);
      } else {
        RecentConcat(times[..limit], times[limit..k], 0);
        assert times[..k] == times[..limit] + times[limit..k];
        RecentNone(times[..limit], 0);
        RecentShorter(times[limit..k], 0);
      }
    }
  }

  lemma FewAreLimited(times: seq<int>, limit: nat)
    requires |times| <= limit
    ensures Limited(times, limit)
  {
    forall k | 0 <= k < |times|
      ensures LimitedAt(times, limit, k)
    {
      RecentShorter(times[..k], times[k] - WINDOW);
    }
  }

  lemma {:induction false} CredentialsOfOne(log: seq<Action>, credential: bool, account: string)
    requires forall i | 0 <= i < |log| :: log[i].credential == credential && log[i].account == "account"
    ensures CredentialTimes(log, account) == if credential && account == "account" then Times(log) else []
  {
    if log != [] {
      CredentialsOfOne(log[..|log| - 1], credential, account);
      assert Times(log) == Times(log[..|log| - 1]) + [log[|log| - 1].time];
    }
  }

  /** Two bursts one window apart are admitted: of one account's credential actions, and of any other actions. */
  lemma BurstsAreAdmitted(credential: bool)
    ensures AllLimited(TwoBursts(if credential then ACCOUNT_LIMIT else GLOBAL_LIMIT, credential), WINDOW)
  {
    var limit := if credential then ACCOUNT_LIMIT else GLOBAL_LIMIT;
    var log := TwoBursts(limit, credential);
    BurstsAreLimited(Times(log), limit);
    if credential {
      FewAreLimited(Times(log), GLOBAL_LIMIT);
    }
    forall account
      ensures AccountLimited(CredentialTimes(log, account), WINDOW)
    {
      CredentialsOfOne(log, credential, account);
    }
  }

  lemma {:induction false} CredentialAt(log: seq<Action>, i: nat, account: string)
    requires i < |log|
    ensures CredentialTimes(log[..i], account) <= CredentialTimes(log, account)
    ensures log[i].credential && log[i].account == account ==>
              var k := |CredentialTimes(log[..i], account)|;
              k < |CredentialTimes(log, account)| && CredentialTimes(log, account)[k] == log[i].time
  {
    var rest := log[..|log| - 1];
    if i < |rest| {
      assert rest[..i] == log[..i];
      CredentialAt(rest, i, account);
    }
  }

  /** One more action that is within the limits. */
  predicate Fits(log: seq<Action>, action: Action) {
    && |Recent(Times(log), action.time - WINDOW)| < GLOBAL_LIMIT
    && (action.credential ==> |Recent(CredentialTimes(log, action.account), action.time - WINDOW)| < ACCOUNT_LIMIT)
  }

  /** Where the limits hold, each action was within them when it came. */
  lemma WithinLimits(log: seq<Action>, clock: int, i: nat)
    requires AllLimited(log, clock) && i < |log|
    ensures Fits(log[..i], log[i])
  {
    assert Times(log)[..i] == Times(log[..i]) && LimitedAt(Times(log), GLOBAL_LIMIT, i);
    if log[i].credential {
      var times, former := CredentialTimes(log, log[i].account), CredentialTimes(log[..i], log[i].account);
      CredentialAt(log, i, log[i].account);
      assert AccountLimited(times, clock) && LimitedAt(times, ACCOUNT_LIMIT, |former|);
      assert times[..|former|] == former;
    }
  }

  /** Whatever was admitted, no closed window of this length holds more than either limit. */
  ghost predicate ClosedWindowsHold(length: nat) {
    forall log, clock, start, account | AllLimited(log, clock) :: ClosedWindowHolds(log, account, start, length)
  }

  predicate ClosedWindowHolds(log: seq<Action>, account: string, start: int, length: nat) {
    && InClosed(Times(log), start, length) <= GLOBAL_LIMIT
    && InClosed(CredentialTimes(log, account), start, length) <= ACCOUNT_LIMIT
  }

  /** The limiter's window is half open, so the limits hold in closed windows exactly if they are shorter. */
  lemma ClosedWindowIsExact(length: nat)
    ensures ClosedWindowsHold(length) <==> length < WINDOW
    ensures length >= WINDOW ==> exists log :: AllLimited(log, WINDOW) && InClosed(Times(log), 0, length) > GLOBAL_LIMIT
    ensures length >= WINDOW ==>
              exists log, account ::
                AllLimited(log, WINDOW) && InClosed(CredentialTimes(log, account), 0, length) > ACCOUNT_LIMIT
  {
    if length < WINDOW {
      forall log, clock, start, account | AllLimited(log, clock)
        ensures ClosedWindowHolds(log, account, start, length)
      {
        AdmittedInAnyWindow(log, clock, start - 1, account);
        ClosedIsInWindow(Times(log), start, length);
        ClosedIsInWindow(CredentialTimes(log, account), start, length);
      }
    } else {
      var some, credentials := TwoBursts(GLOBAL_LIMIT, false), TwoBursts(ACCOUNT_LIMIT, true);
      BurstsAreAdmitted(false);
      BurstsAreAdmitted(true);
      AllInClosed(Times(some), 0, length);
      CredentialsOfOne(credentials, true, "account");
      AllInClosed(Times(credentials), 0, length);
      assert !ClosedWindowHolds(some, "account", 0, length);
    }
  }

  class Bridge {
    var global: seq<int>
    var attempts: map<string, seq<int>>
    var clock: int

    // Every action admitted, and the cutoff last applied.
    ghost var log: seq<Action>
    ghost var cutoff: int

    constructor (clock: int)
      ensures Valid() && log == [] && this.clock == clock
    {
      global := [];
      attempts := map[];
      this.clock := clock;
      log := [];
      cutoff := clock - WINDOW;
    }

    ghost predicate Valid()
      reads this
    {
      && cutoff <= clock - WINDOW
      && global == Recent(Times(log), cutoff)
      && Tracks(attempts, log, cutoff)
      && AllLimited(log, clock)
    }

    /**
     * Admits one action at `clock + elapsed` unless the ceiling or the account's own limit is reached; only admitted
     * actions count, and only while they are within the window.
     */
    method AllowAuth(account: string, credential: bool, elapsed: nat) returns (allowed: bool)
      requires Valid()
      modifies this
      ensures Valid() && clock == old(clock) + elapsed
      ensures log == old(log) + if allowed then [Action(clock, account, credential)] else []
      ensures allowed <==>
                |Recent(Times(old(log)), clock - WINDOW)| < GLOBAL_LIMIT &&
                (credential ==> |Recent(CredentialTimes(old(log), account), clock - WINDOW)| < ACCOUNT_LIMIT)
    {
      Later(log, clock, clock + elapsed);
      clock := clock + elapsed;
      Prune();
      if |global| >= GLOBAL_LIMIT {
        return false;
      }
      if credential && |Of(attempts, account)| >= ACCOUNT_LIMIT {
        return false;
      }
      Admit(account, credential);
      return true;
    }

    method Admit(account: string, credential: bool)
      requires Valid() && cutoff == clock - WINDOW
      requires |global| < GLOBAL_LIMIT && (credential ==> |Of(attempts, account)| < ACCOUNT_LIMIT)
      modifies `global, `attempts, `log
      ensures Valid() && log == old(log) + [Action(clock, account, credential)]
    {
      ghost var action := Action(clock, account, credential);
      TracksAppend(attempts, log, action, cutoff);
      AdmitLimited(log, action);
      TimesAppend(log, action);
      RecentAppend(Times(log), cutoff, clock);
      if credential {
        attempts := attempts[account := Of(attempts, account) + [clock]];
      }
      global := global + [clock];
      log := log + [action];
    }

    /** Forgets what is no longer recent, and accounts with nothing recent. */
    method Prune()
      requires cutoff <= clock - WINDOW && global == Recent(Times(log), cutoff)
      requires Tracks(attempts, log, cutoff)
      modifies `global, `attempts, `cutoff
      ensures cutoff == clock - WINDOW && global == Recent(Times(log), cutoff)
      ensures Tracks(attempts, log, cutoff)
      ensures forall account | account in attempts :: attempts[account] != []
    {
      var now := clock - WINDOW;
      RecentAgain(Times(log), cutoff, now);
      forall account
        ensures Recent(Of(attempts, account), now) == Recent(CredentialTimes(log, account), now)
      {
        RecentAgain(CredentialTimes(log, account), cutoff, now);
      }
      global := Recent(global, now);
      attempts := map account | account in attempts && Recent(attempts[account], now) != [] ::
        Recent(attempts[account], now);
      cutoff := now;
    }
  }

  method ReplayNext(b: Bridge, action: Action)
    requires b.Valid() && Fits(b.log, action) && b.clock <= action.time
    modifies b
    ensures b.Valid() && b.log == old(b.log) + [action] && b.clock == action.time
  {
    var allowed := b.AllowAuth(action.account, action.credential, action.time - b.clock);
  }

  /** Every log within the limits is one the bridge admits: the limits are exactly what a run can come to. */
  method Replay(log: seq<Action>, clock: int, start: int) returns (b: Bridge)
    requires AllLimited(log, clock) && forall i | 0 <= i < |log| :: start <= log[i].time
    ensures b.Valid() && b.log == log
  {
    b := new Bridge(start);
    for i := 0 to |log|
      invariant b.Valid() && fresh(b) && b.log == log[..i]
      invariant b.clock == if i == 0 then start else log[i - 1].time
    {
      assert i > 0 ==> Times(log)[i - 1] <= Times(log)[i];
      WithinLimits(log, clock, i);
      ReplayNext(b, log[i]);
      assert log[..i + 1] == log[..i] + [log[i]];
    }
    assert log[..|log|] == log;
  }
}
