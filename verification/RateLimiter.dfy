/** The login rate limiter: a pruned sliding window with a reaper. */
module RateLimiting {
  import opened Prelude

  datatype Policy = Policy(max: int, window: real, lockout: real)

  datatype Entry = Entry(failures: seq<real>, lockedUntil: real)

  const FRESH := Entry([], 0.0)

  /** The limiter's dictionary, by user name. */
  type Table = map<string, Entry>

  function Lookup(t: Table, user: string): Entry {
    if user in t then t[user] else FRESH
  }

  /** The failures still inside the window that ends now, oldest first. */
  function Recent(failures: seq<real>, now: real, window: real): seq<real> {
    if failures == [] then []
    else (if now - failures[0] < window then [failures[0]] else []) + Recent(failures[1..], now, window)
  }

  predicate IsLimited(t: Table, user: string, now: real) {
    user in t && t[user].lockedUntil > now
  }

  function Failed(p: Policy, e: Entry, now: real): Entry {
    var kept := Recent(e.failures, now, p.window) + [now];
    if |kept| >= p.max then Entry([], now + p.lockout) else Entry(kept, e.lockedUntil)
  }

  predicate IsStale(p: Policy, e: Entry, now: real) {
    e.lockedUntil < now && forall i :: 0 <= i < |e.failures| ==> now - e.failures[i] > p.window
  }

  function Reaped(p: Policy, t: Table, now: real): Table {
    map u | u in t && !IsStale(p, t[u], now) :: t[u]
  }

  // ---------------------------------------------------------------------
  // The object

  class RateLimiter {
    const policy: Policy
    var state: Table

    constructor (maxFailures: int, failureWindow: real, lockoutDuration: real)
      ensures policy == Policy(maxFailures, failureWindow, lockoutDuration)
      ensures state == map[]
    {
      policy := Policy(maxFailures, failureWindow, lockoutDuration);
      state := map[];
    }

    method Limited(user: string, now: real) returns (limited: bool)
      ensures limited == IsLimited(state, user, now)
    {
      limited := user in state && state[user].lockedUntil > now;
    }

    method RecordFailure(user: string, now: real)
      modifies this
      ensures state == old(state)[user := Failed(policy, Lookup(old(state), user), now)]
    {
      if user !in state {
        state := state[user := FRESH];
      }
      var s := state[user];
      s := s.(failures := Recent(s.failures, now, policy.window));
      s := s.(failures := s.failures + [now]);
      if |s.failures| >= policy.max {
        s := s.(lockedUntil := now + policy.lockout);
        s := s.(failures := []);
      }
      state := state[user := s];
    }

    method RecordSuccess(user: string)
      modifies this
      ensures state == old(state) - {user}
    {
      state := state - {user};
    }

    method Reap(now: real)
      modifies this
      ensures state == Reaped(policy, old(state), now)
    {
      var stale: set<string> := {};
      var todo := state.Keys;
      while todo != {}
        invariant todo <= state.Keys && stale <= state.Keys && todo !! stale
        invariant state == old(state)
        invariant forall u :: u in state.Keys - todo ==> (u in stale <==> IsStale(policy, state[u], now))
        decreases todo
      {
        var u :| u in todo;
        if IsStale(policy, state[u], now) {
          stale := stale + {u};
        }
        todo := todo - {u};
      }
      while stale != {}
        invariant stale <= old(state).Keys
        invariant forall u :: u in state ==> u in old(state) && state[u] == old(state)[u]
        invariant forall u :: u in old(state) ==>
          (u in state <==> u in stale || !IsStale(policy, old(state)[u], now))
        decreases stale
      {
        var u :| u in stale;
        assert forall v :: v in state - {u} ==> v in state && v != u;
        state := state - {u};
        stale := stale - {u};
      }
    }
  }

  // ---------------------------------------------------------------------
  // Whole runs, and the reference that never forgets a failure

  datatype Event =
    | Failure(user: string, now: real)
    | Success(user: string)
    | Reap(now: real)
    | Query(user: string, now: real)

  function Step(p: Policy, t: Table, e: Event): Table {
    match e
    case Failure(u, now) => t[u := Failed(p, Lookup(t, u), now)]
    case Success(u) => t - {u}
    case Reap(now) => Reaped(p, t, now)
    case Query(_, _) => t
  }

  /** The answers of the queries, in order. */
  function Answers(p: Policy, t: Table, events: seq<Event>): seq<bool>
    decreases |events|
  {
    if events == [] then []
    else
      var e := events[0];
      (if e.Query? then [IsLimited(t, e.user, e.now)] else []) + Answers(p, Step(p, t, e), events[1..])
  }

  /**
   * The reference keeps every failure since the user's last success or lockout;
   * the window matters only when failures are counted, and nothing is reaped.
   */
  function Remembered(p: Policy, e: Entry, now: real): Entry {
    var all := e.failures + [now];
    if |Recent(all, now, p.window)| >= p.max then Entry([], now + p.lockout) else Entry(all, e.lockedUntil)
  }

  function Recall(p: Policy, t: Table, e: Event): Table {
    match e
    case Failure(u, now) => t[u := Remembered(p, Lookup(t, u), now)]
    case Success(u) => t - {u}
    case Reap(_) => t
    case Query(_, _) => t
  }

  function TrueAnswers(p: Policy, t: Table, events: seq<Event>): seq<bool>
    decreases |events|
  {
    if events == [] then []
    else
      var e := events[0];
      (if e.Query? then [IsLimited(t, e.user, e.now)] else []) + TrueAnswers(p, Recall(p, t, e), events[1..])
  }

  /** Every clock reading is at least `clock` and no later one is smaller. */
  predicate Monotone(events: seq<Event>, clock: real) {
    events == [] ||
    if events[0].Success? then Monotone(events[1..], clock)
    else events[0].now >= clock && Monotone(events[1..], events[0].now)
  }

  lemma {:induction false} RecentAppend(a: seq<real>, b: seq<real>, now: real, window: real)
    ensures Recent(a + b, now, window) == Recent(a, now, window) + Recent(b, now, window)
  {
    if a == [] {
      assert a + b == b;
    } else {
      assert (a + b)[1..] == a[1..] + b;
      RecentAppend(a[1..], b, now, window);
    }
  }

  /** Pruning early loses nothing a later window would still count. */
  lemma {:induction false} PruneThenCount(f: seq<real>, early: real, late: real, window: real)
    requires early <= late
    ensures Recent(Recent(f, early, window), late, window) == Recent(f, late, window)
  {
    if f != [] {
      var head := if early - f[0] < window then [f[0]] else [];
      RecentAppend(head, Recent(f[1..], early, window), late, window);
      PruneThenCount(f[1..], early, late, window);
      if head != [] {
        assert Recent(head, late, window) == (if late - f[0] < window then [f[0]] else []) + Recent([], late, window);
      }
    }
  }

  lemma {:induction false} AllExpired(f: seq<real>, now: real, window: real)
    requires forall i :: 0 <= i < |f| ==> now - f[i] > window
    ensures Recent(f, now, window) == []
  {
    if f != [] { AllExpired(f[1..], now, window); }
  }

  /** The two entries are indistinguishable from `clock` on. */
  ghost predicate Alike(p: Policy, c: Entry, r: Entry, clock: real) {
    && Recent(c.failures, clock, p.window) == Recent(r.failures, clock, p.window)
    && (c.lockedUntil == r.lockedUntil || (c.lockedUntil <= clock && r.lockedUntil <= clock))
  }

  ghost predicate Agree(p: Policy, t: Table, h: Table, clock: real) {
    forall u :: Alike(p, Lookup(t, u), Lookup(h, u), clock)
  }

  lemma AlikeLater(p: Policy, c: Entry, r: Entry, clock: real, now: real)
    requires Alike(p, c, r, clock) && clock <= now
    ensures Alike(p, c, r, now)
  {
    PruneThenCount(c.failures, clock, now, p.window);
    PruneThenCount(r.failures, clock, now, p.window);
  }

  lemma FailureKeepsAlike(p: Policy, c: Entry, r: Entry, now: real)
    requires Alike(p, c, r, now) && p.window > 0.0
    ensures Alike(p, Failed(p, c, now), Remembered(p, r, now), now)
  {
    RecentAppend(r.failures, [now], now, p.window);
    RecentAppend(Recent(c.failures, now, p.window), [now], now, p.window);
    PruneThenCount(c.failures, now, now, p.window);
    assert Recent([now], now, p.window) == [now] + Recent([], now, p.window);
  }

  lemma StepKeepsAgreement(p: Policy, t: Table, h: Table, e: Event, clock: real)
    requires Agree(p, t, h, clock) && p.window > 0.0
    requires Monotone([e], clock) && clock >= 0.0
    ensures Agree(p, Step(p, t, e), Recall(p, h, e), if e.Success? then clock else e.now)
  {
    var now := if e.Success? then clock else e.now;
    forall u ensures Alike(p, Lookup(Step(p, t, e), u), Lookup(Recall(p, h, e), u), now) {
      AlikeLater(p, Lookup(t, u), Lookup(h, u), clock, now);
      if e.Failure? && e.user == u {
        FailureKeepsAlike(p, Lookup(t, u), Lookup(h, u), now);
      }
      if e.Reap? && u in t && IsStale(p, t[u], now) {
        AllExpired(t[u].failures, now, p.window);
      }
    }
  }

  lemma {:induction false} AgreementGivesAnswers(p: Policy, t: Table, h: Table, events: seq<Event>, clock: real)
    requires Agree(p, t, h, clock) && p.window > 0.0
    requires Monotone(events, clock) && clock >= 0.0
    ensures Answers(p, t, events) == TrueAnswers(p, h, events)
    decreases |events|
  {
    if events != [] {
      var e := events[0];
      StepKeepsAgreement(p, t, h, e, clock);
      AgreementGivesAnswers(p, Step(p, t, e), Recall(p, h, e), events[1..], if e.Success? then clock else e.now);
      if e.Query? {
        AlikeLater(p, Lookup(t, e.user), Lookup(h, e.user), clock, e.now);
      }
    }
  }

  /** With a monotone clock the pruned, reaped limiter cannot be told from the full history. */
  lemma LimiterRefinesHistory(p: Policy, events: seq<Event>)
    requires p.window > 0.0
    requires Monotone(events, 0.0)
    ensures Answers(p, map[], events) == TrueAnswers(p, map[], events)
  {
    AgreementGivesAnswers(p, map[], map[], events, 0.0);
  }

  lemma {:induction false} HistoryIgnoresReap(p: Policy, h: Table, before: seq<Event>, now: real, after: seq<Event>)
    ensures TrueAnswers(p, h, before + [Reap(now)] + after) == TrueAnswers(p, h, before + after)
    decreases |before|
  {
    if before == [] {
      assert before + [Reap(now)] + after == [Reap(now)] + after;
      assert before + after == after;
    } else {
      assert (before + [Reap(now)] + after)[1..] == before[1..] + [Reap(now)] + after;
      assert (before + after)[1..] == before[1..] + after;
      HistoryIgnoresReap(p, Recall(p, h, before[0]), before[1..], now, after);
    }
  }

  lemma {:induction false} DroppingKeepsMonotone(before: seq<Event>, now: real, after: seq<Event>, clock: real)
    requires Monotone(before + [Reap(now)] + after, clock)
    ensures Monotone(before + after, clock)
    decreases |before|
  {
    if before == [] {
      assert before + [Reap(now)] + after == [Reap(now)] + after;
      assert before + after == after;
      EarlierClock(after, now, clock);
    } else {
      assert (before + [Reap(now)] + after)[1..] == before[1..] + [Reap(now)] + after;
      assert (before + after)[1..] == before[1..] + after;
      DroppingKeepsMonotone(before[1..], now, after, if before[0].Success? then clock else before[0].now);
    }
  }

  lemma {:induction false} EarlierClock(events: seq<Event>, late: real, early: real)
    requires Monotone(events, late) && early <= late
    ensures Monotone(events, early)
  {
    if events != [] && events[0].Success? { EarlierClock(events[1..], late, early); }
  }

  /** Reaping at any moment changes no later answer. */
  lemma ReapIsInvisible(p: Policy, before: seq<Event>, now: real, after: seq<Event>)
    requires p.window > 0.0
    requires Monotone(before + [Reap(now)] + after, 0.0)
    ensures Answers(p, map[], before + [Reap(now)] + after) == Answers(p, map[], before + after)
  {
    DroppingKeepsMonotone(before, now, after, 0.0);
    LimiterRefinesHistory(p, before + [Reap(now)] + after);
    LimiterRefinesHistory(p, before + after);
    HistoryIgnoresReap(p, map[], before, now, after);
  }

  // ---------------------------------------------------------------------
  // A reap whose reading is later than the clock of what follows

  /** Whoever the reap forgets has nothing left that a reading of `clock` or later could count. */
  predicate NothingLost(p: Policy, t: Table, reading: real, clock: real) {
    forall u :: u in t && IsStale(p, t[u], reading) ==>
      Recent(t[u].failures, clock, p.window) == [] && t[u].lockedUntil <= clock
  }

  /** No later run can tell whether the reap took place. */
  ghost predicate Unnoticed(p: Policy, t: Table, reading: real, clock: real) {
    forall events :: Monotone(events, clock) ==> Answers(p, Reaped(p, t, reading), events) == Answers(p, t, events)
  }

  /** Lists stay below the limit: reaching it empties them. */
  predicate Short(p: Policy, t: Table) {
    forall u :: u in t ==> |t[u].failures| < p.max
  }

  lemma {:induction false} RecentIsShorter(f: seq<real>, now: real, window: real)
    ensures |Recent(f, now, window)| <= |f|
  {
    if f != [] { RecentIsShorter(f[1..], now, window); }
  }

  /** A failure that fills the list locks the user for exactly the lockout; one that does not changes no lock. */
  lemma LockLastsForLockout(p: Policy, t: Table, user: string, now: real, later: real)
    ensures var fills := |Recent(Lookup(t, user).failures, now, p.window)| + 1 >= p.max;
      IsLimited(Step(p, t, Failure(user, now)), user, later) <==>
        if fills then later < now + p.lockout else Lookup(t, user).lockedUntil > later
    ensures !IsLimited(Step(p, t, Success(user)), user, later)
  {
  }

  lemma StepKeepsShort(p: Policy, t: Table, e: Event)
    requires p.max >= 1 && Short(p, t)
    ensures Short(p, Step(p, t, e))
  {
  }

  /** n failures of one user at one instant, and then the question. */
  function Burst(user: string, n: nat, now: real): seq<Event> {
    if n == 0 then [Query(user, now)] else [Failure(user, now)] + Burst(user, n - 1, now)
  }

  lemma {:induction false} BurstIsMonotone(user: string, n: nat, now: real)
    ensures Monotone(Burst(user, n, now), now)
  {
    if n > 0 {
      BurstIsMonotone(user, n - 1, now);
      assert Burst(user, n, now)[1..] == Burst(user, n - 1, now);
    } else {
      assert Burst(user, n, now)[1..] == [];
    }
  }

  /** The burst locks the user exactly if it fills the list up to the limit. */
  lemma {:induction false} BurstAnswer(p: Policy, t: Table, user: string, n: nat, now: real)
    requires p.window > 0.0 && p.lockout > 0.0 && Lookup(t, user).lockedUntil <= now
    requires var m := |Recent(Lookup(t, user).failures, now, p.window)|; m < p.max && m + n <= p.max
    ensures Answers(p, t, Burst(user, n, now)) ==
      [|Recent(Lookup(t, user).failures, now, p.window)| + n == p.max]
    decreases n
  {
    var run := Burst(user, n, now);
    if n == 0 {
      assert run[1..] == [] && Answers(p, t, run) == [IsLimited(t, user, now)] + Answers(p, t, []);
    } else {
      assert run[1..] == Burst(user, n - 1, now);
      var t1 := Step(p, t, run[0]);
      var kept := Recent(Lookup(t, user).failures, now, p.window);
      if |kept| + 1 < p.max {
        PruneThenCount(Lookup(t, user).failures, now, now, p.window);
        RecentAppend(kept, [now], now, p.window);
        assert Recent([now], now, p.window) == [now] + Recent([], now, p.window);
        BurstAnswer(p, t1, user, n - 1, now);
      } else {
        LockedAnswer(p, t1, user, now);
      }
      assert Answers(p, t, run) == [] + Answers(p, t1, run[1..]);
    }
  }

  lemma LockedAnswer(p: Policy, t: Table, user: string, now: real)
    requires user in t && t[user].lockedUntil > now
    ensures Answers(p, t, Burst(user, 0, now)) == [true]
  {
    assert Burst(user, 0, now)[1..] == [] && Answers(p, t, []) == [];
  }

  /** One forgotten entry that still counts, and the run that shows it. */
  lemma LossShows(p: Policy, t: Table, reading: real, clock: real, user: string) returns (run: seq<Event>)
    requires p.window > 0.0 && p.lockout > 0.0 && clock >= 0.0 && Short(p, t)
    requires user in t && IsStale(p, t[user], reading)
    requires Recent(t[user].failures, clock, p.window) != [] || t[user].lockedUntil > clock
    ensures Monotone(run, clock)
    ensures Answers(p, t, run) == [true] && Answers(p, Reaped(p, t, reading), run) == [false]
  {
    var m := |Recent(t[user].failures, clock, p.window)|;
    RecentIsShorter(t[user].failures, clock, p.window);
    var n := if t[user].lockedUntil > clock then 0 else p.max - m;
    run := Burst(user, n, clock);
    BurstIsMonotone(user, n, clock);
    if t[user].lockedUntil > clock {
      LockedAnswer(p, t, user, clock);
    } else {
      BurstAnswer(p, t, user, n, clock);
    }
    assert Lookup(Reaped(p, t, reading), user) == FRESH && Recent(FRESH.failures, clock, p.window) == [];
    BurstAnswer(p, Reaped(p, t, reading), user, n, clock);
  }

  lemma SafeReapIsUnnoticed(p: Policy, t: Table, reading: real, clock: real, events: seq<Event>)
    requires p.window > 0.0 && clock >= 0.0 && NothingLost(p, t, reading, clock) && Monotone(events, clock)
    ensures Answers(p, Reaped(p, t, reading), events) == Answers(p, t, events)
  {
    forall u ensures Alike(p, Lookup(Reaped(p, t, reading), u), Lookup(t, u), clock) {
      if u in t && IsStale(p, t[u], reading) {
        assert Recent(FRESH.failures, clock, p.window) == [];
      }
    }
    AgreementGivesAnswers(p, Reaped(p, t, reading), t, events, clock);
    AgreementGivesAnswers(p, t, t, events, clock);
  }

  /**
   * A reap goes unnoticed by every run that starts at `clock` if and only if every
   * entry it forgets has, at `clock`, no failure in the window and no lock.
   */
  lemma ReapUnnoticedIff(p: Policy, t: Table, reading: real, clock: real)
    requires p.window > 0.0 && p.lockout > 0.0 && clock >= 0.0 && Short(p, t)
    ensures Unnoticed(p, t, reading, clock) <==> NothingLost(p, t, reading, clock)
  {
    if NothingLost(p, t, reading, clock) {
      forall events | Monotone(events, clock)
        ensures Answers(p, Reaped(p, t, reading), events) == Answers(p, t, events)
      {
        SafeReapIsUnnoticed(p, t, reading, clock, events);
      }
    } else {
      var u :| u in t && IsStale(p, t[u], reading) &&
        !(Recent(t[u].failures, clock, p.window) == [] && t[u].lockedUntil <= clock);
      var run := LossShows(p, t, reading, clock, u);
    }
  }

  /** In particular a reap whose reading is not later than the clock of what follows. */
  lemma EarlyReapUnnoticed(p: Policy, t: Table, reading: real, clock: real)
    requires p.window > 0.0 && p.lockout > 0.0 && clock >= 0.0 && Short(p, t) && reading <= clock
    ensures Unnoticed(p, t, reading, clock)
  {
    forall u | u in t && IsStale(p, t[u], reading) ensures Recent(t[u].failures, clock, p.window) == [] {
      AllExpired(t[u].failures, clock, p.window);
    }
    ReapUnnoticedIff(p, t, reading, clock);
  }

  /**
   * Without a monotone clock the reaper shows, under every policy with a limit of two
   * or more: one failure, a reap dated more than a window later, and failures up to
   * the limit at the first reading lock the user only if the reap is left out.
   */
  lemma ReapShowsWhenClockRunsBack(p: Policy, user: string, reading: real)
    requires p.max >= 2 && p.window > 0.0 && p.lockout > 0.0 && reading > p.window
    ensures var rest := Burst(user, p.max - 1, 0.0);
      && Answers(p, map[], [Failure(user, 0.0)] + rest) == [true]
      && Answers(p, map[], [Failure(user, 0.0), Reap(reading)] + rest) == [false]
  {
    var rest := Burst(user, p.max - 1, 0.0);
    var fail := Failure(user, 0.0);
    var t := Step(p, map[], fail);
    assert Recent([], 0.0, p.window) == [] && t[user] == Entry([0.0], 0.0);
    assert Recent([0.0], 0.0, p.window) == [0.0] + Recent([], 0.0, p.window);
    BurstAnswer(p, t, user, p.max - 1, 0.0);
    var r := Reaped(p, t, reading);
    assert IsStale(p, t[user], reading) && Lookup(r, user) == FRESH;
    BurstAnswer(p, r, user, p.max - 1, 0.0);
    assert ([fail] + rest)[1..] == rest && ([fail, Reap(reading)] + rest)[1..] == [Reap(reading)] + rest;
    assert ([Reap(reading)] + rest)[1..] == rest;
    assert Answers(p, t, [Reap(reading)] + rest) == [] + Answers(p, r, rest);
  }
}
