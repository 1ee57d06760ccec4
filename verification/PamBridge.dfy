/** The PAM bridge's login step, and how many bad guesses the limiter lets through. */
module PamBridge {
  import opened Prelude
  import opened RateLimiting

  /** The attempt gets as far as PAM. */
  predicate Reaches(t: Table, username: Option<string>, password: Option<string>, now: real) {
    username.Some? && username.value != "" && password.Some? && !IsLimited(t, username.value, now)
  }

  /**
   * `_authenticate`: refuse a limited user, verify, then record the outcome.
   * `verified` is PAM's verdict; the three clock readings are taken where the bridge takes them.
   */
  method Authenticate(limiter: RateLimiter, username: Option<string>, password: Option<string>,
                      checkedAt: real, verified: bool, failedAt: real)
    returns (who: Option<string>)
    modifies limiter
    ensures !Reaches(old(limiter.state), username, password, checkedAt) ==>
      who == None && limiter.state == old(limiter.state)
    ensures Reaches(old(limiter.state), username, password, checkedAt) && !verified ==>
      who == None && limiter.state == old(limiter.state)[
        username.value := Failed(limiter.policy, Lookup(old(limiter.state), username.value), failedAt)]
    ensures Reaches(old(limiter.state), username, password, checkedAt) && verified ==>
      who == username && limiter.state == old(limiter.state) - {username.value}
  {
    who := None;
    if username.None? || username.value == "" || password.None? {
      return;
    }
    var limited := limiter.Limited(username.value, checkedAt);
    if limited {
      return;
    }
    if !verified {
      limiter.RecordFailure(username.value, failedAt);
      return;
    }
    limiter.RecordSuccess(username.value);
    who := username;
  }

  // ---------------------------------------------------------------------
  // Many connections at once: each attempt is two critical sections with PAM in between

  datatype Event =
    | Check(id: nat, user: string, now: real)
    | Refuse(id: nat, now: real)
    | Accept(id: nat)
    | Sweep(now: real)

  /** `open` holds the attempts that passed the check and whose verdict is not recorded yet. */
  datatype Bridge = Bridge(table: Table, open: map<nat, string>)

  function Step(p: Policy, s: Bridge, e: Event): Bridge {
    match e
    case Check(id, user, now) =>
      if id in s.open || IsLimited(s.table, user, now) then s else s.(open := s.open[id := user])
    case Refuse(id, now) =>
      if id !in s.open then s
      else
        var user := s.open[id];
        Bridge(s.table[user := Failed(p, Lookup(s.table, user), now)], s.open - {id})
    case Accept(id) =>
      if id !in s.open then s else Bridge(s.table - {s.open[id]}, s.open - {id})
    case Sweep(now) => s.(table := Reaped(p, s.table, now))
  }

  /** An undisturbed `_authenticate` is a check followed by its verdict. */
  lemma AuthenticateIsTwoSteps(p: Policy, t: Table, user: string, checkedAt: real, verified: bool, failedAt: real)
    ensures
      var checked := Step(p, Bridge(t, map[]), Check(0, user, checkedAt));
      var s := Step(p, checked, if verified then Accept(0) else Refuse(0, failedAt));
      && s.open == map[]
      && s.table == if IsLimited(t, user, checkedAt) then t
                    else if verified then t - {user}
                    else t[user := Failed(p, Lookup(t, user), failedAt)]
  {
  }

  predicate Fails(s: Bridge, e: Event, user: string) {
    e.Refuse? && e.id in s.open && s.open[e.id] == user
  }

  /** How many verifications of this user's password fail during the run. */
  function FailedGuesses(p: Policy, s: Bridge, events: seq<Event>, user: string): nat
    decreases |events|
  {
    if events == [] then 0
    else (if Fails(s, events[0], user) then 1 else 0) + FailedGuesses(p, Step(p, s, events[0]), events[1..], user)
  }

  function OpenIds(open: map<nat, string>, user: string): set<nat> {
    set id | id in open && open[id] == user
  }

  function OpenFor(s: Bridge, user: string): nat {
    |OpenIds(s.open, user)|
  }

  /** At most k of the user's attempts are open at once, and none of them succeeds. */
  predicate AtMostOpenNoSuccess(p: Policy, s: Bridge, events: seq<Event>, user: string, k: nat)
    decreases |events|
  {
    OpenFor(s, user) <= k &&
    (events == [] ||
     (!(events[0].Accept? && events[0].id in s.open && s.open[events[0].id] == user) &&
      AtMostOpenNoSuccess(p, Step(p, s, events[0]), events[1..], user, k)))
  }

  /** Every clock reading of the run lies in the interval. */
  predicate During(events: seq<Event>, from: real, to: real) {
    forall i :: 0 <= i < |events| ==> events[i].Accept? || from <= events[i].now <= to
  }

  function CountSince(f: seq<real>, from: real): nat {
    if f == [] then 0 else (if f[0] >= from then 1 else 0) + CountSince(f[1..], from)
  }

  lemma {:induction false} CountSinceAppend(f: seq<real>, t: real, from: real)
    ensures CountSince(f + [t], from) == CountSince(f, from) + (if t >= from then 1 else 0)
    ensures CountSince(f, from) <= |f|
  {
    if f == [] {
      assert f + [t] == [t] && CountSince([t], from) == (if t >= from then 1 else 0) + CountSince([], from);
    } else {
      assert (f + [t])[1..] == f[1..] + [t];
      CountSinceAppend(f[1..], t, from);
    }
  }

  lemma {:induction false} PruningKeepsSince(f: seq<real>, now: real, window: real, from: real)
    requires now - from < window
    ensures CountSince(Recent(f, now, window), from) == CountSince(f, from)
  {
    if f != [] {
      PruningKeepsSince(f[1..], now, window, from);
      if now - f[0] < window {
        assert Recent(f, now, window)[1..] == Recent(f[1..], now, window);
      } else {
        assert Recent(f, now, window) == Recent(f[1..], now, window);
      }
    }
  }

  lemma {:induction false} StaleHasNoneSince(f: seq<real>, now: real, window: real, from: real)
    requires now - from < window
    requires forall i :: 0 <= i < |f| ==> now - f[i] > window
    ensures CountSince(f, from) == 0
  {
    if f != [] { StaleHasNoneSince(f[1..], now, window, from); }
  }

  /**
   * After n failures since `from`: either no lockout fell in the interval and the
   * list still holds all n, or the user is locked beyond `to` and only the
   * attempts already open can still fail.
   */
  predicate Progress(p: Policy, s: Bridge, user: string, n: int, k: nat, from: real, to: real) {
    var e := Lookup(s.table, user);
    || (n < p.max && n <= CountSince(e.failures, from))
    || (user in s.table && e.lockedUntil > to && n + OpenFor(s, user) <= p.max - 1 + k)
  }

  lemma ClosingOne(open: map<nat, string>, id: nat, user: string)
    requires id in open
    ensures OpenIds(open - {id}, user) == OpenIds(open, user) - {id}
    ensures |OpenIds(open - {id}, user)| == |OpenIds(open, user)| - (if open[id] == user then 1 else 0)
  {
  }

  lemma StepKeepsProgress(p: Policy, s: Bridge, e: Event, user: string, n: int, k: nat, from: real, to: real)
    requires p.max >= 1 && to - from < p.window && to - from < p.lockout
    requires OpenFor(s, user) <= k && During([e], from, to)
    requires !(e.Accept? && e.id in s.open && s.open[e.id] == user)
    requires Progress(p, s, user, n, k, from, to)
    ensures Progress(p, Step(p, s, e), user, n + (if Fails(s, e, user) then 1 else 0), k, from, to)
  {
    assert e == [e][0];
    var s', c := Step(p, s, e), Lookup(s.table, user);
    if Fails(s, e, user) {
      ClosingOne(s.open, e.id, user);
      PruningKeepsSince(c.failures, e.now, p.window, from);
      CountSinceAppend(Recent(c.failures, e.now, p.window), e.now, from);
      CountSinceAppend(Recent(c.failures, e.now, p.window) + [e.now], e.now, from);
    } else if e.Refuse? || e.Accept? {
      if e.id in s.open { ClosingOne(s.open, e.id, user); }
    } else if e.Sweep? {
      assert OpenFor(s', user) == OpenFor(s, user);
      if user in s.table && IsStale(p, s.table[user], e.now) {
        StaleHasNoneSince(c.failures, e.now, p.window, from);
      }
    } else if s' != s && e.user != user {
      assert OpenIds(s'.open, user) == OpenIds(s.open, user);
    }
  }

  lemma {:induction false} BoundFrom(p: Policy, s: Bridge, events: seq<Event>, user: string, n: int, k: nat,
                                     from: real, to: real)
    requires p.max >= 1 && to - from < p.window && to - from < p.lockout
    requires During(events, from, to) && AtMostOpenNoSuccess(p, s, events, user, k)
    requires Progress(p, s, user, n, k, from, to)
    ensures n + FailedGuesses(p, s, events, user) <= p.max - 1 + k
    decreases |events|
  {
    if events != [] {
      assert During([events[0]], from, to);
      StepKeepsProgress(p, s, events[0], user, n, k, from, to);
      BoundFrom(p, Step(p, s, events[0]), events[1..], user,
                n + (if Fails(s, events[0], user) then 1 else 0), k, from, to);
    }
  }

  /**
   * The brute-force bound. From any state of the bridge, over any run whose clock
   * stays within an interval shorter than both the window and the lockout, a user
   * with at most k attempts open at once and no success fails at most
   * max_failures - 1 + k verifications, whatever other users and the reaper do.
   */
  lemma BruteForceBound(p: Policy, s: Bridge, events: seq<Event>, user: string, k: nat, from: real, to: real)
    requires p.max >= 1 && to - from < p.window && to - from < p.lockout
    requires During(events, from, to) && AtMostOpenNoSuccess(p, s, events, user, k)
    ensures FailedGuesses(p, s, events, user) <= p.max - 1 + k
  {
    BoundFrom(p, s, events, user, 0, k, from, to);
  }

  /** Attempts made one after the other: at most max_failures bad guesses per interval. */
  lemma SequentialBound(p: Policy, s: Bridge, events: seq<Event>, user: string, from: real, to: real)
    requires p.max >= 1 && to - from < p.window && to - from < p.lockout
    requires During(events, from, to) && AtMostOpenNoSuccess(p, s, events, user, 1)
    ensures FailedGuesses(p, s, events, user) <= p.max
  {
    BruteForceBound(p, s, events, user, 1, from, to);
  }

  // ---------------------------------------------------------------------
  // The bound is reached

  function Exec(p: Policy, s: Bridge, events: seq<Event>): Bridge
    decreases |events|
  {
    if events == [] then s else Exec(p, Step(p, s, events[0]), events[1..])
  }

  lemma {:induction false} RunInTwoParts(p: Policy, s: Bridge, a: seq<Event>, b: seq<Event>, user: string, k: nat)
    ensures Exec(p, s, a + b) == Exec(p, Exec(p, s, a), b)
    ensures FailedGuesses(p, s, a + b, user) == FailedGuesses(p, s, a, user) + FailedGuesses(p, Exec(p, s, a), b, user)
    ensures AtMostOpenNoSuccess(p, s, a, user, k) && AtMostOpenNoSuccess(p, Exec(p, s, a), b, user, k) ==>
      AtMostOpenNoSuccess(p, s, a + b, user, k)
    decreases |a|
  {
    if a == [] {
      assert a + b == b;
    } else {
      assert (a + b)[1..] == a[1..] + b;
      RunInTwoParts(p, Step(p, s, a[0]), a[1..], b, user, k);
    }
  }

  function Zeros(n: nat): seq<real> {
    if n == 0 then [] else Zeros(n - 1) + [0.0]
  }

  lemma {:induction false} ZerosAreRecent(n: nat, window: real)
    requires window > 0.0
    ensures |Zeros(n)| == n && Recent(Zeros(n), 0.0, window) == Zeros(n)
  {
    if n > 0 {
      ZerosAreRecent(n - 1, window);
      RecentAppend(Zeros(n - 1), [0.0], 0.0, window);
      assert Recent([0.0], 0.0, window) == [0.0] + Recent([], 0.0, window);
    }
  }

  /** n attempts, each refused before the next begins. */
  function Solo(user: string, n: nat): seq<Event> {
    if n == 0 then [] else Solo(user, n - 1) + [Check(0, user, 0.0), Refuse(0, 0.0)]
  }

  function Checks(user: string, k: nat): seq<Event> {
    if k == 0 then [] else Checks(user, k - 1) + [Check(k - 1, user, 0.0)]
  }

  function Refusals(k: nat): seq<Event> {
    if k == 0 then [] else [Refuse(k - 1, 0.0)] + Refusals(k - 1)
  }

  /** One bad guess after another up to one short of the limit, then k checks, then k refusals. */
  function Attack(user: string, max: nat, k: nat): seq<Event>
    requires max >= 1
  {
    Solo(user, max - 1) + (Checks(user, k) + Refusals(k))
  }

  /** k attempts of the user are open, and nobody else's. */
  function Opened(user: string, k: nat): (open: map<nat, string>)
    ensures forall id: nat :: id in open <==> id < k
    ensures forall id :: id in open ==> open[id] == user
  {
    if k == 0 then map[] else Opened(user, k - 1)[k - 1 := user]
  }

  lemma {:induction false} OpenedCount(user: string, k: nat)
    ensures |OpenIds(Opened(user, k), user)| == k
  {
    if k > 0 {
      OpenedCount(user, k - 1);
      assert Opened(user, k) - {k - 1} == Opened(user, k - 1);
      ClosingOne(Opened(user, k), k - 1, user);
    } else {
      assert OpenIds(Opened(user, 0), user) == {};
    }
  }

  /** The limiter has n failures of the user at time 0 on its list and no lock. */
  predicate HasFailed(s: Bridge, user: string, n: nat) {
    Lookup(s.table, user) == Entry(Zeros(n), 0.0)
  }

  lemma OneSoloRound(p: Policy, s: Bridge, user: string, n: nat)
    requires p.window > 0.0 && n + 1 < p.max && HasFailed(s, user, n) && s.open == map[]
    ensures var round := [Check(0, user, 0.0), Refuse(0, 0.0)];
      && HasFailed(Exec(p, s, round), user, n + 1) && Exec(p, s, round).open == map[]
      && FailedGuesses(p, s, round, user) == 1 && AtMostOpenNoSuccess(p, s, round, user, 1)
  {
    var round := [Check(0, user, 0.0), Refuse(0, 0.0)];
    var s1 := Step(p, s, round[0]);
    var s2 := Step(p, s1, round[1]);
    ZerosAreRecent(n, p.window);
    assert round[1..] == [round[1]] && round[1..][1..] == [];
    assert s1.open == map[0 := user] && s2.open == map[];
    assert OpenIds(s.open, user) == {} && OpenIds(s1.open, user) == {0} && OpenIds(s2.open, user) == {};
    assert Exec(p, s1, [round[1]]) == Exec(p, s2, []);
    assert FailedGuesses(p, s1, [round[1]], user) == 1 + FailedGuesses(p, s2, [], user);
    assert AtMostOpenNoSuccess(p, s2, [], user, 1) && AtMostOpenNoSuccess(p, s1, [round[1]], user, 1);
  }

  lemma {:induction false} SoloRun(p: Policy, user: string, n: nat, k: nat)
    requires p.window > 0.0 && n < p.max && k >= 1
    ensures var s := Exec(p, Bridge(map[], map[]), Solo(user, n));
      && HasFailed(s, user, n) && s.open == map[]
      && FailedGuesses(p, Bridge(map[], map[]), Solo(user, n), user) == n
      && AtMostOpenNoSuccess(p, Bridge(map[], map[]), Solo(user, n), user, k)
  {
    var s0 := Bridge(map[], map[]);
    if n == 0 {
      assert OpenIds(s0.open, user) == {};
    } else {
      SoloRun(p, user, n - 1, k);
      var s, round := Exec(p, s0, Solo(user, n - 1)), [Check(0, user, 0.0), Refuse(0, 0.0)];
      OneSoloRound(p, s, user, n - 1);
      MoreOpenAllowed(p, s, round, user, 1, k);
      RunInTwoParts(p, s0, Solo(user, n - 1), round, user, k);
    }
  }

  lemma {:induction false} MoreOpenAllowed(p: Policy, s: Bridge, events: seq<Event>, user: string, few: nat, many: nat)
    requires AtMostOpenNoSuccess(p, s, events, user, few) && few <= many
    ensures AtMostOpenNoSuccess(p, s, events, user, many)
    decreases |events|
  {
    if events != [] { MoreOpenAllowed(p, Step(p, s, events[0]), events[1..], user, few, many); }
  }

  lemma {:induction false} ChecksRun(p: Policy, s: Bridge, user: string, n: nat, i: nat, k: nat)
    requires HasFailed(s, user, n) && s.open == map[] && i <= k
    ensures Exec(p, s, Checks(user, i)) == Bridge(s.table, Opened(user, i))
    ensures FailedGuesses(p, s, Checks(user, i), user) == 0
    ensures AtMostOpenNoSuccess(p, s, Checks(user, i), user, k)
  {
    if i == 0 {
      assert Opened(user, 0) == map[];
      OpenedCount(user, 0);
    } else {
      ChecksRun(p, s, user, n, i - 1, k);
      var s1, last := Bridge(s.table, Opened(user, i - 1)), [Check(i - 1, user, 0.0)];
      var s2 := Step(p, s1, last[0]);
      OpenedCount(user, i - 1);
      OpenedCount(user, i);
      assert s2.open == Opened(user, i) && last[1..] == [];
      assert AtMostOpenNoSuccess(p, s2, [], user, k) && Exec(p, s2, []) == s2;
      assert FailedGuesses(p, s1, last, user) == FailedGuesses(p, s2, [], user);
      RunInTwoParts(p, s, Checks(user, i - 1), last, user, k);
    }
  }

  lemma {:induction false} RefusalsRun(p: Policy, s: Bridge, user: string, i: nat, k: nat)
    requires s.open == Opened(user, i) && i <= k
    ensures FailedGuesses(p, s, Refusals(i), user) == i
    ensures AtMostOpenNoSuccess(p, s, Refusals(i), user, k)
    decreases i
  {
    OpenedCount(user, i);
    if i > 0 {
      var s1 := Step(p, s, Refuse(i - 1, 0.0));
      assert s1.open == Opened(user, i - 1);
      RefusalsRun(p, s1, user, i - 1, k);
      assert Refusals(i)[0] == Refuse(i - 1, 0.0) && Refusals(i)[1..] == Refusals(i - 1);
    }
  }

  lemma {:induction false} AllAtZero(user: string, n: nat)
    ensures During(Solo(user, n), 0.0, 0.0) && During(Checks(user, n), 0.0, 0.0) && During(Refusals(n), 0.0, 0.0)
  {
    if n > 0 { AllAtZero(user, n - 1); }
  }

  /**
   * The bound is exact: for every limit, window and number k of overlapping attempts
   * there is a run, all at one instant, in which a user with at most k attempts open
   * and no success fails max_failures - 1 + k verifications.
   */
  lemma BoundIsReached(p: Policy, user: string, k: nat)
    requires p.max >= 1 && p.window > 0.0 && k >= 1
    ensures var run := Attack(user, p.max, k);
      && During(run, 0.0, 0.0)
      && AtMostOpenNoSuccess(p, Bridge(map[], map[]), run, user, k)
      && FailedGuesses(p, Bridge(map[], map[]), run, user) == p.max - 1 + k
  {
    var s0 := Bridge(map[], map[]);
    var solo, checks, refusals := Solo(user, p.max - 1), Checks(user, k), Refusals(k);
    AllAtZero(user, p.max - 1);
    AllAtZero(user, k);
    SoloRun(p, user, p.max - 1, k);
    var s1 := Exec(p, s0, solo);
    ChecksRun(p, s1, user, p.max - 1, k, k);
    RefusalsRun(p, Exec(p, s1, checks), user, k, k);
    RunInTwoParts(p, s1, checks, refusals, user, k);
    RunInTwoParts(p, s0, solo, checks + refusals, user, k);
  }
}
