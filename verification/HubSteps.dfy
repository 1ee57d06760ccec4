/** A console hub under all its threads, one lock section or one visible action at a time. */
module HubSteps {
  import opened Prelude
  import opened Hub

  /** Where the reader thread is. `Holding` is a chunk read and not yet broadcast. */
  datatype Reader = AtLoop | Reading | Holding(data: seq<byte>) | Leaving | Cleared | Gone

  /**
   * `arms`: threads that have left a lock section with nobody attached and will call
   * `_arm_grace`; `passing`: timers past the teardown guard that will call shutdown();
   * `closing`: threads in shutdown() between setting done and closing the descriptor.
   * `chunks` are the broadcasts so far; `joined` is how many there were when a client was added.
   */
  datatype Sys = Sys(
    hub: HubState, done: bool, fdOpen: bool, reader: Reader,
    arms: nat, passing: nat, closing: nat,
    chunks: seq<seq<byte>>, joined: map<Cid, nat>, hadClient: bool, everPassed: bool)

  datatype Action =
    | Add(cid: Cid, readOnly: bool)
    | Remove(cid: Cid)
    | Arm
    | Fire(t: nat)
    | Teardown(t: nat)
    | GiveUp
    | ShutDown
    | CloseFd
    | WriteFails
    | Look
    | Read(data: seq<byte>)
    | ReadFails
    | Deliver(fails: map<Cid, nat>)
    | Clear
    | Exit

  const INIT := Sys(HubState(map[], None, []), false, true, AtLoop, 0, 0, 0, [], map[], false, false)

  /** Actions some thread is about to take; the others come from outside and may happen at any time. */
  predicate Enabled(s: Sys, a: Action) {
    match a
    case Arm => s.arms > 0
    case Fire(t) => t < |s.hub.timers| && s.hub.timers[t] == Pending
    case Teardown(t) => t < |s.hub.timers| && s.hub.timers[t] == Fired
    case GiveUp => s.passing > 0
    case CloseFd => s.closing > 0
    case Look => s.reader == AtLoop
    case Read(data) => s.reader == Reading && data != []
    case ReadFails => s.reader == Reading
    case Deliver(_) => s.reader.Holding?
    case Clear => s.reader == Leaving
    case Exit => s.reader == Cleared
    case _ => true
  }

  /** One step; an action that is not enabled leaves everything as it is. */
  function Step(s: Sys, a: Action): Sys {
    if !Enabled(s, a) then s
    else
      match a
      case Add(cid, readOnly) =>
        s.(hub := Added(s.hub, cid, readOnly), joined := s.joined[cid := |s.chunks|], hadClient := true)
      case Remove(cid) =>
        var hub := Removed(s.hub, cid);
        s.(hub := hub, arms := if hub.clients == map[] then s.arms + 1 else s.arms)
      case Arm => s.(hub := Armed(s.hub), arms := s.arms - 1)
      case Fire(t) => s.(hub := s.hub.(timers := s.hub.timers[t := Fired]))
      case Teardown(t) =>
        var hub := s.hub.(timers := s.hub.timers[t := Finished]);
        if hub.clients != map[] then s.(hub := hub)
        else s.(hub := hub.(graceTimer := None), passing := s.passing + 1, everPassed := true)
      case GiveUp => s.(passing := s.passing - 1, done := true, closing := s.closing + 1)
      case ShutDown => s.(done := true, closing := s.closing + 1)
      case CloseFd => s.(closing := s.closing - 1, fdOpen := false)
      case WriteFails => s.(done := true)
      case Look => s.(reader := if s.done then Leaving else Reading)
      case Read(data) => s.(reader := Holding(data))
      case ReadFails => s.(done := true, reader := Leaving)
      case Deliver(fails) =>
        var clients := Delivered(s.hub.clients, s.reader.data, fails);
        s.(hub := s.hub.(clients := clients), chunks := s.chunks + [s.reader.data], reader := AtLoop,
           arms := if clients == map[] then s.arms + 1 else s.arms)
      case Clear => s.(hub := s.hub.(clients := map[]), reader := Cleared)
      case Exit => s.(fdOpen := false, reader := Gone)
  }

  /** What a step does to the client table. */
  lemma ClientsFollow(s: Sys, a: Action)
    ensures Step(s, a).hub.clients ==
      if !Enabled(s, a) then s.hub.clients
      else if a.Add? then s.hub.clients[a.cid := Client(a.readOnly, [])]
      else if a.Remove? then s.hub.clients - {a.cid}
      else if a.Deliver? then Delivered(s.hub.clients, s.reader.data, a.fails)
      else if a.Clear? then map[]
      else s.hub.clients
  {
  }

  /** Once done, a hub stays done. */
  lemma DoneStays(s: Sys, a: Action)
    ensures s.done ==> Step(s, a).done
  {
  }

  function Exec(s: Sys, acts: seq<Action>): Sys
    decreases |acts|
  {
    if acts == [] then s else Exec(Step(s, acts[0]), acts[1..])
  }

  // ---------------------------------------------------------------------
  // Timers

  /** Until a teardown passes its guard, the one running timer is the one in `_grace_timer`. */
  ghost predicate OneTimer(s: Sys) {
    && (!s.everPassed ==> s.passing == 0)
    && (!s.everPassed ==>
          forall t :: 0 <= t < |s.hub.timers| && s.hub.timers[t] == Pending ==> s.hub.graceTimer == Some(t))
    && (s.hub.graceTimer.Some? ==>
          s.hub.graceTimer.value < |s.hub.timers| && s.hub.timers[s.hub.graceTimer.value] != Cancelled)
  }

  /** Somebody is still going to tear the hub down: an arm, a running or fired timer, a passed guard. */
  ghost predicate Doomed(s: Sys) {
    s.arms > 0 || s.passing > 0 ||
    exists t :: 0 <= t < |s.hub.timers| && (s.hub.timers[t] == Pending || s.hub.timers[t] == Fired)
  }

  predicate Abandoned(s: Sys) {
    s.hadClient && s.hub.clients == map[] && !s.done
  }

  // ---------------------------------------------------------------------
  // Broadcast

  /** What every attached client has been sent: all broadcasts since it was added, nothing else. */
  ghost predicate InStream(s: Sys, c: Cid) {
    && c in s.hub.clients && c in s.joined && s.joined[c] <= |s.chunks|
    && s.hub.clients[c].sent == Flatten(s.chunks[s.joined[c]..])
  }

  // ---------------------------------------------------------------------
  // The invariant

  ghost predicate Inv(s: Sys) {
    && OneTimer(s)
    && (Abandoned(s) ==> Doomed(s))
    && (s.hub.clients != map[] ==> s.hadClient)
    && (forall c :: c in s.hub.clients ==> InStream(s, c))
    && (s.closing > 0 || s.reader.Leaving? || s.reader.Cleared? || s.reader.Gone? || !s.fdOpen ==> s.done)
  }

  lemma StepKeepsTimers(s: Sys, a: Action)
    requires Inv(s)
    ensures OneTimer(Step(s, a))
  {
  }

  lemma StepKeepsDoom(s: Sys, a: Action)
    requires Inv(s)
    ensures Abandoned(Step(s, a)) ==> Doomed(Step(s, a))
  {
    var s' := Step(s, a);
    if a.Add? {
      assert a.cid in s'.hub.clients;
    }
    if Abandoned(s') && Enabled(s, a) {
      if a.Arm? {
        assert s'.hub.timers[|s.hub.timers|] == Pending;
      } else if a.Fire? {
        assert s'.hub.timers[a.t] == Fired;
      } else if Abandoned(s) && s'.arms == 0 && s'.passing == 0 {
        var t :| 0 <= t < |s.hub.timers| && (s.hub.timers[t] == Pending || s.hub.timers[t] == Fired);
        assert s'.hub.timers[t] == s.hub.timers[t];
      }
    }
  }

  lemma StepKeepsStreams(s: Sys, a: Action, c: Cid)
    requires Inv(s) && c in Step(s, a).hub.clients
    ensures InStream(Step(s, a), c)
  {
    var s' := Step(s, a);
    if a.Add? && a.cid == c {
      assert s'.chunks[|s'.chunks|..] == [];
    } else {
      assert c in s.hub.clients && InStream(s, c);
      if a.Deliver? && Enabled(s, a) {
        assert s'.chunks[s.joined[c]..] == s.chunks[s.joined[c]..] + [s.reader.data];
        FlattenSnoc(s.chunks[s.joined[c]..], s.reader.data);
      }
    }
  }

  lemma StepKeepsInv(s: Sys, a: Action)
    requires Inv(s)
    ensures Inv(Step(s, a))
  {
    StepKeepsTimers(s, a);
    StepKeepsDoom(s, a);
    forall c | c in Step(s, a).hub.clients ensures InStream(Step(s, a), c) {
      StepKeepsStreams(s, a, c);
    }
  }

  lemma {:induction false} InvAlways(s: Sys, acts: seq<Action>)
    requires Inv(s)
    ensures Inv(Exec(s, acts))
    decreases |acts|
  {
    if acts != [] {
      StepKeepsInv(s, acts[0]);
      InvAlways(Step(s, acts[0]), acts[1..]);
    }
  }

  // ---------------------------------------------------------------------
  // Main results over every interleaving

  /** At most one timer is running, it is the one `_grace_timer` holds, and a held timer was never cancelled. */
  lemma AtMostOneRunningTimer(acts: seq<Action>, t: nat, u: nat)
    requires var s := Exec(INIT, acts);
      !s.everPassed && t < |s.hub.timers| && u < |s.hub.timers| && s.hub.timers[t] == s.hub.timers[u] == Pending
    ensures t == u && Exec(INIT, acts).hub.graceTimer == Some(t)
  {
    InvAlways(INIT, acts);
  }

  /** A hub everybody has left is never forgotten. */
  lemma AbandonedHubIsDoomed(acts: seq<Action>)
    requires Abandoned(Exec(INIT, acts))
    ensures Doomed(Exec(INIT, acts))
  {
    InvAlways(INIT, acts);
  }

  /** The descriptor is closed only once the hub is done, so nobody closes it under a live hub. */
  lemma LiveHubKeepsItsFd(acts: seq<Action>)
    requires !Exec(INIT, acts).done
    ensures Exec(INIT, acts).fdOpen
  {
    InvAlways(INIT, acts);
  }

  /** A hub becomes done only by giving up after a passed guard, by a shutdown, or by a failing read or write. */
  lemma DoneOnlyBy(s: Sys, a: Action)
    ensures Step(s, a).done <==>
      s.done || (Enabled(s, a) && (a.GiveUp? || a.ShutDown? || a.WriteFails? || a.ReadFails?))
  {
  }

  /** In every state of the run somebody is attached, and nothing from outside ends the hub. */
  predicate StaysOccupied(s: Sys, acts: seq<Action>)
    decreases |acts|
  {
    s.hub.clients != map[] &&
    (acts == [] ||
     (!acts[0].ShutDown? && !acts[0].WriteFails? && !acts[0].ReadFails? && StaysOccupied(Step(s, acts[0]), acts[1..])))
  }

  /**
   * A timer never takes a hub down under its clients: whatever timers fire, and whoever
   * joins and leaves, while somebody is attached no guard is passed and the hub stays up.
   */
  lemma {:induction false} OccupiedHubSurvives(s: Sys, acts: seq<Action>)
    requires !s.done && s.passing == 0 && StaysOccupied(s, acts)
    ensures !Exec(s, acts).done && Exec(s, acts).passing == 0
    decreases |acts|
  {
    if acts != [] {
      DoneOnlyBy(s, acts[0]);
      OccupiedHubSurvives(Step(s, acts[0]), acts[1..]);
    }
  }

  /** Once closed, a descriptor stays closed. */
  lemma {:induction false} FdStaysClosed(s: Sys, acts: seq<Action>)
    requires !s.fdOpen
    ensures !Exec(s, acts).fdOpen
    decreases |acts|
  {
    if acts != [] { FdStaysClosed(Step(s, acts[0]), acts[1..]); }
  }

  /** The reader of a hub that is done ends: it forgets every client and leaves the descriptor closed. */
  lemma DoneHubIsClosed(s: Sys)
    requires s.done && s.reader == AtLoop
    ensures var s' := Exec(s, [Look, Clear, Exit]);
      s'.reader == Gone && s'.hub.clients == map[] && !s'.fdOpen && s'.done
    ensures s.closing > 0 ==> !Step(s, CloseFd).fdOpen
  {
    OneStep(s, Look);
    OneStep(Step(s, Look), Clear);
    OneStep(Step(Step(s, Look), Clear), Exit);
    ExecAppend(s, [Look], [Clear]);
    ExecAppend(s, [Look, Clear], [Exit]);
    assert [Look] + [Clear] == [Look, Clear] && [Look, Clear] + [Exit] == [Look, Clear, Exit];
  }

  /** A broadcast loses exactly the clients whose socket fails, and counts as one more chunk. */
  lemma BroadcastLosesOnlyFailing(s: Sys, fails: map<Cid, nat>)
    requires s.reader.Holding?
    ensures var s' := Step(s, Deliver(fails));
      && (forall c :: c in s'.hub.clients <==> c in s.hub.clients && c !in fails)
      && (forall c :: c in s'.hub.clients ==>
            s'.hub.clients[c].readOnly == s.hub.clients[c].readOnly &&
            s'.hub.clients[c].sent == s.hub.clients[c].sent + s.reader.data)
      && s'.chunks == s.chunks + [s.reader.data] && s'.reader == AtLoop
  {
    ClientsFollow(s, Deliver(fails));
  }

  /** The steps that lead from abandonment to the end, whoever takes them. */
  predicate Internal(a: Action) {
    a.Arm? || a.Fire? || a.Teardown? || a.GiveUp?
  }

  function Weight(p: Phase): nat {
    match p
    case Pending => 3
    case Fired => 2
    case _ => 0
  }

  function TimerWork(timers: seq<Phase>): nat {
    if timers == [] then 0 else Weight(timers[0]) + TimerWork(timers[1..])
  }

  /** How much of that work is left. */
  function Work(s: Sys): nat {
    4 * s.arms + TimerWork(s.hub.timers) + s.passing
  }

  lemma {:induction false} TimerWorkUpdate(timers: seq<Phase>, t: nat, p: Phase)
    requires t < |timers|
    ensures TimerWork(timers[t := p]) == TimerWork(timers) - Weight(timers[t]) + Weight(p)
    ensures TimerWork(timers) >= Weight(timers[t])
  {
    if t == 0 {
      assert timers[t := p][1..] == timers[1..];
    } else {
      assert timers[t := p][1..] == timers[1..][t - 1 := p];
      TimerWorkUpdate(timers[1..], t - 1, p);
    }
  }

  lemma {:induction false} TimerWorkSnoc(timers: seq<Phase>, p: Phase)
    ensures TimerWork(timers + [p]) == TimerWork(timers) + Weight(p)
  {
    if timers == [] {
      assert timers + [p] == [p] && TimerWork([p]) == Weight(p) + TimerWork([]);
    } else {
      assert (timers + [p])[1..] == timers[1..] + [p];
      TimerWorkSnoc(timers[1..], p);
    }
  }

  lemma CancelSavesWork(timers: seq<Phase>, g: Option<nat>)
    ensures TimerWork(Cancel(timers, g)) <= TimerWork(timers)
  {
    if g.Some? && g.value < |timers| && timers[g.value] == Pending {
      TimerWorkUpdate(timers, g.value, Cancelled);
    }
  }

  lemma InternalStepsMakeProgress(s: Sys, a: Action)
    requires Internal(a) && Enabled(s, a)
    ensures Work(Step(s, a)) < Work(s)
  {
    match a {
      case Arm =>
        CancelSavesWork(s.hub.timers, s.hub.graceTimer);
        TimerWorkSnoc(Cancel(s.hub.timers, s.hub.graceTimer), Pending);
      case Fire(t) => TimerWorkUpdate(s.hub.timers, t, Fired);
      case Teardown(t) => TimerWorkUpdate(s.hub.timers, t, Finished);
      case _ =>
    }
  }

  lemma InternalStepsStayAbandoned(s: Sys, a: Action)
    requires Internal(a) && (Abandoned(s) || s.done)
    ensures Step(s, a).done || Abandoned(Step(s, a))
  {
  }

  /** Every action of the run is internal and enabled when its turn comes. */
  predicate Drains(s: Sys, acts: seq<Action>)
    decreases |acts|
  {
    acts == [] || (Internal(acts[0]) && Enabled(s, acts[0]) && Drains(Step(s, acts[0]), acts[1..]))
  }

  /**
   * Once a hub is abandoned and left alone, its pending arms and timers bring it
   * down: in whatever order they run, the hub is done when they can do no more,
   * and they can do no more than `Work` steps.
   */
  lemma {:induction false} AbandonedHubComesDown(s: Sys, acts: seq<Action>)
    requires Inv(s) && (Abandoned(s) || s.done) && Drains(s, acts)
    requires forall a :: Internal(a) ==> !Enabled(Exec(s, acts), a)
    ensures Exec(s, acts).done
    ensures |acts| <= Work(s)
    decreases |acts|
  {
    if acts == [] {
      assert Exec(s, acts) == s;
      assert !Enabled(s, Arm) && !Enabled(s, GiveUp) by { assert Internal(Arm) && Internal(GiveUp); }
      forall t | 0 <= t < |s.hub.timers| ensures s.hub.timers[t] != Pending && s.hub.timers[t] != Fired {
        assert Internal(Fire(t)) && Internal(Teardown(t));
        assert !Enabled(s, Fire(t)) && !Enabled(s, Teardown(t));
      }
    } else {
      InternalStepsMakeProgress(s, acts[0]);
      InternalStepsStayAbandoned(s, acts[0]);
      StepKeepsInv(s, acts[0]);
      AbandonedHubComesDown(Step(s, acts[0]), acts[1..]);
    }
  }

  /** What the reader does with one chunk when nobody is attached: look, read, broadcast to nobody, arm. */
  function Round(data: seq<byte>): seq<Action> {
    [Look, Read(data), Deliver(map[]), Arm]
  }

  function Rounds(chunks: seq<seq<byte>>): seq<Action> {
    if chunks == [] then [] else Round(chunks[0]) + Rounds(chunks[1..])
  }

  /**
   * s' is an abandoned hub like s after these chunks: each was broadcast and armed the
   * timer anew, and only the newest timer may still run.
   */
  ghost predicate StaysUp(s: Sys, s': Sys, chunks: seq<seq<byte>>) {
    && Abandoned(s') && s'.reader == AtLoop && !s'.everPassed
    && s'.chunks == s.chunks + chunks && |s'.hub.timers| == |s.hub.timers| + |chunks|
    && (chunks != [] ==>
          && s'.hub.timers[|s'.hub.timers| - 1] == Pending
          && forall t :: 0 <= t < |s'.hub.timers| - 1 ==> s'.hub.timers[t] != Pending)
  }

  lemma StaysUpLonger(s: Sys, s1: Sys, s2: Sys, a: seq<seq<byte>>, b: seq<seq<byte>>)
    requires StaysUp(s, s1, a) && StaysUp(s1, s2, b) && (b == [] ==> s2 == s1)
    ensures StaysUp(s, s2, a + b)
  {
    assert s.chunks + a + b == s.chunks + (a + b);
    if b == [] {
      assert a + b == a;
    }
  }

  lemma FourSteps(s: Sys, a: Action, b: Action, c: Action, d: Action)
    ensures Exec(s, [a, b, c, d]) == Step(Step(Step(Step(s, a), b), c), d)
  {
    var s3 := Step(Step(Step(s, a), b), c);
    assert [a, b, c, d] == [a, b, c] + [d] && [a, b, c] == [a, b] + [c] && [a, b] == [a] + [b];
    OneStep(s, a);
    OneStep(Step(s, a), b);
    OneStep(Step(Step(s, a), b), c);
    OneStep(s3, d);
    ExecAppend(s, [a], [b]);
    ExecAppend(s, [a, b], [c]);
    ExecAppend(s, [a, b, c], [d]);
  }

  lemma OneStep(s: Sys, a: Action)
    ensures Exec(s, [a]) == Step(s, a)
  {
    assert [a][1..] == [];
  }

  lemma OneRound(s: Sys, data: seq<byte>)
    requires OneTimer(s) && Abandoned(s) && s.reader == AtLoop && !s.everPassed && data != []
    ensures StaysUp(s, Step(Step(Step(Step(s, Look), Read(data)), Deliver(map[])), Arm), [data])
  {
    var s3 := s.(reader := AtLoop, chunks := s.chunks + [data], arms := s.arms + 1);
    assert Step(Step(s, Look), Read(data)) == s.(reader := Holding(data));
    assert Delivered(map[], data, map[]) == map[];
    assert Step(s.(reader := Holding(data)), Deliver(map[])) == s3;
    assert Step(s3, Arm) == s3.(hub := Armed(s3.hub), arms := s.arms);
  }

  /**
   * A console that keeps talking is never torn down by its timer: from an abandoned
   * hub, whatever the chunks and however many, there is a run that broadcasts each
   * and arms anew every time, after which the hub is still abandoned and not done and
   * only a timer started after the last chunk is running.
   */
  lemma {:induction false} TalkingConsoleStaysUp(s: Sys, chunks: seq<seq<byte>>)
    requires Inv(s) && Abandoned(s) && s.reader == AtLoop && !s.everPassed && [] !in chunks
    ensures StaysUp(s, Exec(s, Rounds(chunks)), chunks)
    ensures chunks == [] ==> Exec(s, Rounds(chunks)) == s
    decreases |chunks|
  {
    if chunks == [] {
      assert s.chunks + [] == s.chunks;
    } else {
      var round, rest := Round(chunks[0]), chunks[1..];
      FourSteps(s, Look, Read(chunks[0]), Deliver(map[]), Arm);
      OneRound(s, chunks[0]);
      InvAlways(s, round);
      var s1 := Exec(s, round);
      TalkingConsoleStaysUp(s1, rest);
      ExecAppend(s, round, Rounds(rest));
      StaysUpLonger(s, s1, Exec(s1, Rounds(rest)), [chunks[0]], rest);
      assert chunks == [chunks[0]] + rest;
    }
  }

  lemma {:induction false} ExecAppend(s: Sys, a: seq<Action>, b: seq<Action>)
    ensures Exec(s, a + b) == Exec(Exec(s, a), b)
    decreases |a|
  {
    if a == [] {
      assert a + b == b;
    } else {
      assert (a + b)[1..] == a[1..] + b;
      ExecAppend(Step(s, a[0]), a[1..], b);
    }
  }

  /** An attached client has been sent exactly the broadcasts since it was added, in order. */
  lemma ClientSeesContiguousRun(acts: seq<Action>, c: Cid)
    requires c in Exec(INIT, acts).hub.clients
    ensures var s := Exec(INIT, acts);
      c in s.joined && s.joined[c] <= |s.chunks| && s.hub.clients[c].sent == Flatten(s.chunks[s.joined[c]..])
  {
    InvAlways(INIT, acts);
    assert InStream(Exec(INIT, acts), c);
  }

  /** A client lost in a broadcast has been sent all earlier ones and a prefix of that one. */
  lemma LostClientSawPrefix(acts: seq<Action>, fails: map<Cid, nat>, c: Cid)
    requires var s := Exec(INIT, acts); s.reader.Holding? && c in s.hub.clients && c in fails
    ensures var s := Exec(INIT, acts);
      && c !in Step(s, Deliver(fails)).hub.clients
      && c in s.joined && s.joined[c] <= |s.chunks|
      && Flatten(s.chunks[s.joined[c]..]) <= Casualties(s.hub.clients, s.reader.data, fails)[c].sent
      && Casualties(s.hub.clients, s.reader.data, fails)[c].sent
           <= Flatten(Step(s, Deliver(fails)).chunks[s.joined[c]..])
  {
    InvAlways(INIT, acts);
    var s := Exec(INIT, acts);
    assert InStream(s, c);
    ClientsFollow(s, Deliver(fails));
    var earlier, data := s.chunks[s.joined[c]..], s.reader.data;
    assert Step(s, Deliver(fails)).chunks[s.joined[c]..] == earlier + [data];
    FlattenSnoc(earlier, data);
    SendIsPrefix(s.hub.clients[c], data, Some(fails[c]));
  }

  lemma SendIsPrefix(c: Client, data: seq<byte>, failsAt: Option<nat>)
    ensures c.sent <= Send(c, data, failsAt).sent <= c.sent + data
  {
  }

  /** Of two attached clients the later has seen a suffix of what the other saw; the same if they came together. */
  lemma LaterClientSeesSuffix(acts: seq<Action>, c: Cid, d: Cid)
    requires c in Exec(INIT, acts).hub.clients && d in Exec(INIT, acts).hub.clients
    requires c in Exec(INIT, acts).joined && d in Exec(INIT, acts).joined
    requires Exec(INIT, acts).joined[c] <= Exec(INIT, acts).joined[d] <= |Exec(INIT, acts).chunks|
    ensures var s := Exec(INIT, acts);
      s.hub.clients[c].sent == Flatten(s.chunks[s.joined[c]..s.joined[d]]) + s.hub.clients[d].sent
  {
    InvAlways(INIT, acts);
    var s := Exec(INIT, acts);
    assert InStream(s, c) && InStream(s, d);
    assert s.chunks[s.joined[c]..] == s.chunks[s.joined[c]..s.joined[d]] + s.chunks[s.joined[d]..];
    FlattenAppend(s.chunks[s.joined[c]..s.joined[d]], s.chunks[s.joined[d]..]);
  }
}
