/** The worker as one concurrent system: session threads, session table, hub registry and hubs. */
module Worker {
  import opened Prelude
  import opened EscapeDecoder
  import Hub
  import HubSteps
  import Session

  type Sid = Session.Sid

  /** Where a session thread is between the prompt and the end of an attachment. */
  datatype Pc =
    | AtPrompt | Chosen | Recorded
    | Joined | Looping | Receiving | Writing | Leaving
    | Left | Returning | Ended

  /** A thread's local variables; `att` numbers its current attachment. */
  datatype Thread = Thread(pc: Pc, hub: nat, name: string, readOnly: bool, att: nat, escape: bool, chunk: seq<byte>)

  /** One os.write() on a console, by the attachment that made it. */
  datatype Write = Write(att: nat, data: seq<byte>)

  /**
   * One attachment of one session, as seen from the client: `fed` are the bytes
   * received from it, `taken` those decoded and passed on; `lost` is set by a failed write.
   */
  datatype Attachment = Attachment(sid: Sid, hub: nat, readOnly: bool, fed: seq<byte>, taken: seq<byte>, lost: bool)

  datatype HubRec = HubRec(name: string, fd: nat, sys: HubSteps.Sys, log: seq<Write>)

  datatype World = World(
    threads: map<Sid, Thread>, sessions: map<Sid, Session.Record>,
    hubs: seq<HubRec>, registry: map<string, nat>,
    atts: seq<Attachment>, given: set<nat>, closed: set<nat>)

  const INIT := World(map[], map[], [], map[], [], {}, {})

  datatype Action =
    | Start(sid: Sid, user: string)
    | Attach(sid: Sid, h: nat, readOnly: bool)
    | Create(name: string, fd: nat)
    | Record(sid: Sid)
    | Join(sid: Sid)
    | Confirm(sid: Sid)
    | Check(sid: Sid)
    | Recv(sid: Sid, data: seq<byte>)
    | WriteOut(sid: Sid, accepted: bool)
    | Leave(sid: Sid)
    | Return(sid: Sid)
    | End(sid: Sid)
    | Kill(sids: set<Sid>)
    | HubStep(h: nat, a: HubSteps.Action)
    | RemoveIfDone(name: string)
    | TeardownAll

  predicate InHub(pc: Pc) {
    pc.Joined? || pc.Looping? || pc.Receiving? || pc.Writing? || pc.Leaving?
  }

  predicate Live(w: World, name: string) {
    name in w.registry && w.registry[name] < |w.hubs| && !w.hubs[w.registry[name]].sys.done
  }

  predicate At(w: World, sid: Sid, pc: Pc) {
    sid in w.threads && w.threads[sid].pc == pc && w.threads[sid].hub < |w.hubs| && w.threads[sid].att <= |w.atts|
  }

  predicate Enabled(w: World, a: Action) {
    match a
    case Start(sid, _) => sid !in w.threads
    case Attach(sid, h, _) => sid in w.threads && w.threads[sid].pc == AtPrompt && h < |w.hubs|
    case Create(_, fd) => fd !in w.given
    case Record(sid) => At(w, sid, Chosen)
    case Join(sid) => At(w, sid, Recorded)
    case Confirm(sid) => At(w, sid, Joined)
    case Check(sid) => At(w, sid, Looping)
    case Recv(sid, _) => At(w, sid, Receiving) && w.threads[sid].att < |w.atts|
    case WriteOut(sid, _) => At(w, sid, Writing) && w.threads[sid].att < |w.atts|
    case Leave(sid) => At(w, sid, Leaving)
    case Return(sid) => sid in w.threads && w.threads[sid].pc == Left
    case End(sid) => sid in w.threads && !InHub(w.threads[sid].pc)
    case Kill(_) => true
    case HubStep(h, a) => h < |w.hubs| && !a.Add? && !a.Remove?
    case RemoveIfDone(name) => name in w.registry && w.registry[name] < |w.hubs|
    case TeardownAll => true
  }

  function Goto(w: World, sid: Sid, pc: Pc): World
    requires sid in w.threads
  {
    w.(threads := w.threads[sid := w.threads[sid].(pc := pc)])
  }

  /** `registry.update`: nothing happens to a session that is gone. */
  function Patched(w: World, sid: Sid, patch: Session.Patch): map<Sid, Session.Record> {
    if sid in w.sessions then w.sessions[sid := Session.Apply(w.sessions[sid], patch)] else w.sessions
  }

  function OnHub(w: World, h: nat, a: HubSteps.Action): seq<HubRec>
    requires h < |w.hubs|
  {
    w.hubs[h := w.hubs[h].(sys := HubSteps.Step(w.hubs[h].sys, a))]
  }

  /** What the byte loop makes of the chunk in hand. */
  function Decoded(t: Thread): Decoder {
    Decode(Decoder([], t.escape, false), t.chunk)
  }

  /** The decoded bytes do not reach the console. */
  predicate WriteIsLost(w: World, sid: Sid, accepted: bool)
    requires At(w, sid, Writing)
  {
    Decoded(w.threads[sid]).out != [] && !(accepted && w.hubs[w.threads[sid].hub].sys.fdOpen)
  }

  function AfterWrite(w: World, sid: Sid, accepted: bool): World
    requires Enabled(w, WriteOut(sid, accepted))
  {
    var t := w.threads[sid];
    var d := Decoded(t);
    var a := w.atts[t.att];
    var t' := t.(pc := if d.detached then Leaving else Looping, escape := d.escape, chunk := []);
    var next := w.(threads := w.threads[sid := t']);
    if WriteIsLost(w, sid, accepted) then
      next.(hubs := OnHub(w, t.hub, HubSteps.WriteFails), atts := w.atts[t.att := a.(lost := true)])
    else
      var atts := w.atts[t.att := a.(taken := a.taken + t.chunk)];
      if d.out == [] then next.(atts := atts)
      else
        var hub := w.hubs[t.hub];
        next.(hubs := w.hubs[t.hub := hub.(log := hub.log + [Write(t.att, d.out)])], atts := atts)
  }

  function Step(w: World, a: Action): World {
    if !Enabled(w, a) then w
    else
      match a
      case Start(sid, user) =>
        w.(threads := w.threads[sid := Thread(AtPrompt, 0, "", false, 0, false, [])],
           sessions := w.sessions[sid := Session.Record(user, Session.AtPrompt, None, false)])
      case Attach(sid, h, readOnly) =>
        w.(threads := w.threads[sid := Thread(Chosen, h, w.hubs[h].name, readOnly, 0, false, [])])
      case Create(name, fd) =>
        if Live(w, name) then w.(given := w.given + {fd}, closed := w.closed + {fd})
        else
          w.(given := w.given + {fd}, hubs := w.hubs + [HubRec(name, fd, HubSteps.INIT, [])],
             registry := w.registry[name := |w.hubs|])
      case Record(sid) =>
        var t := w.threads[sid];
        Goto(w, sid, Recorded).(sessions :=
          Patched(w, sid, Session.Patch(Some(Session.InConsole), Some(Some(t.name)), Some(t.readOnly))))
      case Join(sid) =>
        var t := w.threads[sid];
        w.(threads := w.threads[sid := t.(pc := Joined, att := |w.atts|, escape := false, chunk := [])],
           hubs := OnHub(w, t.hub, HubSteps.Add(sid, t.readOnly)),
           atts := w.atts + [Attachment(sid, t.hub, t.readOnly, [], [], false)])
      case Confirm(sid) =>
        Goto(w, sid, Looping).(sessions := Patched(w, sid, Session.Patch(Some(Session.InConsole), None, None)))
      case Check(sid) => Goto(w, sid, if w.hubs[w.threads[sid].hub].sys.done then Leaving else Receiving)
      case Recv(sid, data) =>
        var t := w.threads[sid];
        if data == [] then Goto(w, sid, Leaving)
        else if t.readOnly then Goto(w, sid, Looping)
        else
          var a := w.atts[t.att];
          w.(threads := w.threads[sid := t.(pc := Writing, chunk := data)],
             atts := w.atts[t.att := a.(fed := a.fed + data)])
      case WriteOut(sid, accepted) => AfterWrite(w, sid, accepted)
      case Leave(sid) =>
        Goto(w, sid, Left).(hubs := OnHub(w, w.threads[sid].hub, HubSteps.Remove(sid)))
      case Return(sid) =>
        Goto(w, sid, AtPrompt).(sessions := Patched(w, sid, Session.Patch(Some(Session.AtPrompt), Some(None), None)))
      case End(sid) => Goto(w, sid, Ended).(sessions := w.sessions - {sid})
      case Kill(sids) => w.(sessions := w.sessions - sids)
      case HubStep(h, a) => w.(hubs := OnHub(w, h, a))
      case RemoveIfDone(name) =>
        if w.hubs[w.registry[name]].sys.done then w.(registry := w.registry - {name}) else w
      case TeardownAll =>
        w.(registry := map[],
           hubs := seq(|w.hubs|, h requires 0 <= h < |w.hubs| =>
             if h in w.registry.Values then w.hubs[h].(sys := HubSteps.Step(w.hubs[h].sys, HubSteps.ShutDown))
             else w.hubs[h]))
  }

  function Exec(w: World, acts: seq<Action>): World
    decreases |acts|
  {
    if acts == [] then w else Exec(Step(w, acts[0]), acts[1..])
  }

  // ---------------------------------------------------------------------
  // What one step does to each part

  /** The step a hub takes when the world takes step a. */
  function HubAction(w: World, a: Action, h: nat): Option<HubSteps.Action>
    requires h < |w.hubs|
  {
    if !Enabled(w, a) then None
    else
      match a
      case Join(sid) => if w.threads[sid].hub == h then Some(HubSteps.Add(sid, w.threads[sid].readOnly)) else None
      case Leave(sid) => if w.threads[sid].hub == h then Some(HubSteps.Remove(sid)) else None
      case WriteOut(sid, accepted) =>
        if w.threads[sid].hub == h && WriteIsLost(w, sid, accepted) then Some(HubSteps.WriteFails) else None
      case HubStep(k, b) => if k == h then Some(b) else None
      case TeardownAll => if h in w.registry.Values then Some(HubSteps.ShutDown) else None
      case _ => None
  }

  lemma HubKeepsName(w: World, a: Action, h: nat)
    requires h < |w.hubs|
    ensures h < |Step(w, a).hubs|
    ensures Step(w, a).hubs[h].name == w.hubs[h].name && Step(w, a).hubs[h].fd == w.hubs[h].fd
  {
  }

  lemma HubSysFollows(w: World, a: Action, h: nat)
    requires h < |w.hubs|
    ensures h < |Step(w, a).hubs|
    ensures Step(w, a).hubs[h].sys ==
      match HubAction(w, a, h) { case None => w.hubs[h].sys case Some(b) => HubSteps.Step(w.hubs[h].sys, b) }
  {
  }

  lemma HubFollows(w: World, a: Action, h: nat)
    requires h < |w.hubs|
    ensures h < |Step(w, a).hubs|
    ensures var now, next := w.hubs[h], Step(w, a).hubs[h];
      && next.name == now.name && next.fd == now.fd
      && next.sys == match HubAction(w, a, h) { case None => now.sys case Some(b) => HubSteps.Step(now.sys, b) }
  {
    HubKeepsName(w, a, h);
    HubSysFollows(w, a, h);
  }

  /** No step unsets done, renames a hub or changes its descriptor. */
  lemma HubsOnlyAge(w: World, a: Action, h: nat)
    requires h < |w.hubs|
    ensures h < |Step(w, a).hubs|
    ensures Step(w, a).hubs[h].name == w.hubs[h].name && Step(w, a).hubs[h].fd == w.hubs[h].fd
    ensures w.hubs[h].sys.done ==> Step(w, a).hubs[h].sys.done
  {
    HubFollows(w, a, h);
    if HubAction(w, a, h).Some? {
      HubSteps.DoneStays(w.hubs[h].sys, HubAction(w, a, h).value);
    }
  }

  predicate Creates(w: World, a: Action) {
    a.Create? && Enabled(w, a) && !Live(w, a.name)
  }

  lemma HubsFollow(w: World, a: Action)
    ensures |Step(w, a).hubs| == |w.hubs| + (if Creates(w, a) then 1 else 0)
    ensures Creates(w, a) ==> Step(w, a).hubs[|w.hubs|] == HubRec(a.name, a.fd, HubSteps.INIT, [])
  {
  }

  lemma RegistryFollows(w: World, a: Action)
    ensures var r := Step(w, a).registry;
      || r == w.registry
      || (Creates(w, a) && r == w.registry[a.name := |w.hubs|])
      || (a.RemoveIfDone? && Enabled(w, a) && w.hubs[w.registry[a.name]].sys.done && r == w.registry - {a.name})
      || (a.TeardownAll? && r == map[])
    ensures Creates(w, a) ==> Step(w, a).registry == w.registry[a.name := |w.hubs|]
  {
  }

  /** The session thread that takes the step, if it is one. */
  function Actor(a: Action): Option<Sid> {
    match a
    case Start(sid, _) => Some(sid)
    case Attach(sid, _, _) => Some(sid)
    case Record(sid) => Some(sid)
    case Join(sid) => Some(sid)
    case Confirm(sid) => Some(sid)
    case Check(sid) => Some(sid)
    case Recv(sid, _) => Some(sid)
    case WriteOut(sid, _) => Some(sid)
    case Leave(sid) => Some(sid)
    case Return(sid) => Some(sid)
    case End(sid) => Some(sid)
    case _ => None
  }

  lemma OtherThreadsUntouched(w: World, a: Action, s: Sid)
    requires Actor(a) != Some(s)
    ensures s in Step(w, a).threads <==> s in w.threads
    ensures s in w.threads ==> Step(w, a).threads[s] == w.threads[s]
  {
  }

  lemma OtherSessionsUntouched(w: World, a: Action, s: Sid)
    requires Actor(a) != Some(s)
    ensures s in Step(w, a).sessions ==> s in w.sessions && Step(w, a).sessions[s] == w.sessions[s]
  {
  }

  lemma OthersUntouched(w: World, a: Action, s: Sid)
    requires Actor(a) != Some(s)
    ensures s in Step(w, a).threads <==> s in w.threads
    ensures s in w.threads ==> Step(w, a).threads[s] == w.threads[s]
    ensures s in Step(w, a).sessions ==> s in w.sessions && Step(w, a).sessions[s] == w.sessions[s]
  {
    OtherThreadsUntouched(w, a, s);
    OtherSessionsUntouched(w, a, s);
  }

  /** A thread's own step changes its hub and its console only when it picks a hub. */
  lemma ActorKeepsHub(w: World, a: Action, s: Sid)
    requires Actor(a) == Some(s) && s in w.threads && !a.Attach?
    ensures s in Step(w, a).threads
    ensures Step(w, a).threads[s].hub == w.threads[s].hub && Step(w, a).threads[s].name == w.threads[s].name
    ensures var pc, pc' := w.threads[s].pc, Step(w, a).threads[s].pc;
      pc'.Chosen? || Attached(pc') ==> pc.Chosen? || Attached(pc)
  {
  }

  // ---------------------------------------------------------------------
  // The registry and its descriptors

  ghost predicate RegistryInv(w: World) {
    && (forall n :: n in w.registry ==> w.registry[n] < |w.hubs| && w.hubs[w.registry[n]].name == n)
    && (forall h :: 0 <= h < |w.hubs| && !w.hubs[h].sys.done ==>
          w.hubs[h].name in w.registry && w.registry[w.hubs[h].name] == h)
  }

  ghost predicate FdInv(w: World) {
    && w.closed <= w.given
    && (forall h :: 0 <= h < |w.hubs| ==> w.hubs[h].fd in w.given && w.hubs[h].fd !in w.closed)
    && (forall h, k :: 0 <= h < k < |w.hubs| ==> w.hubs[h].fd != w.hubs[k].fd)
    && (forall fd :: fd in w.given ==> fd in w.closed || exists h :: 0 <= h < |w.hubs| && w.hubs[h].fd == fd)
  }

  ghost predicate HubsInv(w: World) {
    forall h :: 0 <= h < |w.hubs| ==> HubSteps.Inv(w.hubs[h].sys)
  }

  lemma StepKeepsRegistry(w: World, a: Action)
    requires RegistryInv(w)
    ensures RegistryInv(Step(w, a))
  {
    var w' := Step(w, a);
    RegistryFollows(w, a);
    HubsFollow(w, a);
    forall n | n in w'.registry ensures w'.registry[n] < |w'.hubs| && w'.hubs[w'.registry[n]].name == n {
      if n in w.registry && w'.registry[n] == w.registry[n] {
        HubsOnlyAge(w, a, w.registry[n]);
      }
    }
    forall h | 0 <= h < |w'.hubs| && !w'.hubs[h].sys.done
      ensures w'.hubs[h].name in w'.registry && w'.registry[w'.hubs[h].name] == h
    {
      if h < |w.hubs| {
        StillRegistered(w, a, h);
      }
    }
  }

  lemma StillRegistered(w: World, a: Action, h: nat)
    requires RegistryInv(w) && h < |w.hubs| && h < |Step(w, a).hubs| && !Step(w, a).hubs[h].sys.done
    ensures w.hubs[h].name in Step(w, a).registry && Step(w, a).registry[w.hubs[h].name] == h
    ensures Step(w, a).hubs[h].name == w.hubs[h].name
  {
    RegistryFollows(w, a);
    HubsOnlyAge(w, a, h);
    HubFollows(w, a, h);
    assert w.registry[w.hubs[h].name] == h;
    assert h in w.registry.Values;
  }

  lemma StepKeepsFds(w: World, a: Action)
    requires FdInv(w)
    ensures FdInv(Step(w, a))
  {
    HubsFollow(w, a);
    FdsFollow(w, a);
    forall h | 0 <= h < |w.hubs| ensures Step(w, a).hubs[h].fd == w.hubs[h].fd {
      HubsOnlyAge(w, a, h);
    }
    FdsKept(w, Step(w, a), if Creates(w, a) then 1 else 0, if a.Create? && Enabled(w, a) then {a.fd} else {});
  }

  /** The invariant depends on the descriptors alone: `added` new hubs and at most one new descriptor keep it. */
  lemma FdsKept(w: World, w': World, added: nat, fds: set<nat>)
    requires FdInv(w) && added <= 1 && fds !! w.given && |w'.hubs| == |w.hubs| + added
    requires forall h :: 0 <= h < |w.hubs| ==> w'.hubs[h].fd == w.hubs[h].fd
    requires w'.given == w.given + fds && w'.closed == w.closed + (if added == 1 then {} else fds)
    requires added == 1 ==> fds == {w'.hubs[|w.hubs|].fd}
    ensures FdInv(w')
  {
    forall fd | fd in w'.given
      ensures fd in w'.closed || exists h :: 0 <= h < |w'.hubs| && w'.hubs[h].fd == fd
    {
      if fd in w.given && fd !in w.closed {
        var h :| 0 <= h < |w.hubs| && w.hubs[h].fd == fd;
        assert w'.hubs[h].fd == fd;
      } else if fd !in w.given && added == 1 {
        assert w'.hubs[|w.hubs|].fd == fd;
      }
    }
  }

  lemma FdsFollow(w: World, a: Action)
    ensures var w' := Step(w, a);
      if a.Create? && Enabled(w, a) then
        && a.fd !in w.given && w'.given == w.given + {a.fd}
        && w'.closed == w.closed + (if Creates(w, a) then {} else {a.fd})
      else w'.given == w.given && w'.closed == w.closed
  {
  }

  lemma StepKeepsHubs(w: World, a: Action)
    requires HubsInv(w)
    ensures HubsInv(Step(w, a))
  {
    var w' := Step(w, a);
    HubsFollow(w, a);
    forall h | 0 <= h < |w'.hubs| ensures HubSteps.Inv(w'.hubs[h].sys) {
      if h < |w.hubs| {
        HubFollows(w, a, h);
        if HubAction(w, a, h).Some? {
          HubSteps.StepKeepsInv(w.hubs[h].sys, HubAction(w, a, h).value);
        }
      }
    }
  }

  // ---------------------------------------------------------------------
  // Session table and hubs agree

  /** A thread from the moment its session is recorded at a console until it has left the hub. */
  predicate Attached(pc: Pc) {
    pc.Recorded? || InHub(pc)
  }

  /** A thread that has picked a hub has picked one of the name it asked for. */
  ghost predicate NameInv(w: World, sid: Sid)
    requires sid in w.threads
  {
    var t := w.threads[sid];
    t.pc.Chosen? || Attached(t.pc) ==> t.hub < |w.hubs| && w.hubs[t.hub].name == t.name
  }

  /** The record of an attached thread, if it is still there. */
  ghost predicate RecordInv(w: World, sid: Sid)
    requires sid in w.threads
  {
    var t := w.threads[sid];
    Attached(t.pc) && sid in w.sessions ==>
      && w.sessions[sid].state == Session.InConsole && w.sessions[sid].console == Some(t.name)
      && w.sessions[sid].readOnly == t.readOnly
  }

  /** The record of a thread at the prompt, if it is still there. */
  ghost predicate PromptInv(w: World, sid: Sid)
    requires sid in w.threads
  {
    w.threads[sid].pc in {AtPrompt, Chosen} && sid in w.sessions ==>
      w.sessions[sid].state == Session.AtPrompt && w.sessions[sid].console == None
  }

  ghost predicate ThreadInv(w: World, sid: Sid)
    requires sid in w.threads
  {
    NameInv(w, sid) && RecordInv(w, sid) && PromptInv(w, sid)
  }

  /** A client of hub h is a thread that is attached to it in the same mode. */
  ghost predicate ClientInv(w: World, h: nat, sid: Sid)
    requires h < |w.hubs| && sid in w.hubs[h].sys.hub.clients
  {
    && sid in w.threads && InHub(w.threads[sid].pc) && w.threads[sid].hub == h
    && w.hubs[h].sys.hub.clients[sid].readOnly == w.threads[sid].readOnly
  }

  ghost predicate TableInv(w: World) {
    && (forall s :: s in w.sessions ==> s in w.threads)
    && (forall s :: s in w.threads ==> ThreadInv(w, s))
    && (forall h, s :: 0 <= h < |w.hubs| && s in w.hubs[h].sys.hub.clients ==> ClientInv(w, h, s))
  }

  /** A hub's own steps never add a client and never change a client's mode. */
  lemma HubStepsOnlyDrop(s: HubSteps.Sys, a: HubSteps.Action, c: Sid)
    requires c in HubSteps.Step(s, a).hub.clients && !(a.Add? && a.cid == c)
    ensures c in s.hub.clients
    ensures HubSteps.Step(s, a).hub.clients[c].readOnly == s.hub.clients[c].readOnly
    ensures HubSteps.Enabled(s, a) ==> !(a.Remove? && a.cid == c)
  {
    HubSteps.ClientsFollow(s, a);
  }

  lemma StepKeepsName(w: World, a: Action, sid: Sid)
    requires sid in Step(w, a).threads
    requires sid in w.threads ==> NameInv(w, sid)
    ensures NameInv(Step(w, a), sid)
  {
    if Actor(a) == Some(sid) && (a.Attach? || a.Start?) {
      PickerKeepsName(w, a, sid);
    } else {
      if Actor(a) == Some(sid) && sid in w.threads {
        ActorKeepsHub(w, a, sid);
      } else if Actor(a) != Some(sid) {
        OtherThreadsUntouched(w, a, sid);
      }
      if sid in w.threads && w.threads[sid].hub < |w.hubs| {
        HubsOnlyAge(w, a, w.threads[sid].hub);
      }
    }
  }

  lemma PickerKeepsName(w: World, a: Action, sid: Sid)
    requires Actor(a) == Some(sid) && (a.Attach? || a.Start?) && sid in Step(w, a).threads
    requires sid in w.threads ==> NameInv(w, sid)
    ensures NameInv(Step(w, a), sid)
  {
  }

  lemma StepKeepsRecord(w: World, a: Action, sid: Sid)
    requires sid in Step(w, a).threads
    requires sid in w.threads ==> RecordInv(w, sid)
    ensures RecordInv(Step(w, a), sid)
  {
    if Actor(a) != Some(sid) {
      OthersUntouched(w, a, sid);
    }
  }

  lemma StepKeepsPrompt(w: World, a: Action, sid: Sid)
    requires sid in Step(w, a).threads
    requires sid in w.threads ==> PromptInv(w, sid)
    ensures PromptInv(Step(w, a), sid)
  {
    if Actor(a) != Some(sid) {
      OthersUntouched(w, a, sid);
    }
  }

  lemma StepKeepsThread(w: World, a: Action, sid: Sid)
    requires TableInv(w) && sid in Step(w, a).threads
    ensures ThreadInv(Step(w, a), sid)
  {
    if sid in w.threads {
      assert ThreadInv(w, sid);
    }
    StepKeepsName(w, a, sid);
    StepKeepsRecord(w, a, sid);
    StepKeepsPrompt(w, a, sid);
  }

  /** How a thread that is attached to hub h goes on being attached to it. */
  lemma StaysInHub(w: World, a: Action, sid: Sid)
    requires sid in w.threads && InHub(w.threads[sid].pc)
    ensures sid in Step(w, a).threads
    ensures Step(w, a).threads[sid].hub == w.threads[sid].hub
    ensures Step(w, a).threads[sid].readOnly == w.threads[sid].readOnly
    ensures !(a == Leave(sid) && Enabled(w, a)) ==> InHub(Step(w, a).threads[sid].pc)
  {
    if Actor(a) != Some(sid) {
      OthersUntouched(w, a, sid);
    }
  }

  lemma StepKeepsClient(w: World, a: Action, h: nat, sid: Sid)
    requires TableInv(w)
    requires h < |Step(w, a).hubs| && sid in Step(w, a).hubs[h].sys.hub.clients
    ensures ClientInv(Step(w, a), h, sid)
  {
    HubsFollow(w, a);
    if h < |w.hubs| {
      HubFollows(w, a, h);
      var b := HubAction(w, a, h);
      if !(b.Some? && b.value.Add? && b.value.cid == sid) {
        if b.Some? {
          HubStepsOnlyDrop(w.hubs[h].sys, b.value, sid);
        }
        assert ClientInv(w, h, sid);
        StaysInHub(w, a, sid);
      }
    }
  }

  lemma StepKeepsTable(w: World, a: Action)
    requires TableInv(w)
    ensures TableInv(Step(w, a))
  {
    var w' := Step(w, a);
    forall s | s in w'.sessions ensures s in w'.threads {
      if Actor(a) != Some(s) {
        OthersUntouched(w, a, s);
      }
    }
    forall s | s in w'.threads ensures ThreadInv(w', s) {
      StepKeepsThread(w, a, s);
    }
    forall h, s | 0 <= h < |w'.hubs| && s in w'.hubs[h].sys.hub.clients ensures ClientInv(w', h, s) {
      StepKeepsClient(w, a, h, s);
    }
  }

  // ---------------------------------------------------------------------
  // What the console receives

  /** The bytes one attachment has put on a console, in order. */
  function Project(log: seq<Write>, k: nat): seq<byte> {
    if log == [] then []
    else
      var n := |log| - 1;
      Project(log[..n], k) + (if log[n].att == k then log[n].data else [])
  }

  lemma ProjectSnoc(log: seq<Write>, x: Write, k: nat)
    ensures Project(log + [x], k) == Project(log, k) + (if x.att == k then x.data else [])
  {
    assert (log + [x])[..|log|] == log;
  }

  lemma {:induction false} ProjectNothing(log: seq<Write>, k: nat)
    requires forall i :: 0 <= i < |log| ==> log[i].att != k
    ensures Project(log, k) == []
  {
    if log != [] { ProjectNothing(log[..|log| - 1], k); }
  }

  /** What attachment k has put on its console is the decode of the bytes passed on so far. */
  ghost predicate AttInv(w: World, k: nat)
    requires k < |w.atts|
  {
    var a := w.atts[k];
    && a.hub < |w.hubs| && a.taken <= a.fed && (a.readOnly ==> a.fed == [])
    && Project(w.hubs[a.hub].log, k) == Decode(START, a.taken).out
  }

  /** Every write on a console was made by an attachment to that console. */
  ghost predicate LogInv(w: World, h: nat)
    requires h < |w.hubs|
  {
    forall i :: 0 <= i < |w.hubs[h].log| ==>
      w.hubs[h].log[i].att < |w.atts| && w.atts[w.hubs[h].log[i].att].hub == h
  }

  /** The decoder of an attached thread is where its attachment's bytes have brought it. */
  ghost predicate DecoderInv(w: World, sid: Sid)
    requires sid in w.threads
  {
    var t := w.threads[sid];
    InHub(t.pc) ==>
      && t.hub < |w.hubs| && t.att < |w.atts|
      && var a := w.atts[t.att];
      && a.sid == sid && a.hub == t.hub && a.readOnly == t.readOnly
      && (t.pc.Writing? ==> !a.readOnly)
      && (a.lost ==> w.hubs[t.hub].sys.done && (t.pc.Looping? || t.pc.Leaving?))
      && (!a.lost && !t.pc.Leaving? ==>
            && Decode(START, a.taken) == Decoder(Decode(START, a.taken).out, t.escape, false)
            && a.fed == a.taken + (if t.pc.Writing? then t.chunk else []))
  }

  ghost predicate InputInv(w: World) {
    && (forall k :: 0 <= k < |w.atts| ==> AttInv(w, k))
    && (forall h :: 0 <= h < |w.hubs| ==> LogInv(w, h))
    && (forall s :: s in w.threads ==> DecoderInv(w, s))
  }

  /** The attachment whose bookkeeping the step touches. */
  function Touched(w: World, a: Action): Option<nat> {
    if !Enabled(w, a) then None
    else
      match a
      case Recv(sid, data) => if data == [] || w.threads[sid].readOnly then None else Some(w.threads[sid].att)
      case WriteOut(sid, _) => Some(w.threads[sid].att)
      case _ => None
  }

  lemma AttsFollow(w: World, a: Action)
    ensures |Step(w, a).atts| == |w.atts| + (if a.Join? && Enabled(w, a) then 1 else 0)
    ensures a.Join? && Enabled(w, a) ==>
      Step(w, a).atts[|w.atts|] == Attachment(a.sid, w.threads[a.sid].hub, w.threads[a.sid].readOnly, [], [], false)
    ensures forall k :: 0 <= k < |w.atts| && Touched(w, a) != Some(k) ==> Step(w, a).atts[k] == w.atts[k]
    ensures forall k :: 0 <= k < |w.atts| ==>
      Step(w, a).atts[k].hub == w.atts[k].hub && Step(w, a).atts[k].sid == w.atts[k].sid &&
      Step(w, a).atts[k].readOnly == w.atts[k].readOnly
  {
  }

  /** The step writes on hub h. */
  predicate WritesOn(w: World, a: Action, h: nat) {
    a.WriteOut? && Enabled(w, a) && w.threads[a.sid].hub == h && Decoded(w.threads[a.sid]).out != [] &&
    !WriteIsLost(w, a.sid, a.accepted)
  }

  lemma LogFollows(w: World, a: Action, h: nat)
    requires h < |w.hubs|
    ensures h < |Step(w, a).hubs|
    ensures Step(w, a).hubs[h].log ==
      if WritesOn(w, a, h) then w.hubs[h].log + [Write(w.threads[a.sid].att, Decoded(w.threads[a.sid]).out)]
      else w.hubs[h].log
  {
  }

  /** Passing one more chunk through the decoder. */
  lemma OneMoreChunk(taken: seq<byte>, escape: bool, chunk: seq<byte>)
    requires Decode(START, taken) == Decoder(Decode(START, taken).out, escape, false)
    ensures var d := Decode(Decoder([], escape, false), chunk);
      Decode(START, taken + chunk) == Decoder(Decode(START, taken).out + d.out, d.escape, d.detached)
  {
    DecodeAppend(START, taken, chunk);
    OutputAccumulates(Decode(START, taken), chunk);
    StateAccumulates(Decode(START, taken), chunk);
  }

  lemma TouchedAttachment(w: World, a: Action, k: nat)
    requires InputInv(w) && k < |w.atts| && Touched(w, a) == Some(k)
    ensures k < |Step(w, a).atts| && AttInv(Step(w, a), k)
  {
    var t := w.threads[a.sid];
    assert DecoderInv(w, a.sid) && AttInv(w, k);
    LogFollows(w, a, t.hub);
    if a.WriteOut? {
      OneMoreChunk(w.atts[k].taken, t.escape, t.chunk);
      if WritesOn(w, a, t.hub) {
        ProjectSnoc(w.hubs[t.hub].log, Write(k, Decoded(t).out), k);
      }
    }
  }

  lemma StepKeepsAttachment(w: World, a: Action, k: nat)
    requires InputInv(w) && k < |Step(w, a).atts|
    ensures AttInv(Step(w, a), k)
  {
    AttsFollow(w, a);
    if Touched(w, a) == Some(k) {
      TouchedAttachment(w, a, k);
    } else if k < |w.atts| {
      assert AttInv(w, k);
      var h := w.atts[k].hub;
      LogFollows(w, a, h);
      if WritesOn(w, a, h) {
        ProjectSnoc(w.hubs[h].log, Write(w.threads[a.sid].att, Decoded(w.threads[a.sid]).out), k);
      }
    } else {
      var h := w.threads[a.sid].hub;
      assert LogInv(w, h);
      LogFollows(w, a, h);
      ProjectNothing(w.hubs[h].log, k);
    }
  }

  lemma StepKeepsLog(w: World, a: Action, h: nat)
    requires InputInv(w) && h < |Step(w, a).hubs|
    ensures LogInv(Step(w, a), h)
  {
    AttsFollow(w, a);
    HubsFollow(w, a);
    if h < |w.hubs| {
      assert LogInv(w, h);
      LogFollows(w, a, h);
      if WritesOn(w, a, h) {
        assert DecoderInv(w, a.sid);
      }
    }
  }

  lemma StepKeepsDecoder(w: World, a: Action, sid: Sid)
    requires InputInv(w) && sid in Step(w, a).threads
    ensures DecoderInv(Step(w, a), sid)
  {
    AttsFollow(w, a);
    if sid in w.threads {
      assert DecoderInv(w, sid);
      if w.threads[sid].hub < |w.hubs| {
        HubsOnlyAge(w, a, w.threads[sid].hub);
      }
    }
    if Actor(a) != Some(sid) {
      OthersUntouched(w, a, sid);
      if Touched(w, a).Some? {
        assert DecoderInv(w, a.sid);
      }
    } else {
      ActorKeepsDecoder(w, a, sid);
    }
  }

  lemma ActorKeepsDecoder(w: World, a: Action, sid: Sid)
    requires InputInv(w) && Actor(a) == Some(sid) && sid in Step(w, a).threads
    ensures DecoderInv(Step(w, a), sid)
  {
    match a {
      case Join(_) => JoinerKeepsDecoder(w, sid);
      case Recv(_, data) => ReceiverKeepsDecoder(w, sid, data);
      case WriteOut(_, accepted) => WriterKeepsDecoder(w, sid, accepted);
      case _ => MoverKeepsDecoder(w, a, sid);
    }
  }

  /** The steps that only move a thread along. */
  lemma MoverKeepsDecoder(w: World, a: Action, sid: Sid)
    requires InputInv(w) && Actor(a) == Some(sid) && sid in Step(w, a).threads
    requires !a.Join? && !a.Recv? && !a.WriteOut?
    ensures DecoderInv(Step(w, a), sid)
  {
    if sid in w.threads {
      assert DecoderInv(w, sid);
    }
  }

  lemma JoinerKeepsDecoder(w: World, sid: Sid)
    requires InputInv(w) && sid in Step(w, Join(sid)).threads
    ensures DecoderInv(Step(w, Join(sid)), sid)
  {
    if sid in w.threads {
      assert DecoderInv(w, sid);
    }
    assert Decode(START, []) == START;
  }

  /** The receiving thread and its attachment after the step. */
  lemma ReceiverFollows(w: World, sid: Sid, data: seq<byte>)
    requires Enabled(w, Recv(sid, data))
    ensures var w', t := Step(w, Recv(sid, data)), w.threads[sid];
      && sid in w'.threads && |w'.atts| == |w.atts| && w'.hubs == w.hubs
      && if data == [] then w'.threads[sid] == t.(pc := Leaving) && w'.atts == w.atts
         else if t.readOnly then w'.threads[sid] == t.(pc := Looping) && w'.atts == w.atts
         else
           && w'.threads[sid] == t.(pc := Writing, chunk := data)
           && w'.atts[t.att] == w.atts[t.att].(fed := w.atts[t.att].fed + data)
  {
  }

  lemma ReceiverKeepsDecoder(w: World, sid: Sid, data: seq<byte>)
    requires InputInv(w) && sid in w.threads
    ensures DecoderInv(Step(w, Recv(sid, data)), sid)
  {
    assert DecoderInv(w, sid);
    if Enabled(w, Recv(sid, data)) {
      ReceiverFollows(w, sid, data);
      var taken := w.atts[w.threads[sid].att].taken;
      assert taken + [] == taken;
    }
  }

  /** The writing thread and its attachment after the step. */
  lemma WriterFollows(w: World, sid: Sid, accepted: bool)
    requires Enabled(w, WriteOut(sid, accepted))
    ensures var w', t := Step(w, WriteOut(sid, accepted)), w.threads[sid];
      var a := w.atts[t.att];
      var d := Decoded(t);
      && sid in w'.threads && |w'.atts| == |w.atts| && |w'.hubs| == |w.hubs|
      && w'.threads[sid] == t.(pc := if d.detached then Leaving else Looping, escape := d.escape, chunk := [])
      && w'.atts[t.att] == (if WriteIsLost(w, sid, accepted) then a.(lost := true) else a.(taken := a.taken + t.chunk))
      && (w.hubs[t.hub].sys.done || WriteIsLost(w, sid, accepted) ==> w'.hubs[t.hub].sys.done)
  {
  }

  lemma WriterKeepsDecoder(w: World, sid: Sid, accepted: bool)
    requires InputInv(w) && sid in w.threads
    ensures DecoderInv(Step(w, WriteOut(sid, accepted)), sid)
  {
    assert DecoderInv(w, sid);
    if Enabled(w, WriteOut(sid, accepted)) {
      WriterFollows(w, sid, accepted);
      var t := w.threads[sid];
      var taken := w.atts[t.att].taken + t.chunk;
      OneMoreChunk(w.atts[t.att].taken, t.escape, t.chunk);
      assert taken + [] == taken;
    }
  }

  lemma StepKeepsInput(w: World, a: Action)
    requires InputInv(w)
    ensures InputInv(Step(w, a))
  {
    var w' := Step(w, a);
    forall k | 0 <= k < |w'.atts| ensures AttInv(w', k) {
      StepKeepsAttachment(w, a, k);
    }
    forall h | 0 <= h < |w'.hubs| ensures LogInv(w', h) {
      StepKeepsLog(w, a, h);
    }
    forall s | s in w'.threads ensures DecoderInv(w', s) {
      StepKeepsDecoder(w, a, s);
    }
  }

  // ---------------------------------------------------------------------
  // Main results over every run

  ghost predicate Inv(w: World) {
    RegistryInv(w) && FdInv(w) && HubsInv(w) && TableInv(w) && InputInv(w)
  }

  lemma StepKeepsInv(w: World, a: Action)
    requires Inv(w)
    ensures Inv(Step(w, a))
  {
    StepKeepsRegistry(w, a);
    StepKeepsFds(w, a);
    StepKeepsHubs(w, a);
    StepKeepsTable(w, a);
    StepKeepsInput(w, a);
  }

  lemma {:induction false} InvAlways(w: World, acts: seq<Action>)
    requires Inv(w)
    ensures Inv(Exec(w, acts))
    decreases |acts|
  {
    if acts != [] {
      StepKeepsInv(w, acts[0]);
      InvAlways(Step(w, acts[0]), acts[1..]);
    }
  }

  /** A client of a hub whose session is still listed is listed at that console, in that mode. */
  lemma SessionTableMatchesHubs(acts: seq<Action>, h: nat, sid: Sid)
    requires var w := Exec(INIT, acts);
      h < |w.hubs| && sid in w.hubs[h].sys.hub.clients && sid in w.sessions
    ensures var w := Exec(INIT, acts);
      && w.sessions[sid].state == Session.InConsole
      && w.sessions[sid].console == Some(w.hubs[h].name)
      && w.sessions[sid].readOnly == w.hubs[h].sys.hub.clients[sid].readOnly
  {
    InvAlways(INIT, acts);
    var w := Exec(INIT, acts);
    assert ClientInv(w, h, sid) && ThreadInv(w, sid);
  }

  /** A listed session whose thread is back at the prompt is listed at the prompt, at no console. */
  lemma PromptIsRecorded(acts: seq<Action>, sid: Sid)
    requires var w := Exec(INIT, acts);
      sid in w.threads && w.threads[sid].pc in {AtPrompt, Chosen} && sid in w.sessions
    ensures var w := Exec(INIT, acts);
      w.sessions[sid].state == Session.AtPrompt && w.sessions[sid].console == None
  {
    InvAlways(INIT, acts);
    assert ThreadInv(Exec(INIT, acts), sid);
  }

  // The table lists exactly the running threads that enforcement has not dropped.

  ghost predicate Listed(w: World) {
    forall s :: s in w.sessions <==> s in w.threads && w.threads[s].pc != Ended
  }

  lemma ListedFollows(w: World, a: Action, s: Sid)
    requires !a.Kill? && Actor(a) == Some(s)
    requires s in w.sessions <==> s in w.threads && w.threads[s].pc != Ended
    ensures s in Step(w, a).sessions <==> s in Step(w, a).threads && Step(w, a).threads[s].pc != Ended
  {
  }

  lemma OthersListed(w: World, a: Action, s: Sid)
    requires !a.Kill? && Actor(a) != Some(s)
    ensures s in Step(w, a).sessions <==> s in w.sessions
  {
  }

  lemma {:induction false} SessionsAreListed(w: World, acts: seq<Action>)
    requires Listed(w) && forall i :: 0 <= i < |acts| ==> !acts[i].Kill?
    ensures Listed(Exec(w, acts))
    decreases |acts|
  {
    if acts != [] {
      var a := acts[0];
      forall s
        ensures s in Step(w, a).sessions <==> s in Step(w, a).threads && Step(w, a).threads[s].pc != Ended
      {
        if Actor(a) == Some(s) {
          ListedFollows(w, a, s);
        } else {
          OthersListed(w, a, s);
          OtherThreadsUntouched(w, a, s);
        }
      }
      SessionsAreListed(Step(w, a), acts[1..]);
    }
  }

  /** A dropped session is gone from the table, and no later step of its thread brings it back. */
  lemma {:induction false} DroppedStaysDropped(w: World, acts: seq<Action>, sid: Sid)
    requires sid in w.threads && sid !in w.sessions
    ensures sid !in Exec(w, acts).sessions
    decreases |acts|
  {
    if acts != [] {
      DroppedOneStep(w, acts[0], sid);
      DroppedStaysDropped(Step(w, acts[0]), acts[1..], sid);
    }
  }

  lemma DroppedOneStep(w: World, a: Action, sid: Sid)
    requires sid in w.threads && sid !in w.sessions
    ensures sid in Step(w, a).threads && sid !in Step(w, a).sessions
  {
    if Actor(a) != Some(sid) { OthersUntouched(w, a, sid); }
  }

  lemma KillDrops(w: World, sids: set<Sid>, sid: Sid)
    ensures sid in Step(w, Kill(sids)).sessions <==> sid in w.sessions && sid !in sids
    ensures sid in w.sessions && sid !in sids ==> Step(w, Kill(sids)).sessions[sid] == w.sessions[sid]
  {
  }

  /** A client is attached to one hub at a time. */
  lemma OneHubPerClient(acts: seq<Action>, h: nat, k: nat, sid: Sid)
    requires var w := Exec(INIT, acts);
      h < |w.hubs| && k < |w.hubs| && sid in w.hubs[h].sys.hub.clients && sid in w.hubs[k].sys.hub.clients
    ensures h == k
  {
    InvAlways(INIT, acts);
    assert ClientInv(Exec(INIT, acts), h, sid) && ClientInv(Exec(INIT, acts), k, sid);
  }

  /** Of all the hubs ever created under a name at most one is live, and the registry finds it. */
  lemma OneLiveHubPerName(acts: seq<Action>, h: nat, k: nat)
    requires var w := Exec(INIT, acts);
      h < |w.hubs| && k < |w.hubs| && w.hubs[h].name == w.hubs[k].name && !w.hubs[h].sys.done && !w.hubs[k].sys.done
    ensures h == k && Live(Exec(INIT, acts), Exec(INIT, acts).hubs[h].name)
  {
    InvAlways(INIT, acts);
    var w := Exec(INIT, acts);
    assert w.registry[w.hubs[h].name] == h && w.registry[w.hubs[k].name] == k;
  }

  /** After a create there is a live hub under the name: the one there was, or a new one that owns the descriptor. */
  lemma CreateMakesLive(acts: seq<Action>, name: string, fd: nat)
    requires fd !in Exec(INIT, acts).given
    ensures var w := Exec(INIT, acts);
      var w' := Step(w, Create(name, fd));
      && Live(w', name)
      && if Live(w, name) then w'.hubs == w.hubs && w'.registry == w.registry && fd in w'.closed
         else
           && w'.hubs == w.hubs + [HubRec(name, fd, HubSteps.INIT, [])]
           && w'.registry[name] == |w.hubs| && fd !in w'.closed
  {
    InvAlways(INIT, acts);
  }

  lemma OnlyDoneForgotten(w: World, name: string)
    requires RegistryInv(w)
    ensures var w' := Step(w, RemoveIfDone(name));
      && w'.hubs == w.hubs && w'.registry == if Live(w, name) then w.registry else w.registry - {name}
  {
    if name !in w.registry {
      assert w.registry - {name} == w.registry;
    }
  }

  /** A done hub is forgotten, a live one is not. */
  lemma RemoveForgetsDone(acts: seq<Action>, name: string)
    ensures var w := Exec(INIT, acts);
      var w' := Step(w, RemoveIfDone(name));
      && w'.hubs == w.hubs && w'.registry == if Live(w, name) then w.registry else w.registry - {name}
  {
    InvAlways(INIT, acts);
    OnlyDoneForgotten(Exec(INIT, acts), name);
  }

  /** Tearing everything down leaves no hub live, registered or not. */
  lemma TeardownEndsAll(acts: seq<Action>)
    ensures var w' := Step(Exec(INIT, acts), TeardownAll);
      w'.registry == map[] && forall h :: 0 <= h < |w'.hubs| ==> w'.hubs[h].sys.done
  {
    InvAlways(INIT, acts);
    var w := Exec(INIT, acts);
    forall h | 0 <= h < |w.hubs| ensures Step(w, TeardownAll).hubs[h].sys.done {
      TeardownEnds(w, h);
    }
  }

  lemma TeardownEnds(w: World, h: nat)
    requires RegistryInv(w) && h < |w.hubs|
    ensures |Step(w, TeardownAll).hubs| == |w.hubs| && Step(w, TeardownAll).hubs[h].sys.done
  {
    var now, next := w.hubs[h], Step(w, TeardownAll).hubs[h];
    if now.sys.done {
      HubsOnlyAge(w, TeardownAll, h);
    } else {
      assert w.registry[now.name] == h && h in w.registry.Values;
      assert next.sys == HubSteps.Step(now.sys, HubSteps.ShutDown);
      HubSteps.DoneOnlyBy(now.sys, HubSteps.ShutDown);
    }
  }

  /** Every descriptor handed to the registry is closed at once or owned by one hub, and a live hub's is open. */
  lemma EveryFdHasOneFate(acts: seq<Action>, fd: nat)
    requires fd in Exec(INIT, acts).given
    ensures var w := Exec(INIT, acts);
      && (fd in w.closed <==> !exists h :: 0 <= h < |w.hubs| && w.hubs[h].fd == fd)
      && (forall h, k :: 0 <= h < |w.hubs| && 0 <= k < |w.hubs| && w.hubs[h].fd == fd && w.hubs[k].fd == fd ==> h == k)
      && (forall h :: 0 <= h < |w.hubs| && w.hubs[h].fd == fd && !w.hubs[h].sys.done ==> w.hubs[h].sys.fdOpen)
  {
    InvAlways(INIT, acts);
  }

  /**
   * What a console receives is an interleaving of its clients' own streams: the writes
   * of each attachment are the decode of a prefix of the bytes its client sent, every
   * write belongs to an attachment to that console, and a read-only client writes nothing.
   */
  lemma ConsoleInputIsDecodedPrefix(acts: seq<Action>, k: nat)
    requires k < |Exec(INIT, acts).atts|
    ensures var w := Exec(INIT, acts);
      var a := w.atts[k];
      && a.hub < |w.hubs|
      && a.taken <= a.fed && Project(w.hubs[a.hub].log, k) == Decode(START, a.taken).out
      && (a.readOnly ==> Project(w.hubs[a.hub].log, k) == [])
      && (forall h, i :: 0 <= h < |w.hubs| && 0 <= i < |w.hubs[h].log| && w.hubs[h].log[i].att == k ==> h == a.hub)
  {
    InvAlways(INIT, acts);
    var w := Exec(INIT, acts);
    assert AttInv(w, k);
    forall h, i | 0 <= h < |w.hubs| && 0 <= i < |w.hubs[h].log| && w.hubs[h].log[i].att == k
      ensures h == w.atts[k].hub
    {
      assert LogInv(w, h);
    }
  }

  /** And a client whose writes all succeeded and whose thread is back in its loop has had every byte decoded. */
  lemma NothingIsHeldBack(acts: seq<Action>, sid: Sid)
    requires var w := Exec(INIT, acts);
      sid in w.threads && (w.threads[sid].pc.Looping? || w.threads[sid].pc.Receiving?) &&
      w.threads[sid].att < |w.atts| && !w.atts[w.threads[sid].att].lost
    ensures var w := Exec(INIT, acts);
      var k := w.threads[sid].att;
      && w.atts[k].hub < |w.hubs|
      && Project(w.hubs[w.atts[k].hub].log, k) == Decode(START, w.atts[k].fed).out
  {
    InvAlways(INIT, acts);
    var w := Exec(INIT, acts);
    assert DecoderInv(w, sid);
    assert AttInv(w, w.threads[sid].att);
    assert w.atts[w.threads[sid].att].taken + [] == w.atts[w.threads[sid].att].taken;
  }

  // ---------------------------------------------------------------------
  // What a client sends is what its attachment is fed

  /** The bytes recv() returns to the thread of attachment k, over the run. */
  function Received(w: World, acts: seq<Action>, k: nat): seq<byte>
    decreases |acts|
  {
    if acts == [] then []
    else Gives(w, acts[0], k) + Received(Step(w, acts[0]), acts[1..], k)
  }

  /** What a step gives to the thread of attachment k. */
  function Gives(w: World, a: Action, k: nat): seq<byte> {
    if a.Recv? && Enabled(w, a) && w.threads[a.sid].att == k then a.data else []
  }

  function FedSoFar(w: World, k: nat): seq<byte> {
    if k < |w.atts| then w.atts[k].fed else []
  }

  lemma OneStepFeeds(w: World, a: Action, k: nat)
    requires InputInv(w) && k < |Step(w, a).atts| && !Step(w, a).atts[k].readOnly
    ensures FedSoFar(Step(w, a), k) == FedSoFar(w, k) + Gives(w, a, k)
  {
    AttsFollow(w, a);
    if a.Recv? && Enabled(w, a) {
      assert DecoderInv(w, a.sid);
      ReceiverFollows(w, a.sid, a.data);
    } else if a.WriteOut? && Enabled(w, a) {
      WriterFollows(w, a.sid, a.accepted);
    }
  }

  lemma AttsOnlyGrow(w: World, a: Action)
    ensures |w.atts| <= |Step(w, a).atts|
    ensures forall k :: 0 <= k < |w.atts| ==> Step(w, a).atts[k].readOnly == w.atts[k].readOnly
  {
    AttsFollow(w, a);
  }

  lemma StepFeeds(w: World, a: Action, k: nat)
    requires Inv(w) && (k < |Step(w, a).atts| ==> !Step(w, a).atts[k].readOnly)
    ensures Inv(Step(w, a)) && FedSoFar(Step(w, a), k) == FedSoFar(w, k) + Gives(w, a, k)
  {
    StepKeepsInv(w, a);
    if k < |Step(w, a).atts| {
      OneStepFeeds(w, a, k);
    } else {
      NothingForLater(w, a, k);
    }
  }

  lemma {:induction false} RunFeeds(w: World, acts: seq<Action>, k: nat)
    requires Inv(w) && k < |Exec(w, acts).atts| && !Exec(w, acts).atts[k].readOnly
    ensures FedSoFar(Exec(w, acts), k) == FedSoFar(w, k) + Received(w, acts, k)
    decreases |acts|
  {
    if acts == [] {
      assert FedSoFar(w, k) + [] == FedSoFar(w, k);
    } else {
      var w', rest := Step(w, acts[0]), acts[1..];
      if k < |w'.atts| { KeepsMode(w', rest, k); }
      StepFeeds(w, acts[0], k);
      RunFeeds(w', rest, k);
      ThreeParts(FedSoFar(w, k), Gives(w, acts[0], k), Received(w', rest, k));
    }
  }

  lemma ThreeParts(a: seq<byte>, b: seq<byte>, c: seq<byte>)
    ensures a + b + c == a + (b + c)
  {
  }

  lemma NothingForLater(w: World, a: Action, k: nat)
    requires k >= |Step(w, a).atts|
    ensures Gives(w, a, k) == [] && FedSoFar(w, k) == FedSoFar(Step(w, a), k) == []
  {
    AttsOnlyGrow(w, a);
  }

  lemma {:induction false} KeepsMode(w: World, acts: seq<Action>, k: nat)
    requires k < |w.atts|
    ensures k < |Exec(w, acts).atts| && Exec(w, acts).atts[k].readOnly == w.atts[k].readOnly
    decreases |acts|
  {
    if acts != [] {
      AttsOnlyGrow(w, acts[0]);
      KeepsMode(Step(w, acts[0]), acts[1..], k);
    }
  }

  /** A read-write attachment has been fed exactly the bytes its client's socket gave, in order. */
  lemma FedIsReceived(acts: seq<Action>, k: nat)
    requires k < |Exec(INIT, acts).atts| && !Exec(INIT, acts).atts[k].readOnly
    ensures Exec(INIT, acts).atts[k].fed == Received(INIT, acts, k)
  {
    InitKeepsAll();
    RunFeeds(INIT, acts, k);
    NothingInFront(Received(INIT, acts, k));
  }

  lemma InitKeepsAll()
    ensures Inv(INIT) && forall k: nat :: FedSoFar(INIT, k) == []
  {
  }

  lemma NothingInFront(s: seq<byte>)
    ensures [] + s == s
  {
  }

  /**
   * When a thread stops serving its client: exactly when it finds the hub done, the
   * socket closed, or, with the bytes in hand passed on, the escape in what was received.
   */
  lemma LeavesIff(acts: seq<Action>, a: Action, sid: Sid)
    requires var w := Exec(INIT, acts);
      Actor(a) == Some(sid) && Enabled(w, a) && (a.Check? || a.Recv? || a.WriteOut?)
    ensures var w := Exec(INIT, acts);
      var t := w.threads[sid];
      && sid in Step(w, a).threads
      && (Step(w, a).threads[sid].pc == Leaving <==>
            || (a.Check? && w.hubs[t.hub].sys.done)
            || (a.Recv? && a.data == [])
            || (a.WriteOut? && Decode(START, w.atts[t.att].fed).detached))
  {
    InvAlways(INIT, acts);
    var w := Exec(INIT, acts);
    assert DecoderInv(w, sid);
    if a.WriteOut? {
      var t := w.threads[sid];
      OneMoreChunk(w.atts[t.att].taken, t.escape, t.chunk);
      WriterFollows(w, sid, a.accepted);
    }
  }
}
