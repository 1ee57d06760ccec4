/** Reload and enforcement: what the monitor pushes on a signal and what the worker makes of it. */
module Push {
  import opened Prelude
  import opened Glob
  import opened Values
  import opened Config
  import opened Acl
  import opened Session
  import Hub
  import Ipc
  import Resolve
  import StrFormat

  datatype Msg = ConfigUpdate(raw: Dict) | EnforceReq(users: Dict)

  datatype Monitor = Monitor(cfg: Dict, users: Json)

  /** `alive` is false once an exception has ended the listener thread. */
  datatype Worker = Worker(cfg: Dict, users: Json, sessions: map<Sid, Record>, alive: bool)

  /** How long a message is on the wire; it is left open what the encoding makes of it. */
  const SizeOf: Msg -> nat

  /** `ipc_recv` accepts the message; `ipc_send` sends any. */
  predicate Fits(msg: Msg) {
    SizeOf(msg) <= Ipc.MAX_MSG
  }

  // ---------------------------------------------------------------------
  // The two ends

  /** The files as a signal finds them; None is a file that cannot be parsed. */
  datatype Files = Files(config: Option<Json>, users: Option<Json>)

  /** `safe_load(..) or {}` */
  function Loaded(j: Json): Json {
    if Truthy(j) then j else Obj([])
  }

  predicate Loads(config: Option<Json>) {
    config.Some? && Loaded(config.value).Obj? && Precompile(Loaded(config.value).fields).Ok?
  }

  /** `reload_all`: each store is replaced only if its file loads. */
  function Reload(m: Monitor, f: Files): Monitor {
    Monitor(
      if Loads(f.config) then Precompile(Loaded(f.config.value).fields).value else m.cfg,
      if f.users.Some? then Loaded(f.users.value) else m.users)
  }

  /**
   * SIGHUP pushes the configuration; SIGUSR2 pushes it and then asks for enforcement,
   * with a copy of the user map as a dictionary, or not at all if there is no such copy.
   */
  function Pushes(m: Monitor, enforce: bool): seq<Msg> {
    [ConfigUpdate(StripDict(m.cfg))]
    + (if enforce && DictOf(m.users).Done? then [EnforceReq(DictOf(m.users).value)] else [])
  }

  /** The user map a message is judged by; an empty one is ignored. */
  function UsersAfter(w: Worker, msg: Msg): Json {
    if msg.EnforceReq? && msg.users != [] then Obj(msg.users) else w.users
  }

  /** The two branches of `monitor_push_listener`; an empty pushed config or map is ignored. */
  function Handle(w: Worker, msg: Msg): Worker {
    if !w.alive then w
    else
      match msg
      case ConfigUpdate(raw) =>
        if raw == [] then w
        else if Precompile(raw).Ok? then w.(cfg := Precompile(raw).value) else w.(alive := false)
      case EnforceReq(_) =>
        var um := UsersAfter(w, msg);
        if AnyCrash(w.cfg, um, w.sessions) then w.(users := um, alive := false)
        else w.(users := um, sessions := Survivors(w.cfg, um, w.sessions))
  }

  /** The listener's branches on the worker's own objects. */
  method HandleMessage(store: ConsoleConfigStore, userStore: UserMapStore, registry: SessionRegistry, msg: Msg)
    returns (alive: bool)
    requires registry.Valid()
    modifies store, userStore, registry
    ensures registry.Valid()
    ensures Worker(store.cfg, userStore.users, registry.sessions, alive) ==
      Handle(Worker(old(store.cfg), old(userStore.users), old(registry.sessions), true), msg)
  {
    alive := true;
    match msg {
      case ConfigUpdate(raw) =>
        if raw != [] {
          var r := store.Update(raw);
          alive := r.Ok?;
        }
      case EnforceReq(users) =>
        if users != [] {
          userStore.Update(Obj(users));
        }
        var raised, killed, retained := registry.KillStale(store.cfg, userStore.users);
        alive := !raised;
    }
  }

  /** A signal replaces each store by what its file compiles to, and keeps it if the file does not load. */
  lemma ReloadTakes(m: Monitor, config: Json, users: Json)
    ensures Reload(m, Files(None, None)) == m
    ensures var raw := if Truthy(config) then config else Obj([]);
      Reload(m, Files(Some(config), None)) ==
        if raw.Obj? && Precompile(raw.fields).Ok? then Monitor(Precompile(raw.fields).value, m.users) else m
    ensures Reload(m, Files(None, Some(users))) == Monitor(m.cfg, if Truthy(users) then users else Obj([]))
  {
  }

  /** SIGHUP pushes the configuration alone, SIGUSR2 the configuration and then the request to enforce. */
  lemma PushesAre(m: Monitor)
    ensures Pushes(m, false) == [ConfigUpdate(StripDict(m.cfg))]
    ensures m.users.Obj? ==> Pushes(m, true) == [ConfigUpdate(StripDict(m.cfg)), EnforceReq(m.users.fields)]
  {
  }

  // ---------------------------------------------------------------------
  // The watcher's SOCKET_DISAPPEARED

  /** The console a vanished socket belongs to: the definition's console_name with the captures filled in. */
  function GoneName(cfg: Dict, path: string): Outcome<Option<string>> {
    var found :- MatchSocket(cfg, path);
    if found.None? then Done(None)
    else
      var name :- Item(found.value.def, "console_name", Str(""));
      if !name.Str? then Raised
      else
        match StrFormat.Format(name.s, found.value.vars)
        case Text(text) => Done(Some(text))
        case MissingKey => Done(Some(name.s))
        case Malformed => Raised
  }

  /** The branch on the worker's own objects: the hub of that name, if live, is shut down and forgotten. */
  method SocketGone(store: ConsoleConfigStore, hubs: Hub.HubRegistry, path: string) returns (alive: bool)
    requires hubs.Valid()
    modifies hubs, hubs.hubs.Values
    ensures hubs.Valid()
    ensures alive <==> GoneName(store.cfg, path).Done?
    ensures var gone := GoneName(store.cfg, path);
      if gone.Done? && gone.value.Some? && gone.value.value in old(hubs.hubs) && !old(hubs.hubs[gone.value.value].done)
      then
        && hubs.hubs == old(hubs.hubs) - {gone.value.value}
        && old(hubs.hubs)[gone.value.value].done && !old(hubs.hubs)[gone.value.value].fdOpen
      else hubs.hubs == old(hubs.hubs) && forall n :: n in hubs.hubs ==> unchanged(hubs.hubs[n])
  {
    alive := false;
    var found := store.FindSocket(path);
    if found.Raised? {
      return;
    }
    if found.value.None? {
      return true;
    }
    var name := Item(found.value.value.def, "console_name", Str(""));
    if name.Raised? || !name.value.Str? {
      return;
    }
    var text := StrFormat.Format(name.value.s, found.value.value.vars);
    if text.Malformed? {
      return;
    }
    alive := true;
    var console := if text.Text? then text.text else name.value.s;
    var hub := hubs.Lookup(console);
    if hub != null {
      assert hub in hubs.hubs.Values;
      hub.Shutdown();
      hubs.RemoveIfDone(console);
    }
  }

  /** What makes the lookup of a socket raise. */
  predicate SocketLookupBreaks(cfg: Dict, path: string) {
    !Consoles(cfg).Obj? ||
    var consoles := Consoles(cfg).fields;
    || ExplicitBreaks(consoles, path)
    || (ExplicitSocket(consoles, path) == Done(None) &&
        (Patterns(cfg).Raised? || SocketScanBreaks(Patterns(cfg).value, path)))
  }

  /** A console that is no dictionary stands before the one with the socket. */
  predicate ExplicitBreaks(consoles: Dict, path: string) {
    exists i :: 0 <= i < |consoles| && !consoles[i].val.Obj? && NoneBefore(consoles, path, i)
  }

  predicate NoneBefore(consoles: Dict, path: string, i: nat) {
    i <= |consoles| && forall j :: 0 <= j < i ==>
      consoles[j].val.Obj? && GetOr(consoles[j].val.fields, "socket", Null) != Str(path)
  }

  lemma {:induction false} ExplicitBreaksIff(consoles: Dict, path: string)
    ensures ExplicitSocket(consoles, path).Raised? <==> ExplicitBreaks(consoles, path)
  {
    if consoles != [] {
      var rest := consoles[1..];
      ExplicitBreaksIff(rest, path);
      if !consoles[0].val.Obj? {
        assert NoneBefore(consoles, path, 0);
      } else if GetOr(consoles[0].val.fields, "socket", Null) != Str(path) {
        if i :| 0 <= i < |rest| && !rest[i].val.Obj? && NoneBefore(rest, path, i) {
          assert consoles[i + 1] == rest[i];
          assert NoneBefore(consoles, path, i + 1) by {
            forall j | 0 < j < i + 1 ensures consoles[j] == rest[j - 1] {}
          }
        }
        if i :| 0 <= i < |consoles| && !consoles[i].val.Obj? && NoneBefore(consoles, path, i) {
          assert rest[i - 1] == consoles[i];
          assert NoneBefore(rest, path, i - 1) by {
            forall j | 0 <= j < i - 1 ensures rest[j] == consoles[j + 1] {}
          }
        }
      }
    }
  }

  /**
   * A vanished socket ends the listener if and only if looking it up raises, or finds a
   * definition whose console_name is no text or is a template that raises on the captures.
   */
  lemma GoneNameBreaksIff(cfg: Dict, path: string)
    ensures GoneName(cfg, path).Raised? <==>
      || SocketLookupBreaks(cfg, path)
      || match MatchSocket(cfg, path)
         case Done(Some(f)) =>
           f.def.Obj? &&
           (var name := GetOr(f.def.fields, "console_name", Str(""));
            !name.Str? || StrFormat.Raises(name.s, f.vars))
         case _ => false
  {
    if Consoles(cfg).Obj? {
      ExplicitBreaksIff(Consoles(cfg).fields, path);
    }
    if Patterns(cfg).Done? {
      SocketScanBreaksIff(Patterns(cfg).value, path);
    }
    match MatchSocket(cfg, path) {
      case Done(Some(f)) =>
        SocketFoundIsDict(cfg, path);
        var name := GetOr(f.def.fields, "console_name", Str(""));
        if name.Str? { StrFormat.FormatRaisesIff(name.s, f.vars); }
      case _ =>
    }
  }

  lemma SocketFoundIsDict(cfg: Dict, path: string)
    requires MatchSocket(cfg, path).Done? && MatchSocket(cfg, path).value.Some?
    ensures MatchSocket(cfg, path).value.value.def.Obj?
  {
    ExplicitIsDict(Consoles(cfg).fields, path);
    if ExplicitSocket(Consoles(cfg).fields, path) == Done(None) {
      PatternIsDict(Patterns(cfg).value, path);
    }
  }

  lemma {:induction false} ExplicitIsDict(consoles: Dict, path: string)
    ensures ExplicitSocket(consoles, path).Done? && ExplicitSocket(consoles, path).value.Some? ==>
      ExplicitSocket(consoles, path).value.value.def.Obj?
  {
    if consoles != [] { ExplicitIsDict(consoles[1..], path); }
  }

  lemma {:induction false} PatternIsDict(pats: seq<Json>, path: string)
    ensures FirstSocket(pats, path).Done? && FirstSocket(pats, path).value.Some? ==>
      FirstSocket(pats, path).value.value.def.Obj?
  {
    if pats != [] { PatternIsDict(pats[1..], path); }
  }

  /**
   * A pattern's console_name is filled in with the socket's captures; with an unknown
   * placeholder it is taken as written.
   */
  lemma GoneNameIsFilledIn(cfg: Dict, path: string, f: Found, name: string)
    requires MatchSocket(cfg, path) == Done(Some(f)) && f.def.Obj?
    requires Get(f.def.fields, "console_name") == Some(Str(name))
    requires StrFormat.AllIdentifiers(Tokenize(name)) && StrFormat.NoBraces(Tokenize(name))
    ensures GoneName(cfg, path) ==
      Done(Some(if Glob.Names(Tokenize(name)) <= f.vars.Keys then Subst(Tokenize(name), f.vars) else name))
  {
    StrFormat.FormatOfClean(name, f.vars);
  }

  // ---------------------------------------------------------------------
  // Whole runs

  /**
   * `Deliver` is the next push, `Vanish` the watcher's report of a vanished socket;
   * `Threads` stands for whatever the session threads do to the table in between.
   */
  datatype Event =
    | Signal(files: Files, enforce: bool)
    | Deliver
    | Vanish(path: string)
    | Threads(sessions: map<Sid, Record>)

  /**
   * `sent` is everything ever pushed, `snaps` the monitor at each push, `handled` how far
   * the worker got. A push too long for `ipc_recv` is refused; what is read off the
   * channel after that is not modelled.
   */
  datatype System = System(
    mon: Monitor, worker: Worker, sent: seq<Msg>, snaps: seq<Monitor>, handled: nat, refused: bool)

  predicate CanDeliver(s: System) {
    s.worker.alive && !s.refused && s.handled < |s.sent|
  }

  function Step(s: System, e: Event): System {
    match e
    case Signal(files, enforce) =>
      var m := Reload(s.mon, files);
      var msgs := Pushes(m, enforce);
      s.(mon := m, sent := s.sent + msgs, snaps := s.snaps + seq(|msgs|, _ => m))
    case Deliver =>
      if !CanDeliver(s) then s
      else if !Fits(s.sent[s.handled]) then s.(handled := s.handled + 1, refused := true)
      else s.(worker := Handle(s.worker, s.sent[s.handled]), handled := s.handled + 1)
    case Vanish(path) =>
      if s.worker.alive && GoneName(s.worker.cfg, path).Raised? then s.(worker := s.worker.(alive := false)) else s
    case Threads(sessions) => s.(worker := s.worker.(sessions := sessions))
  }

  function Exec(s: System, events: seq<Event>): System {
    if events == [] then s else Step(Exec(s, events[..|events| - 1]), events[|events| - 1])
  }

  /** Both processes start from the same loaded files. */
  function Start(config: Dict, users: Json): System
    requires Precompile(config).Ok?
  {
    var cfg := Precompile(config).value;
    System(Monitor(cfg, users), Worker(cfg, users, map[], true), [], [], 0, false)
  }

  /** A compiled configuration the transport reproduces. */
  ghost predicate Transportable(cfg: Dict) {
    Precompile(StripDict(cfg)) == Ok(cfg)
  }

  /** A signal does not find a configuration with private keys. */
  predicate PublicFile(e: Event) {
    e.Signal? && e.files.config.Some? && Loaded(e.files.config.value).Obj? ==>
      PublicDict(Loaded(e.files.config.value).fields)
  }

  predicate PublicFiles(events: seq<Event>) {
    forall i :: 0 <= i < |events| ==> PublicFile(events[i])
  }

  /** The i-th message sent matches the monitor it was sent from. */
  ghost predicate TagAt(sent: seq<Msg>, snaps: seq<Monitor>, i: nat)
    requires i < |sent| == |snaps|
  {
    && Transportable(snaps[i].cfg)
    && (sent[i].ConfigUpdate? ==> sent[i].raw == StripDict(snaps[i].cfg))
    && (sent[i].EnforceReq? ==>
          && i > 0 && sent[i - 1].ConfigUpdate? && snaps[i - 1] == snaps[i]
          && DictOf(snaps[i].users) == Done(sent[i].users))
  }

  ghost predicate Tagged(s: System) {
    && |s.snaps| == |s.sent| && s.handled <= |s.sent|
    && Transportable(s.mon.cfg)
    && (|s.snaps| > 0 ==> s.snaps[|s.snaps| - 1] == s.mon)
    && forall i :: 0 <= i < |s.sent| ==> TagAt(s.sent, s.snaps, i)
  }

  /** Unless a push was refused, the worker holds what the last handled one carried, if that was not empty. */
  ghost predicate Inv(s: System) {
    && Tagged(s)
    && (s.handled > 0 && !s.refused ==>
          && (s.snaps[s.handled - 1].cfg != [] ==> s.worker.cfg == s.snaps[s.handled - 1].cfg)
          && (s.sent[s.handled - 1].EnforceReq? && s.sent[s.handled - 1].users != [] ==>
                s.worker.users == Obj(s.sent[s.handled - 1].users)))
  }

  lemma PublicIsTransportable(raw: Dict)
    requires Precompile(raw).Ok? && PublicDict(raw)
    ensures Transportable(Precompile(raw).value)
  {
    TransportRoundTrip(raw);
  }

  lemma SignalKeepsTags(s: System, files: Files, enforce: bool)
    requires Tagged(s) && PublicFile(Signal(files, enforce))
    ensures Tagged(Step(s, Signal(files, enforce)))
  {
    if Loads(files.config) {
      PublicIsTransportable(Loaded(files.config.value).fields);
    }
    var s' := Step(s, Signal(files, enforce));
    var n := |s.sent|;
    assert s'.sent[n] == ConfigUpdate(StripDict(s'.mon.cfg)) && s'.snaps[n] == s'.mon;
    if |s'.sent| > n + 1 {
      assert s'.sent[n + 1] == EnforceReq(DictOf(s'.mon.users).value) && s'.snaps[n + 1] == s'.mon;
    }
    forall i | 0 <= i < |s'.sent| ensures TagAt(s'.sent, s'.snaps, i) {
      if i < n { assert TagAt(s.sent, s.snaps, i); }
    }
  }

  lemma StepKeepsInv(s: System, e: Event)
    requires Inv(s) && PublicFile(e)
    ensures Inv(Step(s, e))
  {
    match e {
      case Signal(files, enforce) =>
        SignalKeepsTags(s, files, enforce);
        assert s.handled > 0 ==> Step(s, e).snaps[s.handled - 1] == s.snaps[s.handled - 1];
      case Deliver =>
        if CanDeliver(s) {
          assert TagAt(s.sent, s.snaps, s.handled);
          EmptyIsTransportable();
        }
      case Vanish(_) =>
      case Threads(_) =>
    }
  }

  lemma EmptyIsTransportable()
    ensures Precompile([]) == Ok([])
  {
  }

  lemma {:induction false} InvAlways(config: Dict, users: Json, events: seq<Event>)
    requires Precompile(config).Ok? && PublicDict(config) && PublicFiles(events)
    ensures Inv(Exec(Start(config, users), events))
  {
    if events == [] {
      PublicIsTransportable(config);
    } else {
      var front := events[..|events| - 1];
      forall i | 0 <= i < |front| ensures front[i] == events[i] {}
      InvAlways(config, users, front);
      StepKeepsInv(Exec(Start(config, users), front), events[|events| - 1]);
    }
  }

  /** What enforcing under these stores makes of the worker. */
  function EnforcedBy(cfg: Dict, um: Json, sessions: map<Sid, Record>): Worker {
    if AnyCrash(cfg, um, sessions) then Worker(cfg, um, sessions, false)
    else Worker(cfg, um, Survivors(cfg, um, sessions), true)
  }

  /**
   * Enforcement runs on what the monitor had when it asked. In every run, the step that
   * handles an ENFORCE_REQ, none before it having been refused, keeps exactly the sessions
   * the monitor's own stores at that signal would keep, however many signals and messages
   * are in flight; or all of them, if judging one under those stores raises or the
   * request is itself too long.
   */
  lemma EnforcementUsesMonitorStores(config: Dict, users: Json, events: seq<Event>)
    requires Precompile(config).Ok? && PublicDict(config) && PublicFiles(events)
    ensures
      var s := Exec(Start(config, users), events);
      var n := s.handled;
      CanDeliver(s) && n < |s.snaps| && s.sent[n].EnforceReq? &&
      s.snaps[n].cfg != [] && s.snaps[n].users.Obj? && s.snaps[n].users != Obj([]) ==>
        Step(s, Deliver).worker ==
          if Fits(s.sent[n]) then EnforcedBy(s.snaps[n].cfg, s.snaps[n].users, s.worker.sessions) else s.worker
  {
    InvAlways(config, users, events);
    var s := Exec(Start(config, users), events);
    if s.handled < |s.sent| {
      assert TagAt(s.sent, s.snaps, s.handled);
    }
  }

  /**
   * A push of the monitor ends the listener if and only if it is read, asks for
   * enforcement, and one of the sessions cannot be judged. (No pushed configuration
   * does: what the monitor compiled compiles again.)
   */
  lemma PushKillsListenerIff(s: System)
    requires Inv(s) && CanDeliver(s)
    ensures var msg := s.sent[s.handled];
      !Step(s, Deliver).worker.alive <==>
      msg.EnforceReq? && Fits(msg) &&
      exists sid :: sid in s.worker.sessions &&
        Unjudgeable(s.worker.cfg, UsersAfter(s.worker, msg), s.worker.sessions[sid])
  {
    assert TagAt(s.sent, s.snaps, s.handled);
    var um := UsersAfter(s.worker, s.sent[s.handled]);
    forall sid | sid in s.worker.sessions
      ensures Judge(s.worker.cfg, um, s.worker.sessions[sid]) == Crashes <==>
              Unjudgeable(s.worker.cfg, um, s.worker.sessions[sid])
    {
      CrashesIff(s.worker.cfg, um, s.worker.sessions[sid]);
    }
  }

  /**
   * In a whole run the listener dies only on an enforcement that meets a session it
   * cannot judge, or on a vanished socket whose console cannot be named.
   */
  lemma ListenerDiesIff(s: System, e: Event)
    requires Inv(s) && s.worker.alive
    ensures !Step(s, e).worker.alive <==>
      match e
      case Deliver =>
        CanDeliver(s) && s.sent[s.handled].EnforceReq? && Fits(s.sent[s.handled]) &&
        exists sid :: sid in s.worker.sessions &&
          Unjudgeable(s.worker.cfg, UsersAfter(s.worker, s.sent[s.handled]), s.worker.sessions[sid])
      case Vanish(path) => GoneName(s.worker.cfg, path).Raised?
      case _ => false
  {
    if e.Deliver? && CanDeliver(s) { PushKillsListenerIff(s); }
  }

  /** A worker whose listener has died never learns of a configuration or a user again, whatever is pushed. */
  lemma {:induction false} DeadListenerIsDeaf(s: System, events: seq<Event>)
    requires !s.worker.alive
    ensures var s' := Exec(s, events);
      && !s'.worker.alive && s'.worker.cfg == s.worker.cfg && s'.worker.users == s.worker.users
      && s'.handled == s.handled && |s'.sent| >= |s.sent|
  {
    if events != [] {
      DeadListenerIsDeaf(s, events[..|events| - 1]);
    }
  }

  /**
   * Once the worker has handled everything up to a SIGUSR2, the two processes resolve
   * alike: whatever it asks to spawn, the monitor grants access to the same console.
   */
  lemma CaughtUpWorkerAgrees(config: Dict, users: Json, events: seq<Event>, user: string, name: string,
                             liveFirst: bool, liveLast: bool)
    requires Precompile(config).Ok? && PublicDict(config) && PublicFiles(events)
    requires var s := Exec(Start(config, users), events);
      && s.handled == |s.sent| > 0 && !s.refused && s.sent[s.handled - 1].EnforceReq?
      && s.mon.cfg != [] && s.mon.users.Obj? && s.mon.users != Obj([])
      && Resolve.WorkerDecision(s.worker.cfg, s.worker.users, user, name, liveFirst, liveLast).Spawn?
    ensures var s := Exec(Start(config, users), events);
      var d := Resolve.WorkerDecision(s.worker.cfg, s.worker.users, user, name, liveFirst, liveLast);
      && Resolve.MonitorDefinition(s.mon.cfg, name) == Done(Some(Found(d.def, d.vars)))
      && !Resolve.RefusesAccess(Resolve.MonitorVerdict(s.mon.cfg, s.mon.users, user, name))
  {
    InvAlways(config, users, events);
    var s := Exec(Start(config, users), events);
    InStep(s);
    Resolve.WorkerAsksOnlyWhatMonitorGrants(s.worker.cfg, s.worker.users, user, name, liveFirst, liveLast);
  }

  lemma InStep(s: System)
    requires Inv(s) && s.handled == |s.sent| > 0 && !s.refused && s.sent[s.handled - 1].EnforceReq?
    requires s.mon.cfg != [] && s.mon.users.Obj? && s.mon.users != Obj([])
    ensures s.worker.cfg == s.mon.cfg && s.worker.users == s.mon.users
  {
    assert TagAt(s.sent, s.snaps, s.handled - 1);
  }

  /**
   * The worker is in step with a pushed configuration exactly when that is short enough
   * to be read and not empty (or the worker already agreed).
   */
  lemma InStepIffNotEmpty(s: System)
    requires Inv(s) && CanDeliver(s) && s.sent[s.handled].ConfigUpdate?
    ensures Step(s, Deliver).worker.cfg == s.snaps[s.handled].cfg <==>
      ((Fits(s.sent[s.handled]) && s.snaps[s.handled].cfg != []) || s.worker.cfg == s.snaps[s.handled].cfg)
  {
    assert TagAt(s.sent, s.snaps, s.handled);
    EmptyIsTransportable();
  }

  /**
   * The worker's users are in step with the monitor once a push is past exactly when it
   * asked for enforcement, was read, and carried a map that is not empty and was a
   * dictionary already; or, if it carried none that counts, when the two already agreed:
   * a SIGHUP reloads the monitor's map and pushes none of it.
   */
  lemma UsersInStepIff(s: System)
    requires Inv(s) && CanDeliver(s)
    ensures var msg := s.sent[s.handled];
      Step(s, Deliver).worker.users == s.snaps[s.handled].users <==>
      if msg.EnforceReq? && Fits(msg) && msg.users != [] then s.snaps[s.handled].users.Obj?
      else s.worker.users == s.snaps[s.handled].users
  {
    assert TagAt(s.sent, s.snaps, s.handled);
  }

  /**
   * A SIGUSR2 takes effect: once its two pushes are read, the worker resolves with what
   * the monitor loaded, and exactly the sessions those stores keep are left, if every
   * session can be judged.
   */
  lemma RevocationTakesEffect(s: System, files: Files)
    requires Inv(s) && s.worker.alive && !s.refused && s.handled == |s.sent| && PublicFile(Signal(files, true))
    requires var m := Reload(s.mon, files);
      && m.cfg != [] && m.users.Obj? && m.users != Obj([])
      && Fits(ConfigUpdate(StripDict(m.cfg))) && Fits(EnforceReq(m.users.fields))
      && !AnyCrash(m.cfg, m.users, s.worker.sessions)
    ensures var m, s' := Reload(s.mon, files), Step(Step(Step(s, Signal(files, true)), Deliver), Deliver);
      && s'.mon == m && s'.handled == |s'.sent| && s'.worker.alive
      && s'.worker.cfg == m.cfg && s'.worker.users == m.users
      && s'.worker.sessions == Survivors(m.cfg, m.users, s.worker.sessions)
  {
    var m := Reload(s.mon, files);
    StepKeepsInv(s, Signal(files, true));
    PushesAre(m);
    var s1 := Step(s, Signal(files, true));
    assert s1.sent == s.sent + [ConfigUpdate(StripDict(m.cfg)), EnforceReq(m.users.fields)];
    var s2 := Step(s1, Deliver);
    assert Transportable(m.cfg);
    assert s2.worker.cfg == m.cfg;
    assert s2.sent[s2.handled] == EnforceReq(m.users.fields);
  }

  /**
   * An emptied configuration file therefore revokes nothing: the monitor would drop
   * every session at a console, the worker goes on enforcing what it had before.
   */
  lemma EmptiedFileIsIgnored(s: System, sid: Sid)
    requires Inv(s) && s.worker.alive && !s.refused && s.handled == |s.sent|
    requires s.mon.users.Obj? && s.mon.users != Obj([])
    requires Fits(ConfigUpdate([])) && Fits(EnforceReq(s.mon.users.fields))
    requires sid in s.worker.sessions && AtConsole(s.worker.sessions[sid])
    requires Judge(s.worker.cfg, s.mon.users, s.worker.sessions[sid]) == Keep
    ensures
      var s' := Step(Step(Step(s, Signal(Files(Some(Null), None), true)), Deliver), Deliver);
      && s'.mon.cfg == [] && s'.handled == |s'.sent| && s'.worker.cfg == s.worker.cfg
      && sid in s'.worker.sessions
      && Judge(s'.mon.cfg, s'.mon.users, s'.worker.sessions[sid]) == ConsoleRemoved
  {
    EmptyIsTransportable();
    var m := Monitor([], s.mon.users);
    var s1 := Step(s, Signal(Files(Some(Null), None), true));
    assert s1.sent == s.sent + [ConfigUpdate([]), EnforceReq(m.users.fields)];
    var s2 := Step(s1, Deliver);
    assert s2.worker == s.worker;
    assert s2.sent[s2.handled] == EnforceReq(m.users.fields);
  }
}
