/** The request/reply protocol between the worker's proxy and the monitor's loop. */
module Rpc {
  import opened Prelude
  import opened Values
  import opened Config
  import opened Acl
  import opened Resolve
  import opened Glob
  import Ipc
  import StrFormat

  const MODULUS: nat := 0x1_0000_0000

  type Fd = nat

  datatype Kind = CmdResp | SpawnResp | PeerResp | OtherKind(name: string)

  datatype Body = Rendered(text: string) | Spawned(ok: bool, error: string) | Username(name: Option<string>) | Unknown

  /** A message as the proxy receives it; `tag` is whatever its seq field holds, if it is there. */
  datatype Reply = Reply(kind: Kind, tag: Option<int>, body: Body, fds: seq<Fd>)

  datatype Request =
    | CmdReq(action: string, console: string)
    | SpawnReq(user: string, console: string)
    | PeerReq(uid: Option<nat>)

  function Paired(req: Request): Kind {
    match req
    case CmdReq(_, _) => CmdResp
    case SpawnReq(_, _) => SpawnResp
    case PeerReq(_) => PeerResp
  }

  // ---------------------------------------------------------------------
  // The monitor's branches

  /**
   * What the operating system and the libraries answer while one request is served:
   * the rendered command output, whether shlex can split the command, an exception
   * from openpty or fork, the new pty, a failing close() after the reply, the passwd entry.
   */
  datatype Os = Os(output: string, splits: bool, spawnError: Option<string>, pty: Fd, closeError: Option<string>,
                   passwd: Option<string>)

  /** `running` is false when an exception has left the loop. */
  datatype Served = Served(replies: seq<Reply>, running: bool)

  function One(kind: Kind, seqno: int, body: Body): Served {
    Served([Reply(kind, Some(seqno), body, [])], true)
  }

  /** The command section's entry for an action, Null if there is none. */
  function Command(cfg: Dict, action: string): Outcome<Json> {
    Item(GetOr(cfg, "commands", Obj([])), action, Null)
  }

  function ServeCmd(cfg: Dict, action: string, console: string, seqno: int, os: Os): Served {
    match Command(cfg, action)
    case Raised => Served([], false)
    case Done(def) =>
      if def.Null? then One(CmdResp, seqno, Rendered("Unknown command"))
      else if !ValidName(console) then One(CmdResp, seqno, Rendered("Invalid console name"))
      else if !def.Obj? || !CommandOf(def.fields).Str? then Served([], false)
      else
        match StrFormat.Format(CommandOf(def.fields).s, map["name" := console])
        case Malformed => Served([], false)
        case MissingKey => One(CmdResp, seqno, Rendered("Command template error"))
        case Text(_) => if os.splits then One(CmdResp, seqno, Rendered(os.output)) else Served([], false)
  }

  function Explain(why: Refusal): string {
    match why
    case InvalidName => "invalid console name"
    case NotDefined => "not defined"
    case NotExecType => "is not exec type"
    case AccessDenied => "access denied"
    case NoCommand => "has no cmd"
    case BadTemplate => "cmd template error"
  }

  function ServeSpawn(cfg: Dict, um: Json, user: string, console: string, seqno: int, os: Os): Served {
    match MonitorVerdict(cfg, um, user, console)
    case Raises => Served([], false)
    case Refuse(why) => One(SpawnResp, seqno, Spawned(false, Explain(why)))
    case Run(_) =>
      if !os.splits then Served([], false)
      else if os.spawnError.Some? then One(SpawnResp, seqno, Spawned(false, os.spawnError.value))
      else
        var granted := Reply(SpawnResp, Some(seqno), Spawned(true, ""), [os.pty]);
        // close() of the pty comes after the reply; if it raises, the handler replies again.
        if os.closeError.Some? then
          Served([granted, Reply(SpawnResp, Some(seqno), Spawned(false, os.closeError.value), [])], true)
        else Served([granted], true)
  }

  function Serve(cfg: Dict, um: Json, req: Request, seqno: int, os: Os): Served {
    match req
    case CmdReq(action, console) => ServeCmd(cfg, action, console, seqno, os)
    case SpawnReq(user, console) => ServeSpawn(cfg, um, user, console, seqno, os)
    case PeerReq(uid) => One(PeerResp, seqno, Username(if uid.Some? then os.passwd else None))
  }

  /** The dispatch of one request, reply by reply, on the monitor's stores. */
  method Dispatch(store: ConsoleConfigStore, users: UserMapStore, req: Request, seqno: int, os: Os)
    returns (replies: seq<Reply>, running: bool)
    ensures Served(replies, running) == Serve(store.cfg, users.users, req, seqno, os)
  {
    replies, running := [], true;
    match req {
      case CmdReq(action, console) =>
        var def := Command(store.cfg, action);
        if def.Raised? {
          return [], false;
        }
        if def.value.Null? {
          replies := replies + [Reply(CmdResp, Some(seqno), Rendered("Unknown command"), [])];
          return;
        }
        if !ValidName(console) {
          replies := replies + [Reply(CmdResp, Some(seqno), Rendered("Invalid console name"), [])];
          return;
        }
        if !def.value.Obj? || !CommandOf(def.value.fields).Str? {
          return [], false;
        }
        var cmd := StrFormat.Format(CommandOf(def.value.fields).s, map["name" := console]);
        if cmd.Malformed? {
          return [], false;
        }
        if cmd.MissingKey? {
          replies := replies + [Reply(CmdResp, Some(seqno), Rendered("Command template error"), [])];
          return;
        }
        if !os.splits {
          return [], false;
        }
        replies := replies + [Reply(CmdResp, Some(seqno), Rendered(os.output), [])];
      case SpawnReq(user, console) =>
        var verdict := AuthorizeSpawn(store.cfg, users.users, user, console);
        if verdict.Raises? || (verdict.Run? && !os.splits) {
          return [], false;
        }
        if verdict.Refuse? {
          replies := replies + [Reply(SpawnResp, Some(seqno), Spawned(false, Explain(verdict.why)), [])];
          return;
        }
        if os.spawnError.Some? {
          replies := replies + [Reply(SpawnResp, Some(seqno), Spawned(false, os.spawnError.value), [])];
          return;
        }
        replies := replies + [Reply(SpawnResp, Some(seqno), Spawned(true, ""), [os.pty])];
        if os.closeError.Some? {
          replies := replies + [Reply(SpawnResp, Some(seqno), Spawned(false, os.closeError.value), [])];
        }
      case PeerReq(uid) =>
        var name: Option<string> := None;
        if uid.Some? {
          name := os.passwd;
        }
        replies := replies + [Reply(PeerResp, Some(seqno), Username(name), [])];
    }
  }

  /**
   * The commands section is no dictionary; or, for a known action on a valid name, its
   * entry is none, its command is no text, cannot be formatted, or cannot be split.
   */
  predicate CmdBreaks(cfg: Dict, action: string, console: string, splits: bool) {
    var commands := GetOr(cfg, "commands", Obj([]));
    !commands.Obj? ||
    var def := GetOr(commands.fields, action, Null);
    !def.Null? && ValidName(console) &&
    (!def.Obj? ||
     var cmd := CommandOf(def.fields);
     || !cmd.Str?
     || StrFormat.Raises(cmd.s, map["name" := console])
     || (StrFormat.Fits(cmd.s, map["name" := console]) && !splits))
  }

  /** The request is granted and its command can be formatted. */
  predicate SpawnRuns(cfg: Dict, um: Json, user: string, console: string) {
    ValidName(console) &&
    match MonitorDefinition(cfg, console)
    case Done(Some(f)) =>
      && MayRun(f, um, user) && f.def.Obj?
      && Truthy(CommandOf(f.def.fields)) && CommandOf(f.def.fields).Str? && "name" !in f.vars
      && StrFormat.Fits(CommandOf(f.def.fields).s, f.vars["name" := console])
    case _ => false
  }

  /** The requests that end the monitor, read off the stores, the templates and `splits`. */
  predicate StopsMonitor(cfg: Dict, um: Json, req: Request, os: Os) {
    match req
    case CmdReq(action, console) => CmdBreaks(cfg, action, console, os.splits)
    case SpawnReq(user, console) =>
      SpawnBreaks(cfg, um, user, console) || (SpawnRuns(cfg, um, user, console) && !os.splits)
    case PeerReq(_) => false
  }

  lemma SpawnRunsIff(cfg: Dict, um: Json, user: string, console: string)
    ensures MonitorVerdict(cfg, um, user, console).Run? <==> SpawnRuns(cfg, um, user, console)
  {
    match MonitorDefinition(cfg, console) {
      case Done(Some(f)) =>
        if f.def.Obj? && CommandOf(f.def.fields).Str? {
          StrFormat.FormatRaisesIff(CommandOf(f.def.fields).s, f.vars["name" := console]);
        }
      case _ =>
    }
  }

  /**
   * The monitor's loop ends with a request if and only if that is a command whose section
   * or entry is no dictionary, or whose template is no text, raises anything but a
   * KeyError, or gives a text shlex cannot split; or a spawn that breaks while its
   * definition or the user's access is resolved or, once granted, in the same ways or
   * by a captured variable called name.
   */
  lemma MonitorStopsIff(cfg: Dict, um: Json, req: Request, seqno: int, os: Os)
    ensures !Serve(cfg, um, req, seqno, os).running <==> StopsMonitor(cfg, um, req, os)
  {
    match req {
      case CmdReq(action, console) => CmdStopsIff(cfg, action, console, seqno, os);
      case SpawnReq(user, console) =>
        SpawnRaisesIff(cfg, um, user, console);
        SpawnRunsIff(cfg, um, user, console);
      case PeerReq(_) =>
    }
  }

  lemma CmdStopsIff(cfg: Dict, action: string, console: string, seqno: int, os: Os)
    ensures !ServeCmd(cfg, action, console, seqno, os).running <==> CmdBreaks(cfg, action, console, os.splits)
  {
    match Command(cfg, action) {
      case Done(Obj(def)) =>
        if CommandOf(def).Str? {
          StrFormat.FormatRaisesIff(CommandOf(def).s, map["name" := console]);
        }
      case _ =>
    }
  }

  /** The one way a request gets a second reply: the pty was passed on and could not be closed. */
  predicate RepliesTwice(cfg: Dict, um: Json, req: Request, os: Os) {
    && req.SpawnReq? && SpawnRuns(cfg, um, req.user, req.console)
    && os.splits && os.spawnError.None? && os.closeError.Some?
  }

  /**
   * Every request that does not end the monitor gets exactly one reply, of the
   * paired type and with the request's number, except that a granted spawn whose
   * pty cannot be closed is answered twice. A request that ends it gets none.
   */
  lemma ExactlyOneReply(cfg: Dict, um: Json, req: Request, seqno: int, os: Os)
    ensures |Serve(cfg, um, req, seqno, os).replies| ==
      if StopsMonitor(cfg, um, req, os) then 0 else if RepliesTwice(cfg, um, req, os) then 2 else 1
    ensures forall r :: r in Serve(cfg, um, req, seqno, os).replies ==> r.kind == Paired(req) && r.tag == Some(seqno)
  {
    MonitorStopsIff(cfg, um, req, seqno, os);
    if req.SpawnReq? {
      SpawnRunsIff(cfg, um, req.user, req.console);
    }
  }

  /**
   * What a command request is answered with: the output of the command, if the action is
   * known, the name valid, and its template a text that can be filled in and split; else
   * the reason why not.
   */
  lemma CommandIsAnswered(cfg: Dict, action: string, console: string, seqno: int, os: Os, commands: Dict)
    requires Get(cfg, "commands") == Some(Obj(commands))
    ensures var replies := ServeCmd(cfg, action, console, seqno, os).replies;
      match Get(commands, action)
      case None => replies == [Reply(CmdResp, Some(seqno), Rendered("Unknown command"), [])]
      case Some(Obj(def)) =>
        if !ValidName(console) then replies == [Reply(CmdResp, Some(seqno), Rendered("Invalid console name"), [])]
        else
          (match Get(def, "cmd")
           case Some(Str(cmd)) =>
             StrFormat.AllIdentifiers(Tokenize(cmd)) && StrFormat.NoBraces(Tokenize(cmd)) && os.splits ==>
               replies == [Reply(CmdResp, Some(seqno), Rendered(
                 if Glob.Names(Tokenize(cmd)) <= {"name"} then os.output else "Command template error"), [])]
           case _ => true)
      case _ => true
  {
    match Get(commands, action) {
      case Some(Obj(def)) =>
        match Get(def, "cmd") {
          case Some(Str(cmd)) =>
            if StrFormat.AllIdentifiers(Tokenize(cmd)) && StrFormat.NoBraces(Tokenize(cmd)) {
              StrFormat.FormatOfClean(cmd, map["name" := console]);
            }
          case _ =>
        }
      case _ =>
    }
  }

  /** What the other two requests are answered with. */
  lemma OthersAreAnswered(cfg: Dict, um: Json, user: string, console: string, uid: Option<nat>, seqno: int, os: Os)
    ensures Serve(cfg, um, PeerReq(uid), seqno, os).replies ==
      [Reply(PeerResp, Some(seqno), Username(if uid.Some? then os.passwd else None), [])]
    ensures match MonitorVerdict(cfg, um, user, console)
      case Refuse(why) =>
        var replies := Serve(cfg, um, SpawnReq(user, console), seqno, os).replies;
        |replies| == 1 && replies[0].body.Spawned? && !replies[0].body.ok && replies[0].fds == []
      case Run(_) =>
        os.splits && os.spawnError.Some? ==>
          Serve(cfg, um, SpawnReq(user, console), seqno, os).replies ==
            [Reply(SpawnResp, Some(seqno), Spawned(false, os.spawnError.value), [])]
      case Raises => true
  {
  }

  // ---------------------------------------------------------------------
  // The proxy

  datatype RpcError = ChannelPoisoned | SeqMismatch | TypeMismatch

  datatype Proxy = Proxy(seqno: nat, poisoned: bool)

  function NextSeq(n: nat): nat {
    (n + 1) % MODULUS
  }

  /** What `_call` makes of the message it receives. */
  function Accept(seqno: nat, wanted: Kind, incoming: Reply): Result<Reply, RpcError> {
    if incoming.tag != Some(seqno) then Err(SeqMismatch)
    else if incoming.kind != wanted then Err(TypeMismatch)
    else Ok(incoming)
  }

  function AfterCall(p: Proxy, wanted: Kind, incoming: Reply): Proxy {
    if p.poisoned then p else Proxy(NextSeq(p.seqno), Accept(NextSeq(p.seqno), wanted, incoming).Err?)
  }

  class MonitorProxy {
    var seqno: nat
    var poisoned: bool

    constructor ()
      ensures seqno == 0 && !poisoned
    {
      seqno, poisoned := 0, false;
    }

    function State(): Proxy
      reads this
    {
      Proxy(seqno, poisoned)
    }

    /** The first half of `_call`: the number stamped on the request, if one is sent at all. */
    method Begin() returns (stamp: Option<nat>)
      modifies this
      ensures old(poisoned) ==> stamp == None && State() == old(State())
      ensures !old(poisoned) ==> stamp == Some(NextSeq(old(seqno))) && State() == Proxy(NextSeq(old(seqno)), false)
    {
      if poisoned {
        return None;
      }
      seqno := (seqno + 1) % MODULUS;
      stamp := Some(seqno);
    }

    /** The second half: check the number, then the type; any mismatch poisons the channel for good. */
    method Finish(wanted: Kind, incoming: Reply) returns (r: Result<Reply, RpcError>)
      requires !poisoned
      modifies this
      ensures r == Accept(old(seqno), wanted, incoming)
      ensures State() == Proxy(old(seqno), r.Err?)
    {
      if incoming.tag != Some(seqno) {
        poisoned := true;
        return Err(SeqMismatch);
      }
      if incoming.kind != wanted {
        poisoned := true;
        return Err(TypeMismatch);
      }
      r := Ok(incoming);
    }
  }

  /** `spawn`: a descriptor, or the error text. */
  function SpawnResult(r: Result<Reply, RpcError>): Option<Fd> {
    if r.Ok? && r.value.body.Spawned? && r.value.body.ok && r.value.fds != [] then Some(r.value.fds[0]) else None
  }

  // ---------------------------------------------------------------------
  // Whole runs against the monitor

  /** One call under the proxy's lock, with the stores and the system as the monitor finds them. */
  datatype Call = Call(req: Request, cfg: Dict, um: Json, os: Os)

  /** The channel between the two: replies sent and not yet received, in order. */
  datatype Link = Link(proxy: Proxy, inbox: seq<Reply>, monitorUp: bool)

  /** How long a reply is on the wire; it is left open what the encoding makes of it. */
  const SizeOf: Reply -> nat

  /** `ipc_recv` accepts the reply. */
  predicate Fits(r: Reply) {
    SizeOf(r) <= Ipc.MAX_MSG
  }

  /**
   * `Blocked` is a call whose reply never comes, `Unread` one whose reply is too long to
   * be received; what is read off the channel after that is not modelled.
   */
  datatype CallResult = Answered(r: Result<Reply, RpcError>) | Blocked | Unread

  /** The call once the monitor has served it. */
  function Receive(l: Link, wanted: Kind, served: Served): (Link, CallResult) {
    var n := NextSeq(l.proxy.seqno);
    var inbox := l.inbox + served.replies;
    if inbox == [] then (Link(Proxy(n, false), inbox, served.running), Blocked)
    else if !Fits(inbox[0]) then (Link(Proxy(n, false), inbox, served.running), Unread)
    else
      (Link(AfterCall(l.proxy, wanted, inbox[0]), inbox[1..], served.running),
       Answered(Accept(n, wanted, inbox[0])))
  }

  function RunCall(l: Link, c: Call): (Link, CallResult) {
    if l.proxy.poisoned then (l, Answered(Err(ChannelPoisoned)))
    else
      var n := NextSeq(l.proxy.seqno);
      Receive(l, Paired(c.req), if l.monitorUp then Serve(c.cfg, c.um, c.req, n, c.os) else Served([], false))
  }

  function Outcomes(l: Link, calls: seq<Call>): seq<CallResult>
    decreases |calls|
  {
    if calls == [] then [] else [RunCall(l, calls[0]).1] + Outcomes(RunCall(l, calls[0]).0, calls[1..])
  }

  /** Every reply the request can get is short enough to be received, whatever its number. */
  ghost predicate RepliesFit(c: Call) {
    forall seqno: int, r: Reply :: r in Serve(c.cfg, c.um, c.req, seqno, c.os).replies ==> Fits(r)
  }

  /** The request does not end the monitor, no pty gets stuck, and the reply can be received. */
  ghost predicate Smooth(c: Call) {
    !StopsMonitor(c.cfg, c.um, c.req, c.os) && !RepliesTwice(c.cfg, c.um, c.req, c.os) && RepliesFit(c)
  }

  /** The sequence number of the i-th call after a proxy that has reached `start`. */
  function SeqOf(start: nat, i: nat): nat {
    (start + 1 + i) % MODULUS
  }

  ghost predicate AllSmooth(calls: seq<Call>) {
    forall i :: 0 <= i < |calls| ==> Smooth(calls[i])
  }

  /** The reply to one request, when there is exactly one. */
  ghost function ReplyTo(c: Call, seqno: nat): Reply
    requires Smooth(c)
  {
    ExactlyOneReply(c.cfg, c.um, c.req, seqno, c.os);
    Serve(c.cfg, c.um, c.req, seqno, c.os).replies[0]
  }

  /** A link on which everything sent has been received. */
  function Quiet(seqno: nat): Link {
    Link(Proxy(seqno, false), [], true)
  }

  lemma SmoothCall(start: nat, c: Call)
    requires Smooth(c)
    ensures RunCall(Quiet(start), c) == (Quiet(NextSeq(start)), Answered(Ok(ReplyTo(c, NextSeq(start)))))
  {
    var n := NextSeq(start);
    var served := Serve(c.cfg, c.um, c.req, n, c.os);
    ExactlyOneReply(c.cfg, c.um, c.req, n, c.os);
    MonitorStopsIff(c.cfg, c.um, c.req, n, c.os);
    assert served.replies[0] in served.replies;
    OneReplyReceived(start, Paired(c.req), served);
  }

  lemma OneReplyReceived(start: nat, wanted: Kind, served: Served)
    requires served.running && |served.replies| == 1 && Fits(served.replies[0])
    requires served.replies[0].kind == wanted && served.replies[0].tag == Some(NextSeq(start))
    ensures Receive(Quiet(start), wanted, served) == (Quiet(NextSeq(start)), Answered(Ok(served.replies[0])))
  {
    assert [] + served.replies == served.replies && served.replies[1..] == [];
  }

  /**
   * However many calls are made, and however often the 32-bit number wraps around,
   * the i-th call gets the reply to the i-th request and the proxy is never poisoned.
   */
  lemma {:induction false} EveryCallGetsItsReply(start: nat, calls: seq<Call>)
    requires start < MODULUS && AllSmooth(calls)
    ensures |Outcomes(Quiet(start), calls)| == |calls|
    ensures forall i :: 0 <= i < |calls| ==>
      Outcomes(Quiet(start), calls)[i] == Answered(Ok(ReplyTo(calls[i], SeqOf(start, i))))
    decreases |calls|
  {
    if calls != [] {
      var n, rest := NextSeq(start), calls[1..];
      SmoothCall(start, calls[0]);
      assert AllSmooth(rest) by {
        forall i | 0 <= i < |rest| ensures Smooth(rest[i]) { assert rest[i] == calls[i + 1]; }
      }
      EveryCallGetsItsReply(n, rest);
      var later := Outcomes(Quiet(n), rest);
      assert Outcomes(Quiet(start), calls) == [Answered(Ok(ReplyTo(calls[0], n)))] + later;
      assert SeqOf(start, 0) == n;
      forall i | 0 < i < |calls|
        ensures Outcomes(Quiet(start), calls)[i] == Answered(Ok(ReplyTo(calls[i], SeqOf(start, i))))
      {
        SeqShifts(start, i - 1);
        assert rest[i - 1] == calls[i] && Outcomes(Quiet(start), calls)[i] == later[i - 1];
      }
    }
  }

  lemma SeqShifts(start: nat, i: nat)
    ensures SeqOf(NextSeq(start), i) == SeqOf(start, i + 1)
  {
    var q := (start + 1) / MODULUS;
    assert start + 1 == q * MODULUS + NextSeq(start);
    AddMultiple(NextSeq(start) + 1 + i, q);
  }

  lemma {:induction false} AddMultiple(a: nat, q: nat)
    ensures (a + q * MODULUS) % MODULUS == a % MODULUS
  {
    if q > 0 {
      AddMultiple(a, q - 1);
      assert a + q * MODULUS == (a + (q - 1) * MODULUS) + MODULUS;
    }
  }

  /** The spawn a worker gets is the pty the monitor opened, exactly when the monitor granted it and could open one. */
  lemma SpawnSucceedsIff(start: nat, c: Call)
    requires start < MODULUS && c.req.SpawnReq? && Smooth(c)
    ensures var o := RunCall(Quiet(start), c).1;
      o.Answered? &&
      (SpawnResult(o.r) == if SpawnRuns(c.cfg, c.um, c.req.user, c.req.console) && c.os.spawnError.None?
                           then Some(c.os.pty) else None)
  {
    SmoothCall(start, c);
    SpawnRunsIff(c.cfg, c.um, c.req.user, c.req.console);
  }

  /** The two replies to a granted spawn whose pty cannot be closed. */
  lemma ServedTwice(cfg: Dict, um: Json, req: Request, seqno: int, os: Os)
    requires RepliesTwice(cfg, um, req, os)
    ensures var replies := [Reply(SpawnResp, Some(seqno), Spawned(true, ""), [os.pty]),
                            Reply(SpawnResp, Some(seqno), Spawned(false, os.closeError.value), [])];
      Serve(cfg, um, req, seqno, os) == Served(replies, true)
  {
    SpawnRunsIff(cfg, um, req.user, req.console);
  }

  /** A doubled spawn reply is taken for the answer to the next call, which poisons the channel. */
  lemma SecondReplyPoisons(start: nat, c: Call, next: Call)
    requires start < MODULUS && RepliesTwice(c.cfg, c.um, c.req, c.os) && RepliesFit(c)
    ensures var (l, o) := RunCall(Quiet(start), c);
      && o.Answered? && SpawnResult(o.r) == Some(c.os.pty)
      && RunCall(l, next).1 == Answered(Err(SeqMismatch)) && RunCall(l, next).0.proxy.poisoned
  {
    var n := NextSeq(start);
    var served := Serve(c.cfg, c.um, c.req, n, c.os);
    ServedTwice(c.cfg, c.um, c.req, n, c.os);
    assert served.replies[0] in served.replies && served.replies[1] in served.replies;
    assert [] + served.replies == served.replies;
    var l := RunCall(Quiet(start), c).0;
    assert l == Link(Proxy(n, false), [served.replies[1]], true);
    StaleReplyPoisons(l, Paired(next.req), Serve(next.cfg, next.um, next.req, NextSeq(n), next.os));
  }

  lemma StaleReplyPoisons(l: Link, wanted: Kind, served: Served)
    requires l.proxy.seqno < MODULUS && !l.proxy.poisoned && l.inbox != [] && Fits(l.inbox[0])
    requires l.inbox[0].tag == Some(l.proxy.seqno)
    ensures Receive(l, wanted, served).1 == Answered(Err(SeqMismatch)) && Receive(l, wanted, served).0.proxy.poisoned
  {
    assert (l.inbox + served.replies)[0] == l.inbox[0];
    assert NextSeq(l.proxy.seqno) != l.proxy.seqno;
  }

  // ---------------------------------------------------------------------
  // Against any stream of replies

  datatype Exchange = Exchange(wanted: Kind, incoming: Reply)

  function Results(p: Proxy, xs: seq<Exchange>): seq<Result<Reply, RpcError>>
    decreases |xs|
  {
    if xs == [] then []
    else
      [if p.poisoned then Err(ChannelPoisoned) else Accept(NextSeq(p.seqno), xs[0].wanted, xs[0].incoming)]
      + Results(AfterCall(p, xs[0].wanted, xs[0].incoming), xs[1..])
  }

  lemma {:induction false} PoisonedRefusesAll(p: Proxy, xs: seq<Exchange>)
    requires p.poisoned
    ensures |Results(p, xs)| == |xs| && forall i :: 0 <= i < |xs| ==> Results(p, xs)[i] == Err(ChannelPoisoned)
    decreases |xs|
  {
    if xs != [] { PoisonedRefusesAll(p, xs[1..]); }
  }

  /** Whatever arrives on the channel, after the first mismatch no reply is accepted any more. */
  lemma {:induction false} NothingAcceptedAfterMismatch(p: Proxy, xs: seq<Exchange>, i: nat, j: nat)
    requires i < j < |xs|
    ensures |Results(p, xs)| == |xs|
    ensures Results(p, xs)[i].Err? ==> Results(p, xs)[j] == Err(ChannelPoisoned)
    decreases |xs|
  {
    var p' := AfterCall(p, xs[0].wanted, xs[0].incoming);
    ResultPerCall(p', xs[1..]);
    if p'.poisoned {
      PoisonedRefusesAll(p', xs[1..]);
    } else if i > 0 {
      NothingAcceptedAfterMismatch(p', xs[1..], i - 1, j - 1);
    }
  }

  lemma {:induction false} ResultPerCall(p: Proxy, xs: seq<Exchange>)
    ensures |Results(p, xs)| == |xs|
    decreases |xs|
  {
    if xs != [] { ResultPerCall(AfterCall(p, xs[0].wanted, xs[0].incoming), xs[1..]); }
  }

  /** And what is accepted is the message received, with the number and the type that were due. */
  lemma {:induction false} AcceptedIsExpected(p: Proxy, xs: seq<Exchange>, j: nat)
    requires j < |xs|
    ensures |Results(p, xs)| == |xs|
    ensures Results(p, xs)[j].Ok? ==>
      Results(p, xs)[j].value == xs[j].incoming && xs[j].incoming.kind == xs[j].wanted &&
      xs[j].incoming.tag == Some(SeqOf(p.seqno, j))
    decreases |xs|
  {
    var p' := AfterCall(p, xs[0].wanted, xs[0].incoming);
    ResultPerCall(p', xs[1..]);
    if p'.poisoned {
      PoisonedRefusesAll(p', xs[1..]);
    } else if j > 0 {
      AcceptedIsExpected(p', xs[1..], j - 1);
      SeqShifts(p.seqno, j - 1);
    }
  }
}
