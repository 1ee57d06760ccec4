/** The session table and the enforcement walk over it. */
module Session {
  import opened Prelude
  import opened Glob
  import opened Values
  import opened Config
  import opened Acl

  type Sid = nat

  type Sock = nat

  datatype State = AtPrompt | InConsole

  datatype Record = Record(username: string, state: State, console: Option<string>, readOnly: bool)

  /** The keyword arguments of `update`; an absent one leaves its field alone. */
  datatype Patch = Patch(state: Option<State>, console: Option<Option<string>>, readOnly: Option<bool>)

  function Apply(r: Record, p: Patch): Record {
    Record(r.username,
           if p.state.Some? then p.state.value else r.state,
           if p.console.Some? then p.console.value else r.console,
           if p.readOnly.Some? then p.readOnly.value else r.readOnly)
  }

  // ---------------------------------------------------------------------
  // What enforcement decides about one session

  /** Crashes is an exception while the session is judged. */
  datatype Judgement = Keep | ConsoleRemoved | AccessRevoked | Crashes

  /** A session is judged only while it is recorded at a console with a name. */
  predicate AtConsole(r: Record) {
    r.state == InConsole && r.console.Some? && r.console.value != ""
  }

  /**
   * The definition used for a console: the one under its name, else a pattern tried on
   * the socket path of that definition, which is empty if the name is missing and
   * cannot be asked for if the name is there without a definition.
   */
  function EnforcedDefinition(cfg: Dict, console: string): Outcome<Option<Found>> {
    var def :- Definition(cfg, console);
    if !def.Null? then Done(Some(Found(def, map[])))
    else
      var pats :- Patterns(cfg);
      if pats == [] then Done(None)
      else if Get(Consoles(cfg).fields, console).Some? then Raised
      else FirstSocket(pats, "")
  }

  function JudgeAccess(a: Access): Judgement {
    match a
    case Broken => Crashes
    case Refused => AccessRevoked
    case Granted(_) => Keep
  }

  function Judge(cfg: Dict, um: Json, r: Record): Judgement {
    if !AtConsole(r) then Keep
    else
      match EnforcedDefinition(cfg, r.console.value)
      case Raised => Crashes
      case Done(None) => ConsoleRemoved
      case Done(Some(f)) => JudgeAccess(ResolveAccess(um, r.username, f.def, f.vars))
  }

  /** A line of the report. */
  datatype Line = Line(username: string, console: Option<string>, outcome: Judgement)

  function Report(cfg: Dict, um: Json, order: seq<Sid>, sessions: map<Sid, Record>, kept: bool): seq<Line>
    requires forall i :: 0 <= i < |order| ==> order[i] in sessions
  {
    if order == [] then []
    else
      var n := |order| - 1;
      var r := sessions[order[n]];
      var j := Judge(cfg, um, r);
      Report(cfg, um, order[..n], sessions, kept)
      + (if kept == (j == Keep) then [Line(r.username, if AtConsole(r) then r.console else None, j)] else [])
  }

  lemma ReportSnoc(cfg: Dict, um: Json, order: seq<Sid>, sid: Sid, sessions: map<Sid, Record>, kept: bool)
    requires forall i :: 0 <= i < |order| ==> order[i] in sessions
    requires sid in sessions
    ensures forall i :: 0 <= i < |order + [sid]| ==> (order + [sid])[i] in sessions
    ensures var r := sessions[sid];
      var j := Judge(cfg, um, r);
      Report(cfg, um, order + [sid], sessions, kept) == Report(cfg, um, order, sessions, kept)
        + (if kept == (j == Keep) then [Line(r.username, if AtConsole(r) then r.console else None, j)] else [])
  {
    assert (order + [sid])[..|order|] == order;
  }

  /** The sessions to drop, in order. */
  function StaleOf(cfg: Dict, um: Json, order: seq<Sid>, sessions: map<Sid, Record>): seq<Sid>
    requires forall i :: 0 <= i < |order| ==> order[i] in sessions
  {
    if order == [] then []
    else
      var n := |order| - 1;
      StaleOf(cfg, um, order[..n], sessions) + (if Judge(cfg, um, sessions[order[n]]) == Keep then [] else [order[n]])
  }

  lemma StaleSnoc(cfg: Dict, um: Json, order: seq<Sid>, sid: Sid, sessions: map<Sid, Record>)
    requires forall i :: 0 <= i < |order| ==> order[i] in sessions
    requires sid in sessions
    ensures forall i :: 0 <= i < |order + [sid]| ==> (order + [sid])[i] in sessions
    ensures StaleOf(cfg, um, order + [sid], sessions) == StaleOf(cfg, um, order, sessions)
      + (if Judge(cfg, um, sessions[sid]) == Keep then [] else [sid])
  {
    assert (order + [sid])[..|order|] == order;
  }

  lemma {:induction false} StaleMembers(cfg: Dict, um: Json, order: seq<Sid>, sessions: map<Sid, Record>)
    requires forall i :: 0 <= i < |order| ==> order[i] in sessions
    ensures forall s :: s in StaleOf(cfg, um, order, sessions) <==>
      s in order && s in sessions && Judge(cfg, um, sessions[s]) != Keep
  {
    if order != [] {
      var n := |order| - 1;
      StaleMembers(cfg, um, order[..n], sessions);
      assert order == order[..n] + [order[n]];
    }
  }

  function Survivors(cfg: Dict, um: Json, sessions: map<Sid, Record>): map<Sid, Record> {
    map s | s in sessions && Judge(cfg, um, sessions[s]) == Keep :: sessions[s]
  }

  function Without<T(==)>(s: seq<T>, x: T): seq<T> {
    if s == [] then [] else (if s[0] == x then [] else [s[0]]) + Without(s[1..], x)
  }

  predicate NoRepeats<T(==)>(s: seq<T>) {
    forall i, j :: 0 <= i < j < |s| ==> s[i] != s[j]
  }

  lemma {:induction false} WithoutRemovesOne<T>(s: seq<T>, x: T)
    ensures forall y :: y in Without(s, x) <==> y in s && y != x
    ensures NoRepeats(s) ==> NoRepeats(Without(s, x))
  {
    if s != [] {
      WithoutRemovesOne(s[1..], x);
      assert forall y :: y in s <==> y == s[0] || y in s[1..];
      if NoRepeats(s) {
        forall i | 0 < i < |s| ensures s[i] != s[0] {}
        forall i, j | 0 <= i < j < |s[1..]| ensures s[1..][i] != s[1..][j] {
          assert s[1..][i] == s[i + 1] && s[1..][j] == s[j + 1];
        }
        assert s[0] !in s[1..];
        var w := Without(s[1..], x);
        assert NoRepeats(w) && s[0] !in w;
        if s[0] != x {
          assert Without(s, x) == [s[0]] + w;
        } else {
          assert Without(s, x) == w;
        }
      }
    }
  }

  // ---------------------------------------------------------------------
  // The walk

  /** The definition loop of `kill_stale`: the name's definition, else the patterns in order. */
  method FindEnforced(cfg: Dict, console: string) returns (f: Outcome<Option<Found>>)
    ensures f == EnforcedDefinition(cfg, console)
  {
    var def :- Definition(cfg, console);
    if !def.Null? {
      return Done(Some(Found(def, map[])));
    }
    var pats :- Patterns(cfg);
    assert pats[0..] == pats;
    for i := 0 to |pats|
      invariant FirstSocket(pats, "") == FirstSocket(pats[i..], "")
      invariant i > 0 ==> Get(Consoles(cfg).fields, console).None?
    {
      assert pats[i..][1..] == pats[i + 1..];
      var inner := GetOr(Consoles(cfg).fields, console, Obj([]));
      var path :- Item(inner, "socket", Str(""));
      var v :- SocketOfPattern(pats[i], path.s);
      if v.Some? {
        return Done(Some(Found(pats[i], v.value)));
      }
    }
    f := Done(None);
  }

  /** One turn of the walk: at the prompt, console gone, access gone, kept, or an exception. */
  method JudgeOne(cfg: Dict, um: Json, r: Record) returns (j: Judgement)
    ensures j == Judge(cfg, um, r)
  {
    if !AtConsole(r) {
      return Keep;
    }
    var f := FindEnforced(cfg, r.console.value);
    if f.Raised? {
      return Crashes;
    }
    if f.value.None? {
      return ConsoleRemoved;
    }
    var access := ResolveAccess(um, r.username, f.value.value.def, f.value.value.vars);
    match access {
      case Broken => j := Crashes;
      case Refused => j := AccessRevoked;
      case Granted(_) => j := Keep;
    }
  }

  /** Judging some session of the table raises. */
  predicate AnyCrash(cfg: Dict, um: Json, sessions: map<Sid, Record>) {
    exists sid :: sid in sessions && Judge(cfg, um, sessions[sid]) == Crashes
  }

  function LineOf(cfg: Dict, um: Json, r: Record): Line {
    Line(r.username, if AtConsole(r) then r.console else None, Judge(cfg, um, r))
  }

  /** The three lists after judging these sessions. */
  ghost predicate Walked(cfg: Dict, um: Json, order: seq<Sid>, sessions: map<Sid, Record>,
                         stale: seq<Sid>, killed: seq<Line>, retained: seq<Line>)
    requires forall i :: 0 <= i < |order| ==> order[i] in sessions
  {
    && stale == StaleOf(cfg, um, order, sessions)
    && killed == Report(cfg, um, order, sessions, false)
    && retained == Report(cfg, um, order, sessions, true)
    && |killed| + |retained| == |order|
  }

  lemma WalkedOneMore(cfg: Dict, um: Json, order: seq<Sid>, sid: Sid, sessions: map<Sid, Record>,
                      stale: seq<Sid>, killed: seq<Line>, retained: seq<Line>)
    requires forall i :: 0 <= i < |order| ==> order[i] in sessions
    requires sid in sessions && Walked(cfg, um, order, sessions, stale, killed, retained)
    ensures forall i :: 0 <= i < |order + [sid]| ==> (order + [sid])[i] in sessions
    ensures var line := [LineOf(cfg, um, sessions[sid])];
      if Judge(cfg, um, sessions[sid]) == Keep
      then Walked(cfg, um, order + [sid], sessions, stale, killed, retained + line)
      else Walked(cfg, um, order + [sid], sessions, stale + [sid], killed + line, retained)
  {
    ReportSnoc(cfg, um, order, sid, sessions, true);
    ReportSnoc(cfg, um, order, sid, sessions, false);
    StaleSnoc(cfg, um, order, sid, sessions);
  }

  /** Judging one of these sessions raises. */
  predicate CrashAmong(cfg: Dict, um: Json, order: seq<Sid>, sessions: map<Sid, Record>)
    requires forall i :: 0 <= i < |order| ==> order[i] in sessions
  {
    exists i :: 0 <= i < |order| && Judge(cfg, um, sessions[order[i]]) == Crashes
  }

  lemma CrashAmongSnoc(cfg: Dict, um: Json, order: seq<Sid>, sid: Sid, sessions: map<Sid, Record>)
    requires forall i :: 0 <= i < |order| ==> order[i] in sessions
    requires sid in sessions
    ensures forall i :: 0 <= i < |order + [sid]| ==> (order + [sid])[i] in sessions
    ensures CrashAmong(cfg, um, order + [sid], sessions) <==>
      CrashAmong(cfg, um, order, sessions) || Judge(cfg, um, sessions[sid]) == Crashes
  {
    if i :| 0 <= i < |order| && Judge(cfg, um, sessions[order[i]]) == Crashes {
      assert (order + [sid])[i] == order[i];
    }
    assert (order + [sid])[|order|] == sid;
  }

  /** One session further along, none before it having raised: it raises, and so does the walk, or it is placed. */
  lemma WalkedNext(cfg: Dict, um: Json, order: seq<Sid>, n: nat, sessions: map<Sid, Record>,
                   stale: seq<Sid>, killed: seq<Line>, retained: seq<Line>)
    requires n < |order| && forall i :: 0 <= i < |order| ==> order[i] in sessions
    requires !CrashAmong(cfg, um, order[..n], sessions)
    requires Walked(cfg, um, order[..n], sessions, stale, killed, retained)
    ensures var r := sessions[order[n]];
      var j, line := Judge(cfg, um, r), [LineOf(cfg, um, r)];
      if j == Crashes then CrashAmong(cfg, um, order, sessions)
      else
        && !CrashAmong(cfg, um, order[..n + 1], sessions)
        && if j == Keep then Walked(cfg, um, order[..n + 1], sessions, stale, killed, retained + line)
           else Walked(cfg, um, order[..n + 1], sessions, stale + [order[n]], killed + line, retained)
  {
    assert order[..n] + [order[n]] == order[..n + 1];
    CrashAmongSnoc(cfg, um, order[..n], order[n], sessions);
    if Judge(cfg, um, sessions[order[n]]) != Crashes {
      WalkedOneMore(cfg, um, order[..n], order[n], sessions, stale, killed, retained);
    }
  }

  /** The first loop of `kill_stale`; an exception ends it. */
  method Walk(cfg: Dict, um: Json, order: seq<Sid>, sessions: map<Sid, Record>)
    returns (raised: bool, stale: seq<Sid>, killed: seq<Line>, retained: seq<Line>)
    requires forall i :: 0 <= i < |order| ==> order[i] in sessions
    ensures raised <==> CrashAmong(cfg, um, order, sessions)
    ensures !raised ==> Walked(cfg, um, order, sessions, stale, killed, retained)
  {
    raised, stale, killed, retained := false, [], [], [];
    for i := 0 to |order|
      invariant !raised && !CrashAmong(cfg, um, order[..i], sessions)
      invariant Walked(cfg, um, order[..i], sessions, stale, killed, retained)
    {
      WalkedNext(cfg, um, order, i, sessions, stale, killed, retained);
      var line;
      raised, line := LineFor(cfg, um, sessions[order[i]]);
      if raised {
        return;
      }
      if line.outcome == Keep {
        retained := retained + [line];
      } else {
        stale := stale + [order[i]];
        killed := killed + [line];
      }
    }
    assert order[..|order|] == order;
  }

  /** The line a session gets on one of the two reports. */
  method LineFor(cfg: Dict, um: Json, s: Record) returns (raised: bool, line: Line)
    ensures line == LineOf(cfg, um, s) && line.outcome == Judge(cfg, um, s)
    ensures raised <==> Judge(cfg, um, s) == Crashes
  {
    var j := JudgeOne(cfg, um, s);
    line := Line(s.username, if AtConsole(s) then s.console else None, j);
    raised := j == Crashes;
  }

  // ---------------------------------------------------------------------
  // The object

  /** `order` is the insertion order of the two dictionaries. */
  class SessionRegistry {
    var sessions: map<Sid, Record>
    var socks: map<Sid, Sock>
    var order: seq<Sid>

    ghost predicate Valid()
      reads this
    {
      && sessions.Keys == socks.Keys
      && NoRepeats(order)
      && (forall s :: s in order <==> s in sessions)
    }

    constructor ()
      ensures Valid() && sessions == map[] && socks == map[]
    {
      sessions, socks, order := map[], map[], [];
    }

    method Add(sid: Sid, username: string, state: State, sock: Sock, console: Option<string>, readOnly: bool)
      requires Valid()
      modifies this
      ensures Valid()
      ensures sessions == old(sessions)[sid := Record(username, state, console, readOnly)]
      ensures socks == old(socks)[sid := sock]
      ensures order == if sid in old(sessions) then old(order) else old(order) + [sid]
    {
      if sid !in sessions {
        order := order + [sid];
      }
      sessions := sessions[sid := Record(username, state, console, readOnly)];
      socks := socks[sid := sock];
    }

    method Update(sid: Sid, patch: Patch)
      requires Valid()
      modifies this
      ensures Valid() && socks == old(socks) && order == old(order)
      ensures sessions ==
        if sid in old(sessions) then old(sessions)[sid := Apply(old(sessions)[sid], patch)] else old(sessions)
    {
      if sid in sessions {
        sessions := sessions[sid := Apply(sessions[sid], patch)];
      }
    }

    method Remove(sid: Sid)
      requires Valid()
      modifies this
      ensures Valid()
      ensures sessions == old(sessions) - {sid} && socks == old(socks) - {sid}
      ensures order == Without(old(order), sid)
    {
      WithoutRemovesOne(order, sid);
      sessions := sessions - {sid};
      socks := socks - {sid};
      order := Without(order, sid);
    }

    /**
     * `kill_stale`: judge every session in order, then drop the stale ones with their
     * sockets; if judging one raises, nothing is dropped.
     */
    method KillStale(cfg: Dict, um: Json) returns (raised: bool, killed: seq<Line>, retained: seq<Line>)
      requires Valid()
      modifies this
      ensures Valid()
      ensures raised <==> AnyCrash(cfg, um, old(sessions))
      ensures raised ==> sessions == old(sessions) && socks == old(socks) && order == old(order)
      ensures !raised ==>
        && sessions == Survivors(cfg, um, old(sessions))
        && (forall s :: s in sessions ==> s in old(socks) && socks[s] == old(socks)[s])
        && killed == Report(cfg, um, old(order), old(sessions), false)
        && retained == Report(cfg, um, old(order), old(sessions), true)
        && |killed| + |retained| == |old(sessions)|
    {
      var stale;
      raised, stale, killed, retained := Walk(cfg, um, order, sessions);
      CrashInOrder(cfg, um, order, sessions);
      if raised {
        return;
      }
      OrderCountsSessions();
      DropAll(stale);
      RestSurvives(cfg, um, old(order), old(sessions), sessions);
    }

    /** The second loop of `kill_stale`. */
    method DropAll(stale: seq<Sid>)
      requires Valid()
      modifies this
      ensures Valid()
      ensures forall s :: s in sessions <==> s in old(sessions) && s !in stale
      ensures forall s :: s in sessions ==>
        sessions[s] == old(sessions)[s] && s in old(socks) && socks[s] == old(socks)[s]
    {
      for i := 0 to |stale|
        invariant Valid()
        invariant forall s :: s in sessions <==> s in old(sessions) && s !in stale[..i]
        invariant forall s :: s in sessions ==>
          sessions[s] == old(sessions)[s] && s in old(socks) && socks[s] == old(socks)[s]
      {
        assert stale[..i + 1] == stale[..i] + [stale[i]];
        Remove(stale[i]);
      }
      assert stale[..|stale|] == stale;
    }

    lemma OrderCountsSessions()
      requires Valid()
      ensures |order| == |sessions|
    {
      DistinctCount(order, sessions.Keys);
    }
  }

  lemma CrashInOrder(cfg: Dict, um: Json, order: seq<Sid>, sessions: map<Sid, Record>)
    requires forall s :: s in order <==> s in sessions
    ensures AnyCrash(cfg, um, sessions) <==> CrashAmong(cfg, um, order, sessions)
  {
    if sid :| sid in sessions && Judge(cfg, um, sessions[sid]) == Crashes {
      var i :| 0 <= i < |order| && order[i] == sid;
    }
  }

  /** What is left once exactly the stale sessions are gone. */
  lemma RestSurvives(cfg: Dict, um: Json, order: seq<Sid>, before: map<Sid, Record>, after: map<Sid, Record>)
    requires forall s :: s in order <==> s in before
    requires forall s :: s in after <==> s in before && s !in StaleOf(cfg, um, order, before)
    requires forall s :: s in after ==> after[s] == before[s]
    ensures after == Survivors(cfg, um, before)
  {
    StaleMembers(cfg, um, order, before);
  }

  lemma {:induction false} DistinctCount<T>(s: seq<T>, elems: set<T>)
    requires NoRepeats(s) && forall x :: x in s <==> x in elems
    ensures |s| == |elems|
  {
    if s == [] {
      assert elems == {};
    } else {
      var n := |s| - 1;
      forall x ensures x in s[..n] <==> x in elems - {s[n]} {
        if x in elems - {s[n]} {
          assert x in s;
        }
        if x in s[..n] {
          assert x in s;
        }
      }
      DistinctCount(s[..n], elems - {s[n]});
    }
  }

  // ---------------------------------------------------------------------
  // What enforcement guarantees, and what it does not

  /**
   * Nobody who is not recorded at a named console is ever dropped: such a session
   * survives every enforcement that does not raise, unchanged, whatever the stores.
   */
  lemma PromptSurvives(cfg: Dict, um: Json, sessions: map<Sid, Record>, sid: Sid)
    requires sid in sessions
    requires sessions[sid].state == AtPrompt || sessions[sid].console in {None, Some("")}
    ensures sid in Survivors(cfg, um, sessions) && Survivors(cfg, um, sessions)[sid] == sessions[sid]
  {
  }

  /** And it is on the retained report, without a console, in the place its order gives it; it is not on the other. */
  lemma PromptIsRetained(cfg: Dict, um: Json, order: seq<Sid>, sid: Sid, sessions: map<Sid, Record>)
    requires forall i :: 0 <= i < |order| ==> order[i] in sessions
    requires sid in sessions
    requires sessions[sid].state == AtPrompt || sessions[sid].console in {None, Some("")}
    ensures forall i :: 0 <= i < |order + [sid]| ==> (order + [sid])[i] in sessions
    ensures Report(cfg, um, order + [sid], sessions, true) ==
      Report(cfg, um, order, sessions, true) + [Line(sessions[sid].username, None, Keep)]
    ensures Report(cfg, um, order + [sid], sessions, false) == Report(cfg, um, order, sessions, false)
  {
    ReportSnoc(cfg, um, order, sid, sessions, true);
    ReportSnoc(cfg, um, order, sid, sessions, false);
  }

  /** Why a session is dropped: its console has no definition any more, or has one and refuses the user. */
  lemma KilledBecause(cfg: Dict, um: Json, r: Record)
    requires r.state == InConsole && r.console.Some? && r.console.value != ""
    ensures var f := EnforcedDefinition(cfg, r.console.value);
      && (Judge(cfg, um, r) == ConsoleRemoved <==> f == Done(None))
      && (Judge(cfg, um, r) == AccessRevoked <==>
            f.Done? && f.value.Some? && ResolveAccess(um, r.username, f.value.value.def, f.value.value.vars) == Refused)
      && (Judge(cfg, um, r) == Keep <==>
            f.Done? && f.value.Some? && ResolveAccess(um, r.username, f.value.value.def, f.value.value.vars).Granted?)
  {
  }

  /** Whoever is left at a console is allowed there under the current stores. */
  lemma SurvivorsHaveAccess(cfg: Dict, um: Json, sessions: map<Sid, Record>, sid: Sid)
    requires sid in Survivors(cfg, um, sessions) && AtConsole(sessions[sid])
    ensures var f := EnforcedDefinition(cfg, sessions[sid].console.value);
      && f.Done? && f.value.Some?
      && ResolveAccess(um, sessions[sid].username, f.value.value.def, f.value.value.vars).Granted?
  {
  }

  /** No pattern has an empty socket glob. */
  predicate NoEmptyGlob(pats: seq<Json>) {
    forall i :: 0 <= i < |pats| && pats[i].Obj? ==> Get(pats[i].fields, "_regex") != Some(Regex([]))
  }

  lemma {:induction false} PatternsMissEmptyPath(pats: seq<Json>)
    requires NoEmptyGlob(pats)
    ensures FirstSocket(pats, "") in {Raised, Done(None)}
  {
    if pats != [] {
      match pats[0] {
        case Obj(fields) =>
          match (Get(fields, "_fnmatch"), Get(fields, "_regex")) {
            case (Some(Str(f)), Some(Regex(r))) => EmptyPathNeverMatches(Compiled(f, r));
            case _ =>
          }
        case _ =>
      }
      PatternsMissEmptyPath(pats[1..]);
    }
  }

  /**
   * A session at a console survives exactly when the console is defined by name and
   * still open to the user: consoles reached through a pattern or the default are
   * treated as removed, as their socket path is looked up where it cannot be.
   */
  lemma OnlyExplicitConsolesSurvive(cfg: Dict, um: Json, r: Record)
    requires (Patterns(cfg).Done? ==> NoEmptyGlob(Patterns(cfg).value)) && AtConsole(r)
    ensures var def := Definition(cfg, r.console.value);
      Judge(cfg, um, r) == Keep <==>
      def.Done? && !def.value.Null? && ResolveAccess(um, r.username, def.value, map[]).Granted?
  {
    if Patterns(cfg).Done? { PatternsMissEmptyPath(Patterns(cfg).value); }
  }

  /** The access a session at a console now has. */
  function CurrentAccess(cfg: Dict, um: Json, r: Record): Access
    requires AtConsole(r)
  {
    match EnforcedDefinition(cfg, r.console.value)
    case Raised => Broken
    case Done(None) => Refused
    case Done(Some(f)) => ResolveAccess(um, r.username, f.def, f.vars)
  }

  /** The session types into its console, or watches it, with more access than it now has. */
  predicate Exceeds(cfg: Dict, um: Json, r: Record)
    requires AtConsole(r)
  {
    Rank(Granted(if r.readOnly then ReadOnly else ReadWrite)) > Rank(CurrentAccess(cfg, um, r))
  }

  /**
   * A downgrade from read-write to read-only is not acted on: the recorded mode plays no
   * part, and the sessions an enforcement leaves with more access than they now have are
   * exactly those at a console in read-write mode whose users may now only watch.
   */
  lemma SurvivorsThatExceed(cfg: Dict, um: Json, sessions: map<Sid, Record>)
    ensures forall sid :: sid in sessions && AtConsole(sessions[sid]) ==>
      (sid in Survivors(cfg, um, sessions) && Exceeds(cfg, um, sessions[sid]) <==>
       !sessions[sid].readOnly && CurrentAccess(cfg, um, sessions[sid]) == Granted(ReadOnly))
    ensures forall sid :: sid in sessions ==>
      var r := sessions[sid]; Judge(cfg, um, r) == Judge(cfg, um, r.(readOnly := !r.readOnly))
  {
  }

  /**
   * Looking up the definition raises: the consoles section is no dictionary; or the name
   * has no definition and the patterns cannot be looped over, or are tried although the
   * name is there, or one of them raises on the empty path before any matches.
   */
  predicate EnforcedBreaks(cfg: Dict, console: string) {
    !Consoles(cfg).Obj? ||
    (GetOr(Consoles(cfg).fields, console, Null).Null? &&
     (Patterns(cfg).Raised? ||
      (Patterns(cfg).value != [] &&
       (Get(Consoles(cfg).fields, console).Some? || SocketScanBreaks(Patterns(cfg).value, "")))))
  }

  /** What it takes to make judging a session raise. */
  predicate Unjudgeable(cfg: Dict, um: Json, r: Record) {
    AtConsole(r) &&
    (EnforcedBreaks(cfg, r.console.value) ||
     match EnforcedDefinition(cfg, r.console.value)
     case Done(Some(f)) => AccessBreaks(um, r.username, f.def, f.vars)
     case _ => false)
  }

  /** Judging a session raises exactly if the lookup of its definition does, or resolving access to that does. */
  lemma CrashesIff(cfg: Dict, um: Json, r: Record)
    ensures Judge(cfg, um, r) == Crashes <==> Unjudgeable(cfg, um, r)
  {
    if AtConsole(r) {
      if Patterns(cfg).Done? { SocketScanBreaksIff(Patterns(cfg).value, ""); }
      match EnforcedDefinition(cfg, r.console.value) {
        case Done(Some(f)) => AccessBreaksIff(um, r.username, f.def, f.vars);
        case _ =>
      }
    }
  }

  /** Enforcing twice in a row kills nobody the second time. */
  lemma EnforcementIsIdempotent(cfg: Dict, um: Json, sessions: map<Sid, Record>)
    ensures Survivors(cfg, um, Survivors(cfg, um, sessions)) == Survivors(cfg, um, sessions)
    ensures !AnyCrash(cfg, um, Survivors(cfg, um, sessions))
  {
  }
}
