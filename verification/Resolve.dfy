/** The `console` command in the worker and the SPAWN_REQ check in the monitor, which must agree. */
module Resolve {
  import opened Prelude
  import opened Glob
  import opened Values
  import opened Config
  import opened Acl
  import StrFormat

  // ---------------------------------------------------------------------
  // What both processes look up

  /** The definition under the name if it is not None, else the first pattern whose name template matches. */
  function Defined(cfg: Dict, name: string): Outcome<Option<Found>> {
    var def :- Definition(cfg, name);
    if !def.Null? then Done(Some(Found(def, map[]))) else MatchConsoleName(cfg, name)
  }

  /** Looking the name up raises: the consoles section, or the patterns if it comes to them. */
  predicate DefinedBreaks(cfg: Dict, name: string) {
    !Consoles(cfg).Obj? ||
    (GetOr(Consoles(cfg).fields, name, Null).Null? &&
     (Patterns(cfg).Raised? || NameScanBreaks(Patterns(cfg).value, name)))
  }

  lemma DefinedBreaksIff(cfg: Dict, name: string)
    ensures Defined(cfg, name).Raised? <==> DefinedBreaks(cfg, name)
  {
    if Patterns(cfg).Done? { NameScanBreaksIff(Patterns(cfg).value, name); }
  }

  predicate IsExec(f: Found) {
    TypeOf(f.def) == Done(Str("exec"))
  }

  // ---------------------------------------------------------------------
  // The worker

  /**
   * What the worker does with `console <name>`, up to the point where it attaches or
   * asks for a spawn. `Fails` is an exception, which ends the session.
   */
  datatype Decision =
    | NotFound
    | Denied
    | NoExecDefinition
    | NotYetActive
    | Fails
    | Spawn(def: Json, vars: Vars)
    | Attach(readOnly: bool)

  /** `defn or {}`. */
  function OrEmpty(found: Option<Found>): Found {
    if found.None? then Found(Obj([]), map[])
    else if Truthy(found.value.def) then found.value
    else Found(Obj([]), found.value.vars)
  }

  /** What the definition is with the fallback, which is tried only if no hub was live. */
  function WorkerDefinition(cfg: Dict, name: string, liveFirst: bool): Outcome<Option<Found>> {
    var found :- Defined(cfg, name);
    if found.Some? || liveFirst then Done(found)
    else
      var def :- DefaultExec(cfg);
      Done(if def.Some? then Some(Found(def.value, map[])) else None)
  }

  /** The decision in one expression: definition, then access, then liveness. */
  function WorkerDecision(cfg: Dict, um: Json, user: string, name: string, liveFirst: bool, liveLast: bool): Decision {
    match WorkerDefinition(cfg, name, liveFirst)
    case Raised => Fails
    case Done(found) =>
      if found.None? && !liveFirst then NotFound
      else
        match ResolveAccess(um, user, OrEmpty(found).def, OrEmpty(found).vars)
        case Broken => Fails
        case Refused => Denied
        case Granted(level) =>
          if liveLast then Attach(level == ReadOnly)
          else if found.None? then NoExecDefinition
          else
            match TypeOf(found.value.def)
            case Raised => Fails
            case Done(t) => if t == Str("exec") then Spawn(found.value.def, found.value.vars) else NotYetActive
  }

  /**
   * The worker's command. The hub registry is asked twice: `liveFirst` is the
   * answer of the first lookup (made only when nothing is defined), `liveLast`
   * that of the last one; a hub can come or go in between.
   */
  method DecideConsole(cfg: Dict, um: Json, user: string, name: string, liveFirst: bool, liveLast: bool)
    returns (d: Decision)
    ensures d == WorkerDecision(cfg, um, user, name, liveFirst, liveLast)
  {
    d := Fails;
    var explicit := Definition(cfg, name);
    if explicit.Raised? {
      return;
    }
    var def := explicit.value;
    var vars: Vars := map[];
    if def.Null? {
      var found := MatchConsoleName(cfg, name);
      if found.Raised? {
        return;
      }
      if found.value.Some? {
        def, vars := found.value.value.def, found.value.value.vars;
        PickedIsDict(cfg, name);
      }
    }
    if def.Null? && !liveFirst {
      var fallback := DefaultExec(cfg);
      if fallback.Raised? {
        return;
      }
      if fallback.value.None? {
        return NotFound;
      }
      def := fallback.value.value;
    }
    var access := ResolveAccess(um, user, if Truthy(def) then def else Obj([]), vars);
    if access.Broken? {
      return;
    }
    if access.Refused? {
      return Denied;
    }
    if !liveLast {
      if def.Null? {
        return NoExecDefinition;
      }
      var t := TypeOf(def);
      if t.Raised? {
        return;
      }
      if t.value != Str("exec") {
        return NotYetActive;
      }
      return Spawn(def, vars);
    }
    d := Attach(access.level == ReadOnly);
  }

  /** A pattern found by name is a dictionary. */
  lemma PickedIsDict(cfg: Dict, name: string)
    requires MatchConsoleName(cfg, name).Done? && MatchConsoleName(cfg, name).value.Some?
    ensures MatchConsoleName(cfg, name).value.value.def.Obj?
  {
    NameFoundIsDict(Patterns(cfg).value, name);
  }

  lemma {:induction false} NameFoundIsDict(pats: seq<Json>, name: string)
    requires FirstName(pats, name).Done? && FirstName(pats, name).value.Some?
    ensures FirstName(pats, name).value.value.def.Obj?
  {
    if NameOfPattern(pats[0], name).value.None? { NameFoundIsDict(pats[1..], name); }
  }

  /** A definition under the name wins, with no variables; without one it is the first pattern that matches. */
  lemma DefinedIs(cfg: Dict, consoles: Dict, name: string)
    requires Get(cfg, "consoles") == Some(Obj(consoles))
    ensures match Get(consoles, name)
      case Some(def) => !def.Null? ==> Defined(cfg, name) == Done(Some(Found(def, map[])))
      case None => Defined(cfg, name) == MatchConsoleName(cfg, name)
  {
  }

  /**
   * What the worker answers, case by case. With `found` the definition and `access` what
   * the user has to it: the user is attached exactly if that is granted and the hub live
   * at the last look; denied exactly if it is refused; and so on.
   */
  lemma DecisionIff(cfg: Dict, um: Json, user: string, name: string, liveFirst: bool, liveLast: bool)
    ensures
      var d, found := WorkerDecision(cfg, um, user, name, liveFirst, liveLast), WorkerDefinition(cfg, name, liveFirst);
      var resolved := found.Done? && (found.value.Some? || liveFirst);
      var access :=
        if found.Done? then ResolveAccess(um, user, OrEmpty(found.value).def, OrEmpty(found.value).vars) else Broken;
      var idle := resolved && access.Granted? && !liveLast;
      && (d.Attach? <==> resolved && access.Granted? && liveLast)
      && (d.NotFound? <==> found == Done(None) && !liveFirst)
      && (d.Denied? <==> resolved && access.Refused?)
      && (d.NoExecDefinition? <==> idle && found.value.None?)
      && (d.NotYetActive? <==> idle && found.value.Some? && found.value.value.def.Obj? && !IsExec(found.value.value))
      && (d.Spawn? <==> idle && found.value.Some? && IsExec(found.value.value))
      && (d.Spawn? ==> d.def == found.value.value.def && d.vars == found.value.value.vars)
      && (d.Fails? <==> found.Raised? || (resolved && access.Broken?) ||
                        (idle && found.value.Some? && !found.value.value.def.Obj?))
  {
  }

  // ---------------------------------------------------------------------
  // The monitor

  datatype Refusal = InvalidName | NotDefined | NotExecType | AccessDenied | NoCommand | BadTemplate

  predicate NameStart(c: char) {
    'a' <= c <= 'z' || 'A' <= c <= 'Z' || '0' <= c <= '9'
  }

  predicate PlainName(s: string) {
    1 <= |s| <= 253 && NameStart(s[0]) &&
    forall i :: 0 < i < |s| ==> NameStart(s[i]) || s[i] in {'_', '-', '.'}
  }

  /** `validate_vm_name`; its `$` lets one final newline through. */
  predicate ValidName(s: string) {
    PlainName(s) || (s != "" && s[|s| - 1] == '\n' && PlainName(s[..|s| - 1]))
  }

  /** `Raises` is an exception no branch catches: it ends the monitor's loop. */
  datatype Verdict = Refuse(why: Refusal) | Run(cmd: string) | Raises

  /** The command template of a definition; an absent one is empty. */
  function CommandOf(def: Dict): Json {
    GetOr(def, "cmd", Str(""))
  }

  function MonitorDefinition(cfg: Dict, name: string): Outcome<Option<Found>> {
    WorkerDefinition(cfg, name, false)
  }

  predicate MayRun(f: Found, um: Json, user: string) {
    IsExec(f) && ResolveAccess(um, user, f.def, f.vars).Granted?
  }

  /** The command text; formatting with a captured variable also called name is a TypeError. */
  function CommandText(cmd: Json, vars: Vars, name: string): Verdict {
    if !Truthy(cmd) then Refuse(NoCommand)
    else if !cmd.Str? || "name" in vars then Raises
    else
      match StrFormat.Format(cmd.s, vars["name" := name])
      case Text(text) => Run(text)
      case MissingKey => Refuse(BadTemplate)
      case Malformed => Raises
  }

  function MonitorVerdict(cfg: Dict, um: Json, user: string, name: string): Verdict {
    if !ValidName(name) then Refuse(InvalidName)
    else
      match MonitorDefinition(cfg, name)
      case Raised => Raises
      case Done(None) => Refuse(NotDefined)
      case Done(Some(f)) =>
        if !f.def.Obj? then Raises
        else if !IsExec(f) then Refuse(NotExecType)
        else
          match ResolveAccess(um, user, f.def, f.vars)
          case Broken => Raises
          case Refused => Refuse(AccessDenied)
          case Granted(_) => CommandText(CommandOf(f.def.fields), f.vars, name)
  }

  /** The SPAWN_REQ branch up to the command text, resolved from the monitor's own stores. */
  method AuthorizeSpawn(cfg: Dict, um: Json, user: string, name: string) returns (v: Verdict)
    ensures v == MonitorVerdict(cfg, um, user, name)
  {
    v := Raises;
    if !ValidName(name) {
      return Refuse(InvalidName);
    }
    var explicit := Definition(cfg, name);
    if explicit.Raised? {
      return;
    }
    var def := explicit.value;
    var vars: Vars := map[];
    if def.Null? {
      var found := MatchConsoleName(cfg, name);
      if found.Raised? {
        return;
      }
      if found.value.Some? {
        def, vars := found.value.value.def, found.value.value.vars;
        PickedIsDict(cfg, name);
      }
    }
    if def.Null? {
      var fallback := DefaultExec(cfg);
      if fallback.Raised? {
        return;
      }
      if fallback.value.None? {
        return Refuse(NotDefined);
      }
      def := fallback.value.value;
    }
    var t := TypeOf(def);
    if t.Raised? {
      return;
    }
    if t.value != Str("exec") {
      return Refuse(NotExecType);
    }
    var access := ResolveAccess(um, user, def, vars);
    if access.Broken? {
      return;
    }
    if access.Refused? {
      return Refuse(AccessDenied);
    }
    var cmd := CommandOf(def.fields);
    if !Truthy(cmd) {
      return Refuse(NoCommand);
    }
    if !cmd.Str? || "name" in vars {
      return;
    }
    var text := StrFormat.Format(cmd.s, vars["name" := name]);
    if text.Malformed? {
      return;
    }
    if text.MissingKey? {
      return Refuse(BadTemplate);
    }
    v := Run(text.text);
  }

  /** Why the monitor refuses, case by case. */
  lemma RefusalIff(cfg: Dict, um: Json, user: string, name: string)
    ensures var v, found := MonitorVerdict(cfg, um, user, name), MonitorDefinition(cfg, name);
      var known := ValidName(name) && found.Done? && found.value.Some? && found.value.value.def.Obj?;
      && (v == Refuse(InvalidName) <==> !ValidName(name))
      && (v == Refuse(NotDefined) <==> ValidName(name) && found == Done(None))
      && (v == Refuse(NotExecType) <==> known && !IsExec(found.value.value))
      && (known ==>
            var f := found.value.value;
            var access, cmd := ResolveAccess(um, user, f.def, f.vars), CommandOf(f.def.fields);
            && (v == Refuse(AccessDenied) <==> IsExec(f) && access.Refused?)
            && (v == Refuse(NoCommand) <==> IsExec(f) && access.Granted? && !Truthy(cmd)))
  {
  }

  /**
   * The command run is the template with the captures and the name put in; a template
   * with a placeholder that is neither is refused.
   */
  lemma CommandIsFilledIn(cfg: Dict, um: Json, user: string, name: string, f: Found, cmd: string)
    requires ValidName(name) && MonitorDefinition(cfg, name) == Done(Some(f)) && MayRun(f, um, user) && f.def.Obj?
    requires Get(f.def.fields, "cmd") == Some(Str(cmd)) && cmd != "" && "name" !in f.vars
    requires StrFormat.AllIdentifiers(Tokenize(cmd)) && StrFormat.NoBraces(Tokenize(cmd))
    ensures var v := f.vars["name" := name];
      MonitorVerdict(cfg, um, user, name) ==
        if Glob.Names(Tokenize(cmd)) <= v.Keys then Run(Subst(Tokenize(cmd), v)) else Refuse(BadTemplate)
  {
    StrFormat.FormatOfClean(cmd, f.vars["name" := name]);
  }

  // ---------------------------------------------------------------------
  // When the monitor raises

  /** Resolving the definition raises: the lookup, or the defaults if it comes to them. */
  predicate DefinitionBreaks(cfg: Dict, name: string) {
    DefinedBreaks(cfg, name) || (Defined(cfg, name) == Done(None) && DefaultsBreak(cfg))
  }

  /** The command is there and is no text, is formatted with `name` given twice, or is a template that raises. */
  predicate CommandBreaks(cmd: Json, vars: Vars, name: string) {
    Truthy(cmd) && (!cmd.Str? || "name" in vars || StrFormat.Raises(cmd.s, vars["name" := name]))
  }

  /**
   * The requests that raise before the command is split: a valid name whose definition
   * cannot be resolved or is no dictionary, or is exec and breaks while access is
   * resolved, or is granted and has a command that cannot be formatted.
   */
  predicate SpawnBreaks(cfg: Dict, um: Json, user: string, name: string) {
    && ValidName(name)
    && (|| DefinitionBreaks(cfg, name)
        || match MonitorDefinition(cfg, name)
           case Done(Some(f)) =>
             || !f.def.Obj?
             || (IsExec(f) &&
                 (|| AccessBreaks(um, user, f.def, f.vars)
                  || (MayRun(f, um, user) && CommandBreaks(CommandOf(f.def.fields), f.vars, name))))
           case _ => false)
  }

  lemma SpawnRaisesIff(cfg: Dict, um: Json, user: string, name: string)
    ensures MonitorVerdict(cfg, um, user, name) == Raises <==> SpawnBreaks(cfg, um, user, name)
  {
    DefinedBreaksIff(cfg, name);
    match MonitorDefinition(cfg, name) {
      case Done(Some(f)) =>
        AccessBreaksIff(um, user, f.def, f.vars);
        if f.def.Obj? && CommandOf(f.def.fields).Str? {
          StrFormat.FormatRaisesIff(CommandOf(f.def.fields).s, f.vars["name" := name]);
        }
      case _ =>
    }
  }

  // ---------------------------------------------------------------------
  // Agreement

  predicate RefusesAccess(v: Verdict) {
    v in {Refuse(NotDefined), Refuse(NotExecType), Refuse(AccessDenied)}
  }

  /**
   * On equal configurations and user maps, whenever the worker asks for a spawn,
   * whatever hubs it saw on the way, the monitor resolves the very same
   * definition and variables and refuses for none of its three access reasons.
   * A valid name is then decided by the command template alone.
   */
  lemma WorkerAsksOnlyWhatMonitorGrants(cfg: Dict, um: Json, user: string, name: string,
                                        liveFirst: bool, liveLast: bool)
    requires WorkerDecision(cfg, um, user, name, liveFirst, liveLast).Spawn?
    ensures var d := WorkerDecision(cfg, um, user, name, liveFirst, liveLast);
      && MonitorDefinition(cfg, name) == Done(Some(Found(d.def, d.vars))) && d.def.Obj?
      && MonitorVerdict(cfg, um, user, name) ==
           if ValidName(name) then CommandText(CommandOf(d.def.fields), d.vars, name) else Refuse(InvalidName)
    ensures !RefusesAccess(MonitorVerdict(cfg, um, user, name))
  {
  }

  /**
   * And with no hub in the way the worker asks for everything a well-formed name is
   * granted: it does not ask exactly when the monitor refuses on those grounds or
   * raises before it comes to the command.
   */
  lemma WorkerAsksForAllMonitorGrants(cfg: Dict, um: Json, user: string, name: string)
    requires ValidName(name)
    ensures var asks := WorkerDecision(cfg, um, user, name, false, false).Spawn?;
      && (asks <==> MonitorDefinition(cfg, name).Done? && MonitorDefinition(cfg, name).value.Some? &&
                    MayRun(MonitorDefinition(cfg, name).value.value, um, user))
      && (!asks ==> RefusesAccess(MonitorVerdict(cfg, um, user, name)) || MonitorVerdict(cfg, um, user, name) == Raises)
      && (asks ==> !RefusesAccess(MonitorVerdict(cfg, um, user, name)))
  {
  }

  /**
   * Whoever is attached has the access the mode says: by the definition found, or,
   * for a live hub nothing defines, by the user's role alone.
   */
  lemma AttachModeIsAccess(cfg: Dict, um: Json, user: string, name: string, liveFirst: bool, liveLast: bool)
    requires WorkerDecision(cfg, um, user, name, liveFirst, liveLast).Attach?
    ensures liveLast && WorkerDefinition(cfg, name, liveFirst).Done?
    ensures Membership(um, user).Done? && Membership(um, user).value.Some?
    ensures var found := WorkerDefinition(cfg, name, liveFirst).value;
      var readOnly := WorkerDecision(cfg, um, user, name, liveFirst, liveLast).readOnly;
      var access :=
        if found.Some? && Truthy(found.value.def) then ResolveAccess(um, user, found.value.def, found.value.vars)
        else ToAccess(RoleForGroups(um, Membership(um, user).value.value));
      access == Granted(if readOnly then ReadOnly else ReadWrite)
  {
    assert !HasLists([]);
  }
}
