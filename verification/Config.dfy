/** The console configuration: compiling its patterns, stripping it for transport, looking things up. */
module Config {
  import opened Prelude
  import opened Glob
  import opened Values

  predicate IsPrivate(key: string) {
    key != "" && key[0] == '_'
  }

  // ---------------------------------------------------------------------
  // Compiling patterns

  /** A glob that does not compile, or a section of the wrong shape, raises. */
  datatype ConfigError = BadGlob | BadShape

  function CompileDict(pat: Dict): Result<Dict, ConfigError> {
    var step1 :=
      match Get(pat, "socket_glob")
      case None => Ok(pat)
      case Some(Str(g)) =>
        (match Compile(g)
         case None => Err(BadGlob)
         case Some(c) => Ok(Put(Put(pat, "_fnmatch", Str(c.shell)), "_regex", Regex(c.regex))))
      case Some(_) => Err(BadShape);
    if step1.Err? then step1
    else
      match Get(step1.value, "console_name")
      case None => step1
      case Some(Str(g)) =>
        (match Compile(g)
         case None => Err(BadGlob)
         case Some(c) => Ok(Put(step1.value, "_name_regex", Regex(c.regex))))
      case Some(_) => Err(BadShape)
  }

  /** A pattern that is no dictionary passes as it is, unless it seems to hold one of the two keys. */
  function CompileEntry(pat: Json): Result<Json, ConfigError> {
    if pat.Obj? then
      var c := CompileDict(pat.fields);
      if c.Err? then Err(c.error) else Ok(Obj(c.value))
    else if IsContainer(pat) && !Has(pat, "socket_glob") && !Has(pat, "console_name") then Ok(pat)
    else Err(BadShape)
  }

  function CompileList(pats: seq<Json>): Result<seq<Json>, ConfigError> {
    if pats == [] then Ok([])
    else
      var head := CompileEntry(pats[0]);
      if head.Err? then Err(head.error)
      else
        var tail := CompileList(pats[1..]);
        if tail.Err? then Err(tail.error) else Ok([head.value] + tail.value)
  }

  /** `_precompile_patterns`; only the entries of a list are changed. */
  function Precompile(data: Dict): Result<Dict, ConfigError> {
    match Get(data, "console_patterns")
    case None => Ok(data)
    case Some(j) =>
      match Visits(j)
      case Raised => Err(BadShape)
      case Done(pats) =>
        var c := CompileList(pats);
        if c.Err? then Err(c.error)
        else Ok(if j.List? then Put(data, "console_patterns", List(c.value)) else data)
  }

  // ---------------------------------------------------------------------
  // Stripping

  /** `get_raw`'s `_strip`: drop every key that starts with '_', at every depth. */
  function Strip(j: Json): Json
    decreases j, 0
  {
    match j
    case Obj(fields) => Obj(StripDict(fields))
    case List(items) => List(StripItems(items))
    case _ => j
  }

  function StripDict(d: Dict): Dict
    decreases d, 0
  {
    if d == [] then []
    else
      (if IsPrivate(d[0].key) then [] else [Field(d[0].key, Strip(d[0].val))]) + StripDict(d[1..])
  }

  function StripItems(items: seq<Json>): (r: seq<Json>)
    ensures |r| == |items|
    decreases items, 0
  {
    if items == [] then [] else [Strip(items[0])] + StripItems(items[1..])
  }

  /** No key at any depth starts with '_'. */
  predicate Public(j: Json)
    decreases j, 0
  {
    match j
    case Obj(fields) => PublicDict(fields)
    case List(items) => PublicItems(items)
    case _ => true
  }

  predicate PublicDict(d: Dict)
    decreases d, 0
  {
    d == [] || (!IsPrivate(d[0].key) && Public(d[0].val) && PublicDict(d[1..]))
  }

  predicate PublicItems(items: seq<Json>)
    decreases items, 0
  {
    items == [] || (Public(items[0]) && PublicItems(items[1..]))
  }

  lemma {:induction false} StripDictShorter(d: Dict)
    ensures |StripDict(d)| <= |d|
    decreases |d|
  {
    if d != [] { StripDictShorter(d[1..]); }
  }

  /** A configuration survives stripping unchanged exactly when it has no private key. */
  lemma {:induction false} StripFixesExactlyPublic(j: Json)
    ensures Strip(j) == j <==> Public(j)
    decreases j, 0
  {
    match j
    case Obj(fields) => StripFixesExactlyPublicDict(fields);
    case List(items) => StripFixesExactlyPublicItems(items);
    case _ =>
  }

  lemma {:induction false} StripFixesExactlyPublicDict(d: Dict)
    ensures StripDict(d) == d <==> PublicDict(d)
    decreases d, 0
  {
    if d != [] {
      StripFixesExactlyPublic(d[0].val);
      StripFixesExactlyPublicDict(d[1..]);
      StripDictShorter(d[1..]);
      if !IsPrivate(d[0].key) {
        var s := StripDict(d);
        assert s[0] == Field(d[0].key, Strip(d[0].val)) && s[1..] == StripDict(d[1..]);
        assert d == [d[0]] + d[1..];
        if s == d { assert s[0] == d[0]; }
      }
    }
  }

  lemma {:induction false} StripFixesExactlyPublicItems(items: seq<Json>)
    ensures StripItems(items) == items <==> PublicItems(items)
    decreases items, 0
  {
    if items != [] {
      StripFixesExactlyPublic(items[0]);
      StripFixesExactlyPublicItems(items[1..]);
      var s := StripItems(items);
      assert s[0] == Strip(items[0]) && s[1..] == StripItems(items[1..]);
      assert items == [items[0]] + items[1..];
      if s == items { assert s[0] == items[0]; }
    }
  }

  /** Nothing private is left at any depth. */
  lemma {:induction false} StripIsPublic(j: Json)
    ensures Public(Strip(j))
    decreases j, 0
  {
    match j
    case Obj(fields) => StripDictIsPublic(fields);
    case List(items) => StripItemsIsPublic(items);
    case _ =>
  }

  lemma {:induction false} StripDictIsPublic(d: Dict)
    ensures PublicDict(StripDict(d))
    decreases d, 0
  {
    if d != [] {
      StripIsPublic(d[0].val);
      StripDictIsPublic(d[1..]);
      if IsPrivate(d[0].key) {
        assert StripDict(d) == StripDict(d[1..]);
      } else {
        assert StripDict(d)[1..] == StripDict(d[1..]);
      }
    }
  }

  lemma {:induction false} StripItemsIsPublic(items: seq<Json>)
    ensures PublicItems(StripItems(items))
    decreases items, 0
  {
    if items != [] {
      StripIsPublic(items[0]);
      StripItemsIsPublic(items[1..]);
      assert StripItems(items)[1..] == StripItems(items[1..]);
    }
  }

  function MapStrip(j: Option<Json>): Option<Json> {
    if j.None? then None else Some(Strip(j.value))
  }

  /** Every public key keeps its value, stripped; every private key is gone. */
  lemma {:induction false} StrippedGet(d: Dict, key: string)
    ensures Get(StripDict(d), key) == if IsPrivate(key) then None else MapStrip(Get(d, key))
    decreases |d|
  {
    if d != [] {
      StrippedGet(d[1..], key);
      if IsPrivate(d[0].key) {
        assert StripDict(d) == StripDict(d[1..]);
      } else {
        assert StripDict(d)[0].key == d[0].key && StripDict(d)[1..] == StripDict(d[1..]);
      }
    }
  }

  /** Writing a private key is invisible after stripping. */
  lemma {:induction false} StripForgetsPrivatePut(d: Dict, key: string, val: Json)
    requires IsPrivate(key)
    ensures StripDict(Put(d, key, val)) == StripDict(d)
    decreases |d|
  {
    if d == [] {
      assert StripDict([Field(key, val)]) == StripDict([]);
    } else {
      StripForgetsPrivatePut(d[1..], key, val);
    }
  }

  lemma {:induction false} StripSeesPublicPut(d: Dict, key: string, val: Json)
    requires !IsPrivate(key) && Get(d, key).Some? && Strip(val) == Strip(Get(d, key).value)
    ensures StripDict(Put(d, key, val)) == StripDict(d)
    decreases |d|
  {
    if d[0].key != key { StripSeesPublicPut(d[1..], key, val); }
  }

  lemma CompiledDictStrips(pat: Dict)
    requires CompileDict(pat).Ok?
    ensures StripDict(CompileDict(pat).value) == StripDict(pat)
  {
    var g := Get(pat, "socket_glob");
    var p1 := pat;
    if g.Some? {
      var c := Compile(g.value.s).value;
      StripForgetsPrivatePut(pat, "_fnmatch", Str(c.shell));
      p1 := Put(pat, "_fnmatch", Str(c.shell));
      StripForgetsPrivatePut(p1, "_regex", Regex(c.regex));
      p1 := Put(p1, "_regex", Regex(c.regex));
    }
    var n := Get(p1, "console_name");
    if n.Some? {
      StripForgetsPrivatePut(p1, "_name_regex", Regex(Compile(n.value.s).value.regex));
    }
  }

  lemma {:induction false} CompiledListStrips(pats: seq<Json>)
    requires CompileList(pats).Ok?
    ensures StripItems(CompileList(pats).value) == StripItems(pats)
  {
    if pats != [] {
      if pats[0].Obj? { CompiledDictStrips(pats[0].fields); }
      CompiledListStrips(pats[1..]);
      assert CompileList(pats).value[1..] == CompileList(pats[1..]).value;
    }
  }

  /** Compiling only adds private keys: what is shipped does not depend on it. */
  lemma CompiledStripsLikeRaw(raw: Dict)
    requires Precompile(raw).Ok?
    ensures StripDict(Precompile(raw).value) == StripDict(raw)
  {
    var p := Get(raw, "console_patterns");
    if p.Some? && p.value.List? {
      CompiledListStrips(p.value.items);
      StripSeesPublicPut(raw, "console_patterns", List(CompileList(p.value.items).value));
    }
  }

  /**
   * Config transport: stripping the compiled form gives the raw tree back exactly
   * when the raw tree has no private key, and compiling what was shipped then
   * rebuilds the sender's compiled form.
   */
  lemma TransportRoundTrip(raw: Dict)
    requires Precompile(raw).Ok?
    ensures StripDict(Precompile(raw).value) == raw <==> PublicDict(raw)
    ensures PublicDict(raw) ==> Precompile(StripDict(Precompile(raw).value)) == Precompile(raw)
  {
    CompiledStripsLikeRaw(raw);
    StripFixesExactlyPublicDict(raw);
  }

  // ---------------------------------------------------------------------
  // Lookups

  /** The consoles section, whatever it is. */
  function Consoles(cfg: Dict): Json {
    GetOr(cfg, "consoles", Obj([]))
  }

  /** The definition under a name; Null if there is none. */
  function Definition(cfg: Dict, name: string): Outcome<Json> {
    Item(Consoles(cfg), name, Null)
  }

  /** What a loop over the patterns visits. */
  function Patterns(cfg: Dict): Outcome<seq<Json>> {
    Visits(GetOr(cfg, "console_patterns", List([])))
  }

  datatype Found = Found(def: Json, vars: Vars)

  /** The body of the loops that try a pattern on a socket path. */
  function SocketOfPattern(pat: Json, path: string): Outcome<Option<Vars>> {
    if !IsContainer(pat) then Raised
    else if !Has(pat, "_fnmatch") then Done(None)
    else if !pat.Obj? then Raised
    else
      match (Get(pat.fields, "_fnmatch"), Get(pat.fields, "_regex"))
      case (Some(Str(f)), Some(Regex(r))) => Done(MatchGlob(Compiled(f, r), path))
      case (Some(Str(f)), Some(_)) => if ShellMatch(f, path) then Raised else Done(None)
      case _ => Raised
  }

  function NameOfPattern(pat: Json, name: string): Outcome<Option<Vars>> {
    if !pat.Obj? then Raised
    else
      match GetOr(pat.fields, "_name_regex", Null)
      case Null => Done(None)
      case Regex(r) => Done(RegexMatch(r, name))
      case _ => Raised
  }

  function FirstSocket(pats: seq<Json>, path: string): Outcome<Option<Found>> {
    if pats == [] then Done(None)
    else
      var v :- SocketOfPattern(pats[0], path);
      if v.Some? then Done(Some(Found(pats[0], v.value))) else FirstSocket(pats[1..], path)
  }

  function FirstName(pats: seq<Json>, name: string): Outcome<Option<Found>> {
    if pats == [] then Done(None)
    else
      var v :- NameOfPattern(pats[0], name);
      if v.Some? then Done(Some(Found(pats[0], v.value))) else FirstName(pats[1..], name)
  }

  function ExplicitSocket(consoles: Dict, path: string): Outcome<Option<Found>> {
    if consoles == [] then Done(None)
    else
      var socket :- Item(consoles[0].val, "socket", Null);
      if socket == Str(path) then
        var def := Put(consoles[0].val.fields, "_console_name", Str(consoles[0].key));
        Done(Some(Found(Obj(def), map[])))
      else ExplicitSocket(consoles[1..], path)
  }

  /** `match_socket`: explicit consoles first, then the first pattern that matches. */
  function MatchSocket(cfg: Dict, path: string): Outcome<Option<Found>> {
    if !Consoles(cfg).Obj? then Raised
    else
      var e :- ExplicitSocket(Consoles(cfg).fields, path);
      if e.Some? then Done(e)
      else
        var pats :- Patterns(cfg);
        FirstSocket(pats, path)
  }

  /** `match_console_name`. */
  function MatchConsoleName(cfg: Dict, name: string): Outcome<Option<Found>> {
    var pats :- Patterns(cfg);
    FirstName(pats, name)
  }

  function TypeOf(def: Json): Outcome<Json> {
    Item(def, "type", Str("exec"))
  }

  /** `get_default_exec`. */
  function DefaultExec(cfg: Dict): Outcome<Option<Json>> {
    var def :- Item(GetOr(cfg, "defaults", Obj([])), "console", Null);
    if !Truthy(def) then Done(None)
    else
      var t :- TypeOf(def);
      Done(if t == Str("exec") then Some(def) else None)
  }

  // ---------------------------------------------------------------------
  // When a lookup raises

  /** The first explicit console with the socket is found, if all before it are dictionaries. */
  lemma {:induction false} ExplicitSocketIff(consoles: Dict, path: string, i: nat)
    requires i < |consoles| && consoles[i].val.Obj? && GetOr(consoles[i].val.fields, "socket", Null) == Str(path)
    requires forall j :: 0 <= j < i ==>
      consoles[j].val.Obj? && GetOr(consoles[j].val.fields, "socket", Null) != Str(path)
    ensures var def := Put(consoles[i].val.fields, "_console_name", Str(consoles[i].key));
      ExplicitSocket(consoles, path) == Done(Some(Found(Obj(def), map[])))
    decreases i
  {
    if i > 0 {
      assert consoles[1..][i - 1] == consoles[i];
      forall j | 0 <= j < i - 1 ensures consoles[1..][j] == consoles[j + 1] {}
      ExplicitSocketIff(consoles[1..], path, i - 1);
    }
  }

  /** And if there is none with that socket, no explicit console is found. */
  lemma {:induction false} NoExplicitSocket(consoles: Dict, path: string)
    requires forall j :: 0 <= j < |consoles| ==>
      consoles[j].val.Obj? && GetOr(consoles[j].val.fields, "socket", Null) != Str(path)
    ensures ExplicitSocket(consoles, path) == Done(None)
  {
    if consoles != [] {
      forall j | 0 <= j < |consoles[1..]| ensures consoles[1..][j] == consoles[j + 1] {}
      NoExplicitSocket(consoles[1..], path);
    }
  }

  /** The fallback is the dictionary under defaults.console, if that is not empty and is exec or names no type. */
  lemma DefaultExecIs(cfg: Dict, defaults: Dict, def: Dict)
    requires Get(cfg, "defaults") == Some(Obj(defaults)) && Get(defaults, "console") == Some(Obj(def))
    ensures DefaultExec(cfg) ==
      Done(if def != [] && Get(def, "type") in {None, Some(Str("exec"))} then Some(Obj(def)) else None)
  {
  }

  /** Not a dictionary, or with something other than a compiled regex, which only a file can have put there. */
  predicate BadNamePattern(pat: Json) {
    !pat.Obj? ||
    var r := GetOr(pat.fields, "_name_regex", Null);
    !r.Null? && !r.Regex?
  }

  predicate NameMatches(pat: Json, name: string) {
    !BadNamePattern(pat) && NameOfPattern(pat, name) != Done(None)
  }

  /** Pattern i raises, and no earlier one raises or matches. */
  predicate NameScanBreaksAt(pats: seq<Json>, name: string, i: nat) {
    i < |pats| && BadNamePattern(pats[i]) &&
    forall j :: 0 <= j < i ==> !BadNamePattern(pats[j]) && !NameMatches(pats[j], name)
  }

  predicate NameScanBreaks(pats: seq<Json>, name: string) {
    exists i: nat :: i < |pats| && NameScanBreaksAt(pats, name, i)
  }

  lemma {:induction false} NameScanBreaksIff(pats: seq<Json>, name: string)
    ensures FirstName(pats, name).Raised? <==> NameScanBreaks(pats, name)
  {
    if pats != [] {
      var rest := pats[1..];
      NameScanBreaksIff(rest, name);
      if BadNamePattern(pats[0]) {
        assert NameScanBreaksAt(pats, name, 0);
      } else if !NameMatches(pats[0], name) {
        if i: nat :| i < |rest| && NameScanBreaksAt(rest, name, i) {
          forall j | 0 <= j < i + 1 ensures !BadNamePattern(pats[j]) && !NameMatches(pats[j], name) {
            if j > 0 { assert pats[j] == rest[j - 1]; }
          }
          assert NameScanBreaksAt(pats, name, i + 1);
        }
        if i: nat :| i < |pats| && NameScanBreaksAt(pats, name, i) {
          forall j | 0 <= j < i - 1 ensures !BadNamePattern(rest[j]) && !NameMatches(rest[j], name) {
            assert rest[j] == pats[j + 1];
          }
          assert NameScanBreaksAt(rest, name, i - 1);
        }
      }
    }
  }

  /**
   * A pattern that cannot be asked for its filter, or whose filter or regex is none:
   * the regex is looked at only once the filter has let the path through.
   */
  predicate BadSocketPattern(pat: Json, path: string) {
    if !pat.Obj? then !IsContainer(pat) || Has(pat, "_fnmatch")
    else
      match Get(pat.fields, "_fnmatch")
      case None => false
      case Some(Str(f)) =>
        (match Get(pat.fields, "_regex")
         case None => true
         case Some(r) => !r.Regex? && ShellMatch(f, path))
      case Some(_) => true
  }

  predicate SocketMatches(pat: Json, path: string) {
    !BadSocketPattern(pat, path) && SocketOfPattern(pat, path) != Done(None)
  }

  predicate SocketScanBreaksAt(pats: seq<Json>, path: string, i: nat) {
    i < |pats| && BadSocketPattern(pats[i], path) &&
    forall j :: 0 <= j < i ==> !BadSocketPattern(pats[j], path) && !SocketMatches(pats[j], path)
  }

  predicate SocketScanBreaks(pats: seq<Json>, path: string) {
    exists i: nat :: i < |pats| && SocketScanBreaksAt(pats, path, i)
  }

  lemma {:induction false} SocketScanBreaksIff(pats: seq<Json>, path: string)
    ensures FirstSocket(pats, path).Raised? <==> SocketScanBreaks(pats, path)
  {
    if pats != [] {
      var rest := pats[1..];
      SocketScanBreaksIff(rest, path);
      if BadSocketPattern(pats[0], path) {
        assert SocketScanBreaksAt(pats, path, 0);
      } else if !SocketMatches(pats[0], path) {
        if i: nat :| i < |rest| && SocketScanBreaksAt(rest, path, i) {
          forall j | 0 <= j < i + 1 ensures !BadSocketPattern(pats[j], path) && !SocketMatches(pats[j], path) {
            if j > 0 { assert pats[j] == rest[j - 1]; }
          }
          assert SocketScanBreaksAt(pats, path, i + 1);
        }
        if i: nat :| i < |pats| && SocketScanBreaksAt(pats, path, i) {
          forall j | 0 <= j < i - 1 ensures !BadSocketPattern(rest[j], path) && !SocketMatches(rest[j], path) {
            assert rest[j] == pats[j + 1];
          }
          assert SocketScanBreaksAt(rest, path, i - 1);
        }
      }
    }
  }

  /** The defaults section is no dictionary, or has a console entry that is neither falsy nor a dictionary. */
  predicate DefaultsBreak(cfg: Dict) {
    var defaults := GetOr(cfg, "defaults", Obj([]));
    !defaults.Obj? ||
    var def := GetOr(defaults.fields, "console", Null);
    Truthy(def) && !def.Obj?
  }

  lemma DefaultsBreakIff(cfg: Dict)
    ensures DefaultExec(cfg).Raised? <==> DefaultsBreak(cfg)
  {
  }

  // ---------------------------------------------------------------------
  // Lookups in a compiled configuration are lookups by the globs as written

  datatype Hit = Hit(index: nat, vars: Vars)

  function Later(h: Option<Hit>): Option<Hit> {
    if h.None? then None else Some(Hit(h.value.index + 1, h.value.vars))
  }

  /** What a dictionary as written holds under the key, if that is a glob that compiles. */
  function Written(pat: Dict, key: string): Option<Compiled> {
    match Get(pat, key)
    case Some(Str(g)) => Compile(g)
    case _ => None
  }

  /** A pattern as written tried on a path by its socket glob. */
  function TryGlob(pat: Json, path: string): Outcome<Option<Vars>> {
    if pat.Obj? then
      var g := Written(pat.fields, "socket_glob");
      Done(if g.Some? then MatchGlob(g.value, path) else None)
    else if IsContainer(pat) && !Has(pat, "_fnmatch") then Done(None)
    else Raised
  }

  /** A pattern as written tried on a name by its name template. */
  function TryTemplate(pat: Json, name: string): Outcome<Option<Vars>> {
    if pat.Obj? then
      var g := Written(pat.fields, "console_name");
      Done(if g.Some? then RegexMatch(g.value.regex, name) else None)
    else Raised
  }

  /** The first pattern whose socket glob matches. */
  function FirstGlob(pats: seq<Json>, path: string): Outcome<Option<Hit>> {
    if pats == [] then Done(None)
    else
      var v :- TryGlob(pats[0], path);
      if v.Some? then Done(Some(Hit(0, v.value)))
      else
        var h :- FirstGlob(pats[1..], path);
        Done(Later(h))
  }

  /** The first pattern whose name template matches. */
  function FirstTemplate(pats: seq<Json>, name: string): Outcome<Option<Hit>> {
    if pats == [] then Done(None)
    else
      var v :- TryTemplate(pats[0], name);
      if v.Some? then Done(Some(Hit(0, v.value)))
      else
        var h :- FirstTemplate(pats[1..], name);
        Done(Later(h))
  }

  predicate IsIndex(h: Outcome<Option<Hit>>, pats: seq<Json>) {
    h.Done? && h.value.Some? ==> h.value.value.index < |pats|
  }

  /** The pattern that was hit, compiled. */
  function Picked(pats: seq<Json>, h: Outcome<Option<Hit>>): Outcome<Option<Found>>
    requires CompileList(pats).Ok? && IsIndex(h, pats)
  {
    if h.Raised? then Raised
    else if h.value.None? then Done(None)
    else
      CompiledAt(pats, h.value.value.index);
      Done(Some(Found(CompileEntry(pats[h.value.value.index]).value, h.value.value.vars)))
  }

  lemma {:induction false} CompiledAt(pats: seq<Json>, i: nat)
    requires CompileList(pats).Ok? && i < |pats|
    ensures CompileEntry(pats[i]).Ok?
    ensures |CompileList(pats).value| == |pats| && CompileList(pats).value[i] == CompileEntry(pats[i]).value
    decreases i
  {
    CompiledLength(pats);
    if i > 0 { CompiledAt(pats[1..], i - 1); }
  }

  lemma {:induction false} CompiledLength(pats: seq<Json>)
    requires CompileList(pats).Ok?
    ensures |CompileList(pats).value| == |pats|
  {
    if pats != [] { CompiledLength(pats[1..]); }
  }

  lemma {:induction false} HitsArePatterns(pats: seq<Json>, text: string)
    ensures IsIndex(FirstGlob(pats, text), pats) && IsIndex(FirstTemplate(pats, text), pats)
  {
    if pats != [] { HitsArePatterns(pats[1..], text); }
  }

  lemma {:induction false} PublicGet(d: Dict, key: string)
    requires PublicDict(d) && IsPrivate(key)
    ensures Get(d, key) == None
  {
    if d != [] { PublicGet(d[1..], key); }
  }

  /** Compiling one pattern: each private key holds exactly what its glob compiles to, if there is one. */
  lemma CompiledKeys(pat: Dict)
    requires CompileDict(pat).Ok?
    ensures var c, g, n := CompileDict(pat).value, Written(pat, "socket_glob"), Written(pat, "console_name");
      && Get(c, "_fnmatch") == (if g.Some? then Some(Str(g.value.shell)) else Get(pat, "_fnmatch"))
      && Get(c, "_regex") == (if g.Some? then Some(Regex(g.value.regex)) else Get(pat, "_regex"))
      && Get(c, "_name_regex") == (if n.Some? then Some(Regex(n.value.regex)) else Get(pat, "_name_regex"))
  {
    var p := SocketCompiled(pat);
    CompiledSocketKeys(pat);
    if Get(p, "console_name").Some? {
      var n := Regex(Compile(Get(p, "console_name").value.s).value.regex);
      GetPut(p, "_name_regex", n, "_fnmatch");
      GetPut(p, "_name_regex", n, "_regex");
      GetPut(p, "_name_regex", n, "_name_regex");
    }
  }

  /** The entry once its socket glob is compiled. */
  function SocketCompiled(pat: Dict): Dict {
    match Written(pat, "socket_glob")
    case None => pat
    case Some(g) => Put(Put(pat, "_fnmatch", Str(g.shell)), "_regex", Regex(g.regex))
  }

  lemma CompiledSocketKeys(pat: Dict)
    ensures var p, g := SocketCompiled(pat), Written(pat, "socket_glob");
      && Get(p, "console_name") == Get(pat, "console_name") && Get(p, "_name_regex") == Get(pat, "_name_regex")
      && Get(p, "_fnmatch") == (if g.Some? then Some(Str(g.value.shell)) else Get(pat, "_fnmatch"))
      && Get(p, "_regex") == (if g.Some? then Some(Regex(g.value.regex)) else Get(pat, "_regex"))
  {
    var g := Written(pat, "socket_glob");
    if g.Some? {
      var f, r := Str(g.value.shell), Regex(g.value.regex);
      var p := Put(pat, "_fnmatch", f);
      GetPut(pat, "_fnmatch", f, "console_name");
      GetPut(p, "_regex", r, "console_name");
      GetPut(pat, "_fnmatch", f, "_name_regex");
      GetPut(p, "_regex", r, "_name_regex");
      GetPut(pat, "_fnmatch", f, "_fnmatch");
      GetPut(p, "_regex", r, "_fnmatch");
      GetPut(p, "_regex", r, "_regex");
    }
  }

  /** One compiled pattern is looked up by its globs as written. */
  lemma FirstLooksUp(pat: Json, text: string)
    requires CompileEntry(pat).Ok? && Public(pat)
    ensures SocketOfPattern(CompileEntry(pat).value, text) == TryGlob(pat, text)
    ensures NameOfPattern(CompileEntry(pat).value, text) == TryTemplate(pat, text)
  {
    if pat.Obj? {
      CompiledKeys(pat.fields);
      PublicGet(pat.fields, "_fnmatch");
      PublicGet(pat.fields, "_regex");
      PublicGet(pat.fields, "_name_regex");
    }
  }

  /** A pattern with both globs is looked up by them, whatever private keys it had before. */
  lemma CompiledEntryLooksUp(pat: Dict, glob: string, name: string, text: string)
    requires CompileDict(pat).Ok?
    requires Get(pat, "socket_glob") == Some(Str(glob)) && Get(pat, "console_name") == Some(Str(name))
    ensures Compile(glob).Some? && Compile(name).Some?
    ensures SocketOfPattern(Obj(CompileDict(pat).value), text) == Done(MatchGlob(Compile(glob).value, text))
    ensures NameOfPattern(Obj(CompileDict(pat).value), text) == Done(RegexMatch(Compile(name).value.regex, text))
  {
    CompiledSocketKeys(pat);
    CompiledKeys(pat);
  }

  lemma LaterPicked(pats: seq<Json>, h: Option<Hit>)
    requires pats != [] && CompileList(pats).Ok? && (h.Some? ==> h.value.index < |pats[1..]|)
    ensures Picked(pats, Done(Later(h))) == Picked(pats[1..], Done(h))
  {
    if h.Some? {
      assert pats[h.value.index + 1] == pats[1..][h.value.index];
    }
  }

  /** Looking up the compiled patterns finds the first pattern whose glob, as written, matches. */
  lemma {:induction false} CompiledPatternsLookUp(pats: seq<Json>, text: string)
    requires CompileList(pats).Ok? && PublicItems(pats)
    ensures IsIndex(FirstGlob(pats, text), pats) && IsIndex(FirstTemplate(pats, text), pats)
    ensures FirstSocket(CompileList(pats).value, text) == Picked(pats, FirstGlob(pats, text))
    ensures FirstName(CompileList(pats).value, text) == Picked(pats, FirstTemplate(pats, text))
  {
    HitsArePatterns(pats, text);
    if pats != [] {
      var c, rest := CompileList(pats).value, CompileList(pats[1..]).value;
      assert c[0] == CompileEntry(pats[0]).value && c[1..] == rest;
      FirstLooksUp(pats[0], text);
      CompiledPatternsLookUp(pats[1..], text);
      var g, t := FirstGlob(pats[1..], text), FirstTemplate(pats[1..], text);
      if g.Done? { LaterPicked(pats, g.value); }
      if t.Done? { LaterPicked(pats, t.value); }
    }
  }

  lemma {:induction false} PublicPart(d: Dict, key: string)
    requires PublicDict(d)
    ensures Get(d, key).Some? ==> Public(Get(d, key).value)
  {
    if d != [] { PublicPart(d[1..], key); }
  }

  /** Entries that are texts pass through compiling and stripping alike. */
  lemma {:induction false} TextsUnchanged(pats: seq<Json>)
    requires CompileList(pats).Ok? && forall i :: 0 <= i < |pats| ==> pats[i].Str?
    ensures CompileList(pats).value == pats && PublicItems(pats)
  {
    if pats != [] {
      TextsUnchanged(pats[1..]);
      assert pats == [pats[0]] + pats[1..];
    }
  }

  /**
   * A lookup in the compiled form of a public configuration: the first explicit console
   * with that socket, else the first pattern whose socket glob as written matches; and
   * by name, the first pattern whose name template as written matches.
   */
  lemma CompiledConfigLooksUp(raw: Dict, text: string)
    requires Precompile(raw).Ok? && PublicDict(raw)
    ensures Patterns(raw).Done? && CompileList(Patterns(raw).value).Ok?
    ensures IsIndex(FirstGlob(Patterns(raw).value, text), Patterns(raw).value)
    ensures IsIndex(FirstTemplate(Patterns(raw).value, text), Patterns(raw).value)
    ensures MatchSocket(Precompile(raw).value, text) ==
      if !Consoles(raw).Obj? then Raised
      else
        var e := ExplicitSocket(Consoles(raw).fields, text);
        if e.Done? && e.value.None? then Picked(Patterns(raw).value, FirstGlob(Patterns(raw).value, text)) else e
    ensures MatchConsoleName(Precompile(raw).value, text) ==
      Picked(Patterns(raw).value, FirstTemplate(Patterns(raw).value, text))
  {
    PublicPart(raw, "console_patterns");
    var pats := Patterns(raw).value;
    var j := Get(raw, "console_patterns");
    if j.Some? && !j.value.List? {
      TextsUnchanged(pats);
    }
    CompiledPatternsLookUp(pats, text);
    if j.Some? && j.value.List? {
      var c := List(CompileList(pats).value);
      GetPut(raw, "console_patterns", c, "consoles");
      GetPut(raw, "console_patterns", c, "console_patterns");
    }
  }

  // ---------------------------------------------------------------------
  // The object

  /** The loop of `_precompile_patterns`, entry by entry. */
  method PrecompileLoop(data: Dict) returns (r: Result<Dict, ConfigError>)
    ensures r == Precompile(data)
  {
    var section := Get(data, "console_patterns");
    if section.None? {
      return Ok(data);
    }
    var visited := Visits(section.value);
    if visited.Raised? {
      return Err(BadShape);
    }
    var pats := visited.value;
    var done: seq<Json> := [];
    assert pats[0..] == pats;
    assert CompileList(pats).Ok? ==> [] + CompileList(pats).value == CompileList(pats).value;
    while |done| < |pats|
      invariant |done| <= |pats|
      invariant var rest := CompileList(pats[|done|..]);
        CompileList(pats) == if rest.Err? then rest else Ok(done + rest.value)
    {
      var i := |done|;
      assert pats[i..][1..] == pats[i + 1..];
      var entry := CompileEntry(pats[i]);
      if entry.Err? {
        return Err(entry.error);
      }
      ghost var rest := CompileList(pats[i + 1..]);
      if rest.Ok? {
        assert done + ([entry.value] + rest.value) == (done + [entry.value]) + rest.value;
      }
      done := done + [entry.value];
    }
    assert CompileList(pats[|done|..]) == Ok([]) && done + [] == done;
    r := Ok(if section.value.List? then Put(data, "console_patterns", List(done)) else data);
  }

  class ConsoleConfigStore {
    var cfg: Dict

    constructor (initial: Dict)
      ensures cfg == initial
    {
      cfg := initial;
    }

    method GetRaw() returns (raw: Dict)
      ensures raw == StripDict(cfg) && PublicDict(raw)
      ensures forall key :: Get(raw, key) == if IsPrivate(key) then None else MapStrip(Get(cfg, key))
    {
      raw := StripDict(cfg);
      StripDictIsPublic(cfg);
      forall key ensures Get(raw, key) == if IsPrivate(key) then None else MapStrip(Get(cfg, key)) {
        StrippedGet(cfg, key);
      }
    }

    /** `match_socket`: one loop over the explicit consoles, then one over the patterns. */
    method FindSocket(path: string) returns (found: Outcome<Option<Found>>)
      ensures found == MatchSocket(cfg, path)
    {
      if !Consoles(cfg).Obj? {
        return Raised;
      }
      var consoles := Consoles(cfg).fields;
      assert consoles[0..] == consoles;
      for i := 0 to |consoles|
        invariant ExplicitSocket(consoles, path) == ExplicitSocket(consoles[i..], path)
      {
        assert consoles[i..][1..] == consoles[i + 1..];
        var def := consoles[i].val;
        if !def.Obj? {
          return Raised;
        }
        if GetOr(def.fields, "socket", Null) == Str(path) {
          return Done(Some(Found(Obj(Put(def.fields, "_console_name", Str(consoles[i].key))), map[])));
        }
      }
      var pats :- Patterns(cfg);
      assert pats[0..] == pats;
      for i := 0 to |pats|
        invariant FirstSocket(pats, path) == FirstSocket(pats[i..], path)
      {
        assert pats[i..][1..] == pats[i + 1..];
        var vars :- SocketOfPattern(pats[i], path);
        if vars.Some? {
          return Done(Some(Found(pats[i], vars.value)));
        }
      }
      found := Done(None);
    }

    /** `match_console_name`. */
    method FindName(name: string) returns (found: Outcome<Option<Found>>)
      ensures found == MatchConsoleName(cfg, name)
    {
      var pats :- Patterns(cfg);
      assert pats[0..] == pats;
      for i := 0 to |pats|
        invariant FirstName(pats, name) == FirstName(pats[i..], name)
      {
        assert pats[i..][1..] == pats[i + 1..];
        var vars :- NameOfPattern(pats[i], name);
        if vars.Some? {
          return Done(Some(Found(pats[i], vars.value)));
        }
      }
      found := Done(None);
    }

    /** `update`, and `reload` once the file is parsed: nothing changes if compiling raises. */
    method Update(raw: Dict) returns (r: Result<(), ConfigError>)
      modifies this
      ensures Precompile(raw).Ok? ==> r == Ok(()) && cfg == Precompile(raw).value
      ensures Precompile(raw).Err? ==> r == Err(Precompile(raw).error) && cfg == old(cfg)
    {
      var processed := PrecompileLoop(raw);
      if processed.Err? {
        return Err(processed.error);
      }
      cfg := processed.value;
      r := Ok(());
    }
  }
}
