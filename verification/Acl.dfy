/** Users, groups and roles, and the access a user has to a console. */
module Acl {
  import opened Prelude
  import opened Glob
  import opened Values
  import opened StrFormat

  datatype Level = ReadOnly | ReadWrite

  const READ_WRITE := "read_write"

  // ---------------------------------------------------------------------
  // The user map, whatever its shape

  /** The role a single group gives; Null if it is not defined or defines none. */
  function RoleOf(defs: Dict, group: Json): Json {
    if !group.Str? then Null
    else
      var def := GetOr(defs, group.s, Obj([]));
      if def.Obj? then GetOr(def.fields, "role", Null) else Null
  }

  /** A role that cannot be a member of the set of roles. */
  predicate BadRole(defs: Dict, group: Json) {
    Truthy(RoleOf(defs, group)) && !Hashable(RoleOf(defs, group))
  }

  predicate AllHashable(groups: seq<Json>) {
    forall g :: g in groups ==> Hashable(g)
  }

  /** read_write wins, any other role means read-only. */
  function BestRole(defs: Dict, groups: seq<Json>): Option<Level> {
    if exists g :: g in groups && RoleOf(defs, g) == Str(READ_WRITE) then Some(ReadWrite)
    else if exists g :: g in groups && Truthy(RoleOf(defs, g)) then Some(ReadOnly)
    else None
  }

  /** `get_role_for_groups`. */
  function RoleForGroups(um: Json, groups: seq<Json>): Outcome<Option<Level>> {
    var defs :- Item(um, "groups", Obj([]));
    if groups == [] then Done(None)
    else if !defs.Obj? || !AllHashable(groups) || exists g :: g in groups && BadRole(defs.fields, g) then Raised
    else Done(BestRole(defs.fields, groups))
  }

  /** `user_exists` and `get_groups` in one: None is an unknown user; the groups are going to be a set. */
  function Membership(um: Json, user: string): Outcome<Option<seq<Json>>> {
    var users :- Item(um, "users", Obj([]));
    if !IsContainer(users) then Raised
    else if !Has(users, user) then Done(None)
    else
      var entry :- Item(users, user, Obj([]));
      if !entry.Obj? then Done(Some([]))
      else
        var groups :- Visits(GetOr(entry.fields, "groups", List([])));
        if AllHashable(groups) then Done(Some(groups)) else Raised
  }

  class UserMapStore {
    var users: Json

    constructor (initial: Json)
      ensures users == initial
    {
      users := initial;
    }

    method Update(data: Json)
      modifies this
      ensures users == data
    {
      users := data;
    }

    /** The loop that collects the roles of a group list. */
    method GetRoleForGroups(groups: seq<Json>) returns (level: Outcome<Option<Level>>)
      ensures level == RoleForGroups(users, groups)
    {
      var defs :- Item(users, "groups", Obj([]));
      if groups == [] {
        return Done(None);
      }
      if !defs.Obj? {
        return Raised;
      }
      var roles: set<Json> := {};
      for i := 0 to |groups|
        invariant forall k :: 0 <= k < i ==> Hashable(groups[k]) && !BadRole(defs.fields, groups[k])
        invariant forall r :: r in roles <==>
          exists k :: 0 <= k < i && RoleOf(defs.fields, groups[k]) == r && Truthy(r)
      {
        if !Hashable(groups[i]) {
          return Raised;
        }
        var role := RoleOf(defs.fields, groups[i]);
        if Truthy(role) {
          if !Hashable(role) {
            return Raised;
          }
          roles := roles + {role};
        }
      }
      if roles == {} {
        assert forall k :: 0 <= k < |groups| && Truthy(RoleOf(defs.fields, groups[k])) ==>
          RoleOf(defs.fields, groups[k]) in roles;
        return Done(None);
      }
      if Str(READ_WRITE) in roles {
        return Done(Some(ReadWrite));
      }
      var r :| r in roles;
      level := Done(Some(ReadOnly));
    }
  }

  // ---------------------------------------------------------------------
  // Console lists

  /** What `resolve_access` gives; Broken is an exception. */
  datatype Access = Broken | Refused | Granted(level: Level)

  function ToAccess(l: Outcome<Option<Level>>): Access {
    match l
    case Raised => Broken
    case Done(None) => Refused
    case Done(Some(level)) => Granted(level)
  }

  /** The rw or the ro list of a definition; an absent one is empty. */
  function Principals(def: Dict, key: string): Json {
    GetOr(def, key, List([]))
  }

  predicate HasLists(def: Dict) {
    Truthy(Principals(def, "rw")) || Truthy(Principals(def, "ro"))
  }

  /** A principal with its placeholders filled in, as written if one is unknown; None is an exception. */
  function Expand(principal: Json, vars: Vars): Option<string> {
    match principal
    case Str(p) =>
      (match Format(p, vars)
       case Text(s) => Some(s)
       case MissingKey => Some(p)
       case Malformed => None)
    case _ => None
  }

  /** '*', the user's own name, or one of the user's groups. */
  predicate Admits(principal: Json, vars: Vars, user: string, groups: seq<Json>) {
    var p := Expand(principal, vars);
    p.Some? && (p.value == "*" || p.value == user || Str(p.value) in groups)
  }

  datatype Scan = Match | NoMatch | Fault

  /** The loop of `matches_principal`: it stops at the first match, or at the first exception. */
  function ScanPrincipals(principals: seq<Json>, vars: Vars, user: string, groups: seq<Json>): Scan {
    if principals == [] then NoMatch
    else if Expand(principals[0], vars).None? then Fault
    else if Admits(principals[0], vars, user, groups) then Match
    else ScanPrincipals(principals[1..], vars, user, groups)
  }

  /** `matches_principal` */
  function MatchesPrincipal(principals: Json, vars: Vars, user: string, groups: seq<Json>): Scan {
    match Visits(principals)
    case Raised => Fault
    case Done(items) => ScanPrincipals(items, vars, user, groups)
  }

  /** The two lists of a definition, tried on a user with these groups. */
  function ByLists(def: Dict, vars: Vars, user: string, groups: seq<Json>): Access {
    match MatchesPrincipal(Principals(def, "rw"), vars, user, groups)
    case Match => Granted(ReadWrite)
    case Fault => Broken
    case NoMatch =>
      match MatchesPrincipal(Principals(def, "ro"), vars, user, groups)
      case Match => Granted(ReadOnly)
      case Fault => Broken
      case NoMatch => Refused
  }

  /** `resolve_access`. */
  function ResolveAccess(um: Json, user: string, def: Json, vars: Vars): Access {
    match Membership(um, user)
    case Raised => Broken
    case Done(None) => Refused
    case Done(Some(groups)) =>
      if !def.Obj? then Broken
      else if HasLists(def.fields) then ByLists(def.fields, vars, user, groups)
      else ToAccess(RoleForGroups(um, groups))
  }

  // ---------------------------------------------------------------------
  // What a scan means

  /** The first entry that is not skipped is i. */
  predicate StopsAt(principals: seq<Json>, vars: Vars, user: string, groups: seq<Json>, i: nat) {
    && i < |principals|
    && (Expand(principals[i], vars).None? || Admits(principals[i], vars, user, groups))
    && forall j :: 0 <= j < i ==>
         Expand(principals[j], vars).Some? && !Admits(principals[j], vars, user, groups)
  }

  lemma {:induction false} ScanIff(principals: seq<Json>, vars: Vars, user: string, groups: seq<Json>)
    ensures var r := ScanPrincipals(principals, vars, user, groups);
      && (r == NoMatch <==> !exists i: nat :: i < |principals| && StopsAt(principals, vars, user, groups, i))
      && forall i: nat :: i < |principals| && StopsAt(principals, vars, user, groups, i) ==>
           r == if Expand(principals[i], vars).None? then Fault else Match
  {
    if principals != [] {
      var rest := principals[1..];
      ScanIff(rest, vars, user, groups);
      if Expand(principals[0], vars).None? || Admits(principals[0], vars, user, groups) {
        assert StopsAt(principals, vars, user, groups, 0);
      } else {
        forall i: nat | i < |principals|
          ensures StopsAt(principals, vars, user, groups, i) <==> i > 0 && StopsAt(rest, vars, user, groups, i - 1)
        {
          ShiftStop(principals, vars, user, groups, i);
        }
        if i: nat :| i < |rest| && StopsAt(rest, vars, user, groups, i) {
          assert StopsAt(principals, vars, user, groups, i + 1);
        }
      }
    }
  }

  lemma ShiftStop(principals: seq<Json>, vars: Vars, user: string, groups: seq<Json>, i: nat)
    requires i < |principals|
    requires Expand(principals[0], vars).Some? && !Admits(principals[0], vars, user, groups)
    ensures StopsAt(principals, vars, user, groups, i) <==> i > 0 && StopsAt(principals[1..], vars, user, groups, i - 1)
  {
    if i > 0 && StopsAt(principals[1..], vars, user, groups, i - 1) {
      forall j | 0 <= j < i
        ensures Expand(principals[j], vars).Some? && !Admits(principals[j], vars, user, groups)
      {
        if j > 0 { assert principals[j] == principals[1..][j - 1]; }
      }
    }
    if i > 0 && StopsAt(principals, vars, user, groups, i) {
      forall j | 0 <= j < i - 1
        ensures Expand(principals[1..][j], vars).Some? && !Admits(principals[1..][j], vars, user, groups)
      {
        assert principals[j + 1] == principals[1..][j];
      }
    }
  }

  /** A principal whose text cannot be formatted, or that is no text at all. */
  predicate BadPrincipal(principal: Json, vars: Vars) {
    !principal.Str? || StrFormat.Raises(principal.s, vars)
  }

  /** The value cannot be looped over, or a bad principal stands where no earlier one admits the user. */
  predicate BreaksScan(principals: Json, vars: Vars, user: string, groups: seq<Json>) {
    Visits(principals).Raised? ||
    var items := Visits(principals).value;
    exists i: nat :: i < |items| && BadPrincipal(items[i], vars) && StopsAt(items, vars, user, groups, i)
  }

  predicate AdmitsNobody(principals: Json, vars: Vars, user: string, groups: seq<Json>) {
    Visits(principals).Done? &&
    var items := Visits(principals).value;
    forall i :: 0 <= i < |items| ==> !BadPrincipal(items[i], vars) && !Admits(items[i], vars, user, groups)
  }

  lemma BadPrincipalIff(principal: Json, vars: Vars)
    ensures Expand(principal, vars).None? <==> BadPrincipal(principal, vars)
  {
    if principal.Str? { FormatRaisesIff(principal.s, vars); }
  }

  lemma ScanBreaksIff(principals: Json, vars: Vars, user: string, groups: seq<Json>)
    ensures MatchesPrincipal(principals, vars, user, groups) == Fault <==> BreaksScan(principals, vars, user, groups)
    ensures MatchesPrincipal(principals, vars, user, groups) == NoMatch <==>
      AdmitsNobody(principals, vars, user, groups)
  {
    if Visits(principals).Done? {
      var items := Visits(principals).value;
      forall i | 0 <= i < |items| ensures Expand(items[i], vars).None? <==> BadPrincipal(items[i], vars) {
        BadPrincipalIff(items[i], vars);
      }
      ScanIff(items, vars, user, groups);
      NobodyIff(items, vars, user, groups);
    }
  }

  lemma {:induction false} NobodyIff(items: seq<Json>, vars: Vars, user: string, groups: seq<Json>)
    ensures ScanPrincipals(items, vars, user, groups) == NoMatch <==>
      forall i :: 0 <= i < |items| ==> Expand(items[i], vars).Some? && !Admits(items[i], vars, user, groups)
  {
    if items != [] {
      NobodyIff(items[1..], vars, user, groups);
      forall i | 0 < i < |items| ensures items[i] == items[1..][i - 1] {}
    }
  }

  // ---------------------------------------------------------------------
  // When resolving access raises

  /**
   * The map or its users section cannot be asked for the user, or it names the user and
   * is no dictionary, or the user's groups cannot be looped over or be members of a set.
   */
  predicate MembershipBreaks(um: Json, user: string) {
    !um.Obj? ||
    var users := GetOr(um.fields, "users", Obj([]));
    !IsContainer(users) ||
    (Has(users, user) &&
     (!users.Obj? ||
      var entry := GetOr(users.fields, user, Obj([]));
      entry.Obj? &&
      var groups := Visits(GetOr(entry.fields, "groups", List([])));
      groups.Raised? || exists g :: g in groups.value && !Hashable(g)))
  }

  /** The groups section is needed and is no dictionary, or gives a group a role that is a list or a dictionary. */
  predicate RolesBreak(um: Json, groups: seq<Json>) {
    um.Obj? && groups != [] &&
    var defs := GetOr(um.fields, "groups", Obj([]));
    !defs.Obj? || exists g :: g in groups && BadRole(defs.fields, g)
  }

  /** The rw list breaks, or it admits nobody and the ro list breaks. */
  predicate ListsBreak(def: Dict, vars: Vars, user: string, groups: seq<Json>) {
    || BreaksScan(Principals(def, "rw"), vars, user, groups)
    || (AdmitsNobody(Principals(def, "rw"), vars, user, groups) &&
        BreaksScan(Principals(def, "ro"), vars, user, groups))
  }

  predicate AccessBreaks(um: Json, user: string, def: Json, vars: Vars) {
    || MembershipBreaks(um, user)
    || match Membership(um, user)
       case Done(Some(groups)) =>
         !def.Obj? ||
         (if HasLists(def.fields) then ListsBreak(def.fields, vars, user, groups) else RolesBreak(um, groups))
       case _ => false
  }

  lemma MembershipBreaksIff(um: Json, user: string)
    ensures Membership(um, user).Raised? <==> MembershipBreaks(um, user)
  {
  }

  /**
   * Resolving access raises exactly if the user's membership breaks; or the user is
   * known and the definition is no dictionary, its lists break before they decide, or,
   * without lists, the roles of the user's groups break.
   */
  lemma AccessBreaksIff(um: Json, user: string, def: Json, vars: Vars)
    ensures ResolveAccess(um, user, def, vars) == Broken <==> AccessBreaks(um, user, def, vars)
  {
    MembershipBreaksIff(um, user);
    if Membership(um, user).Done? && Membership(um, user).value.Some? && def.Obj? {
      var groups := Membership(um, user).value.value;
      ScanBreaksIff(Principals(def.fields, "rw"), vars, user, groups);
      ScanBreaksIff(Principals(def.fields, "ro"), vars, user, groups);
    }
  }

  // ---------------------------------------------------------------------
  // Membership only ever adds access

  predicate Within(fewer: seq<Json>, more: seq<Json>) {
    forall g :: g in fewer ==> g in more
  }

  /** exception < none < read_only < read_write */
  function Rank(a: Access): nat {
    match a
    case Broken => 0
    case Refused => 1
    case Granted(ReadOnly) => 2
    case Granted(ReadWrite) => 3
  }

  /** More groups never give a lower role; they may bring one that is no text, and nothing else can raise. */
  lemma RoleIsMonotone(um: Json, fewer: seq<Json>, more: seq<Json>)
    requires Within(fewer, more) && AllHashable(more) && um.Obj?
    ensures RoleForGroups(um, more).Raised? <==> RolesBreak(um, more)
    ensures RolesBreak(um, fewer) ==> RolesBreak(um, more)
    ensures !RolesBreak(um, more) ==>
      Rank(ToAccess(RoleForGroups(um, fewer))) <= Rank(ToAccess(RoleForGroups(um, more)))
  {
    if fewer != [] {
      assert fewer[0] in fewer && fewer[0] in more;
      var defs := GetOr(um.fields, "groups", Obj([]));
      if defs.Obj? && !RolesBreak(um, more) {
        if g :| g in fewer && RoleOf(defs.fields, g) == Str(READ_WRITE) {
          assert g in more;
        }
        if g :| g in fewer && Truthy(RoleOf(defs.fields, g)) {
          assert g in more;
        }
      }
    }
  }

  /** More groups can only turn an exception or a miss of a scan into something better. */
  lemma {:induction false} ScanIsMonotone(items: seq<Json>, vars: Vars, user: string,
                                          fewer: seq<Json>, more: seq<Json>)
    requires Within(fewer, more)
    ensures ScanPrincipals(items, vars, user, fewer) == Match ==> ScanPrincipals(items, vars, user, more) == Match
    ensures ScanPrincipals(items, vars, user, fewer) == NoMatch ==> ScanPrincipals(items, vars, user, more) != Fault
  {
    if items != [] { ScanIsMonotone(items[1..], vars, user, fewer, more); }
  }

  lemma ListsAreMonotone(def: Dict, vars: Vars, user: string, fewer: seq<Json>, more: seq<Json>)
    requires Within(fewer, more)
    ensures Rank(ByLists(def, vars, user, fewer)) <= Rank(ByLists(def, vars, user, more))
  {
    var rw, ro := Visits(Principals(def, "rw")), Visits(Principals(def, "ro"));
    if rw.Done? { ScanIsMonotone(rw.value, vars, user, fewer, more); }
    if ro.Done? { ScanIsMonotone(ro.value, vars, user, fewer, more); }
  }

  /** The two maps define the same groups, and know the user with these memberships. */
  predicate Knows(um: Json, um': Json, user: string, groups: seq<Json>, groups': seq<Json>) {
    && um.Obj? && um'.Obj? && GetOr(um.fields, "groups", Obj([])) == GetOr(um'.fields, "groups", Obj([]))
    && Membership(um, user) == Done(Some(groups)) && Membership(um', user) == Done(Some(groups'))
  }

  /**
   * Giving an existing user more groups lowers the access to a console if and only if
   * that is decided by roles and one of the new groups has a role that is a list or a
   * dictionary, so that nothing is decided any more. In every other case, whatever the
   * lists, placeholders and roles, access stays or grows, and no answer turns into an
   * exception.
   */
  lemma AccessIsMonotone(um: Json, um': Json, user: string, groups: seq<Json>, groups': seq<Json>,
                         def: Json, vars: Vars)
    requires Knows(um, um', user, groups, groups') && Within(groups, groups')
    ensures var before, after := ResolveAccess(um, user, def, vars), ResolveAccess(um', user, def, vars);
      Rank(before) > Rank(after) <==>
        before != Broken && def.Obj? && !HasLists(def.fields) && RolesBreak(um', groups')
  {
    RoleIsMonotone(um', groups, groups');
    assert RoleForGroups(um, groups) == RoleForGroups(um', groups);
    if def.Obj? { ListsAreMonotone(def.fields, vars, user, groups, groups'); }
  }

  /** Order and repetition of a user's groups do not matter. */
  lemma AccessIgnoresOrder(um: Json, um': Json, user: string, groups: seq<Json>, groups': seq<Json>,
                           def: Json, vars: Vars)
    requires Knows(um, um', user, groups, groups') && Within(groups, groups') && Within(groups', groups)
    ensures ResolveAccess(um, user, def, vars) == ResolveAccess(um', user, def, vars)
  {
    AccessIsMonotone(um, um', user, groups, groups', def, vars);
    AccessIsMonotone(um', um, user, groups', groups, def, vars);
    RoleIsMonotone(um, groups', groups);
    RoleIsMonotone(um', groups, groups');
  }

  /** What the lists give: read-write to whoever rw admits, else read-only to whoever ro admits, else nothing. */
  lemma ListsDecide(um: Json, user: string, def: Dict, vars: Vars, groups: seq<Json>)
    requires Membership(um, user) == Done(Some(groups)) && HasLists(def)
    ensures var rw, ro := Principals(def, "rw"), Principals(def, "ro");
      var access := ResolveAccess(um, user, Obj(def), vars);
      && (!BreaksScan(rw, vars, user, groups) && !AdmitsNobody(rw, vars, user, groups) ==>
            access == Granted(ReadWrite))
      && (AdmitsNobody(rw, vars, user, groups) && !BreaksScan(ro, vars, user, groups) ==>
            access == if AdmitsNobody(ro, vars, user, groups) then Refused else Granted(ReadOnly))
  {
    ScanBreaksIff(Principals(def, "rw"), vars, user, groups);
    ScanBreaksIff(Principals(def, "ro"), vars, user, groups);
  }

  /** A principal without braces admits whom it names: everybody, one user, or a group. */
  lemma AdmitsIff(principal: string, vars: Vars, user: string, groups: seq<Json>)
    requires '{' !in principal && '}' !in principal
    ensures Admits(Str(principal), vars, user, groups) <==>
      principal == "*" || principal == user || Str(principal) in groups
  {
    BracelessIsQuoted(principal);
    QuotedFormatsBack(principal, vars);
  }

  /** A principal with placeholders stands for itself with the captures put in, or, if one is unknown, as written. */
  lemma TemplateAdmitsIff(principal: string, vars: Vars, user: string, groups: seq<Json>)
    requires AllIdentifiers(Tokenize(principal)) && NoBraces(Tokenize(principal))
    ensures var known := Glob.Names(Tokenize(principal)) <= vars.Keys;
      var p := if known then Subst(Tokenize(principal), vars) else principal;
      Admits(Str(principal), vars, user, groups) <==> p == "*" || p == user || Str(p) in groups
  {
    FormatOfClean(principal, vars);
  }

  /** In a well-formed map a user is known if listed, with the groups listed. */
  lemma MembershipIsListed(users: Dict, rest: Dict, user: string, entry: Dict, groups: seq<Json>)
    requires Get(rest, "users") == Some(Obj(users))
    requires Get(users, user) == Some(Obj(entry)) && Get(entry, "groups") == Some(List(groups)) && AllHashable(groups)
    ensures Membership(Obj(rest), user) == Done(Some(groups))
    ensures forall other :: Get(users, other).None? ==> Membership(Obj(rest), other) == Done(None)
  {
  }

  /** Without lists: read-write if some group has that role, else read-only if some group has any role, else nothing. */
  lemma RolesDecide(um: Json, user: string, def: Dict, vars: Vars, groups: seq<Json>)
    requires um.Obj? && Membership(um, user) == Done(Some(groups)) && !HasLists(def) && !RolesBreak(um, groups)
    requires GetOr(um.fields, "groups", Obj([])).Obj?
    ensures var defs := GetOr(um.fields, "groups", Obj([])).fields;
      ResolveAccess(um, user, Obj(def), vars) ==
        if exists g :: g in groups && RoleOf(defs, g) == Str("read_write") then Granted(ReadWrite)
        else if exists g :: g in groups && Truthy(RoleOf(defs, g)) then Granted(ReadOnly)
        else Refused
  {
    RoleIsMonotone(um, groups, groups);
  }

  /** A definition with lists wins: what the groups section says then plays no part. */
  lemma ListsOverrideRoles(um: Json, user: string, def: Dict, vars: Vars, roles: Json)
    requires HasLists(def) && um.Obj?
    ensures ResolveAccess(um, user, Obj(def), vars) ==
            ResolveAccess(Obj(Put(um.fields, "groups", roles)), user, Obj(def), vars)
  {
    GetPut(um.fields, "groups", roles, "users");
  }

  /** '*' in rw admits every user in the map and nobody else, unless a bad principal in front of it breaks the scan. */
  lemma StarAdmitsEveryUser(um: Json, user: string, def: Dict, vars: Vars, items: seq<Json>)
    requires Principals(def, "rw") == List(items) && Str("*") in items
    ensures ResolveAccess(um, user, Obj(def), vars) ==
      match Membership(um, user)
      case Raised => Broken
      case Done(None) => Refused
      case Done(Some(groups)) => if BreaksScan(List(items), vars, user, groups) then Broken else Granted(ReadWrite)
  {
    var i :| 0 <= i < |items| && items[i] == Str("*");
    StarExpandsToItself(vars);
    match Membership(um, user) {
      case Done(Some(groups)) =>
        assert Admits(items[i], vars, user, groups);
        ScanBreaksIff(List(items), vars, user, groups);
      case _ =>
    }
  }

  lemma StarExpandsToItself(vars: Vars)
    ensures Expand(Str("*"), vars) == Some("*")
  {
    QuotedFormatsBack("*", vars);
    assert "*"[1..] == "" && QuoteBraces("*") == "*" + QuoteBraces("");
    assert QuoteBraces("*") == "*";
  }

  /** Without lists a user gets the best role any of the groups has, as long as no role breaks. */
  lemma BestRoleWins(um: Json, user: string, def: Dict, vars: Vars, groups: seq<Json>)
    requires um.Obj? && Membership(um, user) == Done(Some(groups)) && !HasLists(def) && !RolesBreak(um, groups)
    ensures ResolveAccess(um, user, Obj(def), vars) != Broken
    ensures forall g :: g in groups ==>
      Rank(ToAccess(RoleForGroups(um, [g]))) <= Rank(ResolveAccess(um, user, Obj(def), vars))
    ensures ResolveAccess(um, user, Obj(def), vars).Granted? ==>
      exists g :: g in groups && ToAccess(RoleForGroups(um, [g])) == ResolveAccess(um, user, Obj(def), vars)
  {
    RoleIsMonotone(um, groups, groups);
    forall g | g in groups
      ensures Rank(ToAccess(RoleForGroups(um, [g]))) <= Rank(ResolveAccess(um, user, Obj(def), vars))
    {
      RoleIsMonotone(um, [g], groups);
    }
    var defs := GetOr(um.fields, "groups", Obj([]));
    if groups != [] {
      assert groups[0] in groups;
      if g :| g in groups && RoleOf(defs.fields, g) == Str(READ_WRITE) {
        RoleOfOne(um, g);
      } else if g :| g in groups && Truthy(RoleOf(defs.fields, g)) {
        RoleOfOne(um, g);
      }
    }
  }

  lemma RoleOfOne(um: Json, g: Json)
    requires um.Obj? && GetOr(um.fields, "groups", Obj([])).Obj? && Hashable(g)
    requires !BadRole(GetOr(um.fields, "groups", Obj([])).fields, g)
    ensures var role := RoleOf(GetOr(um.fields, "groups", Obj([])).fields, g);
      ToAccess(RoleForGroups(um, [g])) ==
        if role == Str(READ_WRITE) then Granted(ReadWrite) else if Truthy(role) then Granted(ReadOnly) else Refused
  {
    assert g in [g];
  }
}
