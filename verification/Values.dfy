/** Values read from configuration files, and what Python's operations make of them, whatever their shape. */
module Values {
  import opened Prelude
  import opened Glob

  /** A configuration value. Regex is the compiled, private kind that JSON cannot carry. */
  datatype Json =
    | Null
    | Bool(b: bool)
    | Num(n: int)
    | Str(s: string)
    | List(items: seq<Json>)
    | Obj(fields: seq<Field>)
    | Regex(toks: seq<Tok>)

  /** One entry of a dictionary, in insertion order. */
  datatype Field = Field(key: string, val: Json)

  type Dict = seq<Field>

  function Get(d: Dict, key: string): Option<Json> {
    if d == [] then None else if d[0].key == key then Some(d[0].val) else Get(d[1..], key)
  }

  /** d[key] = val: in place when present, else at the end. */
  function Put(d: Dict, key: string, val: Json): Dict {
    if d == [] then [Field(key, val)]
    else if d[0].key == key then [Field(key, val)] + d[1..]
    else [d[0]] + Put(d[1..], key, val)
  }

  lemma {:induction false} GetPut(d: Dict, key: string, val: Json, other: string)
    ensures Get(Put(d, key, val), other) == if other == key then Some(val) else Get(d, other)
  {
    if d != [] { GetPut(d[1..], key, val, other); }
  }

  /** Python's truth value. */
  predicate Truthy(j: Json) {
    match j
    case Null => false
    case Bool(b) => b
    case Num(n) => n != 0
    case Str(s) => s != ""
    case List(items) => items != []
    case Obj(fields) => fields != []
    case Regex(_) => true
  }

  /** `d.get(key, default)` on a dictionary. */
  function GetOr(d: Dict, key: string, default: Json): Json {
    match Get(d, key)
    case None => default
    case Some(j) => j
  }

  /** `j.get(key, default)`: only a dictionary has the method. */
  function Item(j: Json, key: string, default: Json): Outcome<Json> {
    if j.Obj? then Done(GetOr(j.fields, key, default)) else Raised
  }

  /** What `for x in j` visits: a list's items, a string's characters, a dictionary's keys; else a TypeError. */
  function Visits(j: Json): Outcome<seq<Json>> {
    match j
    case List(items) => Done(items)
    case Str(s) => Done(seq(|s|, i requires 0 <= i < |s| => Str([s[i]])))
    case Obj(fields) => Done(seq(|fields|, i requires 0 <= i < |fields| => Str(fields[i].key)))
    case _ => Raised
  }

  /** The values that can be looped over, and asked whether they contain a string. */
  predicate IsContainer(j: Json) {
    j.List? || j.Str? || j.Obj?
  }

  predicate Occurs(part: string, s: string) {
    part <= s || (s != "" && Occurs(part, s[1..]))
  }

  /** `key in j` for a container: a dictionary's key, a list's item, a part of a string. */
  predicate Has(j: Json, key: string) {
    match j
    case Obj(fields) => Get(fields, key).Some?
    case List(items) => Str(key) in items
    case Str(s) => Occurs(key, s)
    case _ => false
  }

  /** Members of a set, and keys, must be hashable. */
  predicate Hashable(j: Json) {
    !j.List? && !j.Obj?
  }

  // ---------------------------------------------------------------------
  // dict(j)

  /** One element of the list given to dict(): a pair whose first part is a string. */
  function PairOf(j: Json): Outcome<Field> {
    match j
    case List(items) => if |items| == 2 && items[0].Str? then Done(Field(items[0].s, items[1])) else Raised
    case Str(s) => if |s| == 2 then Done(Field([s[0]], Str([s[1]]))) else Raised
    case Obj(fields) => if |fields| == 2 then Done(Field(fields[0].key, Str(fields[1].key))) else Raised
    case _ => Raised
  }

  /** A list of pairs, read from the left; a later pair overrides an earlier one. */
  function DictOfPairs(items: seq<Json>): Outcome<Dict> {
    if items == [] then Done([])
    else
      var front :- DictOfPairs(items[..|items| - 1]);
      var last :- PairOf(items[|items| - 1]);
      Done(Put(front, last.key, last.val))
  }

  /** `dict(j)`. */
  function DictOf(j: Json): Outcome<Dict> {
    if j.Obj? then Done(j.fields)
    else
      var items :- Visits(j);
      DictOfPairs(items)
  }

  // ---------------------------------------------------------------------
  // What these operations come to

  /** A part occurs in a string if the string from some place on starts with it. */
  lemma {:induction false} OccursIff(part: string, s: string)
    ensures Occurs(part, s) <==> exists i :: 0 <= i <= |s| && part <= s[i..]
  {
    assert s[0..] == s;
    if s != "" {
      OccursIff(part, s[1..]);
      if i :| 0 <= i <= |s| && part <= s[i..] {
        assert i > 0 ==> s[1..][i - 1..] == s[i..];
      }
      if i :| 0 <= i <= |s[1..]| && part <= s[1..][i..] {
        assert s[1..][i..] == s[i + 1..];
      }
    } else if i :| 0 <= i <= |s| && part <= s[i..] {
      assert s[i..] == s;
    }
  }

  /** Only containers are looped over, each entry once and in order. */
  lemma VisitsInOrder(j: Json)
    ensures Visits(j).Done? <==> IsContainer(j)
    ensures j.List? ==> Visits(j).value == j.items
    ensures j.Str? ==> |Visits(j).value| == |j.s| && forall i :: 0 <= i < |j.s| ==> Visits(j).value[i] == Str([j.s[i]])
    ensures j.Obj? ==>
      |Visits(j).value| == |j.fields| && forall i :: 0 <= i < |j.fields| ==> Visits(j).value[i] == Str(j.fields[i].key)
  {
  }

  /** The value of the last pair with the key, if there is one. */
  function LastPair(items: seq<Json>, key: string): Option<Json> {
    if items == [] then None
    else
      var last := PairOf(items[|items| - 1]);
      if last.Done? && last.value.key == key then Some(last.value.val) else LastPair(items[..|items| - 1], key)
  }

  /** A list of pairs becomes the dictionary in which the last pair of a key counts. */
  lemma {:induction false} LastPairCounts(items: seq<Json>, key: string)
    requires DictOfPairs(items).Done?
    ensures Get(DictOfPairs(items).value, key) == LastPair(items, key)
  {
    if items != [] {
      var front, last := DictOfPairs(items[..|items| - 1]).value, PairOf(items[|items| - 1]).value;
      LastPairCounts(items[..|items| - 1], key);
      GetPut(front, last.key, last.val, key);
    }
  }
}
