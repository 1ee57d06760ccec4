/** Glob templates with {name} placeholders: compiling, matching and substituting back. */
module Glob {
  import opened Prelude

  datatype Tok = Lit(c: char) | Hole(name: string)

  type Vars = map<string, string>

  // ---------------------------------------------------------------------
  // Reading a template

  /** First position of c in s at or after i, or |s|. */
  function Find(s: string, c: char, i: nat): (j: nat)
    requires i <= |s|
    ensures i <= j <= |s|
    decreases |s| - i
  {
    if i == |s| || s[i] == c then i else Find(s, c, i + 1)
  }

  /** A placeholder is `{`, one or more characters other than `}`, and `}`. */
  function Tokenize(s: string): seq<Tok> {
    if s == [] then []
    else if s[0] == '{' then
      var j := Find(s, '}', 1);
      if 1 < j < |s| then [Hole(s[1..j])] + Tokenize(s[j + 1..]) else [Lit('{')] + Tokenize(s[1..])
    else [Lit(s[0])] + Tokenize(s[1..])
  }

  function Names(toks: seq<Tok>): set<string> {
    set t | t in toks && t.Hole? :: t.name
  }

  predicate Distinct(toks: seq<Tok>) {
    toks == [] || (Distinct(toks[1..]) && (toks[0].Hole? ==> toks[0].name !in Names(toks[1..])))
  }

  predicate IsIdentifier(s: string) {
    s != "" && forall i :: 0 <= i < |s| ==>
      (s[i] == '_' || 'a' <= s[i] <= 'z' || 'A' <= s[i] <= 'Z' || (i > 0 && '0' <= s[i] <= '9'))
  }

  /** The shell pattern: every placeholder becomes `*`. */
  function ShellPattern(toks: seq<Tok>): string {
    if toks == [] then ""
    else (if toks[0].Hole? then "*" else [toks[0].c]) + ShellPattern(toks[1..])
  }

  datatype Compiled = Compiled(shell: string, regex: seq<Tok>)

  /** `compile_glob_pattern`; the regex compiler refuses bad and repeated group names. */
  function Compile(glob: string): Option<Compiled> {
    var toks := Tokenize(glob);
    if Distinct(toks) && forall t :: t in toks && t.Hole? ==> IsIdentifier(t.name)
    then Some(Compiled(ShellPattern(toks), toks))
    else None
  }

  // ---------------------------------------------------------------------
  // fnmatch

  /** Members of a bracket expression without its brackets and negation. */
  predicate InRanges(body: string, c: char) {
    if body == "" then false
    else if |body| >= 3 && body[1] == '-' then body[0] <= c <= body[2] || InRanges(body[3..], c)
    else body[0] == c || InRanges(body[1..], c)
  }

  predicate InClass(body: string, c: char) {
    if body != "" && body[0] == '!' then !InRanges(body[1..], c) else InRanges(body, c)
  }

  /** Where the bracket opened at pat[0] closes, or |pat|. */
  function ClassEnd(pat: string): (j: nat)
    requires pat != ""
    ensures 1 <= j <= |pat|
  {
    var i := if |pat| > 1 && pat[1] == '!' then 2 else 1;
    Find(pat, ']', if i < |pat| && pat[i] == ']' then i + 1 else i)
  }

  predicate ShellMatch(pat: string, p: string)
    decreases |pat| + |p|
  {
    if pat == "" then p == ""
    else if pat[0] == '*' then ShellMatch(pat[1..], p) || (p != "" && ShellMatch(pat, p[1..]))
    else if p == "" then false
    else if pat[0] == '[' && ClassEnd(pat) < |pat| then
      InClass(pat[1..ClassEnd(pat)], p[0]) && ShellMatch(pat[ClassEnd(pat) + 1..], p[1..])
    else (pat[0] == '?' || pat[0] == p[0]) && ShellMatch(pat[1..], p[1..])
  }

  /** `*` matches any text and `?` any one character. */
  lemma {:induction false} WildcardsMatch(p: string)
    ensures ShellMatch("*", p)
    ensures ShellMatch("?", p) <==> |p| == 1
  {
    assert "*"[1..] == "" && "?"[1..] == "";
    if p != "" { WildcardsMatch(p[1..]); }
  }

  /** Characters with no meaning of their own inside brackets. */
  predicate Unranged(cs: string) {
    forall i :: 0 <= i < |cs| ==> cs[i] !in {'-', '!', ']'}
  }

  lemma {:induction false} MembersOnly(cs: string, c: char)
    requires Unranged(cs)
    ensures InRanges(cs, c) <==> c in cs
  {
    if cs != "" {
      MembersOnly(cs[1..], c);
      assert c in cs <==> c == cs[0] || c in cs[1..];
    }
  }

  lemma {:induction false} ClosesAt(pat: string, i: nat, j: nat)
    requires i <= j < |pat| && pat[j] == ']' && forall k :: i <= k < j ==> pat[k] != ']'
    ensures Find(pat, ']', i) == j
    decreases j - i
  {
    if i < j { ClosesAt(pat, i + 1, j); }
  }

  /** Brackets match one of their characters or, negated, one not among them; a range what its bounds enclose. */
  lemma BracketsMatch(cs: string, c: char, low: char, high: char)
    requires cs != "" && Unranged(cs)
    ensures ShellMatch("[" + cs + "]", [c]) <==> c in cs
    ensures ShellMatch("[!" + cs + "]", [c]) <==> c !in cs
    ensures InRanges([low, '-', high], c) <==> low <= c <= high
  {
    MembersOnly(cs, c);
    assert [low, '-', high][3..] == "" && [c][1..] == "";
    OneClass("[" + cs + "]", cs, c);
    OneClass("[!" + cs + "]", "!" + cs, c);
    assert ("!" + cs)[1..] == cs;
  }

  lemma OneClass(pat: string, body: string, c: char)
    requires pat == "[" + body + "]" && |body| > 0
    requires forall k :: 0 <= k < |body| ==> body[k] != ']'
    requires body[0] == '!' ==> |body| > 1
    ensures ShellMatch(pat, [c]) <==> InClass(body, c)
  {
    forall k | 1 <= k < |pat| - 1 ensures pat[k] == body[k - 1] {}
    ClosesAt(pat, if pat[1] == '!' then 2 else 1, |pat| - 1);
    assert pat[1..|pat| - 1] == body && pat[|pat|..] == "" && [c][1..] == "";
  }

  // ---------------------------------------------------------------------
  // The capturing regex: ^ ... $ with [^/]+ for every placeholder

  function SlashFree(p: string): (n: nat)
    ensures n <= |p| && '/' !in p[..n] && (n < |p| ==> p[n] == '/')
  {
    if p == "" || p[0] == '/' then 0
    else
      assert p[..1 + SlashFree(p[1..])] == [p[0]] + p[1..][..SlashFree(p[1..])];
      1 + SlashFree(p[1..])
  }

  /** Backtracking from the left, longest capture first; `$` also matches before a final newline. */
  function RegexMatch(toks: seq<Tok>, p: string): Option<Vars>
    decreases |toks|, 0
  {
    if toks == [] then (if p == "" || p == "\n" then Some(map[]) else None)
    else if toks[0].Lit? then
      (if p != "" && p[0] == toks[0].c then RegexMatch(toks[1..], p[1..]) else None)
    else Capture(toks[0].name, toks[1..], p, SlashFree(p))
  }

  function Capture(name: string, rest: seq<Tok>, p: string, k: nat): Option<Vars>
    requires k <= |p|
    decreases |rest|, k + 1
  {
    if k == 0 then None
    else
      var m := RegexMatch(rest, p[k..]);
      if m.Some? then Some(m.value[name := p[..k]]) else Capture(name, rest, p, k - 1)
  }

  /** `match_glob_pattern`: the shell pattern as a filter, then the regex for the captures. */
  function MatchGlob(g: Compiled, path: string): Option<Vars> {
    if ShellMatch(g.shell, path) then RegexMatch(g.regex, path) else None
  }

  // ---------------------------------------------------------------------
  // What a match means

  function Subst(toks: seq<Tok>, v: Vars): string
    requires Names(toks) <= v.Keys
  {
    if toks == [] then ""
    else
      assert toks[0] in toks && Names(toks[1..]) <= Names(toks);
      (if toks[0].Lit? then [toks[0].c] else v[toks[0].name]) + Subst(toks[1..], v)
  }

  ghost predicate Binds(toks: seq<Tok>, v: Vars) {
    v.Keys == Names(toks) && forall n :: n in v ==> v[n] != "" && '/' !in v[n]
  }

  /** The path is the template with non-empty, slash-free strings put in. */
  ghost predicate Instance(toks: seq<Tok>, v: Vars, path: string) {
    Binds(toks, v) && Subst(toks, v) == path
  }

  lemma {:induction false} SubstIgnoresOthers(toks: seq<Tok>, v: Vars, w: Vars)
    requires Names(toks) <= v.Keys && Names(toks) <= w.Keys
    requires forall n :: n in Names(toks) ==> v[n] == w[n]
    ensures Subst(toks, v) == Subst(toks, w)
  {
    if toks != [] {
      assert toks[0] in toks && Names(toks[1..]) <= Names(toks);
      SubstIgnoresOthers(toks[1..], v, w);
    }
  }

  lemma NamesOfTail(toks: seq<Tok>)
    requires toks != []
    ensures Names(toks) == Names(toks[1..]) + (if toks[0].Hole? then {toks[0].name} else {})
  {
    assert toks == [toks[0]] + toks[1..];
  }

  /** Putting one more binding in front. */
  lemma BindOneMore(toks: seq<Tok>, v: Vars, w: string)
    requires toks != [] && Distinct(toks) && toks[0].Hole?
    requires Binds(toks[1..], v) && w != "" && '/' !in w
    ensures Binds(toks, v[toks[0].name := w])
    ensures Subst(toks, v[toks[0].name := w]) == w + Subst(toks[1..], v)
  {
    NamesOfTail(toks);
    SubstIgnoresOthers(toks[1..], v, v[toks[0].name := w]);
  }

  /** Every regex match is an instance of the template, up to one final newline. */
  lemma {:induction false} RegexIsSound(toks: seq<Tok>, p: string)
    requires Distinct(toks) && RegexMatch(toks, p).Some?
    ensures var v := RegexMatch(toks, p).value;
      Binds(toks, v) && (Subst(toks, v) == p || Subst(toks, v) + "\n" == p)
    decreases |toks|, 0
  {
    if toks != [] {
      NamesOfTail(toks);
      if toks[0].Lit? {
        RegexIsSound(toks[1..], p[1..]);
        var v := RegexMatch(toks, p).value;
        assert p == [p[0]] + p[1..];
        assert [p[0]] + (Subst(toks[1..], v) + "\n") == ([p[0]] + Subst(toks[1..], v)) + "\n";
      } else {
        CaptureIsSound(toks, p, SlashFree(p));
      }
    }
  }

  lemma {:induction false} CaptureIsSound(toks: seq<Tok>, p: string, k: nat)
    requires Distinct(toks) && toks != [] && toks[0].Hole?
    requires k <= |p| && '/' !in p[..k]
    requires Capture(toks[0].name, toks[1..], p, k).Some?
    ensures var v := Capture(toks[0].name, toks[1..], p, k).value;
      Binds(toks, v) && (Subst(toks, v) == p || Subst(toks, v) + "\n" == p)
    decreases |toks|, 0, k
  {
    var m := RegexMatch(toks[1..], p[k..]);
    if m.Some? {
      RegexIsSound(toks[1..], p[k..]);
      BindOneMore(toks, m.value, p[..k]);
      assert p == p[..k] + p[k..];
      assert p[..k] + (Subst(toks[1..], m.value) + "\n") == (p[..k] + Subst(toks[1..], m.value)) + "\n";
    } else {
      assert p[..k - 1] == p[..k][..k - 1];
      CaptureIsSound(toks, p, k - 1);
    }
  }

  /** Every instance matches, with or without one final newline. */
  lemma {:induction false} RegexIsComplete(toks: seq<Tok>, v: Vars, p: string)
    requires Distinct(toks) && Binds(toks, v)
    requires p == Subst(toks, v) || p == Subst(toks, v) + "\n"
    ensures RegexMatch(toks, p).Some?
    decreases |toks|
  {
    if toks != [] {
      NamesOfTail(toks);
      var rest := toks[1..];
      if toks[0].Lit? {
        assert p[1..] == Subst(rest, v) || p[1..] == Subst(rest, v) + "\n";
        RegexIsComplete(rest, v, p[1..]);
      } else {
        var w := v[toks[0].name];
        var u := v - {toks[0].name};
        SubstIgnoresOthers(rest, v, u);
        assert p[|w|..] == Subst(rest, v) || p[|w|..] == Subst(rest, v) + "\n";
        assert p[..|w|] == w;
        RegexIsComplete(rest, u, p[|w|..]);
        LongRun(p, |w|);
        CaptureFinds(toks[0].name, rest, p, SlashFree(p), |w|);
      }
    }
  }

  lemma LongRun(p: string, n: nat)
    requires n <= |p| && '/' !in p[..n]
    ensures n <= SlashFree(p)
  {
    assert forall i :: 0 <= i < n ==> p[i] == p[..n][i];
  }

  lemma {:induction false} CaptureFinds(name: string, rest: seq<Tok>, p: string, k: nat, at: nat)
    requires 0 < at <= k <= |p| && RegexMatch(rest, p[at..]).Some?
    ensures Capture(name, rest, p, k).Some?
    decreases k
  {
    if k != at { CaptureFinds(name, rest, p, k - 1, at); }
  }

  // ---------------------------------------------------------------------
  // The prefilter

  predicate NoLiteral(toks: seq<Tok>, special: set<char>) {
    forall i :: 0 <= i < |toks| && toks[i].Lit? ==> toks[i].c !in special
  }

  lemma {:induction false} StarAbsorbs(pat: string, w: string, p: string)
    requires ShellMatch(pat, p)
    ensures ShellMatch("*" + pat, w + p)
  {
    var star := "*" + pat;
    assert star[1..] == pat;
    if w == "" {
      assert w + p == p;
    } else {
      StarAbsorbs(pat, w[1..], p);
      assert (w + p)[1..] == w[1..] + p;
    }
  }

  /** The fnmatch filter never rejects an instance of a template without `[`. */
  lemma {:induction false} PrefilterKeepsInstances(toks: seq<Tok>, v: Vars)
    requires NoLiteral(toks, {'['}) && Names(toks) <= v.Keys
    ensures ShellMatch(ShellPattern(toks), Subst(toks, v))
  {
    if toks != [] {
      NamesOfTail(toks);
      PrefilterKeepsInstances(toks[1..], v);
      var pat, p := ShellPattern(toks[1..]), Subst(toks[1..], v);
      if toks[0].Hole? {
        StarAbsorbs(pat, v[toks[0].name], p);
      } else if toks[0].c == '*' {
        StarAbsorbs(pat, "*", p);
      } else {
        assert ShellPattern(toks)[1..] == pat && Subst(toks, v)[1..] == p;
      }
    }
  }

  /** With a bracket in the template it can reject the very path the template spells. */
  lemma BracketRejectsItself()
    ensures Compile("[a]").Some?
    ensures Instance(Compile("[a]").value.regex, map[], "[a]")
    ensures MatchGlob(Compile("[a]").value, "[a]") == None
  {
    var s := "[a]";
    assert s[1..] == "a]" && s[1..][1..] == "]";
    var toks := [Lit('['), Lit('a'), Lit(']')];
    assert toks[1..] == [Lit('a'), Lit(']')] && toks[1..][1..] == [Lit(']')] && toks[1..][1..][1..] == [];
    assert Tokenize("]") == [Lit(']')] + Tokenize([]);
    assert Tokenize("a]") == [Lit('a')] + Tokenize("]");
    assert Tokenize(s) == toks;
    assert Names(toks) == {};
    assert Distinct(toks[1..][1..]) && Distinct(toks[1..]) && Distinct(toks);
    assert Subst([Lit(']')], map[]) == "]" && Subst(toks[1..], map[]) == "a]" && Subst(toks, map[]) == s;
    assert ShellPattern([Lit(']')]) == "]" && ShellPattern(toks[1..]) == "a]" && ShellPattern(toks) == s;
    assert Find(s, ']', 1) == 2;
    assert s[1..2] == "a" && !InRanges("a"[1..], '[');
  }

  // ---------------------------------------------------------------------
  // `$` and the final newline

  /** The literal text behind the last placeholder. */
  function Tail(toks: seq<Tok>): string {
    if toks == [] then ""
    else if Names(toks[1..]) == {} && toks[0].Lit? then [toks[0].c] + Tail(toks[1..])
    else Tail(toks[1..])
  }

  predicate EndsWith(p: string, s: string) {
    |s| <= |p| && p[|p| - |s|..] == s
  }

  lemma {:induction false} AllLiteral(toks: seq<Tok>, v: Vars)
    requires Names(toks) == {}
    ensures Subst(toks, v) == Tail(toks) == ShellPattern(toks) && Distinct(toks)
  {
    if toks != [] {
      NamesOfTail(toks);
      AllLiteral(toks[1..], v);
    }
  }

  lemma {:induction false} TailIsSuffix(toks: seq<Tok>)
    ensures EndsWith(ShellPattern(toks), Tail(toks))
    ensures Names(toks) == {} ==> ShellPattern(toks) == Tail(toks)
    ensures Names(toks) != {} ==> |Tail(toks)| < |ShellPattern(toks)|
  {
    if toks != [] {
      NamesOfTail(toks);
      TailIsSuffix(toks[1..]);
    }
  }

  predicate Ordinary(s: string) {
    forall i :: 0 <= i < |s| ==> s[i] !in {'*', '?', '['}
  }

  /** No bracket and no question mark. */
  predicate Starry(pat: string) {
    forall i :: 0 <= i < |pat| ==> pat[i] !in {'?', '['}
  }

  lemma SuffixOfTail(p: string, s: string)
    requires p != "" && EndsWith(p[1..], s)
    ensures EndsWith(p, s)
  {
    assert p[1..][|p[1..]| - |s|..] == p[|p| - |s|..];
  }

  lemma TailKeepsSuffix(p: string, s: string)
    requires p != "" && EndsWith(p, s) && |s| < |p|
    ensures EndsWith(p[1..], s)
  {
    assert p[1..][|p[1..]| - |s|..] == p[|p| - |s|..];
  }

  /** Ordinary text matches only itself. */
  lemma {:induction false} OrdinaryMatchesItself(s: string, p: string)
    requires ShellMatch(s, p) && Ordinary(s)
    ensures p == s
  {
    if s != "" {
      assert s[0] !in {'*', '?', '['};
      OrdinaryMatchesItself(s[1..], p[1..]);
      assert p == [p[0]] + p[1..] && s == [s[0]] + s[1..];
    }
  }

  /** A shell pattern that ends in ordinary text matches only strings that end in it. */
  lemma {:induction false} ShellSuffix(pat: string, p: string, s: string)
    requires ShellMatch(pat, p) && EndsWith(pat, s) && Ordinary(s) && Starry(pat)
    ensures EndsWith(p, s)
    ensures pat == s ==> p == s
    decreases |pat| + |p|
  {
    if |pat| == |s| {
      assert pat == pat[|pat| - |s|..];
      OrdinaryMatchesItself(s, p);
    } else {
      TailKeepsSuffix(pat, s);
      if pat[0] == '*' {
        StarSuffix(pat, p, s);
      } else {
        assert pat[0] !in {'?', '['};
        ShellSuffix(pat[1..], p[1..], s);
        SuffixOfTail(p, s);
      }
    }
  }

  lemma {:induction false} StarSuffix(pat: string, p: string, s: string)
    requires ShellMatch(pat, p) && pat != "" && pat[0] == '*'
    requires EndsWith(pat, s) && EndsWith(pat[1..], s) && Ordinary(s) && Starry(pat)
    ensures EndsWith(p, s)
    decreases |pat| + |p|, 0
  {
    if ShellMatch(pat[1..], p) {
      ShellSuffix(pat[1..], p, s);
    } else {
      ShellSuffix(pat, p[1..], s);
      SuffixOfTail(p, s);
    }
  }

  /** Text that stays a suffix when one newline is added is all newlines. */
  lemma ShiftedSuffix(p: string, s: string)
    requires EndsWith(p, s + "\n") && EndsWith(p, s)
    ensures (s + "\n")[0] == '\n' && (s + "\n")[1..] == s
  {
    var t := s + "\n";
    assert forall i :: 0 <= i < |s| ==> p[|p| - |s| + i] == s[i] && p[|p| - |t| + i + 1] == t[i + 1];
    assert t[1..] == s;
    AllNewlines(s);
  }

  lemma {:induction false} AllNewlines(s: string)
    requires (s + "\n")[1..] == s
    ensures (s + "\n")[0] == '\n'
  {
    if s != "" {
      assert s[|s| - 1] == (s + "\n")[|s|] == '\n';
      var t := s[..|s| - 1];
      forall i | 0 <= i < |t| ensures (t + "\n")[1..][i] == t[i] {
        assert (s + "\n")[1..][i] == s[i];
      }
      assert (t + "\n")[1..] == t;
      AllNewlines(t);
    }
  }

  /**
   * Captures are greedy, so a path that already ends in the template's literal
   * tail is never matched with its last newline left over.
   */
  lemma {:induction false} GreedyTakesAll(toks: seq<Tok>, p: string)
    requires Distinct(toks) && Names(toks) != {} && EndsWith(p, Tail(toks))
    requires RegexMatch(toks, p).Some?
    ensures Names(toks) <= RegexMatch(toks, p).value.Keys
    ensures Subst(toks, RegexMatch(toks, p).value) == p
    decreases |toks|, 0
  {
    NamesOfTail(toks);
    RegexIsSound(toks, p);
    var v := RegexMatch(toks, p).value;
    if toks[0].Lit? {
      RegexIsSound(toks[1..], p[1..]);
      TailFits(toks[1..], v, p[1..]);
      assert Tail(toks) == Tail(toks[1..]);
      SuffixOfDrop(p, 1, Tail(toks));
      GreedyTakesAll(toks[1..], p[1..]);
      assert p == [p[0]] + p[1..];
    } else {
      CaptureTakesAll(toks, p, SlashFree(p));
    }
  }

  /** The captured text in front of the tail leaves room for it. */
  lemma {:induction false} TailFits(toks: seq<Tok>, v: Vars, p: string)
    requires Names(toks) <= v.Keys
    requires Subst(toks, v) == p || Subst(toks, v) + "\n" == p
    ensures |Tail(toks)| <= |p|
  {
    if toks != [] {
      NamesOfTail(toks);
      TailFits(toks[1..], v, Subst(toks[1..], v));
    }
  }

  lemma SuffixOfDrop(p: string, k: nat, s: string)
    requires k <= |p| && EndsWith(p, s) && |s| <= |p[k..]|
    ensures EndsWith(p[k..], s)
  {
    assert p[k..][|p[k..]| - |s|..] == p[|p| - |s|..];
  }

  /** With the literal tail and one newline left, a capture one character longer would have fitted. */
  lemma LongerCaptureFits(rest: seq<Tok>, p: string, k: nat)
    requires Names(rest) == {} && EndsWith(p, Tail(rest))
    requires k <= SlashFree(p) && p[k..] == Tail(rest) + "\n"
    ensures k + 1 <= SlashFree(p) && RegexMatch(rest, p[k + 1..]).Some?
  {
    var s := Tail(rest);
    assert p[|p| - |s + "\n"|..] == p[k..];
    ShiftedSuffix(p, s);
    assert p[k] == p[k..][0] == '\n';
    assert p[k + 1..] == p[k..][1..] == s;
    assert p[..k + 1] == p[..k] + ['\n'];
    assert p[..k] == p[..SlashFree(p)][..k];
    LongRun(p, k + 1);
    AllLiteral(rest, map[]);
    RegexIsComplete(rest, map[], p[k + 1..]);
  }

  lemma CaptureInFront(toks: seq<Tok>, v: Vars, p: string, k: nat)
    requires Distinct(toks) && toks != [] && toks[0].Hole?
    requires 0 < k <= SlashFree(p) && Binds(toks[1..], v) && Subst(toks[1..], v) == p[k..]
    ensures Names(toks) <= v[toks[0].name := p[..k]].Keys
    ensures Subst(toks, v[toks[0].name := p[..k]]) == p
  {
    assert p[..k] == p[..SlashFree(p)][..k];
    BindOneMore(toks, v, p[..k]);
    assert p == p[..k] + p[k..];
  }

  lemma {:induction false} RestTakesAll(toks: seq<Tok>, p: string, k: nat)
    requires Distinct(toks) && toks != [] && toks[0].Hole? && EndsWith(p, Tail(toks))
    requires k <= SlashFree(p) && RegexMatch(toks[1..], p[k..]).Some?
    requires k < SlashFree(p) ==> RegexMatch(toks[1..], p[k + 1..]).None?
    ensures Binds(toks[1..], RegexMatch(toks[1..], p[k..]).value)
    ensures Subst(toks[1..], RegexMatch(toks[1..], p[k..]).value) == p[k..]
    decreases |toks|, 0, 0
  {
    var rest := toks[1..];
    var v := RegexMatch(rest, p[k..]).value;
    RegexIsSound(rest, p[k..]);
    TailFits(rest, v, p[k..]);
    if Names(rest) != {} {
      SuffixOfDrop(p, k, Tail(rest));
      GreedyTakesAll(rest, p[k..]);
    } else {
      LiteralRestTakesAll(rest, v, p, k);
    }
  }

  lemma LiteralRestTakesAll(rest: seq<Tok>, v: Vars, p: string, k: nat)
    requires Names(rest) == {} && EndsWith(p, Tail(rest)) && k <= SlashFree(p)
    requires Subst(rest, v) == p[k..] || Subst(rest, v) + "\n" == p[k..]
    requires k < SlashFree(p) ==> RegexMatch(rest, p[k + 1..]).None?
    ensures Subst(rest, v) == p[k..]
  {
    AllLiteral(rest, v);
    if Subst(rest, v) != p[k..] {
      LongerCaptureFits(rest, p, k);
      assert false;
    }
  }

  lemma {:induction false} CaptureTakesAll(toks: seq<Tok>, p: string, k: nat)
    requires Distinct(toks) && toks != [] && toks[0].Hole? && EndsWith(p, Tail(toks))
    requires k <= SlashFree(p)
    requires k < SlashFree(p) ==> RegexMatch(toks[1..], p[k + 1..]).None?
    requires Capture(toks[0].name, toks[1..], p, k).Some?
    ensures Names(toks) <= Capture(toks[0].name, toks[1..], p, k).value.Keys
    ensures Subst(toks, Capture(toks[0].name, toks[1..], p, k).value) == p
    decreases |toks|, 0, k
  {
    var m := RegexMatch(toks[1..], p[k..]);
    if m.None? {
      CaptureTakesAll(toks, p, k - 1);
    } else {
      RestTakesAll(toks, p, k);
      CaptureInFront(toks, m.value, p, k);
    }
  }

  // ---------------------------------------------------------------------
  // The main results

  /**
   * A path matches a template whose literals hold no `*`, `?` or `[` exactly when
   * it is the template with non-empty slash-free strings put in, and then the
   * captures put back into the template give that path.
   */
  lemma MatchIffInstance(g: Compiled, path: string)
    requires Distinct(g.regex) && g.shell == ShellPattern(g.regex)
    requires NoLiteral(g.regex, {'*', '?', '['})
    ensures MatchGlob(g, path).Some? ==> Instance(g.regex, MatchGlob(g, path).value, path)
    ensures (exists v :: Instance(g.regex, v, path)) ==> MatchGlob(g, path).Some?
  {
    var toks := g.regex;
    if MatchGlob(g, path).Some? {
      RegexIsSound(toks, path);
      CleanPattern(toks);
      TailIsSuffix(toks);
      ShellSuffix(g.shell, path, Tail(toks));
      if Names(toks) == {} {
        AllLiteral(toks, map[]);
      } else {
        GreedyTakesAll(toks, path);
      }
    }
    if v :| Instance(toks, v, path) {
      PrefilterKeepsInstances(toks, v);
      RegexIsComplete(toks, v, path);
    }
  }

  /**
   * For any literals at all: a path matches exactly when the filter lets it through
   * and it is an instance, or an instance with one newline more; without `[` the
   * filter lets every instance through.
   */
  lemma MatchIffFiltered(g: Compiled, path: string)
    requires Distinct(g.regex) && g.shell == ShellPattern(g.regex)
    ensures MatchGlob(g, path).Some? <==>
      ShellMatch(g.shell, path) &&
      exists v :: Binds(g.regex, v) && (Subst(g.regex, v) == path || Subst(g.regex, v) + "\n" == path)
    ensures NoLiteral(g.regex, {'['}) && (exists v :: Instance(g.regex, v, path)) ==> MatchGlob(g, path).Some?
  {
    NameMatchIff(g.regex, path);
    if v :| Instance(g.regex, v, path) && NoLiteral(g.regex, {'['}) {
      PrefilterKeepsInstances(g.regex, v);
    }
  }

  lemma {:induction false} CleanPattern(toks: seq<Tok>)
    requires NoLiteral(toks, {'*', '?', '['})
    ensures Starry(ShellPattern(toks))
    ensures Ordinary(Tail(toks))
  {
    if toks != [] {
      assert NoLiteral(toks[1..], {'*', '?', '['}) by {
        forall i | 0 <= i < |toks[1..]| && toks[1..][i].Lit? ensures toks[1..][i].c !in {'*', '?', '['} {
          assert toks[1..][i] == toks[i + 1];
        }
      }
      CleanPattern(toks[1..]);
    }
  }

  /** A `?` in the template lets a path with one newline too many through. */
  lemma QuestionMarkAdmitsNewline()
    ensures Distinct([Hole("n"), Lit('?')])
    ensures MatchGlob(Compiled("*?", [Hole("n"), Lit('?')]), "v?\n") == Some(map["n" := "v"])
    ensures !exists v :: Instance([Hole("n"), Lit('?')], v, "v?\n")
  {
    var toks, p := [Hole("n"), Lit('?')], "v?\n";
    assert toks[1..] == [Lit('?')] && [Lit('?')][1..] == [];
    assert "*?"[1..] == "?" && "?"[1..] == "" && p[1..] == "?\n" && p[1..][1..] == "\n" && "\n"[1..] == "";
    assert ShellMatch("?", "\n") && ShellMatch("*?", "\n") && ShellMatch("*?", "?\n") && ShellMatch("*?", p);
    assert SlashFree("\n") == 1 && SlashFree("?\n") == 2 && SlashFree(p) == 3;
    assert p[3..] == "" && p[2..] == "\n";
    assert RegexMatch([Lit('?')], "") == None && RegexMatch([Lit('?')], "\n") == None;
    assert RegexMatch([Lit('?')], "?\n") == Some(map[]);
    assert Capture("n", [Lit('?')], p, 1) == Some(map["n" := "v"]) by { assert p[..1] == "v"; }
    assert Capture("n", [Lit('?')], p, 2) == Some(map["n" := "v"]);
    assert Capture("n", [Lit('?')], p, 3) == Some(map["n" := "v"]);
    forall v | Binds(toks, v) ensures Subst(toks, v) != p {
      NamesOfTail(toks);
      assert Subst([Lit('?')], v) == "?";
      assert Subst(toks, v)[|Subst(toks, v)| - 1] == '?';
    }
  }

  /** The console name regex has no prefilter: it matches instances, and instances with one final newline. */
  lemma NameMatchIff(toks: seq<Tok>, name: string)
    requires Distinct(toks)
    ensures RegexMatch(toks, name).Some? <==>
      exists v :: Binds(toks, v) && (Subst(toks, v) == name || Subst(toks, v) + "\n" == name)
  {
    if RegexMatch(toks, name).Some? {
      RegexIsSound(toks, name);
      var v := RegexMatch(toks, name).value;
      assert Binds(toks, v) && (Subst(toks, v) == name || Subst(toks, v) + "\n" == name);
    }
    if v :| Binds(toks, v) && (Subst(toks, v) == name || Subst(toks, v) + "\n" == name) {
      RegexIsComplete(toks, v, name);
    }
  }

  // ---------------------------------------------------------------------
  // Which of several readings is found

  /** The name is the template filled in, up to one final newline. */
  ghost predicate Reads(toks: seq<Tok>, v: Vars, name: string) {
    Binds(toks, v) && (Subst(toks, v) == name || Subst(toks, v) + "\n" == name)
  }

  /** At the first placeholder where the two differ in length, u has the longer text. */
  predicate Longer(toks: seq<Tok>, u: Vars, w: Vars)
    requires Names(toks) <= u.Keys && Names(toks) <= w.Keys
  {
    toks != [] &&
    (NamesOfTail(toks);
     if toks[0].Lit? then Longer(toks[1..], u, w)
     else
       var n := toks[0].name;
       |u[n]| > |w[n]| || (|u[n]| == |w[n]| && Longer(toks[1..], u, w)))
  }

  lemma {:induction false} LongerIgnoresOthers(toks: seq<Tok>, u: Vars, w: Vars, u': Vars, w': Vars)
    requires Names(toks) <= u.Keys && Names(toks) <= w.Keys && Names(toks) <= u'.Keys && Names(toks) <= w'.Keys
    requires forall n :: n in Names(toks) ==> u[n] == u'[n] && w[n] == w'[n]
    ensures Longer(toks, u, w) == Longer(toks, u', w')
  {
    if toks != [] {
      NamesOfTail(toks);
      LongerIgnoresOthers(toks[1..], u, w, u', w');
    }
  }

  /** What a reading says of the text behind the first placeholder. */
  lemma ReadingBehindHole(toks: seq<Tok>, v: Vars, name: string)
    requires toks != [] && toks[0].Hole? && Distinct(toks) && Reads(toks, v, name)
    ensures var w := v[toks[0].name];
      && 0 < |w| <= SlashFree(name) && name[..|w|] == w
      && Reads(toks[1..], v - {toks[0].name}, name[|w|..])
      && forall n :: n in Names(toks[1..]) ==> n in v && n in v - {toks[0].name} && (v - {toks[0].name})[n] == v[n]
  {
    NamesOfTail(toks);
    var w, u := v[toks[0].name], v - {toks[0].name};
    SubstIgnoresOthers(toks[1..], v, u);
    TailOfFront(w, Subst(toks[1..], u), name);
    LongRun(name, |w|);
  }

  lemma ReadingBehindLit(toks: seq<Tok>, v: Vars, name: string)
    requires toks != [] && toks[0].Lit? && Reads(toks, v, name)
    ensures name != "" && Reads(toks[1..], v, name[1..])
  {
    NamesOfTail(toks);
    TailOfFront([toks[0].c], Subst(toks[1..], v), name);
  }

  /** Dropping the first part of a text in two parts that may have one more newline. */
  lemma TailOfFront(front: string, back: string, name: string)
    requires front + back == name || front + back + "\n" == name
    ensures |front| <= |name| && name[..|front|] == front
    ensures name[|front|..] == back || name[|front|..] == back + "\n"
  {
  }

  /** Backtracking from the longest capture finds no reading that another one is longer than. */
  lemma {:induction false} MatchIsLongest(toks: seq<Tok>, name: string, u: Vars)
    requires Distinct(toks) && RegexMatch(toks, name).Some? && Reads(toks, u, name)
    ensures Names(toks) <= RegexMatch(toks, name).value.Keys
    ensures !Longer(toks, u, RegexMatch(toks, name).value)
    decreases |toks|
  {
    RegexIsSound(toks, name);
    if toks != [] {
      NamesOfTail(toks);
      if toks[0].Lit? {
        ReadingBehindLit(toks, u, name);
        MatchIsLongest(toks[1..], name[1..], u);
      } else {
        HoleIsLongest(toks, name, u);
      }
    }
  }

  lemma {:induction false} HoleIsLongest(toks: seq<Tok>, name: string, u: Vars)
    requires toks != [] && toks[0].Hole? && Distinct(toks) && RegexMatch(toks, name).Some? && Reads(toks, u, name)
    requires Names(toks) <= RegexMatch(toks, name).value.Keys
    ensures !Longer(toks, u, RegexMatch(toks, name).value)
    decreases |toks|, 0
  {
    NamesOfTail(toks);
    var n, rest, v := toks[0].name, toks[1..], RegexMatch(toks, name).value;
    ReadingBehindHole(toks, u, name);
    RegexIsComplete(rest, u - {n}, name[|u[n]|..]);
    var k := CapturedLength(n, rest, name, SlashFree(name), |u[n]|);
    if k == |u[n]| {
      MatchIsLongest(rest, name[k..], u - {n});
      RegexIsSound(rest, name[k..]);
      LongerIgnoresOthers(rest, u - {n}, RegexMatch(rest, name[k..]).value, u, v);
    }
  }

  /** The capture found from k on is at least as long as any that fits. */
  lemma {:induction false} CapturedLength(n: string, rest: seq<Tok>, name: string, k: nat, fits: nat) returns (c: nat)
    requires 0 < fits <= k <= |name| && RegexMatch(rest, name[fits..]).Some?
    ensures fits <= c <= k && RegexMatch(rest, name[c..]).Some?
    ensures Capture(n, rest, name, k) == Some(RegexMatch(rest, name[c..]).value[n := name[..c]])
    decreases k
  {
    if RegexMatch(rest, name[k..]).Some? {
      c := k;
    } else {
      c := CapturedLength(n, rest, name, k - 1, fits);
    }
  }

  /** Two readings of equal first capture, neither longer: the same holds behind the first placeholder. */
  lemma EqualBehindHole(toks: seq<Tok>, u: Vars, w: Vars, name: string)
    requires toks != [] && toks[0].Hole? && Distinct(toks) && Reads(toks, u, name) && Reads(toks, w, name)
    requires !Longer(toks, u, w) && !Longer(toks, w, u)
    ensures var n := toks[0].name;
      && u[n] == w[n] && |u[n]| <= |name|
      && Reads(toks[1..], u - {n}, name[|u[n]|..]) && Reads(toks[1..], w - {n}, name[|u[n]|..])
      && !Longer(toks[1..], u - {n}, w - {n}) && !Longer(toks[1..], w - {n}, u - {n})
  {
    var n, rest := toks[0].name, toks[1..];
    NamesOfTail(toks);
    ReadingBehindHole(toks, u, name);
    ReadingBehindHole(toks, w, name);
    LongerIgnoresOthers(rest, u - {n}, w - {n}, u, w);
    LongerIgnoresOthers(rest, w - {n}, u - {n}, w, u);
  }

  lemma SameWithout(u: Vars, w: Vars, n: string)
    requires n in u && n in w && u[n] == w[n] && u - {n} == w - {n}
    ensures u == w
  {
    assert u == (u - {n})[n := u[n]] && w == (w - {n})[n := w[n]];
  }

  /** Of two different readings of one name, one is longer. */
  lemma {:induction false} ReadingsDiffer(toks: seq<Tok>, u: Vars, w: Vars, name: string)
    requires Distinct(toks) && Reads(toks, u, name) && Reads(toks, w, name)
    requires !Longer(toks, u, w) && !Longer(toks, w, u)
    ensures u == w
    decreases |toks|
  {
    if toks != [] {
      NamesOfTail(toks);
      if toks[0].Lit? {
        ReadingBehindLit(toks, u, name);
        ReadingBehindLit(toks, w, name);
        ReadingsDiffer(toks[1..], u, w, name[1..]);
      } else {
        var n := toks[0].name;
        EqualBehindHole(toks, u, w, name);
        ReadingsDiffer(toks[1..], u - {n}, w - {n}, name[|u[n]|..]);
        SameWithout(u, w, n);
      }
    }
  }

  /** The match is the longest reading: it is a reading, and no other is longer. */
  lemma MatchIsLongestReading(toks: seq<Tok>, w: Vars, name: string)
    requires Distinct(toks)
    ensures RegexMatch(toks, name) == Some(w) <==>
      Reads(toks, w, name) && !exists u :: Reads(toks, u, name) && Longer(toks, u, w)
  {
    if RegexMatch(toks, name) == Some(w) {
      RegexIsSound(toks, name);
      forall u | Reads(toks, u, name) ensures !Longer(toks, u, w) {
        MatchIsLongest(toks, name, u);
      }
    }
    if Reads(toks, w, name) && !exists u :: Reads(toks, u, name) && Longer(toks, u, w) {
      RegexIsComplete(toks, w, name);
      RegexIsSound(toks, name);
      MatchIsLongest(toks, name, w);
      ReadingsDiffer(toks, RegexMatch(toks, name).value, w, name);
    }
  }

  /** With one placeholder the length of the name fixes the length of its text. */
  lemma {:induction false} OneHoleLength(toks: seq<Tok>, u: Vars, w: Vars, n: string)
    requires Distinct(toks) && Names(toks) == {n} && n in u && n in w
    ensures |Subst(toks, u)| - |u[n]| == |Subst(toks, w)| - |w[n]|
    ensures Longer(toks, u, w) ==> |u[n]| > |w[n]|
  {
    NamesOfTail(toks);
    if toks[0].Lit? {
      OneHoleLength(toks[1..], u, w, n);
    } else {
      AllLiteral(toks[1..], u);
      AllLiteral(toks[1..], w);
      NothingLonger(toks[1..], u, w);
    }
  }

  lemma {:induction false} NothingLonger(toks: seq<Tok>, u: Vars, w: Vars)
    requires Names(toks) == {}
    ensures !Longer(toks, u, w)
  {
    if toks != [] {
      NamesOfTail(toks);
      NothingLonger(toks[1..], u, w);
    }
  }

  /** Only the empty template matches the empty path. */
  lemma EmptyPathNeverMatches(g: Compiled)
    requires g.regex != []
    ensures MatchGlob(g, "") == None
  {
    assert RegexMatch(g.regex, "") == None;
  }
}
