/** `str.format(**vars)`: reading a template, filling it in, and the ways it fails. */
module StrFormat {
  import opened Prelude
  import opened Glob

  /** The text, a KeyError, or any other exception (ValueError, IndexError, AttributeError, TypeError). */
  datatype Formatted = Text(text: string) | MissingKey | Malformed

  /** `extra` is what follows the name inside the braces: attributes, indices, conversion and format spec. */
  datatype Piece = Chars(text: string) | Placeholder(name: string, extra: string) | SyntaxError

  /**
   * What Python makes of a field that has more than a known name, such as `{name:>10}`.
   * It is left open: every result holds for whatever this function is.
   */
  const RenderField: (string, string, Vars) -> Formatted

  // ---------------------------------------------------------------------
  // Reading a template

  /** Behind the brace that closes a format spec, `depth` braces being open. */
  function SpecEnd(s: string, i: nat, depth: nat): (e: Option<nat>)
    requires i <= |s|
    ensures e.Some? ==> i < e.value <= |s|
    decreases |s| - i
  {
    if i == |s| then None
    else if s[i] == '{' then SpecEnd(s, i + 1, depth + 1)
    else if s[i] == '}' && depth <= 1 then Some(i + 1)
    else if s[i] == '}' then SpecEnd(s, i + 1, depth - 1)
    else SpecEnd(s, i + 1, depth)
  }

  /** Behind the brace that closes a field whose conversion starts at i. */
  function ConversionEnd(s: string, i: nat): (e: Option<nat>)
    requires i <= |s|
    ensures e.Some? ==> i < e.value <= |s|
  {
    if i + 1 >= |s| then None
    else if s[i + 1] == '}' then Some(i + 2)
    else if s[i + 1] == ':' then SpecEnd(s, i + 2, 1)
    else None
  }

  /** Behind the brace that closes a field whose text goes on at i; None is a ValueError. */
  function FieldEnd(s: string, i: nat): (e: Option<nat>)
    requires i <= |s|
    ensures e.Some? ==> i < e.value <= |s|
    decreases |s| - i
  {
    if i == |s| || s[i] == '{' then None
    else if s[i] == '}' then Some(i + 1)
    else if s[i] == ':' then SpecEnd(s, i + 1, 1)
    else if s[i] == '!' then ConversionEnd(s, i + 1)
    else if s[i] == '[' then FieldEnd(s, Find(s, ']', i + 1))
    else FieldEnd(s, i + 1)
  }

  predicate EndsName(c: char) {
    c in {'.', '[', '!', ':'}
  }

  function NameLength(field: string): (n: nat)
    ensures n <= |field|
  {
    if field == "" || EndsName(field[0]) then 0 else 1 + NameLength(field[1..])
  }

  function ReadField(field: string): Piece {
    Placeholder(field[..NameLength(field)], field[NameLength(field)..])
  }

  /** The pieces of a template up to its first syntax error. */
  function Pieces(s: string): seq<Piece> {
    if s == "" then []
    else if s[0] !in {'{', '}'} then [Chars([s[0]])] + Pieces(s[1..])
    else if |s| > 1 && s[1] == s[0] then [Chars([s[0]])] + Pieces(s[2..])
    else if s[0] == '}' then [SyntaxError]
    else
      match FieldEnd(s, 1)
      case None => [SyntaxError]
      case Some(e) => [ReadField(s[1..e - 1])] + Pieces(s[e..])
  }

  // ---------------------------------------------------------------------
  // Filling it in

  /** An empty or a numeric name asks for a positional argument, and there are none. */
  predicate IsPositional(name: string) {
    forall i :: 0 <= i < |name| ==> '0' <= name[i] <= '9'
  }

  function Fill(p: Piece, v: Vars): Formatted {
    match p
    case Chars(text) => Text(text)
    case SyntaxError => Malformed
    case Placeholder(name, extra) =>
      if IsPositional(name) then Malformed
      else if name !in v then MissingKey
      else if extra == "" then Text(v[name])
      else RenderField(name, extra, v)
  }

  function Render(ps: seq<Piece>, v: Vars): Formatted {
    if ps == [] then Text("")
    else
      var head := Fill(ps[0], v);
      if !head.Text? then head
      else
        var tail := Render(ps[1..], v);
        if tail.Text? then Text(head.text + tail.text) else tail
  }

  /** `s.format(**v)`; pieces are read and filled from the left, so the first fault decides. */
  function Format(s: string, v: Vars): Formatted {
    Render(Pieces(s), v)
  }

  // ---------------------------------------------------------------------
  // When it fails

  /** Piece i is the first that cannot be filled in, and this is how it fails. */
  predicate FirstFault(ps: seq<Piece>, v: Vars, i: nat, fault: Formatted) {
    i < |ps| && !fault.Text? && Fill(ps[i], v) == fault && forall j :: 0 <= j < i ==> Fill(ps[j], v).Text?
  }

  /** The template raises something other than a KeyError. */
  predicate Raises(s: string, v: Vars) {
    exists i: nat :: i < |Pieces(s)| && FirstFault(Pieces(s), v, i, Malformed)
  }

  /** Every piece can be filled in. */
  predicate Fits(s: string, v: Vars) {
    forall i :: 0 <= i < |Pieces(s)| ==> Fill(Pieces(s)[i], v).Text?
  }

  lemma {:induction false} RenderIff(ps: seq<Piece>, v: Vars)
    ensures Render(ps, v).Text? <==> forall i :: 0 <= i < |ps| ==> Fill(ps[i], v).Text?
    ensures forall fault: Formatted :: !fault.Text? ==>
      (Render(ps, v) == fault <==> exists i: nat :: i < |ps| && FirstFault(ps, v, i, fault))
  {
    if ps != [] {
      RenderIff(ps[1..], v);
      forall fault: Formatted | !fault.Text?
        ensures Render(ps, v) == fault <==> exists i: nat :: i < |ps| && FirstFault(ps, v, i, fault)
      {
        if !Fill(ps[0], v).Text? {
          assert FirstFault(ps, v, 0, Fill(ps[0], v));
        } else {
          if i: nat :| i < |ps| && FirstFault(ps, v, i, fault) {
            assert FirstFault(ps[1..], v, i - 1, fault);
          }
          if i: nat :| i < |ps[1..]| && FirstFault(ps[1..], v, i, fault) {
            assert FirstFault(ps, v, i + 1, fault);
          }
        }
      }
      assert Fill(ps[0], v).Text? && (forall i :: 0 <= i < |ps[1..]| ==> Fill(ps[1..][i], v).Text?) ==>
          forall i :: 0 < i < |ps| ==> Fill(ps[i], v).Text? by {
        forall i | 0 < i < |ps| && forall k :: 0 <= k < |ps[1..]| ==> Fill(ps[1..][k], v).Text?
          ensures Fill(ps[i], v).Text?
        {
          assert ps[i] == ps[1..][i - 1];
        }
      }
    }
  }

  /**
   * Formatting raises something other than a KeyError if and only if the first piece
   * that cannot be filled in is a syntax error, a positional field, or a field Python
   * itself chokes on; it gives a text if and only if every piece can be filled in.
   */
  lemma FormatRaisesIff(s: string, v: Vars)
    ensures Format(s, v) == Malformed <==> Raises(s, v)
    ensures Format(s, v).Text? <==> Fits(s, v)
  {
    RenderIff(Pieces(s), v);
  }

  // ---------------------------------------------------------------------
  // Round trips

  /** A text as a template: every brace doubled. */
  function QuoteBraces(t: string): string {
    if t == "" then "" else (if t[0] in {'{', '}'} then [t[0], t[0]] else [t[0]]) + QuoteBraces(t[1..])
  }

  /** Doubled braces format back to the text, whatever the variables. */
  lemma {:induction false} QuotedFormatsBack(t: string, v: Vars)
    ensures Format(QuoteBraces(t), v) == Text(t)
  {
    if t != "" {
      var q := QuoteBraces(t);
      var rest := QuoteBraces(t[1..]);
      QuotedFormatsBack(t[1..], v);
      assert Pieces(q) == [Chars([t[0]])] + Pieces(rest) by {
        if t[0] in {'{', '}'} {
          assert q[0] == q[1] == t[0] && q[2..] == rest;
        } else {
          assert q[0] == t[0] && q[1..] == rest;
        }
      }
      OnePieceMore(Chars([t[0]]), Pieces(rest), v);
      assert [t[0]] + t[1..] == t;
    }
  }

  predicate NoBraces(toks: seq<Tok>) {
    NoLiteral(toks, {'{', '}'})
  }

  predicate AllIdentifiers(toks: seq<Tok>) {
    forall t :: t in toks && t.Hole? ==> IsIdentifier(t.name)
  }

  lemma {:induction false} PlainFieldEnd(s: string, i: nat, j: nat)
    requires i <= j < |s| && s[j] == '}'
    requires forall k :: i <= k < j ==> s[k] !in {'{', '}', ':', '!', '['}
    ensures FieldEnd(s, i) == Some(j + 1)
    decreases j - i
  {
    if i < j { PlainFieldEnd(s, i + 1, j); }
  }

  predicate NeverCloses(s: string, i: nat) {
    forall k :: i <= k < |s| ==> s[k] != '}'
  }

  lemma {:induction false} UnclosedSpec(s: string, i: nat, depth: nat)
    requires i <= |s| && NeverCloses(s, i)
    ensures SpecEnd(s, i, depth) == None
    decreases |s| - i
  {
    if i < |s| { UnclosedSpec(s, i + 1, if s[i] == '{' then depth + 1 else depth); }
  }

  lemma {:induction false} UnclosedField(s: string, i: nat)
    requires i <= |s| && NeverCloses(s, i)
    ensures FieldEnd(s, i) == None
    decreases |s| - i
  {
    if i < |s| && s[i] == ':' {
      UnclosedSpec(s, i + 1, 1);
    } else if i < |s| && s[i] == '!' {
      if i + 3 <= |s| { UnclosedSpec(s, i + 3, 1); }
    } else if i < |s| && s[i] == '[' {
      UnclosedField(s, Find(s, ']', i + 1));
    } else if i < |s| && s[i] != '{' {
      UnclosedField(s, i + 1);
    }
  }

  lemma {:induction false} FindSkips(s: string, c: char, i: nat)
    requires i <= |s|
    ensures forall k :: i <= k < Find(s, c, i) ==> s[k] != c
    ensures Find(s, c, i) < |s| ==> s[Find(s, c, i)] == c
    decreases |s| - i
  {
    if i < |s| && s[i] != c { FindSkips(s, c, i + 1); }
  }

  lemma {:induction false} WholeName(name: string)
    requires forall i :: 0 <= i < |name| ==> !EndsName(name[i])
    ensures NameLength(name) == |name|
  {
    if name != "" { WholeName(name[1..]); }
  }

  lemma IdentifierIsName(name: string)
    requires IsIdentifier(name)
    ensures ReadField(name) == Placeholder(name, "") && !IsPositional(name)
  {
    WholeName(name);
    assert name[..|name|] == name && name[|name|..] == "";
    assert !('0' <= name[0] <= '9');
  }

  lemma IdentifierEnds(s: string, j: nat)
    requires 1 < j < |s| && s[j] == '}' && IsIdentifier(s[1..j])
    ensures FieldEnd(s, 1) == Some(j + 1) && s[1] !in {'{', '}'}
  {
    forall k | 1 <= k < j ensures s[k] !in {'{', '}', ':', '!', '['} {
      assert s[k] == s[1..j][k - 1];
    }
    PlainFieldEnd(s, 1, j);
  }

  /** A placeholder of the glob is a plain field of the format string. */
  lemma HoleIsField(s: string)
    requires s != "" && s[0] == '{' && 1 < Find(s, '}', 1) < |s|
    requires IsIdentifier(s[1..Find(s, '}', 1)])
    ensures var j := Find(s, '}', 1);
      Pieces(s) == [Placeholder(s[1..j], "")] + Pieces(s[j + 1..]) && !IsPositional(s[1..j])
  {
    FindSkips(s, '}', 1);
    IdentifierEnds(s, Find(s, '}', 1));
    IdentifierIsName(s[1..Find(s, '}', 1)]);
  }

  /** A lone opening brace of the glob is a fault of the format string, or half of a doubled brace. */
  lemma LoneBrace(s: string)
    requires s != "" && s[0] == '{' && !(1 < Find(s, '}', 1) < |s|)
    ensures (|s| > 1 && s[1] == '{') || forall v: Vars :: Format(s, v) == Malformed
  {
    FindSkips(s, '}', 1);
    if |s| > 1 && s[1] == '}' {
      assert s[1..1] == "" && FieldEnd(s, 1) == Some(2);
      assert Pieces(s) == [Placeholder("", "")] + Pieces(s[2..]);
    } else {
      UnclosedField(s, 1);
    }
  }

  /** How formatting compares with putting the variables in: the same text if clean; else it raises or falls short. */
  predicate Compares(f: Formatted, whole: string, clean: bool) {
    && (clean ==> f == Text(whole)) && f != MissingKey
    && (f.Text? ==> |f.text| <= |whole|) && (f.Text? && !clean ==> |f.text| < |whole|)
  }

  /** One piece in front that fills in to `head`. */
  function InFront(head: string, f: Formatted): Formatted {
    if f.Text? then Text(head + f.text) else f
  }

  lemma OnePieceMore(p: Piece, ps: seq<Piece>, v: Vars)
    requires Fill(p, v).Text?
    ensures Render([p] + ps, v) == InFront(Fill(p, v).text, Render(ps, v))
  {
    assert ([p] + ps)[1..] == ps;
  }

  /** One token in front that formats to what it stands for. */
  lemma OneTokenMore(t: Tok, toks: seq<Tok>, p: Piece, ps: seq<Piece>, v: Vars)
    requires Glob.Names([t] + toks) <= v.Keys && Glob.Names(toks) <= v.Keys
    requires Compares(Render(ps, v), Subst(toks, v), NoBraces(toks))
    requires t in [t] + toks && Fill(p, v) == Text(if t.Lit? then [t.c] else v[t.name])
    requires t.Lit? ==> t.c !in {'{', '}'}
    ensures Compares(Render([p] + ps, v), Subst([t] + toks, v), NoBraces([t] + toks))
  {
    OnePieceMore(p, ps, v);
    TailTokens([t] + toks);
    assert ([t] + toks)[1..] == toks;
  }

  /** Formatting a glob whose placeholders are all known; it is clean if it has no literal brace. */
  lemma {:induction false} FormatOfGlob(s: string, v: Vars)
    requires AllIdentifiers(Tokenize(s)) && Glob.Names(Tokenize(s)) <= v.Keys
    ensures Compares(Format(s, v), Subst(Tokenize(s), v), NoBraces(Tokenize(s)))
    decreases |s|
  {
    if s != "" {
      var toks := Tokenize(s);
      NamesOfTail(toks);
      TailTokens(toks);
      if s[0] == '{' && 1 < Find(s, '}', 1) < |s| {
        FormatOfHole(s, v);
      } else if s[0] !in {'{', '}'} {
        FormatOfGlob(s[1..], v);
        OneTokenMore(Lit(s[0]), Tokenize(s[1..]), Chars([s[0]]), Pieces(s[1..]), v);
      } else {
        assert !NoBraces(toks);
        FormatOfBrace(s, v);
      }
    }
  }

  /** A placeholder's token stands in front of the tokens of what follows. */
  lemma HoleTokens(s: string)
    requires s != "" && s[0] == '{' && 1 < Find(s, '}', 1) < |s|
    ensures var j := Find(s, '}', 1);
      Tokenize(s) == [Hole(s[1..j])] + Tokenize(s[j + 1..]) && Hole(s[1..j]) in Tokenize(s)
  {
    var j := Find(s, '}', 1);
    assert Tokenize(s)[0] == Hole(s[1..j]);
  }

  lemma {:induction false} FormatOfHole(s: string, v: Vars)
    requires s != "" && s[0] == '{' && 1 < Find(s, '}', 1) < |s|
    requires AllIdentifiers(Tokenize(s)) && Glob.Names(Tokenize(s)) <= v.Keys
    ensures Compares(Format(s, v), Subst(Tokenize(s), v), NoBraces(Tokenize(s)))
    decreases |s|, 0
  {
    var name, rest := s[1..Find(s, '}', 1)], s[Find(s, '}', 1) + 1..];
    HoleTokens(s);
    HoleIsField(s);
    KnownTail(Hole(name), Tokenize(rest), v);
    FormatOfGlob(rest, v);
    HoleInFront(name, Tokenize(rest), Pieces(rest), v);
  }

  lemma HoleInFront(name: string, toks: seq<Tok>, ps: seq<Piece>, v: Vars)
    requires IsIdentifier(name) && name in v
    requires Glob.Names([Hole(name)] + toks) <= v.Keys && Glob.Names(toks) <= v.Keys
    requires Compares(Render(ps, v), Subst(toks, v), NoBraces(toks))
    ensures var all := [Hole(name)] + toks;
      Compares(Render([Placeholder(name, "")] + ps, v), Subst(all, v), NoBraces(all))
  {
    IdentifierIsName(name);
    OneTokenMore(Hole(name), toks, Placeholder(name, ""), ps, v);
  }

  lemma KnownTail(t: Tok, toks: seq<Tok>, v: Vars)
    requires AllIdentifiers([t] + toks) && Glob.Names([t] + toks) <= v.Keys
    ensures AllIdentifiers(toks) && Glob.Names(toks) <= v.Keys && (t.Hole? ==> t.name in v)
  {
    assert ([t] + toks)[1..] == toks && ([t] + toks)[0] == t;
    TailTokens([t] + toks);
    NamesOfTail([t] + toks);
  }

  lemma TailTokens(toks: seq<Tok>)
    requires toks != []
    ensures AllIdentifiers(toks) ==> AllIdentifiers(toks[1..])
    ensures NoBraces(toks) <==> NoBraces(toks[1..]) && (toks[0].Lit? ==> toks[0].c !in {'{', '}'})
  {
    if NoBraces(toks[1..]) && (toks[0].Lit? ==> toks[0].c !in {'{', '}'}) {
      forall i | 0 <= i < |toks| && toks[i].Lit? ensures toks[i].c !in {'{', '}'} {
        if i > 0 { assert toks[i] == toks[1..][i - 1]; }
      }
    }
  }

  lemma {:induction false} FormatOfBrace(s: string, v: Vars)
    requires s != "" && s[0] in {'{', '}'} && !(s[0] == '{' && 1 < Find(s, '}', 1) < |s|)
    requires AllIdentifiers(Tokenize(s)) && Glob.Names(Tokenize(s)) <= v.Keys
    ensures Compares(Format(s, v), Subst(Tokenize(s), v), false)
    decreases |s|, 0
  {
    var toks := Tokenize(s);
    if s[0] == '{' {
      LoneBrace(s);
    }
    if |s| > 1 && s[1] == s[0] {
      FindSkips(s, '}', 1);
      FindSkips(s[1..], '}', 1);
      NamesOfTail(toks);
      TailTokens(toks);
      assert toks == [Lit(s[0])] + Tokenize(s[1..]);
      assert s[1..][1..] == s[2..];
      NamesOfTail(toks[1..]);
      TailTokens(toks[1..]);
      assert toks[1..] == [Lit(s[0])] + Tokenize(s[2..]);
      FormatOfGlob(s[2..], v);
      OnePieceMore(Chars([s[0]]), Pieces(s[2..]), v);
      assert Pieces(s) == [Chars([s[0]])] + Pieces(s[2..]);
    }
  }

  lemma RaisesNotInFront(p: Piece, ps: seq<Piece>, v: Vars)
    requires Fill(p, v) != Malformed && Render(ps, v) != Malformed
    ensures Render([p] + ps, v) != Malformed
  {
    assert ([p] + ps)[1..] == ps;
  }

  /** A template of plain placeholders and no other brace never raises anything but a KeyError. */
  lemma {:induction false} CleanNeverRaises(s: string, v: Vars)
    requires AllIdentifiers(Tokenize(s)) && NoBraces(Tokenize(s))
    ensures Format(s, v) != Malformed
    decreases |s|
  {
    if s != "" {
      if s[0] == '{' && 1 < Find(s, '}', 1) < |s| {
        CleanHole(s, v);
      } else {
        TailTokens(Tokenize(s));
        CleanNeverRaises(s[1..], v);
        RaisesNotInFront(Chars([s[0]]), Pieces(s[1..]), v);
      }
    }
  }

  lemma {:induction false} CleanHole(s: string, v: Vars)
    requires s != "" && s[0] == '{' && 1 < Find(s, '}', 1) < |s|
    requires AllIdentifiers(Tokenize(s)) && NoBraces(Tokenize(s))
    ensures Format(s, v) != Malformed
    decreases |s|, 0
  {
    var name, rest := s[1..Find(s, '}', 1)], s[Find(s, '}', 1) + 1..];
    HoleTokens(s);
    HoleIsField(s);
    TailTokens([Hole(name)] + Tokenize(rest));
    assert ([Hole(name)] + Tokenize(rest))[1..] == Tokenize(rest);
    CleanNeverRaises(rest, v);
    RaisesNotInFront(Placeholder(name, ""), Pieces(rest), v);
  }

  /** Such a template gives the text with the values put in, or a KeyError if one is unknown. */
  lemma FormatOfClean(s: string, v: Vars)
    requires AllIdentifiers(Tokenize(s)) && NoBraces(Tokenize(s))
    ensures Format(s, v) ==
      if Glob.Names(Tokenize(s)) <= v.Keys then Text(Subst(Tokenize(s), v)) else MissingKey
  {
    CleanNeverRaises(s, v);
    if Glob.Names(Tokenize(s)) <= v.Keys {
      FormatOfGlob(s, v);
    } else if Format(s, v).Text? {
      TextKnowsNames(s, v);
    }
  }

  lemma {:induction false} BracelessIsQuoted(t: string)
    requires '{' !in t && '}' !in t
    ensures QuoteBraces(t) == t
  {
    if t != "" {
      BracelessIsQuoted(t[1..]);
      assert t == [t[0]] + t[1..];
    }
  }

  predicate Braceless(t: string) {
    forall i :: 0 <= i < |t| ==> t[i] !in {'{', '}'}
  }

  lemma {:induction false} BracelessSpecEnd(s: string, i: nat, j: nat)
    requires i <= j < |s| && s[j] == '}' && forall k :: i <= k < j ==> s[k] !in {'{', '}'}
    ensures SpecEnd(s, i, 1) == Some(j + 1)
    decreases j - i
  {
    if i < j { BracelessSpecEnd(s, i + 1, j); }
  }

  lemma {:induction false} FieldEndBehindName(s: string, i: nat, j: nat)
    requires i <= j < |s| && forall k :: i <= k < j ==> s[k] !in {'{', '}', ':', '!', '['}
    ensures FieldEnd(s, i) == FieldEnd(s, j)
    decreases j - i
  {
    if i < j { FieldEndBehindName(s, i + 1, j); }
  }

  lemma {:induction false} NameBeforeExtra(name: string, extra: string)
    requires forall i :: 0 <= i < |name| ==> !EndsName(name[i])
    requires extra != "" && EndsName(extra[0])
    ensures ReadField(name + extra) == Placeholder(name, extra)
  {
    if name == "" {
      assert name + extra == extra;
      assert extra[..0] == "" && extra[0..] == extra;
    } else {
      NameBeforeExtra(name[1..], extra);
      assert (name + extra)[1..] == name[1..] + extra;
      var n := NameLength(name + extra);
      assert n == 1 + NameLength(name[1..] + extra);
      assert (name[1..] + extra)[..n - 1] == name[1..];
      assert |name[1..]| == n - 1;
      assert (name + extra)[..n] == name && (name + extra)[n..] == extra;
    }
  }

  /** The field of the name in s[1..j] and the extra in s[j..close] ends behind close. */
  lemma ExtraEnds(s: string, j: nat, close: nat)
    requires 1 <= j < close < |s| && s[close] == '}'
    requires forall k :: 1 <= k < j ==> s[k] !in {'{', '}', ':', '!', '['}
    requires forall k :: j <= k < close ==> s[k] !in {'{', '}'}
    requires s[j] == ':' || (s[j] == '!' && close == j + 2)
    ensures FieldEnd(s, 1) == Some(close + 1)
  {
    FieldEndBehindName(s, 1, j);
    if s[j] == ':' {
      BracelessSpecEnd(s, j + 1, close);
    }
  }

  /** A format spec without braces, and a conversion, belong to the field they stand in. */
  lemma FieldWithExtra(name: string, extra: string, rest: string)
    requires IsIdentifier(name)
    requires extra != "" && (extra[0] == ':' || (extra[0] == '!' && |extra| == 2)) && Braceless(extra)
    ensures Pieces("{" + (name + extra) + ("}" + rest)) == [Placeholder(name, extra)] + Pieces(rest)
  {
    var field := name + extra;
    var s, j, close := "{" + field + ("}" + rest), 1 + |name|, 1 + |field|;
    SliceOfThree("{", field, "}" + rest, s);
    assert s[close..] == "}" + rest && s[close] == ("}" + rest)[0] == '}';
    assert s[close + 1..] == s[close..][1..] == rest;
    forall k | 1 <= k < close ensures s[k] == field[k - 1] {}
    ExtraEnds(s, j, close);
    FieldFound(s, name, extra, rest, close);
  }

  lemma FieldFound(s: string, name: string, extra: string, rest: string, close: nat)
    requires IsIdentifier(name) && extra != "" && EndsName(extra[0])
    requires 1 < close < |s| && s[0] == '{' && s[1] != '{'
    requires s[1..close] == name + extra && s[close + 1..] == rest && FieldEnd(s, 1) == Some(close + 1)
    ensures Pieces(s) == [Placeholder(name, extra)] + Pieces(rest)
  {
    NameBeforeExtra(name, extra);
  }

  lemma SliceOfThree(a: string, b: string, c: string, s: string)
    requires s == a + b + c
    ensures s[|a|..|a| + |b|] == b && s[|a| + |b|..] == c
  {
  }

  /** A brace on its own, and a field without a name or with a number for a name, raise. */
  lemma BadFieldsRaise(rest: string, v: Vars, digits: string)
    requires IsPositional(digits)
    ensures rest == "" || rest[0] != '}' ==> Format("}" + rest, v) == Malformed
    ensures Format("{", v) == Malformed
    ensures Format("{" + digits + "}" + rest, v) == Malformed
  {
    if rest == "" || rest[0] != '}' {
      assert Pieces("}" + rest) == [SyntaxError];
    }
    assert FieldEnd("{", 1) == None;
    var s, j := "{" + digits + "}" + rest, 1 + |digits|;
    forall k | 1 <= k < j ensures s[k] !in {'{', '}', ':', '!', '['} {
      assert s[k] == digits[k - 1];
    }
    PlainFieldEnd(s, 1, j);
    assert s[1] != '{' by {
      if digits != "" { assert s[1] == digits[0]; }
    }
    WholeName(digits);
    assert s[1..j] == digits && digits[..|digits|] == digits;
    assert Pieces(s)[0] == Placeholder(digits, digits[|digits|..]);
  }

  // ---------------------------------------------------------------------
  // The console name a socket gives, and what the name gives back

  /** A template that formats to a text has all its placeholders known. */
  lemma {:induction false} TextKnowsNames(s: string, v: Vars)
    requires AllIdentifiers(Tokenize(s)) && Format(s, v).Text?
    ensures Glob.Names(Tokenize(s)) <= v.Keys
    decreases |s|
  {
    if s != "" {
      var toks := Tokenize(s);
      NamesOfTail(toks);
      TailTokens(toks);
      if s[0] == '{' && 1 < Find(s, '}', 1) < |s| {
        HoleKnowsNames(s, v);
      } else if s[0] !in {'{', '}'} {
        assert Pieces(s)[1..] == Pieces(s[1..]);
        TextKnowsNames(s[1..], v);
      } else {
        BraceKnowsNames(s, v);
      }
    }
  }

  lemma {:induction false} HoleKnowsNames(s: string, v: Vars)
    requires s != "" && s[0] == '{' && 1 < Find(s, '}', 1) < |s|
    requires AllIdentifiers(Tokenize(s)) && Format(s, v).Text?
    ensures Glob.Names(Tokenize(s)) <= v.Keys
    decreases |s|, 0
  {
    var j, toks := Find(s, '}', 1), Tokenize(s);
    assert toks[0] == Hole(s[1..j]) && toks[0] in toks && toks[1..] == Tokenize(s[j + 1..]);
    NamesOfTail(toks);
    TailTokens(toks);
    HoleIsField(s);
    assert Pieces(s)[0] == Placeholder(s[1..j], "") && Pieces(s)[1..] == Pieces(s[j + 1..]);
    TextKnowsNames(s[j + 1..], v);
  }

  lemma {:induction false} BraceKnowsNames(s: string, v: Vars)
    requires s != "" && s[0] in {'{', '}'} && !(s[0] == '{' && 1 < Find(s, '}', 1) < |s|)
    requires AllIdentifiers(Tokenize(s)) && Format(s, v).Text?
    ensures Glob.Names(Tokenize(s)) <= v.Keys
    decreases |s|, 0
  {
    var toks := Tokenize(s);
    if s[0] == '{' {
      LoneBrace(s);
    }
    assert |s| > 1 && s[1] == s[0];
    FindSkips(s, '}', 1);
    FindSkips(s[1..], '}', 1);
    NamesOfTail(toks);
    TailTokens(toks);
    assert toks == [Lit(s[0])] + Tokenize(s[1..]);
    assert s[1..][1..] == s[2..];
    NamesOfTail(toks[1..]);
    TailTokens(toks[1..]);
    assert toks[1..] == [Lit(s[0])] + Tokenize(s[2..]);
    assert Pieces(s)[1..] == Pieces(s[2..]);
    TextKnowsNames(s[2..], v);
  }

  /**
   * A socket's captures name its console by the template; that name read back by the same
   * template gives those captures if and only if the template has no literal brace, uses
   * every capture, and no other reading of the name is longer.
   */
  lemma NameGivesCapturesBack(socket: string, template: string, path: string, name: string)
    requires Compile(socket).Some? && Compile(template).Some?
    requires MatchGlob(Compile(socket).value, path).Some?
    requires Format(template, MatchGlob(Compile(socket).value, path).value) == Text(name)
    ensures var v, toks := MatchGlob(Compile(socket).value, path).value, Tokenize(template);
      RegexMatch(Compile(template).value.regex, name) == Some(v) <==>
        && NoBraces(toks) && Glob.Names(toks) == v.Keys
        && !exists u :: Reads(toks, u, name) && Longer(toks, u, v)
  {
    var v, toks := MatchGlob(Compile(socket).value, path).value, Tokenize(template);
    RegexIsSound(Compile(socket).value.regex, path);
    TextKnowsNames(template, v);
    FormatOfGlob(template, v);
    MatchIsLongestReading(toks, v, name);
  }

  /** In particular a template of a single placeholder, the only capture, always gives it back. */
  lemma OneCaptureComesBack(socket: string, template: string, path: string, name: string, n: string)
    requires Compile(socket).Some? && Compile(template).Some?
    requires MatchGlob(Compile(socket).value, path).Some?
    requires Format(template, MatchGlob(Compile(socket).value, path).value) == Text(name)
    requires NoBraces(Tokenize(template)) && Glob.Names(Tokenize(template)) == {n}
    requires MatchGlob(Compile(socket).value, path).value.Keys == {n}
    ensures RegexMatch(Compile(template).value.regex, name) == Some(MatchGlob(Compile(socket).value, path).value)
  {
    var v, toks := MatchGlob(Compile(socket).value, path).value, Tokenize(template);
    FormatOfGlob(template, v);
    forall u | Reads(toks, u, name) ensures !Longer(toks, u, v) {
      OneHoleLength(toks, u, v, n);
    }
    NameGivesCapturesBack(socket, template, path, name);
  }

  /** Two placeholders with a character between them, and a text for each. */
  function TwoHoles(a: string, c: char, b: string): seq<Tok> {
    [Hole(a), Lit(c), Hole(b)]
  }

  lemma TwoHolesRead(a: string, c: char, b: string, x: string, y: string)
    requires a != b && x != "" && y != "" && '/' !in x && '/' !in y
    ensures Distinct(TwoHoles(a, c, b)) && Reads(TwoHoles(a, c, b), map[a := x, b := y], x + ([c] + y))
  {
    var toks, v := TwoHoles(a, c, b), map[a := x, b := y];
    assert toks[1..] == [Lit(c), Hole(b)] && toks[1..][1..] == [Hole(b)] && [Hole(b)][1..] == [];
    NamesOfTail([Hole(b)]);
    NamesOfTail(toks[1..]);
    NamesOfTail(toks);
    assert Distinct([Hole(b)]) && Distinct(toks[1..]);
    assert Subst([Hole(b)], v) == y + Subst([], v) == y;
    assert Subst(toks[1..], v) == [c] + y;
  }

  /** With two it need not: x-y-z named from x and y-z is read back as x-y and z, whatever the texts. */
  lemma TwoCapturesMayNot(a: string, c: char, b: string, x: string, y: string, z: string)
    requires a != b && c != '/' && x != "" && y != "" && z != "" && '/' !in x + y + z
    ensures var name := x + ([c] + (y + [c] + z));
      && Reads(TwoHoles(a, c, b), map[a := x, b := y + [c] + z], name)
      && RegexMatch(TwoHoles(a, c, b), name) != Some(map[a := x, b := y + [c] + z])
  {
    var toks, v, u := TwoHoles(a, c, b), map[a := x, b := y + [c] + z], map[a := x + [c] + y, b := z];
    var name := x + ([c] + (y + [c] + z));
    TwoHolesRead(a, c, b, x, y + [c] + z);
    TwoHolesRead(a, c, b, x + [c] + y, z);
    assert name == (x + [c] + y) + ([c] + z);
    assert Longer(toks, u, v);
    MatchIsLongestReading(toks, v, name);
  }
}
