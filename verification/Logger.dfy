/** JSONL log records: trimming to a size bound, and appending them whole. */
module Logger {
  import opened Prelude

  const MAX_RECORD_BYTES: nat := 65536

  type CodePoint = n: int | 0 <= n < 0x11_0000

  type Text = seq<CodePoint>

  const ELLIPSIS: CodePoint := 0x2026

  // ---------------------------------------------------------------------
  // JSON text: ASCII only, so one character is one byte of the file

  function HexDigit(n: int): char
    requires 0 <= n < 16
  {
    "0123456789abcdef"[n]
  }

  /** A \uXXXX escape. */
  function Unit(n: int): (s: string)
    requires 0 <= n < 0x1_0000
    ensures |s| == 6
  {
    ['\\', 'u', HexDigit(n / 0x1000), HexDigit(n / 0x100 % 16), HexDigit(n / 16 % 16), HexDigit(n % 16)]
  }

  /** json.dumps with ensure_ascii: printable ASCII as is, short escapes, \u escapes, surrogate pairs. */
  function Escape(c: CodePoint): (s: string)
    ensures 1 <= |s| <= 12
  {
    if c == 0x22 then "\\\""
    else if c == 0x5c then "\\\\"
    else if c == 0x0a then "\\n"
    else if c == 0x0d then "\\r"
    else if c == 0x09 then "\\t"
    else if c == 0x08 then "\\b"
    else if c == 0x0c then "\\f"
    else if 0x20 <= c < 0x7f then [c as char]
    else if c < 0x1_0000 then Unit(c)
    else Unit(0xd800 + (c - 0x1_0000) / 0x400) + Unit(0xdc00 + (c - 0x1_0000) % 0x400)
  }

  function EscapeAll(t: Text): string {
    if t == [] then "" else Escape(t[0]) + EscapeAll(t[1..])
  }

  function Quote(t: Text): string {
    "\"" + EscapeAll(t) + "\""
  }

  function Join(lines: seq<Text>): string {
    if lines == [] then ""
    else if |lines| == 1 then Quote(lines[0])
    else Quote(lines[0]) + "," + Join(lines[1..])
  }

  /**
   * A record. `head` is the JSON text of the fields before msg (ts, seq, level,
   * component, pid, logger); exc, if any, follows msg, and the mark comes last.
   */
  datatype Entry = Entry(head: string, msg: Text, exc: Option<seq<Text>>, truncated: bool)

  function Opening(head: string): string {
    "{" + head + ",\"msg\":\""
  }

  function Closing(exc: Option<seq<Text>>, truncated: bool): string {
    "\"" + (if exc.Some? then ",\"exc\":[" + Join(exc.value) + "]" else "")
    + (if truncated then ",\"truncated\":true" else "") + "}\n"
  }

  function Dump(e: Entry): string {
    Opening(e.head) + EscapeAll(e.msg) + Closing(e.exc, e.truncated)
  }

  // ---------------------------------------------------------------------
  // Trimming

  const LIMITS: seq<nat> := [4000, 1000, 200, 40]

  predicate Fits(e: Entry) {
    |Dump(e)| <= MAX_RECORD_BYTES
  }

  /** The record without its traceback, marked. */
  function Marked(e: Entry): Entry {
    e.(exc := None, truncated := true)
  }

  function Cut(e: Entry, limit: nat): Entry {
    if |e.msg| > limit then Marked(e).(msg := e.msg[..limit] + [ELLIPSIS]) else Marked(e)
  }

  /** The cut messages that are tried, longest first, leaving out limits the message does not reach. */
  function FirstCut(e: Entry, limits: seq<nat>): Entry {
    if limits == [] then Marked(e).(msg := [ELLIPSIS])
    else if |e.msg| > limits[0] && Fits(Cut(e, limits[0])) then Cut(e, limits[0])
    else FirstCut(e, limits[1..])
  }

  /** The record that is written for e. */
  function Trimmed(e: Entry): Entry {
    if Fits(e) then e
    else if e.exc.Some? && Fits(Marked(e)) then Marked(e)
    else FirstCut(e, LIMITS)
  }

  /** `_encode_entry`. The mark is new: an entry never arrives truncated. */
  method EncodeEntry(entry: Entry) returns (data: string)
    requires !entry.truncated
    ensures data == Dump(Trimmed(entry))
  {
    data := Dump(entry);
    if |data| <= MAX_RECORD_BYTES {
      return;
    }
    var trimmed := entry.(truncated := true);
    if trimmed.exc.Some? {
      trimmed := trimmed.(exc := None);
      data := Dump(trimmed);
      if |data| <= MAX_RECORD_BYTES {
        return;
      }
    }
    var msg := trimmed.msg;
    for i := 0 to |LIMITS|
      invariant trimmed.(msg := msg) == Marked(entry) && msg == entry.msg
      invariant FirstCut(entry, LIMITS) == FirstCut(entry, LIMITS[i..])
    {
      var limit := LIMITS[i];
      assert LIMITS[i..][1..] == LIMITS[i + 1..];
      if |msg| > limit {
        trimmed := trimmed.(msg := msg[..limit] + [ELLIPSIS]);
        data := Dump(trimmed);
        if |data| <= MAX_RECORD_BYTES {
          return;
        }
      }
    }
    trimmed := trimmed.(msg := [ELLIPSIS]);
    data := Dump(trimmed);
  }

  /** A record that fits is written as it is; any other is marked and loses its traceback, and no more if that helps. */
  lemma TrimmedOnlyIfNeeded(e: Entry)
    requires !e.truncated
    ensures Fits(e) ==> Trimmed(e) == e
    ensures !Fits(e) ==>
      Trimmed(e).exc.None? && Trimmed(e).truncated && Trimmed(e).head == e.head
    ensures !Fits(e) && e.exc.Some? && Fits(e.(exc := None, truncated := true)) ==>
      Trimmed(e) == e.(exc := None, truncated := true)
  {
    FirstCutMarks(e, LIMITS);
  }

  lemma {:induction false} FirstCutMarks(e: Entry, limits: seq<nat>)
    ensures FirstCut(e, limits).exc.None? && FirstCut(e, limits).truncated && FirstCut(e, limits).head == e.head
  {
    if limits != [] { FirstCutMarks(e, limits[1..]); }
  }

  /** The message cut at the i-th limit. */
  function CutAt(e: Entry, i: nat): Entry
    requires i < |LIMITS|
  {
    Entry(e.head, e.msg[..Min(LIMITS[i], |e.msg|)] + [ELLIPSIS], None, true)
  }

  predicate Usable(e: Entry, i: nat)
    requires i < |LIMITS|
  {
    |e.msg| > LIMITS[i] && Fits(CutAt(e, i))
  }

  /** A message that has to be cut is cut at the longest limit that fits; if none does, only the ellipsis is left. */
  lemma CutIsLongest(e: Entry)
    requires !Fits(e) && !(e.exc.Some? && Fits(Marked(e)))
    ensures forall i :: 0 <= i < |LIMITS| && Usable(e, i) && (forall j :: 0 <= j < i ==> !Usable(e, j)) ==>
      Trimmed(e) == CutAt(e, i)
    ensures (forall i :: 0 <= i < |LIMITS| ==> !Usable(e, i)) ==>
      Trimmed(e) == Entry(e.head, [ELLIPSIS], None, true)
  {
    forall i | 0 <= i < |LIMITS| && |e.msg| > LIMITS[i] ensures CutAt(e, i) == Cut(e, LIMITS[i]) {}
    assert LIMITS[0..] == LIMITS;
    CutFrom(e, 0);
  }

  lemma {:induction false} CutFrom(e: Entry, n: nat)
    requires n <= |LIMITS| && forall j :: 0 <= j < n ==> !Usable(e, j)
    ensures forall i :: n <= i < |LIMITS| && Usable(e, i) && (forall j :: 0 <= j < i ==> !Usable(e, j)) ==>
      FirstCut(e, LIMITS[n..]) == CutAt(e, i)
    ensures (forall i :: 0 <= i < |LIMITS| ==> !Usable(e, i)) ==>
      FirstCut(e, LIMITS[n..]) == Entry(e.head, [ELLIPSIS], None, true)
    decreases |LIMITS| - n
  {
    if n < |LIMITS| {
      assert LIMITS[n..][0] == LIMITS[n] && LIMITS[n..][1..] == LIMITS[n + 1..];
      assert |e.msg| > LIMITS[n] ==> CutAt(e, n) == Cut(e, LIMITS[n]);
      if !Usable(e, n) {
        CutFrom(e, n + 1);
      }
    }
  }

  // ---------------------------------------------------------------------
  // The escaped text is a JSON string on one line

  /** The UTF-16 code units of a character. */
  function UnitsOf(c: CodePoint): seq<int> {
    if c < 0x1_0000 then [c as int] else [0xd800 + (c - 0x1_0000) / 0x400, 0xdc00 + (c - 0x1_0000) % 0x400]
  }

  function Units(t: Text): seq<int> {
    if t == [] then [] else UnitsOf(t[0]) + Units(t[1..])
  }

  function HexValue(c: char): Option<int> {
    if '0' <= c <= '9' then Some(c as int - '0' as int)
    else if 'a' <= c <= 'f' then Some(c as int - 'a' as int + 10)
    else None
  }

  function ShortEscape(c: char): Option<int> {
    match c
    case '"' => Some(0x22)
    case '\\' => Some(0x5c)
    case 'n' => Some(0x0a)
    case 'r' => Some(0x0d)
    case 't' => Some(0x09)
    case 'b' => Some(0x08)
    case 'f' => Some(0x0c)
    case _ => None
  }

  function Cons(u: Option<int>, us: Option<seq<int>>): Option<seq<int>> {
    if u.Some? && us.Some? then Some([u.value] + us.value) else None
  }

  function FourHex(s: string): Option<int>
    requires |s| == 4
  {
    var a, b, c, d := HexValue(s[0]), HexValue(s[1]), HexValue(s[2]), HexValue(s[3]);
    if a.Some? && b.Some? && c.Some? && d.Some? then
      Some(((a.value * 16 + b.value) * 16 + c.value) * 16 + d.value)
    else None
  }

  /**
   * Reading the inside of a JSON string (section 7 of RFC 8259): None on a bare quote, a
   * control character or a bad escape.
   */
  function Unescape(s: string): Option<seq<int>> {
    if s == "" then Some([])
    else if s[0] != '\\' then
      if s[0] == '"' || (s[0] as int) < 0x20 then None else Cons(Some(s[0] as int), Unescape(s[1..]))
    else if |s| < 2 then None
    else if s[1] != 'u' then Cons(ShortEscape(s[1]), Unescape(s[2..]))
    else if |s| < 6 then None
    else Cons(FourHex(s[2..6]), Unescape(s[6..]))
  }

  lemma HexReadsBack(n: int)
    requires 0 <= n < 16
    ensures HexValue(HexDigit(n)) == Some(n) && 0x20 <= HexDigit(n) as int < 0x7f
  {
  }

  lemma FourHexReadsBack(n: int)
    requires 0 <= n < 0x1_0000
    ensures FourHex(Unit(n)[2..]) == Some(n)
  {
    var a, b, c, d := n / 0x1000, n / 0x100 % 16, n / 16 % 16, n % 16;
    HexReadsBack(a);
    HexReadsBack(b);
    HexReadsBack(c);
    HexReadsBack(d);
    assert Unit(n)[2..] == [HexDigit(a), HexDigit(b), HexDigit(c), HexDigit(d)];
    DigitsAddUp(n);
  }

  lemma DigitsAddUp(n: int)
    requires 0 <= n < 0x1_0000
    ensures ((n / 0x1000 * 16 + n / 0x100 % 16) * 16 + n / 16 % 16) * 16 + n % 16 == n
  {
    var p, q := n / 16, n / 0x100;
    assert q == p / 16 && n / 0x1000 == q / 16;
  }

  lemma UnitReadsBack(n: int, rest: string)
    requires 0 <= n < 0x1_0000
    ensures Unescape(Unit(n) + rest) == Cons(Some(n), Unescape(rest))
  {
    FourHexReadsBack(n);
    EscapedUnit(Unit(n), rest);
  }

  lemma EscapedUnit(unit: string, rest: string)
    requires |unit| == 6 && unit[0] == '\\' && unit[1] == 'u'
    ensures Unescape(unit + rest) == Cons(FourHex(unit[2..]), Unescape(rest))
  {
    var s := unit + rest;
    assert s[6..] == rest && s[2..6] == unit[2..];
  }

  function Prepend(front: seq<int>, us: Option<seq<int>>): Option<seq<int>> {
    if us.Some? then Some(front + us.value) else None
  }

  lemma ConsIsPrepend(u: int, us: Option<seq<int>>)
    ensures Cons(Some(u), us) == Prepend([u], us)
  {
  }

  lemma PrependTwice(a: int, b: int, us: Option<seq<int>>)
    ensures Prepend([a], Prepend([b], us)) == Prepend([a, b], us)
  {
    if us.Some? { assert [a] + ([b] + us.value) == [a, b] + us.value; }
  }

  lemma PairReadsBack(hi: int, lo: int, rest: string)
    requires 0 <= hi < 0x1_0000 && 0 <= lo < 0x1_0000
    ensures Unescape(Unit(hi) + Unit(lo) + rest) == Prepend([hi, lo], Unescape(rest))
  {
    assert Unit(hi) + Unit(lo) + rest == Unit(hi) + (Unit(lo) + rest);
    UnitReadsBack(hi, Unit(lo) + rest);
    UnitReadsBack(lo, rest);
    ConsIsPrepend(lo, Unescape(rest));
    ConsIsPrepend(hi, Prepend([lo], Unescape(rest)));
    PrependTwice(hi, lo, Unescape(rest));
  }

  lemma ShortReadsBack(escape: string, rest: string)
    requires |escape| == 2 && escape[0] == '\\' && escape[1] != 'u'
    ensures Unescape(escape + rest) == Cons(ShortEscape(escape[1]), Unescape(rest))
  {
    assert (escape + rest)[2..] == rest;
  }

  lemma PlainReadsBack(c: char, rest: string)
    requires c != '\\' && c != '"' && c as int >= 0x20
    ensures Unescape([c] + rest) == Cons(Some(c as int), Unescape(rest))
  {
    assert ([c] + rest)[1..] == rest;
  }

  lemma EscapeReadsBack(c: CodePoint, rest: string)
    ensures Unescape(Escape(c) + rest) == Prepend(UnitsOf(c), Unescape(rest))
  {
    if c >= 0x1_0000 {
      PairReadsBack(0xd800 + (c - 0x1_0000) / 0x400, 0xdc00 + (c - 0x1_0000) % 0x400, rest);
    } else {
      OneReadsBack(c, rest);
      ConsIsPrepend(c, Unescape(rest));
    }
  }

  lemma OneReadsBack(c: CodePoint, rest: string)
    requires c < 0x1_0000
    ensures Unescape(Escape(c) + rest) == Cons(Some(c as int), Unescape(rest))
  {
    if |Escape(c)| == 6 {
      UnitReadsBack(c, rest);
    } else if |Escape(c)| == 2 {
      ShortReadsBack(Escape(c), rest);
    } else {
      PlainReadsBack(c as char, rest);
    }
  }

  /** Reading the escaped message back gives the message: it is valid JSON and nothing is lost. */
  lemma {:induction false} MessageReadsBack(t: Text)
    ensures Unescape(EscapeAll(t)) == Some(Units(t))
  {
    if t != [] {
      EscapeReadsBack(t[0], EscapeAll(t[1..]));
      MessageReadsBack(t[1..]);
    }
  }

  predicate Visible(s: string) {
    forall i :: 0 <= i < |s| ==> 0x20 <= s[i] as int < 0x7f
  }

  lemma UnitIsVisible(n: int)
    requires 0 <= n < 0x1_0000
    ensures Visible(Unit(n))
  {
    HexReadsBack(n / 0x1000);
    HexReadsBack(n / 0x100 % 16);
    HexReadsBack(n / 16 % 16);
    HexReadsBack(n % 16);
  }

  lemma BothVisible(a: string, b: string)
    requires Visible(a) && Visible(b)
    ensures Visible(a + b)
  {
  }

  lemma EscapeIsVisible(c: CodePoint)
    ensures Visible(Escape(c))
  {
    if c >= 0x1_0000 {
      var hi, lo := 0xd800 + (c - 0x1_0000) / 0x400, 0xdc00 + (c - 0x1_0000) % 0x400;
      UnitIsVisible(hi);
      UnitIsVisible(lo);
      BothVisible(Unit(hi), Unit(lo));
      assert Escape(c) == Unit(hi) + Unit(lo);
    } else if |Escape(c)| == 6 {
      UnitIsVisible(c);
      assert Escape(c) == Unit(c);
    } else {
      ShortIsVisible(c);
    }
  }

  lemma ShortIsVisible(c: CodePoint)
    requires c < 0x1_0000 && |Escape(c)| < 6
    ensures Visible(Escape(c))
  {
    assert |Escape(c)| == 2 ==> Escape(c)[0] == '\\' && 0x20 <= Escape(c)[1] as int < 0x7f;
  }

  lemma {:induction false} EscapeAllIsVisible(t: Text)
    ensures Visible(EscapeAll(t))
  {
    if t != [] {
      EscapeIsVisible(t[0]);
      EscapeAllIsVisible(t[1..]);
    }
  }

  lemma {:induction false} JoinIsVisible(lines: seq<Text>)
    ensures Visible(Join(lines))
  {
    if lines != [] {
      EscapeAllIsVisible(lines[0]);
      JoinIsVisible(lines[1..]);
    }
  }

  /** The end of a record without its newline. */
  function Ending(exc: Option<seq<Text>>, truncated: bool): string {
    "\"" + (if exc.Some? then ",\"exc\":[" + Join(exc.value) + "]" else "")
    + (if truncated then ",\"truncated\":true" else "") + "}"
  }

  lemma EndingIsVisible(exc: Option<seq<Text>>, truncated: bool)
    ensures Visible(Ending(exc, truncated)) && Closing(exc, truncated) == Ending(exc, truncated) + "\n"
  {
    if exc.Some? { JoinIsVisible(exc.value); }
    var middle := "\"" + (if exc.Some? then ",\"exc\":[" + Join(exc.value) + "]" else "");
    var mark := if truncated then ",\"truncated\":true" else "";
    assert Visible(middle) && Visible(mark);
    assert middle + mark + "}\n" == (middle + mark + "}") + "\n";
  }

  /** A record is one line: its only newline is its last character, whatever the message and the traceback hold. */
  lemma RecordIsOneLine(e: Entry)
    requires Visible(e.head)
    ensures exists line :: Dump(e) == line + "\n" && Visible(line)
  {
    EscapeAllIsVisible(e.msg);
    EndingIsVisible(e.exc, e.truncated);
    var line := Opening(e.head) + EscapeAll(e.msg) + Ending(e.exc, e.truncated);
    assert Visible(Opening(e.head));
    assert Visible(line) && Dump(e) == line + "\n";
  }

  // ---------------------------------------------------------------------
  // The size bound

  /** Bytes of the marked record apart from the message's own text. */
  function Overhead(e: Entry): nat {
    |Opening(e.head)| + |Closing(None, true)|
  }

  lemma {:induction false} EscapeAllIsBounded(t: Text)
    ensures |t| <= |EscapeAll(t)| <= 12 * |t|
  {
    if t != [] { EscapeAllIsBounded(t[1..]); }
  }

  lemma {:induction false} EscapeAllSnoc(t: Text, c: CodePoint)
    ensures |EscapeAll(t + [c])| == |EscapeAll(t)| + |Escape(c)|
  {
    if t == [] {
      assert t + [c] == [c] && EscapeAll([c]) == Escape(c) + EscapeAll([]);
    } else {
      assert (t + [c])[1..] == t[1..] + [c];
      EscapeAllSnoc(t[1..], c);
    }
  }

  lemma MarkedLength(e: Entry, t: Text)
    ensures |Dump(Marked(e).(msg := t))| == Overhead(e) + |EscapeAll(t)|
  {
  }

  lemma CutLength(e: Entry, limit: nat)
    requires |e.msg| > limit
    ensures |Dump(Cut(e, limit))| <= Overhead(e) + 12 * limit + 6
  {
    MarkedLength(e, e.msg[..limit] + [ELLIPSIS]);
    EscapeAllSnoc(e.msg[..limit], ELLIPSIS);
    EscapeAllIsBounded(e.msg[..limit]);
  }

  lemma {:induction false} FirstCutFits(e: Entry, limits: seq<nat>)
    requires Overhead(e) + 6 <= MAX_RECORD_BYTES
    ensures Fits(FirstCut(e, limits))
  {
    if limits == [] {
      MarkedLength(e, [ELLIPSIS]);
      EscapeAllSnoc([], ELLIPSIS);
      assert [] + [ELLIPSIS] == [ELLIPSIS];
    } else {
      FirstCutFits(e, limits[1..]);
    }
  }

  /** Every record fits as soon as its other fields leave room for one ellipsis. */
  lemma RecordFits(e: Entry)
    requires Overhead(e) + 6 <= MAX_RECORD_BYTES
    ensures |Dump(Trimmed(e))| <= MAX_RECORD_BYTES
  {
    FirstCutFits(e, LIMITS);
  }

  lemma ShortMessageFits(e: Entry)
    requires Overhead(e) <= 17530 && |e.msg| <= 4000
    ensures Fits(Marked(e)) && (e.exc.None? ==> Fits(e))
  {
    MarkedLength(e, e.msg);
    EscapeAllIsBounded(e.msg);
    assert Marked(e).(msg := e.msg) == Marked(e);
  }

  /** With other fields of at most 17530 bytes the first 4000 characters of the message always survive. */
  lemma RecordKeepsMessage(e: Entry)
    requires Overhead(e) <= 17530
    ensures |Dump(Trimmed(e))| <= MAX_RECORD_BYTES
    ensures var n := Min(|e.msg|, 4000); |Trimmed(e).msg| >= n && Trimmed(e).msg[..n] == e.msg[..n]
    ensures Trimmed(e).msg != e.msg ==> |e.msg| > 4000 && Trimmed(e).truncated
  {
    RecordFits(e);
    if |e.msg| > 4000 {
      CutLength(e, 4000);
    } else {
      ShortMessageFits(e);
    }
  }

  const ASTRAL: CodePoint := 0x1_0000

  lemma {:induction false} AstralLength(t: Text)
    requires forall i :: 0 <= i < |t| ==> t[i] == ASTRAL
    ensures |EscapeAll(t)| == 12 * |t|
  {
    if t != [] {
      AstralLength(t[1..]);
      assert |Escape(t[0])| == 12;
    }
  }

  lemma UnmarkedLength(e: Entry)
    requires e.exc.None? && !e.truncated
    ensures |Dump(e)| + 17 == Overhead(e) + |EscapeAll(e.msg)|
  {
    assert |",\"truncated\":true"| == 17;
  }

  /** With any more bytes of other fields, a message of astral characters can be cut to its first 1000. */
  lemma BoundIsTight(e: Entry)
    requires Overhead(e) >= 17531 && e.exc.None? && !e.truncated
    requires |e.msg| >= 4002 && forall i :: 0 <= i < |e.msg| ==> e.msg[i] == ASTRAL
    ensures |Trimmed(e).msg| <= 1001
  {
    AstralDoesNotFit(e);
    AstralCutDoesNotFit(e);
    LongestCutSkipped(e);
  }

  lemma AstralDoesNotFit(e: Entry)
    requires Overhead(e) >= 17531 && e.exc.None? && !e.truncated
    requires |e.msg| >= 4002 && forall i :: 0 <= i < |e.msg| ==> e.msg[i] == ASTRAL
    ensures !Fits(e)
  {
    AstralLength(e.msg);
    UnmarkedLength(e);
  }

  lemma AstralCutDoesNotFit(e: Entry)
    requires Overhead(e) >= 17531
    requires |e.msg| > 4000 && forall i :: 0 <= i < |e.msg| ==> e.msg[i] == ASTRAL
    ensures !Fits(Cut(e, 4000))
  {
    var kept := e.msg[..4000];
    AstralLength(kept);
    EscapeAllSnoc(kept, ELLIPSIS);
    MarkedLength(e, kept + [ELLIPSIS]);
    assert |Escape(ELLIPSIS)| == 6 && Cut(e, 4000) == Marked(e).(msg := kept + [ELLIPSIS]);
    assert |Dump(Cut(e, 4000))| == Overhead(e) + 12 * 4000 + 6;
  }

  lemma LongestCutSkipped(e: Entry)
    requires e.exc.None? && !Fits(e) && !Fits(Cut(e, 4000))
    ensures |Trimmed(e).msg| <= 1001
  {
    assert LIMITS[0] == 4000;
    ShorterCuts(e, LIMITS[1..]);
  }

  lemma {:induction false} ShorterCuts(e: Entry, limits: seq<nat>)
    requires forall i :: 0 <= i < |limits| ==> limits[i] <= 1000
    ensures |FirstCut(e, limits).msg| <= 1001
  {
    if limits != [] { ShorterCuts(e, limits[1..]); }
  }

  // ---------------------------------------------------------------------
  // Appending

  datatype WriteOutcome = Wrote(n: nat) | Interrupted | Failed

  datatype WriteResult = Complete | Error | StillWriting

  class LogFile {
    var content: string

    constructor ()
      ensures content == ""
    {
      content := "";
    }

    /** One os.write() on the O_APPEND descriptor: as many bytes as it takes, none, or an exception. */
    method Write(data: string, o: WriteOutcome) returns (n: nat)
      modifies this
      ensures n <= |data| && content == old(content) + data[..n]
      ensures n == if o.Wrote? then Min(o.n, |data|) else 0
    {
      n := if o.Wrote? then (if o.n <= |data| then o.n else |data|) else 0;
      content := content + data[..n];
    }
  }

  /** How many bytes a schedule of outcomes has put into the file; a failure ends it. */
  function Written(size: nat, schedule: seq<WriteOutcome>): nat {
    if size == 0 || schedule == [] || schedule[0].Failed? then 0
    else
      var n := if schedule[0].Wrote? then Min(schedule[0].n, size) else 0;
      n + Written(size - n, schedule[1..])
  }

  /**
   * `_write_all`. `schedule` is what successive write() calls do. Whatever it is,
   * the file grows by a prefix of the data, with nothing repeated and nothing
   * skipped, and by all of it when the loop ends without an exception.
   */
  method WriteAll(file: LogFile, data: string, schedule: seq<WriteOutcome>) returns (r: WriteResult)
    modifies file
    ensures Written(|data|, schedule) <= |data|
    ensures file.content == old(file.content) + data[..Written(|data|, schedule)]
    ensures r == Complete <==> Written(|data|, schedule) == |data|
  {
    var offset, k := 0, 0;
    while offset < |data| && k < |schedule|
      invariant 0 <= offset <= |data| && 0 <= k <= |schedule|
      invariant file.content == old(file.content) + data[..offset]
      invariant Written(|data|, schedule) == offset + Written(|data| - offset, schedule[k..])
      decreases |schedule| - k
    {
      assert schedule[k..][1..] == schedule[k + 1..];
      if schedule[k].Failed? {
        return Error;
      }
      if schedule[k].Wrote? {
        var n := file.Write(data[offset..], schedule[k]);
        assert data[..offset] + data[offset..][..n] == data[..offset + n];
        offset := offset + n;
      }
      k := k + 1;
    }
    r := if offset == |data| then Complete else StillWriting;
  }

  /** The handler of one component: its file and its record counter. */
  class AppendOnlyHandler {
    const file: LogFile
    var next: nat

    constructor (file: LogFile)
      ensures this.file == file && next == 0
    {
      this.file := file;
      next := 0;
    }

    /** `emit`: the counter moves on even when the write fails. `head` renders the leading fields. */
    method Emit(head: nat -> string, msg: Text, exc: Option<seq<Text>>, schedule: seq<WriteOutcome>)
      returns (r: WriteResult)
      modifies this, file
      ensures next == old(next) + 1
      ensures var data := Dump(Trimmed(Entry(head(old(next)), msg, exc, false)));
        && Written(|data|, schedule) <= |data|
        && file.content == old(file.content) + data[..Written(|data|, schedule)]
        && (r == Complete <==> file.content == old(file.content) + data)
    {
      var entry := Entry(head(next), msg, exc, false);
      next := next + 1;
      var data := EncodeEntry(entry);
      r := WriteAll(file, data, schedule);
      if r == Complete {
        assert data[..|data|] == data;
      }
    }
  }
}
