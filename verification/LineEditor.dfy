/** The prompt's line editor (`sock_readline`) and the terminal that shows its echo. */
module LineEditor {
  import opened Prelude

  const CR: byte := 0x0d
  const LF: byte := 0x0a
  const BACKSPACE: byte := 0x08
  const DELETE: byte := 0x7f
  const INTERRUPT: byte := 0x03
  const SPACE: byte := 0x20

  const CRLF: seq<byte> := [CR, LF]
  const RUBOUT: seq<byte> := [BACKSPACE, SPACE, BACKSPACE]

  /** The line being typed, the line handed to the caller, or no line at all. */
  datatype Editor = Editing(buf: seq<byte>) | Submitted(line: seq<byte>) | Aborted

  predicate IsErase(b: byte) { b == DELETE || b == BACKSPACE }

  predicate IsEnter(b: byte) { b == CR || b == LF }

  /** The pure edit: what one key does to the line. */
  function Press(e: Editor, b: byte, maxLen: nat): Editor {
    if !e.Editing? then e
    else if IsEnter(b) then Submitted(e.buf)
    else if IsErase(b) then Editing(if e.buf == [] then [] else e.buf[..|e.buf| - 1])
    else if b == INTERRUPT then Aborted
    else if |e.buf| < maxLen then Editing(e.buf + [b])
    else e
  }

  /** What one key sends back to the client when echo is on. */
  function Echo(e: Editor, b: byte, maxLen: nat): seq<byte> {
    if !e.Editing? then []
    else if IsEnter(b) then CRLF
    else if IsErase(b) then (if e.buf == [] then [] else RUBOUT)
    else if b == INTERRUPT || |e.buf| >= maxLen then []
    else [b]
  }

  const EMPTY := Editing([])

  /** The editor after a whole stream of keys. */
  function Edit(e: Editor, input: seq<byte>, maxLen: nat): Editor
    decreases |input|
  {
    if input == [] then e else Edit(Press(e, input[0], maxLen), input[1..], maxLen)
  }

  /** Everything echoed along the way. */
  function EchoOf(e: Editor, input: seq<byte>, maxLen: nat): seq<byte>
    decreases |input|
  {
    if input == [] then []
    else Echo(e, input[0], maxLen) + EchoOf(Press(e, input[0], maxLen), input[1..], maxLen)
  }

  lemma {:induction false} LineIsBounded(e: Editor, input: seq<byte>, maxLen: nat)
    requires e.Editing? && |e.buf| <= maxLen
    ensures var f := Edit(e, input, maxLen);
      (f.Editing? ==> |f.buf| <= maxLen) && (f.Submitted? ==> |f.line| <= maxLen)
    decreases |input|
  {
    if input != [] {
      var f := Press(e, input[0], maxLen);
      if f.Editing? {
        LineIsBounded(f, input[1..], maxLen);
      } else {
        FinishedStaysFinished(f, input[1..], maxLen);
      }
    }
  }

  lemma {:induction false} FinishedStaysFinished(e: Editor, input: seq<byte>, maxLen: nat)
    requires !e.Editing?
    ensures Edit(e, input, maxLen) == e && EchoOf(e, input, maxLen) == []
    decreases |input|
  {
    if input != [] { FinishedStaysFinished(e, input[1..], maxLen); }
  }

  lemma {:induction false} EditAppend(e: Editor, s: seq<byte>, t: seq<byte>, maxLen: nat)
    ensures Edit(e, s + t, maxLen) == Edit(Edit(e, s, maxLen), t, maxLen)
    decreases |s|
  {
    if s == [] {
      assert s + t == t;
    } else {
      EditAppend(Press(e, s[0], maxLen), s[1..], t, maxLen);
      assert (s + t)[1..] == s[1..] + t;
    }
  }

  lemma {:induction false} EchoAppend(e: Editor, s: seq<byte>, t: seq<byte>, maxLen: nat)
    ensures EchoOf(e, s + t, maxLen) == EchoOf(e, s, maxLen) + EchoOf(Edit(e, s, maxLen), t, maxLen)
    decreases |s|
  {
    if s == [] {
      assert s + t == t;
    } else {
      var f := Press(e, s[0], maxLen);
      EchoAppend(f, s[1..], t, maxLen);
      assert (s + t)[1..] == s[1..] + t;
      assert Edit(e, s, maxLen) == Edit(f, s[1..], maxLen);
    }
  }

  lemma KeyByKey(e: Editor, input: seq<byte>, b: byte, maxLen: nat)
    ensures Edit(e, input + [b], maxLen) == Press(Edit(e, input, maxLen), b, maxLen)
    ensures EchoOf(e, input + [b], maxLen) == EchoOf(e, input, maxLen) + Echo(Edit(e, input, maxLen), b, maxLen)
  {
    EditAppend(e, input, [b], maxLen);
    EchoAppend(e, input, [b], maxLen);
    assert [b][1..] == [];
  }

  /** What follows the end of the line changes neither the line nor the echo. */
  lemma RestIsIgnored(input: seq<byte>, used: nat, maxLen: nat)
    requires used <= |input| && (used < |input| ==> !Edit(EMPTY, input[..used], maxLen).Editing?)
    ensures Edit(EMPTY, input, maxLen) == Edit(EMPTY, input[..used], maxLen)
    ensures EchoOf(EMPTY, input, maxLen) == EchoOf(EMPTY, input[..used], maxLen)
  {
    assert input == input[..used] + input[used..];
    EditAppend(EMPTY, input[..used], input[used..], maxLen);
    EchoAppend(EMPTY, input[..used], input[used..], maxLen);
    if used < |input| {
      FinishedStaysFinished(Edit(EMPTY, input[..used], maxLen), input[used..], maxLen);
    }
  }

  /** One turn of the loop: the key's effect on the line, and what goes back to the client. */
  method OneKey(buf: seq<byte>, b: byte, echo: bool, maxLen: nat) returns (e: Editor, out: seq<byte>)
    ensures e == Press(Editing(buf), b, maxLen)
    ensures out == if echo then Echo(Editing(buf), b, maxLen) else []
  {
    e, out := Editing(buf), [];
    if IsEnter(b) {
      return Submitted(buf), if echo then CRLF else [];
    }
    if IsErase(b) {
      if buf != [] {
        e := Editing(buf[..|buf| - 1]);
        if echo { out := RUBOUT; }
      }
      return;
    }
    if b == INTERRUPT {
      return Aborted, [];
    }
    if |buf| < maxLen {
      e := Editing(buf + [b]);
      if echo { out := [b]; }
    }
  }

  // ---------------------------------------------------------------------
  // What is typed is what is read

  /** A key that is neither Enter nor an erase nor Ctrl-C. */
  predicate IsText(b: byte) {
    !IsEnter(b) && !IsErase(b) && b != INTERRUPT
  }

  predicate AllText(text: seq<byte>) {
    forall i :: 0 <= i < |text| ==> IsText(text[i])
  }

  /** Text goes into the line, and back to the client, as it is typed, up to the length limit. */
  lemma {:induction false} TextIsTyped(e: Editor, text: seq<byte>, maxLen: nat)
    requires e.Editing? && |e.buf| <= maxLen && AllText(text)
    ensures var room := Min(maxLen - |e.buf|, |text|);
      Edit(e, text, maxLen) == Editing(e.buf + text[..room]) && EchoOf(e, text, maxLen) == text[..room]
    decreases |text|
  {
    if text == [] {
      assert e.buf + text[..0] == e.buf;
    } else {
      var f := Press(e, text[0], maxLen);
      TextIsTyped(f, text[1..], maxLen);
      if |e.buf| < maxLen {
        var room := Min(maxLen - |e.buf|, |text|);
        assert text[..room] == [text[0]] + text[1..][..room - 1];
        assert e.buf + text[..room] == (e.buf + [text[0]]) + text[1..][..room - 1];
      } else {
        assert text[..0] == [] && text[1..][..0] == [] && e.buf + [] == e.buf;
      }
    }
  }

  /** A line that fits, typed and ended by Enter, is the line submitted; the client sees it and a line break. */
  lemma EnterSubmits(text: seq<byte>, enter: byte, maxLen: nat)
    requires AllText(text) && |text| <= maxLen && IsEnter(enter)
    ensures Edit(EMPTY, text + [enter], maxLen) == Submitted(text)
    ensures EchoOf(EMPTY, text + [enter], maxLen) == text + CRLF
  {
    TextIsTyped(EMPTY, text, maxLen);
    assert text[..|text|] == text && [] + text == text;
    KeyByKey(EMPTY, text, enter, maxLen);
  }

  /** An erase takes back the key before it, on the line and on the screen. */
  lemma EraseUndoes(e: Editor, b: byte, erase: byte, maxLen: nat)
    requires e.Editing? && |e.buf| < maxLen && IsText(b) && IsErase(erase)
    ensures Edit(e, [b, erase], maxLen) == e && EchoOf(e, [b, erase], maxLen) == [b] + RUBOUT
    ensures Edit(EMPTY, [erase], maxLen) == EMPTY && EchoOf(EMPTY, [erase], maxLen) == []
  {
    assert [b, erase] == [] + [b] + [erase] && [] + [erase] == [erase];
    KeyByKey(e, [], b, maxLen);
    KeyByKey(e, [] + [b], erase, maxLen);
    KeyByKey(EMPTY, [], erase, maxLen);
    assert (e.buf + [b])[..|e.buf|] == e.buf;
  }

  /** A full line takes no more text; Ctrl-C gives the line up at any time. Neither is echoed. */
  lemma FullOrInterrupted(e: Editor, b: byte, maxLen: nat)
    requires e.Editing?
    ensures |e.buf| >= maxLen && IsText(b) ==> Press(e, b, maxLen) == e && Echo(e, b, maxLen) == []
    ensures Press(e, INTERRUPT, maxLen) == Aborted && Echo(e, INTERRUPT, maxLen) == []
  {
  }

  // ---------------------------------------------------------------------
  // The loop on a socket that can fail

  /** What recv(1) does; a timeout is an OSError like any other. */
  datatype Recv = Got(b: byte) | Closed | TimedOut | Failed

  /** What sendall() does with an echo, if there is one to send. */
  datatype Send = Sent | SendTimedOut | SendFailed

  datatype Turn = Turn(recv: Recv, send: Send)

  /** The line, None, a TimeoutError or another exception for the caller, or still waiting for more turns. */
  datatype Reading = Line(line: seq<byte>) | NoLine | TimeoutRaised | ErrorRaised | Waiting

  predicate Raised(r: Reading) {
    r.TimeoutRaised? || r.ErrorRaised?
  }

  /** The keys the client gets through before recv() first gives anything else. */
  function Keys(turns: seq<Turn>): seq<byte> {
    if turns == [] || !turns[0].recv.Got? then [] else [turns[0].recv.b] + Keys(turns[1..])
  }

  function EchoSent(e: Editor, b: byte, echo: bool, maxLen: nat): seq<byte> {
    if echo then Echo(e, b, maxLen) else []
  }

  /** What the read comes to from this editor on. */
  function ReadFrom(e: Editor, turns: seq<Turn>, echo: bool, maxLen: nat): Reading
    decreases |turns|
  {
    if e.Submitted? then Line(e.line)
    else if e.Aborted? then NoLine
    else if turns == [] then Waiting
    else if !turns[0].recv.Got? then NoLine
    else
      var b := turns[0].recv.b;
      if EchoSent(e, b, echo, maxLen) == [] || turns[0].send.Sent? then
        ReadFrom(Press(e, b, maxLen), turns[1..], echo, maxLen)
      else if turns[0].send.SendTimedOut? then TimeoutRaised
      else ErrorRaised
  }

  /** Unless an echo fails, the line is the one the pure edit of the keys gives. */
  lemma {:induction false} ReadingIsEdit(e: Editor, turns: seq<Turn>, echo: bool, maxLen: nat)
    requires !Raised(ReadFrom(e, turns, echo, maxLen))
    ensures var r, f := ReadFrom(e, turns, echo, maxLen), Edit(e, Keys(turns), maxLen);
      && (r.Line? <==> f.Submitted?) && (r.Line? ==> r.line == f.line)
      && (r.Waiting? ==> f.Editing? && |Keys(turns)| == |turns|)
    decreases |turns|
  {
    if !e.Editing? {
      FinishedStaysFinished(e, Keys(turns), maxLen);
    } else if turns != [] && turns[0].recv.Got? {
      assert Keys(turns)[1..] == Keys(turns[1..]);
      ReadingIsEdit(Press(e, turns[0].recv.b, maxLen), turns[1..], echo, maxLen);
    }
  }

  lemma {:induction false} KeysInTwoParts(turns: seq<Turn>, n: nat)
    requires n <= |turns| && forall i :: 0 <= i < n ==> turns[i].recv.Got?
    ensures Keys(turns) == Keys(turns[..n]) + Keys(turns[n..]) && |Keys(turns[..n])| == n
  {
    if n > 0 {
      assert turns[..n][1..] == turns[1..][..n - 1] && turns[1..][n - 1..] == turns[n..];
      KeysInTwoParts(turns[1..], n - 1);
    }
  }

  /** Where the loop is after n turns: all gave keys, and these are the editor and the echo they lead to. */
  ghost predicate AfterTurns(turns: seq<Turn>, n: nat, e: Editor, echoed: seq<byte>, echo: bool, maxLen: nat) {
    && n <= |turns| && (forall i :: 0 <= i < n ==> turns[i].recv.Got?)
    && ReadFrom(EMPTY, turns, echo, maxLen) == ReadFrom(e, turns[n..], echo, maxLen)
    && Edit(EMPTY, Keys(turns[..n]), maxLen) == e
    && echoed == (if echo then EchoOf(EMPTY, Keys(turns[..n]), maxLen) else [])
  }

  /** The outcome in terms of the pure edit, unless an echo failed. */
  ghost predicate IsEditOf(r: Reading, echoed: seq<byte>, turns: seq<Turn>, echo: bool, maxLen: nat) {
    var f := Edit(EMPTY, Keys(turns), maxLen);
    && (r.Line? <==> f.Submitted?) && (r.Line? ==> r.line == f.line && |r.line| <= maxLen)
    && echoed == (if echo then EchoOf(EMPTY, Keys(turns), maxLen) else [])
  }

  lemma OneTurnMore(turns: seq<Turn>, n: nat, e: Editor, echoed: seq<byte>, echo: bool, maxLen: nat)
    requires AfterTurns(turns, n, e, echoed, echo, maxLen) && n < |turns| && e.Editing? && turns[n].recv.Got?
    ensures var out := EchoSent(e, turns[n].recv.b, echo, maxLen);
      if out == [] || turns[n].send.Sent?
      then AfterTurns(turns, n + 1, Press(e, turns[n].recv.b, maxLen), echoed + out, echo, maxLen)
      else ReadFrom(EMPTY, turns, echo, maxLen) == if turns[n].send.SendTimedOut? then TimeoutRaised else ErrorRaised
  {
    assert turns[n..][0] == turns[n] && turns[n..][1..] == turns[n + 1..];
    NextKey(turns, n);
    KeyByKey(EMPTY, Keys(turns[..n]), turns[n].recv.b, maxLen);
  }

  lemma LastTurn(turns: seq<Turn>, n: nat, e: Editor, echoed: seq<byte>, echo: bool, maxLen: nat)
    requires AfterTurns(turns, n, e, echoed, echo, maxLen)
    requires e.Editing? && n < |turns| ==> !turns[n].recv.Got?
    ensures IsEditOf(ReadFrom(EMPTY, turns, echo, maxLen), echoed, turns, echo, maxLen)
    ensures !Raised(ReadFrom(EMPTY, turns, echo, maxLen))
    ensures ReadFrom(EMPTY, turns, echo, maxLen) ==
      if e.Submitted? then Line(e.line) else if e.Aborted? || n < |turns| then NoLine else Waiting
  {
    LineIsBounded(EMPTY, Keys(turns), maxLen);
    ReadingIsEdit(EMPTY, turns, echo, maxLen);
    KeysInTwoParts(turns, n);
    if e.Editing? {
      assert n < |turns| ==> turns[n..][0] == turns[n];
      assert Keys(turns[n..]) == [] && Keys(turns) == Keys(turns[..n]);
    } else {
      assert Keys(turns)[..n] == Keys(turns[..n]);
      RestIsIgnored(Keys(turns), n, maxLen);
    }
  }

  /**
   * `sock_readline`. For any schedule of receives and sends: the outcome of the
   * reference; and if no echo fails, the line and the echo of the pure edit of the
   * keys received, of which only the first `used` turns are read.
   */
  method ReadLine(turns: seq<Turn>, echo: bool, maxLen: nat := 256)
    returns (r: Reading, echoed: seq<byte>, used: nat)
    ensures r == ReadFrom(EMPTY, turns, echo, maxLen)
    ensures !Raised(r) ==> IsEditOf(r, echoed, turns, echo, maxLen)
    ensures used <= |turns|
    ensures r.Line? ==> used > 0 && turns[used - 1].recv.Got? && IsEnter(turns[used - 1].recv.b)
  {
    var e := EMPTY;
    echoed, used := [], 0;
    while e.Editing? && used < |turns|
      invariant AfterTurns(turns, used, e, echoed, echo, maxLen)
      invariant e.Submitted? ==> used > 0 && IsEnter(turns[used - 1].recv.b)
      decreases |turns| - used
    {
      if !turns[used].recv.Got? {
        LastTurn(turns, used, e, echoed, echo, maxLen);
        r, used := NoLine, used + 1;
        return;
      }
      OneTurnMore(turns, used, e, echoed, echo, maxLen);
      var out;
      e, out := OneKey(e.buf, turns[used].recv.b, echo, maxLen);
      if out != [] && !turns[used].send.Sent? {
        r := if turns[used].send.SendTimedOut? then TimeoutRaised else ErrorRaised;
        return;
      }
      echoed := echoed + out;
      used := used + 1;
    }
    LastTurn(turns, used, e, echoed, echo, maxLen);
    r := if e.Submitted? then Line(e.line) else if e.Aborted? then NoLine else Waiting;
  }

  lemma NextKey(turns: seq<Turn>, n: nat)
    requires n < |turns| && forall i :: 0 <= i <= n ==> turns[i].recv.Got?
    ensures Keys(turns[..n + 1]) == Keys(turns[..n]) + [turns[n].recv.b]
  {
    KeysInTwoParts(turns[..n + 1], n);
    assert turns[..n + 1][..n] == turns[..n] && turns[..n + 1][n..] == [turns[n]];
    assert Keys([turns[n]]) == [turns[n].recv.b] + Keys([turns[n]][1..]);
  }

  /** Turns that each give a key and let its echo out. */
  function Plain(keys: seq<byte>): seq<Turn> {
    seq(|keys|, i requires 0 <= i < |keys| => Turn(Got(keys[i]), Sent))
  }

  lemma {:induction false} PlainReads(e: Editor, keys: seq<byte>, echo: bool, maxLen: nat)
    ensures Keys(Plain(keys)) == keys
    ensures !Raised(ReadFrom(e, Plain(keys), echo, maxLen))
    decreases |keys|
  {
    if keys != [] {
      assert Plain(keys)[1..] == Plain(keys[1..]);
      PlainReads(Press(e, keys[0], maxLen), keys[1..], echo, maxLen);
    }
  }

  /** Over a working connection the line read is the line typed. */
  lemma TypedLineIsRead(text: seq<byte>, enter: byte, echo: bool, maxLen: nat)
    requires AllText(text) && |text| <= maxLen && IsEnter(enter)
    ensures ReadFrom(EMPTY, Plain(text + [enter]), echo, maxLen) == Line(text)
  {
    PlainReads(EMPTY, text + [enter], echo, maxLen);
    ReadingIsEdit(EMPTY, Plain(text + [enter]), echo, maxLen);
    EnterSubmits(text, enter, maxLen);
  }

  /** Turn j gives a key that does not end the line, and its echo, if any, goes out. */
  predicate Passes(e: Editor, turns: seq<Turn>, echo: bool, maxLen: nat, j: nat) {
    && j < |turns| && turns[j].recv.Got? && Edit(e, Keys(turns[..j + 1]), maxLen).Editing?
    && (EchoSent(Edit(e, Keys(turns[..j]), maxLen), turns[j].recv.b, echo, maxLen) == [] || turns[j].send.Sent?)
  }

  /** The read gets to turn i. */
  predicate Reaches(e: Editor, turns: seq<Turn>, echo: bool, maxLen: nat, i: nat) {
    i < |turns| && e.Editing? && forall j :: 0 <= j < i ==> Passes(e, turns, echo, maxLen, j)
  }

  /** At turn i a key comes in and its echo times out. */
  predicate EchoStalls(e: Editor, turns: seq<Turn>, echo: bool, maxLen: nat, i: nat) {
    && Reaches(e, turns, echo, maxLen, i) && turns[i].recv.Got? && turns[i].send.SendTimedOut?
    && EchoSent(Edit(e, Keys(turns[..i]), maxLen), turns[i].recv.b, echo, maxLen) != []
  }

  lemma EditShifts(e: Editor, turns: seq<Turn>, maxLen: nat, j: nat)
    requires j < |turns| && turns[0].recv.Got?
    ensures Edit(e, Keys(turns[..j + 1]), maxLen) ==
            Edit(Press(e, turns[0].recv.b, maxLen), Keys(turns[1..][..j]), maxLen)
  {
    assert turns[..j + 1][1..] == turns[1..][..j];
    assert Keys(turns[..j + 1])[1..] == Keys(turns[1..][..j]);
  }

  lemma ReachesShifts(e: Editor, turns: seq<Turn>, echo: bool, maxLen: nat, i: nat)
    requires 0 < i < |turns|
    ensures Reaches(e, turns, echo, maxLen, i) <==>
      && e.Editing? && turns[0].recv.Got?
      && (EchoSent(e, turns[0].recv.b, echo, maxLen) == [] || turns[0].send.Sent?)
      && Reaches(Press(e, turns[0].recv.b, maxLen), turns[1..], echo, maxLen, i - 1)
  {
    assert turns[..0] == [] && turns[1..][..0] == [];
    if turns[0].recv.Got? {
      var f := Press(e, turns[0].recv.b, maxLen);
      EditShifts(e, turns, maxLen, 0);
      forall j | 0 < j < |turns|
        ensures Passes(e, turns, echo, maxLen, j) <==> Passes(f, turns[1..], echo, maxLen, j - 1)
      {
        EditShifts(e, turns, maxLen, j);
        EditShifts(e, turns, maxLen, j - 1);
        assert turns[1..][j - 1] == turns[j];
      }
      if Reaches(e, turns, echo, maxLen, i) {
        assert Passes(e, turns, echo, maxLen, 0);
        forall j | 0 <= j < i - 1 ensures Passes(f, turns[1..], echo, maxLen, j) {
          assert Passes(e, turns, echo, maxLen, j + 1);
        }
      }
    } else {
      assert !Passes(e, turns, echo, maxLen, 0);
    }
  }

  lemma {:induction false} StallsIff(e: Editor, turns: seq<Turn>, echo: bool, maxLen: nat)
    ensures ReadFrom(e, turns, echo, maxLen) == TimeoutRaised <==>
      exists i: nat :: i < |turns| && EchoStalls(e, turns, echo, maxLen, i)
    decreases |turns|
  {
    if e.Editing? && turns != [] && turns[0].recv.Got? {
      var f := Press(e, turns[0].recv.b, maxLen);
      StallsIff(f, turns[1..], echo, maxLen);
      assert turns[..0] == [];
      forall i: nat | 0 < i < |turns|
        ensures EchoStalls(e, turns, echo, maxLen, i) <==>
          (EchoSent(e, turns[0].recv.b, echo, maxLen) == [] || turns[0].send.Sent?) &&
          EchoStalls(f, turns[1..], echo, maxLen, i - 1)
      {
        ReachesShifts(e, turns, echo, maxLen, i);
        EditShifts(e, turns, maxLen, i - 1);
        assert turns[1..][i - 1] == turns[i];
      }
      if EchoSent(e, turns[0].recv.b, echo, maxLen) == [] || turns[0].send.Sent? {
        if i: nat :| i < |turns[1..]| && EchoStalls(f, turns[1..], echo, maxLen, i) {
          assert EchoStalls(e, turns, echo, maxLen, i + 1);
        }
        if i: nat :| i < |turns| && EchoStalls(e, turns, echo, maxLen, i) {
          assert i > 0 && EchoStalls(f, turns[1..], echo, maxLen, i - 1);
        }
      } else if turns[0].send.SendTimedOut? {
        assert EchoStalls(e, turns, echo, maxLen, 0);
      }
    } else {
      forall i: nat | i < |turns| ensures !EchoStalls(e, turns, echo, maxLen, i) {
        assert Reaches(e, turns, echo, maxLen, i) && i > 0 ==> Passes(e, turns, echo, maxLen, 0);
      }
    }
  }

  /**
   * The prompt's handler for TimeoutError, and with it the idle message, is reached if
   * and only if sending an echo times out: never because the client stays silent.
   */
  lemma IdleHandlerReachedIff(turns: seq<Turn>, echo: bool, maxLen: nat)
    ensures ReadFrom(EMPTY, turns, echo, maxLen) == TimeoutRaised <==>
      exists i: nat :: i < |turns| && EchoStalls(EMPTY, turns, echo, maxLen, i)
  {
    StallsIff(EMPTY, turns, echo, maxLen);
  }

  /** A client that falls silent at any point of its line is given up as if it had closed the connection. */
  lemma {:induction false} SilenceIsNoLine(e: Editor, turns: seq<Turn>, echo: bool, maxLen: nat, i: nat)
    requires Reaches(e, turns, echo, maxLen, i) && turns[i].recv.TimedOut?
    ensures ReadFrom(e, turns, echo, maxLen) == NoLine
    ensures ReadFrom(e, turns, echo, maxLen) == ReadFrom(e, turns[i := Turn(Closed, turns[i].send)], echo, maxLen)
    decreases i
  {
    if i > 0 {
      ReachesShifts(e, turns, echo, maxLen, i);
      var f := Press(e, turns[0].recv.b, maxLen);
      SilenceIsNoLine(f, turns[1..], echo, maxLen, i - 1);
      assert turns[i := Turn(Closed, turns[i].send)][1..] == turns[1..][i - 1 := Turn(Closed, turns[1..][i - 1].send)];
    }
  }

  // ---------------------------------------------------------------------
  // The client's screen

  /** One unbounded row of cells; a cell nothing was written to is blank. */
  datatype Row = Row(cells: map<nat, byte>, col: nat)

  function Cell(r: Row, i: nat): byte {
    if i in r.cells then r.cells[i] else SPACE
  }

  /** A printable byte overwrites the cell under the cursor; backspace only moves the cursor. */
  function Show(r: Row, b: byte): Row {
    if b == BACKSPACE then r.(col := if r.col == 0 then 0 else r.col - 1)
    else Row(r.cells[r.col := b], r.col + 1)
  }

  function Replay(r: Row, s: seq<byte>): Row
    decreases |s|
  {
    if s == [] then r else Replay(Show(r, s[0]), s[1..])
  }

  lemma {:induction false} ReplayAppend(r: Row, s: seq<byte>, t: seq<byte>)
    ensures Replay(r, s + t) == Replay(Replay(r, s), t)
    decreases |s|
  {
    if s == [] {
      assert s + t == t;
    } else {
      ReplayAppend(Show(r, s[0]), s[1..], t);
      assert (s + t)[1..] == s[1..] + t;
    }
  }

  /** Printable ASCII, or one of the two erase keys. */
  predicate Typed(b: byte) {
    0x20 <= b < 0x7f || IsErase(b)
  }

  /** The row shows exactly `text` left of the cursor and blanks from the cursor on. */
  ghost predicate Shows(r: Row, text: seq<byte>) {
    && r.col == |text|
    && (forall i :: 0 <= i < |text| ==> Cell(r, i) == text[i])
    && (forall i: nat :: |text| <= i ==> Cell(r, i) == SPACE)
  }

  ghost predicate KeepsPrompt(r: Row, prompt: seq<byte>) {
    forall i :: 0 <= i < |prompt| ==> Cell(r, i) == prompt[i]
  }

  lemma ShowWritesOneCell(r: Row, b: byte)
    requires b != BACKSPACE
    ensures forall i: nat :: Cell(Show(r, b), i) == if i == r.col then b else Cell(r, i)
  {
  }

  lemma RuboutErasesOne(r: Row, text: seq<byte>)
    requires text != [] && Shows(r, text)
    ensures Shows(Replay(r, RUBOUT), text[..|text| - 1])
    ensures forall k :: 0 <= k <= 3 ==> KeepsPrompt(Replay(r, RUBOUT[..k]), text[..|text| - 1])
  {
    var r1 := Show(r, BACKSPACE);
    var r2 := Show(r1, SPACE);
    var r3 := Show(r2, BACKSPACE);
    ShowWritesOneCell(r1, SPACE);
    assert forall i: nat :: Cell(r1, i) == Cell(r, i) && Cell(r3, i) == Cell(r2, i);
    var s1, s2 := [BACKSPACE], [BACKSPACE, SPACE];
    assert RUBOUT[..0] == [] && RUBOUT[..1] == [] + s1 && RUBOUT[..2] == s1 + [SPACE];
    assert RUBOUT[..3] == RUBOUT == s2 + [BACKSPACE];
    ReplaySnoc(r, [], BACKSPACE);
    ReplaySnoc(r, s1, SPACE);
    ReplaySnoc(r, s2, BACKSPACE);
    forall k | 0 <= k <= 3 ensures KeepsPrompt(Replay(r, RUBOUT[..k]), text[..|text| - 1]) {
      assert k == 0 || k == 1 || k == 2 || k == 3;
    }
  }

  lemma ReplaySnoc(r: Row, s: seq<byte>, b: byte)
    ensures Replay(r, s + [b]) == Show(Replay(r, s), b)
  {
    ReplayAppend(r, s, [b]);
    assert [b][1..] == [];
  }

  lemma PrintableAppendsOne(r: Row, text: seq<byte>, b: byte)
    requires Shows(r, text) && 0x20 <= b < 0x7f
    ensures Shows(Replay(r, [b]), text + [b])
  {
    ShowWritesOneCell(r, b);
    assert [b][1..] == [] && Replay(r, [b]) == Show(r, b);
  }

  /** One typed key: its echo turns the old line on the screen into the new one, never touching the prompt. */
  lemma KeyKeepsScreen(e: Editor, b: byte, maxLen: nat, prompt: seq<byte>, r: Row)
    requires e.Editing? && Typed(b) && Shows(r, prompt + e.buf)
    ensures Press(e, b, maxLen).Editing?
    ensures Shows(Replay(r, Echo(e, b, maxLen)), prompt + Press(e, b, maxLen).buf)
    ensures forall k :: 0 <= k <= |Echo(e, b, maxLen)| ==> KeepsPrompt(Replay(r, Echo(e, b, maxLen)[..k]), prompt)
  {
    var text := prompt + e.buf;
    var echo := Echo(e, b, maxLen);
    assert forall i :: 0 <= i < |prompt| ==> text[i] == prompt[i];
    if echo == RUBOUT {
      RuboutErasesOne(r, text);
      assert text[..|text| - 1] == prompt + e.buf[..|e.buf| - 1];
      assert forall i :: 0 <= i < |prompt| ==> text[..|text| - 1][i] == prompt[i];
    } else if echo == [b] {
      PrintableAppendsOne(r, text, b);
      assert text + [b] == prompt + (e.buf + [b]);
      assert echo[..0] == [] && echo[..1] == echo;
      assert forall i :: 0 <= i < |prompt| ==> (text + [b])[i] == prompt[i];
    } else {
      assert echo == [] && echo[..0] == [];
    }
  }

  predicate AllTyped(input: seq<byte>) {
    forall i :: 0 <= i < |input| ==> Typed(input[i])
  }

  /**
   * Whatever printable keys and erases are typed, the terminal shows the prompt
   * followed by exactly the edit buffer, with the cursor right behind it.
   */
  lemma {:induction false} ScreenShowsBuffer(e: Editor, input: seq<byte>, maxLen: nat, prompt: seq<byte>, r: Row)
    requires AllTyped(input) && e.Editing? && Shows(r, prompt + e.buf)
    ensures Edit(e, input, maxLen).Editing?
    ensures Shows(Replay(r, EchoOf(e, input, maxLen)), prompt + Edit(e, input, maxLen).buf)
    decreases |input|
  {
    if input != [] {
      var f, echo := Press(e, input[0], maxLen), Echo(e, input[0], maxLen);
      KeyKeepsScreen(e, input[0], maxLen, prompt, r);
      ReplayAppend(r, echo, EchoOf(f, input[1..], maxLen));
      ScreenShowsBuffer(f, input[1..], maxLen, prompt, Replay(r, echo));
    }
  }

  /** At no single byte of the echo is a cell of the prompt overwritten. */
  lemma {:induction false} PromptNeverErased(e: Editor, input: seq<byte>, maxLen: nat, prompt: seq<byte>,
                                             r: Row, k: nat)
    requires AllTyped(input) && e.Editing? && Shows(r, prompt + e.buf)
    requires k <= |EchoOf(e, input, maxLen)|
    ensures KeepsPrompt(Replay(r, EchoOf(e, input, maxLen)[..k]), prompt)
    decreases |input|
  {
    if input == [] {
      assert forall i :: 0 <= i < |prompt| ==> (prompt + e.buf)[i] == prompt[i];
    } else {
      var f, echo := Press(e, input[0], maxLen), Echo(e, input[0], maxLen);
      var later := EchoOf(f, input[1..], maxLen);
      KeyKeepsScreen(e, input[0], maxLen, prompt, r);
      if k <= |echo| {
        assert (echo + later)[..k] == echo[..k];
      } else {
        assert (echo + later)[..k] == echo + later[..k - |echo|];
        ReplayAppend(r, echo, later[..k - |echo|]);
        PromptNeverErased(f, input[1..], maxLen, prompt, Replay(r, echo), k - |echo|);
      }
    }
  }

  /** What Enter submits is exactly what the screen showed behind the prompt. */
  lemma SubmittedIsShown(input: seq<byte>, maxLen: nat, prompt: seq<byte>, r: Row, enter: byte)
    requires AllTyped(input) && IsEnter(enter) && Shows(r, prompt)
    ensures Edit(EMPTY, input + [enter], maxLen).Submitted?
    ensures Shows(Replay(r, EchoOf(EMPTY, input, maxLen)), prompt + Edit(EMPTY, input + [enter], maxLen).line)
  {
    assert prompt + [] == prompt;
    ScreenShowsBuffer(EMPTY, input, maxLen, prompt, r);
    KeyByKey(EMPTY, input, enter, maxLen);
  }
}
