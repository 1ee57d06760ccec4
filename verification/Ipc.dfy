/** Length-prefixed messages with passed descriptors over a stream socket. */
module Ipc {
  import opened Prelude

  const MAX_FDS: nat := 4
  const MAX_MSG: nat := 65536
  const HEADER_SIZE: nat := 5

  type Fd = nat

  datatype Message = Message(payload: seq<byte>, fds: seq<Fd>)

  datatype RecvError = Eof | TooManyFds | TooLong | MissingFds

  datatype SendError = NotPackable

  /** One byte in flight, with the descriptors attached to it. */
  datatype Cell = Cell(b: byte, fds: seq<Fd>)

  // ---------------------------------------------------------------------
  // The five-byte big-endian header

  datatype Header = Header(fdCount: nat, length: nat)

  /** struct '>BI' packs a byte and an unsigned 32-bit length. */
  predicate Packable(h: Header) {
    h.fdCount < 0x100 && h.length < 0x1_0000_0000
  }

  function Pack(h: Header): (bytes: seq<byte>)
    requires Packable(h)
    ensures |bytes| == HEADER_SIZE
  {
    [h.fdCount, h.length / 0x100_0000, h.length / 0x1_0000 % 0x100, h.length / 0x100 % 0x100, h.length % 0x100]
  }

  function Unpack(s: seq<byte>): Header
    requires |s| == HEADER_SIZE
  {
    Header(s[0], ((s[1] as int * 0x100 + s[2]) * 0x100 + s[3]) * 0x100 + s[4])
  }

  lemma PackThenUnpack(h: Header)
    requires Packable(h)
    ensures Unpack(Pack(h)) == h
  {
    var a := h.length / 0x100;
    var b := a / 0x100;
    assert h.length / 0x1_0000 == b;
    assert h.length / 0x100_0000 == b / 0x100;
  }

  lemma UnpackThenPack(s: seq<byte>)
    requires |s| == HEADER_SIZE
    ensures Packable(Unpack(s)) && Pack(Unpack(s)) == s
  {
    var n := Unpack(s).length;
    assert n / 0x100 == (s[1] as int * 0x100 + s[2]) * 0x100 + s[3];
    assert n / 0x1_0000 == s[1] as int * 0x100 + s[2];
    assert n / 0x100_0000 == s[1];
  }

  // ---------------------------------------------------------------------
  // What a message looks like on the wire, and how a receiver must read it

  function Plain(bytes: seq<byte>): (cells: seq<Cell>)
    ensures |cells| == |bytes|
  {
    seq(|bytes|, i requires 0 <= i < |bytes| => Cell(bytes[i], []))
  }

  function Bytes(cells: seq<Cell>): (bytes: seq<byte>)
    ensures |bytes| == |cells|
  {
    seq(|cells|, i requires 0 <= i < |cells| => cells[i].b)
  }

  predicate Sendable(m: Message) {
    Packable(Header(|m.fds|, |m.payload|))
  }

  /** Header and payload, all descriptors riding on the first byte. */
  function Frame(m: Message): (cells: seq<Cell>)
    requires Sendable(m)
    ensures |cells| == HEADER_SIZE + |m.payload|
  {
    var bytes := Pack(Header(|m.fds|, |m.payload|)) + m.payload;
    Plain(bytes)[0 := Cell(bytes[0], m.fds)]
  }

  datatype Parsed = Parsed(result: Result<Message, RecvError>, rest: seq<Cell>, closed: seq<Fd>)

  /** Descriptors the control buffer has room for; the kernel drops the others. */
  function Delivered(fds: seq<Fd>): seq<Fd> {
    if |fds| > MAX_FDS then fds[..MAX_FDS] else fds
  }

  /** The one reading of a stream: result, what is left unread, and surplus descriptors closed. */
  function ParseOne(s: seq<Cell>): Parsed {
    if |s| < HEADER_SIZE then Parsed(Err(Eof), [], [])
    else
      var h := Unpack(Bytes(s[..HEADER_SIZE]));
      if h.fdCount > MAX_FDS then Parsed(Err(TooManyFds), s[HEADER_SIZE..], [])
      else if h.length > MAX_MSG then Parsed(Err(TooLong), s[HEADER_SIZE..], [])
      else if |s| < HEADER_SIZE + h.length then Parsed(Err(Eof), [], [])
      else
        var fds := Delivered(s[0].fds);
        var body := Bytes(s[HEADER_SIZE..HEADER_SIZE + h.length]);
        var rest := s[HEADER_SIZE + h.length..];
        if |fds| < h.fdCount then Parsed(Err(MissingFds), rest, [])
        else Parsed(Ok(Message(body, fds[..h.fdCount])), rest, fds[h.fdCount..])
  }

  /** Descriptors arrive with the first byte of what a receive call reads. */
  predicate FdsOnHead(s: seq<Cell>) {
    forall i :: 0 < i < |s| && i < HEADER_SIZE ==> s[i].fds == []
  }

  // ---------------------------------------------------------------------
  // The stream socket and the two routines

  /** One direction of a connected stream socket whose writer has closed or paused. */
  class Socket {
    var unread: seq<Cell>

    constructor ()
      ensures unread == []
    {
      unread := [];
    }

    /** recv(): at least one byte if there is any, and never more than asked; descriptors are lost. */
    method Recv(n: nat) returns (chunk: seq<byte>)
      requires n > 0
      modifies this
      ensures |chunk| <= n && |chunk| <= |old(unread)| && (chunk == [] <==> old(unread) == [])
      ensures chunk == Bytes(old(unread)[..|chunk|]) && unread == old(unread)[|chunk|..]
    {
      var k: nat :| k <= n && k <= |unread| && (k == 0 <==> unread == []);
      chunk := Bytes(unread[..k]);
      unread := unread[k..];
    }

    /** recvmsg(): the same, and the descriptors attached to the bytes read, as far as they fit. */
    method RecvMsg(n: nat) returns (chunk: seq<byte>, fds: seq<Fd>)
      requires 0 < n <= HEADER_SIZE && FdsOnHead(unread)
      modifies this
      ensures |chunk| <= n && |chunk| <= |old(unread)| && (chunk == [] <==> old(unread) == [])
      ensures chunk == Bytes(old(unread)[..|chunk|]) && unread == old(unread)[|chunk|..]
      ensures chunk != [] ==> fds == Delivered(old(unread)[0].fds)
    {
      fds := if unread == [] then [] else Delivered(unread[0].fds);
      chunk := Recv(n);
    }
  }

  lemma BytesSplit(a: seq<Cell>, i: nat, j: nat)
    requires i <= j <= |a|
    ensures Bytes(a[..i]) + Bytes(a[i..j]) == Bytes(a[..j])
  {
  }

  /** `_recv_bytes`: exactly n bytes, in as many reads as it takes. */
  method RecvBytes(sock: Socket, n: nat) returns (r: Result<seq<byte>, RecvError>)
    modifies sock
    ensures |old(sock.unread)| >= n ==>
      r == Ok(Bytes(old(sock.unread)[..n])) && sock.unread == old(sock.unread)[n..]
    ensures |old(sock.unread)| < n ==> r == Err(Eof) && sock.unread == []
  {
    var buf: seq<byte> := [];
    ghost var s := sock.unread;
    while |buf| < n
      invariant |buf| <= n && |buf| <= |s|
      invariant buf == Bytes(s[..|buf|]) && sock.unread == s[|buf|..]
    {
      var pos := |buf|;
      var got := sock.Recv(n - pos);
      if got == [] {
        return Err(Eof);
      }
      assert s[pos..][..|got|] == s[pos..pos + |got|];
      BytesSplit(s, pos, pos + |got|);
      buf := buf + got;
    }
    r := Ok(buf);
  }

  /** The head of `ipc_recv`: one recvmsg() for the descriptors, then reads up to five bytes. */
  method RecvHeader(sock: Socket) returns (header: Option<seq<byte>>, fds: seq<Fd>)
    requires FdsOnHead(sock.unread)
    modifies sock
    ensures |old(sock.unread)| < HEADER_SIZE ==> header == None && sock.unread == []
    ensures |old(sock.unread)| >= HEADER_SIZE ==>
      && header == Some(Bytes(old(sock.unread)[..HEADER_SIZE]))
      && sock.unread == old(sock.unread)[HEADER_SIZE..]
      && fds == Delivered(old(sock.unread)[0].fds)
  {
    ghost var s := sock.unread;
    var got;
    got, fds := sock.RecvMsg(HEADER_SIZE);
    if got == [] {
      return None, [];
    }
    while |got| < HEADER_SIZE
      invariant 0 < |got| <= HEADER_SIZE && |got| <= |s|
      invariant got == Bytes(s[..|got|]) && sock.unread == s[|got|..]
    {
      var chunk := sock.Recv(HEADER_SIZE - |got|);
      if chunk == [] {
        return None, [];
      }
      assert s[|got|..][..|chunk|] == s[|got|..|got| + |chunk|];
      BytesSplit(s, |got|, |got| + |chunk|);
      got := got + chunk;
    }
    header := Some(got);
  }

  /** The tail of `ipc_recv`: close descriptors beyond the declared count, last one first. */
  method CloseExtra(arrived: seq<Fd>, declared: nat) returns (fds: seq<Fd>, closed: seq<Fd>)
    ensures |arrived| <= declared ==> fds == arrived && closed == []
    ensures |arrived| > declared ==>
      fds == arrived[..declared] && multiset(closed) == multiset(arrived[declared..])
  {
    fds, closed := arrived, [];
    while |fds| > declared
      invariant |fds| <= |arrived| && fds == arrived[..|fds|]
      invariant |arrived| >= declared ==> |fds| >= declared
      invariant |arrived| <= declared ==> fds == arrived && closed == []
      invariant multiset(closed) == multiset(arrived[|fds|..])
    {
      var extra := fds[|fds| - 1];
      assert arrived[|fds| - 1..] == [extra] + arrived[|fds|..];
      fds := fds[..|fds| - 1];
      closed := closed + [extra];
    }
  }

  /**
   * `ipc_recv`. For every stream and every schedule of short reads the outcome is
   * the one `ParseOne` gives; `closed` are the surplus descriptors it closes.
   */
  method IpcRecv(sock: Socket) returns (r: Result<Message, RecvError>, closed: seq<Fd>)
    requires FdsOnHead(sock.unread)
    modifies sock
    ensures r == ParseOne(old(sock.unread)).result
    ensures sock.unread == ParseOne(old(sock.unread)).rest
    ensures multiset(closed) == multiset(ParseOne(old(sock.unread)).closed)
  {
    ghost var s := sock.unread;
    closed := [];
    var header, fds := RecvHeader(sock);
    if header.None? {
      return Err(Eof), [];
    }
    var h := Unpack(header.value);
    if h.fdCount > MAX_FDS {
      return Err(TooManyFds), [];
    }
    if h.length > MAX_MSG {
      return Err(TooLong), [];
    }
    var payload := RecvBytes(sock, h.length);
    if payload.Err? {
      return Err(payload.error), [];
    }
    assert s[HEADER_SIZE..][..h.length] == s[HEADER_SIZE..HEADER_SIZE + h.length];
    assert s[HEADER_SIZE..][h.length..] == s[HEADER_SIZE + h.length..];
    assert fds[..|fds|] == fds;
    fds, closed := CloseExtra(fds, h.fdCount);
    if |fds| < h.fdCount {
      return Err(MissingFds), closed;
    }
    r := Ok(Message(payload.value, fds));
  }

  /** `ipc_send`: struct packing is the only limit it enforces. */
  method IpcSend(sock: Socket, m: Message) returns (r: Result<(), SendError>)
    modifies sock
    ensures Sendable(m) ==> r == Ok(()) && sock.unread == old(sock.unread) + Frame(m)
    ensures !Sendable(m) ==> r == Err(NotPackable) && sock.unread == old(sock.unread)
  {
    if |m.fds| >= 0x100 || |m.payload| >= 0x1_0000_0000 {
      return Err(NotPackable);
    }
    var data := Pack(Header(|m.fds|, |m.payload|)) + m.payload;
    if m.fds != [] {
      sock.unread := sock.unread + Plain(data)[0 := Cell(data[0], m.fds)];
    } else {
      sock.unread := sock.unread + Plain(data);
      assert Plain(data)[0 := Cell(data[0], [])] == Plain(data);
    }
    r := Ok(());
  }

  // ---------------------------------------------------------------------
  // Round trips

  /** What the receiver accepts of what the sender sends. */
  predicate Receivable(m: Message) {
    |m.payload| <= MAX_MSG && |m.fds| <= MAX_FDS
  }

  lemma FrameHeader(m: Message, rest: seq<Cell>)
    requires Sendable(m)
    ensures Unpack(Bytes((Frame(m) + rest)[..HEADER_SIZE])) == Header(|m.fds|, |m.payload|)
    ensures FdsOnHead(Frame(m) + rest)
  {
    var h := Header(|m.fds|, |m.payload|);
    PackThenUnpack(h);
    assert Bytes((Frame(m) + rest)[..HEADER_SIZE]) == Pack(h);
  }

  /**
   * One message sent is one message received, whatever follows it on the stream,
   * exactly when it has at most 65536 payload bytes and 4 descriptors; `ipc_send`
   * itself accepts far more.
   */
  lemma RoundTrip(m: Message, rest: seq<Cell>)
    requires Sendable(m)
    ensures Receivable(m) ==> ParseOne(Frame(m) + rest) == Parsed(Ok(m), rest, [])
    ensures !Receivable(m) ==>
      ParseOne(Frame(m) + rest).result == Err(if |m.fds| > MAX_FDS then TooManyFds else TooLong)
  {
    FrameHeader(m, rest);
    var s := Frame(m) + rest;
    if Receivable(m) {
      assert Bytes(s[HEADER_SIZE..HEADER_SIZE + |m.payload|]) == m.payload;
      assert s[HEADER_SIZE + |m.payload|..] == rest;
      assert m.fds[..|m.fds|] == m.fds;
    }
  }

  /** A frame that declares `declared` descriptors and carries others. */
  function FrameWith(declared: nat, payload: seq<byte>, fds: seq<Fd>): seq<Cell>
    requires Packable(Header(declared, |payload|))
  {
    var bytes := Pack(Header(declared, |payload|)) + payload;
    Plain(bytes)[0 := Cell(bytes[0], fds)]
  }

  /** The declared descriptors are taken and surplus ones closed; if fewer arrive the message is refused, whole. */
  lemma DeclaredAgainstArrived(declared: nat, payload: seq<byte>, fds: seq<Fd>, rest: seq<Cell>)
    requires declared <= MAX_FDS && |fds| <= MAX_FDS && |payload| <= MAX_MSG
    ensures ParseOne(FrameWith(declared, payload, fds) + rest) ==
      if declared <= |fds| then Parsed(Ok(Message(payload, fds[..declared])), rest, fds[declared..])
      else Parsed(Err(MissingFds), rest, [])
  {
    var h, s := Header(declared, |payload|), FrameWith(declared, payload, fds) + rest;
    PackThenUnpack(h);
    assert Bytes(s[..HEADER_SIZE]) == Pack(h);
    assert Bytes(s[HEADER_SIZE..HEADER_SIZE + |payload|]) == payload;
    assert s[HEADER_SIZE + |payload|..] == rest;
  }

  predicate AllReceivable(ms: seq<Message>) {
    forall i :: 0 <= i < |ms| ==> Receivable(ms[i])
  }

  /** The messages one after the other on one stream. */
  function Stream(ms: seq<Message>): seq<Cell>
    requires AllReceivable(ms)
  {
    if ms == [] then [] else Frame(ms[0]) + Stream(ms[1..])
  }

  /** The next message of a stream is read off whole, and the rest of the stream is left. */
  lemma NextOfStream(sent: seq<Message>, i: nat, rest: seq<Cell>)
    requires AllReceivable(sent) && i < |sent|
    ensures FdsOnHead(Stream(sent[i..]) + rest)
    ensures ParseOne(Stream(sent[i..]) + rest) == Parsed(Ok(sent[i]), Stream(sent[i + 1..]) + rest, [])
  {
    var tail := Stream(sent[i + 1..]) + rest;
    assert sent[i..][1..] == sent[i + 1..];
    assert Stream(sent[i..]) + rest == Frame(sent[i]) + tail;
    FrameHeader(sent[i], tail);
    RoundTrip(sent[i], tail);
  }

  /**
   * Successive receives of a stream of messages return exactly the messages sent,
   * in order, each call stopping on a message boundary, for every read schedule.
   */
  method ReceiveAll(sock: Socket, ghost sent: seq<Message>, ghost rest: seq<Cell>, n: nat)
    returns (received: seq<Message>)
    requires AllReceivable(sent)
    requires n == |sent| && sock.unread == Stream(sent) + rest
    modifies sock
    ensures received == sent && sock.unread == rest
  {
    received := [];
    while |received| < n
      invariant |received| <= n && received == sent[..|received|]
      invariant sock.unread == Stream(sent[|received|..]) + rest
    {
      NextOfStream(sent, |received|, rest);
      var r, closed := IpcRecv(sock);
      received := received + [r.value];
    }
  }

  /** No two message sequences look alike on the wire: the framing is uniquely decodable. */
  lemma {:induction false} StreamIsInjective(a: seq<Message>, b: seq<Message>)
    requires AllReceivable(a)
    requires AllReceivable(b)
    requires Stream(a) == Stream(b)
    ensures a == b
  {
    if a != [] && b != [] {
      RoundTrip(a[0], Stream(a[1..]));
      RoundTrip(b[0], Stream(b[1..]));
      StreamIsInjective(a[1..], b[1..]);
      assert a == [a[0]] + a[1..] && b == [b[0]] + b[1..];
    }
  }

  lemma {:induction false} StreamSnoc(ms: seq<Message>, m: Message)
    requires AllReceivable(ms) && Receivable(m)
    ensures AllReceivable(ms + [m]) && Stream(ms + [m]) == Stream(ms) + Frame(m)
  {
    if ms == [] {
      assert [] + [m] == [m] && [m][1..] == [];
    } else {
      StreamSnoc(ms[1..], m);
      assert (ms + [m])[1..] == ms[1..] + [m];
    }
  }

  /** A message cut short by a closed socket is never mistaken for a message. */
  lemma TruncatedIsEof(m: Message, k: nat)
    requires Receivable(m) && k < |Frame(m)|
    ensures ParseOne(Frame(m)[..k]).result == Err(Eof)
  {
    if k >= HEADER_SIZE {
      FrameHeader(m, []);
      assert Frame(m) + [] == Frame(m);
      assert Frame(m)[..k][..HEADER_SIZE] == Frame(m)[..HEADER_SIZE];
    }
  }
}
