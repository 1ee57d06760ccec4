/** The `~` escape decoder of an attached read-write session. */
module EscapeDecoder {
  import opened Prelude

  const TILDE: byte := 0x7e
  const DOT: byte := 0x2e

  /** What the byte loop carries: the bytes for the console, the pending `~`, and whether `~.` was seen. */
  datatype Decoder = Decoder(out: seq<byte>, escape: bool, detached: bool)

  const START := Decoder([], false, false)

  /** One turn of the byte loop; after a detach the session reads nothing more. */
  function Feed(d: Decoder, b: byte): Decoder {
    if d.detached then d
    else if !d.escape then
      if b == TILDE then d.(escape := true) else d.(out := d.out + [b])
    else if b == DOT then Decoder(d.out, false, true)
    else if b == TILDE then Decoder(d.out + [TILDE], false, false)
    else Decoder(d.out + [TILDE, b], false, false)
  }

  /** The decoder after a whole stream, fed from the left. */
  function Decode(d: Decoder, s: seq<byte>): Decoder
    decreases |s|
  {
    if s == [] then d else Decode(Feed(d, s[0]), s[1..])
  }

  // ---------------------------------------------------------------------
  // Decoding does not depend on where the stream is cut

  lemma {:induction false} DecodeAppend(d: Decoder, s: seq<byte>, t: seq<byte>)
    ensures Decode(d, s + t) == Decode(Decode(d, s), t)
    decreases |s|
  {
    if s == [] {
      assert s + t == t;
    } else {
      assert (s + t)[0] == s[0] && (s + t)[1..] == s[1..] + t;
      DecodeAppend(Feed(d, s[0]), s[1..], t);
    }
  }

  lemma DecodeSnoc(d: Decoder, s: seq<byte>, b: byte)
    ensures Decode(d, s + [b]) == Feed(Decode(d, s), b)
  {
    DecodeAppend(d, s, [b]);
    assert Decode(Decode(d, s), [b]) == Decode(Feed(Decode(d, s), b), []);
  }

  lemma {:induction false} DetachedIsFinal(d: Decoder, s: seq<byte>)
    requires d.detached
    ensures Decode(d, s) == d
    decreases |s|
  {
    if s != [] { DetachedIsFinal(d, s[1..]); }
  }

  /** Earlier output only goes in front of later output. */
  lemma {:induction false} OutputAccumulates(d: Decoder, s: seq<byte>)
    ensures Decode(d, s).out == d.out + Decode(d.(out := []), s).out
    ensures Decode(d, s).detached == Decode(d.(out := []), s).detached
    decreases |s|
  {
    if s != [] {
      var e, f := Feed(d, s[0]), Feed(d.(out := []), s[0]);
      OutputAccumulates(e, s[1..]);
      OutputAccumulates(f, s[1..]);
      assert e.(out := []) == f.(out := []);
      assert e.out == d.out + f.out;
    }
  }

  /** The pending flag does not depend on what was written before. */
  lemma {:induction false} StateAccumulates(d: Decoder, s: seq<byte>)
    ensures Decode(d, s).escape == Decode(d.(out := []), s).escape
    decreases |s|
  {
    if s != [] {
      var e, f := Feed(d, s[0]), Feed(d.(out := []), s[0]);
      StateAccumulates(e, s[1..]);
      StateAccumulates(f, s[1..]);
      assert e.(out := []) == f.(out := []);
    }
  }

  // ---------------------------------------------------------------------
  // The documented grammar: `~.` detaches, `~~` is a literal tilde

  datatype Parsed = Parsed(out: seq<byte>, detached: bool)

  /** A stateless reading of the stream by lookahead; a lone `~` at the end is still undecided. */
  function Parse(s: seq<byte>): Parsed {
    if s == [] then Parsed([], false)
    else if s[0] != TILDE then
      var rest := Parse(s[1..]);
      Parsed([s[0]] + rest.out, rest.detached)
    else if |s| == 1 then Parsed([], false)
    else if s[1] == DOT then Parsed([], true)
    else
      var rest := Parse(s[2..]);
      Parsed((if s[1] == TILDE then [TILDE] else [TILDE, s[1]]) + rest.out, rest.detached)
  }

  /** The stateful loop computes exactly the documented grammar, for every stream. */
  lemma {:induction false} LoopMatchesGrammar(s: seq<byte>)
    ensures Decode(START, s).out == Parse(s).out
    ensures Decode(START, s).detached == Parse(s).detached
    decreases |s|
  {
    if s == [] {
    } else if s[0] != TILDE {
      OutputAccumulates(Feed(START, s[0]), s[1..]);
      LoopMatchesGrammar(s[1..]);
    } else if |s| == 1 {
      assert Decode(START, s) == Decode(Feed(START, s[0]), []);
    } else {
      var d := Feed(Feed(START, s[0]), s[1]);
      assert s[1..][1..] == s[2..];
      assert Decode(START, s) == Decode(d, s[2..]);
      if s[1] == DOT {
        DetachedIsFinal(d, s[2..]);
      } else {
        OutputAccumulates(d, s[2..]);
        LoopMatchesGrammar(s[2..]);
      }
    }
  }

  // ---------------------------------------------------------------------
  // Where a session detaches

  /** Length of the maximal run of `~` at the end of s. */
  function TrailingTildes(s: seq<byte>): nat {
    if s == [] || s[|s| - 1] != TILDE then 0 else 1 + TrailingTildes(s[..|s| - 1])
  }

  predicate DetachAt(s: seq<byte>, i: int) {
    0 <= i < |s| && s[i] == DOT && TrailingTildes(s[..i]) % 2 == 1
  }

  /** While attached, the pending flag is the parity of the run of tildes just read. */
  lemma {:induction false} EscapeIsParity(s: seq<byte>)
    requires forall i :: 0 <= i < |s| ==> !DetachAt(s, i)
    ensures !Decode(START, s).detached
    ensures Decode(START, s).escape <==> TrailingTildes(s) % 2 == 1
    decreases |s|
  {
    if s != [] {
      var n := |s| - 1;
      var front := s[..n];
      assert s == front + [s[n]];
      forall i | 0 <= i < n ensures !DetachAt(front, i) {
        assert front[..i] == s[..i];
        assert !DetachAt(s, i);
      }
      EscapeIsParity(front);
      DecodeSnoc(START, front, s[n]);
      assert !DetachAt(s, n);
    }
  }

  /**
   * The session detaches exactly at the first `.` that follows an odd maximal
   * run of `~`: everything before it has been decoded, nothing after it counts.
   */
  lemma DetachesAtFirst(s: seq<byte>, i: int)
    requires DetachAt(s, i)
    requires forall j :: 0 <= j < i ==> !DetachAt(s, j)
    ensures !Decode(START, s[..i]).detached
    ensures Decode(START, s[..i + 1]).detached
    ensures Decode(START, s).out == Decode(START, s[..i]).out && Decode(START, s).detached
  {
    forall j | 0 <= j < |s[..i]| ensures !DetachAt(s[..i], j) {
      assert s[..i][..j] == s[..j];
      assert !DetachAt(s, j);
    }
    EscapeIsParity(s[..i]);
    assert s[..i + 1] == s[..i] + [s[i]];
    DecodeSnoc(START, s[..i], s[i]);
    assert s == s[..i + 1] + s[i + 1..];
    DecodeAppend(START, s[..i + 1], s[i + 1..]);
    DetachedIsFinal(Decode(START, s[..i + 1]), s[i + 1..]);
  }

  /** The least element of a non-empty family of detach points. */
  lemma {:induction false} FirstDetach(s: seq<byte>, i: int) returns (k: int)
    requires DetachAt(s, i)
    ensures DetachAt(s, k) && forall j :: 0 <= j < k ==> !DetachAt(s, j)
    decreases i
  {
    if j :| 0 <= j < i && DetachAt(s, j) {
      k := FirstDetach(s, j);
    } else {
      k := i;
    }
  }

  lemma DetachesIff(s: seq<byte>)
    ensures Decode(START, s).detached <==> exists i :: DetachAt(s, i)
  {
    if i :| DetachAt(s, i) {
      var k := FirstDetach(s, i);
      DetachesAtFirst(s, k);
    } else {
      EscapeIsParity(s);
    }
  }

  // ---------------------------------------------------------------------
  // Quoting

  /** What a client sends to type s literally: every `~` doubled. */
  function Quote(s: seq<byte>): seq<byte> {
    if s == [] then [] else (if s[0] == TILDE then [TILDE, TILDE] else [s[0]]) + Quote(s[1..])
  }

  /** Quoted text reaches the console as typed and never detaches. */
  lemma {:induction false} QuoteRoundTrip(d: Decoder, s: seq<byte>)
    requires !d.escape && !d.detached
    ensures Decode(d, Quote(s)) == d.(out := d.out + s)
    decreases |s|
  {
    if s == [] {
      assert d.out + s == d.out;
    } else {
      var head := if s[0] == TILDE then [TILDE, TILDE] else [s[0]];
      DecodeAppend(d, head, Quote(s[1..]));
      if s[0] == TILDE {
        assert head[1..] == [TILDE];
        assert Decode(d, head) == Decode(Feed(d, TILDE), [TILDE]) == Decode(Feed(Feed(d, TILDE), TILDE), []);
      } else {
        assert Decode(d, head) == Feed(d, s[0]);
      }
      QuoteRoundTrip(Decode(d, head), s[1..]);
      assert d.out + s == (d.out + [s[0]]) + s[1..];
    }
  }

  // ---------------------------------------------------------------------
  // The loops

  /** The inner loop over one received chunk. `out` starts empty for every chunk. */
  method DecodeChunk(escape: bool, data: seq<byte>) returns (out: seq<byte>, escape': bool, detached: bool)
    ensures Decoder(out, escape', detached) == Decode(Decoder([], escape, false), data)
  {
    out, escape', detached := [], escape, false;
    for i := 0 to |data|
      invariant !detached
      invariant Decoder(out, escape', false) == Decode(Decoder([], escape, false), data[..i])
    {
      var b := data[i];
      assert data[..i + 1] == data[..i] + [b];
      DecodeSnoc(Decoder([], escape, false), data[..i], b);
      if !escape' {
        if b == TILDE {
          escape' := true;
        } else {
          out := out + [b];
        }
      } else {
        escape' := false;
        if b == DOT {
          detached := true;
          assert data == data[..i + 1] + data[i + 1..];
          DecodeAppend(Decoder([], escape, false), data[..i + 1], data[i + 1..]);
          DetachedIsFinal(Decode(Decoder([], escape, false), data[..i + 1]), data[i + 1..]);
          return;
        } else if b == TILDE {
          out := out + [TILDE];
        } else {
          out := out + [TILDE, b];
        }
      }
    }
    assert data[..|data|] == data;
  }

  /** The chunks recv() hands over before the empty one that marks a closed socket. */
  function BeforeEof(chunks: seq<seq<byte>>): seq<seq<byte>> {
    if chunks == [] || chunks[0] == [] then [] else [chunks[0]] + BeforeEof(chunks[1..])
  }

  lemma {:induction false} BeforeEofIsPrefix(chunks: seq<seq<byte>>, n: nat)
    requires n <= |chunks|
    requires forall i :: 0 <= i < n ==> chunks[i] != []
    ensures BeforeEof(chunks) == chunks[..n] + BeforeEof(chunks[n..])
  {
    if n > 0 {
      BeforeEofIsPrefix(chunks[1..], n - 1);
      assert chunks[1..][n - 1..] == chunks[n..];
      assert chunks[..n] == [chunks[0]] + chunks[1..][..n - 1];
    }
  }

  /**
   * The read-write loop of a session on a hub that stays live. `chunks` is what
   * successive recv() calls return; `writes` is what goes to the console. The
   * bytes written depend only on the bytes received, not on the chunks.
   */
  method ReadWriteLoop(chunks: seq<seq<byte>>) returns (writes: seq<seq<byte>>, detached: bool)
    ensures Flatten(writes) == Decode(START, Flatten(BeforeEof(chunks))).out
    ensures detached == Decode(START, Flatten(BeforeEof(chunks))).detached
    ensures forall w :: w in writes ==> w != []
  {
    writes, detached := [], false;
    var escape := false;
    var n := 0;
    while n < |chunks|
      invariant 0 <= n <= |chunks|
      invariant forall i :: 0 <= i < n ==> chunks[i] != []
      invariant Decode(START, Flatten(chunks[..n])) == Decoder(Flatten(writes), escape, false)
      invariant forall w :: w in writes ==> w != []
    {
      var data := chunks[n];
      BeforeEofIsPrefix(chunks, n);
      if data == [] {
        assert BeforeEof(chunks[n..]) == [];
        assert chunks[..n] + [] == chunks[..n];
        return;
      }
      ghost var before := Decoder(Flatten(writes), escape, false);
      var out;
      out, escape, detached := DecodeChunk(escape, data);
      assert chunks[..n + 1] == chunks[..n] + [data];
      FlattenSnoc(chunks[..n], data);
      DecodeAppend(START, Flatten(chunks[..n]), data);
      OutputAccumulates(before, data);
      StateAccumulates(before, data);
      FlattenSnoc(writes, out);
      if out != [] {
        writes := writes + [out];
      }
      n := n + 1;
      if detached {
        BeforeEofIsPrefix(chunks, n);
        FlattenAppend(chunks[..n], BeforeEof(chunks[n..]));
        DecodeAppend(START, Flatten(chunks[..n]), Flatten(BeforeEof(chunks[n..])));
        DetachedIsFinal(Decode(START, Flatten(chunks[..n])), Flatten(BeforeEof(chunks[n..])));
        return;
      }
    }
    BeforeEofIsPrefix(chunks, n);
    assert chunks[n..] == [] && chunks[..n] + BeforeEof(chunks[n..]) == chunks[..n];
  }

  /** Two ways of cutting one stream into chunks give the console the same bytes. */
  lemma ChunkingIsInvisible(a: seq<seq<byte>>, b: seq<seq<byte>>)
    requires Flatten(a) == Flatten(b)
    requires [] !in a && [] !in b
    ensures Decode(START, Flatten(BeforeEof(a))) == Decode(START, Flatten(BeforeEof(b)))
  {
    BeforeEofIsPrefix(a, |a|);
    BeforeEofIsPrefix(b, |b|);
    assert a[..|a|] == a && b[..|b|] == b;
    assert a + BeforeEof(a[|a|..]) == a && b + BeforeEof(b[|b|..]) == b;
  }
}
