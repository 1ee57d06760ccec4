/** One attachment of a session, start to end, on the real objects and undisturbed by other threads. */
module ConsoleSession {
  import opened Prelude
  import opened EscapeDecoder
  import opened Hub
  import opened Session

  /** The bytes a session puts on the console for what its client sends. */
  function Typed(readOnly: bool, chunks: seq<seq<byte>>): seq<byte> {
    if readOnly then [] else Decode(START, Flatten(BeforeEof(chunks))).out
  }

  /** The writes of the read-write loop, one os.write() each. */
  method PassOn(hub: ConsoleHub, writes: seq<seq<byte>>)
    requires hub.fdOpen
    modifies hub`input, hub`done
    ensures hub.input == old(hub.input) + Flatten(writes) && hub.done == old(hub.done)
  {
    for i := 0 to |writes|
      invariant hub.input == old(hub.input) + Flatten(writes[..i]) && hub.done == old(hub.done) && hub.fdOpen
    {
      assert writes[..i + 1] == writes[..i] + [writes[i]];
      FlattenSnoc(writes[..i], writes[i]);
      hub.WriteInput(writes[i], true);
    }
    assert writes[..|writes|] == writes;
  }

  /**
   * `run_console_session`. `chunks` are what recv() returns. The client is attached,
   * its bytes are decoded onto the console unless it is read-only, and it is detached
   * again; `armNext` asks the caller of the lock section to start the grace timer.
   */
  method RunConsoleSession(hub: ConsoleHub, registry: SessionRegistry, sid: Hub.Cid, readOnly: bool,
                           chunks: seq<seq<byte>>)
    returns (armNext: bool)
    requires registry.Valid() && (hub.done || hub.fdOpen)
    modifies hub, registry
    ensures registry.Valid()
    ensures registry.sessions == if sid in old(registry.sessions)
      then old(registry.sessions)[sid := old(registry.sessions)[sid].(state := InConsole)] else old(registry.sessions)
    ensures hub.input == old(hub.input) + (if old(hub.done) then [] else Typed(readOnly, chunks))
    ensures hub.View() == Removed(Added(old(hub.View()), sid, readOnly), sid)
    ensures hub.done == old(hub.done) && hub.fdOpen == old(hub.fdOpen)
    ensures armNext <==> old(hub.clients) - {sid} == map[]
  {
    hub.AddClient(sid, readOnly);
    registry.Update(sid, Patch(Some(InConsole), None, None));
    if !readOnly && !hub.done {
      var writes, detached := ReadWriteLoop(chunks);
      PassOn(hub, writes);
    }
    armNext := hub.RemoveClient(sid);
    assert hub.clients == old(hub.clients) - {sid};
  }
}
