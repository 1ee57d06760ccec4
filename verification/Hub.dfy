/** A console hub and the registry of hubs: their fields and the effect of each lock section. */
module Hub {
  import opened Prelude

  type Cid = nat

  /** A grace timer: running, cancelled in time, past its deadline and waiting for the lock, or over. */
  datatype Phase = Pending | Cancelled | Fired | Finished

  /** An attached client, with the console bytes sendall() has put on its socket since it was added. */
  datatype Client = Client(readOnly: bool, sent: seq<byte>)

  /** The fields behind the hub's lock; `timers` lists every timer it ever started. */
  datatype HubState = HubState(clients: map<Cid, Client>, graceTimer: Option<nat>, timers: seq<Phase>)

  /** Timer.cancel() stops a timer that is still running and does nothing to one that has fired. */
  function Cancel(timers: seq<Phase>, t: Option<nat>): (r: seq<Phase>)
    ensures |r| == |timers|
  {
    if t.Some? && t.value < |timers| && timers[t.value] == Pending then timers[t.value := Cancelled] else timers
  }

  function Added(h: HubState, cid: Cid, readOnly: bool): HubState {
    HubState(h.clients[cid := Client(readOnly, [])], None, Cancel(h.timers, h.graceTimer))
  }

  function Removed(h: HubState, cid: Cid): HubState {
    h.(clients := h.clients - {cid})
  }

  function Armed(h: HubState): HubState {
    HubState(h.clients, Some(|h.timers|), Cancel(h.timers, h.graceTimer) + [Pending])
  }

  /** What sendall() leaves on a socket: the whole chunk, or part of it before it fails. */
  function Send(c: Client, data: seq<byte>, failsAt: Option<nat>): Client {
    c.(sent := c.sent + (if failsAt.Some? && failsAt.value < |data| then data[..failsAt.value] else data))
  }

  /** One client after a broadcast; `fails` says whose sendall() raises, and after how many bytes. */
  function Reached(clients: map<Cid, Client>, c: Cid, data: seq<byte>, fails: map<Cid, nat>): Client
    requires c in clients
  {
    Send(clients[c], data, if c in fails then Some(fails[c]) else None)
  }

  /** The clients still attached after a broadcast. */
  function Delivered(clients: map<Cid, Client>, data: seq<byte>, fails: map<Cid, nat>): map<Cid, Client> {
    map c | c in clients && c !in fails :: Reached(clients, c, data, fails)
  }

  /** The clients found dead by a broadcast. */
  function Casualties(clients: map<Cid, Client>, data: seq<byte>, fails: map<Cid, nat>): map<Cid, Client> {
    map c | c in clients && c in fails :: Reached(clients, c, data, fails)
  }

  lemma BroadcastSplits(before: map<Cid, Client>, after: map<Cid, Client>, data: seq<byte>, fails: map<Cid, nat>)
    requires after.Keys == before.Keys
    requires forall c :: c in after ==> after[c] == Reached(before, c, data, fails)
    ensures after - before.Keys * fails.Keys == Delivered(before, data, fails)
    ensures (map c | c in after && c in before.Keys * fails.Keys :: after[c]) == Casualties(before, data, fails)
  {
    var d := Delivered(before, data, fails);
    assert (after - before.Keys * fails.Keys).Keys == d.Keys;
  }

  class ConsoleHub {
    const name: string
    const fd: nat
    var clients: map<Cid, Client>
    var graceTimer: Option<nat>
    var timers: seq<Phase>
    var done: bool
    /** What the console has been sent, and whether the hub's descriptor is still open. */
    var input: seq<byte>
    var fdOpen: bool

    function View(): HubState
      reads this
    {
      HubState(clients, graceTimer, timers)
    }

    constructor (name: string, fd: nat)
      ensures this.name == name && this.fd == fd
      ensures View() == HubState(map[], None, []) && !done && input == [] && fdOpen
    {
      this.name, this.fd := name, fd;
      clients, graceTimer, timers, done, input, fdOpen := map[], None, [], false, [], true;
    }

    method AddClient(cid: Cid, readOnly: bool)
      modifies this`clients, this`graceTimer, this`timers
      ensures View() == Added(old(View()), cid, readOnly)
    {
      if graceTimer.Some? {
        timers := Cancel(timers, graceTimer);
        graceTimer := None;
      }
      clients := clients[cid := Client(readOnly, [])];
    }

    /** The lock section of `remove_client`; the caller arms the timer afterwards if nobody is left. */
    method RemoveClient(cid: Cid) returns (armNext: bool)
      modifies this`clients
      ensures View() == Removed(old(View()), cid)
      ensures armNext <==> clients == map[]
    {
      clients := clients - {cid};
      armNext := |clients| == 0;
    }

    method ArmGrace()
      modifies this`graceTimer, this`timers
      ensures View() == Armed(old(View()))
    {
      if graceTimer.Some? {
        timers := Cancel(timers, graceTimer);
      }
      timers := timers + [Pending];
      graceTimer := Some(|timers| - 1);
    }

    /** The lock section of `_teardown`: nothing while a client is attached, else go on to shut down. */
    method TeardownGuard() returns (goOn: bool)
      modifies this`graceTimer
      ensures goOn <==> old(clients) == map[]
      ensures View() == if goOn then old(View()).(graceTimer := None) else old(View())
    {
      if |clients| > 0 {
        return false;
      }
      graceTimer := None;
      goOn := true;
    }

    method Shutdown()
      modifies this`done, this`fdOpen
      ensures done && !fdOpen
    {
      done := true;
      fdOpen := false;
    }

    /** `accepted` is false when os.write() raises, as it must once the descriptor is closed. */
    method WriteInput(data: seq<byte>, accepted: bool)
      requires accepted ==> fdOpen
      modifies this`input, this`done
      ensures input == (if accepted then old(input) + data else old(input))
      ensures done == (old(done) || !accepted)
    {
      if accepted {
        input := input + data;
      } else {
        done := true;
      }
    }

    /** The sending loop of the reader's lock section. */
    method SendAll(data: seq<byte>, fails: map<Cid, nat>) returns (dead: set<Cid>)
      modifies this`clients
      ensures clients.Keys == old(clients).Keys
      ensures forall c :: c in clients ==> clients[c] == Reached(old(clients), c, data, fails)
      ensures dead == old(clients).Keys * fails.Keys
    {
      ghost var before := clients;
      dead := {};
      var todo := clients.Keys;
      while todo != {}
        invariant todo <= before.Keys && clients.Keys == before.Keys
        invariant dead == (before.Keys - todo) * fails.Keys
        invariant forall c :: c in before ==>
          clients[c] == if c in todo then before[c] else Reached(before, c, data, fails)
        decreases todo
      {
        var c :| c in todo;
        clients := clients[c := Send(clients[c], data, if c in fails then Some(fails[c]) else None)];
        if c in fails {
          dead := dead + {c};
        }
        todo := todo - {c};
      }
    }

    /** The deleting loop. */
    method Drop(dead: set<Cid>) returns (lost: map<Cid, Client>)
      requires dead <= clients.Keys
      modifies this`clients
      ensures clients == old(clients) - dead
      ensures lost == (map c | c in old(clients) && c in dead :: old(clients)[c])
    {
      ghost var before := clients;
      lost := map[];
      var todo := dead;
      while todo != {}
        invariant todo <= dead && lost.Keys == dead - todo && clients == before - lost.Keys
        invariant forall c :: c in lost ==> lost[c] == before[c]
        decreases todo
      {
        var c :| c in todo;
        lost := lost[c := clients[c]];
        clients := clients - {c};
        todo := todo - {c};
      }
    }

    /** The reader's lock section: send to everyone, collect the dead, drop them. */
    method Broadcast(data: seq<byte>, fails: map<Cid, nat>) returns (armNext: bool, lost: map<Cid, Client>)
      modifies this`clients
      ensures clients == Delivered(old(clients), data, fails)
      ensures lost == Casualties(old(clients), data, fails)
      ensures armNext <==> clients == map[]
    {
      var dead := SendAll(data, fails);
      BroadcastSplits(old(clients), clients, data, fails);
      lost := Drop(dead);
      armNext := |clients| == 0;
    }

    /** The last lock section of the reader: tell everyone and forget them. */
    method Finish()
      modifies this`clients
      ensures clients == map[]
    {
      clients := map[];
    }
  }

  // ---------------------------------------------------------------------
  // The registry

  class HubRegistry {
    var hubs: map<string, ConsoleHub>

    constructor ()
      ensures hubs == map[]
    {
      hubs := map[];
    }

    /** Every stored hub is stored under its own name. */
    ghost predicate Valid()
      reads this, hubs.Values
    {
      forall n :: n in hubs ==> hubs[n].name == n
    }

    /** A live hub under the name is returned and the new descriptor closed; else a new hub owns it. */
    method GetOrCreate(name: string, fd: nat) returns (hub: ConsoleHub, created: bool, closed: Option<nat>)
      requires Valid()
      modifies this
      ensures Valid()
      ensures created <==> !(name in old(hubs) && !old(hubs[name].done))
      ensures !created ==> hub == old(hubs)[name] && hubs == old(hubs) && closed == Some(fd)
      ensures created ==> fresh(hub) && hub.name == name && hub.fd == fd && !hub.done && closed == None
      ensures created ==> hubs == old(hubs)[name := hub]
    {
      if name in hubs && !hubs[name].done {
        return hubs[name], false, Some(fd);
      }
      hub := new ConsoleHub(name, fd);
      hubs := hubs[name := hub];
      created, closed := true, None;
    }

    method Lookup(name: string) returns (hub: ConsoleHub?)
      ensures hub != null <==> name in hubs && !hubs[name].done
      ensures hub != null ==> hub == hubs[name]
    {
      hub := if name in hubs && !hubs[name].done then hubs[name] else null;
    }

    method RemoveIfDone(name: string)
      requires Valid()
      modifies this
      ensures Valid()
      ensures hubs == if name in old(hubs) && old(hubs[name].done) then old(hubs) - {name} else old(hubs)
    {
      if name in hubs && hubs[name].done {
        hubs := hubs - {name};
      }
    }

    method TeardownAll()
      requires Valid()
      modifies this, hubs.Values
      ensures hubs == map[]
      ensures forall n :: n in old(hubs) ==> old(hubs)[n].done && !old(hubs)[n].fdOpen
    {
      var todo := hubs.Values;
      while todo != {}
        invariant hubs == old(hubs) && todo <= hubs.Values
        invariant forall h :: h in hubs.Values - todo ==> h.done && !h.fdOpen
        decreases todo
      {
        var h :| h in todo;
        h.Shutdown();
        todo := todo - {h};
      }
      assert forall n :: n in hubs ==> hubs[n] in hubs.Values;
      hubs := map[];
    }
  }
}
