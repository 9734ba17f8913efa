/**
The life of a connection slot between the listener and its workers: who claims
it, which IPC messages travel, and which descriptors are open meanwhile. Every
store to the shared slot, every send and every receive is one step, and the steps
of all processes interleave freely. No process exits and no orphan is handed out.
*/
module Slots {
  import opened States

  const NO_FD := -1

  // `struct connection` without its buffers: descriptors of the listener and of the worker.
  datatype Slot = Slot(state: nat, pid: int, downListener: int, downWorker: int, upListener: int, upWorker: int)

  datatype Message =
    | Accepted(slot: nat)                  // broadcast, with the accepted descriptor
    | Connect(slot: nat, worker: nat)      // from the worker
    | Connected(slot: nat, worker: nat)    // to that worker, with the connected descriptor
    | Abandon(slot: nat, worker: nat)      // "close" from the listener, which could not connect
    | Close(slot: nat)                     // "close" from the worker

  // Where the listener is: in `accept_connection`, `ipc_connect` or `ipc_close`.
  datatype Listening =
    | Waiting
    | Found(slot: nat) | Cleared(slot: nat) | Claimed(slot: nat) | Saved(slot: nat)
    | Connecting(slot: nat, worker: nat) | Joined(slot: nat, worker: nat)
    | Dropping(slot: nat, worker: nat) | DroppedUp(slot: nat, worker: nat) | Dropped(slot: nat, worker: nat)
    | Closing(slot: nat) | ClosedUp(slot: nat) | ClosedBoth(slot: nat)

  // Where a worker is: in `ipc_accepted`, `ipc_connected`, `ipc_close`, or at the
  // end of `handle_connection`.
  datatype Working =
    | Polling
    | Adopting(slot: nat) | Marked(slot: nat) | Held(slot: nat) | Requesting(slot: nat)
    | Joining(slot: nat) | Registered(slot: nat)
    | Forgetting(slot: nat) | ForgottenUp(slot: nat) | Forgotten(slot: nat)
    | Ending(slot: nat, failed: bool) | EndedUp(slot: nat, failed: bool) | Ended(slot: nat, failed: bool)
    | Exiting

  // Who will touch a slot next.
  datatype Holder = Nobody | Served | InFlight(m: Message) | AtListener | AtWorker(worker: nat)

  predicate IsBusy(p: Working) {
    p != Polling && p != Exiting
  }

  predicate Open(fd: int) {
    fd >= 0
  }

  ghost predicate Fds(s: Slot, downListener: bool, downWorker: bool, upListener: bool, upWorker: bool) {
    && (if downListener then Open(s.downListener) else s.downListener == NO_FD)
    && (if downWorker then Open(s.downWorker) else s.downWorker == NO_FD)
    && (if upListener then Open(s.upListener) else s.upListener == NO_FD)
    && (if upWorker then Open(s.upWorker) else s.upWorker == NO_FD)
  }

  ghost predicate Unused(s: Slot) {
    s.state == CONN_UNUSED && Fds(s, false, false, false, false)
  }

  ghost predicate Accepting(s: Slot, downListener: bool) {
    s.state == CONN_ACCEPTING && Fds(s, downListener, false, false, false)
  }

  ghost predicate Connects(s: Slot, worker: nat, downListener: bool, downWorker: bool, upListener: bool, upWorker: bool) {
    s.state == CONN_CONNECTING && s.pid == worker && Fds(s, downListener, downWorker, upListener, upWorker)
  }

  ghost predicate Ends(s: Slot, downListener: bool, downWorker: bool, upListener: bool, upWorker: bool) {
    s.state in {CONN_CLOSING, CONN_ERROR} && Fds(s, downListener, downWorker, upListener, upWorker)
  }

  // What a message in flight says about its slot.
  ghost predicate Announces(m: Message, s: Slot) {
    match m
    case Accepted(_) => Accepting(s, true)
    case Connect(_, w) => Connects(s, w, true, true, false, false)
    case Connected(_, w) => Connects(s, w, true, true, true, false)
    case Abandon(_, w) => Connects(s, w, false, true, false, false)
    case Close(_) => Ends(s, true, false, true, false)
  }

  ghost predicate ListenerAt(l: Listening, s: Slot) {
    match l
    case Waiting => false
    case Found(_) => Unused(s)
    case Cleared(_) => Unused(s)
    case Claimed(_) => Accepting(s, false)
    case Saved(_) => Accepting(s, true)
    case Connecting(_, w) => Connects(s, w, true, true, false, false)
    case Joined(_, w) => Connects(s, w, true, true, true, false)
    case Dropping(_, w) => Connects(s, w, true, true, Open(s.upListener), false)
    case DroppedUp(_, w) => Connects(s, w, true, true, false, false)
    case Dropped(_, w) => Connects(s, w, false, true, false, false)
    case Closing(_) => Ends(s, true, false, true, false)
    case ClosedUp(_) => Ends(s, true, false, false, false)
    case ClosedBoth(_) => Ends(s, false, false, false, false)
  }

  ghost predicate WorkerAt(p: Working, w: nat, s: Slot) {
    match p
    case Polling => false
    case Exiting => false
    case Adopting(_) => Accepting(s, true)
    case Marked(_) => Accepting(s, true) && s.pid == w
    case Held(_) => s.state == CONN_ACCEPTING && s.pid == w && Fds(s, true, true, false, false)
    case Requesting(_) => Connects(s, w, true, true, false, false)
    case Joining(_) => Connects(s, w, true, true, true, false)
    case Registered(_) => Connects(s, w, true, true, true, true)
    case Forgetting(_) => Connects(s, w, false, true, false, false)
    case ForgottenUp(_) => Connects(s, w, false, true, false, false)
    case Forgotten(_) => Connects(s, w, false, false, false, false)
    case Ending(_, _) => Ends(s, true, true, true, true)
    case EndedUp(_, _) => Ends(s, true, true, true, false)
    case Ended(_, _) => Ends(s, true, false, true, false)
  }

  datatype World = World(slots: seq<Slot>, net: seq<Message>, listener: Listening, workers: seq<Working>, holder: seq<Holder>)

  // The one process or message that may change a slot next determines its state.
  ghost predicate Fits(x: World, i: nat)
    requires i < |x.slots| == |x.holder|
  {
    var s := x.slots[i];
    match x.holder[i]
    case Nobody => Unused(s)
    case Served => s.state == CONN_POLL && 0 <= s.pid < |x.workers| && Fds(s, true, true, true, true)
    case InFlight(m) => m.slot == i && m in x.net && Announces(m, s)
    case AtListener => x.listener != Waiting && x.listener.slot == i && ListenerAt(x.listener, s)
    case AtWorker(w) => w < |x.workers| && IsBusy(x.workers[w]) && x.workers[w].slot == i && WorkerAt(x.workers[w], w, s)
  }

  ghost predicate Good(x: World) {
    && |x.slots| == |x.holder|
    && (forall i :: 0 <= i < |x.slots| ==> Fits(x, i))
    && (forall m :: m in x.net ==> m.slot < |x.slots| && x.holder[m.slot] == InFlight(m))
    && OnePerSlot(x.net)
    && (x.listener != Waiting ==> x.listener.slot < |x.slots| && x.holder[x.listener.slot] == AtListener)
    && (forall w :: 0 <= w < |x.workers| && IsBusy(x.workers[w]) ==>
          x.workers[w].slot < |x.slots| && x.holder[x.workers[w].slot] == AtWorker(w))
  }

  ghost predicate OnePerSlot(net: seq<Message>) {
    forall j, k :: 0 <= j < k < |net| ==> net[j].slot != net[k].slot
  }

  // A descriptor is only ever open while its connection needs it.
  lemma UnusedIsClosed(x: World, i: nat)
    requires Good(x) && i < |x.slots| && x.slots[i].state == CONN_UNUSED
    ensures Fds(x.slots[i], false, false, false, false)
    ensures forall m :: m in x.net ==> m.slot != i
  {
    assert Fits(x, i);
  }

  // Every slot has at most one message in flight, and it determines the slot.
  lemma MessageDetermines(x: World, k: nat)
    requires Good(x) && k < |x.net|
    ensures x.net[k].slot < |x.slots| && Announces(x.net[k], x.slots[x.net[k].slot])
    ensures forall j :: 0 <= j < |x.net| && x.net[j].slot == x.net[k].slot ==> j == k
  {
    assert Fits(x, x.net[k].slot);
  }

  // Steps

  // A process stores to its slot.

  lemma ListenerStored(x: World, l: Listening, s: Slot)
    requires Good(x) && x.listener != Waiting && l != Waiting && l.slot == x.listener.slot && ListenerAt(l, s)
    ensures Good(x.(slots := x.slots[l.slot := s], listener := l))
  {
    hide ListenerAt, WorkerAt, Announces, Unused, Fds, OnePerSlot;
    var x' := x.(slots := x.slots[l.slot := s], listener := l);
    forall i | 0 <= i < |x.slots|
      ensures Fits(x', i)
    {
      assert Fits(x, i);
    }
  }

  lemma WorkerStored(x: World, w: nat, p: Working, s: Slot)
    requires Good(x) && w < |x.workers| && IsBusy(x.workers[w]) && IsBusy(p)
    requires p.slot == x.workers[w].slot && WorkerAt(p, w, s)
    ensures Good(x.(slots := x.slots[p.slot := s], workers := x.workers[w := p]))
  {
    hide ListenerAt, WorkerAt, Announces, Unused, Fds, OnePerSlot;
    var x' := x.(slots := x.slots[p.slot := s], workers := x.workers[w := p]);
    forall i | 0 <= i < |x.slots|
      ensures Fits(x', i)
    {
      assert Fits(x, i);
    }
  }

  // A process hands its slot over with a message.

  lemma ListenerSent(x: World, m: Message)
    requires Good(x) && x.listener != Waiting && m.slot == x.listener.slot && Announces(m, x.slots[m.slot])
    ensures Good(x.(net := x.net + [m], listener := Waiting, holder := x.holder[m.slot := InFlight(m)]))
  {
    hide ListenerAt, WorkerAt, Announces, Unused, Fds;
    var x' := x.(net := x.net + [m], listener := Waiting, holder := x.holder[m.slot := InFlight(m)]);
    forall i | 0 <= i < |x.slots|
      ensures Fits(x', i)
    {
      assert Fits(x, i);
    }
  }

  lemma WorkerSent(x: World, w: nat, p: Working, m: Message)
    requires Good(x) && w < |x.workers| && IsBusy(x.workers[w]) && !IsBusy(p)
    requires m.slot == x.workers[w].slot && Announces(m, x.slots[m.slot])
    ensures Good(x.(net := x.net + [m], workers := x.workers[w := p], holder := x.holder[m.slot := InFlight(m)]))
  {
    hide ListenerAt, WorkerAt, Announces, Unused, Fds;
    var x' := x.(net := x.net + [m], workers := x.workers[w := p], holder := x.holder[m.slot := InFlight(m)]);
    forall i | 0 <= i < |x.slots|
      ensures Fits(x', i)
    {
      assert Fits(x, i);
    }
  }

  // A process takes a slot over from a message. Messages may overtake each other.

  function Without(net: seq<Message>, k: nat): seq<Message>
    requires k < |net|
  {
    net[..k] + net[k + 1..]
  }

  lemma TakenOut(net: seq<Message>, k: nat)
    requires k < |net| && OnePerSlot(net)
    ensures OnePerSlot(Without(net, k))
    ensures forall m :: m in Without(net, k) <==> m in net && m.slot != net[k].slot
  {
    var net' := Without(net, k);
    assert forall i :: 0 <= i < |net'| ==> net'[i] == if i < k then net[i] else net[i + 1];
    forall m | m in net && m.slot != net[k].slot
      ensures m in net'
    {
      var i :| 0 <= i < |net| && net[i] == m;
      assert net'[if i < k then i else i - 1] == m;
    }
  }

  lemma ListenerTook(x: World, k: nat, l: Listening)
    requires Good(x) && x.listener == Waiting && k < |x.net| && l != Waiting && l.slot == x.net[k].slot
    requires ListenerAt(l, x.slots[l.slot])
    ensures Good(x.(net := Without(x.net, k), listener := l, holder := x.holder[l.slot := AtListener]))
  {
    hide ListenerAt, WorkerAt, Announces, Unused, Fds, OnePerSlot, Without;
    TakenOut(x.net, k);
    var x' := x.(net := Without(x.net, k), listener := l, holder := x.holder[l.slot := AtListener]);
    forall i | 0 <= i < |x.slots|
      ensures Fits(x', i)
    {
      assert Fits(x, i);
    }
  }

  lemma WorkerTook(x: World, w: nat, k: nat, p: Working)
    requires Good(x) && w < |x.workers| && x.workers[w] == Polling && k < |x.net| && IsBusy(p) && p.slot == x.net[k].slot
    requires WorkerAt(p, w, x.slots[p.slot])
    ensures Good(x.(net := Without(x.net, k), workers := x.workers[w := p], holder := x.holder[p.slot := AtWorker(w)]))
  {
    hide ListenerAt, WorkerAt, Announces, Unused, Fds, OnePerSlot, Without;
    TakenOut(x.net, k);
    var x' := x.(net := Without(x.net, k), workers := x.workers[w := p], holder := x.holder[p.slot := AtWorker(w)]);
    forall i | 0 <= i < |x.slots|
      ensures Fits(x', i)
    {
      assert Fits(x, i);
    }
  }

  // A process is done with its slot, or begins with one.

  lemma ListenerReleased(x: World, s: Slot)
    requires Good(x) && x.listener != Waiting && Unused(s)
    ensures Good(x.(slots := x.slots[x.listener.slot := s], listener := Waiting, holder := x.holder[x.listener.slot := Nobody]))
  {
    hide ListenerAt, WorkerAt, Announces, Unused, Fds, OnePerSlot;
    var x' := x.(slots := x.slots[x.listener.slot := s], listener := Waiting, holder := x.holder[x.listener.slot := Nobody]);
    forall i | 0 <= i < |x.slots|
      ensures Fits(x', i)
    {
      assert Fits(x, i);
    }
  }

  lemma WorkerReleased(x: World, w: nat, s: Slot, h: Holder)
    requires Good(x) && w < |x.workers| && IsBusy(x.workers[w])
    requires (h == Nobody && Unused(s)) || (h == Served && s.state == CONN_POLL && s.pid == w && Fds(s, true, true, true, true))
    ensures var i := x.workers[w].slot;
            Good(x.(slots := x.slots[i := s], workers := x.workers[w := Polling], holder := x.holder[i := h]))
  {
    hide ListenerAt, WorkerAt, Announces, Unused, Fds, OnePerSlot;
    var slot := x.workers[w].slot;
    var x' := x.(slots := x.slots[slot := s], workers := x.workers[w := Polling], holder := x.holder[slot := h]);
    forall i | 0 <= i < |x.slots|
      ensures Fits(x', i)
    {
      assert Fits(x, i);
    }
  }

  lemma ListenerBegan(x: World, slot: nat)
    requires Good(x) && x.listener == Waiting && slot < |x.slots| && x.slots[slot].state == CONN_UNUSED
    ensures Good(x.(listener := Found(slot), holder := x.holder[slot := AtListener]))
  {
    assert Fits(x, slot);
    var x' := x.(listener := Found(slot), holder := x.holder[slot := AtListener]);
    assert ListenerAt(Found(slot), x.slots[slot]);
    hide ListenerAt, WorkerAt, Announces, Unused, Fds, OnePerSlot;
    forall i | 0 <= i < |x.slots|
      ensures Fits(x', i)
    {
      assert Fits(x, i);
    }
  }

  lemma SlotAppended(x: World, s: Slot)
    requires Good(x) && Unused(s)
    ensures Good(x.(slots := x.slots + [s], holder := x.holder + [Nobody]))
  {
    hide ListenerAt, WorkerAt, Announces, Unused, Fds, OnePerSlot;
    var x' := x.(slots := x.slots + [s], holder := x.holder + [Nobody]);
    forall i | 0 <= i < |x'.slots|
      ensures Fits(x', i)
    {
      if i < |x.slots| {
        assert Fits(x, i);
      }
    }
  }

  lemma WorkerEnded(x: World, w: nat, slot: nat, p: Working, s: Slot)
    requires Good(x) && w < |x.workers| && x.workers[w] == Polling && slot < |x.slots| && x.slots[slot].state == CONN_POLL
    requires IsBusy(p) && p.slot == slot && (Fds(x.slots[slot], true, true, true, true) ==> WorkerAt(p, w, s))
    ensures Good(x.(slots := x.slots[slot := s], workers := x.workers[w := p], holder := x.holder[slot := AtWorker(w)]))
  {
    assert Fits(x, slot);
    var x' := x.(slots := x.slots[slot := s], workers := x.workers[w := p], holder := x.holder[slot := AtWorker(w)]);
    assert x.holder[slot] == Served;
    hide ListenerAt, WorkerAt, Announces, Unused, Fds, OnePerSlot;
    forall i | 0 <= i < |x.slots|
      ensures Fits(x', i)
    {
      assert Fits(x, i);
    }
  }

  // The states a slot goes through.
  predicate Follows(before: nat, after: nat) {
    || before == after
    || (before == CONN_UNUSED && after == CONN_ACCEPTING)
    || (before == CONN_ACCEPTING && after == CONN_CONNECTING)
    || (before == CONN_CONNECTING && after in {CONN_POLL, CONN_UNUSED})
    || (before == CONN_POLL && after in {CONN_CLOSING, CONN_ERROR})
    || (before in {CONN_CLOSING, CONN_ERROR} && after == CONN_UNUSED)
  }

  ghost predicate Progress(x: World, x': World) {
    && |x'.slots| >= |x.slots| && |x'.workers| == |x.workers|
    && forall i :: 0 <= i < |x.slots| ==> Follows(x.slots[i].state, x'.slots[i].state)
  }

  lemma SameProgress(x: World)
    ensures Progress(x, x)
  {
  }

  lemma AllDetermined(x: World)
    requires Good(x)
    ensures forall i :: 0 <= i < |x.slots| && x.slots[i].state == CONN_UNUSED ==> Fds(x.slots[i], false, false, false, false)
    ensures OnePerSlot(x.net) && forall m :: m in x.net ==> m.slot < |x.slots| && Announces(m, x.slots[m.slot])
  {
    forall i | 0 <= i < |x.slots| && x.slots[i].state == CONN_UNUSED
      ensures Fds(x.slots[i], false, false, false, false)
    {
      UnusedIsClosed(x, i);
    }
    forall m | m in x.net
      ensures m.slot < |x.slots| && Announces(m, x.slots[m.slot])
    {
      var k :| 0 <= k < |x.net| && x.net[k] == m;
      MessageDetermines(x, k);
    }
  }

  // A descriptor of one process: unchanged, taken over from the kernel where there was
  // none, or closed.
  ghost predicate Moved(before: int, after: int, fd: int) {
    before == after || (before == -1 && after == fd) || after == -1
  }

  // What a turn of one process does to the descriptors of a slot; those of the other
  // process it leaves alone.
  ghost predicate ListenerMoved(s: Slot, s': Slot, fd: nat) {
    && s'.downWorker == s.downWorker && s'.upWorker == s.upWorker
    && Moved(s.downListener, s'.downListener, fd) && Moved(s.upListener, s'.upListener, fd)
  }

  ghost predicate WorkerMoved(s: Slot, s': Slot, fd: nat) {
    && s'.downListener == s.downListener && s'.upListener == s.upListener
    && Moved(s.downWorker, s'.downWorker, fd) && Moved(s.upWorker, s'.upWorker, fd)
  }

  ghost predicate SameDescriptors(s: Slot, s': Slot) {
    && s'.downListener == s.downListener && s'.upListener == s.upListener
    && s'.downWorker == s.downWorker && s'.upWorker == s.upWorker
  }

  // The turn can be taken.
  ghost predicate Possible(turn: Turn, x: World) {
    match turn
    case ListenerRuns(_, _) => x.listener != Waiting
    case WorkerRuns(w, _) => w < |x.workers| && x.workers[w] != Polling && x.workers[w] != Exiting
    case ListenerFinds(i) => x.listener == Waiting && (i == |x.slots| || (i < |x.slots| && x.slots[i].state == CONN_UNUSED))
    case ListenerGets(k) => x.listener == Waiting && k < |x.net| && (x.net[k].Connect? || x.net[k].Close?)
    case WorkerGets(w, k) =>
      && w < |x.workers| && x.workers[w] == Polling && k < |x.net|
      && (x.net[k].Accepted? || ((x.net[k].Connected? || x.net[k].Abandon?) && x.net[k].worker == w))
    case WorkerEnds(w, i, _) =>
      && w < |x.workers| && x.workers[w] == Polling
      && i < |x.slots| && x.slots[i].state == CONN_POLL && x.slots[i].pid == w
  }

  // What one turn does: exactly the process whose turn it is goes on, if it can.
  ghost predicate Taken(turn: Turn, x: World, x': World) {
    && Progress(x, x')
    && (!Possible(turn, x) ==> x' == x)
    && (Possible(turn, x) ==>
          if turn.ListenerRuns? || turn.ListenerFinds? || turn.ListenerGets?
          then x'.listener != x.listener && x'.workers == x.workers
          else x'.listener == x.listener && x'.workers[turn.worker] != x.workers[turn.worker]
               && x'.workers == x.workers[turn.worker := x'.workers[turn.worker]])
    && (forall i :: 0 <= i < |x.slots| ==>
          match turn
          case ListenerRuns(_, fd) => ListenerMoved(x.slots[i], x'.slots[i], fd)
          case WorkerRuns(_, fd) => WorkerMoved(x.slots[i], x'.slots[i], fd)
          case _ => SameDescriptors(x.slots[i], x'.slots[i]))
    && (forall i :: |x.slots| <= i < |x'.slots| ==> x'.slots[i] == Slot(CONN_UNUSED, -1, -1, -1, -1, -1))
  }

  // Who is scheduled next, and what the kernel answers.
  datatype Turn =
    | ListenerRuns(ok: bool, fd: nat)
    | WorkerRuns(worker: nat, fd: nat)
    | ListenerFinds(slot: nat)
    | ListenerGets(k: nat)
    | WorkerGets(worker: nat, k: nat)
    | WorkerEnds(worker: nat, slot: nat, failed: bool)

  /** The shared slots, the IPC sockets, and the processes. */
  class System {
    var slots: seq<Slot>
    var net: seq<Message>
    var listener: Listening
    var workers: seq<Working>
    ghost var holder: seq<Holder>

    constructor (workers: nat)
      ensures Good(Look()) && slots == [] && net == [] && |this.workers| == workers
    {
      slots, net, listener, holder := [], [], Waiting, [];
      this.workers := seq(workers, _ => Polling);
    }

    ghost function Look(): World
      reads this
    {
      World(slots, net, listener, workers, holder)
    }

    method StoreAsListener(l: Listening, s: Slot)
      requires Good(Look()) && listener != Waiting && l != Waiting && l.slot == listener.slot && ListenerAt(l, s)
      modifies this`slots, this`listener
      ensures Good(Look()) && listener == l && slots == old(slots)[l.slot := s]
    {
      ListenerStored(Look(), l, s);
      listener, slots := l, slots[l.slot := s];
    }

    method SendAsListener(m: Message)
      requires Good(Look()) && listener != Waiting && m.slot == listener.slot && Announces(m, slots[m.slot])
      modifies this`net, this`listener, this`holder
      ensures Good(Look()) && listener == Waiting && net == old(net) + [m]
    {
      ListenerSent(Look(), m);
      listener, net, holder := Waiting, net + [m], holder[m.slot := InFlight(m)];
    }

    method StoreAsWorker(w: nat, p: Working, s: Slot)
      requires Good(Look()) && w < |workers| && IsBusy(workers[w]) && IsBusy(p) && p.slot == workers[w].slot && WorkerAt(p, w, s)
      modifies this`slots, this`workers
      ensures Good(Look()) && workers == old(workers)[w := p] && slots == old(slots)[p.slot := s]
    {
      WorkerStored(Look(), w, p, s);
      workers, slots := workers[w := p], slots[p.slot := s];
    }

    method SendAsWorker(w: nat, p: Working, m: Message)
      requires Good(Look()) && w < |workers| && IsBusy(workers[w]) && !IsBusy(p)
      requires m.slot == workers[w].slot && Announces(m, slots[m.slot])
      modifies this`net, this`workers, this`holder
      ensures Good(Look()) && workers == old(workers)[w := p] && net == old(net) + [m]
    {
      WorkerSent(Look(), w, p, m);
      workers, net, holder := workers[w := p], net + [m], holder[m.slot := InFlight(m)];
    }

    // `get_empty_connection`. Other processes may run while it looks, so that any
    // slot it has seen unused is possible.
    method FindSlot(slot: nat)
      requires Good(Look()) && listener == Waiting
      requires slot < |slots| ==> slots[slot].state == CONN_UNUSED
      requires slot <= |slots|
      modifies this`slots, this`listener, this`holder
      ensures Good(Look()) && Progress(old(Look()), Look()) && listener == Found(slot)
      ensures slots == old(slots) || (slot == |old(slots)| && slots == old(slots) + [Slot(CONN_UNUSED, -1, -1, -1, -1, -1)])
    {
      if slot == |slots| {
        var unused := Slot(CONN_UNUSED, NO_FD, NO_FD, NO_FD, NO_FD, NO_FD);
        SlotAppended(Look(), unused);
        slots, holder := slots + [unused], holder + [Nobody];
      }
      ListenerBegan(Look(), slot);
      listener, holder := Found(slot), holder[slot := AtListener];
    }

    method ReleaseAsListener(s: Slot)
      requires Good(Look()) && listener != Waiting && Unused(s)
      modifies this`slots, this`listener, this`holder
      ensures Good(Look()) && listener == Waiting && slots == old(slots)[old(listener).slot := s]
    {
      ListenerReleased(Look(), s);
      slots, listener, holder := slots[listener.slot := s], Waiting, holder[listener.slot := Nobody];
    }

    method ReleaseAsWorker(w: nat, s: Slot, ghost h: Holder)
      requires Good(Look()) && w < |workers| && IsBusy(workers[w])
      requires (h == Nobody && Unused(s)) || (h == Served && s.state == CONN_POLL && s.pid == w && Fds(s, true, true, true, true))
      modifies this`slots, this`workers, this`holder
      ensures Good(Look()) && workers == old(workers)[w := Polling] && slots == old(slots)[old(workers)[w].slot := s]
    {
      WorkerReleased(Look(), w, s, h);
      var slot := workers[w].slot;
      slots, workers, holder := slots[slot := s], workers[w := Polling], holder[slot := h];
    }

    // `accept_connection`, once it has found a slot, and the message about it.
    method AcceptStep(fd: nat)
      requires Good(Look()) && (listener.Found? || listener.Cleared? || listener.Claimed? || listener.Saved?)
      modifies this`slots, this`listener, this`net, this`holder
      ensures Good(Look()) && Progress(old(Look()), Look()) && listener != old(listener)
      ensures old(listener).slot < |old(slots)|
      ensures var i, s := old(listener).slot, old(slots)[old(listener).slot];
              match old(listener)
              case Found(_) => listener == Cleared(i) && slots == old(slots)[i := Slot(s.state, -1, -1, -1, -1, -1)]
                                 && s == Slot(s.state, s.pid, -1, -1, -1, -1)
                // The only acceptor never loses the race for the slot.
              case Cleared(_) => listener == Claimed(i) && slots == old(slots)[i := s.(state := CONN_ACCEPTING)]
              case Claimed(_) => listener == Saved(i) && slots == old(slots)[i := s.(downListener := fd)] && s.downListener == -1
              case Saved(_) => listener == Waiting && slots == old(slots)
              case _ => false
      ensures net == if old(listener).Saved? then old(net) + [Accepted(old(listener).slot)] else old(net)
    {
      hide Good, Fits;
      HeldByListener(Look());
      var s := slots[listener.slot];
      match listener
      case Found(slot) =>
        StoreAsListener(Cleared(slot), Slot(s.state, NO_FD, NO_FD, NO_FD, NO_FD, NO_FD));
      case Cleared(slot) =>
        StoreAsListener(if s.state == CONN_UNUSED then Claimed(slot) else Found(slot),
                        if s.state == CONN_UNUSED then s.(state := CONN_ACCEPTING) else s);
      case Claimed(slot) =>
        assert s.downListener < 0 && s.downWorker < 0 && s.upListener < 0 && s.upWorker < 0;
        StoreAsListener(Saved(slot), s.(downListener := fd));
      case Saved(slot) =>
        SendAsListener(Accepted(slot));
    }

    // `ipc_connect`. `ok`: the system call or the send succeeds.
    method ConnectStep(ok: bool, fd: nat)
      requires Good(Look()) && (listener.Connecting? || listener.Joined?)
      modifies this`slots, this`listener, this`net, this`holder
      ensures Good(Look()) && Progress(old(Look()), Look()) && listener != old(listener)
      ensures old(listener).slot < |old(slots)|
      ensures var i, w, s := old(listener).slot, old(listener).worker, old(slots)[old(listener).slot];
              if !ok then listener == Dropping(i, w) && slots == old(slots)
              else if old(listener).Connecting? then
                listener == Joined(i, w) && slots == old(slots)[i := s.(upListener := fd)] && s.upListener == -1
              else listener == Waiting && slots == old(slots)
      ensures net == if old(listener).Joined? && ok then old(net) + [Connected(old(listener).slot, old(listener).worker)]
                     else old(net)
    {
      hide Good, Fits;
      HeldByListener(Look());
      var s, w := slots[listener.slot], listener.worker;
      if !ok {
        StoreAsListener(Dropping(listener.slot, w), s);
      } else if listener.Connecting? {
        StoreAsListener(Joined(listener.slot, w), s.(upListener := fd));
      } else {
        SendAsListener(Connected(listener.slot, w));
      }
    }

    // The error path of `ipc_connect`.
    method DropStep()
      requires Good(Look()) && (listener.Dropping? || listener.DroppedUp? || listener.Dropped?)
      modifies this`slots, this`listener, this`net, this`holder
      ensures Good(Look()) && Progress(old(Look()), Look()) && listener != old(listener)
      ensures old(listener).slot < |old(slots)|
      ensures var i, w, s := old(listener).slot, old(listener).worker, old(slots)[old(listener).slot];
              match old(listener)
              case Dropping(_, _) => listener == DroppedUp(i, w) && slots == old(slots)[i := s.(upListener := -1)]
              case DroppedUp(_, _) => listener == Dropped(i, w) && slots == old(slots)[i := s.(downListener := -1)]
              case Dropped(_, _) => listener == Waiting && slots == old(slots)
              case _ => false
      ensures net == if old(listener).Dropped? then old(net) + [Abandon(old(listener).slot, old(listener).worker)] else old(net)
    {
      hide Good, Fits;
      HeldByListener(Look());
      var s := slots[listener.slot];
      match listener
      case Dropping(slot, w) =>
        StoreAsListener(DroppedUp(slot, w), s.(upListener := NO_FD));
      case DroppedUp(slot, w) =>
        StoreAsListener(Dropped(slot, w), s.(downListener := NO_FD));
      case Dropped(slot, w) =>
        SendAsListener(Abandon(slot, w));
    }

    // `ipc_close` of the listener.
    method CloseStep()
      requires Good(Look()) && (listener.Closing? || listener.ClosedUp? || listener.ClosedBoth?)
      modifies this`slots, this`listener, this`holder
      ensures Good(Look()) && Progress(old(Look()), Look()) && listener != old(listener)
      ensures old(listener).slot < |old(slots)|
      ensures var i, s := old(listener).slot, old(slots)[old(listener).slot];
              match old(listener)
              case Closing(_) => listener == ClosedUp(i) && slots == old(slots)[i := s.(upListener := -1)]
              case ClosedUp(_) => listener == ClosedBoth(i) && slots == old(slots)[i := s.(downListener := -1)]
              case ClosedBoth(_) => listener == Waiting && slots == old(slots)[i := s.(state := CONN_UNUSED)]
              case _ => false
    {
      hide Good, Fits;
      HeldByListener(Look());
      var s := slots[listener.slot];
      match listener
      case Closing(slot) =>
        assert s.state == CONN_ERROR || s.state == CONN_CLOSING;
        StoreAsListener(ClosedUp(slot), s.(upListener := NO_FD));
      case ClosedUp(slot) =>
        StoreAsListener(ClosedBoth(slot), s.(downListener := NO_FD));
      case ClosedBoth(slot) =>
        ReleaseAsListener(s.(state := CONN_UNUSED));
    }

    // The listener receives an IPC message.
    method ListenerReceives(k: nat)
      requires Good(Look()) && listener == Waiting && k < |net| && (net[k].Connect? || net[k].Close?)
      modifies this`net, this`listener, this`holder
      ensures Good(Look()) && Progress(old(Look()), Look()) && slots == old(slots) && net == Without(old(net), k)
      ensures listener == if old(net)[k].Connect? then Connecting(old(net)[k].slot, old(net)[k].worker) else Closing(old(net)[k].slot)
    {
      var m := net[k];
      var l := if m.Connect? then Connecting(m.slot, m.worker) else Closing(m.slot);
      MessageDetermines(Look(), k);
      hide Good, Fits, Without;
      ListenerTook(Look(), k, l);
      Within(Look(), k);
      net, listener, holder := Without(net, k), l, holder[m.slot := AtListener];
    }

    // A worker receives an IPC message; "accepted" is broadcast.
    method WorkerReceives(w: nat, k: nat)
      requires Good(Look()) && w < |workers| && workers[w] == Polling && k < |net|
      requires net[k].Accepted? || ((net[k].Connected? || net[k].Abandon?) && net[k].worker == w)
      modifies this`net, this`workers, this`holder
      ensures Good(Look()) && Progress(old(Look()), Look()) && slots == old(slots) && net == Without(old(net), k)
      ensures workers == old(workers)[w := WorkerEntry(old(net)[k])]
    {
      var m := net[k];
      var p := WorkerEntry(m);
      MessageDetermines(Look(), k);
      hide Good, Fits, Without;
      WorkerTook(Look(), w, k, p);
      Within(Look(), k);
      net, workers, holder := Without(net, k), workers[w := p], holder[m.slot := AtWorker(w)];
    }

    // `ipc_accepted`
    method AdoptStep(w: nat, fd: nat)
      requires Good(Look()) && w < |workers|
      requires workers[w].Adopting? || workers[w].Marked? || workers[w].Held? || workers[w].Requesting?
      modifies this`slots, this`workers, this`net, this`holder
      ensures Good(Look()) && Progress(old(Look()), Look()) && workers[w] != old(workers)[w]
      ensures old(workers)[w].slot < |old(slots)|
      ensures var i, s := old(workers)[w].slot, old(slots)[old(workers)[w].slot];
              match old(workers)[w]
              case Adopting(_) => workers == old(workers)[w := Marked(i)] && slots == old(slots)[i := s.(pid := w)]
              case Marked(_) => workers == old(workers)[w := Held(i)]
                                && slots == old(slots)[i := s.(downWorker := fd)] && s.downWorker == -1
              case Held(_) => workers == old(workers)[w := Requesting(i)] && slots == old(slots)[i := s.(state := CONN_CONNECTING)]
              case Requesting(_) => workers == old(workers)[w := Polling] && slots == old(slots)
              case _ => false
      ensures net == if old(workers)[w].Requesting? then old(net) + [Connect(old(workers)[w].slot, w)] else old(net)
    {
      hide Good, Fits;
      HeldByWorker(Look(), w);
      var s := slots[workers[w].slot];
      match workers[w]
      case Adopting(slot) =>
        StoreAsWorker(w, Marked(slot), s.(pid := w));
      case Marked(slot) =>
        assert s.downWorker < 0;
        StoreAsWorker(w, Held(slot), s.(downWorker := fd));
      case Held(slot) =>
        StoreAsWorker(w, Requesting(slot), s.(state := CONN_CONNECTING));
      case Requesting(slot) =>
        SendAsWorker(w, Polling, Connect(slot, w));
    }

    // `ipc_connected`
    method JoinStep(w: nat, fd: nat)
      requires Good(Look()) && w < |workers| && (workers[w].Joining? || workers[w].Registered?)
      modifies this`slots, this`workers, this`holder
      ensures Good(Look()) && Progress(old(Look()), Look()) && workers[w] != old(workers)[w]
      ensures old(workers)[w].slot < |old(slots)|
      ensures var i, s := old(workers)[w].slot, old(slots)[old(workers)[w].slot];
              if old(workers)[w].Joining? then
                workers == old(workers)[w := Registered(i)] && slots == old(slots)[i := s.(upWorker := fd)] && s.upWorker == -1
              else workers == old(workers)[w := Polling] && slots == old(slots)[i := s.(state := CONN_POLL)]
    {
      hide Good, Fits;
      HeldByWorker(Look(), w);
      var s := slots[workers[w].slot];
      if workers[w].Joining? {
        assert s.upWorker < 0;
        StoreAsWorker(w, Registered(workers[w].slot), s.(upWorker := fd));
      } else {
        ReleaseAsWorker(w, s.(state := CONN_POLL), Served);
      }
    }

    // `ipc_close` of the worker
    method ForgetStep(w: nat)
      requires Good(Look()) && w < |workers| && (workers[w].Forgetting? || workers[w].ForgottenUp? || workers[w].Forgotten?)
      modifies this`slots, this`workers, this`holder
      ensures Good(Look()) && Progress(old(Look()), Look()) && workers[w] != old(workers)[w]
      ensures old(workers)[w].slot < |old(slots)|
      ensures var i, s := old(workers)[w].slot, old(slots)[old(workers)[w].slot];
              match old(workers)[w]
              case Forgetting(_) => workers == old(workers)[w := ForgottenUp(i)] && slots == old(slots)[i := s.(upWorker := -1)]
              case ForgottenUp(_) => workers == old(workers)[w := Forgotten(i)] && slots == old(slots)[i := s.(downWorker := -1)]
              case Forgotten(_) => workers == old(workers)[w := Polling] && slots == old(slots)[i := s.(state := CONN_UNUSED)]
              case _ => false
    {
      hide Good, Fits;
      HeldByWorker(Look(), w);
      var s := slots[workers[w].slot];
      match workers[w]
      case Forgetting(slot) =>
        StoreAsWorker(w, ForgottenUp(slot), s.(upWorker := NO_FD));
      case ForgottenUp(slot) =>
        StoreAsWorker(w, Forgotten(slot), s.(downWorker := NO_FD));
      case Forgotten(slot) =>
        ReleaseAsWorker(w, s.(state := CONN_UNUSED), Nobody);
    }

    // `handle_connection` decides to end a connection.
    method EndConnection(w: nat, slot: nat, failed: bool)
      requires Good(Look()) && w < |workers| && workers[w] == Polling
      requires slot < |slots| && slots[slot].state == CONN_POLL && slots[slot].pid == w
      modifies this`slots, this`workers, this`holder
      ensures Good(Look()) && Progress(old(Look()), Look()) && workers == old(workers)[w := Ending(slot, failed)]
      ensures slots == old(slots)[slot := old(slots)[slot].(state := if failed then CONN_ERROR else CONN_CLOSING)]
    {
      var s := slots[slot].(state := if failed then CONN_ERROR else CONN_CLOSING);
      WorkerEnded(Look(), w, slot, Ending(slot, failed), s);
      slots, workers, holder := slots[slot := s], workers[w := Ending(slot, failed)], holder[slot := AtWorker(w)];
    }

    // The end of `handle_connection`. After an error the worker exits.
    method EndStep(w: nat)
      requires Good(Look()) && w < |workers| && (workers[w].Ending? || workers[w].EndedUp? || workers[w].Ended?)
      modifies this`slots, this`workers, this`net, this`holder
      ensures Good(Look()) && Progress(old(Look()), Look()) && workers[w] != old(workers)[w]
      ensures old(workers)[w].slot < |old(slots)|
      ensures var i, s := old(workers)[w].slot, old(slots)[old(workers)[w].slot];
              match old(workers)[w]
              case Ending(_, failed) => workers == old(workers)[w := EndedUp(i, failed)] && slots == old(slots)[i := s.(upWorker := -1)]
              case EndedUp(_, failed) => workers == old(workers)[w := Ended(i, failed)] && slots == old(slots)[i := s.(downWorker := -1)]
              case Ended(_, failed) => workers == old(workers)[w := if failed then Exiting else Polling] && slots == old(slots)
              case _ => false
      ensures net == if old(workers)[w].Ended? then old(net) + [Close(old(workers)[w].slot)] else old(net)
    {
      hide Good, Fits;
      HeldByWorker(Look(), w);
      var s := slots[workers[w].slot];
      match workers[w]
      case Ending(slot, failed) =>
        StoreAsWorker(w, EndedUp(slot, failed), s.(upWorker := NO_FD));
      case EndedUp(slot, failed) =>
        StoreAsWorker(w, Ended(slot, failed), s.(downWorker := NO_FD));
      case Ended(slot, failed) =>
        SendAsWorker(w, if failed then Exiting else Polling, Close(slot));
    }

    method ListenerTurn(ok: bool, fd: nat)
      requires Good(Look())
      modifies this`slots, this`listener, this`net, this`holder
      ensures Good(Look()) && Taken(ListenerRuns(ok, fd), old(Look()), Look())
    {
      hide Good, Progress;
      SameProgress(Look());
      if listener.Found? || listener.Cleared? || listener.Claimed? || listener.Saved? {
        AcceptStep(fd);
      } else if listener.Connecting? || listener.Joined? {
        ConnectStep(ok, fd);
      } else if listener.Dropping? || listener.DroppedUp? || listener.Dropped? {
        DropStep();
      } else if listener != Waiting {
        CloseStep();
      }
    }

    method WorkerTurn(w: nat, fd: nat)
      requires Good(Look()) && w < |workers|
      modifies this`slots, this`workers, this`net, this`holder
      ensures Good(Look()) && Taken(WorkerRuns(w, fd), old(Look()), Look())
    {
      hide Good, Progress;
      SameProgress(Look());
      if workers[w].Adopting? || workers[w].Marked? || workers[w].Held? || workers[w].Requesting? {
        AdoptStep(w, fd);
      } else if workers[w].Joining? || workers[w].Registered? {
        JoinStep(w, fd);
      } else if workers[w].Forgetting? || workers[w].ForgottenUp? || workers[w].Forgotten? {
        ForgetStep(w);
      } else if IsBusy(workers[w]) {
        EndStep(w);
      }
    }

    // One step of anyone. A turn that is not possible does nothing.
    method Take(turn: Turn)
      requires Good(Look())
      modifies this
      ensures Good(Look()) && Taken(turn, old(Look()), Look())
    {
      hide Good, Progress;
      SameProgress(Look());
      match turn
      case ListenerRuns(ok, fd) =>
        ListenerTurn(ok, fd);
      case WorkerRuns(w, fd) =>
        if w < |workers| {
          WorkerTurn(w, fd);
        }
      case ListenerFinds(slot) =>
        if listener == Waiting && slot <= |slots| && (slot < |slots| ==> slots[slot].state == CONN_UNUSED) {
          FindSlot(slot);
        }
      case ListenerGets(k) =>
        if listener == Waiting && k < |net| && (net[k].Connect? || net[k].Close?) {
          ListenerReceives(k);
        }
      case WorkerGets(w, k) =>
        if w < |workers| && workers[w] == Polling && k < |net|
           && (net[k].Accepted? || ((net[k].Connected? || net[k].Abandon?) && net[k].worker == w)) {
          WorkerReceives(w, k);
        }
      case WorkerEnds(w, slot, failed) =>
        if w < |workers| && workers[w] == Polling && slot < |slots| && slots[slot].state == CONN_POLL && slots[slot].pid == w {
          EndConnection(w, slot, failed);
        }
    }

    /** Any interleaving of the steps of all processes. */
    method Run(turns: seq<Turn>) returns (ghost trace: seq<World>)
      requires Good(Look())
      modifies this
      ensures Good(Look())
      // Every turn is taken, one after the other.
      ensures |trace| == |turns| + 1 && trace[0] == old(Look()) && trace[|turns|] == Look()
      ensures forall k :: 0 <= k < |turns| ==> Taken(turns[k], trace[k], trace[k + 1])
      ensures forall i :: 0 <= i < |slots| && slots[i].state == CONN_UNUSED ==> Fds(slots[i], false, false, false, false)
      ensures OnePerSlot(net) && forall m :: m in net ==> m.slot < |slots| && Announces(m, slots[m.slot])
    {
      hide Good, Fds, Announces, Taken;
      trace := [Look()];
      for i := 0 to |turns|
        invariant Good(Look()) && |trace| == i + 1 && trace[0] == old(Look()) && trace[i] == Look()
        invariant forall k :: 0 <= k < i ==> Taken(turns[k], trace[k], trace[k + 1])
      {
        Take(turns[i]);
        trace := trace + [Look()];
      }
      AllDetermined(Look());
    }
  }

  function WorkerEntry(m: Message): Working
    requires m.Accepted? || m.Connected? || m.Abandon?
  {
    match m
    case Accepted(slot) => Adopting(slot)
    case Connected(slot, _) => Joining(slot)
    case Abandon(slot, _) => Forgetting(slot)
  }

  lemma Within(x: World, k: nat)
    requires Good(x) && k < |x.net|
    ensures x.net[k].slot < |x.slots| == |x.holder|
  {
  }

  lemma HeldByWorker(x: World, w: nat)
    requires Good(x) && w < |x.workers| && IsBusy(x.workers[w])
    ensures x.workers[w].slot < |x.slots| && WorkerAt(x.workers[w], w, x.slots[x.workers[w].slot])
  {
    assert Fits(x, x.workers[w].slot);
  }

  lemma HeldByListener(x: World)
    requires Good(x) && x.listener != Waiting
    ensures x.listener.slot < |x.slots| == |x.holder| && ListenerAt(x.listener, x.slots[x.listener.slot])
  {
    assert Fits(x, x.listener.slot);
  }
}
