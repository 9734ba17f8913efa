/**
The worker's side of one proxied connection: `handle_connection` with its
I/O phase, the transformation on copied ranges, the commit through the single
store of `connection::state`, and its replay by `swap_buffers`.

A run is any sequence of such calls, each of them killed after any number of
stores, with a new worker adopting the connection in between.
*/
module Connection {
  import opened States
  import opened RingBuffer
  import opened AtomicIo
  import opened Transform
  import opened Direction
  import opened Account
  import opened Adoption

  // Which copy of each double-buffered object the transformation has written.
  datatype Choice = Choice(downRx: bool, downTx: bool, upRx: bool, upTx: bool, ctx: bool)

  function Push(b: bool, bits: nat): (r: nat)
    ensures r / 2 == bits && (r % 2 == 1) == b
  {
    (if b then 1 else 0) + 2 * bits
  }

  // Bits 8 to 12 of `connection::state`.
  function Encode(c: Choice): (state: nat)
    ensures ConnTag(state) == CONN_SWAP_BUFFERS && Decode(state) == c
    // The tag in the lowest byte, then one bit each.
    ensures state == 4 + (if c.downRx then 0x100 else 0) + (if c.downTx then 0x200 else 0) + (if c.upRx then 0x400 else 0)
                       + (if c.upTx then 0x800 else 0) + (if c.ctx then 0x1000 else 0)
  {
    var n4 := Push(c.ctx, 0);
    var n3 := Push(c.upTx, n4);
    var n2 := Push(c.upRx, n3);
    var n1 := Push(c.downTx, n2);
    var n0 := Push(c.downRx, n1);
    assert (CONN_SWAP_BUFFERS + 0x100 * n0) / 0x100 == n0;
    CONN_SWAP_BUFFERS + 0x100 * n0
  }

  function Decode(state: nat): Choice {
    var n0 := state / 0x100;
    var n1 := n0 / 2;
    var n2 := n1 / 2;
    var n3 := n2 / 2;
    var n4 := n3 / 2;
    Choice(n0 % 2 == 1, n1 % 2 == 1, n2 % 2 == 1, n3 % 2 == 1, n4 % 2 == 1)
  }

  datatype Outcome =
    | Killed              // crashed between two stores
    | Aborted             // an assert of the source failed
    | Unsafe              // copy_active_ranges reached with a ring that is not calm
    | Fatal               // returned -1, the process exits
    | Done(fuel: nat)     // returned 0

  // How the last refusal decides the end of the sends.
  ghost predicate SendEnded(before: seq<Errno>, after: seq<Errno>, r: Outcome) {
    match r
    case Killed => after == before
    case Aborted => after == before + [EINTR]
    case Fatal => after == before + [EPIPE] || after == before + [EIO]
    case Done(_) => after == before || after == before + [EAGAIN]
    case Unsafe => false
  }

  // The most stores that sending everything in a ring takes, and filling one.
  function SendStores(len: nat): nat {
    9 * (len + 1)
  }

  function RecvStores(room: nat, refusals: nat): nat {
    9 * (room + refusals + 3)
  }

  // Those of both phases.
  function IoStores(rx: Ring, tx: Ring, refusals: nat): nat {
    SendStores(tx.Active().len) + RecvStores(if rx.Active().len <= N then N - rx.Active().len else 0, refusals)
  }

  lemma RefusalsDiffer(before: seq<Errno>)
    ensures forall e :: before + [e] != before
    ensures forall e, f :: before + [e] == before + [f] ==> e == f
  {
    forall e, f | before + [e] == before + [f]
      ensures e == f
    {
      assert (before + [e])[|before|] == (before + [f])[|before|];
    }
    forall e: Errno
      ensures before + [e] != before
    {
      assert |before + [e]| == |before| + 1;
    }
  }

  // Sends until the ring is empty or the kernel refuses.
  method SendPhase(tx: AtomicRing, sock: Socket, fuel: nat) returns (r: Outcome)
    requires tx.Snap().SendValid()
    modifies tx, sock`sent, sock`sendRefusals
    ensures tx.buf[..] == old(tx.buf[..])
    ensures SendKeeps(tx.Snap(), sock.sent, old(sock.sent + tx.Snap().SendContents()), old(tx.Snap().SendRange().shutdown))
    ensures old(tx.ActiveRange().len) == 0 ==> tx.Snap() == old(tx.Snap()) && sock.sent == old(sock.sent)
    ensures r.Done? ==> tx.Snap().Quiet() || (tx.Snap() == old(tx.Snap()) && tx.ActiveRange().len == 0)
    ensures SendEnded(old(sock.sendRefusals), sock.sendRefusals, r)
    ensures r.Done? ==> tx.ActiveRange().len == 0 || sock.sendRefusals != old(sock.sendRefusals)
    ensures old(tx.ActiveRange().len) == 0 ==> r == Done(fuel)
    // With enough fuel it is not killed.
    ensures r == Killed ==> fuel < SendStores(old(tx.ActiveRange().len))
    ensures r.Done? ==> r.fuel <= fuel <= r.fuel + SendStores(old(tx.ActiveRange().len))
    ensures old(sock.sent) <= sock.sent && (sock.writeShut ==> sock.sent == old(sock.sent))
  {
    hide Contents, RingBufferLtrim;
    var left: nat := fuel;
    var first := true;
    ghost var calls, len := 0, tx.ActiveRange().len;
    while tx.ActiveRange().len > 0
      invariant tx.buf[..] == old(tx.buf[..])
      invariant SendKeeps(tx.Snap(), sock.sent, old(sock.sent + tx.Snap().SendContents()), old(tx.Snap().SendRange().shutdown))
      invariant first ==> tx.Snap() == old(tx.Snap()) && sock.sent == old(sock.sent) && left == fuel
      invariant !first ==> tx.Snap().Quiet() && old(tx.ActiveRange().len) > 0
      invariant sock.sendRefusals == old(sock.sendRefusals)
      invariant left <= fuel <= left + 9 * calls
      invariant tx.ActiveRange().len <= len && if first then calls == 0 else calls <= 1 + len - tx.ActiveRange().len
      invariant old(sock.sent) <= sock.sent && (sock.writeShut ==> sock.sent == old(sock.sent))
      decreases left
    {
      var e := tx.AtomicSend(sock, left);
      if e.Crashed? {
        return Killed;
      }
      first, left, calls := false, e.fuel, calls + 1;
      if e.rc < 0 && e.errno != EINTR {
        return if e.errno == EAGAIN then Done(left) else Fatal;
      }
      // An interrupted call fails this assert of the source.
      if e.rc <= 0 {
        return Aborted;
      }
    }
    return Done(left);
  }

  lemma MarkEof(r: Ring, unread: Bytes, stream: Bytes, fromZero: bool)
    requires RecvKeeps(r, unread, stream, false, fromZero) && r.Quiet()
    ensures RecvKeeps(r.WithActive(r.Active().(shutdown := true)), unread, stream, true, fromZero)
  {
  }

  lemma RecvOpened(r: Ring, unread: Bytes, stream: Bytes, shutdown: bool, fromZero: bool)
    requires RecvKeeps(r, unread, stream, shutdown, fromZero)
    ensures r.RecvValid() && r.RecvContents() + unread == stream && r.RecvRange().shutdown == shutdown
    ensures (fromZero ==> r.RecvRange().start == 0) && (r.EofPending() ==> unread == [])
    ensures r.Active().len <= N
  {
  }

  lemma RecvWeakened(r: Ring, unread: Bytes, stream: Bytes, atZero: bool, fromZero: bool)
    requires RecvKeeps(r, unread, stream, false, atZero) && (fromZero ==> atZero)
    ensures RecvKeeps(r, unread, stream, false, fromZero)
    ensures r.RecvValid() && r.RecvContents() + unread == stream && !r.RecvRange().shutdown
    ensures (fromZero ==> r.RecvRange().start == 0) && (r.EofPending() ==> unread == [])
  {
  }

  ghost predicate LastRefusal(before: seq<Errno>, after: seq<Errno>, e: Errno) {
    |before| < |after| && after[|after| - 1] == e
  }

  // The loop of `atomic_recv` calls, and the result of the last one.
  method ReceiveAll(rx: AtomicRing, sock: Socket, fuel: nat, ghost stream: Bytes, ghost fromZero: bool) returns (e: Exit)
    requires RecvKeeps(rx.Snap(), sock.unread, stream, false, fromZero) && rx.ActiveRange().len < N
    modifies rx, sock`unread, sock`receiveRefusals, rx.buf
    ensures RecvKeeps(rx.Snap(), sock.unread, stream, false, fromZero)
    ensures e.Returned? ==> rx.Snap().Quiet()
    ensures e.Returned? && e.AtEnd() ==> sock.unread == []
    ensures e.Returned? && e.rc < 0 && e.errno != EOVERFLOW ==>
              LastRefusal(old(sock.receiveRefusals), sock.receiveRefusals, e.errno) && e.errno != EINTR
    ensures e.Returned? && (e.rc > 0 || (e.rc < 0 && e.errno == EOVERFLOW)) ==> rx.ActiveRange().len >= N
    ensures old(sock.receiveRefusals) <= sock.receiveRefusals
    ensures var stores := RecvStores(N - old(rx.ActiveRange().len), |sock.receiveRefusals| - |old(sock.receiveRefusals)|);
            if e.Crashed? then fuel < stores else e.fuel <= fuel <= e.fuel + stores - 9
  {
    hide Contents, At, RecvKeeps;
    var left: nat := fuel;
    e := Crashed;
    var more := true;
    ghost var calls, len, before := 0, rx.ActiveRange().len, sock.receiveRefusals;
    while more
      invariant RecvKeeps(rx.Snap(), sock.unread, stream, false, fromZero)
      invariant !more ==> rx.Snap().Quiet() && e.Returned? && left == e.fuel
      invariant before <= sock.receiveRefusals
      invariant !more && e.AtEnd() ==> sock.unread == []
      invariant !more && e.rc < 0 && e.errno != EOVERFLOW ==>
                  LastRefusal(before, sock.receiveRefusals, e.errno) && e.errno != EINTR
      invariant !more && (e.rc > 0 || (e.rc < 0 && e.errno == EOVERFLOW)) ==> rx.ActiveRange().len >= N
      invariant left <= fuel <= left + 9 * calls
      invariant rx.ActiveRange().len >= len && (calls > 0 ==> rx.Snap().Quiet()) && (more ==> rx.ActiveRange().len < N)
      invariant calls <= (rx.ActiveRange().len - len) + |sock.receiveRefusals| - |before| + if more then 1 else 2
      invariant rx.ActiveRange().len <= N
      decreases more, left
    {
      RecvOpened(rx.Snap(), sock.unread, stream, false, fromZero);
      ghost var atZero := rx.Snap().RecvRange().start == 0;
      e := rx.AtomicRecv(sock, left);
      RecvWeakened(rx.Snap(), sock.unread, stream, atZero, fromZero);
      if e.Crashed? {
        return;
      }
      left, calls := e.fuel, calls + 1;
      more := e.rc != 0 && !(e.rc < 0 && e.errno != EINTR) && rx.ActiveRange().len < N;
    }
  }

  // Receives until the ring is full or the kernel has no more.
  method RecvPhase(rx: AtomicRing, sock: Socket, fuel: nat) returns (r: Outcome)
    requires rx.Snap().RecvValid() && (rx.Snap().EofPending() ==> sock.unread == [])
    requires !rx.Snap().RecvRange().shutdown
    modifies rx, sock`unread, sock`receiveRefusals, rx.buf
    ensures rx.Snap().RecvValid() && (rx.Snap().EofPending() ==> sock.unread == [])
    ensures rx.Snap().RecvContents() + sock.unread == old(rx.Snap().RecvContents() + sock.unread)
    ensures old(rx.Snap().RecvRange().start) == 0 ==> rx.Snap().RecvRange().start == 0
    ensures rx.Snap().RecvRange().shutdown ==> sock.unread == [] && rx.Snap().Quiet()
    ensures r.Done? ==> rx.Snap().Quiet()
    ensures r.Done? ==> rx.ActiveRange().len == N || rx.ActiveRange().shutdown || sock.receiveRefusals != old(sock.receiveRefusals)
    ensures old(sock.receiveRefusals) <= sock.receiveRefusals
    ensures r == Fatal ==> LastRefusal(old(sock.receiveRefusals), sock.receiveRefusals, EIO)
    // With enough fuel it is not killed.
    ensures var stores := RecvStores(N - old(rx.ActiveRange().len), |sock.receiveRefusals| - |old(sock.receiveRefusals)|);
            (r == Killed ==> fuel < stores) && (r.Done? ==> r.fuel <= fuel <= r.fuel + stores)
    ensures r == Aborted <==> old(rx.ActiveRange().len) >= N
    ensures r != Unsafe
  {
    hide Contents, At, RecvKeeps, LastRefusal;
    RecvBegins(rx.Snap(), sock.unread);
    if rx.ActiveRange().len >= N {
      return Aborted;
    }
    ghost var stream, fromZero := rx.Snap().RecvContents() + sock.unread, rx.Snap().RecvRange().start == 0;
    var e := ReceiveAll(rx, sock, fuel, stream, fromZero);
    RecvOpened(rx.Snap(), sock.unread, stream, false, fromZero);
    if e.Crashed? {
      return Killed;
    }
    if e.AtEnd() {
      if e.fuel == 0 {
        return Killed;
      }
      MarkEof(rx.Snap(), sock.unread, stream, fromZero);
      rx.StoreActive(rx.ActiveRange().(shutdown := true));
      RecvOpened(rx.Snap(), sock.unread, stream, true, fromZero);
      return Done(e.fuel - 1);
    } else if e.rc < 0 && e.errno != EAGAIN && e.errno != EOVERFLOW {
      return Fatal;
    }
    RefusedLast(old(sock.receiveRefusals), sock.receiveRefusals);
    return Done(e.fuel);
  }

  lemma RefusedLast(before: seq<Errno>, after: seq<Errno>)
    ensures LastRefusal(before, after, EAGAIN) ==> after != before
  {
  }

  function Copied(r: Ring): Ring {
    r.WithInactive(r.Active())
  }

  // The copies `transform` works on have been made.
  ghost predicate Ready(rx: Ring, tx: Ring, got: bool) {
    && rx.RecvValid() && tx.SendValid()
    && rx.Inactive() == rx.Active() && tx.Inactive() == tx.Active()
    && (!got ==> rx.Active().start == 0 && tx.Active().len == 0)
    && (tx.Active().shutdown ==> got && rx.Active().shutdown)
  }

  lemma CopiedReady(p: Protocol, pid: Bytes, whole: Bytes, rx: Ring, tx: Ring, got: bool, unread: Bytes, sent: Bytes)
    requires Flow(p, pid, whole, rx, tx, got, unread, sent) && RecvCalm(rx) && SendCalm(tx)
    ensures Ready(Copied(rx), Copied(tx), got) && PrefixStable(p)
    ensures Copied(rx).RecvValid() && Copied(tx).SendValid() && rx.RecvValid() && tx.SendValid()
  {
    hide PrefixStable, Target, Contents;
  }

  // Only the active copies count, and once the head is dealt with the process does not.
  lemma TransformedCopied(p: Protocol, pid: Bytes, pid': Bytes, rx: Ring, tx: Ring, got: bool,
                          in': Range, out': Range, buf': Bytes, got': bool)
    requires PrefixStable(p) && Copied(rx).RecvValid() && Copied(tx).SendValid() && rx.RecvValid() && tx.SendValid()
    requires Transformed(p, pid, Copied(rx), Copied(tx), got, in', out', buf', got') && (!got ==> pid == pid')
    ensures Transformed(p, pid', rx, tx, got, in', out', buf', got')
  {
    hide PrefixStable, Contents, TrimmedFrom, SameUsed;
  }

  lemma ReadyToTransform(t: Terms, v: View)
    requires Holds(t, v) && Calm(v)
    ensures PrefixStable(t.requests) && PrefixStable(t.responses)
    ensures Ready(Copied(v.downRx), Copied(v.upTx), v.got.request) && Ready(Copied(v.upRx), Copied(v.downTx), v.got.response)
  {
    hide Flow, Drained, Ready, RecvCalm, SendCalm, PrefixStable;
    CopiedReady(t.requests, [], t.wholeUp, v.downRx, v.upTx, v.got.request, v.downUnread, v.upSent);
    CopiedReady(t.responses, v.responsePid, t.wholeDown, v.upRx, v.downTx, v.got.response, v.upUnread, v.downSent);
  }

  // Drafts made from the copies are drafts of the view the copies were made from.
  lemma DraftFromCopies(t: Terms, v: View, pid: Bytes, d: Draft)
    requires Holds(t, v) && Calm(v) && PrefixStable(t.requests) && PrefixStable(t.responses)
    requires Ready(Copied(v.downRx), Copied(v.upTx), v.got.request) && Ready(Copied(v.upRx), Copied(v.downTx), v.got.response)
    requires Transformed(t.requests, [], Copied(v.downRx), Copied(v.upTx), v.got.request,
                         d.downRx, d.upTx, d.upTxBuf, d.got.request)
    requires Transformed(t.responses, pid, Copied(v.upRx), Copied(v.downTx), v.got.response,
                         d.upRx, d.downTx, d.downTxBuf, d.got.response)
    ensures DraftOf(t, v, pid, d)
  {
    hide Flow, Drained, Transformed, Ready, RecvCalm, SendCalm, PrefixStable;
    CopiedReady(t.requests, [], t.wholeUp, v.downRx, v.upTx, v.got.request, v.downUnread, v.upSent);
    CopiedReady(t.responses, v.responsePid, t.wholeDown, v.upRx, v.downTx, v.got.response, v.upUnread, v.downSent);
    TransformedCopied(t.requests, [], [], v.downRx, v.upTx, v.got.request, d.downRx, d.upTx, d.upTxBuf, d.got.request);
    TransformedCopied(t.responses, pid, ResponsePid(v, pid), v.upRx, v.downTx, v.got.response,
                      d.upRx, d.downTx, d.downTxBuf, d.got.response);
  }

  lemma CopiesOverwritten(v: View, d: Draft)
    ensures Copied(v.downRx).WithInactive(d.downRx) == v.downRx.WithInactive(d.downRx)
    ensures Copied(v.downTx).WithInactive(d.downTx) == v.downTx.WithInactive(d.downTx)
    ensures Copied(v.upRx).WithInactive(d.upRx) == v.upRx.WithInactive(d.upRx)
    ensures Copied(v.upTx).WithInactive(d.upTx) == v.upTx.WithInactive(d.upTx)
  {
  }

  lemma ScribbleFits(t: Terms, v: View)
    requires Holds(t, v)
    ensures |v.downTx.buf| == |v.upTx.buf| == N && Legal(v.downTx.Active()) && Legal(v.upTx.Active())
  {
  }

  // Transforms one direction on the inactive copies of its rings.
  method TransformRings(p: Protocol, pid: Bytes, got: bool, rx: AtomicRing, tx: AtomicRing) returns (got': bool)
    requires PrefixStable(p) && RewritesHttp(p) && rx != tx && rx.buf != tx.buf
    requires Ready(rx.Snap(), tx.Snap(), got)
    modifies rx`range0, rx`range1, tx`range0, tx`range1, tx.buf
    ensures Transformed(p, pid, old(rx.Snap()), old(tx.Snap()), got, rx.Snap().Inactive(), tx.Snap().Inactive(), tx.buf[..], got')
    ensures rx.Snap() == old(rx.Snap()).WithInactive(rx.Snap().Inactive())
    ensures tx.Snap() == old(tx.Snap()).WithInactive(tx.Snap().Inactive()).(buf := tx.buf[..])
  {
    hide PrefixStable, RewritesHttp, Contents, At, Staged, TrimmedFrom, SameUsed;
    var in', out', shutdown;
    got', in', out', shutdown := TransformDirection(p, pid, got, rx.buf, rx.InactiveRange(), tx.buf, tx.InactiveRange(),
                                                    rx.InactiveRange().shutdown, tx.InactiveRange().shutdown);
    rx.StoreInactive(in');
    tx.StoreInactive(out');
    if shutdown {
      ShutdownDirection(tx, rx);
    }
  }

  // `shutdown_direction`: marks the destination, and ends the source unless it
  // has reached its end by itself. `shutdown(SHUT_RD)` may fail.
  method ShutdownDirection(dst: AtomicRing, src: AtomicRing)
    requires src != dst
    modifies dst`range0, dst`range1, src`range0, src`range1
    ensures dst.Snap() == old(dst.Snap()).WithInactive(old(dst.InactiveRange()).(shutdown := true))
    ensures old(src.InactiveRange().shutdown) ==> src.Snap() == old(src.Snap())
    ensures src.Snap() == old(src.Snap()).WithInactive(old(src.InactiveRange()).(shutdown := src.InactiveRange().shutdown))
  {
    dst.StoreInactive(dst.InactiveRange().(shutdown := true));
    if src.InactiveRange().shutdown {
      return;
    }
    var failed: bool := *;
    if !failed {
      src.StoreInactive(src.InactiveRange().(shutdown := true));
    }
  }

  // `epoll_from_buffers`: what to wait for; a drained, shut down send ring ends
  // the output. `shutdown(SHUT_WR)` may fail.
  method EpollFromBuffers(rx: AtomicRing, tx: AtomicRing, sock: Socket) returns (ok: bool, interest: Interest)
    modifies sock`writeShut
    ensures sock.writeShut <==> old(sock.writeShut) || (ok && tx.ActiveRange().shutdown && tx.ActiveRange().len == 0)
    ensures !ok ==> tx.ActiveRange().shutdown && tx.ActiveRange().len == 0
    ensures ok ==> interest == Interest(tx.ActiveRange().len > 0, rx.ActiveRange().len < N && !rx.ActiveRange().shutdown)
    ensures ok ==> interest == InterestFor(rx.Snap(), tx.Snap())
  {
    interest := Interest(false, false);
    if tx.ActiveRange().len > 0 {
      interest := Interest(true, false);
    } else if tx.ActiveRange().shutdown {
      ok := *;
      if !ok {
        return;
      }
      sock.writeShut := true;
    }
    if rx.ActiveRange().len < N && !rx.ActiveRange().shutdown {
      interest := interest.(input := true);
    }
    ok := true;
  }

  // `EPOLLOUT`, `EPOLLIN | EPOLLRDHUP`, and `EPOLLERR | EPOLLHUP`.
  datatype Events = Events(output: bool, input: bool, broken: bool)

  // An event for which `handle_connection` goes on to receive although there is no room.
  ghost predicate NoRoom(events: Events, rx: Ring) {
    (events.input || events.broken) && !rx.Active().shutdown && rx.Active().len >= N
  }

  // The two asserts an event can fail: a send was interrupted, or the sends have
  // ended without an error, or none was due, and there is no room to receive.
  ghost predicate FailsAssert(events: Events, rx: Ring, killed: bool, before: seq<Errno>, after: seq<Errno>) {
    || after == before + [EINTR]
    || (!killed && (after == before || after == before + [EAGAIN]) && NoRoom(events, rx))
  }

  // So this event always fails one: nothing is sent before it.
  ghost predicate FailsOnFull(events: Events, rx: Ring, tx: Ring) {
    NoRoom(events, rx) && tx.Active().len == 0
  }

  // The I/O `handle_connection` does for one endpoint.
  method EndpointIo(rx: AtomicRing, tx: AtomicRing, sock: Socket, events: Events, fuel: nat) returns (r: Outcome)
    requires rx != tx && rx.buf != tx.buf && IoReady(rx.Snap(), tx.Snap(), sock.unread)
    modifies tx, rx, rx.buf, sock`sent, sock`sendRefusals, sock`unread, sock`receiveRefusals
    ensures SentFrom(old(tx.Snap()), old(sock.sent), tx.Snap(), sock.sent)
    ensures sock.writeShut ==> sock.sent == old(sock.sent)
    ensures ReceivedInto(old(rx.Snap()), old(sock.unread), rx.Snap(), sock.unread)
    ensures r.Done? ==> tx.Snap().Quiet() || (tx.Snap() == old(tx.Snap()) && !((events.output || events.broken) && tx.ActiveRange().len > 0))
    ensures r.Done? ==> rx.Snap().Quiet() || (rx.Snap() == old(rx.Snap()) && !(events.input || events.broken))
    // It sends and receives for these events, and for no others.
    ensures !(events.output || events.broken) ==> tx.Snap() == old(tx.Snap()) && sock.sent == old(sock.sent)
    ensures !(events.input || events.broken) ==> rx.Snap() == old(rx.Snap()) && sock.unread == old(sock.unread)
    // As much as possible is sent and received.
    ensures r.Done? && (events.output || events.broken) ==> tx.ActiveRange().len == 0 || sock.sendRefusals != old(sock.sendRefusals)
    ensures r.Done? && (events.input || events.broken) ==>
              rx.ActiveRange().len == N || rx.ActiveRange().shutdown || sock.receiveRefusals != old(sock.receiveRefusals)
    ensures r == Aborted <==> FailsAssert(events, old(rx.Snap()), r == Killed, old(sock.sendRefusals), sock.sendRefusals)
    ensures FailsOnFull(events, old(rx.Snap()), old(tx.Snap())) ==> r == Aborted
    ensures old(sock.receiveRefusals) <= sock.receiveRefusals
    ensures r == Fatal ==> Broken(old(sock.sendRefusals), sock.sendRefusals, old(sock.receiveRefusals), sock.receiveRefusals)
    // With enough fuel it is not killed.
    ensures var stores := IoStores(old(rx.Snap()), old(tx.Snap()), |sock.receiveRefusals| - |old(sock.receiveRefusals)|);
            (r == Killed ==> fuel < stores) && (r.Done? ==> r.fuel <= fuel <= r.fuel + stores)
    ensures r != Unsafe
  {
    hide Contents, RingBufferLtrim, At, SendEnded, FailsAssert, FailsOnFull;
    ghost var before, rx0 := sock.sendRefusals, rx.Snap();
    r := Done(fuel);
    if events.output || events.broken {
      r := SendPhase(tx, sock, fuel);
    } else {
      NoSends(before, fuel);
    }
    ghost var sends := r;
    if r.Done? && (events.input || events.broken) && !rx.ActiveRange().shutdown {
      r := RecvPhase(rx, sock, r.fuel);
    }
    AssertsExact(events, rx0, old(tx.Snap()), before, sock.sendRefusals, sends, r);
    if sends == Fatal {
      SendsBroken(before, sock.sendRefusals);
    }
  }

  // What makes the worker exit with an error.
  ghost predicate Broken(sends: seq<Errno>, sends': seq<Errno>, receives: seq<Errno>, receives': seq<Errno>) {
    sends' == sends + [EPIPE] || sends' == sends + [EIO] || LastRefusal(receives, receives', EIO)
  }

  lemma SendsBroken(before: seq<Errno>, after: seq<Errno>)
    requires SendEnded(before, after, Fatal)
    ensures after == before + [EPIPE] || after == before + [EIO]
  {
  }

  lemma NoSends(before: seq<Errno>, fuel: nat)
    ensures SendEnded(before, before, Done(fuel))
  {
  }

  lemma AssertsExact(events: Events, rx: Ring, tx: Ring, before: seq<Errno>, after: seq<Errno>, sends: Outcome, r: Outcome)
    requires SendEnded(before, after, sends)
    requires tx.Active().len == 0 ==> sends.Done?
    requires if sends.Done? && (events.input || events.broken) && !rx.Active().shutdown then r == Aborted <==> rx.Active().len >= N else r == sends
    ensures r == Aborted <==> FailsAssert(events, rx, r == Killed, before, after)
    ensures FailsOnFull(events, rx, tx) ==> r == Aborted
    ensures sends != Unsafe
  {
    RefusalsDiffer(before);
  }

  ghost predicate RecvFits(rx: Ring) {
    rx.RecvValid()
  }

  lemma RingsFit(t: Terms, v: View)
    requires Holds(t, v)
    ensures RecvFits(v.downRx) && RecvFits(v.upRx)
  {
  }

  method SendIsCalm(tx: AtomicRing) returns (calm: bool)
    ensures calm <==> SendCalm(tx.Snap())
  {
    calm := Tag(tx.state) != ATOMIC_SWAP;
  }

  method RecvIsCalm(rx: AtomicRing) returns (calm: bool)
    requires RecvFits(rx.Snap())
    ensures calm <==> RecvCalm(rx.Snap())
  {
    var tag := Tag(rx.state);
    calm := tag != ATOMIC_SWAP
         && (tag == ATOMIC_DO_SYSCALL && rx.msgLen != SENTINEL && rx.msgLen > 0 ==> End(rx.ActiveRange()) == 0);
  }

  // `epoll_from_buffers` for one endpoint.
  ghost function ShutDownstream(v: View, ok: bool): View {
    v.(downShut := v.downShut || (ok && Finished(v.downTx.Active())))
  }

  ghost function ShutUpstream(v: View, ok: bool): View {
    v.(upShut := v.upShut || (ok && Finished(v.upTx.Active())))
  }

  lemma NothingShut(t: Terms, v: View)
    ensures ShutsComplete(t, v, v)
  {
  }

  // All that `swap_buffers` shuts down is complete, whether it comes to an end or not.
  lemma ShutsRight(t: Terms, v: View, down: bool, up: bool)
    requires Holds(t, v) && v.tag == CONN_SWAP_BUFFERS
    ensures var half := ShutDownstream(v, down);
            && Holds(t, half) && ShutsComplete(t, v, half) && half == v.(downShut := half.downShut)
            && var v' := ShutUpstream(half, up);
               && Holds(t, v') && v' == v.(upShut := v'.upShut, downShut := v'.downShut)
               && ShutsComplete(t, v, v') && ShutsComplete(t, v, v'.(tag := CONN_POLL))
               && (down && up ==> FinishedShut(v'.(tag := CONN_POLL)))
  {
    ShutDecided(t, v);
    hide Holds, Finished, Target;
    if Finished(v.downTx.Active()) {
      FinishedDownComplete(t, v);
    }
    if Finished(v.upTx.Active()) {
      FinishedUpComplete(t, v);
    }
    ShutHolds(t, v, v.upShut, ShutDownstream(v, down).downShut);
    ShutHolds(t, v, ShutUpstream(v, up).upShut, ShutDownstream(v, down).downShut);
  }

  function Rx(v: View, upstream: bool): Ring {
    if upstream then v.upRx else v.downRx
  }

  function Tx(v: View, upstream: bool): Ring {
    if upstream then v.upTx else v.downTx
  }

  // A finished output has been shut down.
  ghost predicate FinishedShut(v: View) {
    (Finished(v.upTx.Active()) ==> v.upShut) && (Finished(v.downTx.Active()) ==> v.downShut)
  }

  // What an event is not for stays as it is: the other endpoint, what is unsent
  // without an event for output, what is unread without one for input.
  ghost predicate Leaves(v: View, upstream: bool, events: Events, v': View) {
    && (upstream || !(events.output || events.broken) ==> v'.downSent == v.downSent)
    && (upstream || !(events.input || events.broken) ==> v'.downUnread == v.downUnread)
    && (!upstream || !(events.output || events.broken) ==> v'.upSent == v.upSent)
    && (!upstream || !(events.input || events.broken) ==> v'.upUnread == v.upUnread)
  }

  // What one call of `handle_connection` may do besides keeping the account. A
  // call that serves the endpoint on which one was interrupted cannot go wrong,
  // and completes it.
  ghost predicate Handled(v: View, upstream: bool, events: Events, pid: Bytes, r: Outcome, v': View) {
    var heals := Heals(v, upstream, events.output || events.broken, events.input || events.broken);
    && (QuietAt(v, !upstream) ==> QuietAt(v', !upstream))
    && (heals ==> r != Unsafe)
    && (r.Done? && (AllQuiet(v) || (heals && v.tag == CONN_POLL)) ==> AllQuiet(v'))
    && (v'.responsePid == v.responsePid || (v'.responsePid == pid && !v.got.response))
    && (v.tag == CONN_SWAP_BUFFERS ==> v' == v.(tag := v'.tag, downShut := v'.downShut, upShut := v'.upShut))
    && (v.tag == CONN_CLOSING ==> r.Done? && v' == v)
    && (v.tag == CONN_ERROR ==> r == Fatal && v' == v)
  }

  // The transformation leaves alone what the I/O has done.
  lemma AfterTransform(t: Terms, v: View, upstream: bool, events: Events, sends: bool, receives: bool,
                       v1: View, pid: Bytes, v': View)
    requires Holds(t, v) && Holds(t, v1) && AllOrNothing(t, v1, pid, v')
    requires Leaves(v, upstream, events, v1) && KeepsEnds(t, v, v1) && Exhausted(t, v, upstream, sends, receives, v1)
    ensures Leaves(v, upstream, events, v') && KeepsEnds(t, v, v') && Exhausted(t, v, upstream, sends, receives, v')
  {
    hide Holds, AllOrNothing, CutUp, CutDown;
    TransformKeepsSockets(t, v1, pid, v');
    TransformKeepsEnds(t, v1, pid, v');
  }

  lemma AfterError(t: Terms, v: View, upstream: bool, events: Events, v1: View)
    requires Leaves(v, upstream, events, v1) && KeepsEnds(t, v, v1)
    ensures Leaves(v, upstream, events, v1.(tag := CONN_ERROR)) && KeepsEnds(t, v, v1.(tag := CONN_ERROR))
  {
    hide Target;
  }

  // The endpoint has been served, and then the transformation has run.
  ghost predicate ServedAndRan(t: Terms, v: View, upstream: bool, events: Events, pid: Bytes, v': View) {
    exists v1 :: Holds(t, v1) && Served(v, upstream, v1) && Completed(v, upstream, events.output || events.broken, events.input || events.broken, v1)
              && Ran(t, v1, pid, v')
  }

  lemma IoStopped(v: View, upstream: bool, events: Events, pid: Bytes, r: Outcome, v': View)
    requires v.tag == CONN_POLL && Served(v, upstream, v') && (r == Killed || r == Aborted || r == Fatal)
    ensures Handled(v, upstream, events, pid, r, v') && Handled(v, upstream, events, pid, r, v'.(tag := CONN_ERROR))
  {
    hide SentFrom, ReceivedInto, Heals, AllQuiet;
  }

  lemma StoppedUnsafe(v: View, upstream: bool, events: Events, pid: Bytes, v': View)
    requires v.tag == CONN_POLL && Served(v, upstream, v')
    requires Completed(v, upstream, events.output || events.broken, events.input || events.broken, v') && !Calm(v')
    ensures Handled(v, upstream, events, pid, Unsafe, v')
  {
    hide SentFrom, ReceivedInto, Heals, AllQuiet, Completed, Calm;
    ServedHeals(v, upstream, events.output || events.broken, events.input || events.broken, v');
  }

  lemma HandledSwap(v: View, upstream: bool, events: Events, pid: Bytes, r: Outcome, v': View)
    requires v.tag == CONN_SWAP_BUFFERS && r != Unsafe
    requires v' == v.(tag := v'.tag, downShut := v'.downShut, upShut := v'.upShut)
    ensures Handled(v, upstream, events, pid, r, v')
  {
    hide Heals;
  }

  lemma HandledIdle(v: View, upstream: bool, events: Events, pid: Bytes)
    ensures forall fuel :: v.tag == CONN_CLOSING ==> Handled(v, upstream, events, pid, Done(fuel), v)
    ensures v.tag == CONN_ERROR ==> Handled(v, upstream, events, pid, Fatal, v)
  {
    hide Heals;
  }

  lemma QuietHeals(v: View, upstream: bool, output: bool, input: bool)
    requires AllQuiet(v)
    ensures Heals(v, upstream, output, input)
  {
  }

  lemma HandledTransform(t: Terms, v: View, upstream: bool, events: Events, pid: Bytes, v1: View, r: Outcome, v': View)
    requires v.tag == CONN_POLL && Served(v, upstream, v1)
    requires Completed(v, upstream, events.output || events.broken, events.input || events.broken, v1)
    requires Holds(t, v1) && AllOrNothing(t, v1, pid, v') && r != Unsafe
    ensures Handled(v, upstream, events, pid, r, v')
  {
    hide SentFrom, ReceivedInto, Heals, Completed, Calm, AllOrNothing, Holds, RewritesHttp;
    ServedHeals(v, upstream, events.output || events.broken, events.input || events.broken, v1);
    if AllQuiet(v) {
      QuietHeals(v, upstream, events.output || events.broken, events.input || events.broken);
    }
    TransformKeepsQuiet(t, v1, pid, v', true);
    TransformKeepsQuiet(t, v1, pid, v', false);
    TransformPid(t, v1, pid, v');
  }

  // An event, the process that is to handle it, and how far it gets.
  datatype Call = Call(upstream: bool, events: Events, pid: Bytes, fuel: nat)

  // One of the outcomes is that of this call.
  ghost predicate HandledBy(v: View, call: Call, outcomes: seq<Outcome>, v': View) {
    exists r :: r in outcomes && Handled(v, call.upstream, call.events, call.pid, r, v') && Leaves(v, call.upstream, call.events, v')
  }

  // Each step of a run is a call or an adoption.
  ghost predicate Traced(trace: seq<View>, calls: seq<Call>, outcomes: seq<Outcome>, adoptions: seq<(View, View)>) {
    && |trace| <= |calls| + 1
    && forall k :: 0 <= k < |trace| - 1 ==>
         (trace[k], trace[k + 1]) in adoptions || HandledBy(trace[k], calls[k], outcomes, trace[k + 1])
  }

  lemma HandledTraced(trace: seq<View>, calls: seq<Call>, outcomes: seq<Outcome>, adoptions: seq<(View, View)>, r: Outcome, v': View)
    requires Traced(trace, calls, outcomes, adoptions) && 0 < |trace| <= |calls|
    requires var v, call := trace[|trace| - 1], calls[|trace| - 1];
             Handled(v, call.upstream, call.events, call.pid, r, v') && Leaves(v, call.upstream, call.events, v')
    ensures Traced(trace + [v'], calls, outcomes + [r], adoptions)
  {
    hide Handled, Leaves;
    var trace' := trace + [v'];
    forall k | 0 <= k < |trace|
      ensures (trace'[k], trace'[k + 1]) in adoptions || HandledBy(trace'[k], calls[k], outcomes + [r], trace'[k + 1])
    {
      if k + 1 < |trace| {
        assert trace'[k] == trace[k] && trace'[k + 1] == trace[k + 1];
      }
    }
  }

  lemma AdoptionTraced(trace: seq<View>, calls: seq<Call>, outcomes: seq<Outcome>, adoptions: seq<(View, View)>, v': View)
    requires Traced(trace, calls, outcomes, adoptions) && 0 < |trace| <= |calls|
    ensures Traced(trace + [v'], calls, outcomes, adoptions + [(trace[|trace| - 1], v')])
  {
    hide HandledBy;
    var trace' := trace + [v'];
    forall k | 0 <= k < |trace|
      ensures || (trace'[k], trace'[k + 1]) in adoptions + [(trace[|trace| - 1], v')]
              || HandledBy(trace'[k], calls[k], outcomes, trace'[k + 1])
    {
      if k + 1 < |trace| {
        assert trace'[k] == trace[k] && trace'[k + 1] == trace[k + 1];
      }
    }
  }

  predicate Interrupts(r: Outcome) {
    r == Killed || r == Aborted || r == Fatal
  }

  predicate Uninterrupted(outcomes: seq<Outcome>) {
    forall o :: o in outcomes ==> o.Done?
  }

  lemma OutcomeNoted(outcomes: seq<Outcome>, r: Outcome)
    requires Unsafe !in outcomes
    ensures Uninterrupted(outcomes + [r]) <==> Uninterrupted(outcomes) && r.Done?
    ensures !Uninterrupted(outcomes) ==> exists o :: o in outcomes + [r] && Interrupts(o)
  {
    assert forall o :: o in outcomes + [r] <==> o in outcomes || o == r;
    if !Uninterrupted(outcomes) {
      var o :| o in outcomes && !o.Done?;
      assert o in outcomes + [r] && Interrupts(o);
    }
  }

  // An adoption, given by the connection before and after it.
  ghost predicate CutsUp(t: Terms, adoption: (View, View)) {
    !CutUp(t, adoption.0) && CutUp(t, adoption.1)
  }

  ghost predicate CutsDown(t: Terms, adoption: (View, View)) {
    !CutDown(t, adoption.0) && CutDown(t, adoption.1)
  }

  lemma AdoptionNoted(t: Terms, adoptions: seq<(View, View)>, v: View, v': View)
    ensures var noted := adoptions + [(v, v')];
            && ((exists a :: a in noted && CutsUp(t, a)) <==> (exists a :: a in adoptions && CutsUp(t, a)) || CutsUp(t, (v, v')))
            && ((exists a :: a in noted && CutsDown(t, a)) <==> (exists a :: a in adoptions && CutsDown(t, a)) || CutsDown(t, (v, v')))
  {
    hide CutsUp, CutsDown;
    var noted := adoptions + [(v, v')];
    assert (v, v') in noted && forall a :: a in noted <==> a in adoptions || a == (v, v');
  }

  lemma QuietCalls(v: View, c: Call, r: Outcome, v': View)
    requires Handled(v, c.upstream, c.events, c.pid, r, v')
    ensures v'.responsePid == v.responsePid || v'.responsePid == c.pid
    ensures AllQuiet(v) ==> r != Unsafe && (r.Done? ==> AllQuiet(v'))
  {
    hide Heals, AllQuiet;
    if AllQuiet(v) {
      QuietHeals(v, c.upstream, (c.events.output || c.events.broken), (c.events.input || c.events.broken));
    }
  }

  // What a run keeps track of, besides the account.
  ghost predicate Recorded(t: Terms, calls: seq<Call>, outcomes: seq<Outcome>, adoptions: seq<(View, View)>, trace: seq<View>) {
    && 0 < |trace| == |outcomes| + |adoptions| + 1 <= |calls| + 1
    && var v, v' := trace[0], trace[|trace| - 1];
       && Traced(trace, calls, outcomes, adoptions)
       && (CutUp(t, v') <==> CutUp(t, v) || exists a :: a in adoptions && CutsUp(t, a))
       && (CutDown(t, v') <==> CutDown(t, v) || exists a :: a in adoptions && CutsDown(t, a))
       && (AllQuiet(v) && Uninterrupted(outcomes) ==> AllQuiet(v'))
       && (AllQuiet(v) && Unsafe in outcomes ==> exists o :: o in outcomes && Interrupts(o))
       && (v'.responsePid == v.responsePid || exists i :: 0 <= i < |calls| && v'.responsePid == calls[i].pid)
  }

  lemma WhatIsRecorded(t: Terms, calls: seq<Call>, outcomes: seq<Outcome>, adoptions: seq<(View, View)>, trace: seq<View>)
    requires Recorded(t, calls, outcomes, adoptions, trace)
    ensures |trace| == |outcomes| + |adoptions| + 1 && Traced(trace, calls, outcomes, adoptions)
    ensures var v, v' := trace[0], trace[|trace| - 1];
            && (CutUp(t, v') <==> CutUp(t, v) || exists a :: a in adoptions && CutsUp(t, a))
            && (CutDown(t, v') <==> CutDown(t, v) || exists a :: a in adoptions && CutsDown(t, a))
            && (AllQuiet(v) && Uninterrupted(outcomes) ==> AllQuiet(v'))
            && (AllQuiet(v) && Unsafe in outcomes ==> exists o :: o in outcomes && Interrupts(o))
            && (v'.responsePid == v.responsePid || exists i :: 0 <= i < |calls| && v'.responsePid == calls[i].pid)
  {
  }

  lemma NothingRecorded(t: Terms, calls: seq<Call>, v: View)
    ensures Recorded(t, calls, [], [], [v]) && Uninterrupted([])
  {
    hide AllQuiet, CutUp, CutDown;
  }

  lemma CallRecorded(t: Terms, calls: seq<Call>, outcomes: seq<Outcome>, adoptions: seq<(View, View)>, trace: seq<View>,
                     r: Outcome, v': View)
    requires Recorded(t, calls, outcomes, adoptions, trace) && |trace| <= |calls| && Unsafe !in outcomes
    requires var v, call := trace[|trace| - 1], calls[|trace| - 1];
             && Handled(v, call.upstream, call.events, call.pid, r, v') && Leaves(v, call.upstream, call.events, v')
             && KeepsEnds(t, v, v')
    ensures Recorded(t, calls, outcomes + [r], adoptions, trace + [v'])
    ensures Uninterrupted(outcomes + [r]) <==> Uninterrupted(outcomes) && r.Done?
  {
    hide Handled, Leaves, AllQuiet, CutUp, CutDown, CutsUp, CutsDown, Traced;
    HandledTraced(trace, calls, outcomes, adoptions, r, v');
    QuietCalls(trace[|trace| - 1], calls[|trace| - 1], r, v');
    OutcomeNoted(outcomes, r);
  }

  lemma AdoptionRecorded(t: Terms, calls: seq<Call>, outcomes: seq<Outcome>, adoptions: seq<(View, View)>, trace: seq<View>, v': View)
    requires Recorded(t, calls, outcomes, adoptions, trace) && |trace| <= |calls|
    requires !Uninterrupted(outcomes) && Unsafe !in outcomes && v'.responsePid == trace[|trace| - 1].responsePid
    requires (CutUp(t, trace[|trace| - 1]) ==> CutUp(t, v')) && (CutDown(t, trace[|trace| - 1]) ==> CutDown(t, v'))
    ensures Recorded(t, calls, outcomes, adoptions + [(trace[|trace| - 1], v')], trace + [v'])
  {
    hide AllQuiet, CutUp, CutDown, Traced, Uninterrupted;
    AdoptionTraced(trace, calls, outcomes, adoptions, v');
    AdoptionNoted(t, adoptions, trace[|trace| - 1], v');
  }

  // The ring with copy `i` active.
  ghost function With(r: AtomicRing, i: bool): Ring
    reads r, r.buf
  {
    r.Snap().(active := i)
  }

  lemma WithItself(r: AtomicRing)
    ensures With(r, r.active) == r.Snap()
  {
  }

  ghost predicate DistinctParts(down: Socket, up: Socket, a: AtomicRing, b: AtomicRing, c: AtomicRing, d: AtomicRing) {
    && down != up
    && a != b && a != c && a != d && b != c && b != d && c != d
    && a.buf != b.buf && a.buf != c.buf && a.buf != d.buf && b.buf != c.buf && b.buf != d.buf && c.buf != d.buf
  }

  /** `struct connection`, its two sockets, and the worker's epoll interest. */
  class Connection {
    const downRx: AtomicRing
    const downTx: AtomicRing
    const upRx: AtomicRing
    const upTx: AtomicRing
    const down: Socket
    const up: Socket
    const requests: Protocol
    const responses: Protocol

    var state: nat
    var ctxActive: bool
    var flags0: Flags
    var flags1: Flags

    var downEvents: Interest
    var upEvents: Interest

    // Everything the client and the server send.
    ghost const wholeUp: Bytes
    ghost const wholeDown: Bytes
    // The process that rewrote the response head.
    ghost var responsePid: Bytes

    // `ipc_connected`: empty rings, `CONN_POLL`. With `nop` (`NOP_TRANSFORM`) both
    // heads count as dealt with and nothing is recognized.
    constructor (requests: Protocol, responses: Protocol, nop: bool, down: Socket, up: Socket,
                 downRx: AtomicRing, downTx: AtomicRing, upRx: AtomicRing, upTx: AtomicRing)
      requires PrefixStable(requests) && PrefixStable(responses) && RewritesHttp(requests) && RewritesHttp(responses)
      requires nop ==> forall s: Bytes :: !requests.parse(s).Accepted? && !responses.parse(s).Accepted?
      requires DistinctParts(down, up, downRx, downTx, upRx, upTx)
      requires down.sent == up.sent == [] && !down.writeShut && !up.writeShut
      requires HeadLooksLike(requests, down.unread) && HeadLooksLike(responses, up.unread)
      requires downRx.buf.Length == downTx.buf.Length == upRx.buf.Length == upTx.buf.Length == N
      modifies downRx, downTx, upRx, upTx
      ensures Inv() && state == CONN_POLL && AllQuiet(Look())
      ensures downEvents == upEvents == Interest(false, true)
      ensures this.down == down && this.up == up && this.requests == requests && this.responses == responses
      ensures wholeUp == down.unread && wholeDown == up.unread
    {
      hide Holds, AllQuiet, PrefixStable, HeadLooksLike, RewritesHttp, Empty;
      this.requests, this.responses, this.down, this.up := requests, responses, down, up;
      this.downRx, this.downTx, this.upRx, this.upTx := downRx, downTx, upRx, upTx;
      wholeUp, wholeDown := down.unread, up.unread;
      responsePid := [];
      state, ctxActive := CONN_POLL, false;
      flags0, flags1 := Flags(nop, nop), Flags(nop, nop);
      downEvents, upEvents := Interest(false, true), Interest(false, true);
      new;
      ResetRings();
      PollingLook();
      NewHolds(Fixed(), Look());
    }

    // Whatever an earlier connection has left in the slot is overwritten.
    method ResetRings()
      requires DistinctParts(down, up, downRx, downTx, upRx, upTx)
      requires downRx.buf.Length == downTx.buf.Length == upRx.buf.Length == upTx.buf.Length == N
      modifies downRx, downTx, upRx, upTx
      ensures Empty(downRx.Snap()) && Empty(downTx.Snap()) && Empty(upRx.Snap()) && Empty(upTx.Snap())
    {
      hide Empty;
      downRx.Reset();
      downTx.Reset();
      upRx.Reset();
      upTx.Reset();
    }

    ghost function Fixed(): Terms {
      Terms(requests, responses, wholeUp, wholeDown)
    }

    predicate Swapping()
      reads this
    {
      ConnTag(state) == CONN_SWAP_BUFFERS
    }

    function ActiveFlags(): Flags
      reads this
    {
      if ctxActive then flags1 else flags0
    }

    // The copies that are active once a pending swap has been replayed.
    ghost function Selected(): Choice
      reads this, downRx, downTx, upRx, upTx
    {
      if Swapping() then Decode(state) else Choice(downRx.active, downTx.active, upRx.active, upTx.active, ctxActive)
    }

    ghost function Look(): View
      reads this, downRx, downTx, upRx, upTx, downRx.buf, downTx.buf, upRx.buf, upTx.buf, down, up
    {
      var c := Selected();
      View(ConnTag(state), With(downRx, c.downRx), With(downTx, c.downTx), With(upRx, c.upRx), With(upTx, c.upTx),
           if c.ctx then flags1 else flags0,
           down.unread, down.sent, up.unread, up.sent, down.writeShut, up.writeShut, responsePid)
    }

    ghost predicate Inv()
      reads this, downRx, downTx, upRx, upTx, downRx.buf, downTx.buf, upRx.buf, upTx.buf, down, up
    {
      && DistinctParts(down, up, downRx, downTx, upRx, upTx) && Holds(Fixed(), Look())
      && RewritesHttp(requests) && RewritesHttp(responses)
    }

    // No swap is pending, or it has been replayed.
    ghost predicate Replayed()
      reads this, downRx, downTx, upRx, upTx
    {
      Selected() == Choice(downRx.active, downTx.active, upRx.active, upTx.active, ctxActive)
    }

    // The stores of `swap_buffers`. Done again after a crash they select the same copies.
    method ReplaySwap(fuel: nat) returns (killed: bool, left: nat)
      requires DistinctParts(down, up, downRx, downTx, upRx, upTx) && Swapping()
      modifies downRx`active, downTx`active, upRx`active, upTx`active, this`ctxActive
      ensures Look() == old(Look())
      ensures killed <==> fuel < 5
      ensures !killed ==> left == fuel - 5 && Replayed()
    {
      killed, left := StoreIndices(Decode(state), fuel);
      SwapUnseen();
    }

    method StoreIndices(c: Choice, fuel: nat) returns (killed: bool, left: nat)
      requires DistinctParts(down, up, downRx, downTx, upRx, upTx)
      modifies downRx`active, downTx`active, upRx`active, upTx`active, this`ctxActive
      ensures killed <==> fuel < 5
      ensures !killed ==> left == fuel - 5
      ensures !killed ==> c == Choice(downRx.active, downTx.active, upRx.active, upTx.active, ctxActive)
    {
      if fuel >= 1 { downRx.active := c.downRx; }
      if fuel >= 2 { downTx.active := c.downTx; }
      if fuel >= 3 { upRx.active := c.upRx; }
      if fuel >= 4 { upTx.active := c.upTx; }
      if fuel >= 5 { ctxActive := c.ctx; }
      killed, left := fuel < 5, if fuel < 5 then 0 else fuel - 5;
    }

    // Nothing but the index of the ring has changed.
    twostate predicate OnlyIndex(r: AtomicRing)
      reads r, r.buf
    {
      && r.state == old(r.state) && r.msgLen == old(r.msgLen)
      && r.range0 == old(r.range0) && r.range1 == old(r.range1) && r.buf[..] == old(r.buf[..])
    }

    // While a swap is pending the indices do not matter.
    twostate lemma SwapUnseen()
      requires old(Swapping()) && state == old(state)
      requires flags0 == old(flags0) && flags1 == old(flags1) && responsePid == old(responsePid)
      requires down.unread == old(down.unread) && down.sent == old(down.sent) && down.writeShut == old(down.writeShut)
      requires up.unread == old(up.unread) && up.sent == old(up.sent) && up.writeShut == old(up.writeShut)
      requires OnlyIndex(downRx) && OnlyIndex(downTx) && OnlyIndex(upRx) && OnlyIndex(upTx)
      ensures Look() == old(Look())
    {
      hide Decode;
    }

    method PollDownstream() returns (ok: bool)
      requires down != up && Replayed()
      modifies this`downEvents, down`writeShut
      ensures Replayed()
      ensures Look() == ShutDownstream(old(Look()), ok)
      ensures ok ==> downEvents == InterestFor(old(Look()).downRx, old(Look()).downTx)
      ensures !ok ==> Finished(old(Look()).downTx.Active())
    {
      hide InterestFor, Decode;
      WithItself(downRx);
      WithItself(downTx);
      ok, downEvents := EpollFromBuffers(downRx, downTx, down);
    }

    method PollUpstream() returns (ok: bool)
      requires down != up && Replayed()
      modifies this`upEvents, up`writeShut
      ensures Replayed()
      ensures Look() == ShutUpstream(old(Look()), ok)
      ensures ok ==> upEvents == InterestFor(old(Look()).upRx, old(Look()).upTx)
      ensures !ok ==> Finished(old(Look()).upTx.Active())
    {
      hide InterestFor, Decode;
      WithItself(upRx);
      WithItself(upTx);
      ok, upEvents := EpollFromBuffers(upRx, upTx, up);
    }

    method StorePoll()
      requires Replayed()
      modifies this`state
      ensures state == CONN_POLL && Look() == old(Look()).(tag := CONN_POLL)
    {
      hide Decode;
      state := CONN_POLL;
    }

    /** `swap_buffers`: makes the committed copies active and goes back to polling. */
    method SwapBuffers(fuel: nat) returns (r: Outcome)
      requires Inv() && Swapping()
      modifies this`state, this`ctxActive, this`downEvents, this`upEvents
      modifies downRx`active, downTx`active, upRx`active, upTx`active, down`writeShut, up`writeShut
      ensures Inv()
      ensures Look() == old(Look()).(tag := Look().tag, downShut := Look().downShut, upShut := Look().upShut)
      ensures r.Done? || r == Fatal || (r == Killed && fuel < 6)
      ensures if r.Done? then state == CONN_POLL else state == old(state)
      ensures ShutsComplete(Fixed(), old(Look()), Look())
      ensures r.Done? ==> FinishedShut(Look())
      ensures r == Fatal ==> Finished(Look().downTx.Active()) || Finished(Look().upTx.Active())
      ensures r.Done? ==> downEvents == InterestFor(Look().downRx, Look().downTx) && upEvents == InterestFor(Look().upRx, Look().upTx)
    {
      hide Holds, RewritesHttp, Look, InterestFor, Replayed, DistinctParts, ShutsComplete, FinishedShut;
      hide ShutDownstream, ShutUpstream;
      ghost var t, v := Fixed(), Look();
      TagOfLook();
      NothingShut(t, v);
      var killed, left := ReplaySwap(fuel);
      if killed {
        return Killed;
      }
      DistinctSockets();
      var ok := PollDownstream();
      ShutsRight(t, v, ok, true);
      if !ok {
        return Fatal;
      }
      ok := PollUpstream();
      ShutsRight(t, v, true, ok);
      if !ok {
        return Fatal;
      }
      SwappedHolds(t, Look());
      if left == 0 {
        return Killed;
      }
      StorePoll();
      return Done(left - 1);
    }

    lemma TagOfLook()
      ensures Look().tag == ConnTag(state)
    {
    }

    lemma TheirPid()
      ensures Look().responsePid == responsePid
    {
      hide Decode;
    }

    lemma DistinctSockets()
      requires DistinctParts(down, up, downRx, downTx, upRx, upTx)
      ensures down != up
    {
    }

    // The transformation

    // `copy_active_ranges`
    method CopyActiveRanges()
      requires DistinctParts(down, up, downRx, downTx, upRx, upTx)
      modifies downRx`range0, downRx`range1, downTx`range0, downTx`range1
      modifies upRx`range0, upRx`range1, upTx`range0, upTx`range1
      ensures downRx.Snap() == Copied(old(downRx.Snap())) && downTx.Snap() == Copied(old(downTx.Snap()))
      ensures upRx.Snap() == Copied(old(upRx.Snap())) && upTx.Snap() == Copied(old(upTx.Snap()))
    {
      downRx.StoreInactive(downRx.ActiveRange());
      downTx.StoreInactive(downTx.ActiveRange());
      upRx.StoreInactive(upRx.ActiveRange());
      upTx.StoreInactive(upTx.ActiveRange());
    }

    // `transform` and `shutdown_direction` in both directions, on copied ranges.
    method TransformBoth(pid: Bytes, got: Flags) returns (got': Flags)
      requires DistinctParts(down, up, downRx, downTx, upRx, upTx)
      requires PrefixStable(requests) && PrefixStable(responses) && RewritesHttp(requests) && RewritesHttp(responses)
      requires Ready(downRx.Snap(), upTx.Snap(), got.request) && Ready(upRx.Snap(), downTx.Snap(), got.response)
      modifies downRx`range0, downRx`range1, downTx`range0, downTx`range1, downTx.buf
      modifies upRx`range0, upRx`range1, upTx`range0, upTx`range1, upTx.buf
      ensures Transformed(requests, [], old(downRx.Snap()), old(upTx.Snap()), got.request,
                          downRx.Snap().Inactive(), upTx.Snap().Inactive(), upTx.buf[..], got'.request)
      ensures Transformed(responses, pid, old(upRx.Snap()), old(downTx.Snap()), got.response,
                          upRx.Snap().Inactive(), downTx.Snap().Inactive(), downTx.buf[..], got'.response)
      ensures downRx.Snap() == old(downRx.Snap()).WithInactive(downRx.Snap().Inactive())
      ensures upRx.Snap() == old(upRx.Snap()).WithInactive(upRx.Snap().Inactive())
      ensures upTx.Snap() == old(upTx.Snap()).WithInactive(upTx.Snap().Inactive()).(buf := upTx.buf[..])
      ensures downTx.Snap() == old(downTx.Snap()).WithInactive(downTx.Snap().Inactive()).(buf := downTx.buf[..])
    {
      hide Transformed, Ready, PrefixStable, RewritesHttp;
      var request := TransformRings(requests, [], got.request, downRx, upTx);
      var response := TransformRings(responses, pid, got.response, upRx, downTx);
      got' := Flags(request, response);
    }

    lemma PollingLook()
      requires ConnTag(state) == CONN_POLL
      ensures Look() == View(CONN_POLL, downRx.Snap(), downTx.Snap(), upRx.Snap(), upTx.Snap(), ActiveFlags(),
                             down.unread, down.sent, up.unread, up.sent, down.writeShut, up.writeShut, responsePid)
    {
    }

    // The inactive copies hold the draft; the active ones are those of `v`.
    ghost predicate Drafted(v: View, d: Draft)
      reads this, downRx, downTx, upRx, upTx, downRx.buf, downTx.buf, upRx.buf, upTx.buf, down, up
    {
      Look() == Sketched(v, d) && (if ctxActive then flags0 else flags1) == d.got
    }

    method CopyAndTransform(pid: Bytes) returns (got': Flags, ghost d: Draft)
      requires Inv() && ConnTag(state) == CONN_POLL && Calm(Look())
      modifies downRx`range0, downRx`range1, downTx`range0, downTx`range1, downTx.buf
      modifies upRx`range0, upRx`range1, upTx`range0, upTx`range1, upTx.buf
      ensures DraftOf(Fixed(), old(Look()), pid, d) && got' == d.got
      ensures downRx.Snap() == Sketched(old(Look()), d).downRx && downTx.Snap() == Sketched(old(Look()), d).downTx
      ensures upRx.Snap() == Sketched(old(Look()), d).upRx && upTx.Snap() == Sketched(old(Look()), d).upTx
    {
      hide Look, Transformed, Holds, RewritesHttp, Calm, Ready, PrefixStable, DraftOf, RecvCalm, SendCalm, Copied;
      ghost var t, v := Fixed(), Look();
      PollingLook();
      ReadyToTransform(t, v);
      CopyActiveRanges();
      got' := TransformBoth(pid, ActiveFlags());
      d := Draft(downRx.Snap().Inactive(), upTx.Snap().Inactive(), upRx.Snap().Inactive(), downTx.Snap().Inactive(),
                 upTx.buf[..], downTx.buf[..], got');
      DraftFromCopies(t, v, pid, d);
      CopiesOverwritten(v, d);
    }

    // Everything from `copy_active_ranges` to the commit.
    method Prepare(pid: Bytes) returns (ghost d: Draft)
      requires Inv() && ConnTag(state) == CONN_POLL && Calm(Look())
      modifies downRx`range0, downRx`range1, downTx`range0, downTx`range1, downTx.buf
      modifies upRx`range0, upRx`range1, upTx`range0, upTx`range1, upTx.buf
      modifies this`flags0, this`flags1
      ensures DraftOf(Fixed(), old(Look()), pid, d) && Drafted(old(Look()), d)
      ensures downTx.InactiveRange() == d.downTx && upTx.InactiveRange() == d.upTx
    {
      hide Look, Holds, RewritesHttp, DraftOf, Calm;
      PollingLook();
      var got';
      got', d := CopyAndTransform(pid);
      if ctxActive {
        flags0 := got';
      } else {
        flags1 := got';
      }
      PollingLook();
    }

    // The store that commits both directions and the flags.
    method StoreCommit(pid: Bytes, ghost v: View, ghost d: Draft)
      requires v.tag == CONN_POLL && Drafted(v, d)
      modifies this`state, this`responsePid
      ensures Swapping() && Look() == Committed(v, pid, d)
    {
      hide Decode;
      var c := Choice(!downRx.active, !downTx.active, !upRx.active, !upTx.active, !ctxActive);
      state := Encode(c);
      responsePid := ResponsePid(v, pid);
    }

    method StoreClosing(pid: Bytes, ghost v: View, ghost d: Draft)
      requires v.tag == CONN_POLL && Drafted(v, d)
      modifies this`state, this`responsePid
      ensures ConnTag(state) == CONN_CLOSING
      ensures Look() == Sketched(v, d).(tag := CONN_CLOSING, responsePid := ResponsePid(v, pid))
    {
      hide Decode;
      state := CONN_CLOSING;
      responsePid := ResponsePid(v, pid);
    }

    // A crash in the middle of the transformation: any inactive range, any flags
    // and any free byte of a send ring may have been written.
    method ScribbleRings()
      requires DistinctParts(down, up, downRx, downTx, upRx, upTx)
      requires |downTx.Snap().buf| == |upTx.Snap().buf| == N && Legal(downTx.Snap().Active()) && Legal(upTx.Snap().Active())
      modifies downRx`range0, downRx`range1, downTx`range0, downTx`range1, downTx.buf
      modifies upRx`range0, upRx`range1, upTx`range0, upTx`range1, upTx.buf
      ensures Scribbled(old(downRx.Snap()), old(upTx.Snap()), downRx.Snap(), upTx.Snap())
      ensures Scribbled(old(upRx.Snap()), old(downTx.Snap()), upRx.Snap(), downTx.Snap())
    {
      hide SameUsed, At;
      downRx.ScribbleInactive();
      upTx.ScribbleFree();
      upRx.ScribbleInactive();
      downTx.ScribbleFree();
    }

    method Scribble()
      requires Inv() && ConnTag(state) == CONN_POLL && Calm(Look())
      modifies downRx`range0, downRx`range1, downTx`range0, downTx`range1, downTx.buf
      modifies upRx`range0, upRx`range1, upTx`range0, upTx`range1, upTx.buf
      modifies this`flags0, this`flags1
      ensures Inv() && NothingDone(old(Look()), Look())
    {
      hide Look, Holds, RewritesHttp, Calm, Scribbled, DistinctParts;
      ghost var v := Look();
      PollingLook();
      ScribbleFits(Fixed(), v);
      ScribbleRings();
      TearFlags();
      PollingLook();
      KilledTransform(Fixed(), v, downRx.Snap(), upTx.Snap(), upRx.Snap(), downTx.Snap());
    }

    method TearFlags()
      modifies this`flags0, this`flags1
      ensures ActiveFlags() == old(ActiveFlags())
    {
      var torn: Flags := *;
      if ctxActive {
        flags0 := torn;
      } else {
        flags1 := torn;
      }
    }

    // What a call leaves behind that was not interrupted.
    ghost predicate Rested()
      reads this, downRx, downTx, upRx, upTx, downRx.buf, downTx.buf, upRx.buf, upTx.buf, down, up
    {
      ConnTag(state) == CONN_CLOSING
      || (&& state == CONN_POLL && BothSettled(Fixed(), Look()) && Calm(Look())
          && downEvents == InterestFor(Look().downRx, Look().downTx) && upEvents == InterestFor(Look().upRx, Look().upTx)
          && FinishedShut(Look()))
    }

    // Copies, transforms both directions, commits and replays the swap.
    method Transaction(pid: Bytes, fuel: nat) returns (r: Outcome)
      requires Inv() && ConnTag(state) == CONN_POLL && Calm(Look())
      modifies this, downRx, downTx, downTx.buf, upRx, upTx, upTx.buf, down`writeShut, up`writeShut
      ensures Inv()
      ensures AllOrNothing(Fixed(), old(Look()), pid, Look())
      ensures r.Done? || r == Fatal || (r == Killed && fuel < 7)
      ensures r == Fatal ==> Finished(Look().downTx.Active()) || Finished(Look().upTx.Active())
      ensures r.Done? ==> Rested() && Ran(Fixed(), old(Look()), pid, Look())
    {
      hide Look, Holds, RewritesHttp, Calm, NothingDone, DraftOf, Drafted, AllOrNothing, BothSettled;
      hide InterestFor, DistinctParts, Committed, Sketched, ShutsComplete, FinishedShut, Ran;
      ghost var t, v := Fixed(), Look();
      TagOfLook();
      if fuel == 0 {
        Scribble();
        NothingWasDone(t, v, pid, Look());
        return Killed;
      }
      ghost var d := Prepare(pid);
      var downDraft, upDraft := downTx.InactiveRange(), upTx.InactiveRange();
      if downDraft.shutdown && downDraft.len == 0 && upDraft.shutdown && upDraft.len == 0 {
        CloseHolds(t, v, pid, d);
        StoreClosing(pid, v, d);
        AllFinished(t, v, pid, d);
        TagOfLook();
        return Done(fuel - 1);
      }
      CommitHolds(t, v, pid, d);
      StoreCommit(pid, v, d);
      TagOfLook();
      r := SwapBuffers(fuel - 1);
      TagOfLook();
      AllWasDone(t, v, pid, d, Look());
    }

    // One event

    method ServeUpstream(events: Events, fuel: nat) returns (r: Outcome)
      requires Inv() && ConnTag(state) == CONN_POLL
      modifies upTx, upRx, upRx.buf, up`sent, up`sendRefusals, up`unread, up`receiveRefusals
      ensures Inv() && ConnTag(state) == CONN_POLL && ServedUpstream(old(Look()), Look())
      ensures r.Done? ==> Completed(old(Look()), true, events.output || events.broken, events.input || events.broken, Look())
      ensures r.Done? && (events.output || events.broken) ==> Look().upTx.Active().len == 0 || up.sendRefusals != old(up.sendRefusals)
      ensures r.Done? && (events.input || events.broken) ==>
                Look().upRx.Active().len == N || Look().upRx.Active().shutdown || up.receiveRefusals != old(up.receiveRefusals)
      ensures r == Aborted <==> FailsAssert(events, old(Look()).upRx, r == Killed, old(up.sendRefusals), up.sendRefusals)
      ensures FailsOnFull(events, old(Look()).upRx, old(Look()).upTx) ==> r == Aborted
      ensures !(events.output || events.broken) ==> Look().upSent == old(Look()).upSent
      ensures !(events.input || events.broken) ==> Look().upUnread == old(Look()).upUnread
      ensures old(up.receiveRefusals) <= up.receiveRefusals
      ensures r == Fatal ==> Broken(old(up.sendRefusals), up.sendRefusals, old(up.receiveRefusals), up.receiveRefusals)
      ensures var stores := IoStores(old(Look()).upRx, old(Look()).upTx, |up.receiveRefusals| - |old(up.receiveRefusals)|);
              (r == Killed ==> fuel < stores) && (r.Done? ==> r.fuel <= fuel <= r.fuel + stores)
      ensures KeepsEnds(Fixed(), old(Look()), Look())
      ensures r != Unsafe
    {
      hide Look, Holds, RewritesHttp, SentFrom, ReceivedInto, IoReady, PrefixStable;
      ghost var t, v := Fixed(), Look();
      PollingLook();
      IoBegins(t, v);
      r := EndpointIo(upRx, upTx, up, events, fuel);
      PollingLook();
      UpstreamIo(t, v, Look());
    }

    method ServeDownstream(events: Events, fuel: nat) returns (r: Outcome)
      requires Inv() && ConnTag(state) == CONN_POLL
      modifies downTx, downRx, downRx.buf, down`sent, down`sendRefusals, down`unread, down`receiveRefusals
      ensures Inv() && ConnTag(state) == CONN_POLL && ServedDownstream(old(Look()), Look())
      ensures r.Done? ==> Completed(old(Look()), false, events.output || events.broken, events.input || events.broken, Look())
      ensures r.Done? && (events.output || events.broken) ==> Look().downTx.Active().len == 0 || down.sendRefusals != old(down.sendRefusals)
      ensures r.Done? && (events.input || events.broken) ==>
                Look().downRx.Active().len == N || Look().downRx.Active().shutdown || down.receiveRefusals != old(down.receiveRefusals)
      ensures r == Aborted <==> FailsAssert(events, old(Look()).downRx, r == Killed, old(down.sendRefusals), down.sendRefusals)
      ensures FailsOnFull(events, old(Look()).downRx, old(Look()).downTx) ==> r == Aborted
      ensures !(events.output || events.broken) ==> Look().downSent == old(Look()).downSent
      ensures !(events.input || events.broken) ==> Look().downUnread == old(Look()).downUnread
      ensures old(down.receiveRefusals) <= down.receiveRefusals
      ensures r == Fatal ==> Broken(old(down.sendRefusals), down.sendRefusals, old(down.receiveRefusals), down.receiveRefusals)
      ensures var stores := IoStores(old(Look()).downRx, old(Look()).downTx, |down.receiveRefusals| - |old(down.receiveRefusals)|);
              (r == Killed ==> fuel < stores) && (r.Done? ==> r.fuel <= fuel <= r.fuel + stores)
      ensures KeepsEnds(Fixed(), old(Look()), Look())
      ensures r != Unsafe
    {
      hide Look, Holds, RewritesHttp, SentFrom, ReceivedInto, IoReady, PrefixStable;
      ghost var t, v := Fixed(), Look();
      PollingLook();
      IoBegins(t, v);
      r := EndpointIo(downRx, downTx, down, events, fuel);
      PollingLook();
      DownstreamIo(t, v, Look());
    }

    method Serve(upstream: bool, events: Events, fuel: nat) returns (r: Outcome)
      requires Inv() && ConnTag(state) == CONN_POLL
      modifies upTx, upRx, upRx.buf, up`sent, up`sendRefusals, up`unread, up`receiveRefusals
      modifies downTx, downRx, downRx.buf, down`sent, down`sendRefusals, down`unread, down`receiveRefusals
      ensures Inv() && ConnTag(state) == CONN_POLL && Served(old(Look()), upstream, Look())
      ensures r.Done? ==> Completed(old(Look()), upstream, events.output || events.broken, events.input || events.broken, Look())
      ensures r.Done? ==> Exhausted(Fixed(), old(Look()), upstream,
                          (events.output || events.broken) && SendRefusals(upstream) == old(SendRefusals(upstream)),
                          (events.input || events.broken) && ReceiveRefusals(upstream) == old(ReceiveRefusals(upstream)), Look())
      ensures r == Aborted <==>
                FailsAssert(events, Rx(old(Look()), upstream), r == Killed, old(SendRefusals(upstream)), SendRefusals(upstream))
      ensures FailsOnFull(events, Rx(old(Look()), upstream), Tx(old(Look()), upstream)) ==> r == Aborted
      ensures old(ReceiveRefusals(upstream)) <= ReceiveRefusals(upstream)
      ensures r == Fatal ==>
                Broken(old(SendRefusals(upstream)), SendRefusals(upstream), old(ReceiveRefusals(upstream)), ReceiveRefusals(upstream))
      ensures var stores := IoStores(Rx(old(Look()), upstream), Tx(old(Look()), upstream),
                                     |ReceiveRefusals(upstream)| - |old(ReceiveRefusals(upstream))|);
              (r == Killed ==> fuel < stores) && (r.Done? ==> r.fuel <= fuel <= r.fuel + stores)
      ensures KeepsEnds(Fixed(), old(Look()), Look())
      ensures Leaves(old(Look()), upstream, events, Look())
      ensures r != Unsafe
    {
      hide Look, Holds, RewritesHttp, ServedUpstream, ServedDownstream, Exhausted, DistinctParts;
      ghost var v := Look();
      if upstream {
        r := ServeUpstream(events, fuel);
      } else {
        r := ServeDownstream(events, fuel);
      }
      OtherEndpointKept(v, upstream, Look());
      if r.Done? {
        ServedExhausts(Fixed(), v, upstream,
                          (events.output || events.broken) && SendRefusals(upstream) == old(SendRefusals(upstream)),
                       (events.input || events.broken) && ReceiveRefusals(upstream) == old(ReceiveRefusals(upstream)), Look());
      }
    }

    ghost function SendRefusals(upstream: bool): seq<Errno>
      reads down, up
    {
      if upstream then up.sendRefusals else down.sendRefusals
    }

    ghost function ReceiveRefusals(upstream: bool): seq<Errno>
      reads down, up
    {
      if upstream then up.receiveRefusals else down.receiveRefusals
    }

    // The store of `CONN_ERROR`.
    method StoreError()
      requires Inv() && ConnTag(state) == CONN_POLL
      modifies this`state
      ensures Inv() && Look() == old(Look()).(tag := CONN_ERROR)
    {
      hide Holds, RewritesHttp;
      FailedHolds(Fixed(), Look());
      state := CONN_ERROR;
    }

    // Is this a state in which `copy_active_ranges` loses nothing? The source does not ask.
    method IsCalm() returns (calm: bool)
      requires Inv() && ConnTag(state) == CONN_POLL
      ensures calm <==> Calm(Look())
    {
      hide Look, Holds, RewritesHttp, RecvCalm, SendCalm, PrefixStable, DistinctParts, RecvFits;
      PollingLook();
      RingsFit(Fixed(), Look());
      var a := RecvIsCalm(downRx);
      var b := SendIsCalm(downTx);
      var c := RecvIsCalm(upRx);
      var d := SendIsCalm(upTx);
      calm := a && b && c && d;
    }

    // `case CONN_POLL`
    method HandlePoll(upstream: bool, events: Events, pid: Bytes, fuel: nat) returns (r: Outcome)
      requires Inv() && ConnTag(state) == CONN_POLL
      modifies this, downRx, downRx.buf, downTx, downTx.buf, upRx, upRx.buf, upTx, upTx.buf, down, up
      ensures Inv()
      ensures r.Done? ==> Rested()
      ensures r.Done? && old(ConnTag(state)) == CONN_POLL ==> ServedAndRan(Fixed(), old(Look()), upstream, events, pid, Look())
      ensures Handled(old(Look()), upstream, events, pid, r, Look())
      ensures r.Done? && old(ConnTag(state)) == CONN_POLL ==>
                Exhausted(Fixed(), old(Look()), upstream,
                          (events.output || events.broken) && SendRefusals(upstream) == old(SendRefusals(upstream)),
                          (events.input || events.broken) && ReceiveRefusals(upstream) == old(ReceiveRefusals(upstream)), Look())
      ensures Leaves(old(Look()), upstream, events, Look())
      // It fails an assert exactly then.
      ensures r == Aborted <==>
                && old(ConnTag(state)) == CONN_POLL
                && FailsAssert(events, Rx(old(Look()), upstream), r == Killed, old(SendRefusals(upstream)), SendRefusals(upstream))
      ensures old(ConnTag(state)) == CONN_POLL && FailsOnFull(events, Rx(old(Look()), upstream), Tx(old(Look()), upstream)) ==>
                r == Aborted
      // It fails for a reason, and with enough fuel it is not killed.
      ensures r == Fatal ==>
                || old(ConnTag(state)) == CONN_ERROR || Finished(Look().downTx.Active()) || Finished(Look().upTx.Active())
                || Broken(old(SendRefusals(upstream)), SendRefusals(upstream), old(ReceiveRefusals(upstream)), ReceiveRefusals(upstream))
      ensures old(ReceiveRefusals(upstream)) <= ReceiveRefusals(upstream)
      ensures r == Killed ==>
                fuel < 7 + if old(ConnTag(state)) != CONN_POLL then 0 else
                         IoStores(Rx(old(Look()), upstream), Tx(old(Look()), upstream),
                                  |ReceiveRefusals(upstream)| - |old(ReceiveRefusals(upstream))|)
      ensures KeepsEnds(Fixed(), old(Look()), Look())
    {
      hide Look, Holds, RewritesHttp, AllOrNothing, Calm, Completed, Served, Handled, Rested, DistinctParts, Ran;
      hide Leaves, KeepsEnds, Exhausted;
      ghost var t, v := Fixed(), Look();
      TagOfLook();
      r := Serve(upstream, events, fuel);
      ghost var v1 := Look();
      if !r.Done? {
        IoStopped(v, upstream, events, pid, r, v1);
        AfterError(t, v, upstream, events, v1);
        var stored: bool := *;
        if r == Fatal && stored {
          StoreError();
        }
        return;
      }
      ghost var sends := (events.output || events.broken) && SendRefusals(upstream) == old(SendRefusals(upstream));
      ghost var receives := (events.input || events.broken) && ReceiveRefusals(upstream) == old(ReceiveRefusals(upstream));
      var calm := IsCalm();
      if !calm {
        StoppedUnsafe(v, upstream, events, pid, v1);
        return Unsafe;
      }
      r := Transaction(pid, r.fuel);
      HandledTransform(t, v, upstream, events, pid, v1, r, Look());
      AfterTransform(t, v, upstream, events, sends, receives, v1, pid, Look());
    }

    /** `handle_connection`: one event on one of the two sockets. */
    method HandleConnection(upstream: bool, events: Events, pid: Bytes, fuel: nat) returns (r: Outcome)
      requires Inv()
      modifies this, downRx, downRx.buf, downTx, downTx.buf, upRx, upRx.buf, upTx, upTx.buf, down, up
      ensures Inv()
      ensures r.Done? ==> Rested()
      ensures r.Done? && old(ConnTag(state)) == CONN_POLL ==> ServedAndRan(Fixed(), old(Look()), upstream, events, pid, Look())
      ensures Handled(old(Look()), upstream, events, pid, r, Look())
      ensures r.Done? && old(ConnTag(state)) == CONN_POLL ==>
                Exhausted(Fixed(), old(Look()), upstream,
                          (events.output || events.broken) && SendRefusals(upstream) == old(SendRefusals(upstream)),
                          (events.input || events.broken) && ReceiveRefusals(upstream) == old(ReceiveRefusals(upstream)), Look())
      ensures Leaves(old(Look()), upstream, events, Look())
      // What was queued is sent if the event is for output, and received what there is
      // room for if it is for input, unless the kernel refused.
      ensures r.Done? && old(ConnTag(state)) == CONN_POLL && upstream && (events.output || events.broken)
              && up.sendRefusals == old(up.sendRefusals) ==>
                up.sent == old(up.sent) + old(Look()).upTx.SendContents()
      ensures r.Done? && old(ConnTag(state)) == CONN_POLL && !upstream && (events.output || events.broken)
              && down.sendRefusals == old(down.sendRefusals) ==>
                down.sent == old(down.sent) + old(Look()).downTx.SendContents()
      ensures r.Done? && old(ConnTag(state)) == CONN_POLL && upstream && (events.input || events.broken)
              && up.receiveRefusals == old(up.receiveRefusals) && up.unread != [] ==>
                |old(up.unread)| - |up.unread| == N - |old(Look()).upRx.RecvContents()|
      ensures r.Done? && old(ConnTag(state)) == CONN_POLL && !upstream && (events.input || events.broken)
              && down.receiveRefusals == old(down.receiveRefusals) && down.unread != [] ==>
                |old(down.unread)| - |down.unread| == N - |old(Look()).downRx.RecvContents()|
      ensures upstream || !(events.output || events.broken) ==> down.sent == old(down.sent)
      ensures upstream || !(events.input || events.broken) ==> down.unread == old(down.unread)
      ensures !upstream || !(events.output || events.broken) ==> up.sent == old(up.sent)
      ensures !upstream || !(events.input || events.broken) ==> up.unread == old(up.unread)
      // It fails an assert exactly then.
      ensures r == Aborted <==>
                && old(ConnTag(state)) == CONN_POLL
                && FailsAssert(events, Rx(old(Look()), upstream), r == Killed, old(SendRefusals(upstream)), SendRefusals(upstream))
      ensures old(ConnTag(state)) == CONN_POLL && FailsOnFull(events, Rx(old(Look()), upstream), Tx(old(Look()), upstream)) ==>
                r == Aborted
      // It fails for a reason, and with enough fuel it is not killed.
      ensures r == Fatal ==>
                || old(ConnTag(state)) == CONN_ERROR || Finished(Look().downTx.Active()) || Finished(Look().upTx.Active())
                || Broken(old(SendRefusals(upstream)), SendRefusals(upstream), old(ReceiveRefusals(upstream)), ReceiveRefusals(upstream))
      ensures old(ReceiveRefusals(upstream)) <= ReceiveRefusals(upstream)
      ensures r == Killed ==>
                fuel < 7 + if old(ConnTag(state)) != CONN_POLL then 0 else
                         IoStores(Rx(old(Look()), upstream), Tx(old(Look()), upstream),
                                  |ReceiveRefusals(upstream)| - |old(ReceiveRefusals(upstream))|)
      ensures KeepsEnds(Fixed(), old(Look()), Look())
    {
      hide Look, Holds, RewritesHttp, Heals, BothSettled, Calm, AllQuiet, QuietAt, InterestFor, DistinctParts;
      ghost var t, v := Fixed(), Look();
      TagOfLook();
      KnownTag(t, v);
      HandledIdle(v, upstream, events, pid);
      SocketsOfLook();
      if ConnTag(state) == CONN_POLL {
        r := HandlePoll(upstream, events, pid, fuel);
      } else if ConnTag(state) == CONN_SWAP_BUFFERS {
        r := SwapBuffers(fuel);
        SwappedRests(t, v, Look());
        HandledSwap(v, upstream, events, pid, r, Look());
      } else if ConnTag(state) == CONN_CLOSING {
        r := Done(fuel);
      } else {
        r := Fatal;
      }
      SocketsOfLook();
    }

    lemma SocketsOfLook()
      ensures Look().upSent == up.sent && Look().upUnread == up.unread
      ensures Look().downSent == down.sent && Look().downUnread == down.unread
    {
      hide Decode;
    }

    // The connection with the ranges that are active now.
    ghost function Raw(): View
      reads this, downRx, downTx, upRx, upTx, downRx.buf, downTx.buf, upRx.buf, upTx.buf, down, up
    {
      View(ConnTag(state), downRx.Snap(), downTx.Snap(), upRx.Snap(), upTx.Snap(), ActiveFlags(),
           down.unread, down.sent, up.unread, up.sent, down.writeShut, up.writeShut, responsePid)
    }

    lemma RawLooks()
      ensures RawOf(Look(), Raw())
    {
      hide Decode;
    }

    method AdoptDownstream() returns (ok: bool)
      requires down != up
      modifies this`downEvents, down`writeShut
      ensures Look() == old(Look()).(downShut := Look().downShut) && Raw() == old(Raw()).(downShut := Look().downShut)
      ensures Look().downShut == (old(Look()).downShut || (ok && Finished(old(Raw()).downTx.Active())))
      ensures ok ==> downEvents == InterestFor(old(Raw()).downRx, old(Raw()).downTx)
      ensures !ok ==> Finished(old(Raw()).downTx.Active())
    {
      hide InterestFor, Decode;
      ok, downEvents := EpollFromBuffers(downRx, downTx, down);
    }

    method AdoptUpstream() returns (ok: bool)
      requires down != up
      modifies this`upEvents, up`writeShut
      ensures Look() == old(Look()).(upShut := Look().upShut) && Raw() == old(Raw()).(upShut := Look().upShut)
      ensures Look().upShut == (old(Look()).upShut || (ok && Finished(old(Raw()).upTx.Active())))
      ensures ok ==> upEvents == InterestFor(old(Raw()).upRx, old(Raw()).upTx)
      ensures !ok ==> Finished(old(Raw()).upTx.Active())
    {
      hide InterestFor, Decode;
      ok, upEvents := EpollFromBuffers(upRx, upTx, up);
    }

    /** The end of `ipc_orphan_upstream`: a new worker takes the connection over. */
    method Adopt() returns (ok: bool, ghost upstream: bool)
      requires Inv()
      modifies this`downEvents, this`upEvents, down`writeShut, up`writeShut
      ensures Inv() && (ok ==> upstream)
      ensures Look() == Adopted(old(Look()), old(Raw()), upstream, ok)
      // It fails only where an output has to be shut down.
      ensures !ok ==> Finished((if upstream then old(Raw()).downTx else old(Raw()).upTx).Active())
      // It waits for what the ranges it looks at suggest, which may be nothing.
      ensures ok ==>
                && downEvents == InterestFor(old(Raw()).downRx, old(Raw()).downTx)
                && upEvents == InterestFor(old(Raw()).upRx, old(Raw()).upTx)
      ensures ok ==> (downEvents == upEvents == Interest(false, false) <==> Stalled(old(Raw())))
      // Work is left waiting exactly if that is not bound to come.
      ensures ok ==> (LeftWaiting(Fixed(), Look(), downEvents, upEvents) <==> Left(Fixed(), old(Look()), old(Raw())))
      // An output is cut off exactly if its range looked finished and was not.
      ensures CutUp(Fixed(), Look()) <==>
                || old(CutUp(Fixed(), Look()))
                || (upstream && Finished(old(Raw()).upTx.Active()) && old(Queued(Look().downRx, Look().upTx)))
      ensures CutDown(Fixed(), Look()) <==>
                || old(CutDown(Fixed(), Look()))
                || (ok && Finished(old(Raw()).downTx.Active()) && old(Queued(Look().upRx, Look().downTx)))
    {
      hide Look, Raw, Holds, RewritesHttp, DistinctParts, InterestFor, Finished, CutUp, CutDown, Queued, RawOf, Stalled;
      hide LeftWaiting, Left;
      ghost var t, v, raw := Fixed(), Look(), Raw();
      RawLooks();
      LeftExact(t, v, raw);
      StalledExact(raw);
      DistinctSockets();
      ok := AdoptUpstream();
      upstream := ok;
      if ok {
        ok := AdoptDownstream();
      }
      CutShort(t, v, raw, upstream, ok);
      DueWhateverIsShut(t, v, InterestFor(raw.downRx, raw.downTx), InterestFor(raw.upRx, raw.upTx), Look().upShut, Look().downShut);
    }

    // After a call that was not interrupted there is something to wait for, for this
    // worker and for one that adopts the connection then.
    lemma Waits()
      requires Inv() && Rested() && ConnTag(state) == CONN_POLL
      ensures downEvents != Interest(false, false) || upEvents != Interest(false, false)
      ensures !Stalled(Raw()) && (AllQuiet(Look()) ==> !Due(Fixed(), Look()))
      ensures Look().got.request && Look().downRx.Active().len > 0 ==> upEvents.output
      ensures Look().got.response && Look().upRx.Active().len > 0 ==> downEvents.output
      // Without a decided head it waits for the rest of one.
      ensures !Look().got.request ==> AwaitsHead(requests, Look().downRx) && downEvents.input
      ensures !Look().got.response ==> AwaitsHead(responses, Look().upRx) && upEvents.input
    {
      hide Look, Raw, Holds, RewritesHttp, BothSettled, Calm, InterestFor, Stalled, Due, AllQuiet;
      TagOfLook();
      RawLooks();
      NoStall(Fixed(), Look());
      NeverStalled(Fixed(), Look());
      if AllQuiet(Look()) {
        NothingDue(Fixed(), Look());
      }
    }

    lemma Delivered()
      requires Inv()
      ensures up.sent <= Target(requests, [], wholeUp) && down.sent <= Target(responses, responsePid, wholeDown)
      ensures ConnTag(state) == CONN_CLOSING ==>
                && up.sent == Target(requests, [], wholeUp) && down.unread == []
                && down.sent == Target(responses, responsePid, wholeDown) && up.unread == []
    {
      hide Target, Decode, Flow, Calm;
      DeliveredPrefix(Fixed(), Look());
    }

    method Perform(call: Call) returns (r: Outcome)
      requires Inv()
      modifies this, downRx, downRx.buf, downTx, downTx.buf, upRx, upRx.buf, upTx, upTx.buf, down, up
      ensures Inv() && (r.Done? ==> Rested())
      ensures Handled(old(Look()), call.upstream, call.events, call.pid, r, Look())
      ensures Leaves(old(Look()), call.upstream, call.events, Look()) && KeepsEnds(Fixed(), old(Look()), Look())
    {
      r := HandleConnection(call.upstream, call.events, call.pid, call.fuel);
    }

    /**
    Any sequence of events, each call killed after any number of stores and a new
    worker taking over, which may take several attempts. The run ends early when a
    transformation would start on rings that are not calm.
    */
    method Run(calls: seq<Call>)
        returns (outcomes: seq<Outcome>, ghost adoptions: seq<(View, View)>, ghost trace: seq<View>)
      requires Inv()
      modifies this, downRx, downRx.buf, downTx, downTx.buf, upRx, upRx.buf, upTx, upTx.buf, down, up
      ensures Inv()
      // Each call takes place, or the adoption before the next one. Only an unsafe copy
      // ends the run early.
      ensures |trace| == |outcomes| + |adoptions| + 1 && trace[0] == old(Look()) && trace[|trace| - 1] == Look()
      ensures Traced(trace, calls, outcomes, adoptions)
      ensures if Unsafe in outcomes then |outcomes| + |adoptions| <= |calls| && outcomes[|outcomes| - 1] == Unsafe
              else |outcomes| + |adoptions| == |calls|
      ensures up.sent <= Target(requests, [], wholeUp) && down.sent <= Target(responses, responsePid, wholeDown)
      ensures ConnTag(state) == CONN_CLOSING ==>
                && up.sent == Target(requests, [], wholeUp) && down.unread == []
                && down.sent == Target(responses, responsePid, wholeDown) && up.unread == []
      // Without an interruption nothing is adopted, and everything stays in order.
      ensures Uninterrupted(outcomes) ==> adoptions == [] && (outcomes != [] ==> Rested())
      ensures Uninterrupted(outcomes) && !old(up.writeShut) && up.writeShut ==>
                up.sent == Target(requests, [], wholeUp) && down.unread == []
      ensures Uninterrupted(outcomes) && !old(down.writeShut) && down.writeShut ==>
                down.sent == Target(responses, responsePid, wholeDown) && up.unread == []
      ensures old(AllQuiet(Look())) && Uninterrupted(outcomes) ==> AllQuiet(Look())
      ensures old(AllQuiet(Look())) && Unsafe in outcomes ==> exists o :: o in outcomes && Interrupts(o)
      // In any case only an adoption cuts an output off.
      ensures CutUp(Fixed(), Look()) <==>
                old(CutUp(Fixed(), Look())) || exists a :: a in adoptions && CutsUp(Fixed(), a)
      ensures CutDown(Fixed(), Look()) <==>
                old(CutDown(Fixed(), Look())) || exists a :: a in adoptions && CutsDown(Fixed(), a)
      ensures responsePid == old(responsePid) || exists i :: 0 <= i < |calls| && responsePid == calls[i].pid
    {
      hide Look, Raw, Holds, RewritesHttp, Handled, AllQuiet, Rested, Target, Adopted, CutUp, CutDown, Queued, Stalled;
      hide FailsAssert, FailsOnFull, Broken, Finished, IoStores, Exhausted, ServedAndRan, Left, LeftWaiting;
      hide Leaves, KeepsEnds, Recorded, Uninterrupted;
      NotShutNotCut();
      TheirPid();
      NothingRecorded(Fixed(), calls, Look());
      outcomes, adoptions, trace := [], [], [Look()];
      var adopted := true;
      for i := 0 to |calls|
        invariant Inv() && Unsafe !in outcomes
        invariant Uninterrupted(outcomes) ==> adopted && adoptions == [] && (outcomes != [] ==> Rested())
        invariant |trace| == i + 1 && trace[0] == old(Look()) && trace[i] == Look()
        invariant Recorded(Fixed(), calls, outcomes, adoptions, trace)
      {
        TheirPid();
        if !adopted {
          ghost var upstream;
          adopted, upstream := Adopt();
          TheirPid();
          AdoptionRecorded(Fixed(), calls, outcomes, adoptions, trace, Look());
          adoptions := adoptions + [(trace[i], Look())];
        } else {
          var r := Perform(calls[i]);
          CallRecorded(Fixed(), calls, outcomes, adoptions, trace, r, Look());
          outcomes := outcomes + [r];
          adopted := r.Done?;
          if r == Unsafe {
            trace := trace + [Look()];
            break;
          }
        }
        trace := trace + [Look()];
      }
      WhatIsRecorded(Fixed(), calls, outcomes, adoptions, trace);
      TheirPid();
      Delivered();
      Ended();
    }

    lemma Ended()
      requires Inv()
      ensures up.writeShut && !CutUp(Fixed(), Look()) ==> up.sent == Target(requests, [], wholeUp) && down.unread == []
      ensures down.writeShut && !CutDown(Fixed(), Look()) ==> down.sent == Target(responses, responsePid, wholeDown) && up.unread == []
    {
      hide Target, Decode, Holds;
      NothingLeft(Fixed(), Look());
    }

    lemma NotShutNotCut()
      ensures !up.writeShut ==> !CutUp(Fixed(), Look())
      ensures !down.writeShut ==> !CutDown(Fixed(), Look())
    {
      hide UpComplete, DownComplete, Decode;
    }
  }
}
