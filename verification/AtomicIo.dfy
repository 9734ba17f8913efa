/**
`atomic_send` and `atomic_recv`: a system call and the update of the ring that
follows it, arranged so that the process can be killed between any two stores
and the next call finishes what was begun.

A call takes a number `fuel` of stores and system calls the process still
performs; when it is used up the call ends `Crashed` with the ring as it is then,
and its locals are lost. A struct assignment that is interrupted leaves an
arbitrary struct behind. Statements about every `fuel` are statements about a
crash at every store.
*/
module AtomicIo {
  import opened RingBuffer

  // The low seven bits of `atomic_ring_buffer::state` and, in bit 7, the index of a range.
  const ATOMIC_INIT := 0
  const ATOMIC_DO_SYSCALL := 1
  const ATOMIC_SWAP := 0x7F

  // `(unsigned int)-1`
  const SENTINEL := 0xFFFF_FFFF

  function Tag(state: nat): nat {
    state % 0x80
  }

  predicate Bit7(state: nat) {
    state / 0x80 % 2 == 1
  }

  function SwapState(bit: bool): (state: nat)
    ensures Tag(state) == ATOMIC_SWAP && Bit7(state) == bit
  {
    ATOMIC_SWAP + if bit then 0x80 else 0
  }

  /** What an `atomic_ring_buffer` holds at one moment. */
  datatype Ring = Ring(state: nat, msgLen: nat, active: bool, range0: Range, range1: Range, buf: Bytes) {
    function RangeAt(i: bool): Range {
      if i then range1 else range0
    }

    function Active(): Range {
      RangeAt(active)
    }

    function Inactive(): Range {
      RangeAt(!active)
    }

    function WithActive(r: Range): Ring {
      if active then this.(range1 := r) else this.(range0 := r)
    }

    function WithInactive(r: Range): Ring {
      if active then this.(range0 := r) else this.(range1 := r)
    }

    // A system call has finished but the ranges do not show it yet.
    predicate Pending() {
      Tag(state) == ATOMIC_SWAP || (Tag(state) == ATOMIC_DO_SYSCALL && msgLen != SENTINEL)
    }

    // A receive has returned 0 and `ATOMIC_INIT` is not stored yet.
    predicate EofPending() {
      Tag(state) == ATOMIC_DO_SYSCALL && msgLen == 0
    }

    // The range the call was made on.
    function SendBase(): Range {
      if Tag(state) == ATOMIC_SWAP then RangeAt(Bit7(state)) else Active()
    }

    function RecvBase(): Range {
      if Tag(state) == ATOMIC_SWAP then RangeAt(!Bit7(state)) else Active()
    }

    // A pending receive counts as received, a pending send as sent.
    function RecvRange(): Range {
      if Pending() then Extend(RecvBase(), msgLen) else Active()
    }

    ghost function SendRange(): Range
      requires Legal(SendBase())
    {
      if Pending() then RingBufferLtrim(SendBase(), msgLen) else Active()
    }

    ghost predicate Quiet() {
      Tag(state) == ATOMIC_INIT || (Tag(state) == ATOMIC_DO_SYSCALL && msgLen == SENTINEL)
    }

    // The states a send ring is in between any two stores of any sequence of calls.
    ghost predicate SendValid() {
      && |buf| == N
      && Legal(Active()) && Legal(SendBase())
      && Tag(state) in {ATOMIC_INIT, ATOMIC_DO_SYSCALL, ATOMIC_SWAP}
      && (Pending() ==> 1 <= msgLen <= SendBase().len)
      && (Tag(state) == ATOMIC_SWAP && active != Bit7(state) ==> Active() == SendRange())
    }

    ghost predicate RecvValid() {
      && |buf| == N
      && Legal(Active()) && Legal(RecvBase())
      && Tag(state) in {ATOMIC_INIT, ATOMIC_DO_SYSCALL, ATOMIC_SWAP}
      && (Tag(state) == ATOMIC_DO_SYSCALL ==> Active().len < N)
      && (Pending() ==> msgLen <= N - RecvBase().len)
      && (Tag(state) == ATOMIC_SWAP ==> 1 <= msgLen)
      && (Tag(state) == ATOMIC_SWAP && active == Bit7(state) ==> Active() == RecvRange())
    }

    // The bytes still to be sent.
    ghost function SendContents(): Bytes
      requires SendValid()
    {
      Contents(buf, SendRange())
    }

    // The bytes received and not yet forwarded.
    ghost function RecvContents(): Bytes
      requires RecvValid()
    {
      Contents(buf, RecvRange())
    }
  }

  // What holds of a send ring at every store: it is in a legal state and shows
  // exactly the bytes of `stream` that the kernel has not accepted.
  ghost predicate SendKeeps(r: Ring, sent: Bytes, stream: Bytes, shutdown: bool) {
    r.SendValid() && sent + r.SendContents() == stream && r.SendRange().shutdown == shutdown
  }

  // What holds of a receive ring at every store: it shows exactly the bytes of
  // `stream` that the kernel has handed out.
  ghost predicate RecvKeeps(r: Ring, unread: Bytes, stream: Bytes, shutdown: bool, fromZero: bool) {
    && r.RecvValid() && r.RecvContents() + unread == stream
    && r.RecvRange().shutdown == shutdown && (fromZero ==> r.RecvRange().start == 0)
    && (r.EofPending() ==> unread == [])
  }

  // The stores of `atomic_send`, one by one.

  lemma SendArm(r: Ring, sent: Bytes, stream: Bytes, shutdown: bool)
    requires SendKeeps(r, sent, stream, shutdown) && Tag(r.state) == ATOMIC_INIT
    ensures SendKeeps(r.(msgLen := SENTINEL), sent, stream, shutdown)
    ensures SendKeeps(r.(msgLen := SENTINEL, state := ATOMIC_DO_SYSCALL), sent, stream, shutdown)
  {
  }

  lemma MovedOver(sent: Bytes, rest: Bytes, k: nat)
    requires k <= |rest|
    ensures (sent + rest[..k]) + rest[k..] == sent + rest
  {
  }

  lemma SendAccepted(r: Ring, sent: Bytes, stream: Bytes, shutdown: bool, k: nat)
    requires SendKeeps(r, sent, stream, shutdown) && Tag(r.state) == ATOMIC_DO_SYSCALL && r.msgLen == SENTINEL
    requires 1 <= k <= r.Active().len
    ensures SendKeeps(r.(msgLen := k), sent + Contents(r.buf, r.Active())[..k], stream, shutdown)
  {
    hide Contents, RingBufferLtrim, At;
    LtrimDrops(r.buf, r.Active(), k);
    MovedOver(sent, Contents(r.buf, r.Active()), k);
  }

  lemma SendMark(r: Ring, sent: Bytes, stream: Bytes, shutdown: bool)
    requires SendKeeps(r, sent, stream, shutdown) && Tag(r.state) == ATOMIC_DO_SYSCALL && r.msgLen != SENTINEL
    ensures SendKeeps(r.(state := SwapState(r.active)), sent, stream, shutdown)
  {
  }

  // A rerun first goes back to the base range; while that one is active the
  // other range may hold anything.
  lemma SendRerun(r: Ring, sent: Bytes, stream: Bytes, shutdown: bool)
    requires SendKeeps(r, sent, stream, shutdown) && Tag(r.state) == ATOMIC_SWAP
    ensures SendKeeps(r.(active := Bit7(r.state)), sent, stream, shutdown)
  {
  }

  lemma SendTorn(r: Ring, sent: Bytes, stream: Bytes, shutdown: bool, torn: Range)
    requires SendKeeps(r, sent, stream, shutdown) && Tag(r.state) == ATOMIC_SWAP && r.active == Bit7(r.state)
    ensures SendKeeps(r.WithInactive(torn), sent, stream, shutdown)
  {
  }

  lemma SendSwap(r: Ring, sent: Bytes, stream: Bytes, shutdown: bool)
    requires SendKeeps(r, sent, stream, shutdown) && Tag(r.state) == ATOMIC_SWAP
    requires r.active == Bit7(r.state) && r.RangeAt(!r.active) == r.SendRange()
    ensures SendKeeps(r.(active := !r.active), sent, stream, shutdown)
    ensures SendKeeps(r.(active := !r.active, state := ATOMIC_INIT), sent, stream, shutdown)
  {
  }

  lemma SendFacts(r: Ring, sent: Bytes, stream: Bytes, shutdown: bool)
    requires SendKeeps(r, sent, stream, shutdown)
    ensures |r.buf| == N && Legal(r.Active()) && Legal(r.SendBase())
    ensures Tag(r.state) in {ATOMIC_INIT, ATOMIC_DO_SYSCALL, ATOMIC_SWAP}
    ensures Tag(r.state) == ATOMIC_SWAP ==> 1 <= r.msgLen
    ensures Tag(r.state) == ATOMIC_SWAP ==> r.SendRange() == RingBufferLtrim(r.SendBase(), r.msgLen)
  {
  }

  // A finished send leaves less to send.
  lemma SendShrinks(r: Ring, sent: Bytes, r': Ring, sent': Bytes)
    requires r.SendValid() && SendKeeps(r', sent', sent + r.SendContents(), r.SendRange().shutdown) && r'.Quiet()
    ensures |sent| <= |sent'| ==> r'.Active().len <= r.Active().len
    ensures |sent| < |sent'| && r.Quiet() ==> r'.Active().len < r.Active().len
  {
  }

  // A receive that has returned leaves no less, and more if it has received.
  lemma RecvGrows(r: Ring, unread: Bytes, r': Ring, unread': Bytes, shutdown: bool, fromZero: bool)
    requires r.RecvValid() && RecvKeeps(r', unread', r.RecvContents() + unread, shutdown, fromZero) && r'.Quiet()
    ensures |unread'| <= |unread| ==> r'.Active().len >= r.Active().len
    ensures |unread'| < |unread| && r.Quiet() ==> r'.Active().len > r.Active().len
  {
  }

  // The stores of `atomic_recv`, one by one.

  lemma RecvBegins(r: Ring, unread: Bytes)
    requires r.RecvValid() && (r.EofPending() ==> unread == [])
    ensures RecvKeeps(r, unread, r.RecvContents() + unread, r.RecvRange().shutdown, r.RecvRange().start == 0)
    ensures r.Active().len <= N && Tag(r.state) in {ATOMIC_INIT, ATOMIC_DO_SYSCALL, ATOMIC_SWAP}
  {
  }

  lemma RecvFacts(r: Ring, unread: Bytes, stream: Bytes, shutdown: bool, fromZero: bool)
    requires RecvKeeps(r, unread, stream, shutdown, fromZero)
    ensures |r.buf| == N && Legal(r.Active())
    ensures Tag(r.state) == ATOMIC_DO_SYSCALL ==> r.Active().len < N
    ensures Tag(r.state) == ATOMIC_SWAP ==> 1 <= r.msgLen
  {
  }

  lemma RecvArm(r: Ring, unread: Bytes, stream: Bytes, shutdown: bool, fromZero: bool)
    requires RecvKeeps(r, unread, stream, shutdown, fromZero) && Tag(r.state) == ATOMIC_INIT && r.Active().len < N
    ensures RecvKeeps(r.(msgLen := SENTINEL), unread, stream, shutdown, fromZero)
    ensures RecvKeeps(r.(msgLen := SENTINEL, state := ATOMIC_DO_SYSCALL), unread, stream, shutdown, fromZero)
  {
  }

  lemma RecvRewind(r: Ring, unread: Bytes, stream: Bytes, shutdown: bool, fromZero: bool)
    requires RecvKeeps(r, unread, stream, shutdown, fromZero) && Tag(r.state) == ATOMIC_DO_SYSCALL && r.msgLen == SENTINEL
    ensures RecvKeeps(r.WithActive(Rewind(r.Active())), unread, stream, shutdown, fromZero)
  {
  }

  lemma RecvArrived(r: Ring, unread: Bytes, stream: Bytes, shutdown: bool, fromZero: bool, data: Bytes, unread': Bytes)
    requires RecvKeeps(r, unread, stream, shutdown, fromZero) && Tag(r.state) == ATOMIC_DO_SYSCALL && r.msgLen == SENTINEL
    requires r.Active().len + |data| <= N && unread == data + unread' && (data == [] ==> unread' == [])
    ensures var buf' := Overlay(r.buf, End(r.Active()), data);
            RecvKeeps(r.(msgLen := |data|, buf := buf'), unread', stream, shutdown, fromZero)
  {
    OverlayAppends(r.buf, r.Active(), data);
    assert Contents(r.buf, r.Active()) + (data + unread') == Contents(r.buf, r.Active()) + data + unread';
  }

  lemma RecvNothing(r: Ring, unread: Bytes, stream: Bytes, shutdown: bool, fromZero: bool)
    requires RecvKeeps(r, unread, stream, shutdown, fromZero) && Tag(r.state) == ATOMIC_DO_SYSCALL && r.msgLen == 0
    ensures RecvKeeps(r.(state := ATOMIC_INIT), unread, stream, shutdown, fromZero) && unread == []
  {
  }

  lemma RecvMark(r: Ring, unread: Bytes, stream: Bytes, shutdown: bool, fromZero: bool)
    requires RecvKeeps(r, unread, stream, shutdown, fromZero) && Tag(r.state) == ATOMIC_DO_SYSCALL
    requires r.msgLen != SENTINEL && r.msgLen != 0
    ensures RecvKeeps(r.(state := SwapState(!r.active)), unread, stream, shutdown, fromZero)
  {
  }

  lemma RecvRerun(r: Ring, unread: Bytes, stream: Bytes, shutdown: bool, fromZero: bool)
    requires RecvKeeps(r, unread, stream, shutdown, fromZero) && Tag(r.state) == ATOMIC_SWAP
    ensures RecvKeeps(r.(active := !Bit7(r.state)), unread, stream, shutdown, fromZero)
  {
  }

  lemma RecvTorn(r: Ring, unread: Bytes, stream: Bytes, shutdown: bool, fromZero: bool, torn: Range)
    requires RecvKeeps(r, unread, stream, shutdown, fromZero) && Tag(r.state) == ATOMIC_SWAP && r.active == !Bit7(r.state)
    ensures RecvKeeps(r.WithInactive(torn), unread, stream, shutdown, fromZero)
  {
  }

  lemma RecvSwap(r: Ring, unread: Bytes, stream: Bytes, shutdown: bool, fromZero: bool)
    requires RecvKeeps(r, unread, stream, shutdown, fromZero) && Tag(r.state) == ATOMIC_SWAP
    requires r.active == !Bit7(r.state) && r.RangeAt(!r.active) == r.RecvRange()
    ensures RecvKeeps(r.(active := !r.active), unread, stream, shutdown, fromZero)
    ensures RecvKeeps(r.(active := !r.active, state := ATOMIC_INIT), unread, stream, shutdown, fromZero)
  {
  }

  // `ATOMIC_RING_BUFFER_INIT`
  ghost predicate Empty(r: Ring) {
    r == Ring(ATOMIC_INIT, 0, false, Range(0, 0, false), Range(0, 0, false), r.buf) && |r.buf| == N
  }

  function Extend(r: Range, more: nat): Range {
    r.(len := r.len + more)
  }

  datatype Errno = EAGAIN | EINTR | EPIPE | EOVERFLOW | EIO

  datatype Exit =
    | Crashed
    | Returned(rc: int, errno: Errno, fuel: nat)
  {
    // A receive has come to the end of the stream.
    predicate AtEnd()
      requires Returned?
    {
      rc == 0 || (rc < 0 && errno == EPIPE)
    }
  }

  /**
  The kernel's side of a connected socket. `unread` is everything the peer will
  still send, `sent` everything accepted from this process. A receive yields 0 or
  `EPIPE` only at the end of the peer's stream.
  */
  class Socket {
    var unread: Bytes
    var sent: Bytes
    var writeShut: bool
    // The errors of all refused calls.
    ghost var sendRefusals: seq<Errno>
    ghost var receiveRefusals: seq<Errno>

    // The kernel takes some of `data`, or refuses without effect.
    method Send(data: Bytes) returns (n: nat, errno: Errno)
      requires data != []
      modifies this`sent, this`sendRefusals
      ensures n <= |data| && sent == old(sent) + data[..n]
      ensures writeShut ==> n == 0
      ensures sendRefusals == old(sendRefusals) + if n == 0 then [errno] else []
      ensures n == 0 ==> errno != EOVERFLOW
    {
      if writeShut {
        n, errno, sendRefusals := 0, EPIPE, sendRefusals + [EPIPE];
        assert data[..0] == [];
      } else if * {
        n, errno :| 1 <= n <= |data| && errno == EAGAIN;
        sent := sent + data[..n];
      } else {
        n, errno :| n == 0 && errno != EOVERFLOW;
        sendRefusals := sendRefusals + [errno];
        assert data[..0] == [];
      }
    }

    // The kernel hands out some of the stream, or refuses without effect.
    method Receive(room: nat) returns (ok: bool, data: Bytes, errno: Errno)
      requires room > 0
      modifies this`unread, this`receiveRefusals
      ensures |data| <= room && old(unread) == data + unread
      ensures receiveRefusals == old(receiveRefusals) + if ok then [] else [errno]
      ensures ok && data == [] ==> unread == []
      ensures !ok ==> data == [] && errno != EOVERFLOW && (errno == EPIPE ==> unread == [])
    {
      errno := EAGAIN;
      if * {
        ok := true;
        var n: nat :| n <= room && n <= |unread| && (n == 0 ==> unread == []) by {
          var n: nat := if unread == [] then 0 else 1;
          assert n <= room && n <= |unread| && (n == 0 ==> unread == []);
        }
        data, unread := unread[..n], unread[n..];
      } else {
        ok, data := false, [];
        errno :| errno != EOVERFLOW && (errno == EPIPE ==> unread == []) by { assert EAGAIN != EOVERFLOW; }
        receiveRefusals := receiveRefusals + [errno];
      }
    }
  }

  /** `struct atomic_ring_buffer` in shared memory. */
  class AtomicRing {
    var state: nat
    var msgLen: nat
    var active: bool
    var range0: Range
    var range1: Range
    const buf: array<char>

    constructor ()
      ensures fresh(this) && fresh(buf)
      ensures Empty(Snap())
    {
      state, msgLen, active := ATOMIC_INIT, 0, false;
      range0, range1 := Range(0, 0, false), Range(0, 0, false);
      buf := new char[N];
    }

    // `ATOMIC_RING_BUFFER_INIT`
    method Reset()
      requires buf.Length == N
      modifies this
      ensures Empty(Snap())
    {
      state, msgLen, active := ATOMIC_INIT, 0, false;
      range0, range1 := Range(0, 0, false), Range(0, 0, false);
    }

    ghost function Snap(): (r: Ring)
      reads this, buf
    {
      Ring(state, msgLen, active, range0, range1, buf[..])
    }

    function ActiveRange(): (r: Range)
      reads this
      ensures r == Snap().Active()
    {
      if active then range1 else range0
    }

    function InactiveRange(): (r: Range)
      reads this
      ensures r == Snap().Inactive()
    {
      if active then range0 else range1
    }

    method StoreActive(r: Range)
      modifies this`range0, this`range1
      ensures Snap() == old(Snap()).WithActive(r)
    {
      if active { range1 := r; } else { range0 := r; }
    }

    method StoreInactive(r: Range)
      modifies this`range0, this`range1
      ensures Snap() == old(Snap()).WithInactive(r)
    {
      if active { range0 := r; } else { range1 := r; }
    }

    // What a crash in the middle of a transformation leaves behind: anything in
    // the inactive range, and in the free bytes of a ring it writes to.
    method ScribbleInactive()
      modifies this`range0, this`range1
      ensures exists torn: Range :: Snap() == old(Snap()).WithInactive(torn)
    {
      var torn: Range := *;
      StoreInactive(torn);
    }

    method ScribbleFree()
      requires buf.Length == N && Legal(ActiveRange())
      modifies this`range0, this`range1, buf
      ensures exists torn: Range :: Snap() == old(Snap()).WithInactive(torn).(buf := Snap().buf)
      ensures SameUsed(Snap().buf, old(Snap().buf), old(ActiveRange()))
    {
      var used := ActiveRange();
      for k := used.len to N
        invariant SameUsed(buf[..], old(buf[..]), used)
        modifies buf
      {
        var c: char := *;
        buf[At(used.start, k)] := c;
      }
      var torn: Range := *;
      StoreInactive(torn);
      assert Snap() == old(Snap()).WithInactive(torn).(buf := Snap().buf);
    }

    // `sendmmsg` with one message: moves bytes and fills in `msg_len` in one step.
    method Sendmmsg(sock: Socket, iov: seq<Iovec>) returns (rc: int, errno: Errno)
      requires forall i :: 0 <= i < |iov| ==> iov[i].base + iov[i].len <= buf.Length
      requires Gather(buf[..], iov) != []
      modifies this`msgLen, sock`sent, sock`sendRefusals
      ensures rc < 0 ==> msgLen == old(msgLen) && sock.sent == old(sock.sent)
      ensures sock.sendRefusals == old(sock.sendRefusals) + if rc < 0 then [errno] else []
      ensures rc < 0 ==> errno != EOVERFLOW
      ensures sock.writeShut ==> rc < 0
      ensures rc >= 0 ==> 1 <= msgLen <= |Gather(buf[..], iov)| && sock.sent == old(sock.sent) + Gather(buf[..], iov)[..msgLen]
    {
      var n;
      n, errno := sock.Send(Gather(buf[..], iov));
      if n == 0 {
        rc := -1;
      } else {
        rc, msgLen := 1, n;
      }
    }

    // `recvmmsg` with one message.
    method Recvmmsg(sock: Socket, iov: seq<Iovec>, ghost start: nat, ghost free: nat)
        returns (rc: int, errno: Errno, ghost data: Bytes)
      requires buf.Length == N && start < N && 0 < free <= N && Positions(iov) == Cells(start, free)
      modifies this`msgLen, sock`unread, sock`receiveRefusals, buf
      ensures |data| <= free && old(sock.unread) == data + sock.unread
      ensures buf[..] == Overlay(old(buf[..]), start, data)
      ensures rc < 0 ==> data == [] && msgLen == old(msgLen) && errno != EOVERFLOW && (errno == EPIPE ==> sock.unread == [])
      ensures rc >= 0 ==> msgLen == |data| && (data == [] ==> sock.unread == [])
      ensures sock.receiveRefusals == old(sock.receiveRefusals) + if rc < 0 then [errno] else []
    {
      var ok, received;
      var room := Room(iov);
      RoomOfPositions(iov);
      ok, received, errno := sock.Receive(room);
      data := received;
      if ok {
        var copied := Scatter(buf, iov, received, start, free);
        assert received[..copied] == received;
        rc, msgLen := 1, copied;
      } else {
        OverlayNothing(buf[..], start);
        rc := -1;
      }
    }

    // `case ATOMIC_INIT` of both calls: while `msg_len` is the sentinel the
    // system call has not completed.
    method Arm(fuel: nat) returns (crashed: bool, left: nat)
      modifies this`msgLen, this`state
      ensures crashed ==> Snap() == old(Snap()) || Snap() == old(Snap()).(msgLen := SENTINEL)
      ensures if crashed then fuel < 2 else left == fuel - 2
      ensures !crashed ==> left < fuel && Snap() == old(Snap()).(msgLen := SENTINEL, state := ATOMIC_DO_SYSCALL)
    {
      crashed, left := true, fuel;
      if left == 0 { return; }
      msgLen, left := SENTINEL, left - 1;
      if left == 0 { return; }
      state, left := ATOMIC_DO_SYSCALL, left - 1;
      crashed := false;
    }

    /** Sends some of the active range and trims it. */
    method AtomicSend(sock: Socket, fuel: nat) returns (e: Exit)
      requires Snap().SendValid()
      modifies this, sock`sent, sock`sendRefusals
      ensures buf[..] == old(buf[..])
      ensures SendKeeps(Snap(), sock.sent, old(sock.sent + Snap().SendContents()), old(Snap().SendRange().shutdown))
      ensures e.Returned? && e.rc != 0 ==> Snap().Quiet()
      ensures e.Returned? && e.rc == 0 ==> old(ActiveRange().len) == 0 && Snap() == old(Snap())
      ensures e.Returned? && e.rc < 0 ==> old(Snap().Quiet()) && sock.sent == old(sock.sent)
      ensures sock.sendRefusals == old(sock.sendRefusals) + if e.Returned? && e.rc < 0 then [e.errno] else []
      ensures e.Returned? && e.rc < 0 ==> e.errno != EOVERFLOW
      // Nothing is taken back, and nothing is sent after a shutdown.
      ensures old(sock.sent) <= sock.sent && (sock.writeShut ==> sock.sent == old(sock.sent))
      // A finished call reports what it, or the interrupted call it completes, has sent.
      ensures e.Returned? && e.rc > 0 ==>
                if old(Snap().Pending()) then e.rc == old(msgLen) && sock.sent == old(sock.sent)
                else |sock.sent| == |old(sock.sent)| + e.rc
      ensures e.Returned? ==> e.fuel <= fuel <= e.fuel + 9 && (e.rc != 0 ==> e.fuel < fuel)
      ensures fuel >= 9 ==> e.Returned?
      // It makes progress, unless it only finishes an interrupted call.
      ensures e.Returned? && e.rc > 0 ==> ActiveRange().len <= old(ActiveRange().len)
      ensures e.Returned? && e.rc > 0 && old(Snap().Quiet()) ==> ActiveRange().len < old(ActiveRange().len)
    {
      hide Contents, RingBufferLtrim, Gather, At;
      if ActiveRange().len == 0 {
        return Returned(0, EAGAIN, fuel);
      }
      ghost var stream, shutdown := sock.sent + Snap().SendContents(), Snap().SendRange().shutdown;
      var left := fuel;
      var tag := Tag(state);
      if tag != ATOMIC_DO_SYSCALL && tag != ATOMIC_SWAP {
        SendArm(Snap(), sock.sent, stream, shutdown);
        var crashed;
        crashed, left := Arm(left);
        if crashed { return Crashed; }
        tag := ATOMIC_DO_SYSCALL;
      }
      if tag == ATOMIC_DO_SYSCALL {
        if msgLen == SENTINEL {
          var crashed, rc, errno;
          crashed, rc, errno, left := SendOnce(sock, stream, shutdown, left);
          if crashed {
            return Crashed;
          } else if rc < 0 {
            return Returned(-1, errno, left);
          }
        }
        SendMark(Snap(), sock.sent, stream, shutdown);
        if left == 0 { return Crashed; }
        state, left := SwapState(active), left - 1;
      }
      e := FinishSend(sock, stream, shutdown, left);
      if e.Returned? {
        SendShrinks(old(Snap()), old(sock.sent), Snap(), sock.sent);
      }
    }

    // The system call of `case ATOMIC_DO_SYSCALL`.
    method SendOnce(sock: Socket, ghost stream: Bytes, ghost shutdown: bool, fuel: nat)
        returns (crashed: bool, rc: int, errno: Errno, left: nat)
      requires SendKeeps(Snap(), sock.sent, stream, shutdown)
      requires Tag(state) == ATOMIC_DO_SYSCALL && msgLen == SENTINEL && ActiveRange().len > 0
      modifies this`msgLen, sock`sent, sock`sendRefusals
      ensures SendKeeps(Snap(), sock.sent, stream, shutdown)
      ensures if crashed then fuel == 0 && msgLen == old(msgLen) else left == fuel - 1
      ensures crashed || rc < 0 ==> msgLen == old(msgLen) && sock.sent == old(sock.sent)
      ensures sock.sendRefusals == old(sock.sendRefusals) + if !crashed && rc < 0 then [errno] else []
      ensures !crashed && rc < 0 ==> errno != EOVERFLOW
      ensures old(sock.sent) <= sock.sent && (sock.writeShut ==> sock.sent == old(sock.sent))
      ensures !crashed && rc >= 0 ==> msgLen != SENTINEL && |sock.sent| == |old(sock.sent)| + msgLen
    {
      hide Contents, RingBufferLtrim, Gather, At;
      crashed, rc, errno, left := true, -1, EAGAIN, fuel;
      if left == 0 { return; }
      crashed, left := false, left - 1;
      GatherUsed(buf[..], ActiveRange());
      ghost var r, sent := Snap(), sock.sent;
      rc, errno := Sendmmsg(sock, SetIovecUsed(ActiveRange()));
      if rc >= 0 {
        SendAccepted(r, sent, stream, shutdown, msgLen);
      }
    }

    // `case ATOMIC_SWAP`: trim the inactive range, then swap the ranges.
    method FinishSend(ghost sock: Socket, ghost stream: Bytes, ghost shutdown: bool, fuel: nat) returns (e: Exit)
      requires SendKeeps(Snap(), sock.sent, stream, shutdown) && Tag(state) == ATOMIC_SWAP
      modifies this
      ensures buf[..] == old(buf[..])
      ensures SendKeeps(Snap(), sock.sent, stream, shutdown)
      ensures e.Returned? ==> e.rc == old(msgLen) && Tag(state) == ATOMIC_INIT && e.fuel < fuel <= e.fuel + 5
      ensures fuel >= 5 ==> e.Returned?
    {
      hide Contents, RingBufferLtrim, At, SendKeeps;
      SendFacts(Snap(), sock.sent, stream, shutdown);
      var left := fuel;
      SendRerun(Snap(), sock.sent, stream, shutdown);
      if left == 0 { return Crashed; }
      active, left := Bit7(state), left - 1;
      ghost var r := Snap();
      if left == 0 {
        var torn: Range := *;
        SendTorn(r, sock.sent, stream, shutdown, torn);
        StoreInactive(torn);
        return Crashed;
      }
      StoreInactive(ActiveRange());
      left := left - 1;
      if left == 0 {
        var torn: Range := *;
        SendTorn(r, sock.sent, stream, shutdown, torn);
        StoreInactive(torn);
        assert Snap() == r.WithInactive(torn);
        return Crashed;
      }
      SendTorn(r, sock.sent, stream, shutdown, RingBufferLtrim(r.Active(), msgLen));
      StoreInactive(RingBufferLtrim(ActiveRange(), msgLen));
      assert Snap() == r.WithInactive(RingBufferLtrim(r.Active(), msgLen));
      left := left - 1;
      SendSwap(Snap(), sock.sent, stream, shutdown);
      if left == 0 { return Crashed; }
      active, left := !active, left - 1;
      if left == 0 { return Crashed; }
      state, left := ATOMIC_INIT, left - 1;
      return Returned(msgLen, EAGAIN, left);
    }

    /** Receives into the free part and extends the active range. */
    method AtomicRecv(sock: Socket, fuel: nat) returns (e: Exit)
      requires Snap().RecvValid() && (Snap().EofPending() ==> sock.unread == [])
      modifies this, sock`unread, sock`receiveRefusals, buf
      ensures RecvKeeps(Snap(), sock.unread, old(Snap().RecvContents() + sock.unread),
                        old(Snap().RecvRange().shutdown), old(Snap().RecvRange().start == 0))
      ensures e.Returned? ==> Snap().Quiet()
      ensures e.Returned? && e.rc == 0 ==> sock.unread == []
      ensures e.Returned? && e.rc < 0 && e.errno == EPIPE ==> sock.unread == []
      ensures e.Returned? && e.rc < 0 && e.errno == EOVERFLOW ==> ActiveRange().len == N
      ensures e.Returned? && e.rc < 0 && e.errno != EOVERFLOW ==> ActiveRange().len < N
      // A finished call reports what it, or the interrupted call it completes, has received.
      ensures e.Returned? && e.rc >= 0 ==>
                if old(Snap().Pending()) then e.rc == old(msgLen) && sock.unread == old(sock.unread)
                else |old(sock.unread)| == |sock.unread| + e.rc
      ensures e.Returned? && e.rc < 0 ==> sock.unread == old(sock.unread)
      ensures sock.receiveRefusals == old(sock.receiveRefusals)
                                    + if e.Returned? && e.rc < 0 && e.errno != EOVERFLOW then [e.errno] else []
      ensures e.Returned? ==> e.fuel <= fuel <= e.fuel + 9 && (e.rc >= 0 || e.errno != EOVERFLOW ==> e.fuel < fuel)
      ensures fuel >= 9 ==> e.Returned?
      // It makes progress, unless it only finishes an interrupted call.
      ensures e.Returned? ==> ActiveRange().len >= old(ActiveRange().len)
      ensures e.Returned? && e.rc > 0 && old(Snap().Quiet()) ==> ActiveRange().len > old(ActiveRange().len)
    {
      hide Contents, Overlay, At, RecvKeeps;
      RecvBegins(Snap(), sock.unread);
      ghost var stream, shutdown := Snap().RecvContents() + sock.unread, Snap().RecvRange().shutdown;
      ghost var fromZero := Snap().RecvRange().start == 0;
      var left := fuel;
      var tag := Tag(state);
      if tag != ATOMIC_DO_SYSCALL && tag != ATOMIC_SWAP {
        if ActiveRange().len >= N {
          return Returned(-1, EOVERFLOW, left);
        }
        RecvArm(Snap(), sock.unread, stream, shutdown, fromZero);
        var crashed;
        crashed, left := Arm(left);
        if crashed { return Crashed; }
      }
      e := ContinueRecv(sock, stream, shutdown, fromZero, left);
      if e.Returned? {
        RecvGrows(old(Snap()), old(sock.unread), Snap(), sock.unread, shutdown, fromZero);
      }
    }

    // `case ATOMIC_DO_SYSCALL` and `case ATOMIC_SWAP`
    method ContinueRecv(sock: Socket, ghost stream: Bytes, ghost shutdown: bool, ghost fromZero: bool, fuel: nat)
        returns (e: Exit)
      requires RecvKeeps(Snap(), sock.unread, stream, shutdown, fromZero)
      requires Tag(state) == ATOMIC_DO_SYSCALL || Tag(state) == ATOMIC_SWAP
      modifies this, sock`unread, sock`receiveRefusals, buf
      ensures RecvKeeps(Snap(), sock.unread, stream, shutdown, fromZero)
      ensures e.Returned? ==> Snap().Quiet()
      ensures e.Returned? && e.rc == 0 ==> sock.unread == []
      ensures e.Returned? && e.rc < 0 ==> sock.unread == old(sock.unread) && ActiveRange().len < N
      ensures e.Returned? && e.rc < 0 ==> e.errno != EOVERFLOW && (e.errno == EPIPE ==> sock.unread == [])
      ensures e.Returned? && e.rc >= 0 ==>
                if old(Snap().Pending()) then e.rc == old(msgLen) && sock.unread == old(sock.unread)
                else |old(sock.unread)| == |sock.unread| + e.rc
      ensures sock.receiveRefusals == old(sock.receiveRefusals) + if e.Returned? && e.rc < 0 then [e.errno] else []
      ensures e.Returned? ==> e.fuel < fuel <= e.fuel + 7
      ensures fuel >= 7 ==> e.Returned?
    {
      hide Contents, Overlay, At, RecvKeeps;
      var left := fuel;
      if Tag(state) == ATOMIC_DO_SYSCALL {
        if msgLen == SENTINEL {
          var crashed, rc, errno;
          crashed, rc, errno, left := ReceiveOnce(sock, stream, shutdown, fromZero, left);
          if crashed {
            return Crashed;
          } else if rc < 0 {
            return Returned(-1, errno, left);
          }
        }
        if msgLen == 0 {
          RecvNothing(Snap(), sock.unread, stream, shutdown, fromZero);
          if left == 0 { return Crashed; }
          state, left := ATOMIC_INIT, left - 1;
          return Returned(0, EAGAIN, left);
        }
        RecvMark(Snap(), sock.unread, stream, shutdown, fromZero);
        if left == 0 { return Crashed; }
        state, left := SwapState(!active), left - 1;
      }
      e := FinishRecv(sock, stream, shutdown, fromZero, left);
    }

    // The system call of `case ATOMIC_DO_SYSCALL`.
    method ReceiveOnce(sock: Socket, ghost stream: Bytes, ghost shutdown: bool, ghost fromZero: bool, fuel: nat)
        returns (crashed: bool, rc: int, errno: Errno, left: nat)
      requires RecvKeeps(Snap(), sock.unread, stream, shutdown, fromZero)
      requires Tag(state) == ATOMIC_DO_SYSCALL && msgLen == SENTINEL
      modifies this, sock`unread, sock`receiveRefusals, buf
      ensures RecvKeeps(Snap(), sock.unread, stream, shutdown, fromZero) && Tag(state) == ATOMIC_DO_SYSCALL
      ensures !crashed ==> left < fuel && left + 2 >= fuel
      ensures fuel >= 2 ==> !crashed
      ensures !crashed && rc < 0 ==> msgLen == SENTINEL && errno != EOVERFLOW && (errno == EPIPE ==> sock.unread == [])
      ensures !crashed && rc < 0 ==> ActiveRange().len < N
      ensures !crashed && rc < 0 ==> sock.unread == old(sock.unread)
      ensures sock.receiveRefusals == old(sock.receiveRefusals) + if !crashed && rc < 0 then [errno] else []
      ensures !crashed && rc >= 0 ==> msgLen != SENTINEL && |old(sock.unread)| == |sock.unread| + msgLen
    {
      hide Contents, Overlay, At, RecvKeeps;
      RecvFacts(Snap(), sock.unread, stream, shutdown, fromZero);
      crashed, rc, errno, left := true, -1, EAGAIN, fuel;
      RecvRewind(Snap(), sock.unread, stream, shutdown, fromZero);
      if left == 0 { return; }
      StoreActive(Rewind(ActiveRange()));
      left := left - 1;
      if left == 0 { return; }
      crashed, left := false, left - 1;
      ghost var r, unread := Snap(), sock.unread;
      ghost var data;
      rc, errno, data := Recvmmsg(sock, SetIovecUnused(ActiveRange()), End(ActiveRange()), N - ActiveRange().len);
      if rc < 0 {
        OverlayNothing(r.buf, End(r.Active()));
        assert Snap() == r && sock.unread == unread;
      } else {
        RecvArrived(r, unread, stream, shutdown, fromZero, data, sock.unread);
      }
    }

    // `case ATOMIC_SWAP`: extend the inactive range, then swap the ranges.
    method FinishRecv(ghost sock: Socket, ghost stream: Bytes, ghost shutdown: bool, ghost fromZero: bool, fuel: nat)
        returns (e: Exit)
      requires RecvKeeps(Snap(), sock.unread, stream, shutdown, fromZero) && Tag(state) == ATOMIC_SWAP
      modifies this
      ensures RecvKeeps(Snap(), sock.unread, stream, shutdown, fromZero)
      ensures e.Returned? ==> 1 <= e.rc == old(msgLen) && Tag(state) == ATOMIC_INIT && e.fuel < fuel <= e.fuel + 4
      ensures fuel >= 4 ==> e.Returned?
    {
      hide Contents, At, RecvKeeps;
      RecvFacts(Snap(), sock.unread, stream, shutdown, fromZero);
      var left := fuel;
      RecvRerun(Snap(), sock.unread, stream, shutdown, fromZero);
      if left == 0 { return Crashed; }
      active, left := !Bit7(state), left - 1;
      ghost var r := Snap();
      if left == 0 {
        var torn: Range := *;
        RecvTorn(r, sock.unread, stream, shutdown, fromZero, torn);
        StoreInactive(torn);
        return Crashed;
      }
      RecvTorn(r, sock.unread, stream, shutdown, fromZero, Extend(ActiveRange(), msgLen));
      StoreInactive(Range(ActiveRange().start, ActiveRange().len + msgLen, ActiveRange().shutdown));
      left := left - 1;
      RecvSwap(Snap(), sock.unread, stream, shutdown, fromZero);
      if left == 0 { return Crashed; }
      active, left := !active, left - 1;
      if left == 0 { return Crashed; }
      state, left := ATOMIC_INIT, left - 1;
      return Returned(msgLen, EAGAIN, left);
    }
  }

  /** Any sequence of sends, each of them killed after any number of stores. */
  method SendRun(tx: AtomicRing, sock: Socket, fuels: seq<nat>)
    requires tx.Snap().SendValid()
    modifies tx, sock`sent, sock`sendRefusals
    ensures SendKeeps(tx.Snap(), sock.sent, old(sock.sent + tx.Snap().SendContents()), old(tx.Snap().SendRange().shutdown))
  {
    hide Contents, RingBufferLtrim;
    for i := 0 to |fuels|
      invariant tx.Snap().SendValid()
      invariant SendKeeps(tx.Snap(), sock.sent, old(sock.sent + tx.Snap().SendContents()), old(tx.Snap().SendRange().shutdown))
    {
      var e := tx.AtomicSend(sock, fuels[i]);
    }
  }

  /** Any sequence of receives, each of them killed after any number of stores. */
  method ReceiveRun(rx: AtomicRing, sock: Socket, fuels: seq<nat>)
    requires rx.Snap().RecvValid() && (rx.Snap().EofPending() ==> sock.unread == [])
    modifies rx, sock`unread, sock`receiveRefusals, rx.buf
    ensures RecvKeeps(rx.Snap(), sock.unread, old(rx.Snap().RecvContents() + sock.unread),
                      old(rx.Snap().RecvRange().shutdown), old(rx.Snap().RecvRange().start == 0))
  {
    hide Contents, At;
    RecvBegins(rx.Snap(), sock.unread);
    for i := 0 to |fuels|
      invariant RecvKeeps(rx.Snap(), sock.unread, old(rx.Snap().RecvContents() + sock.unread),
                          old(rx.Snap().RecvRange().shutdown), old(rx.Snap().RecvRange().start == 0))
    {
      var e := rx.AtomicRecv(sock, fuels[i]);
    }
  }

  // Number of bytes the iovecs have room for.
  function Room(iov: seq<Iovec>): nat {
    if iov == [] then 0 else iov[0].len + Room(iov[1..])
  }

  lemma RoomOfPositions(iov: seq<Iovec>)
    ensures Room(iov) == |Positions(iov)|
  {
  }
}
