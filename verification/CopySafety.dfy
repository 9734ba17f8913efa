/**
When `copy_active_ranges` may run. It overwrites the inactive range of a ring,
and the commit that follows toggles the ring, while a call of `atomic_send` or
`atomic_recv` that a crash interrupted may still be waiting to be finished. The
conditions below are exact: in all other states some amount of forwarded data
makes the finished call lose or duplicate bytes.
*/
module CopySafety {
  import opened RingBuffer
  import opened AtomicIo
  import opened Transform
  import opened Direction

  // Copying, forwarding `m` bytes from the front, and committing.
  function Forwarded(r: Ring, m: nat): Ring
    requires Legal(r.Active())
  {
    Commit(r, RingBufferLtrim(r.Active(), m), r.buf)
  }

  // The received bytes that are left occupy the cells they were received into.
  ghost predicate KeepsReceived(r: Ring, m: nat)
    requires r.RecvValid() && m <= r.Active().len
  {
    var was, now := r.RecvRange(), Forwarded(r, m).RecvRange();
    Legal(now) && Cells(now.start, now.len) == Cells(was.start, was.len)[m..]
  }

  // For a given amount: a receive loses nothing if and only if it is not in the swap
  // phase, or is there with the old range still active and nothing forwarded, and a
  // pending one does not begin anew at the start of the buffer.
  lemma RecvKeptExact(r: Ring, m: nat)
    requires r.RecvValid() && m <= r.Active().len
    ensures KeepsReceived(r, m) <==>
              if Tag(r.state) == ATOMIC_SWAP then r.active != Bit7(r.state) && m == 0
              else !(r.Pending() && r.msgLen > 0 && m == r.Active().len && End(r.Active()) != 0)
  {
    LtrimCells(r.Active(), m);
    AtIsMod(r.Active().start, m);
    var was, now := r.RecvRange(), Forwarded(r, m).RecvRange();
    if Tag(r.state) == ATOMIC_SWAP {
      RecvKeptSwapping(r, m);
    } else if r.Pending() && r.msgLen > 0 && m == r.Active().len && End(r.Active()) != 0 {
      assert Cells(was.start, was.len)[m..][0] == End(r.Active());
    } else {
      forall i | 0 <= i < now.len
        ensures At(now.start, i) == At(was.start, m + i)
      {
      }
    }
  }

  lemma RecvKeptSwapping(r: Ring, m: nat)
    requires r.RecvValid() && m <= r.Active().len && Tag(r.state) == ATOMIC_SWAP
    ensures KeepsReceived(r, m) <==> r.active != Bit7(r.state) && m == 0
  {
    var was, now := r.RecvRange(), Forwarded(r, m).RecvRange();
    if r.active != Bit7(r.state) && m == 0 {
      assert now == was;
    } else {
      assert now.len != was.len - m;
    }
  }

  ghost predicate RecvCopySafe(r: Ring)
    requires r.RecvValid()
  {
    if Tag(r.state) == ATOMIC_SWAP then r.active != Bit7(r.state) && r.Active().len == 0
    else r.Pending() && r.msgLen > 0 ==> End(r.Active()) == 0
  }

  // For all amounts: if and only if it is not in the swap phase, but for one empty
  // case, and a pending one ends at the start of the buffer.
  lemma RecvCopyExact(r: Ring)
    requires r.RecvValid()
    ensures (forall m: nat :: m <= r.Active().len ==> KeepsReceived(r, m)) <==> RecvCopySafe(r)
  {
    hide KeepsReceived;
    forall m: nat | m <= r.Active().len
      ensures RecvCopySafe(r) ==> KeepsReceived(r, m)
    {
      RecvKeptExact(r, m);
    }
    RecvKeptExact(r, r.Active().len);
  }

  // Copying, appending `m` bytes, and committing.
  function Appended(r: Ring, m: nat): Ring
    requires Legal(r.Active())
  {
    Commit(r, Extend(Rewind(r.Active()), m), r.buf)
  }

  // The unsent bytes keep their cells, and the appended ones follow.
  ghost predicate KeepsQueued(r: Ring, m: nat)
    requires r.SendValid() && m <= N - r.Active().len
  {
    var c := Appended(r, m);
    && Legal(c.SendBase())
    && Cells(c.SendRange().start, c.SendRange().len)
       == Cells(r.SendRange().start, r.SendRange().len) + Cells(End(Rewind(r.Active())), m)
  }

  lemma ExtendCells(a: Range, m: nat)
    requires Legal(a) && a.len + m <= N
    ensures Cells(a.start, a.len + m) == Cells(a.start, a.len) + Cells(End(a), m)
  {
    forall i | 0 <= i < m
      ensures At(a.start, a.len + i) == At(End(a), i)
    {
    }
  }

  lemma LtrimDropsCells(a: Range, k: nat)
    requires Legal(a) && k <= a.len
    ensures var t := RingBufferLtrim(a, k);
            Cells(t.start, t.len) == Cells(a.start, a.len)[k..]
  {
    LtrimCells(a, k);
  }

  // What a send ring that is not in the swap phase shows after copying, appending and
  // committing.
  lemma AppendedRange(r: Ring, m: nat)
    requires r.SendValid() && Tag(r.state) != ATOMIC_SWAP && m <= N - r.Active().len
    ensures var a, c := Rewind(r.Active()), Appended(r, m);
            && Legal(a) && Legal(Extend(a, m)) && Legal(c.SendBase())
            && c.SendRange() == (if r.Pending() then RingBufferLtrim(Extend(a, m), r.msgLen) else Extend(a, m))
            && (r.Pending() ==> r.SendRange() == RingBufferLtrim(a, r.msgLen) && r.msgLen <= a.len)
            && (!r.Pending() ==> r.SendRange() == r.Active())
  {
    hide RingBufferLtrim;
  }

  lemma SendKeptPolling(r: Ring, m: nat)
    requires r.SendValid() && Tag(r.state) != ATOMIC_SWAP && m <= N - r.Active().len
    ensures KeepsQueued(r, m)
  {
    hide Cells, At, RingBufferLtrim, Appended;
    AppendedRange(r, m);
    var a := Rewind(r.Active());
    ExtendCells(a, m);
    if r.Pending() {
      LtrimDropsCells(a, r.msgLen);
      LtrimDropsCells(Extend(a, m), r.msgLen);
    } else {
      RewoundCells(r.Active());
    }
  }

  lemma RewoundCells(a: Range)
    requires Legal(a)
    ensures Cells(Rewind(a).start, a.len) == Cells(a.start, a.len)
  {
  }

  // For a given amount: a send loses nothing if and only if it is not in the swap
  // phase, or nothing is appended and either the old range is still active or
  // everything has been sent.
  lemma SendKeptExact(r: Ring, m: nat)
    requires r.SendValid() && m <= N - r.Active().len
    ensures KeepsQueued(r, m) <==>
              (Tag(r.state) == ATOMIC_SWAP ==> m == 0 && (r.active == Bit7(r.state) || r.Active().len == 0))
  {
    if Tag(r.state) != ATOMIC_SWAP {
      SendKeptPolling(r, m);
    } else {
      SendKeptSwapping(r, m);
    }
  }

  lemma SendKeptSwapping(r: Ring, m: nat)
    requires r.SendValid() && m <= N - r.Active().len && Tag(r.state) == ATOMIC_SWAP
    ensures KeepsQueued(r, m) <==> m == 0 && (r.active == Bit7(r.state) || r.Active().len == 0)
  {
    var c := Appended(r, m);
    if m == 0 && r.active == Bit7(r.state) {
      assert Legal(c.SendBase()) && c.SendRange() == r.SendRange();
    } else if m == 0 && r.Active().len == 0 {
      assert Legal(c.SendBase()) && c.SendRange().len == 0 == r.SendRange().len;
    } else if Legal(c.SendBase()) {
      assert c.SendRange().len != r.SendRange().len + m;
    }
  }

  ghost predicate SendCopySafe(r: Ring)
    requires r.SendValid()
  {
    Tag(r.state) == ATOMIC_SWAP ==> r.active == Bit7(r.state) && r.Active().len == N
  }

  // For all amounts: if and only if it is not in the swap phase, or is there with the
  // full buffer still active.
  lemma SendCopyExact(r: Ring)
    requires r.SendValid()
    ensures (forall m: nat :: m <= N - r.Active().len ==> KeepsQueued(r, m)) <==> SendCopySafe(r)
  {
    hide KeepsQueued;
    forall m: nat | m <= N - r.Active().len
      ensures SendCopySafe(r) ==> KeepsQueued(r, m)
    {
      SendKeptExact(r, m);
    }
    SendKeptExact(r, N - r.Active().len);
  }

  // Two runs that lose bytes

  // The stores of `atomic_recv` around its system call, and those after it.

  function Armed(r: Ring): Ring {
    r.(msgLen := SENTINEL, state := ATOMIC_DO_SYSCALL)
  }

  ghost function Arrived(r: Ring, data: Bytes): Ring
    requires |r.buf| == N && Legal(r.Active()) && r.Active().len + |data| <= N
  {
    var s := r.WithActive(Rewind(r.Active()));
    s.(msgLen := |data|, buf := Overlay(s.buf, End(s.Active()), data))
  }

  function Extended(r: Ring): Ring {
    r.WithInactive(Extend(r.Active(), r.msgLen)).(active := !r.active, state := ATOMIC_INIT)
  }

  // A fresh ring receives one byte, then another, and the worker is killed right
  // after the second system call.
  ghost function OneAndOne(empty: Ring, a: char, b: char): Ring
    requires Empty(empty) && N >= 2
  {
    Arrived(Armed(Extended(Arrived(Armed(empty), [a]))), [b])
  }

  lemma OneAndOneIs(empty: Ring, a: char, b: char)
    requires Empty(empty) && N >= 2
    ensures var r := OneAndOne(empty, a, b);
            && r.RecvValid() && RecvKeeps(r, [], [a, b], false, true)
            && r.Active() == Range(0, 1, false) && Contents(r.buf, r.Active()) == [a]
            && Tag(r.state) == ATOMIC_DO_SYSCALL && r.msgLen == 1 && r.RecvContents() == [a, b]
  {
    var one := Extended(Arrived(Armed(empty), [a]));
    OverlayAppends(empty.buf, Range(0, 0, false), [a]);
    assert Contents(one.buf, Range(0, 1, false)) == [a];
    OverlayAppends(one.buf, Range(0, 1, false), [b]);
    var r := OneAndOne(empty, a, b);
    assert r.RecvContents() == [a] + [b] == [a, b];
    assert [a, b] + [] == [a, b];
  }

  // An event on the other endpoint then makes the worker forward the first byte. It
  // is in the receive ring again, and the second one is in no ring.
  lemma LostByte(empty: Ring, a: char, b: char)
    requires Empty(empty) && N >= 2
    ensures var r := OneAndOne(empty, a, b);
            && r.RecvValid() && r.RecvContents() == [a, b] && Contents(r.buf, r.Active()) == [a]
            && Forwarded(r, 1).RecvValid() && Forwarded(r, 1).RecvContents() == [a]
  {
    OneAndOneIs(empty, a, b);
    var r := OneAndOne(empty, a, b);
    assert r.buf[0] == Contents(r.buf, r.Active())[0];
    assert Forwarded(r, 1).RecvContents() == [a];
  }

  // What goes on to be delivered is then no beginning of the output.
  lemma LostByteDelivered(p: Protocol, empty: Ring, tx: Ring, a: char, b: char, in': Range, out': Range, buf': Bytes)
    requires N >= 2 && Empty(empty) && Empty(tx) && a != b
    requires PrefixStable(p) && HeadLooksLike(p, [a, b]) && Target(p, [], [a, b]) == [a, b]
    requires OneAndOne(empty, a, b).RecvValid()
    requires Transformed(p, [], OneAndOne(empty, a, b), tx, true, in', out', buf', true)
    ensures var rx := OneAndOne(empty, a, b);
            && Flow(p, [], [a, b], rx, tx, true, [], [])
            && var rx', tx' := Commit(rx, in', rx.buf), Commit(tx, out', buf');
               && rx'.RecvValid() && tx'.SendValid()
               && !(tx'.SendContents() + rx'.RecvContents() <= Target(p, [], [a, b]))
  {
    var rx := OneAndOne(empty, a, b);
    LostByte(empty, a, b);
    OneAndOneIs(empty, a, b);
    ForwardedContents(p, [], rx, tx, in', out', buf');
    FirstIsForwarded(rx, in');
    NothingQueued(tx);
    assert Contents(buf', out') == [a];
    assert [a] + [a] == [a, a];
  }

  lemma FirstIsForwarded(rx: Ring, in': Range)
    requires N >= 2 && |rx.buf| == N && rx.Active() == Range(0, 1, false)
    requires Legal(in') && |Contents(rx.buf, in')| == 0 && TrimmedFrom(rx.Active(), in')
    ensures in' == RingBufferLtrim(rx.Active(), 1)
  {
  }

  // One byte is queued and sent, and the worker is killed between the last two stores
  // of `atomic_send`. Bit 7 of the state still tells the range it was sent from.
  ghost function SentNotStored(empty: Ring, a: char): Ring
    requires Empty(empty)
  {
    var queued := Commit(empty, Range(0, 1, false), Overlay(empty.buf, 0, [a]));
    var sent := Armed(queued).(msgLen := 1).(state := SwapState(queued.active));
    sent.WithInactive(RingBufferLtrim(sent.Active(), 1)).(active := !sent.active)
  }

  // The next byte the worker queues is rolled back by that bit: it is in no ring.
  lemma LostQueued(empty: Ring, a: char, x: char)
    requires Empty(empty)
    ensures var r := SentNotStored(empty, a);
            && SendKeeps(r, [a], [a], false) && r.Active().len == 0
            && var c := Commit(r, Range(0, 1, false), Overlay(r.buf, 0, [x]));
               Contents(c.buf, c.Active()) == [x] && c.SendValid() && c.SendContents() == []
  {
    var r := SentNotStored(empty, a);
    assert r.SendContents() == [] && [a] + [] == [a];
    OverlayAppends(r.buf, Range(0, 0, false), [x]);
  }
}
