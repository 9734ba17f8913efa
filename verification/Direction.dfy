/**
One direction of a connection, from the source socket through the receive ring,
the transformation and the send ring to the destination socket.

`Flow` is the account of the byte stream: at every moment what was delivered,
what the two rings hold and what is still unread make up the output that the
whole input determines.
*/
module Direction {
  import opened RingBuffer
  import opened AtomicIo
  import opened Transform

  ghost predicate Flow(p: Protocol, pid: Bytes, whole: Bytes, rx: Ring, tx: Ring, got: bool, unread: Bytes, sent: Bytes) {
    && PrefixStable(p) && HeadLooksLike(p, whole)
    && rx.RecvValid() && tx.SendValid()
    && (rx.EofPending() ==> unread == [])
    && (rx.RecvRange().shutdown ==> unread == [] && rx.Quiet())
    && (tx.SendRange().shutdown ==> got && rx.RecvRange().shutdown)
    && (if got then
          sent + tx.SendContents() + (rx.RecvContents() + unread) == Target(p, pid, whole)
        else
          // Nothing leaves before the head is complete, and the head begins at
          // the start of the buffer.
          && sent == [] && tx.Quiet() && tx.Active().len == 0
          && rx.RecvContents() + unread == whole && rx.RecvRange().start == 0)
  }

  // The head is not complete, there is room for more of it, and what there is looks
  // like the beginning of one.
  ghost predicate AwaitsHead(p: Protocol, rx: Ring) {
    && |rx.buf| == N && Legal(rx.Active()) && rx.Active().len < N && !rx.Active().shutdown
    && p.parse(Contents(rx.buf, rx.Active())).Incomplete? && LooksLike(p.kind, Contents(rx.buf, rx.Active()))
  }

  // What a committed transformation leaves behind: the direction waits for the rest
  // of a head, or has forwarded all it could.
  ghost predicate Settled(p: Protocol, rx: Ring, tx: Ring, got: bool) {
    if got then
      && (rx.Active().len == 0 || tx.Active().len == N)
      && (rx.Active().shutdown ==> tx.Active().shutdown)
    else
      AwaitsHead(p, rx)
  }

  // Both rings are empty for good.
  ghost predicate Drained(rx: Ring, tx: Ring) {
    && rx.Active().len == 0 && rx.Active().shutdown && rx.Quiet()
    && tx.Active().len == 0 && tx.Active().shutdown && tx.Quiet()
  }

  lemma DrainedDelivered(p: Protocol, pid: Bytes, whole: Bytes, rx: Ring, tx: Ring, got: bool, unread: Bytes, sent: Bytes)
    requires Flow(p, pid, whole, rx, tx, got, unread, sent) && Drained(rx, tx)
    ensures unread == [] && sent == Target(p, pid, whole)
  {
    assert tx.SendContents() == [] && rx.RecvContents() == [];
  }

  // I/O

  lemma FlowAfterSend(p: Protocol, pid: Bytes, whole: Bytes, rx: Ring, tx: Ring, got: bool, unread: Bytes, sent: Bytes,
                      tx': Ring, sent': Bytes)
    requires Flow(p, pid, whole, rx, tx, got, unread, sent)
    requires SendKeeps(tx', sent', sent + tx.SendContents(), tx.SendRange().shutdown)
    requires tx.Active().len == 0 ==> tx' == tx && sent' == sent
    ensures Flow(p, pid, whole, rx, tx', got, unread, sent')
  {
  }

  lemma FlowAfterReceive(p: Protocol, pid: Bytes, whole: Bytes, rx: Ring, tx: Ring, got: bool, unread: Bytes, sent: Bytes,
                         rx': Ring, unread': Bytes)
    requires Flow(p, pid, whole, rx, tx, got, unread, sent)
    requires rx'.RecvValid() && rx'.RecvContents() + unread' == rx.RecvContents() + unread
    requires rx.RecvRange().shutdown ==> rx'.RecvRange().shutdown
    requires rx.RecvRange().start == 0 ==> rx'.RecvRange().start == 0
    requires rx'.EofPending() ==> unread' == []
    requires rx'.RecvRange().shutdown ==> unread' == [] && rx'.Quiet()
    ensures Flow(p, pid, whole, rx', tx, got, unread', sent)
  {
  }

  // The commit of a transformation

  // `copy_active_ranges` has run, the inactive range was replaced and the ring toggled.
  function Commit(r: Ring, range: Range, buf: Bytes): Ring {
    r.WithInactive(range).(active := !r.active, buf := buf)
  }

  // A ring in these states can be committed whatever the transformation does.
  ghost predicate RecvCalm(r: Ring) {
    Tag(r.state) != ATOMIC_SWAP && (r.Pending() && r.msgLen > 0 ==> Legal(r.Active()) && End(r.Active()) == 0)
  }

  ghost predicate SendCalm(r: Ring) {
    Tag(r.state) != ATOMIC_SWAP
  }

  // Bytes of a pending receive, which the transformation does not see.
  ghost function Unseen(r: Ring): Bytes
    requires r.RecvValid()
  {
    Contents(r.buf, Range(End(r.RecvBase()), if r.Pending() then r.msgLen else 0, false))
  }

  lemma ExtendContents(buf: Bytes, r: Range, k: nat)
    requires |buf| == N && Legal(r) && r.len + k <= N
    ensures Contents(buf, Extend(r, k)) == Contents(buf, r) + Contents(buf, Range(End(r), k, false))
  {
    forall i | 0 <= i < k
      ensures At(r.start, r.len + i) == At(End(r), i)
    {
    }
  }

  lemma PendingBehindActive(r: Ring)
    requires r.RecvValid() && Tag(r.state) != ATOMIC_SWAP
    ensures r.RecvContents() == Contents(r.buf, r.Active()) + Unseen(r)
    ensures r.Quiet() ==> Unseen(r) == []
  {
    if r.Pending() {
      ExtendContents(r.buf, r.Active(), r.msgLen);
    }
  }

  // The free part still begins at the same place.
  lemma SameEnd(a: Range, t: Range)
    requires t == a || (TrimmedFrom(a, t) && (t.len == 0 ==> End(a) == 0))
    requires Legal(a)
    ensures End(t) == End(a)
  {
  }

  // Forwarding a prefix of the active range leaves the rest, and with it the
  // bytes of a pending receive, in place.
  lemma CommitReceive(r: Ring, range: Range)
    requires r.RecvValid() && RecvCalm(r)
    requires range == r.Active() || TrimmedFrom(r.Active(), range)
    ensures var c := Commit(r, range, r.buf);
            c.RecvValid() && c.RecvContents() == Contents(r.buf, range) + Unseen(r)
  {
    hide Contents, At;
    var c := Commit(r, range, r.buf);
    if r.Pending() && r.msgLen > 0 {
      SameEnd(r.Active(), range);
    }
    PendingBehindActive(c);
    if r.Pending() && r.msgLen == 0 {
      assert Unseen(c) == [] == Unseen(r);
    }
  }

  // Appending to the active range leaves the bytes of a pending send in place.
  lemma CommitSend(r: Ring, range: Range, buf: Bytes)
    requires r.SendValid() && SendCalm(r) && Legal(range) && |buf| == N
    requires range.len >= r.Active().len && (r.Active().len > 0 ==> range.start == r.Active().start)
    requires SameUsed(buf, r.buf, r.Active())
    ensures var c := Commit(r, range, buf);
            && c.SendValid() && (r.Quiet() ==> c.Quiet())
            && (c.SendContents() == if r.Pending() then Contents(buf, range)[r.msgLen..] else Contents(buf, range))
            && (r.Pending() ==> r.SendContents() == Contents(r.buf, r.Active())[r.msgLen..])
  {
    if r.Pending() {
      LtrimDrops(buf, range, r.msgLen);
      LtrimDrops(r.buf, r.Active(), r.msgLen);
    }
  }

  // What `transform` and `shutdown_direction` have put into the inactive copies
  // of one direction, computed from the active ones.
  ghost predicate Transformed(p: Protocol, pid: Bytes, rx: Ring, tx: Ring, got: bool,
                              in': Range, out': Range, buf': Bytes, got': bool)
    requires PrefixStable(p) && rx.RecvValid() && tx.SendValid()
  {
    var a, t := rx.Active(), tx.Active();
    var st := Staged(p, pid, got, Contents(tx.buf, t), Contents(rx.buf, a), a.shutdown);
    && |buf'| == N && Legal(in') && Legal(out') && got' == st.got
    && (st.got ==>
          var room := N - |st.out|;
          var k := if |st.rest| < room then |st.rest| else room;
          && Contents(buf', out') == st.out + st.rest[..k]
          && Contents(rx.buf, in') == st.rest[k..]
          && TrimmedFrom(a, in'))
    && (!st.got ==> in' == a && out' == t)
    && in'.shutdown == a.shutdown && (out'.shutdown <==> t.shutdown || (st.got && a.shutdown))
    && t.len <= out'.len && (t.len > 0 ==> out'.start == t.start)
    && SameUsed(buf', tx.buf, t)
  }

  // The stream does not change when bytes move from the front of one ring to
  // the end of the other.
  lemma Regroup(sent: Bytes, queued: Bytes, rest: Bytes, k: nat, unseen: Bytes, unread: Bytes)
    requires k <= |rest|
    ensures sent + (queued + rest[..k]) + ((rest[k..] + unseen) + unread) == sent + queued + ((rest + unseen) + unread)
  {
    assert rest == rest[..k] + rest[k..];
  }

  lemma RingsAfterTransform(p: Protocol, pid: Bytes, rx: Ring, tx: Ring, got: bool,
                            in': Range, out': Range, buf': Bytes, got': bool)
    requires PrefixStable(p) && rx.RecvValid() && tx.SendValid() && RecvCalm(rx) && SendCalm(tx)
    requires Transformed(p, pid, rx, tx, got, in', out', buf', got')
    ensures var rx', tx' := Commit(rx, in', rx.buf), Commit(tx, out', buf');
            && rx'.RecvValid() && rx'.RecvContents() == Contents(rx.buf, in') + Unseen(rx)
            && tx'.SendValid() && (tx.Quiet() ==> tx'.Quiet())
            && tx'.SendContents() == (if tx.Pending() then Contents(buf', out')[tx.msgLen..] else Contents(buf', out'))
            && RecvCalm(rx') && SendCalm(tx')
  {
    hide Contents, Staged, At;
    CommitReceive(rx, in');
    CommitSend(tx, out', buf');
    if rx.Pending() && rx.msgLen > 0 {
      SameEnd(rx.Active(), in');
    }
  }

  // Forwarding: `queued` loses what a pending send has sent, at its front.
  lemma StreamForwarded(sent: Bytes, queued: Bytes, gone: nat, rest: Bytes, k: nat, unseen: Bytes, unread: Bytes)
    requires gone <= |queued| && k <= |rest|
    ensures sent + (queued + rest[..k])[gone..] + ((rest[k..] + unseen) + unread)
         == sent + queued[gone..] + ((rest + unseen) + unread)
  {
    assert (queued + rest[..k])[gone..] == queued[gone..] + rest[..k];
    Regroup(sent, queued[gone..], rest, k, unseen, unread);
  }

  // Deciding: the head and what follows it become the output.
  lemma StreamDecided(p: Protocol, pid: Bytes, rest: Bytes, eof: bool, unseen: Bytes, unread: Bytes, k: nat)
    requires PrefixStable(p) && |rest| <= N && (eof ==> unseen + unread == []) && HeadLooksLike(p, (rest + unseen) + unread)
    requires Staged(p, pid, false, [], rest, eof).got && k <= |Staged(p, pid, false, [], rest, eof).rest|
    ensures var st := Staged(p, pid, false, [], rest, eof);
            [] + (st.out + st.rest[..k]) + ((st.rest[k..] + unseen) + unread) == Target(p, pid, (rest + unseen) + unread)
  {
    hide PrefixStable, HeadLooksLike, Staged, Target;
    var st := Staged(p, pid, false, [], rest, eof);
    assert rest + (unseen + unread) == (rest + unseen) + unread;
    StagedIsTarget(p, pid, rest, eof, unseen + unread);
    Regroup([], st.out, st.rest, k, unseen, unread);
    assert [] + st.out + ((st.rest + unseen) + unread) == st.out + st.rest + (unseen + unread);
  }

  function Fitting(rest: nat, queued: nat): nat
    requires queued <= N
  {
    if rest < N - queued then rest else N - queued
  }

  lemma ForwardedContents(p: Protocol, pid: Bytes, rx: Ring, tx: Ring, in': Range, out': Range, buf': Bytes)
    requires PrefixStable(p) && rx.RecvValid() && tx.SendValid()
    requires Transformed(p, pid, rx, tx, true, in', out', buf', true)
    ensures |buf'| == N && Legal(in') && Legal(out')
    ensures var queued, rest := Contents(tx.buf, tx.Active()), Contents(rx.buf, rx.Active());
            var k := Fitting(|rest|, |queued|);
            Contents(buf', out') == queued + rest[..k] && Contents(rx.buf, in') == rest[k..]
  {
    hide Contents, PrefixStable, HeadLooksLike, Staged;
    StagedForwards(p, pid, Contents(tx.buf, tx.Active()), Contents(rx.buf, rx.Active()), rx.Active().shutdown);
  }

  // `transform` while the direction is being forwarded.
  lemma StreamAfterForward(p: Protocol, pid: Bytes, whole: Bytes, rx: Ring, tx: Ring,
                           unread: Bytes, sent: Bytes, in': Range, out': Range, buf': Bytes)
    requires Flow(p, pid, whole, rx, tx, true, unread, sent) && RecvCalm(rx) && SendCalm(tx)
    requires Transformed(p, pid, rx, tx, true, in', out', buf', true)
    ensures var rx', tx' := Commit(rx, in', rx.buf), Commit(tx, out', buf');
            && rx'.RecvValid() && tx'.SendValid()
            && sent + tx'.SendContents() + (rx'.RecvContents() + unread) == Target(p, pid, whole)
  {
    hide Contents, At, Target, PrefixStable, HeadLooksLike, Transformed;
    RingsAfterTransform(p, pid, rx, tx, true, in', out', buf', true);
    ForwardedContents(p, pid, rx, tx, in', out', buf');
    PendingBehindActive(rx);
    SendPendingSuffix(tx);
    var queued, rest := Contents(tx.buf, tx.Active()), Contents(rx.buf, rx.Active());
    var k := Fitting(|rest|, |queued|);
    var gone := if tx.Pending() then tx.msgLen else 0;
    assert queued[0..] == queued && (queued + rest[..k])[0..] == queued + rest[..k];
    StreamForwarded(sent, queued, gone, rest, k, Unseen(rx), unread);
  }

  lemma DecidedContents(p: Protocol, pid: Bytes, rx: Ring, tx: Ring, in': Range, out': Range, buf': Bytes)
    requires PrefixStable(p) && rx.RecvValid() && tx.SendValid() && tx.Active().len == 0
    requires Transformed(p, pid, rx, tx, false, in', out', buf', true)
    ensures |buf'| == N && Legal(in') && Legal(out')
    ensures var rest := Contents(rx.buf, rx.Active());
            var st := Staged(p, pid, false, [], rest, rx.Active().shutdown);
            && st.got && |st.out| <= N
            && var k := Fitting(|st.rest|, |st.out|);
               Contents(buf', out') == st.out + st.rest[..k] && Contents(rx.buf, in') == st.rest[k..]
  {
    hide Contents, PrefixStable, HeadLooksLike, Staged;
    NothingQueued(tx);
  }

  // `transform` when it decides about the head.
  lemma StreamAfterDecision(p: Protocol, pid: Bytes, pid': Bytes, whole: Bytes, rx: Ring, tx: Ring,
                            unread: Bytes, sent: Bytes, in': Range, out': Range, buf': Bytes)
    requires Flow(p, pid, whole, rx, tx, false, unread, sent) && RecvCalm(rx) && SendCalm(tx)
    requires Transformed(p, pid', rx, tx, false, in', out', buf', true)
    ensures var rx', tx' := Commit(rx, in', rx.buf), Commit(tx, out', buf');
            && rx'.RecvValid() && tx'.SendValid()
            && sent + tx'.SendContents() + (rx'.RecvContents() + unread) == Target(p, pid', whole)
  {
    hide Contents, At, Target, PrefixStable, HeadLooksLike, Staged, Transformed;
    RingsAfterTransform(p, pid', rx, tx, false, in', out', buf', true);
    DecidedContents(p, pid', rx, tx, in', out', buf');
    PendingBehindActive(rx);
    NothingQueued(tx);
    var rest, unseen, eof := Contents(rx.buf, rx.Active()), Unseen(rx), rx.Active().shutdown;
    var st := Staged(p, pid', false, [], rest, eof);
    var k := Fitting(|st.rest|, |st.out|);
    StreamDecided(p, pid', rest, eof, unseen, unread, k);
  }

  lemma StagedForwards(p: Protocol, pid: Bytes, out: Bytes, rest: Bytes, eof: bool)
    requires PrefixStable(p)
    ensures Staged(p, pid, true, out, rest, eof) == Stage(true, out, rest)
  {
  }

  lemma SendPendingSuffix(tx: Ring)
    requires tx.SendValid() && SendCalm(tx)
    ensures tx.Pending() ==> tx.msgLen <= tx.Active().len
    ensures tx.SendContents() == if tx.Pending() then Contents(tx.buf, tx.Active())[tx.msgLen..] else Contents(tx.buf, tx.Active())
  {
    LtrimDrops(tx.buf, tx.Active(), tx.msgLen);
  }

  lemma NothingQueued(r: Ring)
    requires |r.buf| == N && Legal(r.Active()) && r.Active().len == 0
    ensures Contents(r.buf, r.Active()) == []
  {
  }

  // The commit of a transformation keeps the account, and settles the direction.
  lemma FlowAfterTransform(p: Protocol, pid: Bytes, pid': Bytes, whole: Bytes, rx: Ring, tx: Ring, got: bool,
                           unread: Bytes, sent: Bytes, in': Range, out': Range, buf': Bytes, got': bool)
    requires Flow(p, pid, whole, rx, tx, got, unread, sent) && RecvCalm(rx) && SendCalm(tx)
    requires Transformed(p, if got then pid else pid', rx, tx, got, in', out', buf', got')
    ensures var rx', tx' := Commit(rx, in', rx.buf), Commit(tx, out', buf');
            && Flow(p, if got then pid else pid', whole, rx', tx', got', unread, sent)
            && Settled(p, rx', tx', got')
            && RecvCalm(rx') && SendCalm(tx')
  {
    hide Contents, At, Target, PrefixStable, HeadLooksLike, Staged;
    RingsAfterTransform(p, if got then pid else pid', rx, tx, got, in', out', buf', got');
    PendingBehindActive(rx);
    SettledAfterTransform(p, if got then pid else pid', rx, tx, got, in', out', buf', got');
    if got {
      StreamAfterForward(p, pid, whole, rx, tx, unread, sent, in', out', buf');
    } else if got' {
      StreamAfterDecision(p, pid, pid', whole, rx, tx, unread, sent, in', out', buf');
    }
  }

  lemma SettledAfterTransform(p: Protocol, pid: Bytes, rx: Ring, tx: Ring, got: bool,
                              in': Range, out': Range, buf': Bytes, got': bool)
    requires PrefixStable(p) && rx.RecvValid() && tx.SendValid()
    requires Transformed(p, pid, rx, tx, got, in', out', buf', got')
    ensures Settled(p, Commit(rx, in', rx.buf), Commit(tx, out', buf'), got')
    ensures got ==> got'
  {
    hide PrefixStable, HeadLooksLike, At, LooksLike;
  }

  // A transformation that leaves an empty, shut down send ring had nothing to
  // do: everything was delivered before.
  lemma FinishedWasDrained(p: Protocol, pid: Bytes, pid': Bytes, whole: Bytes, rx: Ring, tx: Ring, got: bool,
                           unread: Bytes, sent: Bytes, in': Range, out': Range, buf': Bytes, got': bool)
    requires Flow(p, pid, whole, rx, tx, got, unread, sent) && RecvCalm(rx) && SendCalm(tx)
    requires Transformed(p, if got then pid else pid', rx, tx, got, in', out', buf', got')
    requires out'.shutdown && out'.len == 0
    ensures unread == [] && sent == Target(p, if got then pid else pid', whole)
    ensures rx.Active().len == 0 && rx.Active().shutdown && rx.Quiet() && tx.Active().len == 0 && tx.Quiet()
  {
    hide Contents, At, Target, PrefixStable, HeadLooksLike;
    var now := if got then pid else pid';
    FlowAfterTransform(p, pid, pid', whole, rx, tx, got, unread, sent, in', out', buf', got');
    FinishedHadNothing(p, now, rx, tx, got, in', out', buf', got');
    var rx', tx' := Commit(rx, in', rx.buf), Commit(tx, out', buf');
    assert Drained(rx', tx');
    DrainedDelivered(p, now, whole, rx', tx', got', unread, sent);
  }

  lemma FinishedHadNothing(p: Protocol, pid: Bytes, rx: Ring, tx: Ring, got: bool,
                           in': Range, out': Range, buf': Bytes, got': bool)
    requires PrefixStable(p) && rx.RecvValid() && tx.SendValid()
    requires Transformed(p, pid, rx, tx, got, in', out', buf', got')
    requires out'.len == 0 && got' && (tx.Active().shutdown ==> got)
    ensures rx.Active().len == 0 && tx.Active().len == 0 && in'.len == 0
  {
    hide PrefixStable, HeadLooksLike, At, Staged;
    NothingRewritten(p, pid, Contents(rx.buf, rx.Active()), rx.Active().shutdown);
    if got {
      StagedForwards(p, pid, Contents(tx.buf, tx.Active()), Contents(rx.buf, rx.Active()), rx.Active().shutdown);
    }
  }

  lemma NothingRewritten(p: Protocol, pid: Bytes, rest: Bytes, eof: bool)
    requires PrefixStable(p)
    ensures var st := Staged(p, pid, false, [], rest, eof); st.out == [] ==> st.rest == rest
  {
  }

  // A killed transformation has written only what nothing refers to.
  lemma FlowAfterScribble(p: Protocol, pid: Bytes, whole: Bytes, rx: Ring, tx: Ring, got: bool, unread: Bytes, sent: Bytes,
                          rx': Ring, tx': Ring)
    requires Flow(p, pid, whole, rx, tx, got, unread, sent) && RecvCalm(rx) && SendCalm(tx)
    requires exists torn :: rx' == rx.WithInactive(torn)
    requires exists torn :: tx' == tx.WithInactive(torn).(buf := tx'.buf)
    requires |tx'.buf| == N && SameUsed(tx'.buf, tx.buf, tx.Active())
    ensures Flow(p, pid, whole, rx', tx', got, unread, sent)
  {
    hide PrefixStable, HeadLooksLike, Target, At, RingBufferLtrim, Contents;
    SameSendContents(tx, tx');
  }

  lemma SameSendContents(tx: Ring, tx': Ring)
    requires tx.SendValid() && SendCalm(tx)
    requires exists torn :: tx' == tx.WithInactive(torn).(buf := tx'.buf)
    requires |tx'.buf| == N && SameUsed(tx'.buf, tx.buf, tx.Active())
    ensures tx'.SendValid() && tx'.SendContents() == tx.SendContents()
  {
    LtrimCells(tx.Active(), tx.msgLen);
  }

  // Once a settled direction has nothing to send and is shut down, it is drained.
  lemma SettledDrained(p: Protocol, pid: Bytes, whole: Bytes, rx: Ring, tx: Ring, got: bool, unread: Bytes, sent: Bytes)
    requires Flow(p, pid, whole, rx, tx, got, unread, sent) && Settled(p, rx, tx, got) && RecvCalm(rx) && SendCalm(tx)
    requires tx.Active().shutdown && tx.Active().len == 0
    ensures Drained(rx, tx)
  {
  }

  // A new connection has nothing in its rings.
  lemma EmptyFlow(p: Protocol, pid: Bytes, whole: Bytes, rx: Ring, tx: Ring, got: bool)
    requires PrefixStable(p) && HeadLooksLike(p, whole) && Empty(rx) && Empty(tx)
    requires got ==> forall s: Bytes :: !p.parse(s).Accepted?
    ensures Flow(p, pid, whole, rx, tx, got, whole, [])
  {
    hide PrefixStable, HeadLooksLike;
    NothingQueued(rx);
    NothingQueued(tx);
    assert [] + whole == whole;
    assert [] + [] + ([] + whole) == whole;
  }
}
