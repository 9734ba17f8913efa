/**
What a new worker makes of a connection it adopts. `ipc_orphan_upstream` looks at
the ranges that are active at that moment, registers events for them, and shuts
down an output whose send range is finished. It neither replays a pending swap, nor
finishes an interrupted call, nor runs the transformation that is due. So an output
can be cut off, work can be left until an event comes that nobody owes, and the
worker can be left without any event to wait for. None of this happens in an
uninterrupted run; here is exactly when it does.
*/
module Adoption {
  import opened States
  import opened RingBuffer
  import opened AtomicIo
  import opened Transform
  import opened Direction
  import opened Account

  // Incomplete outputs

  // Bytes of the direction are still in one of its rings.
  ghost predicate Queued(rx: Ring, tx: Ring) {
    && rx.RecvValid() && tx.SendValid()
    && (rx.RecvContents() != [] || tx.SendContents() != [])
  }

  // A finished send range, active or just replaced, is the end of the input. Its
  // output is incomplete if and only if something is still queued.
  lemma FinishedRange(p: Protocol, pid: Bytes, whole: Bytes, rx: Ring, tx: Ring, got: bool, unread: Bytes, sent: Bytes, raw: Ring)
    requires Flow(p, pid, whole, rx, tx, got, unread, sent) && Finished(raw.Active())
    requires raw == tx || (raw == Toggled(tx) && SendCalm(tx) && (tx.Inactive().shutdown ==> tx.Active().shutdown))
    ensures got && unread == []
    ensures sent != Target(p, pid, whole) <==> Queued(rx, tx)
  {
    hide PrefixStable, HeadLooksLike, Target, Contents;
    OnlySent(sent, tx.SendContents(), rx.RecvContents(), unread);
  }

  // Adoption keeps the account. It cuts an output off exactly if the raw send range
  // is finished while bytes of the direction are queued.
  lemma CutShort(t: Terms, v: View, raw: View, up: bool, down: bool)
    requires Holds(t, v) && RawOf(v, raw)
    ensures var a := Adopted(v, raw, up, down);
            && Holds(t, a)
            && (CutUp(t, a) <==> CutUp(t, v) || (up && Finished(raw.upTx.Active()) && Queued(v.downRx, v.upTx)))
            && (CutDown(t, a) <==> CutDown(t, v) || (down && Finished(raw.downTx.Active()) && Queued(v.upRx, v.downTx)))
  {
    hide Flow, Target, Queued, Settled, RecvCalm;
    CalmValid(t, v);
    if Finished(raw.upTx.Active()) {
      FinishedRange(t.requests, [], t.wholeUp, v.downRx, v.upTx, v.got.request, v.downUnread, v.upSent, raw.upTx);
    }
    if Finished(raw.downTx.Active()) {
      FinishedRange(t.responses, v.responsePid, t.wholeDown, v.upRx, v.downTx, v.got.response, v.upUnread, v.downSent, raw.downTx);
    }
    CompleteNotQueued(t, v);
    ShutHolds(t, v, Adopted(v, raw, up, down).upShut, Adopted(v, raw, up, down).downShut);
  }

  lemma CompleteNotQueued(t: Terms, v: View)
    requires Holds(t, v)
    ensures UpComplete(t, v) ==> !Queued(v.downRx, v.upTx)
    ensures DownComplete(t, v) ==> !Queued(v.upRx, v.downTx)
  {
    hide Holds, UpComplete, DownComplete;
    NothingLeft(t, v);
  }

  // A quiet ring after a call that has sent everything.
  function AllSent(tx: Ring): Ring
    requires Legal(tx.Active())
  {
    Commit(tx, RingBufferLtrim(tx.Active(), tx.Active().len), tx.buf).(state := ATOMIC_INIT, msgLen := tx.Active().len)
  }

  lemma SendsAll(tx: Ring, sent: Bytes)
    requires tx.SendValid() && tx.Quiet() && tx.Active().len > 0
    ensures SentFrom(tx, sent, AllSent(tx), sent + tx.SendContents())
    ensures AllSent(tx).Quiet() && AllSent(tx).Active().len == 0 && AllSent(tx).Active().shutdown == tx.Active().shutdown
  {
    NothingPending(AllSent(tx));
  }

  // One way there: the end of the input waits behind a full send ring, the kernel
  // takes all of it, and the worker dies before it forwards the rest.
  lemma CutShortReached(t: Terms, v: View)
    requires Holds(t, v) && v.tag == CONN_POLL && BothSettled(t, v) && AllQuiet(v) && !CutUp(t, v)
    requires v.downRx.Active().shutdown && v.downRx.Active().len > 0
    ensures exists v' :: ServedUpstream(v, v') && Holds(t, v') && RawOf(v', v')
              && !CutUp(t, v') && CutUp(t, Adopted(v', v', true, true))
  {
    hide Flow, Drained, Target, SentFrom, ReceivedInto, PrefixStable, HeadLooksLike, Contents, IoReady, Queued, UpComplete, KeepsEnds;
    CalmValid(t, v);
    IoBegins(t, v);
    IoIdle(v.upRx, v.upTx, v.upUnread);
    NotComplete(t, v);
    SendsAll(v.upTx, v.upSent);
    var v' := v.(upTx := AllSent(v.upTx), upSent := v.upSent + v.upTx.SendContents());
    UpstreamIo(t, v, v');
    FinishedRange(t.requests, [], t.wholeUp, v'.downRx, v'.upTx, v'.got.request, v'.downUnread, v'.upSent, v'.upTx);
    LeftBehind(t, v');
  }

  lemma NotComplete(t: Terms, v: View)
    requires Holds(t, v) && v.downRx.Quiet() && v.downRx.Active().len > 0
    ensures !UpComplete(t, v)
  {
    hide PrefixStable, HeadLooksLike, Target, UpComplete;
    NothingLeft(t, v);
    LengthOfContents(v.downRx.buf, v.downRx.Active());
  }

  lemma LeftBehind(t: Terms, v: View)
    requires Holds(t, v) && Finished(v.upTx.Active()) && v.downRx.Quiet() && v.downRx.Active().len > 0
    ensures !UpComplete(t, v) && !UpComplete(t, Adopted(v, v, true, true))
  {
    hide PrefixStable, HeadLooksLike, Target;
    FinishedRange(t.requests, [], t.wholeUp, v.downRx, v.upTx, v.got.request, v.downUnread, v.upSent, v.upTx);
    assert |v.downRx.RecvContents()| > 0;
  }

  lemma IoIdle(rx: Ring, tx: Ring, unread: Bytes)
    requires IoReady(rx, tx, unread)
    ensures ReceivedInto(rx, unread, rx, unread)
  {
  }

  // The ranges while nothing of a committed swap has been replayed.
  function Unreplayed(v: View): View {
    v.(downRx := Toggled(v.downRx), downTx := Toggled(v.downTx), upRx := Toggled(v.upRx), upTx := Toggled(v.upTx))
  }

  // Another way there: the worker does forward the rest, and dies between the commit
  // and its replay. The receive ring is empty by then.
  lemma CutShortBySwap(t: Terms, v: View, pid: Bytes, d: Draft)
    requires Holds(t, v) && v.tag == CONN_POLL && AllQuiet(v) && DraftOf(t, v, pid, d)
    requires Finished(v.upTx.Active()) && v.downRx.Active().len > 0
    ensures var c := Committed(v, pid, d);
            && Holds(t, c) && RawOf(c, Unreplayed(c)) && c.downRx.Active().len == 0
            && CutUp(t, Adopted(c, Unreplayed(c), true, true))
  {
    hide Holds, DraftOf, Transformed, Target, PrefixStable, Contents;
    LeftBehind(t, v);
    FinishedIsDecided(t, v);
    ForwardsAll(t, v, pid, d);
    CommitHolds(t, v, pid, d);
  }

  lemma FinishedIsDecided(t: Terms, v: View)
    requires Holds(t, v) && AllQuiet(v) && Finished(v.upTx.Active())
    ensures v.got.request
  {
    hide Target, PrefixStable, HeadLooksLike, Contents;
  }

  lemma ForwardsAll(t: Terms, v: View, pid: Bytes, d: Draft)
    requires Holds(t, v) && AllQuiet(v) && DraftOf(t, v, pid, d) && v.got.request && v.upTx.Active().len == 0
    ensures d.got.request && d.downRx.len == 0 && d.upTx.len == v.downRx.Active().len
  {
    ForwardsAllOf(t.requests, [], v.downRx, v.upTx, d.downRx, d.upTx, d.upTxBuf, d.got.request);
  }

  lemma ForwardsAllOf(p: Protocol, pid: Bytes, rx: Ring, tx: Ring, in': Range, out': Range, buf': Bytes, got': bool)
    requires PrefixStable(p) && rx.RecvValid() && tx.SendValid() && tx.Active().len == 0
    requires Transformed(p, pid, rx, tx, true, in', out', buf', got')
    ensures got' && in'.len == 0 && out'.len == rx.Active().len
  {
    hide PrefixStable, TrimmedFrom, SameUsed;
    NothingQueued(tx);
    ForwardedContents(p, pid, rx, tx, in', out', buf');
    LengthOfContents(rx.buf, in');
    LengthOfContents(buf', out');
    LengthOfContents(rx.buf, rx.Active());
  }

  lemma LengthOfContents(buf: Bytes, r: Range)
    requires |buf| == N && Legal(r)
    ensures |Contents(buf, r)| == r.len
  {
  }

  // Connections without events

  // No send range has bytes, and no receive range has room for any.
  predicate Stalled(raw: View) {
    && raw.downTx.Active().len == 0 && raw.upTx.Active().len == 0
    && (raw.downRx.Active().shutdown || raw.downRx.Active().len >= N)
    && (raw.upRx.Active().shutdown || raw.upRx.Active().len >= N)
  }

  // A new worker waits for nothing exactly then.
  lemma StalledExact(raw: View)
    ensures Stalled(raw) <==>
              InterestFor(raw.downRx, raw.downTx) == Interest(false, false) && InterestFor(raw.upRx, raw.upTx) == Interest(false, false)
  {
  }

  // It is never so after a call that was not interrupted; a stalled connection has a
  // swap to replay, or a transformation to run, and is not stalled afterwards.
  lemma StalledIsDue(t: Terms, v: View, raw: View)
    requires Holds(t, v) && RawOf(v, raw) && Stalled(raw)
    ensures v.tag in {CONN_POLL, CONN_SWAP_BUFFERS} ==> Due(t, v)
    ensures v.tag == CONN_SWAP_BUFFERS ==> raw != v && !Stalled(v)
    ensures v.tag == CONN_POLL && Calm(v) ==> !BothSettled(t, v)
    ensures forall pid, d :: v.tag == CONN_POLL && Calm(v) && DraftOf(t, v, pid, d) && !(Finished(d.upTx) && Finished(d.downTx)) ==>
              !Stalled(Committed(v, pid, d))
  {
    hide Flow, Settled, RecvCalm, SendCalm, Committed;
    QuietIsCalm(v);
    if v.tag == CONN_SWAP_BUFFERS || (v.tag == CONN_POLL && Calm(v) && BothSettled(t, v)) {
      NeverStalled(t, v);
    }
    forall pid, d | v.tag == CONN_POLL && Calm(v) && DraftOf(t, v, pid, d) && !(Finished(d.upTx) && Finished(d.downTx))
      ensures !Stalled(Committed(v, pid, d))
    {
      CommitHolds(t, v, pid, d);
      CommittedTx(v, pid, d);
      NeverStalled(t, Committed(v, pid, d));
    }
  }

  lemma QuietIsCalm(v: View)
    ensures AllQuiet(v) ==> Calm(v)
  {
  }

  lemma NeverStalled(t: Terms, v: View)
    requires Holds(t, v) && BothSettled(t, v) && Calm(v)
    ensures !Stalled(v)
  {
    hide Flow, Settled, RecvCalm, SendCalm;
    NoStall(t, v);
    StalledExact(v);
  }

  // A quiet ring after a call that has received `data`.
  ghost function Received(rx: Ring, data: Bytes): Ring
    requires |rx.buf| == N && Legal(rx.Active()) && rx.Active().len + |data| <= N
  {
    var a := Rewind(rx.Active());
    Commit(rx, Extend(a, |data|), Overlay(rx.buf, End(a), data)).(state := ATOMIC_INIT, msgLen := |data|)
  }

  lemma ReceivesSome(rx: Ring, unread: Bytes, k: nat)
    requires rx.RecvValid() && rx.Quiet() && !rx.Active().shutdown
    requires k <= N - rx.Active().len && 0 < k <= |unread|
    ensures ReceivedInto(rx, unread, Received(rx, unread[..k]), unread[k..])
    ensures var now := Received(rx, unread[..k]);
            now.Active().len == rx.Active().len + k && !now.Active().shutdown && now.Quiet()
  {
    var a := Rewind(rx.Active());
    assert Contents(rx.buf, a) == Contents(rx.buf, rx.Active());
    OverlayAppends(rx.buf, a, unread[..k]);
    assert unread == unread[..k] + unread[k..];
  }

  lemma DownstreamReceives(t: Terms, v: View, k: nat)
    requires Holds(t, v) && v.tag == CONN_POLL && AllQuiet(v) && !v.downRx.Active().shutdown
    requires 0 < k <= |v.downUnread| && k <= N - v.downRx.Active().len
    ensures var v' := v.(downRx := Received(v.downRx, v.downUnread[..k]), downUnread := v.downUnread[k..]);
            && ServedDownstream(v, v') && Holds(t, v') && AllQuiet(v')
            && v'.downRx.Active().len == v.downRx.Active().len + k && !v'.downRx.Active().shutdown
  {
    hide PrefixStable, HeadLooksLike, Target, SentFrom, ReceivedInto, Contents, IoReady, Received, KeepsEnds;
    CalmValid(t, v);
    SendIdle(v.downTx, v.downSent);
    ReceivesSome(v.downRx, v.downUnread, k);
    var v' := v.(downRx := Received(v.downRx, v.downUnread[..k]), downUnread := v.downUnread[k..]);
    DownstreamIo(t, v, v');
  }

  // One way there: the server has finished and its output is delivered, the client
  // sends enough to fill the receive ring, and the worker dies before it forwards.
  lemma StallReached(t: Terms, v: View)
    requires Holds(t, v) && v.tag == CONN_POLL && AllQuiet(v)
    requires v.upRx.Active().shutdown && v.downTx.Active().len == 0 && v.upTx.Active().len == 0
    requires !v.downRx.Active().shutdown && v.downRx.Active().len < N
    requires |v.downUnread| >= N - v.downRx.Active().len
    ensures exists v' :: ServedDownstream(v, v') && Holds(t, v') && RawOf(v', v')
              && v'.downRx.Active().len == N && !v'.upTx.Active().shutdown && Stalled(v')
  {
    hide PrefixStable, HeadLooksLike, Target, SentFrom, ReceivedInto, Contents, Received;
    CalmValid(t, v);
    DownstreamReceives(t, v, N - v.downRx.Active().len);
  }

  lemma SendIdle(tx: Ring, sent: Bytes)
    requires tx.SendValid()
    ensures SentFrom(tx, sent, tx, sent)
  {
  }

  // Another: the worker does forward, and dies between the commit and its replay.
  // The new worker does not see that there is something to send.
  lemma StallBySwap(t: Terms, v: View, pid: Bytes, d: Draft)
    requires Holds(t, v) && v.tag == CONN_POLL && AllQuiet(v) && DraftOf(t, v, pid, d)
    requires v.upRx.Active().shutdown && v.downTx.Active().len == 0 && v.upTx.Active().len == 0
    requires v.got.request && v.downRx.Active().len == N
    ensures var c := Committed(v, pid, d);
            Holds(t, c) && RawOf(c, Unreplayed(c)) && Stalled(Unreplayed(c)) && c.upTx.Active().len == N
  {
    hide Holds, DraftOf, Transformed, Target, PrefixStable, Contents;
    ForwardsAll(t, v, pid, d);
    CommitHolds(t, v, pid, d);
  }

  // Work without an event

  // What the next call of `handle_connection` would do whatever brings it about:
  // replay a swap, finish an interrupted call, or transform.
  ghost predicate Due(t: Terms, v: View) {
    v.tag == CONN_SWAP_BUFFERS || (v.tag == CONN_POLL && !(AllQuiet(v) && BothSettled(t, v)))
  }

  // An event that does not depend on what the peers decide to do: there are bytes to
  // send, there is more input, or its end has been seen before.
  ghost predicate Comes(interest: Interest, rx: Ring, unread: Bytes) {
    interest.output || (interest.input && (unread != [] || rx.EofPending()))
  }

  ghost predicate LeftWaiting(t: Terms, v: View, down: Interest, up: Interest) {
    Due(t, v) && !Comes(down, v.downRx, v.downUnread) && !Comes(up, v.upRx, v.upUnread)
  }

  // The raw ranges of an endpoint ask for nothing that is bound to come.
  ghost predicate Silent(rx: Ring, tx: Ring, unread: Bytes) {
    && tx.Active().len == 0
    && (rx.Active().shutdown || rx.Active().len >= N || (unread == [] && !rx.EofPending()))
  }

  // With an empty send range: there are bytes or an end to forward, or a head to decide.
  ghost predicate HeldBack(p: Protocol, rx: Ring, tx: Ring, got: bool) {
    if got then rx.Active().len > 0 || (rx.Active().shutdown && !tx.Active().shutdown)
    else rx.Active().len >= N || rx.Active().shutdown
         || (|rx.buf| == N && Legal(rx.Active())
             && !(p.parse(Contents(rx.buf, rx.Active())).Incomplete? && LooksLike(p.kind, Contents(rx.buf, rx.Active()))))
  }

  ghost predicate Left(t: Terms, v: View, raw: View) {
    && Silent(raw.downRx, raw.downTx, v.downUnread) && Silent(raw.upRx, raw.upTx, v.upUnread)
    && (|| v.tag == CONN_SWAP_BUFFERS
        || (v.tag == CONN_POLL
            && (|| !AllQuiet(raw)
                || HeldBack(t.requests, raw.downRx, raw.upTx, raw.got.request)
                || HeldBack(t.responses, raw.upRx, raw.downTx, raw.got.response)
                || (raw.upTx.Active().shutdown && raw.downTx.Active().shutdown))))
  }

  lemma HeldBackExact(p: Protocol, rx: Ring, tx: Ring, got: bool)
    requires rx.RecvValid() && tx.Active().len == 0
    ensures Settled(p, rx, tx, got) <==> !HeldBack(p, rx, tx, got)
  {
    hide LooksLike, Contents;
  }

  lemma SilentExact(raw: Ring, tx: Ring, rx: Ring, unread: Bytes)
    requires raw == rx || raw == Toggled(rx)
    ensures Silent(raw, tx, unread) <==> !Comes(InterestFor(raw, tx), rx, unread)
    ensures Silent(raw, tx, unread) ==> tx.Active().len == 0
  {
  }

  // Adoption leaves work waiting, with no event that is bound to come, exactly then.
  lemma LeftExact(t: Terms, v: View, raw: View)
    requires Holds(t, v) && RawOf(v, raw)
    ensures LeftWaiting(t, v, InterestFor(raw.downRx, raw.downTx), InterestFor(raw.upRx, raw.upTx)) <==> Left(t, v, raw)
  {
    hide Holds, Settled, HeldBack, Comes, Silent, InterestFor;
    CalmValid(t, v);
    SilentExact(raw.downRx, raw.downTx, v.downRx, v.downUnread);
    SilentExact(raw.upRx, raw.upTx, v.upRx, v.upUnread);
    if v.tag == CONN_POLL && v.downTx.Active().len == v.upTx.Active().len == 0 {
      HeldBackExact(t.requests, v.downRx, v.upTx, v.got.request);
      HeldBackExact(t.responses, v.upRx, v.downTx, v.got.response);
    }
  }

  // What is due does not depend on what is shut down.
  lemma DueWhateverIsShut(t: Terms, v: View, down: Interest, up: Interest, upShut: bool, downShut: bool)
    ensures LeftWaiting(t, v.(upShut := upShut, downShut := downShut), down, up) == LeftWaiting(t, v, down, up)
  {
    hide Settled;
  }

  // One way there, and the ordinary one: the worker dies between a receive and the
  // transformation. The new one waits for more input, which the client need not send.
  lemma LeftReached(t: Terms, v: View)
    requires Holds(t, v) && v.tag == CONN_POLL && AllQuiet(v) && v.got.request && !v.downRx.Active().shutdown
    requires 0 < |v.downUnread| < N - v.downRx.Active().len
    requires v.downTx.Active().len == 0 && Silent(v.upRx, v.upTx, v.upUnread)
    ensures exists v' :: ServedDownstream(v, v') && Holds(t, v') && RawOf(v', v') && Left(t, v', v') && !Stalled(v')
              && v'.downRx.Active().len > 0 && !InterestFor(v'.upRx, v'.upTx).output
  {
    hide PrefixStable, HeadLooksLike, Target, SentFrom, ReceivedInto, Contents, Received, Holds;
    var k := |v.downUnread|;
    CalmValid(t, v);
    DownstreamReceives(t, v, k);
    var v' := v.(downRx := Received(v.downRx, v.downUnread[..k]), downUnread := v.downUnread[k..]);
    assert v'.downUnread == [];
    assert Left(t, v', v');
  }

  // Another: it dies between the commit and its replay. The selected send ring has
  // the bytes, and the raw range does not show them.
  lemma LeftBySwap(t: Terms, v: View, pid: Bytes, d: Draft)
    requires Holds(t, v) && v.tag == CONN_POLL && AllQuiet(v) && DraftOf(t, v, pid, d) && v.got.request
    requires v.downRx.Active().len > 0
    requires Silent(v.downRx, v.downTx, v.downUnread) && Silent(v.upRx, v.upTx, v.upUnread)
    ensures var c := Committed(v, pid, d);
            && Holds(t, c) && RawOf(c, Unreplayed(c)) && Left(t, c, Unreplayed(c))
            && c.upTx.Active().len > 0 && !InterestFor(Unreplayed(c).upRx, Unreplayed(c).upTx).output
  {
    hide Holds, DraftOf, Transformed, Target, PrefixStable, Contents;
    ForwardsAll(t, v, pid, d);
    CommitHolds(t, v, pid, d);
  }

  // After a call that was not interrupted nothing is due.
  lemma NothingDue(t: Terms, v: View)
    requires v.tag == CONN_POLL && AllQuiet(v) && BothSettled(t, v)
    ensures !Due(t, v)
  {
  }

  // Bytes on their way to a peer, and no EPOLLOUT for it: they are in the receive
  // ring, or in the send ring that a pending swap selects.
  lemma Unheard(p: Protocol, pid: Bytes, whole: Bytes, rx: Ring, tx: Ring, got: bool, unread: Bytes, sent: Bytes, raw: Ring, back: Ring)
    requires Flow(p, pid, whole, rx, tx, got, unread, sent) && (raw == tx || (raw == Toggled(tx) && SendCalm(tx)))
    ensures Queued(rx, tx) && !InterestFor(back, raw).output <==>
              raw.Active().len == 0 && (rx.RecvContents() != [] || (raw != tx && tx.SendContents() != []))
  {
    hide PrefixStable, HeadLooksLike, Target, Contents;
    if raw == tx && tx.Active().len == 0 {
      EmptyShowsNothing(tx);
    }
  }

  lemma EmptyShowsNothing(tx: Ring)
    requires tx.SendValid() && tx.Active().len == 0
    ensures tx.SendContents() == []
  {
  }
}
