/**
The whole connection at one moment, as the next worker will find it: both
directions, the phase, and what the sockets have carried. Every step of
`handle_connection` is shown here to keep the account.
*/
module Account {
  import opened States
  import opened RingBuffer
  import opened AtomicIo
  import opened Transform
  import opened Direction

  // `HTTP_GOT_REQUEST` and `HTTP_GOT_RESPONSE`
  datatype Flags = Flags(request: bool, response: bool)

  // What never changes: the parsers, and everything the client and the server send.
  datatype Terms = Terms(requests: Protocol, responses: Protocol, wholeUp: Bytes, wholeDown: Bytes)

  // The rings and flags are those that are active once a pending swap has been
  // replayed.
  datatype View = View(tag: nat, downRx: Ring, downTx: Ring, upRx: Ring, upTx: Ring, got: Flags,
                       downUnread: Bytes, downSent: Bytes, upUnread: Bytes, upSent: Bytes,
                       downShut: bool, upShut: bool, responsePid: Bytes)

  ghost predicate UpHolds(t: Terms, v: View) {
    Flow(t.requests, [], t.wholeUp, v.downRx, v.upTx, v.got.request, v.downUnread, v.upSent)
  }

  ghost predicate DownHolds(t: Terms, v: View) {
    Flow(t.responses, v.responsePid, t.wholeDown, v.upRx, v.downTx, v.got.response, v.upUnread, v.downSent)
  }

  ghost predicate Calm(v: View) {
    RecvCalm(v.downRx) && SendCalm(v.upTx) && RecvCalm(v.upRx) && SendCalm(v.downTx)
  }

  ghost predicate AllQuiet(v: View) {
    v.downRx.Quiet() && v.downTx.Quiet() && v.upRx.Quiet() && v.upTx.Quiet()
  }

  // The rings of one endpoint.
  ghost predicate QuietAt(v: View, upstream: bool) {
    if upstream then v.upRx.Quiet() && v.upTx.Quiet() else v.downRx.Quiet() && v.downTx.Quiet()
  }

  // Serving this endpoint completes whatever call was interrupted on it.
  ghost predicate Heals(v: View, upstream: bool, output: bool, input: bool) {
    var rx, tx := if upstream then v.upRx else v.downRx, if upstream then v.upTx else v.downTx;
    && QuietAt(v, !upstream)
    && (tx.Quiet() || (output && tx.Active().len > 0)) && (rx.Quiet() || input)
  }

  ghost predicate Finished(tx: Range) {
    tx.shutdown && tx.len == 0
  }

  // After a commit that did not close the connection.
  ghost predicate BothSettled(t: Terms, v: View) {
    && Settled(t.requests, v.downRx, v.upTx, v.got.request) && Settled(t.responses, v.upRx, v.downTx, v.got.response)
    && !(Finished(v.upTx.Active()) && Finished(v.downTx.Active()))
  }

  // While a swap is pending, the send ranges it replaces were not shut down unless
  // the new ones are.
  ghost predicate Superseded(v: View) {
    && (v.upTx.Inactive().shutdown ==> v.upTx.Active().shutdown)
    && (v.downTx.Inactive().shutdown ==> v.downTx.Active().shutdown)
  }

  // Both outputs are complete and nothing is left anywhere.
  ghost predicate AllDelivered(t: Terms, v: View)
    requires PrefixStable(t.requests) && PrefixStable(t.responses)
  {
    && v.upSent == Target(t.requests, [], t.wholeUp) && v.downUnread == []
    && v.downSent == Target(t.responses, v.responsePid, t.wholeDown) && v.upUnread == []
    && v.downRx.Active().len == v.upTx.Active().len == v.upRx.Active().len == v.downTx.Active().len == 0
  }

  ghost predicate Holds(t: Terms, v: View) {
    && v.tag in {CONN_POLL, CONN_SWAP_BUFFERS, CONN_CLOSING, CONN_ERROR}
    && UpHolds(t, v) && DownHolds(t, v)
    && (v.upShut ==> v.got.request) && (v.downShut ==> v.got.response)
    && (v.tag == CONN_SWAP_BUFFERS ==> BothSettled(t, v) && Calm(v) && Superseded(v))
    && (v.tag == CONN_CLOSING ==> AllDelivered(t, v))
  }

  lemma HalfPrefix(p: Protocol, pid: Bytes, whole: Bytes, rx: Ring, tx: Ring, got: bool, unread: Bytes, sent: Bytes)
    requires Flow(p, pid, whole, rx, tx, got, unread, sent)
    ensures sent <= Target(p, pid, whole)
  {
    hide PrefixStable, Target, Contents;
    var rest := rx.RecvContents() + unread;
    assert sent + tx.SendContents() + rest == sent + (tx.SendContents() + rest);
  }

  // At every moment each side has got a prefix of its output.
  lemma DeliveredPrefix(t: Terms, v: View)
    requires Holds(t, v)
    ensures v.upSent <= Target(t.requests, [], t.wholeUp)
    ensures v.downSent <= Target(t.responses, v.responsePid, t.wholeDown)
  {
    hide Flow, Target;
    HalfPrefix(t.requests, [], t.wholeUp, v.downRx, v.upTx, v.got.request, v.downUnread, v.upSent);
    HalfPrefix(t.responses, v.responsePid, t.wholeDown, v.upRx, v.downTx, v.got.response, v.upUnread, v.downSent);
  }

  lemma TargetVerbatim(p: Protocol, pid: Bytes, whole: Bytes)
    requires PrefixStable(p) && forall s: Bytes :: !p.parse(s).Accepted?
    ensures Target(p, pid, whole) == whole
  {
    hide PrefixStable;
  }

  lemma NothingPending(tx: Ring)
    requires tx.SendValid() && tx.Quiet() && tx.Active().len == 0
    ensures tx.SendContents() == []
  {
  }

  lemma HalfVerbatim(p: Protocol, pid: Bytes, whole: Bytes, rx: Ring, tx: Ring, got: bool, unread: Bytes, sent: Bytes)
    requires Flow(p, pid, whole, rx, tx, got, unread, sent) && forall s: Bytes :: !p.parse(s).Accepted?
    ensures sent + tx.SendContents() + (rx.RecvContents() + unread) == whole
  {
    hide PrefixStable, Target, Contents;
    TargetVerbatim(p, pid, whole);
    if !got {
      NothingPending(tx);
    }
  }

  // Exactly once: when no head is rewritten, as with `NOP_TRANSFORM`, every byte
  // is at every moment in one place.
  lemma Verbatim(t: Terms, v: View)
    requires Holds(t, v) && forall s: Bytes :: !t.requests.parse(s).Accepted? && !t.responses.parse(s).Accepted?
    ensures v.upSent + v.upTx.SendContents() + (v.downRx.RecvContents() + v.downUnread) == t.wholeUp
    ensures v.downSent + v.downTx.SendContents() + (v.upRx.RecvContents() + v.upUnread) == t.wholeDown
  {
    hide Flow;
    HalfVerbatim(t.requests, [], t.wholeUp, v.downRx, v.upTx, v.got.request, v.downUnread, v.upSent);
    HalfVerbatim(t.responses, v.responsePid, t.wholeDown, v.upRx, v.downTx, v.got.response, v.upUnread, v.downSent);
  }

  // The ends of the outputs

  // Everything the server is to get has been delivered.
  ghost predicate UpComplete(t: Terms, v: View) {
    PrefixStable(t.requests) && v.got.request && v.upSent == Target(t.requests, [], t.wholeUp)
  }

  ghost predicate DownComplete(t: Terms, v: View) {
    PrefixStable(t.responses) && v.got.response && v.downSent == Target(t.responses, v.responsePid, t.wholeDown)
  }

  // An output is shut down and will never be complete.
  ghost predicate CutUp(t: Terms, v: View) {
    v.upShut && !UpComplete(t, v)
  }

  ghost predicate CutDown(t: Terms, v: View) {
    v.downShut && !DownComplete(t, v)
  }

  // An output is only shut down when it is complete.
  ghost predicate KeepsEnds(t: Terms, v: View, v': View) {
    && (v.upShut ==> v'.upShut) && (v.downShut ==> v'.downShut)
    && (CutUp(t, v') <==> CutUp(t, v)) && (CutDown(t, v') <==> CutDown(t, v))
  }

  lemma KnownTag(t: Terms, v: View)
    requires Holds(t, v)
    ensures v.tag in {CONN_POLL, CONN_SWAP_BUFFERS, CONN_CLOSING, CONN_ERROR}
  {
  }

  lemma ShutDecided(t: Terms, v: View)
    requires Holds(t, v)
    ensures (v.upShut ==> v.got.request) && (v.downShut ==> v.got.response)
  {
  }

  // Nothing of a complete direction is left.
  lemma NothingLeft(t: Terms, v: View)
    requires Holds(t, v)
    ensures UpComplete(t, v) ==> v.downUnread == [] && v.upTx.SendContents() == [] && v.downRx.RecvContents() == []
    ensures DownComplete(t, v) ==> v.upUnread == [] && v.downTx.SendContents() == [] && v.upRx.RecvContents() == []
  {
    hide PrefixStable, HeadLooksLike, Target, Contents;
    if UpComplete(t, v) {
      OnlySent(v.upSent, v.upTx.SendContents(), v.downRx.RecvContents(), v.downUnread);
    }
    if DownComplete(t, v) {
      OnlySent(v.downSent, v.downTx.SendContents(), v.upRx.RecvContents(), v.upUnread);
    }
  }

  lemma OnlySent(sent: Bytes, queued: Bytes, rest: Bytes, unread: Bytes)
    ensures sent + queued + (rest + unread) == sent <==> queued == [] && rest == [] && unread == []
  {
    assert |sent + queued + (rest + unread)| == |sent| + |queued| + |rest| + |unread|;
    if queued == [] && rest == [] && unread == [] {
      assert sent + queued + (rest + unread) == sent;
    }
  }

  // A new connection

  lemma NewHolds(t: Terms, v: View)
    requires PrefixStable(t.requests) && PrefixStable(t.responses) && v.tag == CONN_POLL
    requires Empty(v.downRx) && Empty(v.downTx) && Empty(v.upRx) && Empty(v.upTx)
    requires v.got.request ==> forall s: Bytes :: !t.requests.parse(s).Accepted?
    requires v.got.response ==> forall s: Bytes :: !t.responses.parse(s).Accepted?
    requires v.downUnread == t.wholeUp && v.upUnread == t.wholeDown && v.downSent == v.upSent == []
    requires HeadLooksLike(t.requests, t.wholeUp) && HeadLooksLike(t.responses, t.wholeDown)
    requires !v.upShut && !v.downShut
    ensures Holds(t, v) && AllQuiet(v)
  {
    hide PrefixStable, HeadLooksLike, Flow;
    EmptyFlow(t.requests, [], t.wholeUp, v.downRx, v.upTx, v.got.request);
    EmptyFlow(t.responses, v.responsePid, t.wholeDown, v.upRx, v.downTx, v.got.response);
  }

  // I/O while polling

  // What a phase of sends did to a ring and its socket.
  ghost predicate SentFrom(tx: Ring, sent: Bytes, tx': Ring, sent': Bytes) {
    && tx.SendValid()
    && SendKeeps(tx', sent', sent + tx.SendContents(), tx.SendRange().shutdown) && sent <= sent'
    && (tx.Active().len == 0 ==> tx' == tx && sent' == sent)
  }

  // What a phase of receives did.
  ghost predicate ReceivedInto(rx: Ring, unread: Bytes, rx': Ring, unread': Bytes) {
    && rx.RecvValid() && rx'.RecvValid()
    && rx'.RecvContents() + unread' == rx.RecvContents() + unread
    && (rx.RecvRange().start == 0 ==> rx'.RecvRange().start == 0)
    && (rx'.EofPending() ==> unread' == [])
    && (rx'.RecvRange().shutdown ==> unread' == [] && rx'.Quiet())
    && (rx.RecvRange().shutdown ==> rx' == rx && unread' == unread)
  }

  // What a phase of I/O relies on.
  ghost predicate IoReady(rx: Ring, tx: Ring, unread: Bytes) {
    && tx.SendValid() && ReceivedInto(rx, unread, rx, unread)
    && rx.RecvRange().shutdown == rx.Active().shutdown
  }

  lemma IoBegins(t: Terms, v: View)
    requires Holds(t, v)
    ensures IoReady(v.upRx, v.upTx, v.upUnread) && IoReady(v.downRx, v.downTx, v.downUnread)
  {
    hide PrefixStable, Target, Contents, Drained;
  }

  // What serving the upstream socket did to the connection.
  ghost predicate ServedUpstream(v: View, v': View) {
    && v' == v.(upTx := v'.upTx, upSent := v'.upSent, upRx := v'.upRx, upUnread := v'.upUnread)
    && SentFrom(v.upTx, v.upSent, v'.upTx, v'.upSent) && ReceivedInto(v.upRx, v.upUnread, v'.upRx, v'.upUnread)
    && (v.upShut ==> v'.upSent == v.upSent)
  }

  ghost predicate ServedDownstream(v: View, v': View) {
    && v' == v.(downTx := v'.downTx, downSent := v'.downSent, downRx := v'.downRx, downUnread := v'.downUnread)
    && SentFrom(v.downTx, v.downSent, v'.downTx, v'.downSent)
    && ReceivedInto(v.downRx, v.downUnread, v'.downRx, v'.downUnread)
    && (v.downShut ==> v'.downSent == v.downSent)
  }

  ghost predicate Served(v: View, upstream: bool, v': View) {
    if upstream then ServedUpstream(v, v') else ServedDownstream(v, v')
  }

  lemma OtherEndpointKept(v: View, upstream: bool, v': View)
    requires Served(v, upstream, v')
    ensures upstream ==> v'.downSent == v.downSent && v'.downUnread == v.downUnread
    ensures !upstream ==> v'.upSent == v.upSent && v'.upUnread == v.upUnread
  {
  }

  // A served endpoint is quiet, or nothing there had to be done.
  ghost predicate Completed(v: View, upstream: bool, output: bool, input: bool, v': View) {
    var tx, tx' := if upstream then v.upTx else v.downTx, if upstream then v'.upTx else v'.downTx;
    var rx, rx' := if upstream then v.upRx else v.downRx, if upstream then v'.upRx else v'.downRx;
    && (tx'.Quiet() || (tx' == tx && !(output && tx.Active().len > 0)))
    && (rx'.Quiet() || (rx' == rx && !input))
  }

  lemma ServedHeals(v: View, upstream: bool, output: bool, input: bool, v': View)
    requires Served(v, upstream, v')
    ensures QuietAt(v', !upstream) == QuietAt(v, !upstream)
    ensures Completed(v, upstream, output, input, v') && Heals(v, upstream, output, input) ==> AllQuiet(v') && Calm(v')
  {
    hide SentFrom, ReceivedInto;
  }

  lemma UpstreamIo(t: Terms, v: View, v': View)
    requires Holds(t, v) && v.tag == CONN_POLL && ServedUpstream(v, v')
    ensures Holds(t, v') && KeepsEnds(t, v, v')
  {
    hide PrefixStable, HeadLooksLike, Target, Contents;
    FlowAfterSend(t.requests, [], t.wholeUp, v.downRx, v.upTx, v.got.request, v.downUnread, v.upSent, v'.upTx, v'.upSent);
    FlowAfterReceive(t.responses, v.responsePid, t.wholeDown, v.upRx, v.downTx, v.got.response, v.upUnread, v.downSent,
                     v'.upRx, v'.upUnread);
  }

  lemma DownstreamIo(t: Terms, v: View, v': View)
    requires Holds(t, v) && v.tag == CONN_POLL && ServedDownstream(v, v')
    ensures Holds(t, v') && KeepsEnds(t, v, v')
  {
    hide PrefixStable, HeadLooksLike, Target, Contents;
    FlowAfterSend(t.responses, v.responsePid, t.wholeDown, v.upRx, v.downTx, v.got.response, v.upUnread, v.downSent,
                  v'.downTx, v'.downSent);
    FlowAfterReceive(t.requests, [], t.wholeUp, v.downRx, v.upTx, v.got.request, v.downUnread, v.upSent, v'.downRx, v'.downUnread);
  }

  // Everything queued has been sent and all there is room for received, unless the
  // kernel refused.
  ghost predicate Exhausted(t: Terms, v: View, upstream: bool, sends: bool, receives: bool, v': View)
    requires Holds(t, v)
  {
    var rx, tx := if upstream then v.upRx else v.downRx, if upstream then v.upTx else v.downTx;
    var unread, unread' := if upstream then v.upUnread else v.downUnread, if upstream then v'.upUnread else v'.downUnread;
    var sent, sent' := if upstream then v.upSent else v.downSent, if upstream then v'.upSent else v'.downSent;
    && (sends ==> sent' == sent + tx.SendContents())
    && (receives && unread' != [] ==> |unread| - |unread'| == N - |rx.RecvContents()|)
  }

  lemma ServedExhausts(t: Terms, v: View, upstream: bool, sends: bool, receives: bool, v': View)
    requires Holds(t, v) && Holds(t, v') && Served(v, upstream, v')
    requires sends ==> (if upstream then v'.upTx else v'.downTx).Active().len == 0
    requires receives ==> var rx' := if upstream then v'.upRx else v'.downRx;
               rx'.Quiet() && (rx'.Active().len == N || rx'.Active().shutdown)
    ensures Exhausted(t, v, upstream, sends, receives, v')
  {
    hide PrefixStable, Target, Drained;
  }

  // The transformation

  // What a killed transformation did to the rings of one direction.
  ghost predicate Scribbled(rx: Ring, tx: Ring, rx': Ring, tx': Ring) {
    && (exists torn :: rx' == rx.WithInactive(torn))
    && (exists torn :: tx' == tx.WithInactive(torn).(buf := tx'.buf))
    && |tx'.buf| == |tx.buf| == N && Legal(tx.Active()) && SameUsed(tx'.buf, tx.buf, tx.Active())
  }

  // Killed before the commit: nothing has happened.
  lemma KilledTransform(t: Terms, v: View, downRx: Ring, upTx: Ring, upRx: Ring, downTx: Ring)
    requires Holds(t, v) && v.tag == CONN_POLL && Calm(v)
    requires Scribbled(v.downRx, v.upTx, downRx, upTx) && Scribbled(v.upRx, v.downTx, upRx, downTx)
    ensures Holds(t, v.(downRx := downRx, upTx := upTx, upRx := upRx, downTx := downTx))
  {
    hide Flow, Drained, RecvCalm, SendCalm;
    FlowAfterScribble(t.requests, [], t.wholeUp, v.downRx, v.upTx, v.got.request, v.downUnread, v.upSent, downRx, upTx);
    FlowAfterScribble(t.responses, v.responsePid, t.wholeDown, v.upRx, v.downTx, v.got.response, v.upUnread, v.downSent,
                      upRx, downTx);
  }

  // What the transformation has put into the inactive copies.
  datatype Draft = Draft(downRx: Range, upTx: Range, upRx: Range, downTx: Range,
                         upTxBuf: Bytes, downTxBuf: Bytes, got: Flags)

  ghost predicate DraftOf(t: Terms, v: View, pid: Bytes, d: Draft)
    requires Holds(t, v)
  {
    && Transformed(t.requests, [], v.downRx, v.upTx, v.got.request, d.downRx, d.upTx, d.upTxBuf, d.got.request)
    && Transformed(t.responses, ResponsePid(v, pid), v.upRx, v.downTx, v.got.response,
                   d.upRx, d.downTx, d.downTxBuf, d.got.response)
  }

  function ResponsePid(v: View, pid: Bytes): Bytes {
    if v.got.response then v.responsePid else pid
  }

  // A transformation that was killed before its commit has done nothing.
  ghost predicate NothingDone(v: View, v': View) {
    && v' == v.(downRx := v'.downRx, upTx := v'.upTx, upRx := v'.upRx, downTx := v'.downTx)
    && Scribbled(v.downRx, v.upTx, v'.downRx, v'.upTx) && Scribbled(v.upRx, v.downTx, v'.upRx, v'.downTx)
  }

  // After its commit it has done everything.
  ghost predicate AllDone(t: Terms, v: View, pid: Bytes, v': View)
    requires Holds(t, v)
  {
    exists d: Draft :: DraftOf(t, v, pid, d)
      && v' == Committed(v, pid, d).(tag := v'.tag, downShut := v'.downShut, upShut := v'.upShut)
  }

  // Both directions turned out to be finished.
  ghost predicate Closed(t: Terms, v: View, pid: Bytes, v': View)
    requires Holds(t, v)
  {
    exists d: Draft :: DraftOf(t, v, pid, d) && Finished(d.upTx) && Finished(d.downTx)
      && v' == Sketched(v, d).(tag := CONN_CLOSING, responsePid := ResponsePid(v, pid))
  }

  // A transformation has run to its end, and so has what came of it.
  ghost predicate Ran(t: Terms, v: View, pid: Bytes, v': View)
    requires Holds(t, v)
  {
    Closed(t, v, pid, v') || AllDone(t, v, pid, v')
  }

  // `swap_buffers` shuts down nothing but a complete output.
  ghost predicate ShutsComplete(t: Terms, v: View, v': View) {
    && (v.upShut ==> v'.upShut) && (v'.upShut && !v.upShut ==> UpComplete(t, v'))
    && (v.downShut ==> v'.downShut) && (v'.downShut && !v.downShut ==> DownComplete(t, v'))
  }

  // The only things a transformation may have done, wherever it was killed.
  ghost predicate AllOrNothing(t: Terms, v: View, pid: Bytes, v': View)
    requires Holds(t, v)
  {
    if v'.tag == CONN_CLOSING then Closed(t, v, pid, v')
    else if v'.tag == CONN_POLL && NothingDone(v, v') then true
    else
      && v'.tag in {CONN_POLL, CONN_SWAP_BUFFERS} && AllDone(t, v, pid, v') && ShutsComplete(t, v, v')
      && (v'.tag == CONN_POLL ==> BothSettled(t, v') && Calm(v'))
  }

  lemma ScribbledQuiet(rx: Ring, tx: Ring, rx': Ring, tx': Ring)
    requires Scribbled(rx, tx, rx', tx')
    ensures rx'.Quiet() == rx.Quiet() && tx'.Quiet() == tx.Quiet()
  {
  }

  lemma DraftQuiet(v: View, pid: Bytes, d: Draft, upstream: bool)
    ensures QuietAt(Sketched(v, d), upstream) == QuietAt(Committed(v, pid, d), upstream) == QuietAt(v, upstream)
  {
  }

  lemma TransformKeepsSockets(t: Terms, v: View, pid: Bytes, v': View)
    requires Holds(t, v) && AllOrNothing(t, v, pid, v')
    ensures v'.upSent == v.upSent && v'.upUnread == v.upUnread && v'.downSent == v.downSent && v'.downUnread == v.downUnread
  {
    hide Holds, DraftOf, BothSettled, Calm, Scribbled;
  }

  lemma TransformKeepsQuiet(t: Terms, v: View, pid: Bytes, v': View, upstream: bool)
    requires Holds(t, v) && AllOrNothing(t, v, pid, v')
    ensures QuietAt(v', upstream) == QuietAt(v, upstream)
  {
    hide Holds, DraftOf, BothSettled, Calm, Scribbled, Sketched, Committed;
    if v'.tag == CONN_POLL && NothingDone(v, v') {
      ScribbledQuiet(v.downRx, v.upTx, v'.downRx, v'.upTx);
      ScribbledQuiet(v.upRx, v.downTx, v'.upRx, v'.downTx);
    } else if v'.tag == CONN_CLOSING {
      var d: Draft :| v' == Sketched(v, d).(tag := CONN_CLOSING, responsePid := ResponsePid(v, pid));
      DraftQuiet(v, pid, d, upstream);
    } else {
      var d: Draft :| v' == Committed(v, pid, d).(tag := v'.tag, downShut := v'.downShut, upShut := v'.upShut);
      DraftQuiet(v, pid, d, upstream);
    }
  }

  // The process that answers for a rewritten response is the one that committed it.
  lemma TransformPid(t: Terms, v: View, pid: Bytes, v': View)
    requires Holds(t, v) && AllOrNothing(t, v, pid, v')
    ensures v'.responsePid == v.responsePid || (v'.responsePid == pid && !v.got.response)
  {
    hide Holds, DraftOf, BothSettled, Calm, Scribbled;
  }

  lemma TransformKeepsEnds(t: Terms, v: View, pid: Bytes, v': View)
    requires Holds(t, v) && AllOrNothing(t, v, pid, v')
    ensures KeepsEnds(t, v, v')
  {
    hide Holds, DraftOf, BothSettled, Calm, Scribbled, Target;
    ShutDecided(t, v);
    if v'.tag != CONN_CLOSING && !(v'.tag == CONN_POLL && NothingDone(v, v')) {
      var d: Draft :| DraftOf(t, v, pid, d)
        && v' == Committed(v, pid, d).(tag := v'.tag, downShut := v'.downShut, upShut := v'.upShut);
      CommitSupersedes(t, v, pid, d);
    }
  }

  lemma NothingWasDone(t: Terms, v: View, pid: Bytes, v': View)
    requires Holds(t, v) && v.tag == CONN_POLL && NothingDone(v, v')
    ensures AllOrNothing(t, v, pid, v')
  {
    hide Holds, Scribbled;
  }

  lemma AllFinished(t: Terms, v: View, pid: Bytes, d: Draft)
    requires Holds(t, v) && DraftOf(t, v, pid, d) && Finished(d.upTx) && Finished(d.downTx)
    ensures var v' := Sketched(v, d).(tag := CONN_CLOSING, responsePid := ResponsePid(v, pid));
            AllOrNothing(t, v, pid, v') && Ran(t, v, pid, v')
  {
    hide Holds, DraftOf;
  }

  // A commit, and as much of its replay as there was time for.
  lemma AllWasDone(t: Terms, v: View, pid: Bytes, d: Draft, v': View)
    requires Holds(t, v) && v.tag == CONN_POLL && Calm(v) && DraftOf(t, v, pid, d) && Holds(t, Committed(v, pid, d))
    requires v'.tag in {CONN_POLL, CONN_SWAP_BUFFERS}
    requires v' == Committed(v, pid, d).(tag := v'.tag, downShut := v'.downShut, upShut := v'.upShut)
    requires ShutsComplete(t, Committed(v, pid, d), v')
    ensures AllOrNothing(t, v, pid, v') && Ran(t, v, pid, v')
    ensures BothSettled(t, v') && Calm(v')
  {
    hide UpHolds, DownHolds, DraftOf, Settled, RecvCalm, SendCalm, UpComplete, DownComplete;
  }

  // The view while the drafts exist and are not selected.
  function Sketched(v: View, d: Draft): View {
    v.(downRx := v.downRx.WithInactive(d.downRx), upTx := v.upTx.WithInactive(d.upTx).(buf := d.upTxBuf),
       upRx := v.upRx.WithInactive(d.upRx), downTx := v.downTx.WithInactive(d.downTx).(buf := d.downTxBuf))
  }

  // The view once the store of `CONN_SWAP_BUFFERS` has selected the drafts.
  function Committed(v: View, pid: Bytes, d: Draft): View {
    v.(tag := CONN_SWAP_BUFFERS,
       downRx := Commit(v.downRx, d.downRx, v.downRx.buf), upTx := Commit(v.upTx, d.upTx, d.upTxBuf),
       upRx := Commit(v.upRx, d.upRx, v.upRx.buf), downTx := Commit(v.downTx, d.downTx, d.downTxBuf),
       got := d.got, responsePid := ResponsePid(v, pid))
  }

  lemma CommitUpHolds(t: Terms, v: View, pid: Bytes, d: Draft)
    requires Holds(t, v) && Calm(v) && DraftOf(t, v, pid, d)
    ensures var c := Committed(v, pid, d);
            && UpHolds(t, c) && Settled(t.requests, c.downRx, c.upTx, c.got.request) && RecvCalm(c.downRx) && SendCalm(c.upTx)
  {
    hide Flow, Transformed, Settled, RecvCalm, SendCalm, DownHolds, ResponsePid;
    FlowAfterTransform(t.requests, [], [], t.wholeUp, v.downRx, v.upTx, v.got.request, v.downUnread, v.upSent,
                       d.downRx, d.upTx, d.upTxBuf, d.got.request);
  }

  lemma CommitDownHolds(t: Terms, v: View, pid: Bytes, d: Draft)
    requires Holds(t, v) && Calm(v) && DraftOf(t, v, pid, d)
    ensures var c := Committed(v, pid, d);
            && DownHolds(t, c) && Settled(t.responses, c.upRx, c.downTx, c.got.response) && RecvCalm(c.upRx) && SendCalm(c.downTx)
  {
    hide Flow, Transformed, Settled, RecvCalm, SendCalm, UpHolds;
    FlowAfterTransform(t.responses, v.responsePid, pid, t.wholeDown, v.upRx, v.downTx, v.got.response, v.upUnread, v.downSent,
                       d.upRx, d.downTx, d.downTxBuf, d.got.response);
  }

  // The single store that commits both directions.
  lemma CommitHolds(t: Terms, v: View, pid: Bytes, d: Draft)
    requires Holds(t, v) && v.tag == CONN_POLL && Calm(v) && DraftOf(t, v, pid, d)
    requires !(Finished(d.upTx) && Finished(d.downTx))
    ensures Holds(t, Committed(v, pid, d))
  {
    hide UpHolds, DownHolds, DraftOf, Settled, RecvCalm, SendCalm, Committed, Superseded;
    CommittedTx(v, pid, d);
    CommitSupersedes(t, v, pid, d);
    CommitUpHolds(t, v, pid, d);
    CommitDownHolds(t, v, pid, d);
  }

  lemma CommittedTx(v: View, pid: Bytes, d: Draft)
    ensures var c := Committed(v, pid, d);
            && c.tag == CONN_SWAP_BUFFERS && c.upTx.Active() == d.upTx && c.downTx.Active() == d.downTx
            && c.got == d.got && c.upShut == v.upShut && c.downShut == v.downShut
  {
  }

  lemma CommitSupersedes(t: Terms, v: View, pid: Bytes, d: Draft)
    requires Holds(t, v) && DraftOf(t, v, pid, d)
    ensures Superseded(Committed(v, pid, d))
    ensures v.got.request ==> d.got.request
    ensures v.got.response ==> d.got.response
  {
    hide PrefixStable, HeadLooksLike, Target, Contents, TrimmedFrom, SameUsed;
  }

  lemma SketchIsScribble(p: Protocol, pid: Bytes, rx: Ring, tx: Ring, got: bool, in': Range, out': Range, buf': Bytes, got': bool)
    requires PrefixStable(p) && rx.RecvValid() && tx.SendValid()
    requires Transformed(p, pid, rx, tx, got, in', out', buf', got')
    ensures Scribbled(rx, tx, rx.WithInactive(in'), tx.WithInactive(out').(buf := buf'))
  {
    hide PrefixStable, Contents, Staged, TrimmedFrom;
  }

  lemma FinishedDelivered(t: Terms, v: View, pid: Bytes, d: Draft)
    requires Holds(t, v) && Calm(v) && DraftOf(t, v, pid, d) && Finished(d.upTx) && Finished(d.downTx)
    ensures PrefixStable(t.requests) && PrefixStable(t.responses)
    ensures AllDelivered(t, v.(responsePid := ResponsePid(v, pid)))
  {
    hide Flow, Transformed, RecvCalm, SendCalm, Target, PrefixStable;
    CalmValid(t, v);
    FinishedWasDrained(t.requests, [], [], t.wholeUp, v.downRx, v.upTx, v.got.request, v.downUnread, v.upSent,
                       d.downRx, d.upTx, d.upTxBuf, d.got.request);
    FinishedWasDrained(t.responses, v.responsePid, pid, t.wholeDown, v.upRx, v.downTx, v.got.response, v.upUnread, v.downSent,
                       d.upRx, d.downTx, d.downTxBuf, d.got.response);
  }

  // The drafts are a scribble: nothing refers to them.
  lemma SketchHolds(t: Terms, v: View, pid: Bytes, d: Draft)
    requires Holds(t, v) && v.tag == CONN_POLL && Calm(v) && DraftOf(t, v, pid, d)
    ensures Holds(t, Sketched(v, d))
  {
    hide Flow, Transformed, RecvCalm, SendCalm, Target, PrefixStable, Scribbled;
    CalmValid(t, v);
    SketchIsScribble(t.requests, [], v.downRx, v.upTx, v.got.request, d.downRx, d.upTx, d.upTxBuf, d.got.request);
    SketchIsScribble(t.responses, ResponsePid(v, pid), v.upRx, v.downTx, v.got.response,
                     d.upRx, d.downTx, d.downTxBuf, d.got.response);
    var s := Sketched(v, d);
    KilledTransform(t, v, s.downRx, s.upTx, s.upRx, s.downTx);
  }

  // The store of `CONN_CLOSING`: both drafts are finished, so everything has
  // been delivered.
  lemma CloseHolds(t: Terms, v: View, pid: Bytes, d: Draft)
    requires Holds(t, v) && v.tag == CONN_POLL && Calm(v) && DraftOf(t, v, pid, d)
    requires Finished(d.upTx) && Finished(d.downTx)
    ensures Holds(t, Sketched(v, d).(tag := CONN_CLOSING, responsePid := ResponsePid(v, pid)))
  {
    hide Flow, Transformed, Drained, RecvCalm, SendCalm, Target, PrefixStable;
    SketchHolds(t, v, pid, d);
    FinishedDelivered(t, v, pid, d);
    var s := Sketched(v, d);
    PidOnlyAfterDecision(t.responses, v.responsePid, ResponsePid(v, pid), t.wholeDown, s.upRx, s.downTx, v.got.response,
                         v.upUnread, v.downSent);
  }

  lemma CalmValid(t: Terms, v: View)
    requires Holds(t, v)
    ensures PrefixStable(t.requests) && v.downRx.RecvValid() && v.upTx.SendValid()
    ensures PrefixStable(t.responses) && v.upRx.RecvValid() && v.downTx.SendValid()
  {
  }

  lemma PidOnlyAfterDecision(p: Protocol, pid: Bytes, pid': Bytes, whole: Bytes, rx: Ring, tx: Ring, got: bool,
                             unread: Bytes, sent: Bytes)
    requires Flow(p, pid, whole, rx, tx, got, unread, sent) && (got ==> pid == pid')
    ensures Flow(p, pid', whole, rx, tx, got, unread, sent)
  {
  }

  // `swap_buffers`

  // An output that a swap finds finished is complete: shutting it down is right.
  lemma FinishedUpComplete(t: Terms, v: View)
    requires Holds(t, v) && v.tag == CONN_SWAP_BUFFERS && Finished(v.upTx.Active())
    ensures UpComplete(t, v)
  {
    hide Target, PrefixStable, HeadLooksLike, Contents;
    SettledDrained(t.requests, [], t.wholeUp, v.downRx, v.upTx, v.got.request, v.downUnread, v.upSent);
    DrainedDelivered(t.requests, [], t.wholeUp, v.downRx, v.upTx, v.got.request, v.downUnread, v.upSent);
  }

  lemma FinishedDownComplete(t: Terms, v: View)
    requires Holds(t, v) && v.tag == CONN_SWAP_BUFFERS && Finished(v.downTx.Active())
    ensures DownComplete(t, v)
  {
    hide Target, PrefixStable, HeadLooksLike, Contents;
    SettledDrained(t.responses, v.responsePid, t.wholeDown, v.upRx, v.downTx, v.got.response, v.upUnread, v.downSent);
    DrainedDelivered(t.responses, v.responsePid, t.wholeDown, v.upRx, v.downTx, v.got.response, v.upUnread, v.downSent);
  }

  lemma SwappedHolds(t: Terms, v: View)
    requires Holds(t, v) && v.tag == CONN_SWAP_BUFFERS
    ensures Holds(t, v.(tag := CONN_POLL))
  {
    hide Flow;
  }

  lemma FailedHolds(t: Terms, v: View)
    requires Holds(t, v) && v.tag == CONN_POLL
    ensures Holds(t, v.(tag := CONN_ERROR))
  {
    hide Flow;
  }

  // Adoption

  // The ring with the other range active.
  function Toggled(r: Ring): Ring {
    r.(active := !r.active)
  }

  // What adoption looks at: the ranges that are active while a pending swap has not,
  // or not completely, been replayed.
  ghost predicate RawOf(v: View, raw: View) {
    && raw == v.(downRx := raw.downRx, downTx := raw.downTx, upRx := raw.upRx, upTx := raw.upTx, got := raw.got)
    && (v.tag != CONN_SWAP_BUFFERS ==> raw == v)
    && raw.downRx in {v.downRx, Toggled(v.downRx)} && raw.downTx in {v.downTx, Toggled(v.downTx)}
    && raw.upRx in {v.upRx, Toggled(v.upRx)} && raw.upTx in {v.upTx, Toggled(v.upTx)}
  }

  // The endpoints are dealt with one after the other, and either may fail.
  ghost function Adopted(v: View, raw: View, up: bool, down: bool): View {
    v.(upShut := v.upShut || (up && Finished(raw.upTx.Active())),
       downShut := v.downShut || (down && Finished(raw.downTx.Active())))
  }

  // The account does not depend on what is shut down.
  lemma ShutHolds(t: Terms, v: View, upShut: bool, downShut: bool)
    requires Holds(t, v) && (upShut ==> v.got.request) && (downShut ==> v.got.response)
    ensures Holds(t, v.(upShut := upShut, downShut := downShut))
  {
    hide Flow, Settled, RecvCalm, SendCalm;
  }

  lemma SwappedRests(t: Terms, v: View, v': View)
    requires Holds(t, v) && v.tag == CONN_SWAP_BUFFERS
    requires v' == v.(tag := v'.tag, downShut := v'.downShut, upShut := v'.upShut)
    ensures BothSettled(t, v') && Calm(v')
    ensures forall upstream :: QuietAt(v', upstream) == QuietAt(v, upstream)
  {
    hide UpHolds, DownHolds, Settled, RecvCalm, SendCalm;
  }

  // Epoll interest

  // `EPOLLOUT`, and `EPOLLIN | EPOLLRDHUP`
  datatype Interest = Interest(output: bool, input: bool)

  ghost function InterestFor(rx: Ring, tx: Ring): Interest {
    Interest(tx.Active().len > 0, rx.Active().len < N && !rx.Active().shutdown)
  }

  // A settled connection waits for something, and for `EPOLLOUT` wherever
  // forwarding is held up.
  lemma NoStall(t: Terms, v: View)
    requires Holds(t, v) && BothSettled(t, v) && Calm(v)
    ensures InterestFor(v.downRx, v.downTx) != Interest(false, false) || InterestFor(v.upRx, v.upTx) != Interest(false, false)
    ensures v.got.request && v.downRx.Active().len > 0 ==> InterestFor(v.upRx, v.upTx).output
    ensures v.got.response && v.upRx.Active().len > 0 ==> InterestFor(v.downRx, v.downTx).output
    ensures !v.got.request ==> AwaitsHead(t.requests, v.downRx) && InterestFor(v.downRx, v.downTx).input
    ensures !v.got.response ==> AwaitsHead(t.responses, v.upRx) && InterestFor(v.upRx, v.upTx).input
  {
  }
}
