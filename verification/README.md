# Model of the crash-tolerant proxy

A listener accepts TCP connections and hands them to worker processes; a worker
forwards bytes between a client (downstream) and a server (upstream) through four
ring buffers in shared memory and rewrites one HTTP head in each direction. A
worker may be killed between any two stores. The next worker continues from the
shared memory, which has to account for every byte exactly once all the same.

The main results:

* `Connection.Connection.Run`: any sequence of events on either socket, each call
  of `handle_connection` killed after any number of stores and the connection
  adopted by a new worker. Throughout, delivered bytes, send ring, receive ring and
  unread bytes together are the one output which the whole input determines
  (`Direction.Flow`); a head that is not complete has not let a byte through;
  `CONN_CLOSING` is reached only when both outputs are delivered and nothing is left
  anywhere. Without an interruption an output is shut down only when it is complete;
  with interruptions only an adoption can cut one off, and `Adopt` says exactly when.
* `AtomicIo.AtomicRing.AtomicSend` and `AtomicRecv`: the I/O transactions, store by
  store, with torn struct assignments, under any number of crashes.
* `Transform.StagedIsTarget`: the output does not depend on how the input was split.
* `CopySafety.RecvCopyExact` and `SendCopyExact`: exactly when copying the ranges of
  a ring loses nothing.
* `Slots.System.Run`: the protocol that hands a slot between the listener and the
  workers, for every interleaving of single steps.
* `Recovery.Restart`, `Argv.ArgumentVector.AppendAll`, `Ipc.Exchange`,
  `Util.PwritevAll`, `Util.JsonStrlcpy`: what the listener needs to survive an exec.

## Files

| file | content |
|---|---|
| RingBuffer.dfy | ranges, iovecs and byte copying in a ring of any size `N > 0` (`RING_BUFFER_SIZE`) |
| AtomicIo.dfy | `atomic_send`, `atomic_recv`, and the kernel as two byte queues |
| Http.dfy, Transform.dfy | header rewriting, serialization, the decision about a head, `transform` for one direction |
| Direction.dfy | the account of one direction and what every step does to it |
| CopySafety.dfy | when `copy_active_ranges` may run |
| Account.dfy | the whole connection: both directions, phase, sockets |
| Connection.dfy | `handle_connection`, `swap_buffers`, adoption, runs |
| Adoption.dfy | what adoption makes of the connection: outputs cut off, work without an event |
| Slots.dfy, States.dfy | the slot protocol between listener and workers |
| Recovery.dfy | cleanup and recovery of descriptors in a new listener |
| Argv.dfy, Util.dfy, Ipc.dfy, Text.dfy, Wrappers.dfy | packed argument vector, `pwritev_all`, JSON strings, IPC datagrams, C strings |

## How crashes are modelled

Methods that store to shared memory take the number of stores (`fuel`) until the
process dies. Locals are lost; the fields of the classes stay. A system call and
the overwrite of the sentinel in `msg_len` are one step. An assignment of a whole
range may be torn, which leaves any value in the inactive range. Inside
`transform`, whose single stores are not counted, a crash leaves any inactive
ranges, any inactive flags and any bytes in the free part of a send ring; that it
can write nothing else is the contract of `Transform.TransformDirection`.

`Connection.Look` sees a connection as the next worker will have it once a pending
swap is replayed. Therefore the single store of `CONN_SWAP_BUFFERS` changes four
rings and the flags at once, and the five stores of `swap_buffers` change nothing.

The size of a ring is a constant without a value, so everything holds for every size.

## What the code does not do

Each of these is the code as it is, with the condition under which it is right.

* **`copy_active_ranges` does not ask whether a ring is waiting for an interrupted
  call to be finished** (worker/main.c:347). After a crash an event on the other
  endpoint can run it then. `CopySafety` has the exact conditions per ring, and
  `LostByte`, `LostByteDelivered` and `LostQueued` show what is lost otherwise, from
  fresh rings through the stores of the two calls. `Connection.HandlePoll` ends a run
  there with the outcome `Unsafe`; it cannot happen in a run without a crash, nor
  when the first event after a crash serves the endpoint that was interrupted
  (`Account.Heals`). That does not help a send ring that was drained and only waits
  for its last store: `atomic_send` returns before it looks at the state
  (worker/atomic_send_recv.c:172-174). The condition used (`Account.Calm`) is for all
  amounts at once, less one exotic case of each ring kind in the swap phase;
  `RecvKeptExact` and `SendKeptExact` are exact for each amount.
* **Adoption shuts down an output whose send range is finished without looking any
  further** (worker/main.c:138-145 from 814). It looks at the ranges that are active
  at that moment, which a pending swap is about to replace. The output is then
  incomplete if and only if the receive or the send ring that the swap selects, or
  the only ones there are, hold bytes (`Adoption.CutShort`, and `Adopt` from every
  state and for both sockets). `CutShortReached` and `CutShortBySwap` lead there.
* **Adoption neither replays a pending swap, nor finishes an interrupted call, nor
  runs the transformation that is due** (worker/main.c:802-817). It registers what the
  active ranges suggest. After a crash between a receive and the transformation, or
  between the commit and its replay, bytes wait in a ring while the new worker waits
  for input that the client need not send before it has got an answer
  (`Adoption.LeftReached`, `LeftBySwap`). `Adoption.LeftExact`, and `Adopt` from every
  state, say exactly when work is left without an event that is bound to come: bytes
  to send, more input, or an end seen before. At worst there is no epoll interest at
  all (`StalledExact`, `StallReached`, `StallBySwap`). Neither happens after a call
  that was not interrupted (`Connection.Waits`), and the next call of
  `handle_connection`, whatever event brings it, ends it.
* **Header names are compared by the length of the header** (worker/transform.c:134,
  161). A header whose name is a proper prefix of a target, or empty, is taken for
  it (`Http.ReplaceOnce` is exact, `ReplacePrefixName` an example). The comment on
  `replace_header` says that the new header is appended; the code replaces the first
  match in place and appends only if there is none.
* **Requests that do not look like one are given up only when they arrive in parts**
  (`Transform.GivenUpExact`): with a parser that accepts, say, a method in lower
  case the output depends on the splitting. The theorem on splitting assumes of the
  input that its head, if it begins with one, looks like one.
* The test in worker/main.c:254 compares the state with its own mask and is never
  true; a pending swap is replayed by the switch. The call that replays it does no
  I/O, unlike the comment on `handle_connection` says.
* An interrupted `sendmmsg` (EINTR) fails the assert in worker/main.c:284, and
  EPOLLHUP or EPOLLERR with a full receive ring that has not ended the one in line
  308, unless the sends before it fail. `Connection.HandleConnection` has the outcome
  `Aborted` exactly then (`Connection.FailsAssert`).

## Assumptions

* The parser (picohttpparser) is a parameter: it does not change its verdict when
  more bytes follow and consumes at most what it is given (`Transform.Consistent`).
  Its tokens contain no NUL byte and no line break. Of the input it is assumed that a head at its
  beginning looks like one (`Transform.HeadLooksLike`). The account
  of bytes holds for any rewriting of heads; `Transform.RewritesHttp` says that it is
  the one of `transform`, and `Transform.HttpRewrites` that this one is admissible.
* A receive returns 0 or EPIPE only at the end of the peer's stream. A send refuses
  or takes at least one byte.
* Allocation, epoll_ctl and close do not fail in ways the source treats as errors,
  except where a result is modelled as failing.
* The assumptions can be met: `Transform.NoHeads` is a parser, and with it
  `Account.NewHolds` a connection.
* Memory is sequentially consistent, there is one acceptor and one listener.
* `fd_info`, logging and the addresses of sockets are not modelled.

## Model

| member | source | states |
|---|---|---|
| `RingBuffer.SetIovecUsed` | worker/atomic_send_recv.c:12-40 | the one or two iovecs visit exactly the used cells, in ring order from `start` |
| `RingBuffer.SetIovecUnused` | worker/atomic_send_recv.c:47-87 | the iovecs visit exactly the free cells, in ring order from behind the last used byte, also for empty, full and wrapped ranges |
| `RingBuffer.IovecsTile` | worker/atomic_send_recv.c:12-87 | used and unused iovecs together visit each of the `N` cells exactly once |
| `RingBuffer.RingBufferAppend` | worker/atomic_send_recv.c:89-107 | stores min(size, N - len) bytes; the contents become old contents ++ that prefix, and no used byte is overwritten |
| `RingBuffer.LtrimDrops` | worker/atomic_send_recv.c:109-117 | trimming `size` bytes drops that prefix of the contents, everything if `size >= len` |
| `RingBuffer.RingBufferMove` | worker/atomic_send_recv.c:119-152 | the two-cursor loop ends, moves min(free, used) bytes, dst contents ++ moved prefix, src contents minus it, used bytes of dst untouched |
| `RingBuffer.GatherUsed` | worker/atomic_send_recv.c:157-163 | what the kernel reads through the used iovecs is the contents |
| `RingBuffer.LinearizeRingBuffer` | worker/transform.c:202-216 | the linear view is the contents, wrapped or not |
| `RingBuffer.OverlayAppends` | worker/atomic_send_recv.c:89-107 | writing data in ring order behind the used part appends it and keeps what was there |
| `AtomicIo.SendArm` | worker/atomic_send_recv.c:179-194 | arming a send keeps kernel-accepted ++ still-to-send bytes, after each of its two stores |
| `AtomicIo.SendAccepted` | worker/atomic_send_recv.c:203 | the system call and its overwrite of the sentinel, as one step, move bytes from the abstract contents to the kernel |
| `AtomicIo.SendRerun` | worker/atomic_send_recv.c:216-218 | restoring `active` from bit 7 of the state, as every rerun begins, keeps the account wherever the earlier run stopped |
| `AtomicIo.SendTorn` | worker/atomic_send_recv.c:219-220 | any torn value of the inactive range keeps the account while the state is ATOMIC_SWAP |
| `AtomicIo.SendSwap` | worker/atomic_send_recv.c:222-227 | toggling `active`, and then storing ATOMIC_INIT, each keep the account |
| `AtomicIo.RecvArm` | worker/atomic_send_recv.c:256-273 | arming a receive keeps received ++ unread bytes, after each of its two stores |
| `AtomicIo.RecvRewind` | worker/atomic_send_recv.c:279 | resetting `start` of an empty active range before the call keeps the account |
| `AtomicIo.RecvArrived` | worker/atomic_send_recv.c:282 | the system call moves bytes from the kernel to the abstract contents, pending until the range shows them |
| `AtomicIo.RecvNothing` | worker/atomic_send_recv.c:292-295 | a zero-length receive means the stream is at its end; storing ATOMIC_INIT keeps the account |
| `AtomicIo.RecvRerun` | worker/atomic_send_recv.c:303-305 | restoring `active` from the stored bit keeps the account wherever the earlier run stopped |
| `AtomicIo.RecvTorn` | worker/atomic_send_recv.c:306-310 | any torn value of the inactive range keeps the account while the state is ATOMIC_SWAP |
| `AtomicIo.RecvSwap` | worker/atomic_send_recv.c:312-317 | toggling `active`, and then storing ATOMIC_INIT, each keep the account |
| `AtomicIo.AtomicRing.AtomicSend` | worker/atomic_send_recv.c:171-230 | killed after any number of stores or not: kernel-accepted ++ abstract contents and the shutdown flag are unchanged; a finished call leaves the ring quiet, except that an empty active range returns 0 and changes nothing; the count it reports is what it or the interrupted call sent; a negative result means the kernel refused |
| `AtomicIo.AtomicRing.AtomicRecv` | worker/atomic_send_recv.c:250-320 | killed after any number of stores or not: abstract contents ++ unread bytes and the shutdown flag are unchanged and a range starting at 0 still does; a finished call always leaves the ring quiet; 0 or EPIPE only at the end of the stream, EOVERFLOW only when full |
| `AtomicIo.AtomicRing.FinishSend` | worker/atomic_send_recv.c:216-228 | the replay of ATOMIC_SWAP keeps the account from any interrupted replay and ends in ATOMIC_INIT |
| `AtomicIo.AtomicRing.FinishRecv` | worker/atomic_send_recv.c:303-318 | the replay of ATOMIC_SWAP keeps the account from any interrupted replay and ends in ATOMIC_INIT |
| `AtomicIo.AtomicRing.Sendmmsg` | worker/atomic_send_recv.c:197-207 | one message: either refused with no effect, or a non-empty prefix of the contents is taken and its length stored |
| `AtomicIo.AtomicRing.Recvmmsg` | worker/atomic_send_recv.c:276-291 | one message: either refused with no effect, or a prefix of the stream is written into free cells only and its length stored |
| `AtomicIo.SendRun` | worker/atomic_send_recv.c:171-230 | any sequence of interrupted and finished sends: accepted ++ contents unchanged |
| `AtomicIo.ReceiveRun` | worker/atomic_send_recv.c:250-320 | any sequence of interrupted and finished receives: contents ++ unread unchanged, nothing lost or duplicated |
| `Http.MatchesPrefix` | worker/transform.c:134-136 | comparing by the length of the header’s own name accepts exactly the prefixes of the target, in any case |
| `Http.ReplaceKeepsOthers` | worker/transform.c:150-196 | `replace_header` keeps every header that does not match, in order |
| `Http.ReplaceKeepsOnce` | worker/transform.c:427-431 | a later replacement does not disturb an earlier one of another name |
| `Http.ReplaceOnce` | worker/transform.c:150-196 | exactly one header of the target name remains, with the given value, if and only if the first header that matches does not have a shorter name |
| `Http.ReplacePrefixName` | worker/transform.c:161 | a header whose name is a proper prefix of the target: after the replacement no header has the target name |
| `Http.ReplaceAllKeepsUntouched` | worker/transform.c:427-431 | the whole chain keeps the untouched headers in order |
| `Http.ReplaceAllOnce` | worker/transform.c:427-431 | after the chain every target name is there exactly once with its value, if no header name is empty or a proper prefix of a target |
| `Http.StripHeaders` | worker/transform.c:130-145 | the in-place compaction leaves at the front, in order, all headers whose name is, up to case, a prefix of `Host`, `Content-Length` or `Transfer-Encoding`, and no others |
| `Http.ReplaceHeader` | worker/transform.c:150-196 | the in-place loop with its reallocation computes the replacement, with the spelling of the first match kept |
| `Http.SerializeHttp` | worker/transform.c:221-265 | the exact message with its length, or an error if and only if it does not fit, also when the status line alone fills the buffer; cut at CRLF it is the status line, `name: value` of every header in order, an empty line and nothing behind it |
| `Http.MessageReadsBack` | worker/transform.c:251-257 | a reader that cuts at CRLF finds the line, every header as `name: value` in order, and the empty line only at the very end |
| `Transform.LooksLikePrefix` | worker/transform.c:267-309 | what looks like a message at its beginning: every prefix of a string that does also does |
| `Transform.LooksLikeHttpRequest` | worker/transform.c:267-288 | true if and only if the text is empty, or is A to Z up to its end or a space, the first byte being one of them |
| `Transform.LooksLikeHttpResponse` | worker/transform.c:290-309 | true if and only if the text is a beginning of `HTTP/1.`, or goes on behind it with 0 to 9 up to its end or a space |
| `Transform.HeadRewritten` | worker/transform.c:425-431 | a rewritten head keeps the untouched headers in order and has each target header once when no name is empty or a prefix of a target |
| `Transform.FramingKept` | worker/transform.c:124-145 | `Host`, `Content-Length` and `Transfer-Encoding` of a request go through unchanged, all of them and in order |
| `Transform.RewriteHeaders` | worker/transform.c:425-436 | the sequence of strip and replace calls, on the array, computes the rewritten headers of a request or a response; the rows below say what those are |
| `Transform.RequestFiltered` | worker/transform.c:130-145 | of a request go through, besides the four headers the proxy sets, exactly the headers named (up to case, a prefix of) `Host`, `Content-Length` or `Transfer-Encoding`, in order |
| `Transform.ResponseFiltered` | worker/transform.c:425-436 | of a response all headers go through in order, besides the four the proxy sets |
| `Transform.RequestSet` | worker/transform.c:427-431 | `Connection: close`, `User-Agent: crash-tolerant-proxy`, `DNT: 1` and `Sec-GPC: 1` are each there exactly once, unless a name is a beginning of `Con` |
| `Transform.ResponseSet` | worker/transform.c:343-349 | `Connection: close`, `Server: crash-tolerant-proxy`, `X-Clacks-Overhead: GNU Terry Pratchett` and `X-Proxy-PID` with the process are each there exactly once, unless a name is a proper prefix of one |
| `Transform.HeadReadsBack` | worker/transform.c:221-265 | read back, a head is `method path HTTP/1.1` or `HTTP/1.1 status reason`, the rewritten headers and the empty line |
| `Transform.DecisionStable` | worker/transform.c:311-341 | a decision to rewrite or to forward, taken on part of the input, is the decision for every longer input |
| `Transform.GivenUpExact` | worker/transform.c:311-341 | without the assumption on the head: a head is given up, and would have been rewritten had it come at once, if and only if an incomplete first part does not look like one |
| `Transform.LowerCaseGivenUp` | worker/transform.c:267-288 | so a request with a method in lower case is rewritten or forwarded depending on how it is split |
| `Transform.WaitsExact` | worker/transform.c:311-341 | the head is waited for if and only if it is incomplete, looks like one, and both more input and room may come |
| `Transform.StagedIsTarget` | worker/transform.c:418-483 | whenever the head is decided, what is put out and what is still to come are the one output determined by the whole input, however the input was split |
| `Transform.HandleHead` | worker/transform.c:418-472 | parse, evaluate, rewrite, serialize into the empty send ring and advance the input by hand; also the unlinearized text of a response equals the linearized one |
| `Transform.TransformDirection` | worker/transform.c:418-483 | one direction of `transform`: the new contents of both rings and the flag, as much forwarded as fits, shutdown if and only if it was set or everything is decided and at the end; only free bytes of the output are written |
| `Direction.FlowAfterSend` | worker/main.c:276-301 | sending keeps the account of a direction: delivered ++ send ring ++ receive ring ++ unread is the target output |
| `Direction.FlowAfterReceive` | worker/main.c:303-344 | receiving keeps it, and before the head is decided the receive ring starts at 0 and the send ring is empty |
| `Direction.FlowAfterTransform` | worker/main.c:347-391 | copying, transforming and committing keep it, pending sends and receives included, if both rings are calm |
| `Direction.SettledAfterTransform` | worker/transform.c:418-549 | a transformed direction waits for the rest of what looks like a head and is incomplete, with room and no end, or has an empty receive ring, or a full send ring; an ended input is passed on |
| `Direction.FlowAfterScribble` | worker/main.c:347-391 | a transformation killed before the commit has changed nothing that counts |
| `Direction.FinishedWasDrained` | worker/main.c:402-407 | a finished, shut down send ring after a transformation means both rings are empty for good |
| `Direction.DrainedDelivered` | worker/main.c:402-407 | such a direction has delivered its whole output and read its whole input |
| `CopySafety.RecvKeptExact` | worker/main.c:190-208 | for each amount forwarded, exactly when a receive ring keeps its received bytes through copy, forward and commit |
| `CopySafety.RecvCopyExact` | worker/main.c:190-208 | for all amounts: if and only if it is not in the swap phase (but for one empty case) and a pending receive ends at the start of the buffer |
| `CopySafety.SendKeptExact` | worker/main.c:190-208 | for each amount appended, exactly when a send ring keeps its queued bytes through copy, append and commit |
| `CopySafety.SendCopyExact` | worker/main.c:190-208 | for all amounts: if and only if it is not in the swap phase, or is there with the full old range active |
| `CopySafety.LostByte` | worker/main.c:347 | from a fresh ring through the stores of two receives, the second one killed after its system call: a copy then forwards the first byte, shows it again, and has lost the second |
| `CopySafety.LostByteDelivered` | worker/main.c:347-391 | what is delivered after that is no beginning of the output, although the account held before |
| `CopySafety.LostQueued` | worker/atomic_send_recv.c:172-230 | from a fresh ring through a send killed between its last two stores: bit 7 of the state then rolls back the next queued byte |
| `Account.DeliveredPrefix` | worker/main.c:241-491 | in every state that keeps the account, each peer has got a prefix of the output its input determines |
| `Account.Verbatim` | worker/transform.c:409-410 | when no head is rewritten, delivered ++ send ring ++ receive ring ++ unread is the input, in both directions |
| `Account.NewHolds` | worker/main.c:523-526 | fresh rings keep the account |
| `Account.ServedHeals` | worker/main.c:275-344 | serving the endpoint on which a call was interrupted completes it; the other endpoint stays as it was |
| `Account.ServedExhausts` | worker/main.c:275-344 | all that was queued is delivered and all there is room for received, unless the kernel refused |
| `Account.KilledTransform` | worker/main.c:347-391 | any torn inactive ranges, flags and free bytes keep the account of the connection |
| `Account.CommitHolds` | worker/main.c:464-476 | the store of CONN_SWAP_BUFFERS takes effect for four rings and the flags at once and keeps the account |
| `Account.FinishedDelivered` | worker/main.c:401-409 | both directions finished after a transformation: both outputs are delivered completely, nothing is unread, all rings are empty |
| `Account.CloseHolds` | worker/main.c:401-409 | hence CONN_CLOSING is only stored then |
| `Account.TransformKeepsQuiet` | worker/main.c:347-481 | a transformation, killed or not, leaves every ring as quiet as it was |
| `Account.TransformPid` | worker/transform.c:343-349 | the process named in a rewritten response is the one that committed it |
| `Account.FinishedUpComplete` | worker/main.c:138-145 | a send range that a swap finds finished is the end of its direction: everything the server is to get has been delivered |
| `Account.FinishedDownComplete` | worker/main.c:138-145 | the same for the output to the client |
| `Account.TransformKeepsEnds` | worker/main.c:347-481 | a transformation, killed anywhere, cuts no output off and undoes no shutdown |
| `Account.NothingLeft` | worker/main.c:126-146 | of a complete direction nothing is unread and both rings are empty |
| `Account.ShutHolds` | worker/main.c:802-817 | the account of all bytes does not depend on what is shut down |
| `Account.NoStall` | worker/main.c:126-173 | after a commit at least one endpoint has an epoll interest, EPOLLOUT is set wherever forwarding is held up, and EPOLLIN wherever a head is awaited |
| `Account.SwappedRests` | worker/main.c:215-229 | replaying the swap changes neither what the rings hold nor their quietness |
| `Adoption.FinishedRange` | worker/main.c:136-146 | a finished send range, active or just replaced, in whatever state of its ring: the input has ended, and the output is incomplete if and only if one of the selected rings holds bytes |
| `Adoption.CutShort` | worker/main.c:802-817 | adoption, also of a pending swap, keeps the account and cuts an output off exactly if it was, or its raw send range is finished while bytes are queued; both directions |
| `Adoption.CutShortReached` | worker/main.c:802-817 | one way there: from every settled state with the end of the input behind a full send ring, a send and a crash, and adoption cuts the output off |
| `Adoption.CutShortBySwap` | worker/main.c:464-481 | another: the rest is forwarded and committed, and adoption before the replay cuts the output off although the receive ring is empty |
| `Adoption.StalledExact` | worker/main.c:126-173 | a new worker waits for nothing if and only if no raw send range has bytes and no raw receive range room |
| `Adoption.StalledIsDue` | worker/main.c:215-229 | it is never so in a settled state; a stalled connection always has work due, and is not stalled once its swap is replayed or its transformation has run |
| `Adoption.StallReached` | worker/main.c:802-817 | one way there: a half-closed connection, a receive that fills the ring, and a crash |
| `Adoption.StallBySwap` | worker/main.c:464-481 | another: a committed swap that is not replayed; the new worker does not see the full send ring |
| `Adoption.LeftExact` | worker/main.c:802-817 | in every state: adoption leaves work due (a swap to replay, a call to finish, a direction that is not settled) without an event that is bound to come if and only if a condition on the raw ranges, the ring states and the unread bytes holds |
| `Adoption.LeftReached` | worker/main.c:345-348 | the ordinary way there: a crash between a receive and the transformation leaves bytes to forward, and the new worker waits for input only |
| `Adoption.LeftBySwap` | worker/main.c:464-481 | another: a crash between the commit and its replay leaves bytes in the selected send ring without EPOLLOUT |
| `Adoption.Unheard` | worker/main.c:136-138 | bytes on their way to a peer without EPOLLOUT for it: exactly when the raw send range is empty and they are in the receive ring, or in the send ring a pending swap selects |
| `Adoption.NothingDue` | worker/main.c:464-481 | after a call that was not interrupted nothing is due |
| `Connection.Encode` | worker/main.c:466-476 | the five choices are bits 8 to 12 of the state, in this order, above the tag CONN_SWAP_BUFFERS, and `swap_buffers` reads them back |
| `Connection.SendPhase` | worker/main.c:275-301 | sends until the ring is empty or the kernel refuses; the assert fails if and only if the refusal is EINTR, and the errors that are fatal are EPIPE and EIO; at most 9 stores for each byte queued and one call more |
| `Connection.ReceiveAll` | worker/main.c:309-315 | the loop ends with a full ring, the end of the stream or a refusal other than EINTR; at most 9 stores for each byte of room and each refusal, and two calls more |
| `Connection.RecvPhase` | worker/main.c:302-344 | the end is marked only when nothing is unread; the assert fails if and only if the ring is full; fatal only by EIO |
| `Connection.EndpointIo` | worker/main.c:275-344 | both phases by the events: what is queued is sent on output, error or hang-up and nothing else is, what there is room for is received on input, error or hang-up; the accounts, quiet rings afterwards; an assert fails if and only if a send was interrupted, or the sends are over and there is no room to receive; with enough time it is not killed |
| `Connection.EpollFromBuffers` | worker/main.c:126-173 | EPOLLOUT if bytes are queued, EPOLLIN if there is room and no end; the output is shut down if and only if it was, or the send range is marked and empty; it fails only then |
| `Connection.ShutdownDirection` | worker/main.c:175-185 | marks the draft of the destination and, if it can, of a source that has not ended; changes nothing else |
| `Connection.TransformRings` | worker/main.c:349-400 | the inactive copies become a transformation of the active ones; the active ones stay |
| `Connection.Connection.constructor` | worker/main.c:497-564 | whatever an earlier connection has left in the rings, a new one keeps the account, all rings quiet, and waits for input on both sides |
| `Connection.Connection.CopyActiveRanges` | worker/main.c:190-208 | every inactive range becomes a copy of the active one, nothing else changes |
| `Connection.Connection.Prepare` | worker/main.c:347-400 | from the copies to the drafts: until the commit the connection is what it was |
| `Connection.Connection.Scribble` | worker/main.c:347-400 | killed in between: the account holds and nothing has been done |
| `Connection.Connection.StoreCommit` | worker/main.c:466-476 | one store makes the connection the committed one |
| `Connection.Connection.ReplaySwap` | worker/main.c:216-220 | killed after any of its five stores the replay is invisible; finished, the stored copies are active |
| `Connection.ShutsRight` | worker/main.c:215-226 | what is shut down on the way is complete, and at the end every finished output is shut down |
| `Connection.Connection.SwapBuffers` | worker/main.c:215-229 | keeps the account, changes no contents, shuts down complete outputs only and all finished ones, and stores CONN_POLL with the interests of both endpoints only at its end |
| `Connection.Connection.Transaction` | worker/main.c:345-481 | keeps the account; killed anywhere it has done nothing or everything; finished the transformation has run, and has closed a delivered connection or left a settled one with its interests |
| `Connection.Connection.HandlePoll` | worker/main.c:273-481 | finished, the endpoint has been served and then the transformation has run; the account, what was sent and received, exactly when an assert fails, why it fails, how much time it needs, and no output cut off |
| `Connection.Connection.HandleConnection` | worker/main.c:241-491 | one event in any state: on output, error or hang-up all that is queued goes to the socket, on input, error or hang-up the room is filled, unless the kernel refuses, and nothing moves without such an event or at the other endpoint; wherever it is killed the account is kept and no output cut off; between all-quiet rings it never copies unsafely and ends all-quiet; with a number of stores that the bytes and refusals bound it is not killed; exactly when an assert fails |
| `Connection.Connection.Adopt` | worker/main.c:802-817 | adoption after a crash in any state: the account, which outputs are shut down, exactly when one is cut off, the interests, exactly when there are none, and exactly when work is left without an event |
| `Connection.Connection.Waits` | worker/main.c:126-173 | a connection left in CONN_POLL has an interest, EPOLLOUT wherever forwarding is held up and EPOLLIN wherever an incomplete head is awaited; adopted in that state it would have one, too, and with quiet rings nothing is due |
| `Connection.Connection.Delivered` | worker/main.c:401-409 | prefixes delivered at all times, everything delivered in CONN_CLOSING |
| `Connection.Connection.Run` | worker/main.c:241-491 | any sequence of events, each killed after any number of stores, and adoptions: every call or the adoption in its place happens, in order; the account, the delivered prefixes and the clean close; without an interruption SHUT_WR on complete outputs only and no unsafe copy; otherwise only an adoption cuts an output off; the named process is one that ran |
| `Slots.UnusedIsClosed` | common/accept.c:35-52 | an unused slot has none of its four descriptors open and no message about it |
| `Slots.MessageDetermines` | listener/main_active.c:271-386 | a slot has at most one message in flight, which determines its state and open descriptors |
| `Slots.System.AcceptStep` | common/accept.c:18-74 | each step of accepting keeps the protocol and changes just the field it is for; the accepted descriptor is stored in the claimed slot; the asserts on the descriptors hold and the only acceptor never loses the exchange |
| `Slots.System.ConnectStep` | listener/main_active.c:306-339 | a successful connect stores its descriptor and goes on to the answer, the answer is sent, and a failure of either turns to the error path; all keep the protocol |
| `Slots.System.DropStep` | listener/main_active.c:341-351 | the error path closes the two descriptors of the listener, the upstream one first, then tells the worker |
| `Slots.System.CloseStep` | listener/main_active.c:356-386 | the assert on the state holds, both descriptors are closed one by one, and only then the slot becomes unused |
| `Slots.System.AdoptStep` | worker/main.c:639-682 | the worker takes an accepted connection: its id, the descriptor it got (the assert holds), the state, the request, in this order |
| `Slots.System.JoinStep` | worker/main.c:497-564 | the descriptor of the upstream connection is stored, the assert on it holds, and the slot goes to CONN_POLL |
| `Slots.System.ForgetStep` | worker/main.c:684-713 | a connection that could not be made is closed and forgotten by its worker, the state last |
| `Slots.System.EndConnection` | worker/main.c:401-418 | the decision to end a connection is one store of CONN_CLOSING or CONN_ERROR |
| `Slots.System.EndStep` | worker/main.c:425-452 | the worker closes its two descriptors before it tells the listener |
| `Slots.System.WorkerReceives` | worker/main.c:822-829 | the handler of a message finds the slot as the message says |
| `Slots.System.ListenerReceives` | listener/main_active.c:417-422 | the handler of a message finds the slot as the message says |
| `Slots.System.Run` | listener/main_active.c:739-799 | every interleaving of all steps: each turn that is possible is taken by its process alone, a descriptor field only goes from none to the descriptor of that turn or to none and only by its own process, the states follow their order; unused slots are closed, one message a slot, messages determine their slots |
| `Recovery.RecoverOneFd` | listener/main_active.c:111-201 | returns a descriptor if and only if it is the only open one that is unknown and not close-on-exec, in whatever order they are listed, and leaves no other unknown one open |
| `Recovery.AssignRecovered` | listener/main_active.c:567-607 | stored if and only if exactly one slot misses a descriptor, in that slot, on the side its state says, and no other slot changes; closed otherwise |
| `Recovery.CleanupConnections` | listener/main_active.c:56-104 | slot by slot: in CONN_CLOSING or CONN_ERROR it becomes unused and loses both descriptors, in every other state it stays as it is; closed are exactly the descriptors of the former, and those of the latter become known |
| `Recovery.Restart` | listener/main_active.c:541-608 | slot by slot: ending ones are closed and unused, every other one is unchanged but the only one that misses a descriptor when there is just one stray; a descriptor is open if and only if it was, no ending slot had it, and it is known or stored; when the asserts fail |
| `Argv.ReadsBack` | base/cmdline.c:459-529 | in a packed block every pointer leads to its argument, inside the block, behind the pointers and behind the argument before it |
| `Argv.Measure` | base/cmdline.c:460-473 | the arguments are counted and the strings measured from the last pointer alone |
| `Argv.MoveStrings` | base/cmdline.c:497-514 | the new string is written and the old ones moved over the room of a pointer, without loss |
| `Argv.FixPointers` | base/cmdline.c:515-522 | every old pointer leads to the same string in the moved block |
| `Argv.FillBlock` | base/cmdline.c:497-526 | what is done in the grown block packs the arguments and the new one |
| `Argv.ArgumentVector.Append` | base/cmdline.c:459-529 | the block holds the arguments and the new one wherever it was moved, or is unchanged if it cannot grow |
| `Argv.ArgumentVector.AppendAll` | base/cmdline.c:532-539 | any number of appends, the block moving every time: exactly these arguments, then NULL |
| `Util.WrittenTwice` | common/util.c:204-211 | two writes one behind the other are one write of both |
| `Util.BytesWritten` | common/util.c:204-211 | at `offset` the bytes written, in front of it what was there or zeros, behind it what was there |
| `Util.PwritevAll` | common/util.c:200-227 | under every schedule of short writes the file has, byte by byte, the first `total` bytes of the buffers at `offset` and everything else as it was, a gap filled with zeros; less than all only after a refusal; the inner assert holds and both loops end, empty buffers included |
| `Util.DropFirst` | common/util.c:212-224 | the buffers lose exactly the bytes written |
| `Util.EscapedReadsBack` | common/util.c:374-434 | a reader of RFC 8259 gets back the byte string, and only printable ASCII is put out |
| `Util.EscapeLengths` | common/util.c:374-383 | printable characters but quote and backslash stand for themselves, seven characters get a letter, the rest six characters |
| `Util.JsonBufsize` | common/util.c:385-401 | the size of the quoted string with its NUL byte |
| `Util.JsonStrlcpy` | common/util.c:403-449 | returns the length of the quoted string whether it fits or not, stays in the buffer, and writes all of it or as many whole escapes as there is room for |
| `Ipc.IpcSend` | common/ipc.c:15-81 | the datagram, or an error if and only if it is longer than the maximum |
| `Ipc.ParseMessage` | common/ipc.c:129-190 | taking a datagram apart in place gives its action, slot and tail; only a full buffer counts as truncated |
| `Ipc.Scans` | common/ipc.c:165-180 | a text that divides into a word, `slot=` and a number with white space and a sign allowed is scanned as just that |
| `Ipc.ScansOnly` | common/ipc.c:165-180 | and nothing else is scanned |
| `Ipc.RoundTrip` | common/ipc.c:15-57 | what was sent is what is received, for every action without white space, every slot and every tail |
| `Ipc.Exchange` | common/ipc.c:15-190 | sending and taking apart composed: the same action, slot and tail, or an error of the sender; nothing accepted is too long for the receiver |

## Left out

- Connection.Connection.HandlePoll: does not follow a run past a copy of ranges that are not calm; what such a copy loses, and for which amounts it loses nothing, is stated per ring in CopySafety.
- Connection.Connection.Run: ends there.
- Connection.Connection.Prepare: is for calm rings only.
- Connection.Connection.Scribble: is for calm rings only.
- Connection.Connection.Transaction: is for calm rings only.
- Connection.EpollFromBuffers: epoll_ctl does not fail (worker/main.c:164-171).
- Slots.System.Run: no process exits and no orphans are handed out, because unclaimed slots can then be sent twice (listener/main_active.c:442-506); a worker that drops a connection with CONN_ERROR stops after its message. Messages arrive with their descriptors, and only the send of `connected` can fail.
- Slots.System.FindSlot: any slot that is unused at the moment is possible, without the loop that looks for it (common/accept.c:9-16), and appending to the shared memory is one step because concurrent appends race by the source's own account.
- Slots.System.AcceptStep: an `accept` that fails ends the listener, which leaves a claimed slot without a descriptor; that is an exit.
- Slots.System.AdoptStep: a connect request that cannot be sent ends the worker; that is an exit.
- Slots.System.JoinStep: does not model epoll registration, nor the call of `handle_connection` without events that follows it; Connection.Run covers that call.
- Recovery.Restart: restores one descriptor; when several slots miss one the source closes it and continues, and so does the model.
- Ipc.ParseMessage: does not model the table of handlers and descriptors passed along (common/ipc.c:83-116, 192-214); both are plain searches.
- Util.PwritevAll: retrying while interrupted is part of the system call.
- Http.ReplaceHeader: does not model the failing reallocation (worker/transform.c:181-184), so that it always succeeds.
- Transform.HandleHead: does not model a failing reallocation of the header array, after which the source forwards verbatim.
- Receive errors that a crash loses (worker/atomic_send_recv.c:285-288), exits through CONN_ERROR beyond the store of that state.
- Real system calls, epoll delivery, signals, process creation, memory mapping and exec.
- PERFORMANCE_BASELINE, EXPENSIVE_TRANSFORM, libcrash and its injection, command line parsing, socket addresses.
- picohttpparser is not part of this model.
