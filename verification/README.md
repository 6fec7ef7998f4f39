# Verification of the Thunderbolt RDMA protocol machines

This project models, in Dafny, the protocol state machines of a kernel driver that carries RDMA over
Thunderbolt DMA rings, and proves what they promise over every run. Each component has a specification made
of datatypes and functions (one function per locked section or entry point, with the source's branches, limits
and error cases) and theorems about all runs of it. Where the source keeps the state in a representation of its
own, a class has that representation and each method is proved to refine the specification: bitmaps, rings and
16-, 24- and 32-bit counters, the array of transmit frames with its free list, send contexts on a list with a
slot counter, rails found by their key, queue pairs reached through a pointer. Where the fields are plain
counters or flags the class differs from the specification only in being updated field by field. Lists that the
source links through their elements are sequences.

| component | files |
|---|---|
| reliability core: sender, receiver, lossy network, ordered completion | `ReliabilityTx`, `ReliabilityRx`, `ReliabilityNet`, `OrderQueue` |
| data header, fragment shape, gather, scatter, fragmentation | `NativeData`, `Cut`, `Segments`, `Fragments` |
| RDMA READ response reassembly | `ReadResponse` |
| 24-bit PSN arithmetic and the acknowledgement history | `Psn`, `AckHistory` |
| native SEND receive with reorder list | `NativeRx` (specification), `NativeRxQp` (in place), `ReorderWindow`, `RecvParts`, `RecvWqe`, `NativeRxSafety`, `NativeRxProgress`, `NativeRxInOrder`, `NativeRxAnswers`, `NativeRxDrain`, `NativeRxHold` |
| ordered completion of pending sends, send-queue slots | `SendQueue`, `SendList`, `SendStatus` |
| credit protocol | `Credits` |
| path scheduler, packet ownership, raw streams | `PathTx`, `PathQueue`, `PathOwnership`, `PathGate`, `PathOrder`, `PathCancel`, `Lockstep`, `RawStream` |
| HELLO / READY handshake of two nodes | `Handshake` (protocol), `NativeControl` (rails of a peer) |
| Apple rail binding and epochs | `RailBind`, `RailState`, `RailTeardown` |
| Apple message reassembly | `ApplePending`, `AppleRing` |
| Apple transmit window | `AppleTx` |
| shared arithmetic and sequences | `Prelude`, `Bits`, `Lists`, `Ring` |

Conventions. Messages, PSNs and epochs carry unbounded numbers in the specifications; classes work with the
fixed widths of the source, and wrap-around is written out. Time-outs, allocation failures, free
completion-queue entries, posted receives, and whether a ring post or a control packet succeeds are parameters
of the steps. Every locked section is one step; runs are arbitrary sequences of steps. `hide` only keeps a
function body out of one proof.

## Findings

Places where the code does not do what one might expect of it; the lemma named says exactly when it does, or
gives a run in which it does not, beside a theorem for the other runs.

- A valid start of the reliability core is refused although the message has at most 64 frames when the 32-bit
  sum in the ceiling division wraps (`ReliabilityTx.StartAccepts`, with an input in
  `ReliabilityTx.WrapRefusesTwoFrames`).
- Credit progress fails for exactly the windows from 2 to 510, that is for rings of 4 to 767 entries other than
  257: the peer may withhold the credits that a group needs to start (`Credits.Progress`,
  `Credits.ProgressRings`).
- A duplicate older than 1024 messages is acknowledged OK whatever status it had (`AckHistory.AnswerExact`).
- Epoch isolation of an Apple rail needs three things of the callers, and needs them all (`RailBind.Isolation`,
  `RailBind.RulesExact`). There is one Apple queue pair number (`kernel/ibdev.c:907-912`), so each run that shows
  a rule is needed uses one queue pair. No quiesce for a stall or a module exit may begin on a quarantined rail,
  unless the rail is being removed: that of a module exit, which quiesces whatever the state of the rail is,
  would clear the error although a thread still holds the path (`RailBind.StopRuleNeeded`). No quarantine may be
  lifted while a quiesce runs: the rail can end quarantined with transmission open (`RailBind.LiftRuleNeeded`).
  The bound queue pair may not be unbound outside its destroy: the unbind that follows the quiesce of a modify can
  release an epoch that another modify has bound in between (`RailBind.UnbindRuleNeeded`).
- Sends complete in post order exactly as long as each is finished while it is the first of those that have left
  the pending list (`SendQueue.InPostOrder`), so in particular when each locked section completes what it took off
  the list before the next begins (`SendQueue.CallsInPostOrder`). The time-out path finishes a
  flushed later send before the timed-out one (`SendQueue.ErrorBreaksOrder`).
- Without striping, a message whose fragment 0 came first drops every fragment that comes ahead of its turn, so
  it is consumed only when they come in turn; a message of which another fragment came first takes them in any
  order (`NativeRxInOrder.ConsumedExactly`).
- With Apple pipelining a send limit of 2^31 or more is negative as a signed number, and even an idle window
  refuses every send (`AppleTx.IdleAdmits`).

## Model

| member | source | states |
|---|---|---|
| ReliabilityTx.TxOp.Begin | proto/reliability.c:79-106 | the start of a sender operation: its whole new state, or the error and the old state |
| ReliabilityTx.TxOp.CountFrames | proto/reliability.c:84-97 | the count computed in 32 bits is the mathematical ceiling, or 0 exactly when the 32-bit sum wraps |
| ReliabilityTx.TxOp.Next | proto/reliability.c:108-143 | the next frame of a pass, or no data at its end; refused in the other states |
| ReliabilityTx.TxOp.Timeout | proto/reliability.c:145-169 | a time-out spends the retry budget and starts a new pass, or completes the operation as exhausted |
| ReliabilityTx.TxOp.Ack | proto/reliability.c:171-214 | OK completes, RNR spends the RNR budget, an error fails; acknowledgements of other operations and late ones change nothing |
| ReliabilityTx.StartAccepts | proto/reliability.c:79-106 | an accepted start has the true frame count; a valid start is refused exactly when that count exceeds 64 or the 32-bit sum wraps |
| ReliabilityTx.WrapRefusesTwoFrames | proto/reliability.c:84-97 | a message of 0xFFFFFFFF bytes in frames of 0x80000000, two frames, is refused for its size |
| Cut.WrappedCount | proto/reliability.c:79-106 | 32-bit ceiling division: the quotient after a wrap is 0, otherwise exact |
| Cut.PassTiles | proto/reliability.c:108-143 | a pass tiles the message: every fragment starts where the earlier ones end and together they are the whole |
| ReliabilityTx.EmitsFragments | proto/reliability.c:108-143 | in any run every emitted frame is one of the fragments of the message |
| ReliabilityTx.CompletesOnce | proto/reliability.c:145-214 | in any event sequence a sender raises at most one completion, and it says OK exactly when the operation completed |
| ReliabilityTx.EmissionBound | proto/reliability.c:79-214 | retry termination: with finite budgets at most (1 + retry budget + RNR budget) times the frame count are emitted |
| ReliabilityTx.FirstPass | proto/reliability.c:108-143 | an operation begins with a pass: emissions give fragments 0 to count - 1 in order under the first generation |
| ReliabilityTx.Resends | proto/reliability.c:145-214 | in any run, after a time-out in flight or an RNR answer that completes nothing, the next emissions are all fragments in order under the next generation |
| ReliabilityTx.CompletionExact | proto/reliability.c:145-214 | in any run budgets are spent exactly by the retries there were, and the operation is over exactly when an event has ended it, with the status of that event |
| ReliabilityRx.AckCache.Find | proto/reliability.c:46-64 | the scan of the 16 slots finds an operation exactly when it is one of the 16 last stored in the unbounded log |
| ReliabilityRx.AckCache.Store | proto/reliability.c:66-77 | storing appends to the log; only the oldest of 16 is forgotten, also across the wrap of the 32-bit counter |
| ReliabilityRx.RxOp.Validated | proto/reliability.c:359-378 | the error of a frame, in the order of the checks |
| ReliabilityRx.RxOp.Data | proto/reliability.c:380-451 | one data frame refines the receiver over an unbounded log: bitmap as a set, cached answers, RNR, assembly, completion |
| ReliabilityRx.NeverCompletesRecentAgain | proto/reliability.c:380-451 | under any frames, forged ones included, no operation among the 16 finished last is finished again |
| ReliabilityRx.FinishesIffForgotten | proto/reliability.c:46-77 | sixteen is exact: an idle receiver finishes a valid one-fragment operation if and only if it is not among the 16 finished last |
| ReliabilityRx.OthersAnswered | proto/reliability.c:359-451 | in every run: bad frames are errors, foreign ones stale, a recently finished operation is answered again as it was then, one without a buffer is answered RNR, another than the one being assembled is refused as busy; none of these changes anything |
| ReliabilityRx.FinishesExactly | proto/reliability.c:380-451 | in every run an operation finishes exactly with the fragment that was missing last, and then, and only then, is its completion reported, with an OK for the generation of the frame |
| ReliabilityNet.EndToEnd | proto/reliability.c:380-451 | over a network that loses, duplicates and reorders both directions: a sender that completed OK was finished by the receiver with the same length |
| ReliabilityNet.FirstPassCompletes | proto/reliability.c:108-214 | from any reachable state of sender, receiver and network a pass delivered in full, with its acknowledgement, completes the sender OK, whether the receiver has all, part or nothing of the operation |
| ReliabilityNet.TimeOutRecovers | proto/reliability.c:145-169 | so after a time-out with budget left the next pass completes it, whatever was lost |
| ReliabilityNet.NotReadyRecovers | proto/reliability.c:186-214 | and after an RNR answer with budget left |
| OrderQueue.OrderRing.Init | proto/reliability.c:240-248 | an empty queue of the given capacity, or an error |
| OrderQueue.OrderRing.PushOp | proto/reliability.c:256-278 | append one operation; full queues and operations already queued are refused |
| OrderQueue.OrderRing.MarkOp | proto/reliability.c:280-301 | the first mark of a queued operation sticks |
| OrderQueue.OrderRing.FlushAll | proto/reliability.c:303-320 | every operation without a mark gets the status |
| OrderQueue.OrderRing.DrainOps | proto/reliability.c:322-349 | the longest ready prefix up to max leaves the ring and its head moves on |
| OrderQueue.DrainedIsPushedPrefix | proto/reliability.c:256-349 | over any run the drained operations are a prefix of the pushed ones in order, each once, with the first status offered |
| OrderQueue.DrainIsMaximal | proto/reliability.c:322-349 | a drain stops only at max, at the end, or at an operation never marked |
| OrderQueue.PushesExactly | proto/reliability.c:256-278 | in any run an operation is accepted exactly when there is room and the ring does not hold it; the answer tells why not |
| OrderQueue.MarksExactly | proto/reliability.c:280-301 | in any run a mark of a held operation takes exactly when it has none, or this one |
| OrderQueue.UnknownNotMarked | proto/reliability.c:280-301 | a mark of an operation that is not held is answered so and changes nothing |
| Ring.WrapIsMod | proto/reliability.c:250-254 | the index reduced modulo the capacity is the ring position |
| NativeData.HeaderRoundTrip | proto/native_data.h:95-171 | what the builder writes the parser reads back |
| NativeData.ParsedIsEncoded | proto/native_data.h:130-171 | every frame the parser accepts carries, in every field it reads, the encoding of the header it returns; the reserved bytes 10 and 11, which it does not read, are free |
| NativeData.BuildHeader | proto/native_data.h:95-128 | the error for a bad header with the buffer untouched, or exactly the 48 encoded bytes |
| NativeData.FromLe32 | proto/native_wire.h:102-108 | little-endian reading is the inverse of writing |
| NativeData.FromLe64 | proto/native_wire.h:110-114 | little-endian reading is the inverse of writing, as two words |
| NativeData.Le16Inverse | proto/native_wire.h:77-100 | writing is the inverse of reading |
| NativeData.Le32Inverse | proto/native_wire.h:83-108 | writing is the inverse of reading |
| NativeData.Le64Inverse | proto/native_wire.h:91-114 | writing is the inverse of reading |
| NativeData.ShapeExact | proto/native_data.h:200-242 | the shape check accepts exactly the fragments of the mathematical cut with their index and count; a 32-bit wrap makes it refuse |
| Segments.CopySendRange | kernel/ibdev.c:4971-5007 | gathering a range over the segments yields that slice of their concatenation, and fails exactly when the range leaves it |
| Segments.CopyToReadSegments | kernel/ibdev.c:7724-7760 | scattering overwrites exactly that range of the concatenation and keeps the segment sizes |
| Fragments.HeaderOf | kernel/ibdev.c:5387-5416 | the header of a SEND fragment passes the builder for payloads up to 4048 bytes |
| Fragments.PostFrames | kernel/ibdev.c:5580-5629 | the loop builds one frame per fragment of the cut, in order, header and payload |
| Fragments.FrameRecognised | kernel/ibdev.c:5387-5416 | a built frame is parsed to a header with the addresses, PSN, length and immediate of the send, recognised as fragment i of n; the last one alone is marked as last and, if asked for, solicited |
| Fragments.RoundTrip | kernel/ibdev.c:5580-5629 | for every segment list up to 16 MiB the fragments are recognised as 0..n-1 of n and reassemble to the concatenation |
| ReadResponse.ReadCtx.FindFrag | kernel/ibdev.c:7762-7773 | the held fragment at an offset, found exactly when one is held |
| ReadResponse.ReadCtx.StoreFrag | kernel/ibdev.c:7775-7814 | a fragment is held once; a different payload at its offset is a mismatch; the -ENOSPC branch is unreachable |
| ReadResponse.ReadCtx.DrainFrags | kernel/ibdev.c:7816-7838 | the drain refines its specification and terminates |
| ReadResponse.ReadCtx.Response | kernel/ibdev.c:9720-9808 | one response fragment: errors, duplicates, holding, advancing and completion |
| ReadResponse.Reassembles | kernel/ibdev.c:9720-9808 | under any order, duplication and loss: the received prefix is in place, everything held lies beyond it, and the read is OK exactly when all bytes are written |
| ReadResponse.CompletesWhenAllArrived | kernel/ibdev.c:9720-9808 | once every fragment came in with memory to hold it the read is OK with the whole response in memory |
| ReadResponse.RepliesExact | kernel/ibdev.c:9720-9808 | in any run of genuine fragments the reply to the next one: none if it is covered, a retry if it lies beyond a gap, OK exactly if it completes the read |
| ReadResponse.BadRefused | kernel/ibdev.c:9736-9790 | a remote error, an impossible shape, or bytes that contradict a held fragment: an error is answered and the read completes with it, unless it had a status |
| ReadResponse.ShapeIsChunk | kernel/ibdev.c:9720-9808 | a well-shaped response fragment is one fragment of the cut |
| Psn.NextExact | kernel/ibdev.c:807-810 | the next PSN is the PSN of the next number, across the wrap |
| Psn.DeltaExact | kernel/ibdev.c:812-819 | serial arithmetic gives the true distance if and only if the numbers lie within half the PSN space |
| Psn.NumberExact | kernel/ibdev.c:812-819 | the number a PSN is taken to mean has that PSN and is the only one within reach |
| AckHistory.History.Store | kernel/ibdev.c:1376-1385 | recording a status appends to the unbounded log |
| AckHistory.History.Lookup | kernel/ibdev.c:1387-1398 | a duplicate, whatever wraps happened since, is found exactly when it is one of the last 1024 consumed, with its status |
| AckHistory.History.Reack | kernel/ibdev.c:1400-1424 | nothing for a PSN not behind the expected one; the recorded status, or success once forgotten |
| AckHistory.AnswerExact | kernel/ibdev.c:1400-1424 | the last 1024 get the status first recorded; all duplicates do if and only if no forgotten status was an error |
| AckHistory.AnswerStays | kernel/ibdev.c:1376-1398 | consuming more numbers changes no answer until it is forgotten |
| NativeRxQp.RxQp.HandleFragment | kernel/ibdev.c:8850-9116 | one SEND frame, with 24-bit PSNs and the bounded history, refines the receiver over unbounded numbers |
| NativeRxQp.RxQp.Striped | kernel/ibdev.c:8898-8990 | the branch for fragments striped over rails |
| NativeRxQp.RxQp.Continue | kernel/ibdev.c:8993-9044 | the in-order branch while a message is active: next, duplicate, gap, other messages, mismatch |
| NativeRxQp.RxQp.Sequential | kernel/ibdev.c:8993-9116 | the in-order branch |
| NativeRxQp.RxQp.Buffer | kernel/ibdev.c:8623-8737 | holding a fragment of a later message: window, shape, collision, duplicate, memory, completion |
| NativeRxQp.RxQp.Store | kernel/ibdev.c:7989-8017 | a new fragment is held, or its message is dropped for the byte cap or memory |
| NativeRxQp.RxQp.FragMatches | kernel/ibdev.c:8019-8035 | whether the held fragment at an offset has the same bytes |
| NativeRxQp.RxQp.Find | kernel/ibdev.c:7934-7945 | the list search by PSN finds exactly the entry of the number |
| NativeRxQp.RxQp.Unlink | kernel/ibdev.c:7978-7987 | one entry leaves the list with its count and bytes |
| NativeRxQp.RxQp.Deliver | kernel/ibdev.c:8257-8325 | an entry is copied into a receive and completed, or RNR is answered |
| NativeRxQp.RxQp.Drain | kernel/ibdev.c:8468-8493 | entries of consecutive expected numbers are delivered until one is missing, incomplete or has no receive |
| NativeRxQp.NoneStale | kernel/ibdev.c:8422-8443 | the search for stale entries never finds one |
| NativeRxQp.RxQp.Consume | kernel/ibdev.c:8086-8128 | completion, expected PSN, history and acknowledgement move together |
| NativeRxQp.RxQp.Fail | kernel/ibdev.c:8157-8165 | the active message completes with the given status |
| NativeRxQp.RxQp.CopyAll | kernel/ibdev.c:8286-8292 | fragments are copied until one fails |
| NativeRxQp.RxQp.Push | kernel/ibdev.c:6382-6419 | a completion is pushed unless the queue is full or has overflowed before |
| NativeRxQp.RxQp.PopRecv | kernel/ibdev.c:6360-6380 | the oldest posted receive is taken |
| NativeRxQp.RxQp.NotReady | kernel/ibdev.c:8535-8543 | RNR is answered and the provoking fragment remembered |
| NativeRxQp.RxQp.ReapActive | kernel/ibdev.c:4464-4484 | an expired active message completes with an error |
| NativeRxQp.RxQp.ReapHead | kernel/ibdev.c:4516-4546 | an expired entry of the expected number is consumed with an error status |
| NativeRx.Find | kernel/ibdev.c:7934-7945 | the first entry of a number |
| ReorderWindow.RunKeeps | kernel/ibdev.c:8623-8737 | whatever frames arrive: reorder entries have distinct numbers inside the 1024 window, counts and byte totals are exact and bounded |
| ReorderWindow.NeverFull | kernel/ibdev.c:8656-8666 | the "reorder full" refusal is unreachable: inside the window there is always room for a new number |
| RecvParts.HoldsMore | kernel/ibdev.c:7840-7868 | a successful copy of one more fragment puts its bytes in place and counts them once |
| RecvParts.CopyStored | kernel/ibdev.c:8286-8292 | copying the held fragments leaves exactly them in the buffer |
| NativeRxSafety.SenderIsGenuine | kernel/ibdev.c:5580-5629 | the frames the sender builds meet the assumption about a truthful sender |
| NativeRxSafety.Delivery | kernel/ibdev.c:8850-9116 | the delivery invariant holds in every run, under any loss, duplication and reordering within half the PSN space |
| NativeRxSafety.DeliveredExactly | kernel/ibdev.c:8850-9116 | completions come in message order, at most one each; a success holds exactly the bytes sent, a length error means a message longer than the buffer, a protection error one beyond what is mapped; OK is acknowledged, to the sender, only for a delivered message or one the history has forgotten |
| NativeRxAnswers.DuplicateAnswered | kernel/ibdev.c:1400-1424 | in any run a duplicate of a consumed message is answered once, to its sender, with the status recorded for that message, or OK if it is older than 1024; it changes nothing else |
| NativeRxAnswers.NotReadyAnswered | kernel/ibdev.c:8943-8958 | in any run a frame that would begin the expected message without a posted receive is answered RNR, once, and changes only what suppression waits for |
| NativeRxAnswers.RetryTaken | kernel/ibdev.c:8886-8896 | after RNR the other fragments of the message are dropped silently; the retry of the one answered is taken as if RNR had not been sent |
| NativeRxAnswers.BadRefused | kernel/ibdev.c:8868-8881 | a frame whose header fits no fragment is answered with an error and changes nothing else |
| NativeRxAnswers.TooFarRefused | kernel/ibdev.c:8644-8649 | in any run a frame 1024 messages ahead or more is refused with an error and changes nothing else |
| NativeRxAnswers.ExpiryMovesOn | kernel/ibdev.c:4456-4546 | in any run a message that expires is recorded as failed and the receiver goes on to the next; an active one completes with an error |
| NativeRxAnswers.CompletionsAcknowledged | kernel/ibdev.c:8086-8128 | in any run, whatever frames arrive, every completion is acknowledged to its sender, OK exactly for a success |
| NativeRxDrain.NoneHeldBack | kernel/ibdev.c:8468-8493 | in every run of genuine frames a frame or time-out that moves the receiver on leaves no message behind that could be delivered |
| NativeRxDrain.RepeatDelivers | kernel/ibdev.c:8697-8709 | a duplicate for a complete message that waits is answered RNR while no receive is posted, and delivers it once one is |
| NativeRxHold.ConflictDropped | kernel/ibdev.c:8687-8705 | in every run a fragment that contradicts what is held of its message makes the receiver drop the message and answer with an error; nothing else changes |
| NativeRxHold.RepeatIgnored | kernel/ibdev.c:8697-8709 | in every run a fragment that is held already changes nothing while its message is incomplete |
| NativeRxHold.MissingHeld | kernel/ibdev.c:8711-8737 | in every run a missing fragment of a held message: dropped with the message, silently for the byte cap and with an error for lack of memory, and otherwise held, nothing else changing until the message is complete |
| NativeRxHold.FirstHeld | kernel/ibdev.c:8657-8737 | in every run the first fragment of a message ahead: refused, silently dropped, or held likewise |
| NativeRxHold.ActiveConflict | kernel/ibdev.c:8928-8941 | in every run a fragment under the expected number that is not of the active message ends that message with a protection error, and both are answered with an error |
| NativeRxHold.ActiveRepeatIgnored | kernel/ibdev.c:8974-8991 | in every run a fragment that the active message has already changes nothing |
| NativeRxProgress.AllFragmentsConsume | kernel/ibdev.c:8898-8990 | striped fragments: the expected message is consumed with success if and only if all its fragments came in, in any order and however often |
| NativeRxInOrder.ConsumedExactly | kernel/ibdev.c:8993-9116 | fragments expected in order: the arrivals consume the message if and only if fragment 0 came first and the others in turn, or another came first and all came, through the reorder list |
| NativeRxInOrder.InTurnConsumes | kernel/ibdev.c:8993-9116 | arrivals that contain all fragments in turn consume the message, whatever comes between |
| NativeRxInOrder.DuplicateMatches | kernel/ibdev.c:8019-8035 | a genuine duplicate of a held fragment is always recognised as one |
| Credits.PathCredits.SetCapacity | kernel/path.c:763-799 | the window derived from the peer ring; credits and pending are reset |
| Credits.PathCredits.Add | kernel/path.c:801-834 | credits are added up to the window |
| Credits.PathCredits.Charge | kernel/path.c:2682-2700 | a data packet starts only with the credits it needs, and takes one |
| Credits.PathCredits.Refund | kernel/path.c:2765-2769 | a failed post gives the credit back up to the window |
| Credits.PathCredits.Return | kernel/path.c:852-881 | credits are collected and sent at the threshold, saturating in 32 bits |
| Credits.PathCredits.Restore | kernel/path.c:883-896 | unsent credits are pending again |
| Credits.Conservation | kernel/path.c:763-901 | credits, charged frames not reposted, pending credits and credits under way never exceed the window plus the credited-but-uncharged frames; without those, data fits the window |
| Credits.NoSurplus | kernel/path.c:903-917 | without uncharged frames of a credited opcode there is no surplus |
| Credits.WindowFits | kernel/path.c:763-781 | the window leaves room in the ring, 256 entries in a large one; only a ring of one entry is filled |
| Credits.QuietCredits | proto/native_data.h:74-80 | on a clean run with nothing under way the peer withholds fewer credits than its threshold |
| Credits.NoLeak | kernel/path.c:801-901 | in every run that loses no frame and no credit frame, whatever posts and credit frames fail, all credits of the window are somewhere, and without uncharged credited frames no more than those |
| Credits.Progress | proto/native_data.h:74-93 | every head packet can start whenever a clean run is quiet if and only if the window is 1 or at least 511 |
| Credits.ProgressRings | kernel/path.c:763-781 | the rings with such a window: up to 3 entries, 257, or at least 768; 4096 entries give 3840 |
| NativeControl.NativePeer.Find | kernel/native_control.c:169-205 | the rail that a packet names, if the list has it: rail ids are unique within a peer |
| NativeControl.NativePeer.ApplyRemoteTo | kernel/native_control.c:207-247 | exactly the named rail learns the remote path |
| NativeControl.NativePeer.MarkRemote | kernel/native_control.c:258-302 | exactly the named rail knows its peer ready, with the publication check |
| NativeControl.NativePeer.HandlePacket | kernel/native_control.c:357-490 | HELLO, HELLO_ACK, READY and READY_ACK: the named rail makes its step and no other rail changes; for READY that step is the snapshot, which decides whether it will be answered |
| NativeControl.NativePeer.MarkAfterSnapshot | kernel/native_control.c:405-424 | a handler of READY goes on after its snapshot, whatever happened since: exactly the named rail knows its peer ready |
| NativeControl.NativePeer.AnswerReady | kernel/native_control.c:424-437 | READY_ACK is sent, or not |
| NativeControl.NativePeer.MarkLocalSent | kernel/native_control.c:304-344 | the sent answer is recorded on the named rail alone, with the publication check |
| NativeControl.NativePeer.HelloAnswered | kernel/native_control.c:492-551 | the answer to HELLO changes the rail it names, which may be another one; the work goes on with its own |
| NativeControl.NativePeer.ReadyAnswered | kernel/native_control.c:555-613 | an answer to READY counts only for the rail that asked |
| NativeControl.NativeRail.PublishIfReady | kernel/native_control.c:280-284 | publication when all three conditions hold |
| NativeControl.NativeRail.StartWork | kernel/native_control.c:654-692 | HELLO unless negotiated |
| NativeControl.NativeRail.Enable | kernel/native_control.c:693-735 | the tunnel is enabled only after negotiation |
| NativeControl.NativeRail.CheckReady | kernel/native_control.c:720-735 | the publication check after the tunnel or after READY |
| NativeControl.NativeRail.BeginReady | kernel/native_control.c:739-745 | READY unless it was answered already |
| NativeControl.NativeRail.RequestFailed | kernel/native_control.c:739-752 | a failed READY counts as done on a rail that became ready meanwhile |
| Handshake.Agreement | kernel/native_control.c:357-490 | in every interleaving a data-ready rail implies both tunnels enabled, each towards the real out path of the other; ready and published coincide once no check is due |
| Handshake.LastConditionPublishes | kernel/native_control.c:716-774 | whichever step of a run completes the three conditions publishes, at once or in the check that follows |
| Handshake.AckMeansPeerReady | kernel/native_control.c:395-448 | a READY_ACK means its sender is ready, or has only to record that it answered |
| Handshake.AlwaysConnects | kernel/native_control.c:654-774 | from every reachable state further events make both rails ready for data and published |
| Handshake.FailureHarmless | kernel/native_control.c:739-752 | in every run a failed request leaves the work idle and takes nothing back; a failed READY on a rail made ready meanwhile ends as if answered |
| Handshake.StrayAnswer | kernel/native_control.c:492-551 | in every run a HELLO answered for another rail ends, and the tunnel is enabled next exactly if the own HELLO exchange has happened meanwhile |
| ApplePending.Reassembly | kernel/ibdev.c:6706-6850 | under any exhaustion: the byte count is exact, completions keep send order, every success is one whole message |
| ApplePending.WholeMessageSucceeds | kernel/ibdev.c:6706-6850 | in any run that stands between messages the next message completes with success, whole, when its frames arrive with the limits, buffers and receive it needs |
| ApplePending.WithinLimits | kernel/ibdev.c:6579-6636 | in every run no message takes more memory, and no completion more bytes, than the limit on a message or 16 MiB, and all held together no more than the total limit |
| ApplePending.StrayDropped | kernel/ibdev.c:6706-6760 | with nothing to deliver, a frame that neither begins nor ends a message while none is active, and an empty or oversized one, leave no trace |
| AppleRing.PendingRing.OpenSlot | kernel/ibdev.c:6469-6491 | the active slot, or a fresh one if the ring and the limits allow |
| AppleRing.PendingRing.FinishSlot | kernel/ibdev.c:6493-6507 | the active slot becomes ready and the tail moves on |
| AppleRing.PendingRing.DrainRing | kernel/ibdev.c:6533-6577 | ready slots are delivered in order while receives are posted |
| AppleRing.PendingRing.CopyPiece | kernel/ibdev.c:6579-6636 | bytes are appended within both limits, or the message gets an error status |
| AppleRing.NewCapacity | kernel/ibdev.c:6604-6618 | the doubling loop always reaches the size required |
| AppleRing.PendingRing.RxFrame | kernel/ibdev.c:6706-6850 | one frame: drain, discard and resynchronise, open, copy, finish |
| RailState.RailObj.Admit | kernel/ibdev.c:3037-3098 | admission of a new epoch, lifting a quarantine for a new session of a silent peer |
| RailState.RailObj.BindQp | kernel/ibdev.c:3149-3236 | the new state of the rail and of the queue pair; success means the queue pair owns the rail |
| RailState.RailObj.StillOwns | kernel/ibdev.c:3165-3197 | a queue pair that is bound stays so only in its own epoch and with its remote number |
| RailState.RailObj.UnbindQp | kernel/ibdev.c:3243-3259 | the binding is released without a quiesce |
| RailState.RailObj.BeginQuiesce | kernel/ibdev.c:3477-3497 | the state closes to successors and the owner is chosen |
| RailState.RailObj.CloseForQuiesce | kernel/path.c:3397-3422 | transmission is closed |
| RailState.RailObj.CancelQueued | kernel/path.c:3397-3422 | everything queued is released |
| RailState.RailObj.DrainTx | kernel/path.c:3636-3652 | the drain succeeds exactly when nothing is queued or submitted |
| RailState.RailObj.RingBarrier | kernel/path.c:3821-3863 | the ring stop retires what was submitted; it fails if something is left or the rings do not start again |
| RailState.RailObj.RecordOutcome | kernel/ibdev.c:3567-3599 | the outcome, the release of the owner and whether to reopen |
| RailState.RailObj.Conclude | kernel/path.c:2205-2225 | transmission is reopened if called for |
| RailBind.Isolation | kernel/ibdev.c:3149-3236 | in every run that keeps three rules: all that is queued or submitted is of the current epoch, a new epoch begins only when nothing is held, queued or submitted, and quarantine keeps transmission closed and the queue empty |
| RailBind.RulesExact | kernel/ibdev.c:3477-3599 | the rules are exact: every run that keeps some of them is isolated if and only if they are all three |
| RailBind.StopRuleNeeded | kernel/ibdev.c:10809-10833 | a run of one queue pair: a module exit quiesces the quarantined rail and a thread of epoch 1 queues its packet in epoch 2 |
| RailBind.LiftRuleNeeded | kernel/ibdev.c:3567-3599 | a run of one queue pair: a submitted frame stalls and the barrier quarantines the rail; a quarantine lifted while the next quiesce runs ends quarantined with transmission open |
| RailBind.UnbindRuleNeeded | kernel/ibdev.c:3771-3774 | a run of one queue pair: the unbind after the quiesce of one modify releases the epoch that another modify has bound between |
| RailBind.QuarantineExit | kernel/ibdev.c:3060-3097 | in every run quarantine is left exactly by a bind of a live queue pair with a new session, with as many frames received as at the mark, nothing unretired, the rings running and no error in the last teardown |
| RailBind.PeerSilent | kernel/ibdev.c:3060-3097 | so no frame has come from the peer since the moment that quarantined the rail or, after that, since the last bind refused because of it |
| RailBind.MarkExact | kernel/ibdev.c:3060-3097 | in every run the mark of a quarantined rail is the number of peer frames at the last such moment |
| RailBind.EpochBegins | kernel/ibdev.c:3037-3098 | in every run a new epoch begins exactly by such a bind, or by a bind of an unbound rail, whose peer number if known matches the path; the queue pair then owns the rail |
| RailBind.RemoteLearned | kernel/ibdev.c:3165-3197 | in every run a bind of an owner changes at most the peer number, from unknown to a matching one |
| RailTeardown.RingsExact | kernel/path.c:3821-3863 | in every run the rings are stopped exactly if the last barrier left frames unretired or could not restart them |
| RailTeardown.FailsExactly | kernel/ibdev.c:3500-3566 | in every run a quiesce fails exactly if its barrier leaves frames or does not start the rings again, or references stay held |
| RailTeardown.FinishExact | kernel/ibdev.c:3567-3599 | in every run the outcome of a quiesce: quarantined if it failed or restarted the rings, else unbound, or quarantined as before; the owner is let go and transmission opens only on an unbound rail after a plain drain |
| RailTeardown.ErrorKept | kernel/ibdev.c:3567-3599 | in every run only that section changes the remembered error |
| RailTeardown.EnqueueExact | kernel/path.c:2386-2414 | in every run a thread takes hold of the path exactly if its queue pair owns the rail in its epoch; what it enqueues is dropped exactly while transmission is closed |
| RailBind.DestroyEndsUnbound | kernel/ibdev.c:2873-2883 | in every run that keeps the rules a queue pair whose destroy has quiesced the rail no longer owns it, so the unbind that follows changes nothing |
| SendList.SendCtx.GiveStatus | kernel/ibdev.c:1625-1632 | the first status of a context sticks |
| SendList.SendCtx.CountRetry | kernel/ibdev.c:4660-4690 | the counters and flags after posting a retry |
| SendList.OneChanged | kernel/ibdev.c:610-656 | a change of one context changes its place among all that were posted, and no other |
| SendList.SendQp.Post | kernel/ibdev.c:1434-1493 | a slot is taken and a new context joins the end of the list, or nothing changes |
| SendList.SendQp.ReleaseSlot | kernel/ibdev.c:1459-1478 | a slot is given back once |
| SendList.SendQp.TakeOff | kernel/ibdev.c:1570-1590 | a context leaves the list and gives its slot back |
| SendList.SendQp.Unqueue | kernel/ibdev.c:1570-1590 | a pending context is found in the list and withdrawn with its slot |
| SendList.SendQp.DrainReady | kernel/ibdev.c:1592-1608 | the ready prefix of the list moves to the list to complete |
| SendList.SendQp.CompleteSend | kernel/ibdev.c:1610-1645 | the first pending context with the PSN gets its first status and the list drains |
| SendList.SendQp.NoteRnrAck | kernel/ibdev.c:1711-1757 | RNR waits, or fails the send when the budget is spent |
| SendList.SendQp.ReapAt | kernel/ibdev.c:4310-4436 | an expired send is retried, waits for its frames or its full time, or fails |
| SendList.SendQp.AfterRetry | kernel/ibdev.c:4639-4707 | what posting a retry leaves: counted, tried again later, or failed |
| SendList.SendQp.TxDrainedAt | kernel/ibdev.c:4175-4196 | a reliable send whose last frame left may be retried again |
| SendList.SendQp.FlushAll | kernel/ibdev.c:1858-1888 | everything pending leaves the list in its order |
| SendList.SendQp.EnterError | kernel/ibdev.c:1858-1876 | on error every pending send leaves the list as canceled, unless it has a status |
| SendList.SendQp.ExpireReadAt | kernel/ibdev.c:4437-4446 | a pending read that timed out leaves the list by itself |
| SendList.SendQp.Complete | kernel/ibdev.c:3929-3989 | the completed flag lets one completion through |
| SendQueue.SlotsExact | kernel/ibdev.c:1434-1478 | in every run each accepted send and read is in exactly one place and completes at most once; the slots in use are those of the pending ones, within max_send_wr |
| SendQueue.InPostOrder | kernel/ibdev.c:1592-1645 | in every run, entry into ERR and flushes included: completions leave in post order with none skipped if and only if each send was finished while it was the first of those that had left the list |
| SendQueue.Breaks | kernel/ibdev.c:4720-4759 | finishing any other send skips the first |
| SendQueue.CallsInPostOrder | kernel/ibdev.c:1610-1645 | when each locked section completes what it took off the list before the next begins, completions leave in post order with none skipped, and the accepted sends are those completed followed by those pending |
| SendQueue.ErrorBreaksOrder | kernel/ibdev.c:4720-4759 | the time-out path does so: a flushed later send completes before the timed-out one |
| SendStatus.PostExact | kernel/ibdev.c:1434-1457 | in every run a post is accepted exactly without error and with a slot free; the context joins the end without a status, with the next PSN |
| SendStatus.StatusExact | kernel/ibdev.c:1610-1645 | in every run a send has a status exactly if an event settled it, and it is the status of the first such event: its acknowledgement, a failed transmission, EAGAIN, ETIMEDOUT or the flush |
| SendStatus.CompletesAsSettled | kernel/ibdev.c:1592-1645 | in every run a send completes with that status and no other, so with success only after an OK acknowledgement or transmission for its PSN while it was pending; it stays pending only behind one, or as one, that nothing settled |
| SendStatus.PsnKept | kernel/ibdev.c:1434-1457 | a send keeps the PSN with which it was posted |
| SendStatus.RetriesExact | kernel/ibdev.c:4639-4707 | in every run the retry counters are the retries posted, up to 255 |
| SendStatus.NotReadyRetried | kernel/ibdev.c:1711-1757 | in every run a send answered RNR with budget left is retried when its timer runs out |
| SendStatus.TimeOutRetried | kernel/ibdev.c:4310-4436 | a send not answered, with budget left, is retried when its timer runs out |
| SendStatus.RetriedAgain | kernel/ibdev.c:4175-4196 | a send whose frames have left, or whose retry could not be posted for now, is retried again when its timer runs out, while it has budget |
| SendStatus.ErrorEndsRetry | kernel/ibdev.c:4639-4707 | on a queue pair in error no retry is posted and the send fails when its timer runs out |
| SendStatus.ReadCompletesAsSettled | kernel/ibdev.c:3929-3989 | in every run a read completes with the status of an event that gave it one while pending: its response, its time-out or the flush |
| SendStatus.ReadTimesOut | kernel/ibdev.c:4437-4446 | an expired read leaves the list at once with its slot and completes with ETIMEDOUT |
| PathQueue.TxPath.SendControlFrame | kernel/path.c:2329-2384 | a control packet is queued while transmission is admitted |
| PathQueue.TxPath.SendDataFrame | kernel/path.c:2386-2414 | a data packet is queued against a reservation or the limit |
| PathQueue.TxPath.SendList | kernel/path.c:2416-2491 | a list is queued whole or not at all |
| PathQueue.TxPath.ReserveData | kernel/path.c:2493-2517 | frames are reserved within the queue limit, or nothing changes |
| PathQueue.TxPath.ReleaseReserved | kernel/path.c:2519-2533 | reserved frames are given back |
| PathQueue.TxPath.ChooseQueue | kernel/path.c:2616-2647 | a raw stream keeps the scheduler to its own payload; otherwise control goes first |
| PathQueue.TxPath.MayTake | kernel/path.c:2649-2697 | the in-flight limit, free frames, the control reserve and the credits |
| PathQueue.TxPath.TakePacket | kernel/path.c:2600-2720 | the locked section that takes the next packet: its credit, its place in the raw stream and, unless it is zero-copy, the first free frame |
| PathQueue.TxPath.TakeFrame | kernel/path.c:2714-2721 | the first frame of the free list goes to the scheduler; every frame still has one owner |
| PathQueue.TxPath.Attach | kernel/path.c:2723-2736 | the packet is put into its frame or on the zero-copy list; nothing else changes |
| PathQueue.TxPath.Accepted | kernel/path.c:2731-2751 | the ring accepted the frame: it is submitted, with its packet |
| PathQueue.TxPath.Refused | kernel/path.c:2753-2866 | the ring refused: fields are put back and the packet is requeued or released |
| PathQueue.TxPath.Unload | kernel/path.c:2822-2831 | a refused packet leaves its frame, which is free again, or the zero-copy list |
| PathQueue.TxPath.CountStream | kernel/path.c:933-947 | a packet is counted in the raw stream |
| PathQueue.TxPath.FinishStream | kernel/path.c:949-978 | a raw stream ends when its end was seen and nothing of it is in flight |
| PathQueue.TxPath.FreeFrame | kernel/path.c:1327-1345 | a submitted frame gives up its packet and joins the free list; the others keep theirs |
| PathQueue.TxPath.StagedComplete | kernel/path.c:1315-1377 | a staged frame is freed and its packet released |
| PathQueue.TxPath.ZcopyComplete | kernel/path.c:1497-1531 | a zero-copy packet is released |
| PathQueue.TxPath.CancelQueuedMatching | kernel/path.c:3341-3354 | the packets of the owner leave the data queue and its counter stays its length |
| PathQueue.TxPath.MarkSubmitted | kernel/path.c:3355-3367 | the walk over the frame array and the zero-copy list marks exactly the packets of the owner that are submitted or attached |
| PathQueue.TxPath.CancelContext | kernel/path.c:3320-3378 | queued packets of the owner leave, submitted ones are marked |
| PathQueue.TxPath.Retired | kernel/path.c:3433-3445 | the counter and the two queues tell exactly whether a packet is left on the path |
| PathQueue.MarkedOwned | kernel/path.c:3355-3367 | marking changes no owner of a frame and marks the submitted packets in their order |
| PathQueue.TxPath.CancelEverything | kernel/path.c:3397-3417 | both queues are emptied for release, reservations and the raw stream are dropped |
| PathQueue.TxPath.RunDone | kernel/path.c:565-618 | a released packet runs its done callback |
| PathOwnership.Ownership | kernel/path.c:2581-2868 | in every run each accepted packet is in exactly one place, done runs at most once and once in the end; free, staged and in-hand frames total the frame count; data leaves the control reserve |
| PathOwnership.BarrierFreesAll | kernel/path.c:3821-3863 | after any run with nothing in hand, any callbacks the ring stop can run, once as many as packets were submitted, leave every frame free, nothing in flight, and every accepted packet queued, due for release or released, those of the barrier as canceled |
| PathGate.TakesExactly | kernel/path.c:2600-2720 | in every run exactly when a packet is taken and which: a control packet needs a frame; a data packet needs room below the in-flight limit and the control reserve, a frame unless zero-copy and, on a path with credits, at least one credit and the lesser of its group and the return threshold, of which it takes one |
| PathGate.RefusalUndone | kernel/path.c:2753-2866 | in every run a packet taken and refused for lack of memory leaves queues, frames, credits and raw stream as before; refused otherwise it is released with the error |
| PathGate.CreditsBound | kernel/path.c:2680-2700 | in every run with a credit window: credits held, with data packets in hand and accepted by the ring, never exceed the window and the credits that came |
| PathOrder.FirstInFirstOut | kernel/path.c:2600-2868 | in every run, failed posts, cancellations and raw streams included: control packets, and data packets, are on the wire in the order they were accepted |
| PathCancel.CanceledNeverSucceeds | kernel/path.c:3320-3378 | in every run a data packet that a cancellation reached, queued, submitted or attached, is never released with success, whatever happens later |
| PathCancel.CompletionExact | kernel/path.c:1315-1377 | in every run without cancellations of a context a completed frame releases its packet with success, one the ring cancels with ECANCELED, and no other packet moves |
| PathCancel.CancelEndsStream | kernel/path.c:3334-3342 | in every run canceling the owner of the stream on the wire, or everything, ends the stream: the scheduler takes the waiting control packet next |
| PathCancel.StreamMoves | kernel/path.c:949-978 | a completion moves the stream on the wire exactly if its packet is counted in it; the stream ends with its last frame once its end was seen |
| PathCancel.QueueBound | kernel/path.c:2386-2491 | in every run queued and reserved data with the packet in hand exceed the limit by at most one |
| PathCancel.AcceptsExactly | kernel/path.c:2329-2491 | packets join the end of their queue exactly when the path is open and, for data, a reservation or room for all of them is left; otherwise nothing changes |
| PathCancel.ReservationsExact | kernel/path.c:2493-2533 | reservations are made while there is room, used by sends, given back up to what is reserved, and dropped when everything is canceled |
| Lockstep.StreamsStayWhole | kernel/path.c:2616-2647 | without cancellation and failed posts no other packet comes between a stream header and the end of its payload, and a stream is active only while some of it is to be handed out or has not completed |
| RawStream.RawReceiver.Begin | kernel/path.c:1436-1450 | a stream header sets up the receiver |
| RawStream.RawReceiver.Take | kernel/path.c:1452-1495 | a raw payload becomes one fragment, or ends the stream as bad |
| RawStream.RawReceiver.Receive | kernel/path.c:1533-1620 | a frame during a stream is payload whatever it is |
| RawStream.StreamsTile | proto/native_data.h:173-198 | the receiver sees no bad frame and its fragments tile each stream in order, LAST only on the final one |
| RawStream.BadPayloadEnds | kernel/path.c:1452-1495 | a frame that cannot be payload of the stream ends it, is counted as bad and emits nothing; the next good header starts a new stream |
| AppleTx.FrameCharge | proto/apple_tx.h:14-21 | the charge is the message in frames, at most the group |
| AppleTx.TxWindow.TryAcquire | kernel/ibdev.c:7181-7221 | the counters move by the charge exactly if the window admits the send |
| AppleTx.TxWindow.ReleaseWindow | kernel/ibdev.c:3917-3927 | the counters give the charge back |
| AppleTx.TxBound | kernel/ibdev.c:7472-7523 | posted and unfinished frames never exceed the charged ones, nor these the budget; without pipelining one send is outstanding |
| AppleTx.AcquiresExactly | kernel/ibdev.c:7181-7221 | in every run a send gets the window exactly if its charge fits the budget beside those outstanding and the send limit, or without pipelining if nothing is outstanding; otherwise nothing changes |
| AppleTx.JobProgress | kernel/ibdev.c:7472-7523 | in every run the next frame of a send is posted unless its group is full and unfinished; the oldest send gives the window back when all its frames have finished |
| AppleTx.IdleAdmits | proto/apple_tx.h:35-55 | an idle window admits a send if and only if its charge fits the budget and the send limit, where consulted, is not negative as a signed number |
| AppleTx.IdleRunAdmits | kernel/ibdev.c:7181-7221 | whenever nothing is outstanding in a run the next send of a group within the budget acquires the window |

## Left out

- ReliabilityNet.EndToEnd: operation ids are never reused, as the design requires of its callers; frames of the reliability core carry no payload bytes.
- ReliabilityNet.FirstPassCompletes: one operation at a time; that the network delivers the frames of the pass and its acknowledgement is the hypothesis. ReliabilityNet.TimeOutRecovers and ReliabilityNet.NotReadyRecovers likewise.
- ReadResponse.ReadCtx.Response: memory is a byte range that is always writable; the failure of a copy into user memory is not modelled, nor is a read that was already removed.
- NativeRxQp.RxQp.HandleFragment: RDMA_WRITE and RDMA_READ_REQ entries of the reorder list, and the flush when the queue pair closes or enters ERR, are not modelled; a copy fails exactly when it reaches beyond the part of the buffer that is mapped.
- NativeRxInOrder.ConsumedExactly: only frames of the expected message arrive in between, the memory for them is found, and none expires; NativeRxProgress.AllFragmentsConsume likewise.
- AckHistory.History.Lookup: RDMA_READ requests, which advance the expected PSN without recording a status, are not modelled.
- Credits.Conservation: a HELLO that arrives after data has flowed resets the window and is not modelled.
- Handshake.Agreement: the snapshot of a HELLO packet, which reads only constants, is one step with the section that follows it; attempt limits only stop retries and are left out, so every retry is possible at any time; removal of a rail and disabling of a tunnel are not modelled.
- RailBind.Isolation: a packet is never requeued after a failed ring post once transmission is closed; the Apple tunnel reference count and the contents of refused-bind counters are left out.
- SendQueue.InPostOrder: which thread finishes a send when is left open, so the condition is on the runs; the local-drain completion of unreliable queue pairs is left out.
- SendList.SendQp.ReapAt: one pending send at a time; the source walks the list while a drain may take the entry it would visit next off it. A pending read is an object of the same class as a send, of which it uses the fields of struct tbv_read_ctx.
- NativeControl.NativePeer.HandlePacket: the rails of one peer whose rings run; the choice of the peer by the source of the packet, and the snapshot of the local paths in the answer, are left out.
- PathQueue.TxPath.TakePacket: packets are values that move between the queues, the frames and the zero-copy list; the DMA fields of a frame are left out.
- PathOwnership.Ownership: packet pools, DMA mapping and the stall watchdog are left out; a completion frees its frame, updates the stream and hands its packet to release in one step.
- PathCancel.CompletionExact: runs without cancellation of a context, after which a completion reports ECANCELED for the packets it marked; PathCancel.CanceledNeverSucceeds is about those.
- Lockstep.StreamsStayWhole: runs without cancellation and without a failed post, as a failed post restores the stream fields of an earlier moment.
- ApplePending.Reassembly: runs without a flush on error, on a rail that stays bound; the raw receive mode is always off in the source and its CRC trailer is not modelled.
- ApplePending.WholeMessageSucceeds: the message comes while nothing waits for a receive, its frames one after the other.
- PathCancel.CanceledNeverSucceeds: the errors of failed posts and of a cancellation of everything are not 0, as error numbers are.
- AppleTx.TxBound: frame mode, fixed parameters and no error completion.
- HELLO message encoding and parsing: field copies of the same kind as the data header.
- NHI registers, interrupt throttling, DMA mapping, ring start and stop timing: hardware.
- Verbs registration, memory pinning, address handles, network device and configuration glue: kernel plumbing.
- Debugfs, tracing and counters: diagnostics only.
