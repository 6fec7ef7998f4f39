/** Reassembly of Apple messages into the ring of pending slots of a queue pair (kernel/ibdev.c), in
    frame mode. Frames carry no message number: a message number is there only for the statements. */
module ApplePending {
  import opened Prelude
  import opened Lists
  import opened RecvWqe
  import Segments

  const FRAME_SIZE: nat := 4096
  const MAX_APPLE_MSG: nat := 0x100_0000
  const FRAME_END: u8 := 3

  /** struct tbv_apple_pending_rx. */
  datatype Pend = Pend(n: nat, data: seq<u8>, status: WcStatus)

  datatype Done = Done(n: nat, wqe: Wqe, status: WcStatus, byteLen: nat)

  /** `slots` is the length of the ring; `ready` the finished messages in order; `room` the free entries of
      the completion queue. */
  datatype Apple = Apple(slots: nat, ready: seq<Pend>, active: Option<Pend>, discard: bool, bytes: nat,
                         recvq: seq<Wqe>, room: nat, overflowed: bool, done: seq<Done>)

  /** The module parameters at the time of a frame, and whether the buffer for its bytes can be had. */
  datatype Env = Env(limit: u32, totalLimit: u32, fits: bool)

  datatype Frame = Frame(msgNo: nat, data: seq<u8>, sof: bool, eof: u8)

  // ---------------------------------------------------------------- specification

  /** tbv_apple_rx_copy_piece_to_buf: the bytes are appended, or the message gets an error status. */
  function Piece(p: Pend, bytes: nat, data: seq<u8>, env: Env): (r: (Pend, nat)) {
    var limit := if env.limit < MAX_APPLE_MSG then env.limit else MAX_APPLE_MSG;
    if limit == 0 || |p.data| + |data| > limit then (p.(status := LenErr), bytes)
    else if env.totalLimit == 0 || bytes + |data| > env.totalLimit then (p.(status := LenErr), bytes)
    else if !env.fits then (p.(status := ProtErr), bytes)
    else (p.(data := p.data + data), bytes + |data|)
  }

  /** One turn of tbv_apple_rx_drain_pending_locked. */
  function DeliverHead(a: Apple): Apple
    requires a.ready != [] && a.recvq != []
  {
    var p, w := a.ready[0], a.recvq[0];
    var (v, delivered, ok) := CopyToWqe(w, 0, if |p.data| < |w.buf| then p.data else p.data[..|w.buf|]);
    var status := if !ok then ProtErr else if |p.data| > |w.buf| then LenErr else p.status;
    var pushed := !a.overflowed && a.room > 0;
    a.(ready := a.ready[1..], recvq := a.recvq[1..],
       bytes := if a.bytes >= |p.data| then a.bytes - |p.data| else 0,
       done := if pushed then a.done + [Done(p.n, v, status, delivered)] else a.done,
       room := if pushed then a.room - 1 else a.room,
       overflowed := !pushed)
  }

  /** tbv_apple_rx_drain_pending_locked. */
  function Drain(a: Apple): Apple
    decreases |a.ready|
  {
    if a.ready == [] || a.recvq == [] then a else Drain(DeliverHead(a))
  }

  /** tbv_apple_pending_active_locked: there is an active message, or one can be opened. */
  predicate CanOpen(a: Apple, env: Env) {
    a.active.Some? || (|a.ready| < a.slots && env.limit > 0 && env.totalLimit > 0)
  }

  function Opened(a: Apple, msgNo: nat): Pend {
    if a.active.Some? then a.active.value else Pend(msgNo, [], Success)
  }

  function Filled(a: Apple, f: Frame, env: Env): Apple {
    var (p, bytes) := Piece(Opened(a, f.msgNo), a.bytes, f.data, env);
    a.(active := Some(p), bytes := bytes)
  }

  /** tbv_apple_pending_finish_locked. */
  function Finished(a: Apple): Apple {
    if a.active.None? then a else a.(ready := a.ready + [a.active.value], active := None)
  }

  /** tbv_ibdev_rx_apple_frame after the drain at its start. */
  function Accept(a: Apple, f: Frame, env: Env): Apple {
    if a.discard then a.(discard := f.eof != FRAME_END)
    else if a.active.None? && !f.sof && f.eof != FRAME_END then a
    else if !CanOpen(a, env) then a.(discard := f.eof != FRAME_END)
    else if f.eof == FRAME_END then Drain(Finished(Filled(a, f, env)))
    else Filled(a, f, env)
  }

  function OnFrame(a: Apple, f: Frame, env: Env): Apple {
    if f.data == [] || |f.data| > FRAME_SIZE then a else Accept(Drain(a), f, env)
  }

  // ---------------------------------------------------------------- a sender

  /** Each message is cut into at least one frame, none empty. */
  ghost predicate Framed(msgs: seq<seq<seq<u8>>>) {
    forall n :: 0 <= n < |msgs| ==> |msgs[n]| > 0 && forall i :: 0 <= i < |msgs[n]| ==> 0 < |msgs[n][i]| <= FRAME_SIZE
  }

  /** The receiver, and the next frame on the wire: frame j of message k. */
  datatype World = World(rx: Apple, k: nat, j: nat)

  /** The next frame arrives: it is marked as a start if it is the first (a message of one frame need not
      be), and as the end exactly if it is the last. */
  datatype Event =
    | Arrives(sof: bool, eof: u8, env: Env)
    | PostRecv(wqe: Wqe)
    | Poll

  predicate Marked(msgs: seq<seq<seq<u8>>>, k: nat, j: nat, sof: bool, eof: u8) {
    && k < |msgs| && j < |msgs[k]|
    && (eof == FRAME_END <==> j == |msgs[k]| - 1)
    && (sof ==> j == 0) && (j == 0 && |msgs[k]| > 1 ==> sof)
  }

  function Step(s: World, e: Event, msgs: seq<seq<seq<u8>>>): World {
    match e
    case Arrives(sof, eof, env) =>
      if !Marked(msgs, s.k, s.j, sof, eof) then s
      else
        var rx := OnFrame(s.rx, Frame(s.k, msgs[s.k][s.j], sof, eof), env);
        if eof == FRAME_END then World(rx, s.k + 1, 0) else World(rx, s.k, s.j + 1)
    case PostRecv(w) => s.(rx := s.rx.(recvq := s.rx.recvq + [w]))
    case Poll => s.(rx := s.rx.(room := s.rx.room + 1))
  }

  function Start(slots: nat, room: nat): World {
    World(Apple(slots, [], None, false, 0, [], room, false, []), 0, 0)
  }

  function Run(s: World, events: seq<Event>, msgs: seq<seq<seq<u8>>>): World {
    if events == [] then s else Step(Run(s, events[..|events| - 1], msgs), events[|events| - 1], msgs)
  }

  // ---------------------------------------------------------------- invariant

  function DataLen(p: Pend): nat { |p.data| }

  /** The bytes held in the slots. */
  function HeldBytes(ready: seq<Pend>, active: Option<Pend>): nat {
    Weigh(ready, DataLen) + if active.Some? then |active.value.data| else 0
  }

  ghost predicate PendTrue(p: Pend, msgs: seq<seq<seq<u8>>>, k: nat) {
    p.n < k <= |msgs| && (p.status == Success ==> p.data == Segments.Concat(msgs[p.n]))
  }

  /** A successful completion is one whole message. */
  ghost predicate Exact(d: Done, msg: seq<seq<u8>>) {
    d.byteLen == |Segments.Concat(msg)| <= |d.wqe.buf| && d.wqe.buf[..d.byteLen] == Segments.Concat(msg)
  }

  ghost predicate DoneTrue(d: Done, msgs: seq<seq<seq<u8>>>, k: nat) {
    d.n < k <= |msgs| && (d.status == Success ==> Exact(d, msgs[d.n]))
  }

  /** Finished messages, completed or waiting, are in send order. */
  ghost predicate InOrder(done: seq<Done>, ready: seq<Pend>) {
    && (forall i, j :: 0 <= i < j < |done| ==> done[i].n < done[j].n)
    && (forall i, j :: 0 <= i < j < |ready| ==> ready[i].n < ready[j].n)
    && (forall i, j :: 0 <= i < |done| && 0 <= j < |ready| ==> done[i].n < ready[j].n)
  }

  ghost predicate Queued(done: seq<Done>, ready: seq<Pend>, msgs: seq<seq<seq<u8>>>, k: nat) {
    && InOrder(done, ready)
    && (forall i :: 0 <= i < |ready| ==> PendTrue(ready[i], msgs, k))
    && (forall i :: 0 <= i < |done| ==> DoneTrue(done[i], msgs, k))
  }

  /** The active message has every frame of message k so far, unless it has failed; between messages
      nothing is active; in the middle of a message either it is active or its rest is discarded. */
  ghost predicate AtFrame(a: Apple, msgs: seq<seq<seq<u8>>>, k: nat, j: nat) {
    && k <= |msgs| && (j > 0 ==> k < |msgs| && j < |msgs[k]|)
    && (a.active.Some? <==> j > 0 && !a.discard)
    && (a.discard ==> j > 0)
    && (a.active.Some? ==>
          a.active.value.n == k
          && (a.active.value.status == Success ==> a.active.value.data == Segments.Concat(msgs[k][..j])))
  }

  ghost predicate Counted(a: Apple) {
    && a.bytes == HeldBytes(a.ready, a.active)
    && |a.ready| <= a.slots && (a.active.Some? ==> |a.ready| < a.slots)
  }

  ghost predicate Inv(s: World, msgs: seq<seq<seq<u8>>>) {
    && Counted(s.rx) && Queued(s.rx.done, s.rx.ready, msgs, s.k) && AtFrame(s.rx, msgs, s.k, s.j)
  }

  lemma WeighHead(ready: seq<Pend>)
    requires ready != []
    ensures Weigh(ready, DataLen) == |ready[0].data| + Weigh(ready[1..], DataLen)
  {
    WeighWithout(ready, 0, DataLen);
    assert Without(ready, 0) == ready[1..];
  }

  /** Delivering a whole message successfully. */
  lemma DeliveredWhole(a: Apple, msgs: seq<seq<seq<u8>>>, k: nat)
    requires a.ready != [] && a.recvq != [] && PendTrue(a.ready[0], msgs, k)
    ensures var d := DeliverHead(a).done;
            |d| > |a.done| ==> DoneTrue(d[|a.done|], msgs, k) && d[|a.done|].n == a.ready[0].n
    ensures |DeliverHead(a).done| <= |a.done| + 1 && a.done <= DeliverHead(a).done
  {
    var p, w := a.ready[0], a.recvq[0];
    var piece := if |p.data| < |w.buf| then p.data else p.data[..|w.buf|];
    var (v, delivered, ok) := CopyToWqe(w, 0, piece);
    if ok && |p.data| <= |w.buf| {
      assert piece == p.data;
      assert v.buf[..|p.data|] == p.data;
    }
  }

  lemma DeliverKeeps(a: Apple, msgs: seq<seq<seq<u8>>>, k: nat, j: nat)
    requires Counted(a) && Queued(a.done, a.ready, msgs, k) && AtFrame(a, msgs, k, j)
    requires a.ready != [] && a.recvq != []
    ensures var b := DeliverHead(a); Counted(b) && Queued(b.done, b.ready, msgs, k) && AtFrame(b, msgs, k, j)
  {
    hide Segments.Concat;
    hide Weigh;
    hide Exact;
    var b := DeliverHead(a);
    WeighHead(a.ready);
    assert PendTrue(a.ready[0], msgs, k);
    DeliveredWhole(a, msgs, k);
    assert forall i :: 0 <= i < |b.ready| ==> b.ready[i] == a.ready[i + 1];
  }

  lemma {:induction false} DrainKeeps(a: Apple, msgs: seq<seq<seq<u8>>>, k: nat, j: nat)
    requires Counted(a) && Queued(a.done, a.ready, msgs, k) && AtFrame(a, msgs, k, j)
    ensures var b := Drain(a); Counted(b) && Queued(b.done, b.ready, msgs, k) && AtFrame(b, msgs, k, j)
    decreases |a.ready|
  {
    if a.ready != [] && a.recvq != [] {
      DeliverKeeps(a, msgs, k, j);
      DrainKeeps(DeliverHead(a), msgs, k, j);
    }
  }

  lemma ConcatNext(msg: seq<seq<u8>>, j: nat)
    requires j < |msg|
    ensures Segments.Concat(msg[..j + 1]) == Segments.Concat(msg[..j]) + msg[j]
    ensures j == |msg| - 1 ==> msg[..j + 1] == msg
  {
    assert msg[..j + 1][..j] == msg[..j];
  }

  lemma FilledKeeps(a: Apple, f: Frame, env: Env, msgs: seq<seq<seq<u8>>>, k: nat, j: nat)
    requires Counted(a) && AtFrame(a, msgs, k, j) && Marked(msgs, k, j, f.sof, f.eof) && !a.discard
    requires f.msgNo == k && f.data == msgs[k][j] && CanOpen(a, env)
    ensures var b := Filled(a, f, env);
            && Counted(b) && b.active.Some? && b.active.value.n == k
            && (b.active.value.status == Success ==> b.active.value.data == Segments.Concat(msgs[k][..j + 1]))
  {
    hide Weigh;
    ConcatNext(msgs[k], j);
    assert msgs[k][..0] == [];
  }

  lemma FinishKeeps(a: Apple, msgs: seq<seq<seq<u8>>>, k: nat)
    requires Counted(a) && Queued(a.done, a.ready, msgs, k) && a.active.Some? && a.active.value.n == k < |msgs|
             && !a.discard
    requires a.active.value.status == Success ==> a.active.value.data == Segments.Concat(msgs[k])
    ensures var b := Finished(a); Counted(b) && Queued(b.done, b.ready, msgs, k + 1) && AtFrame(b, msgs, k + 1, 0)
  {
    hide Weigh;
    hide Segments.Concat;
    hide Exact;
    var b := Finished(a);
    WeighOne(a.ready, a.active.value, DataLen);
    forall i | 0 <= i < |b.ready| ensures PendTrue(b.ready[i], msgs, k + 1) {
      if i < |a.ready| {
        assert PendTrue(a.ready[i], msgs, k);
      }
    }
    forall i | 0 <= i < |b.done| ensures DoneTrue(b.done[i], msgs, k + 1) {
      assert DoneTrue(a.done[i], msgs, k);
    }
  }

  lemma QueuedLater(done: seq<Done>, ready: seq<Pend>, msgs: seq<seq<seq<u8>>>, k: nat)
    requires Queued(done, ready, msgs, k) && k < |msgs|
    ensures Queued(done, ready, msgs, k + 1)
  {
    hide Exact;
    forall i | 0 <= i < |ready| ensures PendTrue(ready[i], msgs, k + 1) {
      assert PendTrue(ready[i], msgs, k);
    }
    forall i | 0 <= i < |done| ensures DoneTrue(done[i], msgs, k + 1) {
      assert DoneTrue(done[i], msgs, k);
    }
  }

  lemma ArriveKeeps(s: World, sof: bool, eof: u8, env: Env, msgs: seq<seq<seq<u8>>>)
    requires Framed(msgs) && Inv(s, msgs) && Marked(msgs, s.k, s.j, sof, eof)
    ensures Inv(Step(s, Arrives(sof, eof, env), msgs), msgs)
  {
    hide Drain;
    hide Queued;
    hide Weigh;
    hide Segments.Concat;
    hide Filled;
    hide Finished;
    var f := Frame(s.k, msgs[s.k][s.j], sof, eof);
    var a := Drain(s.rx);
    DrainKeeps(s.rx, msgs, s.k, s.j);
    QueuedLater(a.done, a.ready, msgs, s.k);
    if !a.discard && CanOpen(a, env) {
      FilledKeeps(a, f, env, msgs, s.k, s.j);
      FilledFrame(a, f, env);
      if eof == FRAME_END {
        ConcatNext(msgs[s.k], s.j);
        FinishKeeps(Filled(a, f, env), msgs, s.k);
        DrainKeeps(Finished(Filled(a, f, env)), msgs, s.k + 1, 0);
      }
    }
  }

  lemma FilledFrame(a: Apple, f: Frame, env: Env)
    ensures var b := Filled(a, f, env); b.ready == a.ready && b.done == a.done && b.discard == a.discard
  {
  }

  /** Under any exhaustion of slots or bytes: the byte count is exact, completions keep send order, and
      every successful completion is one whole sent message. */
  lemma {:induction false} Reassembly(slots: nat, room: nat, events: seq<Event>, msgs: seq<seq<seq<u8>>>)
    requires Framed(msgs)
    ensures var s := Run(Start(slots, room), events, msgs);
            && Inv(s, msgs)
            && s.rx.bytes == HeldBytes(s.rx.ready, s.rx.active)
            && (forall i, j :: 0 <= i < j < |s.rx.done| ==> s.rx.done[i].n < s.rx.done[j].n)
            && (forall i :: 0 <= i < |s.rx.done| && s.rx.done[i].status == Success ==>
                  s.rx.done[i].n < |msgs| && Exact(s.rx.done[i], msgs[s.rx.done[i].n]))
  {
    hide Exact;
    if events != [] {
      var prefix, e := events[..|events| - 1], events[|events| - 1];
      Reassembly(slots, room, prefix, msgs);
      var s := Run(Start(slots, room), prefix, msgs);
      if e.Arrives? && Marked(msgs, s.k, s.j, e.sof, e.eof) {
        ArriveKeeps(s, e.sof, e.eof, e.env, msgs);
      }
    }
    var s := Run(Start(slots, room), events, msgs);
    assert forall i :: 0 <= i < |s.rx.done| ==> DoneTrue(s.rx.done[i], msgs, s.k);
  }

  // ---------------------------------------------------------------- progress

  /** The next receive can take the message, and its completion. */
  predicate Suffices(rx: Apple, msg: seq<u8>) {
    && rx.recvq != [] && |msg| <= |rx.recvq[0].buf| && |msg| <= rx.recvq[0].reach
    && rx.room > 0 && !rx.overflowed && rx.slots > 0
  }

  /** Between messages, with nothing waiting for a receive. */
  predicate Between(s: World) {
    s.j == 0 && s.rx.ready == [] && s.rx.active.None? && !s.rx.discard && s.rx.bytes == 0
  }

  /** The frames of message k arrive one after the other, none missing, with the limits and buffers it needs. */
  ghost predicate Whole(msgs: seq<seq<seq<u8>>>, k: nat, arrivals: seq<Event>, count: nat) {
    && k < |msgs| && |arrivals| == count <= |msgs[k]| && |Segments.Concat(msgs[k])| <= MAX_APPLE_MSG
    && forall j :: 0 <= j < |arrivals| ==>
         && arrivals[j].Arrives? && Marked(msgs, k, j, arrivals[j].sof, arrivals[j].eof)
         && |Segments.Concat(msgs[k])| <= arrivals[j].env.limit
         && |Segments.Concat(msgs[k])| <= arrivals[j].env.totalLimit
         && arrivals[j].env.fits
  }

  /** Its first j frames have come. */
  ghost predicate Midway(s: World, t: World, msgs: seq<seq<seq<u8>>>, j: nat) {
    && t.k == s.k && t.j == j && t.k < |msgs| && 0 < j < |msgs[t.k]|
    && t.rx == s.rx.(active := Some(Pend(s.k, Segments.Concat(msgs[s.k][..j]), Success)),
                     bytes := |Segments.Concat(msgs[s.k][..j])|)
  }

  lemma {:induction false} ConcatLess(msg: seq<seq<u8>>, j: nat)
    requires j <= |msg|
    ensures |Segments.Concat(msg[..j])| <= |Segments.Concat(msg)|
    decreases |msg| - j
  {
    if j < |msg| {
      ConcatNext(msg, j);
      ConcatLess(msg, j + 1);
    } else {
      assert msg[..j] == msg;
    }
  }

  /** The completion of message k: a success that holds all of it. */
  ghost predicate Completed(s: World, t: World, msgs: seq<seq<seq<u8>>>) {
    && s.k < |msgs| && t.k == s.k + 1 && Between(t) && |t.rx.done| == |s.rx.done| + 1 && s.rx.recvq != []
    && t.rx.done[..|s.rx.done|] == s.rx.done && t.rx.recvq == s.rx.recvq[1..]
    && var d := t.rx.done[|s.rx.done|]; d.n == s.k && d.status == Success && Exact(d, msgs[s.k])
  }

  lemma TakeFrame(s: World, t: World, msgs: seq<seq<seq<u8>>>, e: Event, j: nat)
    requires Framed(msgs) && Between(s) && s.k < |msgs| && Suffices(s.rx, Segments.Concat(msgs[s.k]))
    requires if j == 0 then t == s else Midway(s, t, msgs, j)
    requires e.Arrives? && Marked(msgs, s.k, j, e.sof, e.eof) && e.env.fits
    requires |Segments.Concat(msgs[s.k])| <= MAX_APPLE_MSG
    requires |Segments.Concat(msgs[s.k])| <= e.env.limit && |Segments.Concat(msgs[s.k])| <= e.env.totalLimit
    ensures var u := Step(t, e, msgs);
            if j + 1 == |msgs[s.k]| then Completed(s, u, msgs) else Midway(s, u, msgs, j + 1)
  {
    hide Segments.Concat;
    ConcatNext(msgs[s.k], j);
    ConcatLess(msgs[s.k], j + 1);
    NoFrames(msgs[s.k]);
    assert Drain(t.rx) == t.rx;
    var f := Frame(s.k, msgs[s.k][j], e.sof, e.eof);
    var b := Filled(t.rx, f, e.env);
    assert b == s.rx.(active := Some(Pend(s.k, Segments.Concat(msgs[s.k][..j + 1]), Success)),
                      bytes := |Segments.Concat(msgs[s.k][..j + 1])|);
    if e.eof == FRAME_END {
      DrainOne(Finished(b), Segments.Concat(msgs[s.k]));
    }
  }

  lemma NoFrames(msg: seq<seq<u8>>)
    ensures Segments.Concat(msg[..0]) == []
  {
  }

  /** One finished message is delivered. */
  lemma DrainOne(a: Apple, data: seq<u8>)
    requires |a.ready| == 1 && a.ready[0].data == data && a.ready[0].status == Success && Suffices(a, data)
    requires a.bytes == |data|
    ensures var b := Drain(a);
            && b.ready == [] && b.recvq == a.recvq[1..] && b.bytes == 0 && |b.done| == |a.done| + 1
            && b.done[..|a.done|] == a.done && b.active == a.active && b.discard == a.discard
            && var d := b.done[|a.done|];
               && d.n == a.ready[0].n && d.status == Success && d.byteLen == |data| <= |d.wqe.buf|
               && d.wqe.buf[..|data|] == data
  {
    var w := a.recvq[0];
    assert (if |data| < |w.buf| then data else data[..|w.buf|]) == data;
    var b := DeliverHead(a);
    assert b.ready == [];
    assert Drain(b) == b;
  }

  lemma {:induction false} FramesTaken(s: World, msgs: seq<seq<seq<u8>>>, arrivals: seq<Event>)
    requires Framed(msgs) && Between(s) && s.k < |msgs| && Suffices(s.rx, Segments.Concat(msgs[s.k]))
    requires Whole(msgs, s.k, arrivals, |arrivals|)
    ensures var t := Run(s, arrivals, msgs);
            if arrivals == [] then t == s
            else if |arrivals| == |msgs[s.k]| then Completed(s, t, msgs) else Midway(s, t, msgs, |arrivals|)
  {
    hide Step;
    hide Suffices;
    hide Between;
    if arrivals != [] {
      var j := |arrivals| - 1;
      FramesTaken(s, msgs, arrivals[..j]);
      TakeFrame(s, Run(s, arrivals[..j], msgs), msgs, arrivals[j], j);
    }
  }

  /** Progress: in any run that stands between messages, with nothing waiting, the next message is completed
      with success, whole, when its frames arrive in order with the limits, the buffers and the receive it
      needs; and the receiver stands between messages again. */
  lemma WholeMessageSucceeds(slots: nat, room: nat, events: seq<Event>, msgs: seq<seq<seq<u8>>>, arrivals: seq<Event>)
    requires Framed(msgs)
    requires var s := Run(Start(slots, room), events, msgs);
             && Between(s) && s.k < |msgs| && Suffices(s.rx, Segments.Concat(msgs[s.k]))
             && Whole(msgs, s.k, arrivals, |msgs[s.k]|)
    ensures var s := Run(Start(slots, room), events, msgs); Completed(s, Run(s, arrivals, msgs), msgs)
  {
    FramesTaken(Run(Start(slots, room), events, msgs), msgs, arrivals);
  }

  // ---------------------------------------------------------------- limits

  /** No frame meets larger limits than these. */
  predicate Limited(e: Event, limit: nat, totalLimit: nat) {
    e.Arrives? ==> e.env.limit <= limit && e.env.totalLimit <= totalLimit
  }

  ghost predicate Within(a: Apple, limit: nat, totalLimit: nat) {
    && a.bytes <= totalLimit
    && (a.active.Some? ==> |a.active.value.data| <= limit && |a.active.value.data| <= MAX_APPLE_MSG)
    && (forall i :: 0 <= i < |a.ready| ==> |a.ready[i].data| <= limit && |a.ready[i].data| <= MAX_APPLE_MSG)
    && forall i :: 0 <= i < |a.done| ==> a.done[i].byteLen <= limit && a.done[i].byteLen <= MAX_APPLE_MSG
  }

  lemma {:induction false} DrainWithin(a: Apple, limit: nat, totalLimit: nat)
    requires Within(a, limit, totalLimit)
    ensures Within(Drain(a), limit, totalLimit)
    decreases |a.ready|
  {
    if a.ready != [] && a.recvq != [] {
      DeliverWithin(a, limit, totalLimit);
      DrainWithin(DeliverHead(a), limit, totalLimit);
    }
  }

  lemma DeliverWithin(a: Apple, limit: nat, totalLimit: nat)
    requires Within(a, limit, totalLimit) && a.ready != [] && a.recvq != []
    ensures Within(DeliverHead(a), limit, totalLimit)
  {
    var b := DeliverHead(a);
    assert forall i :: 0 <= i < |b.ready| ==> b.ready[i] == a.ready[i + 1];
  }

  lemma AcceptWithin(a: Apple, f: Frame, env: Env, limit: nat, totalLimit: nat)
    requires Within(a, limit, totalLimit) && env.limit <= limit && env.totalLimit <= totalLimit
    ensures Within(Accept(a, f, env), limit, totalLimit)
  {
    hide Drain;
    DrainWithin(Finished(Filled(a, f, env)), limit, totalLimit);
  }

  /** In every run: no message takes more memory, and no completion more bytes, than the limit on a message or
      16 MiB, and the messages that are held together no more than the limit on all of them. */
  lemma {:induction false} WithinLimits(slots: nat, room: nat, events: seq<Event>, msgs: seq<seq<seq<u8>>>,
                                        limit: nat, totalLimit: nat)
    requires forall k :: 0 <= k < |events| ==> Limited(events[k], limit, totalLimit)
    ensures Within(Run(Start(slots, room), events, msgs).rx, limit, totalLimit)
  {
    hide Within;
    hide Drain;
    hide Accept;
    if events == [] {
      StartWithin(slots, room, limit, totalLimit);
    } else {
      var prefix, e := events[..|events| - 1], events[|events| - 1];
      WithinLimits(slots, room, prefix, msgs, limit, totalLimit);
      var s := Run(Start(slots, room), prefix, msgs);
      assert Limited(e, limit, totalLimit);
      if e.Arrives? && Marked(msgs, s.k, s.j, e.sof, e.eof) {
        DrainWithin(s.rx, limit, totalLimit);
        AcceptWithin(Drain(s.rx), Frame(s.k, msgs[s.k][s.j], e.sof, e.eof), e.env, limit, totalLimit);
      } else {
        SameWithin(s.rx, Run(Start(slots, room), events, msgs).rx, limit, totalLimit);
      }
    }
  }

  lemma StartWithin(slots: nat, room: nat, limit: nat, totalLimit: nat)
    ensures Within(Start(slots, room).rx, limit, totalLimit)
  {
  }

  lemma SameWithin(a: Apple, b: Apple, limit: nat, totalLimit: nat)
    requires Within(a, limit, totalLimit)
    requires b.bytes == a.bytes && b.active == a.active && b.ready == a.ready && b.done == a.done
    ensures Within(b, limit, totalLimit)
  {
  }

  /** A frame that neither begins nor ends a message, while none is active, is dropped without a trace; and so is
      one that carries nothing or too much. */
  lemma StrayDropped(a: Apple, f: Frame, env: Env)
    requires a.ready == [] || a.recvq == []
    requires (a.active.None? && !a.discard && !f.sof && f.eof != FRAME_END) || f.data == [] || |f.data| > FRAME_SIZE
    ensures OnFrame(a, f, env) == a
  {
  }
}
