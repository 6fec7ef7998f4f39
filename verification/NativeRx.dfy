/** Receiving native SEND fragments on a queue pair (kernel/ibdev.c): the message being received, the
    reorder list of messages ahead of it, receiver-not-ready suppression, completion and acknowledgement.
    Messages carry unbounded numbers here; RxQp works with their 24-bit PSNs. */
module NativeRx {
  import opened Prelude
  import opened Cut
  import opened NativeData
  import opened Psn
  import opened AckHistory
  import opened RecvWqe

  const WINDOW: nat := 1024
  const MAX_REORDER_BYTES: nat := 0x400_0000

  datatype Meta = Meta(srcQp: u32, total: nat, imm: Option<u32>)

  datatype Frag = Frag(offset: nat, data: seq<u8>)

  /** struct tbv_rx_reorder_msg, without its PSN. */
  datatype Body = Body(meta: Meta, fragCount: nat, seen: set<nat>, fragsReceived: nat, frags: seq<Frag>,
                       bytes: nat, complete: bool)

  datatype Waiting = Waiting(n: int, body: Body)

  /** struct tbv_rx_message while active; its PSN is always the expected one. */
  datatype Active = Active(meta: Meta, fragCount: nat, wqe: Wqe, status: WcStatus, delivered: nat, received: nat,
                           seen: set<nat>, fragsReceived: nat)

  datatype Completion = Completion(n: int, wqe: Wqe, status: WcStatus, byteLen: nat, srcQp: u32,
                                   imm: Option<u32>)

  datatype Ack = Ack(n: int, destQp: u32, status: AckStatus)

  datatype Rnr = Rnr(srcQp: u32, psn: psn, remoteAddr: u64, fragOffset: u32)

  /** A SEND frame as the receiver reads it: its number relative to the expected one, its place in the
      message, whether its header is malformed, and its key for receiver-not-ready suppression. */
  datatype Fragment = Fragment(n: int, meta: Meta, offset: nat, payload: seq<u8>, last: bool,
                               shape: Option<(nat, nat)>, bad: bool, rnr: Rnr)

  /** `first` is the number of the first message; `log` the statuses of the consumed ones; `done` the
      completions pushed and `acks` the acknowledgements sent so far; `room` the free completion entries. */
  datatype Rx = Rx(striping: bool, first: int, log: seq<AckStatus>, active: Option<Active>,
                   reorder: seq<Waiting>, bytes: nat, rnr: Option<Rnr>, recvq: seq<Wqe>,
                   room: nat, overflowed: bool, done: seq<Completion>, acks: seq<Ack>)

  function Expected(rx: Rx): int {
    rx.first + |rx.log|
  }

  // ---------------------------------------------------------------- memory

  /** Copy fragments until one fails. */
  function CopyFrags(w: Wqe, frags: seq<Frag>): (r: (Wqe, nat, bool)) {
    if frags == [] then (w, 0, true)
    else
      var (v, delivered, ok) := CopyFrags(w, frags[..|frags| - 1]);
      if !ok then (v, delivered, false)
      else
        var f := frags[|frags| - 1];
        var (u, more, good) := CopyToWqe(v, f.offset, f.data);
        (u, delivered + more, good)
  }

  // ---------------------------------------------------------------- acknowledgements and completion

  function SendAck(rx: Rx, n: int, destQp: u32, status: AckStatus): Rx {
    rx.(acks := rx.acks + [Ack(n, destQp, status)])
  }

  /** tbv_rx_send_error_ack. */
  function Refuse(rx: Rx, f: Fragment): Rx {
    SendAck(rx, f.n, f.meta.srcQp, AckError)
  }

  /** tbv_rx_reack_duplicate_locked for a number already consumed. */
  function Reack(rx: Rx, f: Fragment): Rx {
    SendAck(rx, f.n, f.meta.srcQp, Answer(rx.first, rx.log, f.n))
  }

  /** Complete the expected message: push the completion, advance, record and acknowledge. */
  function Consume(rx: Rx, wqe: Wqe, status: WcStatus, byteLen: nat, meta: Meta): Rx {
    var n := Expected(rx);
    var pushed := !rx.overflowed && rx.room > 0;
    var ack := if status == Success && pushed then AckOk else AckError;
    rx.(done := if pushed then rx.done + [Completion(n, wqe, status, byteLen, meta.srcQp, meta.imm)] else rx.done,
        room := if pushed then rx.room - 1 else rx.room,
        overflowed := !pushed,
        log := rx.log + [ack],
        acks := rx.acks + [Ack(n, meta.srcQp, ack)])
  }

  /** tbv_rx_finish_send. */
  function Finish(rx: Rx): Rx {
    if rx.active.None? then rx
    else
      var a := rx.active.value;
      Consume(WithActive(rx, None), a.wqe, a.status, a.delivered, a.meta)
  }

  /** tbv_rx_fail_active_send. */
  function Fail(rx: Rx, status: WcStatus): Rx {
    if rx.active.None? then rx else Finish(WithActive(rx, Some(rx.active.value.(status := status))))
  }

  // ---------------------------------------------------------------- the reorder list

  /** tbv_rx_reorder_find: the first entry of a number, or the length of the list. */
  function Find(reorder: seq<Waiting>, n: int): (i: nat)
    ensures i <= |reorder|
    ensures i < |reorder| ==> reorder[i].n == n
    ensures forall j :: 0 <= j < i ==> reorder[j].n != n
  {
    if reorder == [] || reorder[0].n == n then 0 else 1 + Find(reorder[1..], n)
  }

  /** tbv_rx_reorder_unlink_msg_locked. */
  function Unlink(rx: Rx, i: nat): Rx
    requires i < |rx.reorder|
  {
    var b := rx.reorder[i].body.bytes;
    rx.(reorder := rx.reorder[..i] + rx.reorder[i + 1..], bytes := if rx.bytes >= b then rx.bytes - b else 0)
  }

  /** tbv_qp_pop_recv, when a receive is posted. */
  function Pop(rx: Rx): Rx
    requires rx.recvq != []
  {
    rx.(recvq := rx.recvq[1..])
  }

  function WithActive(rx: Rx, a: Option<Active>): Rx {
    rx.(active := a)
  }

  /** tbv_rx_deliver_reorder_msg_locked for the entry of the expected number. */
  function Deliver(rx: Rx, i: nat): Rx
    requires i < |rx.reorder|
  {
    var b := rx.reorder[i].body;
    if rx.recvq == [] then SendAck(rx, rx.reorder[i].n, b.meta.srcQp, AckRnr)
    else
      var w := rx.recvq[0];
      var (v, delivered, ok) := CopyFrags(w, b.frags);
      var status := if !ok then ProtErr else if b.meta.total > |w.buf| then LenErr else Success;
      Consume(Unlink(Pop(rx), i), v, status, delivered, b.meta)
  }

  /** tbv_rx_drain_reorder_locked. */
  function Drain(rx: Rx): Rx
    decreases |rx.reorder|
  {
    var i := Find(rx.reorder, Expected(rx));
    if rx.active.Some? || i == |rx.reorder| || !rx.reorder[i].body.complete then rx
    else if rx.recvq == [] then Deliver(rx, i)
    else Drain(Deliver(rx, i))
  }

  predicate Matches(frags: seq<Frag>, offset: nat, payload: seq<u8>) {
    if payload == [] then true
    else if frags == [] then false
    else if frags[0].offset == offset then frags[0].data == payload
    else Matches(frags[1..], offset, payload)
  }

  /** The last part of tbv_rx_buffer_fragment_locked: hold a new fragment in entry i. */
  function Store(rx: Rx, i: nat, f: Fragment, idx: nat, alloc: bool): Rx
    requires i < |rx.reorder|
  {
    if f.payload != [] && rx.bytes + |f.payload| > MAX_REORDER_BYTES then Unlink(rx, i)
    else if f.payload != [] && !alloc then Unlink(Refuse(rx, f), i)
    else
      var b := Grown(rx.reorder[i].body, idx, f.offset, f.payload);
      var s := Replace(rx, i, b, |f.payload|);
      if b.complete then Drain(s) else s
  }

  function Replace(rx: Rx, i: nat, b: Body, added: nat): Rx
    requires i < |rx.reorder|
  {
    rx.(reorder := rx.reorder[i := Waiting(rx.reorder[i].n, b)], bytes := rx.bytes + added)
  }

  function Grown(b: Body, idx: nat, offset: nat, payload: seq<u8>): Body {
    b.(seen := b.seen + {idx}, fragsReceived := b.fragsReceived + 1,
       frags := if payload == [] then b.frags else b.frags + [Frag(offset, payload)],
       bytes := b.bytes + |payload|,
       complete := b.complete || b.fragsReceived + 1 == b.fragCount)
  }

  /** tbv_rx_buffer_fragment_locked. */
  function Buffer(rx: Rx, f: Fragment, allocMsg: bool, allocFrag: bool): Rx {
    if f.n < Expected(rx) then Reack(rx, f)
    else if f.n >= Expected(rx) + WINDOW || f.shape.None? then Refuse(rx, f)
    else
      var (idx, count) := f.shape.value;
      var i := Find(rx.reorder, f.n);
      if i == |rx.reorder| then
        if |rx.reorder| >= WINDOW || !allocMsg then Refuse(rx, f)
        else Store(Append(rx, f.n, EmptyBody(f.meta, count)), i, f, idx, allocFrag)
      else
        var b := rx.reorder[i].body;
        if b.meta != f.meta || b.fragCount != count then Refuse(Unlink(rx, i), f)
        else if idx !in b.seen then Store(rx, i, f, idx, allocFrag)
        else if !Matches(b.frags, f.offset, f.payload) then Refuse(Unlink(rx, i), f)
        else if b.complete then Drain(rx)
        else rx
  }

  function Append(rx: Rx, n: int, b: Body): Rx {
    rx.(reorder := rx.reorder + [Waiting(n, b)])
  }

  function EmptyBody(meta: Meta, count: nat): Body {
    Body(meta, count, {}, 0, [], 0, false)
  }

  // ---------------------------------------------------------------- tbv_rx_handle_send_fragment

  /** Start receiving the expected message into the first posted receive. */
  function Activate(rx: Rx, meta: Meta, count: nat): Rx
    requires rx.recvq != []
  {
    var w := rx.recvq[0];
    var status := if meta.total > |w.buf| then LenErr else Success;
    WithActive(Pop(rx), Some(Active(meta, count, w, status, 0, 0, {}, 0)))
  }

  function NotReady(rx: Rx, f: Fragment): Rx {
    SendAck(rx.(rnr := Some(f.rnr)), f.n, f.meta.srcQp, AckRnr)
  }

  function Copied(a: Active, offset: nat, payload: seq<u8>): Active {
    var (w, more, ok) := CopyToWqe(a.wqe, offset, payload);
    a.(wqe := w, delivered := a.delivered + more, status := if ok then a.status else ProtErr,
       received := a.received + |payload|)
  }

  /** A fragment of the active message when fragments are striped over rails. */
  function Absorb(rx: Rx, idx: nat, offset: nat, payload: seq<u8>): Rx
    requires rx.active.Some?
  {
    var b := Absorbed(rx.active.value, idx, offset, payload);
    var s := WithActive(rx, Some(b));
    if b.fragsReceived == b.fragCount then Drain(Finish(s)) else s
  }

  function Absorbed(a: Active, idx: nat, offset: nat, payload: seq<u8>): Active {
    if idx in a.seen then a
    else Copied(a, offset, payload).(seen := a.seen + {idx}, fragsReceived := a.fragsReceived + 1)
  }

  function Striped(rx: Rx, f: Fragment, allocMsg: bool, allocFrag: bool): Rx {
    if f.shape.None? then Refuse(rx, f)
    else if f.n < Expected(rx) then Reack(rx, f)
    else if f.n > Expected(rx) || (rx.active.None? && Find(rx.reorder, f.n) < |rx.reorder|) then
      Buffer(rx, f, allocMsg, allocFrag)
    else
      var (idx, count) := f.shape.value;
      if rx.active.Some? then
        if rx.active.value.meta != f.meta || rx.active.value.fragCount != count then Refuse(Fail(rx, ProtErr), f)
        else Absorb(rx, idx, f.offset, f.payload)
      else if rx.recvq == [] then NotReady(rx, f)
      else Absorb(Activate(rx, f.meta, count), idx, f.offset, f.payload)
  }

  /** The next bytes of the active message when its fragments come in order. */
  function Take(rx: Rx, offset: nat, payload: seq<u8>, last: bool): Rx
    requires rx.active.Some?
  {
    var s := WithActive(rx, Some(Copied(rx.active.value, offset, payload)));
    if last then Drain(Finish(s)) else s
  }

  function Sequential(rx: Rx, f: Fragment, allocMsg: bool, allocFrag: bool): Rx {
    if rx.active.Some? then Continue(rx, f, allocMsg, allocFrag)
    else if Find(rx.reorder, f.n) < |rx.reorder| || f.n != Expected(rx) || f.offset != 0 then
      Buffer(rx, f, allocMsg, allocFrag)
    else if rx.recvq == [] then NotReady(rx, f)
    else Take(Activate(rx, f.meta, 0), 0, f.payload, f.last)
  }

  function Continue(rx: Rx, f: Fragment, allocMsg: bool, allocFrag: bool): Rx
    requires rx.active.Some?
  {
    var a := rx.active.value;
    var same := a.meta == f.meta && f.n == Expected(rx);
    if same && a.received == f.offset then Take(rx, f.offset, f.payload, f.last)
    else if f.n < Expected(rx) then Reack(rx, f)
    else if f.n > Expected(rx) then Buffer(rx, f, allocMsg, allocFrag)
    else if same && f.offset < a.received then
      var duplicate := a.received - f.offset;
      if duplicate >= |f.payload| then rx else Take(rx, a.received, f.payload[duplicate..], f.last)
    else if same then rx
    else Refuse(Fail(rx, ProtErr), f)
  }

  function Route(rx: Rx, f: Fragment, allocMsg: bool, allocFrag: bool): Rx {
    if rx.striping then Striped(rx, f, allocMsg, allocFrag) else Sequential(rx, f, allocMsg, allocFrag)
  }

  function ClearRnr(rx: Rx): Rx {
    rx.(rnr := None)
  }

  /** After a receiver-not-ready answer only the retry of the fragment that provoked it is let through. */
  function OnFragment(rx: Rx, f: Fragment, allocMsg: bool, allocFrag: bool): Rx {
    if f.bad then Refuse(rx, f)
    else if rx.rnr.Some? && rx.rnr.value.srcQp == f.rnr.srcQp && rx.rnr.value.psn == f.rnr.psn then
      if rx.rnr.value == f.rnr then Route(ClearRnr(rx), f, allocMsg, allocFrag) else rx
    else Route(rx, f, allocMsg, allocFrag)
  }

  /** What the receiver makes of a frame. */
  function FragmentOf(rx: Rx, h: Header, payload: seq<u8>): Fragment {
    var p := h.psn % PSN_MOD;
    Fragment(NumberOf(Expected(rx), p), MetaOf(h), h.fragOffset, payload, IsLast(h.flags), Shape(h), BadHeader(h),
             Rnr(h.srcQp, p, h.remoteAddr, h.fragOffset))
  }

  function MetaOf(h: Header): Meta {
    Meta(h.srcQp, h.immData, if h.opcode == OP_SEND_IMM then Some(h.rkey) else None)
  }

  function Shape(h: Header): Option<(nat, nat)> {
    FragmentShape(h.immData, MAX_PAYLOAD, MAX_FRAGS, h.fragOffset, h.length, IsLast(h.flags))
  }

  predicate BadHeader(h: Header) {
    var last := IsLast(h.flags);
    var end := h.fragOffset + h.length;
    || h.remoteAddr != 0 || end > h.immData || h.immData > MAX_MSG_SIZE || (!last && h.length == 0)
    || h.flags >= 4 || (h.opcode != OP_SEND_IMM && h.rkey != 0) || last != (end == h.immData)
  }

  // ---------------------------------------------------------------- time-outs

  /** tbv_qp_timeout_reap_rx for an active message. */
  function ActiveExpires(rx: Rx): Rx {
    Fail(rx, GeneralErr)
  }

  /** tbv_qp_timeout_reap_rx for one turn of its loop: the entry of the expected number is given up. */
  function HeadExpires(rx: Rx): Rx {
    var i := Find(rx.reorder, Expected(rx));
    if i == |rx.reorder| then rx
    else
      var s := Unlink(rx, i);
      Drain(s.(log := s.log + [AckError]))
  }

  datatype Event =
    | Frame(header: Header, payload: seq<u8>, allocMsg: bool, allocFrag: bool)
    | PostRecv(wqe: Wqe)
    | Poll
    | ExpireActive
    | ExpireHead

  function Step(rx: Rx, e: Event): Rx {
    match e
    case Frame(h, payload, allocMsg, allocFrag) => OnFragment(rx, FragmentOf(rx, h, payload), allocMsg, allocFrag)
    case PostRecv(w) => rx.(recvq := rx.recvq + [w])
    case Poll => rx.(room := rx.room + 1)
    case ExpireActive => ActiveExpires(rx)
    case ExpireHead => HeadExpires(rx)
  }

  function Run(rx: Rx, events: seq<Event>): Rx {
    if events == [] then rx else Step(Run(rx, events[..|events| - 1]), events[|events| - 1])
  }

  function Start(striping: bool, first: int, room: nat): Rx {
    Rx(striping, first, [], None, [], 0, None, [], room, false, [], [])
  }
}
