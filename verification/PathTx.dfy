/** The transmit side of a path (kernel/path.c): its queues, the scheduler, staged and zero-copy frames,
    raw streams, cancellation and the ring barrier. `tb_ring_tx` accepts or fails; a ring stop runs every
    submitted frame's callback with canceled set. */
module PathTx {
  import opened Prelude
  import opened Lists
  import Credits

  const ECANCELED: int := -125

  /** struct tbv_tx_packet. `owner` is owner_ctx, `doneCtx` the context of its done callback. */
  datatype Pkt = Pkt(id: nat, control: bool, zcopy: bool, start: bool, end: bool, counted: bool, canceled: bool,
                     owner: Option<nat>, doneCtx: Option<nat>, len: nat, group: nat)

  /** The raw-stream fields. */
  datatype Raw = Raw(active: bool, owner: Option<nat>, endSeen: bool, inflight: nat)

  const NO_RAW: Raw := Raw(false, None, false, 0)

  /** A packet between the scheduler's two locked sections, with what is put back if the post fails. */
  datatype Hand = Hand(pkt: Pkt, staged: bool, charged: bool, before: Raw, group: nat)

  /** `staged` and `zcopy` are the packets submitted to the ring; `leaving` those taken off the path whose
      release has not run; `released` the done callbacks that ran; `free` the free frames; `wire` the
      packets the ring accepted, in order; `accepted` numbers the packets. */
  datatype Path = Path(tunnel: bool, closed: bool, scheduling: bool, controlQ: seq<Pkt>, dataQ: seq<Pkt>,
                       hand: Option<Hand>, staged: seq<Pkt>, zcopy: seq<Pkt>, leaving: seq<(Pkt, int)>,
                       released: seq<(nat, int)>, free: nat, frameCount: nat, inflight: nat, inflightLimit: nat,
                       reserved: nat, queueLimit: nat, raw: Raw, credits: nat, creditMax: nat, wire: seq<Pkt>,
                       accepted: nat)

  predicate Admits(s: Path) {
    s.tunnel && !s.closed
  }

  ghost predicate DataOnly(q: seq<Pkt>) {
    forall i :: 0 <= i < |q| ==> !q[i].control
  }

  ghost predicate ControlOnly(q: seq<Pkt>) {
    forall i :: 0 <= i < |q| ==> q[i].control && !q[i].zcopy
  }

  // ---------------------------------------------------------------- enqueueing

  /** tbv_path_enqueue_control. */
  function EnqueueControl(s: Path, doneCtx: Option<nat>): Path {
    if !Admits(s) then s
    else s.(controlQ := s.controlQ + [Pkt(s.accepted, true, false, false, false, false, false, doneCtx, doneCtx, 0, 0)],
            accepted := s.accepted + 1)
  }

  /** A data packet that is not part of a raw stream. */
  function Plain(id: nat, doneCtx: Option<nat>, group: nat): Pkt {
    Pkt(id, false, false, false, false, false, false, doneCtx, doneCtx, 0, group)
  }

  /** tbv_path_enqueue_data. */
  function EnqueueData(s: Path, doneCtx: Option<nat>): Path {
    if !Admits(s) then s
    else if s.reserved == 0 && |s.dataQ| >= s.queueLimit then s
    else s.(dataQ := s.dataQ + [Plain(s.accepted, doneCtx, 1)], accepted := s.accepted + 1,
            reserved := if s.reserved > 0 then s.reserved - 1 else 0)
  }

  /** The header packet of a raw stream and its payload packets, as tbv_path_send_page_stream prepares
      them; `lens` are the payload lengths and the header announces their sum. */
  function Stream(id: nat, owner: nat, lens: seq<nat>): (r: seq<Pkt>)
    ensures |r| == |lens| + 1 && forall i :: 0 <= i < |r| ==> r[i].id == id + i && !r[i].control
  {
    [Pkt(id, false, false, true, false, false, false, Some(owner), Some(owner), SumOf(lens), |lens| + 1)]
      + seq(|lens|, i requires 0 <= i < |lens| =>
              Pkt(id + 1 + i, false, true, false, i == |lens| - 1, false, false, Some(owner), None, lens[i], 0))
  }

  function Amount(x: nat): nat { x }

  function SumOf(lens: seq<nat>): nat {
    Weigh(lens, Amount)
  }

  /** Plain packets of one send. */
  function Batch(id: nat, owner: nat, count: nat): (r: seq<Pkt>)
    ensures |r| == count && forall i :: 0 <= i < |r| ==> r[i].id == id + i && !r[i].control
  {
    if count == 0 then [] else [Plain(id, Some(owner), count)] + Rest(id + 1, owner, count - 1)
  }

  function Rest(id: nat, owner: nat, count: nat): (r: seq<Pkt>)
    ensures |r| == count && forall i :: 0 <= i < |r| ==> r[i] == Plain(id + i, Some(owner), 0)
    decreases count
  {
    if count == 0 then [] else [Plain(id, Some(owner), 0)] + Rest(id + 1, owner, count - 1)
  }

  /** tbv_path_enqueue_data_list and tbv_path_enqueue_reserved_data_list. */
  function EnqueueList(s: Path, packets: seq<Pkt>, useReserved: bool): Path {
    var count := |packets|;
    if count == 0 || !Admits(s) then s
    else if useReserved && s.reserved < count then s
    else if !useReserved && |s.dataQ| + s.reserved + count > s.queueLimit then s
    else s.(dataQ := s.dataQ + packets, accepted := s.accepted + count,
            reserved := if useReserved then s.reserved - count else s.reserved)
  }

  /** tbv_path_reserve_data. */
  function Reserve(s: Path, frames: nat): Path {
    if !Admits(s) || |s.dataQ| + s.reserved + frames > s.queueLimit then s else s.(reserved := s.reserved + frames)
  }

  /** tbv_path_release_data_reservation. */
  function ReleaseReservation(s: Path, frames: nat): Path {
    s.(reserved := if s.reserved >= frames then s.reserved - frames else 0)
  }

  // ---------------------------------------------------------------- tbv_path_schedule_tx

  /** Which queue the scheduler takes from: None when it must stop. */
  datatype Source = Control | Data

  function Choose(s: Path): Option<Source> {
    if s.raw.active then
      if s.dataQ == [] || !s.dataQ[0].zcopy || s.dataQ[0].start || s.dataQ[0].owner != s.raw.owner then None
      else Some(Data)
    else if s.controlQ != [] then Some(Control)
    else if s.dataQ == [] then None
    else Some(Data)
  }

  /** tbv_path_tx_control_frame_reserve. */
  function ControlReserve(frameCount: nat): nat {
    if frameCount <= 1 then 0
    else if frameCount / 4 < 1 then 1
    else if frameCount / 4 > Credits.CONTROL_RESERVE then Credits.CONTROL_RESERVE
    else frameCount / 4
  }

  /** Frames, the in-flight limit and the credits allow the packet. */
  predicate Allowed(s: Path, p: Pkt, source: Source) {
    && (source == Data && s.inflightLimit > 0 ==> s.inflight < s.inflightLimit)
    && (!p.zcopy ==> s.free > 0)
    && (!p.zcopy && source == Data ==> s.inflight + ControlReserve(s.frameCount) < s.frameCount)
    && (!p.control && s.creditMax > 0 ==> s.credits >= Credits.Needed(p.group, s.creditMax))
  }

  /** tbv_path_count_raw_stream_locked. */
  function CountRaw(raw: Raw, p: Pkt): (r: (Raw, Pkt)) {
    var started := if p.start then Raw(true, p.owner, false, 0) else raw;
    if started.active && p.owner == started.owner then (started.(inflight := started.inflight + 1), p.(counted := true))
    else (started, p)
  }

  /** The first locked section of one turn of the loop. */
  function Take(s: Path): Path {
    if !s.scheduling || s.hand.Some? then s
    else if !Admits(s) || Choose(s).None? then s.(scheduling := false)
    else
      var source := Choose(s).value;
      var p := if source == Control then s.controlQ[0] else s.dataQ[0];
      if !Allowed(s, p, source) then s.(scheduling := false) else Pop(s, p, source)
  }

  function Pop(s: Path, p: Pkt, source: Source): Path
    requires source == Control ==> s.controlQ != []
    requires source == Data ==> s.dataQ != []
  {
    Grab(Dequeue(s, source), p)
  }

  function Dequeue(s: Path, source: Source): Path
    requires source == Control ==> s.controlQ != []
    requires source == Data ==> s.dataQ != []
  {
    s.(controlQ := if source == Control then s.controlQ[1..] else s.controlQ,
       dataQ := if source == Data then s.dataQ[1..] else s.dataQ)
  }

  /** A dequeued packet takes its credit and its frame and goes to the scheduler's hand. */
  function Grab(s: Path, p: Pkt): Path {
    var charged := !p.control && s.creditMax > 0;
    var (raw, q) := CountRaw(s.raw, p.(group := 0));
    s.(hand := Some(Hand(q, !p.zcopy, charged, s.raw, p.group)),
       free := if !p.zcopy && s.free > 0 then s.free - 1 else s.free,
       inflight := s.inflight + 1,
       raw := raw,
       credits := if charged && s.credits > 0 then s.credits - 1 else s.credits)
  }

  /** The ring accepted the frame. */
  function Posted(s: Path): Path {
    if s.hand.None? then s
    else
      var h := s.hand.value;
      s.(hand := None, wire := s.wire + [h.pkt],
         staged := if h.staged then s.staged + [h.pkt] else s.staged,
         zcopy := if h.staged then s.zcopy else s.zcopy + [h.pkt])
  }

  predicate Requeues(s: Path, p: Pkt) {
    s.tunnel && (p.control || p.doneCtx.Some? || p.owner.Some?)
  }

  /** The frame, the credit and the raw-stream fields are put back as they were before the post. */
  function Restored(s: Path, h: Hand): Path {
    Unwound(s.(hand := None, free := if h.staged then s.free + 1 else s.free), h.charged, h.before)
  }

  function Unwound(s: Path, charged: bool, before: Raw): Path {
    s.(scheduling := false, inflight := if s.inflight > 0 then s.inflight - 1 else 0, raw := before,
       credits := if charged then Credits.Refunded(s.credits, s.creditMax) else s.credits)
  }

  /** A refused packet goes back to the head of its queue, or is released. */
  function PutBack(s: Path, p: Pkt, group: nat, enomem: bool, status: int): Path {
    if enomem && Requeues(s, p) then
      if p.control then s.(controlQ := [p] + s.controlQ) else s.(dataQ := [p.(group := group)] + s.dataQ)
    else s.(leaving := s.leaving + [(p, status)])
  }

  /** The ring refused the frame, for lack of memory or otherwise. */
  function PostFailed(s: Path, enomem: bool, status: int): Path {
    if s.hand.None? then s
    else PutBack(Restored(s, s.hand.value), s.hand.value.pkt.(counted := false), s.hand.value.group, enomem, status)
  }

  // ---------------------------------------------------------------- completion

  /** tbv_path_finish_raw_stream_if_needed. */
  function FinishRaw(raw: Raw, p: Pkt): Raw {
    if !p.counted then raw
    else if raw.owner == p.owner then
      var seen := raw.endSeen || p.end;
      var n := if raw.inflight > 0 then raw.inflight - 1 else 0;
      if (seen && n == 0) || !raw.active then NO_RAW else Raw(true, raw.owner, seen, n)
    else if !raw.active then NO_RAW
    else raw
  }

  function StatusOf(p: Pkt, canceled: bool): int {
    if canceled || p.canceled then ECANCELED else 0
  }

  /** tbv_path_tx_complete for a staged frame. */
  function CompleteStaged(s: Path, i: nat, canceled: bool): Path {
    if i >= |s.staged| then s
    else Retire(s.(staged := Without(s.staged, i), free := s.free + 1), s.staged[i], canceled)
  }

  /** A packet is off the ring: its raw stream moves on and its release is due. */
  function Retire(s: Path, p: Pkt, canceled: bool): Path {
    s.(raw := FinishRaw(s.raw, p), inflight := if s.inflight > 0 then s.inflight - 1 else 0,
       leaving := s.leaving + [(p, StatusOf(p, canceled))])
  }

  /** tbv_path_zcopy_tx_complete. */
  function CompleteZcopy(s: Path, i: nat, canceled: bool): Path {
    if i >= |s.zcopy| then s
    else Retire(s.(zcopy := Without(s.zcopy, i)), s.zcopy[i], canceled)
  }

  /** tbv_path_tx_packet_release: the done callback runs. */
  function Release(s: Path, i: nat): Path {
    if i >= |s.leaving| then s
    else s.(leaving := Without(s.leaving, i), released := s.released + [(s.leaving[i].0.id, s.leaving[i].1)])
  }

  // ---------------------------------------------------------------- cancellation

  /** tbv_path_packet_matches. */
  predicate Matches(p: Pkt, ctx: nat, byOwner: bool) {
    if byOwner then p.owner == Some(ctx) else p.doneCtx == Some(ctx)
  }

  function Kept(q: seq<Pkt>, ctx: nat, byOwner: bool): seq<Pkt> {
    if q == [] then []
    else
      var p, rest := q[|q| - 1], Kept(q[..|q| - 1], ctx, byOwner);
      if Matches(p, ctx, byOwner) then rest else rest + [p]
  }

  function Canceled(q: seq<Pkt>, ctx: nat, byOwner: bool): seq<(Pkt, int)> {
    if q == [] then []
    else
      var p, rest := q[|q| - 1], Canceled(q[..|q| - 1], ctx, byOwner);
      if Matches(p, ctx, byOwner) then rest + [(p.(owner := None), ECANCELED)] else rest
  }

  /** Submitted packets are only marked. */
  function Marked(q: seq<Pkt>, ctx: nat, byOwner: bool): (r: seq<Pkt>)
    ensures |r| == |q|
  {
    seq(|q|, i requires 0 <= i < |q| =>
      if !q[i].control && Matches(q[i], ctx, byOwner) then q[i].(canceled := true) else q[i])
  }

  /** tbv_path_cancel_data_match; the packet in the scheduler's hand is marked if it is already attached to
      its frame. */
  function CancelMatch(s: Path, ctx: nat, byOwner: bool, handToo: bool): Path {
    s.(dataQ := Kept(s.dataQ, ctx, byOwner), leaving := s.leaving + Canceled(s.dataQ, ctx, byOwner),
       staged := Marked(s.staged, ctx, byOwner), zcopy := Marked(s.zcopy, ctx, byOwner),
       hand := if handToo && s.hand.Some? && Matches(s.hand.value.pkt, ctx, byOwner) && !s.hand.value.pkt.control
               then Some(s.hand.value.(pkt := s.hand.value.pkt.(canceled := true))) else s.hand,
       raw := if byOwner && s.raw.active && s.raw.owner == Some(ctx) then NO_RAW else s.raw)
  }

  function WithStatus(q: seq<Pkt>, status: int): (r: seq<(Pkt, int)>)
    ensures |r| == |q|
  {
    seq(|q|, i requires 0 <= i < |q| => (q[i], status))
  }

  /** tbv_path_cancel_queued_tx_status. */
  function CancelQueued(s: Path, status: int): Path {
    s.(controlQ := [], dataQ := [], reserved := 0, raw := NO_RAW,
       leaving := s.leaving + WithStatus(s.controlQ, status) + WithStatus(s.dataQ, status))
  }

  // ---------------------------------------------------------------- runs

  datatype Event =
    | SendControl(doneCtx: Option<nat>)
    | SendData(doneCtx: Option<nat>)
    | SendBatch(owner: nat, count: nat, useReserved: bool)
    | SendStream(owner: nat, lens: seq<nat>)
    | ReserveFrames(frames: nat)
    | ReleaseFrames(frames: nat)
    | Schedule
    | TakeNext
    | PostOk
    | PostFails(enomem: bool, status: int)
    | StagedDone(i: nat, canceled: bool)
    | ZcopyDone(i: nat, canceled: bool)
    | ReleaseOne(i: nat)
    | CancelCtx(ctx: nat, byOwner: bool, handToo: bool)
    | CancelAll(status: int)
    | CreditsCome(n: nat)
    | Close
    | Open

  function Step(s: Path, e: Event): Path {
    match e
    case SendControl(d) => EnqueueControl(s, d)
    case SendData(d) => EnqueueData(s, d)
    case SendBatch(owner, count, useReserved) => EnqueueList(s, Batch(s.accepted, owner, count), useReserved)
    case SendStream(owner, lens) => EnqueueList(s, Stream(s.accepted, owner, lens), false)
    case ReserveFrames(n) => Reserve(s, n)
    case ReleaseFrames(n) => ReleaseReservation(s, n)
    case Schedule => s.(scheduling := true)
    case TakeNext => Take(s)
    case PostOk => Posted(s)
    case PostFails(enomem, status) => PostFailed(s, enomem, status)
    case StagedDone(i, canceled) => CompleteStaged(s, i, canceled)
    case ZcopyDone(i, canceled) => CompleteZcopy(s, i, canceled)
    case ReleaseOne(i) => Release(s, i)
    case CancelCtx(ctx, byOwner, handToo) => CancelMatch(s, ctx, byOwner, handToo)
    case CancelAll(status) => CancelQueued(s, status)
    case CreditsCome(n) => s.(credits := Credits.Added(s.credits, s.creditMax, n))
    case Close => s.(closed := true)
    case Open => s.(closed := false)
  }

  function Start(frameCount: nat, inflightLimit: nat, queueLimit: nat, creditMax: nat): Path {
    Path(true, false, false, [], [], None, [], [], [], [], frameCount, frameCount, 0, inflightLimit, 0, queueLimit,
         NO_RAW, creditMax, creditMax, [], 0)
  }

  function Run(s: Path, events: seq<Event>): Path {
    if events == [] then s else Step(Run(s, events[..|events| - 1]), events[|events| - 1])
  }
}
