/** The transmit side of struct tbv_path (kernel/path.c) as the C code keeps it: the array tx_frames with its
    list of free frames, the list of zero-copy packets, two queues with their counters, and tx_inflight. The
    methods refine PathTx. */
module PathQueue {
  import opened Prelude
  import opened Lists
  import Credits
  import opened PathTx

  /** The locals of tbv_path_schedule_tx between its two locked sections. Once the packet is attached it is
      reached through its frame, or through the zero-copy list. */
  datatype Turn = Turn(pkt: Pkt, frame: Option<nat>, charged: bool, before: Raw, group: nat, attached: bool)

  // ---------------------------------------------------------------- frames and the packets in them

  ghost predicate Attaches(turn: Option<Turn>, f: nat) {
    turn.Some? && turn.value.attached && turn.value.frame == Some(f)
  }

  ghost function TurnFrame(turn: Option<Turn>): multiset<nat> {
    if turn.Some? && turn.value.frame.Some? then multiset{turn.value.frame.value} else multiset{}
  }

  /** The attached packet is the last of the zero-copy list. */
  ghost predicate InZcopy(turn: Option<Turn>) {
    turn.Some? && turn.value.attached && turn.value.frame.None?
  }

  /** Every frame of the array is in exactly one place: free, submitted to the ring, or with the scheduler. */
  ghost predicate OneOwner(count: nat, txFree: seq<nat>, posted: seq<nat>, turn: Option<Turn>) {
    forall f: nat :: Holders(txFree, posted, turn)[f] == if f < count then 1 else 0
  }

  ghost function Holders(txFree: seq<nat>, posted: seq<nat>, turn: Option<Turn>): multiset<nat> {
    multiset(txFree) + multiset(posted) + TurnFrame(turn)
  }

  /** A frame carries a packet exactly while it is submitted or attached by the scheduler. */
  ghost predicate Loaded(frames: seq<Option<Pkt>>, posted: seq<nat>, turn: Option<Turn>) {
    forall f: nat :: f < |frames| ==> (frames[f].Some? <==> f in posted || Attaches(turn, f))
  }

  ghost predicate StagedOnly(frames: seq<Option<Pkt>>) {
    forall f :: 0 <= f < |frames| ==> frames[f].None? || !frames[f].value.zcopy
  }

  ghost predicate TurnSane(turn: Option<Turn>, zcopy: seq<Pkt>) {
    && (turn.Some? ==> (turn.value.frame.None? <==> turn.value.pkt.zcopy))
    && (turn.Some? && turn.value.pkt.zcopy ==> !turn.value.pkt.control)
    && (InZcopy(turn) ==> zcopy != [])
  }

  ghost function PacketIn(frames: seq<Option<Pkt>>, f: nat): Pkt {
    if f < |frames| && frames[f].Some? then frames[f].value else Plain(0, None, 0)
  }

  /** The packets of the submitted frames, in the order of submission. */
  ghost function Carried(frames: seq<Option<Pkt>>, posted: seq<nat>): (r: seq<Pkt>)
    ensures |r| == |posted|
  {
    seq(|posted|, i requires 0 <= i < |posted| => PacketIn(frames, posted[i]))
  }

  ghost function Zcopied(zcopy: seq<Pkt>, turn: Option<Turn>): seq<Pkt> {
    if InZcopy(turn) && zcopy != [] then zcopy[..|zcopy| - 1] else zcopy
  }

  ghost function HandOf(frames: seq<Option<Pkt>>, zcopy: seq<Pkt>, turn: Option<Turn>): Option<Hand> {
    if turn.None? then None
    else
      var t := turn.value;
      var p := if !t.attached then t.pkt
               else if t.frame.Some? then PacketIn(frames, t.frame.value)
               else if zcopy != [] then zcopy[|zcopy| - 1] else t.pkt;
      Some(Hand(p, t.frame.Some?, t.charged, t.before, t.group))
  }

  lemma OnlyOnce(count: nat, txFree: seq<nat>, posted: seq<nat>, turn: Option<Turn>, k: nat)
    requires OneOwner(count, txFree, posted, turn) && k < |posted|
    ensures posted[k] < count && !Attaches(turn, posted[k]) && posted[k] !in txFree
    ensures posted[k] !in Without(posted, k)
    ensures multiset(posted) == multiset(Without(posted, k)) + multiset{posted[k]}
  {
    assert posted == posted[..k] + [posted[k]] + posted[k + 1..];
    assert multiset(posted) == multiset(Without(posted, k)) + multiset{posted[k]};
    assert Holders(txFree, posted, turn)[posted[k]] >= 1;
  }

  lemma WithTurnOnce(count: nat, txFree: seq<nat>, posted: seq<nat>, turn: Option<Turn>)
    requires OneOwner(count, txFree, posted, turn) && turn.Some? && turn.value.frame.Some?
    ensures turn.value.frame.value < count && turn.value.frame.value !in posted && turn.value.frame.value !in txFree
  {
    var f := turn.value.frame.value;
    assert Holders(txFree, posted, turn)[f] >= 1;
  }

  lemma CarriedSame(a: seq<Option<Pkt>>, posted: seq<nat>, f: nat, p: Option<Pkt>)
    requires f < |a| && f !in posted
    ensures Carried(a[f := p], posted) == Carried(a, posted)
  {
    forall i | 0 <= i < |posted| ensures PacketIn(a[f := p], posted[i]) == PacketIn(a, posted[i]) {
      assert posted[i] in posted;
    }
  }

  lemma CarriedWithout(a: seq<Option<Pkt>>, posted: seq<nat>, k: nat)
    requires k < |posted|
    ensures Carried(a, Without(posted, k)) == Without(Carried(a, posted), k)
  {
  }

  lemma CarriedMore(a: seq<Option<Pkt>>, posted: seq<nat>, f: nat)
    ensures Carried(a, posted + [f]) == Carried(a, posted) + [PacketIn(a, f)]
  {
  }

  function MarkOne(p: Pkt, ctx: nat, byOwner: bool): Pkt {
    if !p.control && Matches(p, ctx, byOwner) then p.(canceled := true) else p
  }

  ghost predicate MarkedFrames(a: seq<Option<Pkt>>, b: seq<Option<Pkt>>, ctx: nat, byOwner: bool) {
    && |a| == |b|
    && forall f :: 0 <= f < |a| ==> b[f] == if a[f].Some? then Some(MarkOne(a[f].value, ctx, byOwner)) else None
  }

  ghost function HandMarked(hand: Option<Hand>, ctx: nat, byOwner: bool, attached: bool): Option<Hand> {
    if attached && hand.Some? && !hand.value.pkt.control && Matches(hand.value.pkt, ctx, byOwner) then
      Some(hand.value.(pkt := hand.value.pkt.(canceled := true)))
    else hand
  }

  lemma CarriedMarked(a: seq<Option<Pkt>>, b: seq<Option<Pkt>>, posted: seq<nat>, ctx: nat, byOwner: bool)
    requires MarkedFrames(a, b, ctx, byOwner)
    requires forall k :: 0 <= k < |posted| ==> posted[k] < |a| && a[posted[k]].Some?
    ensures Carried(b, posted) == Marked(Carried(a, posted), ctx, byOwner)
  {
  }

  /** The moves of a frame: attached, submitted, freed by the scheduler, freed by its callback. */
  lemma AttachFrame(a: seq<Option<Pkt>>, txFree: seq<nat>, posted: seq<nat>, turn: Turn)
    requires OneOwner(|a|, txFree, posted, Some(turn)) && Loaded(a, posted, Some(turn)) && StagedOnly(a)
    requires turn.frame.Some? && !turn.attached && !turn.pkt.zcopy
    ensures turn.frame.value < |a|
    ensures var b, t := a[turn.frame.value := Some(turn.pkt)], Some(turn.(attached := true));
            && OneOwner(|b|, txFree, posted, t) && Loaded(b, posted, t) && StagedOnly(b)
            && Carried(b, posted) == Carried(a, posted) && PacketIn(b, turn.frame.value) == turn.pkt
  {
    WithTurnOnce(|a|, txFree, posted, Some(turn));
    CarriedSame(a, posted, turn.frame.value, Some(turn.pkt));
    assert Holders(txFree, posted, Some(turn)) == Holders(txFree, posted, Some(turn.(attached := true)));
    hide Carried;
    hide Holders;
  }

  lemma SubmitFrame(a: seq<Option<Pkt>>, txFree: seq<nat>, posted: seq<nat>, turn: Turn)
    requires OneOwner(|a|, txFree, posted, Some(turn)) && Loaded(a, posted, Some(turn))
    requires turn.frame.Some? && turn.attached
    ensures var f := turn.frame.value;
            && OneOwner(|a|, txFree, posted + [f], None) && Loaded(a, posted + [f], None)
            && Carried(a, posted + [f]) == Carried(a, posted) + [PacketIn(a, f)]
  {
    var f := turn.frame.value;
    assert Holders(txFree, posted, Some(turn)) == Holders(txFree, posted + [f], None);
    CarriedMore(a, posted, f);
    hide Carried;
    hide Holders;
  }

  lemma ReturnFrame(a: seq<Option<Pkt>>, txFree: seq<nat>, posted: seq<nat>, turn: Turn)
    requires OneOwner(|a|, txFree, posted, Some(turn)) && Loaded(a, posted, Some(turn)) && StagedOnly(a)
    requires turn.frame.Some? && turn.attached
    ensures var f := turn.frame.value; f < |a| && a[f].Some? && !a[f].value.zcopy
    ensures var f := turn.frame.value; var b := a[f := None];
            && OneOwner(|b|, txFree + [f], posted, None) && Loaded(b, posted, None) && StagedOnly(b)
            && Carried(b, posted) == Carried(a, posted)
  {
    var f := turn.frame.value;
    WithTurnOnce(|a|, txFree, posted, Some(turn));
    CarriedSame(a, posted, f, None);
    assert Holders(txFree, posted, Some(turn)) == Holders(txFree + [f], posted, None);
    hide Carried;
    hide Holders;
  }

  lemma CallbackFrame(a: seq<Option<Pkt>>, txFree: seq<nat>, posted: seq<nat>, turn: Option<Turn>, k: nat)
    requires OneOwner(|a|, txFree, posted, turn) && Loaded(a, posted, turn) && StagedOnly(a) && k < |posted|
    ensures posted[k] < |a| && a[posted[k]].Some? && a[posted[k]].value == Carried(a, posted)[k]
    ensures !Attaches(turn, posted[k])
    ensures var f := posted[k]; var b := a[f := None];
            && OneOwner(|b|, txFree + [f], Without(posted, k), turn) && Loaded(b, Without(posted, k), turn)
            && StagedOnly(b) && Carried(b, Without(posted, k)) == Without(Carried(a, posted), k)
  {
    var f := posted[k];
    OnlyOnce(|a|, txFree, posted, turn, k);
    CarriedWithout(a, posted, k);
    CarriedSame(a, Without(posted, k), f, None);
    assert Holders(txFree, posted, turn) == Holders(txFree + [f], Without(posted, k), turn);
    hide Holders;
    assert f in posted;
    forall g: nat | g < |a| ensures a[f := None][g].Some? <==> g in Without(posted, k) || Attaches(turn, g) {
      if g != f {
        assert g in posted <==> g in Without(posted, k);
      }
    }
  }

  /** Marking changes nothing about who owns a frame. */
  lemma MarkedOwned(a: seq<Option<Pkt>>, b: seq<Option<Pkt>>, txFree: seq<nat>, posted: seq<nat>, turn: Option<Turn>,
                    ctx: nat, byOwner: bool)
    requires OneOwner(|a|, txFree, posted, turn) && Loaded(a, posted, turn) && StagedOnly(a)
    requires MarkedFrames(a, b, ctx, byOwner)
    ensures OneOwner(|b|, txFree, posted, turn) && Loaded(b, posted, turn) && StagedOnly(b)
    ensures Carried(b, posted) == Marked(Carried(a, posted), ctx, byOwner)
    ensures turn.Some? && turn.value.frame.Some? && turn.value.attached ==>
              PacketIn(b, turn.value.frame.value) == MarkOne(PacketIn(a, turn.value.frame.value), ctx, byOwner)
  {
    forall k | 0 <= k < |posted| ensures posted[k] < |a| && a[posted[k]].Some? {
      OnlyOnce(|a|, txFree, posted, turn, k);
      assert posted[k] in posted;
    }
    CarriedMarked(a, b, posted, ctx, byOwner);
    hide Carried;
    if turn.Some? && turn.value.frame.Some? && turn.value.attached {
      WithTurnOnce(|a|, txFree, posted, turn);
      assert Attaches(turn, turn.value.frame.value);
    }
  }

  /** A packet without a frame. */
  lemma Unattached(a: seq<Option<Pkt>>, txFree: seq<nat>, posted: seq<nat>, turn: Turn)
    requires OneOwner(|a|, txFree, posted, Some(turn)) && Loaded(a, posted, Some(turn)) && turn.frame.None?
    ensures OneOwner(|a|, txFree, posted, None) && Loaded(a, posted, None)
    ensures var t := Some(turn.(attached := true)); OneOwner(|a|, txFree, posted, t) && Loaded(a, posted, t)
  {
    var t := Some(turn.(attached := true));
    assert Holders(txFree, posted, Some(turn)) == Holders(txFree, posted, None) == Holders(txFree, posted, t);
    hide Holders;
  }

  /** Whatever place of the list a completed packet has, the attached one stays the last. */
  lemma ZcopiedWithout(zcopy: seq<Pkt>, turn: Option<Turn>, i: nat)
    requires i < |Zcopied(zcopy, turn)| && DataOnly(zcopy)
    ensures i < |zcopy| && zcopy[i] == Zcopied(zcopy, turn)[i] && DataOnly(Without(zcopy, i))
    ensures Zcopied(Without(zcopy, i), turn) == Without(Zcopied(zcopy, turn), i)
    ensures InZcopy(turn) ==> Without(zcopy, i) != [] && Last(Without(zcopy, i)) == Last(zcopy)
  {
  }

  ghost function Last(q: seq<Pkt>): Pkt
    requires q != []
  {
    q[|q| - 1]
  }

  lemma CountedAlike(raw: Raw, p: Pkt)
    ensures CountRaw(raw, p).1.zcopy == p.zcopy && CountRaw(raw, p).1.control == p.control
  {
  }

  // ---------------------------------------------------------------- lists of data packets

  /** The first packet of a list asks for the credits of all. */
  function Grouped(packets: seq<Pkt>): (r: seq<Pkt>)
    ensures |r| == |packets|
  {
    seq(|packets|, i requires 0 <= i < |packets| => packets[i].(group := if i == 0 then |packets| else 0))
  }

  /** The lists of the model are grouped as the enqueueing loop does it. */
  lemma GroupedLists(id: nat, owner: nat, lens: seq<nat>, count: nat)
    ensures Grouped(Stream(id, owner, lens)) == Stream(id, owner, lens)
    ensures Grouped(Batch(id, owner, count)) == Batch(id, owner, count)
  {
  }

  class TxPath {
    const frames: array<Option<Pkt>>
    const inflightLimit: nat
    const queueLimit: nat
    const creditMax: nat
    var tunnel: bool
    var closed: bool
    var scheduling: bool
    var controlQ: seq<Pkt>
    var dataQ: seq<Pkt>
    var controlQueued: nat
    var dataQueued: nat
    var reserved: nat
    var txFree: seq<nat>
    var zcopy: seq<Pkt>
    var turn: Option<Turn>
    var inflight: nat
    var raw: Raw
    var credits: nat
    var leaving: seq<(Pkt, int)>
    var accepted: nat
    ghost var posted: seq<nat>
    ghost var released: seq<(nat, int)>
    ghost var wire: seq<Pkt>

    /** The counters are the lengths of what they count. */
    ghost predicate Counted()
      reads this
    {
      && controlQueued == |controlQ| && dataQueued == |dataQ|
      && inflight == |posted| + |zcopy| + if turn.Some? && !InZcopy(turn) then 1 else 0
    }

    ghost predicate Sorted()
      reads this, frames
    {
      && ControlOnly(controlQ) && DataOnly(dataQ) && DataOnly(zcopy) && StagedOnly(frames[..])
      && TurnSane(turn, zcopy)
    }

    ghost predicate Owned()
      reads this, frames
    {
      OneOwner(frames.Length, txFree, posted, turn) && Loaded(frames[..], posted, turn)
    }

    ghost predicate Valid()
      reads this, frames
    {
      Counted() && Sorted() && Owned()
    }

    ghost function Value(): Path
      reads this, frames
    {
      Path(tunnel, closed, scheduling, controlQ, dataQ, HandOf(frames[..], zcopy, turn), Carried(frames[..], posted),
           Zcopied(zcopy, turn), leaving, released, |txFree|, frames.Length, inflight, inflightLimit, reserved,
           queueLimit, raw, credits, creditMax, wire, accepted)
    }

    constructor (frameCount: nat, inflightLimit: nat, queueLimit: nat, creditMax: nat)
      ensures Valid() && fresh(frames) && Value() == Start(frameCount, inflightLimit, queueLimit, creditMax)
    {
      this.inflightLimit, this.queueLimit, this.creditMax := inflightLimit, queueLimit, creditMax;
      frames := new Option<Pkt>[frameCount](_ => None);
      tunnel, closed, scheduling, controlQ, dataQ, controlQueued, dataQueued := true, false, false, [], [], 0, 0;
      reserved, zcopy, turn, inflight, raw, credits, leaving, accepted := 0, [], None, 0, NO_RAW, creditMax, [], 0;
      posted, released, wire := [], [], [];
      txFree := [];
      new;
      var i := 0;
      while i < frames.Length
        invariant 0 <= i <= frames.Length && |txFree| == i && posted == [] && turn == None
        invariant forall f: nat :: multiset(txFree)[f] == if f < i then 1 else 0
        invariant fresh(frames) && forall f :: 0 <= f < frames.Length ==> frames[f] == None
        invariant Value() == Start(frameCount, inflightLimit, queueLimit, creditMax).(free := i)
        invariant Counted() && Sorted()
        modifies this`txFree
      {
        txFree := txFree + [i];
        i := i + 1;
      }
    }

    // ---------------------------------------------------------------- enqueueing

    /** tbv_path_enqueue_control. */
    method SendControlFrame(doneCtx: Option<nat>) returns (ok: bool)
      requires Valid()
      modifies this`controlQ, this`controlQueued, this`accepted
      ensures Valid() && Value() == EnqueueControl(old(Value()), doneCtx) && ok == (tunnel && !closed)
    {
      hide OneOwner;
      hide Loaded;
      hide Carried;
      hide HandOf;
      hide StagedOnly;
      hide TurnSane;
      hide DataOnly;
      if !tunnel || closed {
        return false;
      }
      controlQ := controlQ + [Pkt(accepted, true, false, false, false, false, false, doneCtx, doneCtx, 0, 0)];
      controlQueued := controlQueued + 1;
      accepted := accepted + 1;
      return true;
    }

    /** tbv_path_enqueue_data. */
    method SendDataFrame(doneCtx: Option<nat>) returns (ok: bool)
      requires Valid()
      modifies this`dataQ, this`dataQueued, this`accepted, this`reserved
      ensures Valid() && Value() == EnqueueData(old(Value()), doneCtx) && ok == (accepted != old(accepted))
    {
      hide Zcopied;
      hide InZcopy;
      hide PacketIn;
      hide OneOwner;
      hide Loaded;
      hide Carried;
      hide HandOf;
      hide StagedOnly;
      hide TurnSane;
      hide ControlOnly;
      if !tunnel || closed {
        return false;
      }
      if reserved > 0 {
        reserved := reserved - 1;
      } else if dataQueued >= queueLimit {
        return false;
      }
      dataQ := dataQ + [Plain(accepted, doneCtx, 1)];
      dataQueued := dataQueued + 1;
      accepted := accepted + 1;
      return true;
    }

    /** The loop that marks the packets of a list as queued, with the credits the first one asks for. */
    method AppendList(packets: seq<Pkt>)
      requires Valid() && DataOnly(packets)
      modifies this`dataQ, this`dataQueued, this`accepted
      ensures Valid() && dataQ == old(dataQ) + Grouped(packets) && accepted == old(accepted) + |packets|
    {
      hide OneOwner;
      hide Loaded;
      hide Carried;
      hide HandOf;
      hide StagedOnly;
      hide TurnSane;
      hide ControlOnly;
      var first, list, i := true, [], 0;
      while i < |packets|
        invariant 0 <= i <= |packets| && first == (i == 0) && list == Grouped(packets)[..i]
        invariant dataQueued == |dataQ| + i
        modifies this`dataQueued
      {
        list := list + [packets[i].(group := if first then |packets| else 0)];
        dataQueued := dataQueued + 1;
        first, i := false, i + 1;
      }
      dataQ := dataQ + list;
      accepted := accepted + |packets|;
    }

    /** tbv_path_enqueue_data_list and tbv_path_enqueue_reserved_data_list. */
    method SendList(packets: seq<Pkt>, useReserved: bool) returns (ok: bool)
      requires Valid() && DataOnly(packets)
      modifies this`dataQ, this`dataQueued, this`accepted, this`reserved
      ensures Valid() && Value() == EnqueueList(old(Value()), Grouped(packets), useReserved)
      ensures ok == (packets == [] || accepted == old(accepted) + |packets|)
    {
      hide OneOwner;
      hide Loaded;
      hide Carried;
      hide HandOf;
      hide StagedOnly;
      hide TurnSane;
      hide ControlOnly;
      hide Grouped;
      hide DataOnly;
      if packets == [] {
        return true;
      }
      if !tunnel || closed {
        return false;
      }
      if useReserved {
        if reserved < |packets| {
          return false;
        }
        reserved := reserved - |packets|;
      } else if |packets| > queueLimit || dataQueued + reserved > queueLimit - |packets| {
        return false;
      }
      AppendList(packets);
      return true;
    }

    /** tbv_path_reserve_data. */
    method ReserveData(frames: nat) returns (ok: bool)
      requires Valid()
      modifies this`reserved
      ensures Valid() && Value() == Reserve(old(Value()), frames)
      ensures frames > 0 ==> ok == (tunnel && !closed && |dataQ| + old(reserved) + frames <= queueLimit)
    {
      hide OneOwner;
      hide Loaded;
      hide Carried;
      hide HandOf;
      hide StagedOnly;
      hide TurnSane;
      hide ControlOnly;
      hide DataOnly;
      if frames == 0 {
        return true;
      }
      if !tunnel || closed || frames > queueLimit || dataQueued + reserved > queueLimit - frames {
        return false;
      }
      reserved := reserved + frames;
      return true;
    }

    /** tbv_path_release_data_reservation. */
    method ReleaseReserved(frames: nat)
      requires Valid()
      modifies this`reserved
      ensures Valid() && Value() == ReleaseReservation(old(Value()), frames)
    {
      hide OneOwner;
      hide Loaded;
      hide Carried;
      hide HandOf;
      hide StagedOnly;
      hide TurnSane;
      hide ControlOnly;
      hide DataOnly;
      reserved := if reserved >= frames then reserved - frames else 0;
    }

    // ---------------------------------------------------------------- tbv_path_schedule_tx

    /** Which queue the scheduler takes from. */
    method ChooseQueue() returns (source: Option<Source>)
      ensures source == Choose(Value())
    {
      if raw.active {
        if dataQ == [] {
          return None;
        }
        var p := dataQ[0];
        return if !p.zcopy || p.start || p.owner != raw.owner then None else Some(Data);
      }
      if controlQ != [] {
        return Some(Control);
      }
      return if dataQ == [] then None else Some(Data);
    }

    /** The in-flight limit, the free frames, the control reserve and the credits. A control packet is
        always staged. */
    method MayTake(p: Pkt, source: Source) returns (ok: bool)
      requires source == Control ==> p.control && !p.zcopy
      ensures ok == Allowed(Value(), p, source)
    {
      if source == Data && inflightLimit > 0 && inflight >= inflightLimit {
        return false;
      }
      var staging := source == Control || !p.zcopy;
      if staging && txFree == [] {
        return false;
      }
      if staging && source == Data {
        var available := if frames.Length > inflight then frames.Length - inflight else 0;
        if available <= ControlReserve(frames.Length) {
          return false;
        }
      }
      return p.control || creditMax == 0 || credits >= Credits.Needed(p.group, creditMax);
    }

    /** The first locked section of one turn of the loop. */
    method TakePacket()
      requires Valid() && turn.None? && scheduling
      modifies this
      ensures Valid() && Value() == Take(old(Value()))
      ensures turn.Some? ==> !turn.value.attached
    {
      hide OneOwner;
      hide Loaded;
      hide Carried;
      hide StagedOnly;
      hide TurnSane;
      if !tunnel || closed {
        scheduling := false;
        return;
      }
      var source := ChooseQueue();
      if source.None? {
        scheduling := false;
        return;
      }
      var p := if source.value == Control then controlQ[0] else dataQ[0];
      var ok := MayTake(p, source.value);
      if !ok {
        scheduling := false;
        return;
      }
      TakeHead(p, source.value);
    }

    method TakeHead(p: Pkt, source: Source)
      requires Valid() && turn.None? && (!p.zcopy ==> txFree != [])
      requires if source == Control then controlQ != [] && p == controlQ[0] else dataQ != [] && p == dataQ[0]
      modifies this
      ensures Valid() && Value() == Pop(old(Value()), p, source)
      ensures turn.Some? && !turn.value.attached
    {
      hide Dequeue;
      hide Grab;
      RemoveHead(source);
      GrabPacket(p);
    }

    method RemoveHead(source: Source)
      requires Valid()
      requires source == Control ==> controlQ != []
      requires source == Data ==> dataQ != []
      modifies this`controlQ, this`dataQ, this`controlQueued, this`dataQueued
      ensures Valid() && Value() == Dequeue(old(Value()), source)
    {
      hide OneOwner;
      hide Loaded;
      hide Carried;
      hide HandOf;
      hide StagedOnly;
      hide TurnSane;
      if source == Control {
        controlQueued := controlQueued - 1;
        controlQ := controlQ[1..];
      } else {
        dataQueued := dataQueued - 1;
        dataQ := dataQ[1..];
      }
    }

    /** The packet takes its credit and, unless it is zero-copy, the first free frame. */
    method GrabPacket(p: Pkt)
      requires Valid() && turn.None? && (!p.zcopy ==> txFree != []) && (p.zcopy ==> !p.control)
      modifies this`turn, this`txFree, this`inflight, this`raw, this`credits
      ensures Valid() && Value() == Grab(old(Value()), p)
      ensures turn.Some? && !turn.value.attached
    {
      hide Attaches;
      hide PacketIn;
      hide OneOwner;
      hide Loaded;
      hide Carried;
      hide CountRaw;
      hide ControlOnly;
      hide DataOnly;
      hide StagedOnly;
      var before := raw;
      CountedAlike(before, p.(group := 0));
      var q, charged := Charge(p);
      TakeFrame(q, charged, before, p.group);
    }

    method Charge(p: Pkt) returns (q: Pkt, charged: bool)
      modifies this`credits, this`raw, this`inflight
      ensures inflight == old(inflight) + 1
      ensures (raw, q) == CountRaw(old(raw), p.(group := 0)) && charged == (!p.control && creditMax > 0)
      ensures credits == if charged && old(credits) > 0 then old(credits) - 1 else old(credits)
    {
      charged := !p.control && creditMax > 0;
      if charged && credits > 0 {
        credits := credits - 1;
      }
      q := CountStream(p.(group := 0));
      inflight := inflight + 1;
    }

    method TakeFrame(q: Pkt, charged: bool, before: Raw, group: nat)
      requires Owned() && turn.None? && (!q.zcopy ==> txFree != [])
      modifies this`turn, this`txFree
      ensures Owned() && turn.Some?
      ensures turn == Some(Turn(q, turn.value.frame, charged, before, group, false))
      ensures turn.value.frame.None? <==> q.zcopy
      ensures |txFree| == if q.zcopy then |old(txFree)| else |old(txFree)| - 1
    {
      var f := None;
      if !q.zcopy {
        f := Some(txFree[0]);
        assert txFree == [txFree[0]] + txFree[1..];
        txFree := txFree[1..];
      }
      turn := Some(Turn(q, f, charged, before, group, false));
      assert Holders(txFree, posted, turn) == old(Holders(txFree, posted, turn));
    }

    /** tbv_path_count_raw_stream_locked. */
    method CountStream(p: Pkt) returns (q: Pkt)
      modifies this`raw
      ensures (raw, q) == CountRaw(old(raw), p)
    {
      q := p;
      if q.start {
        raw := Raw(true, q.owner, false, 0);
      }
      if raw.active && q.owner == raw.owner {
        raw := raw.(inflight := raw.inflight + 1);
        q := q.(counted := true);
      }
    }

    /** The packet is copied to its frame, or joins the zero-copy list, before it goes to the ring. */
    method Attach()
      requires Valid() && turn.Some? && !turn.value.attached
      modifies this`turn, this`zcopy, frames
      ensures Valid() && Value() == old(Value())
      ensures turn == Some(old(turn).value.(attached := true))
    {
      hide OneOwner;
      hide Loaded;
      hide StagedOnly;
      hide Carried;
      hide PacketIn;
      hide ControlOnly;
      var t := turn.value;
      ghost var was := frames[..];
      if t.frame.Some? {
        AttachFrame(was, txFree, posted, t);
        frames[t.frame.value] := Some(t.pkt);
        assert frames[..] == was[t.frame.value := Some(t.pkt)];
      } else {
        zcopy := zcopy + [t.pkt];
        Unattached(was, txFree, posted, t);
      }
      turn := Some(t.(attached := true));
    }

    /** tb_ring_tx accepted the frame. */
    method Accepted()
      requires Valid() && turn.Some? && turn.value.attached
      modifies this`turn, this`posted, this`wire
      ensures Valid() && Value() == Posted(old(Value()))
    {
      hide OneOwner;
      hide Loaded;
      hide StagedOnly;
      hide Carried;
      hide PacketIn;
      hide ControlOnly;
      hide DataOnly;
      wire := wire + [Value().hand.value.pkt];
      if turn.value.frame.Some? {
        SubmitFrame(frames[..], txFree, posted, turn.value);
        posted := posted + [turn.value.frame.value];
      } else {
        Unattached(frames[..], txFree, posted, turn.value);
      }
      turn := None;
    }

    /** tb_ring_tx failed. */
    method Refused(enomem: bool, status: int)
      requires Valid() && turn.Some? && turn.value.attached
      modifies this, frames
      ensures Valid() && Value() == PostFailed(old(Value()), enomem, status)
    {
      hide Restored;
      hide PathTx.PutBack;
      var t := turn.value;
      var p := Detach();
      PutBack(p.(counted := false), t.group, enomem, status);
    }

    /** The packet leaves its frame, or the zero-copy list; frame, credit and raw stream are put back. */
    method Detach() returns (p: Pkt)
      requires Valid() && turn.Some? && turn.value.attached
      modifies this`turn, this`txFree, this`zcopy, this`credits, this`inflight, this`raw, this`scheduling, frames
      ensures Valid() && p == old(Value()).hand.value.pkt && turn.None?
      ensures Value() == Restored(old(Value()), old(Value()).hand.value)
      ensures p.zcopy ==> !p.control
    {
      hide OneOwner;
      hide Loaded;
      hide Carried;
      hide PacketIn;
      hide ControlOnly;
      hide DataOnly;
      hide StagedOnly;
      hide Unwound;
      var t := turn.value;
      p := Unload();
      Unwind(t);
    }

    method Unwind(t: Turn)
      requires inflight > 0
      modifies this`credits, this`inflight, this`raw, this`scheduling
      ensures Value() == Unwound(old(Value()), t.charged, t.before) && inflight == old(inflight) - 1
    {
      raw, scheduling, inflight := t.before, false, inflight - 1;
      if t.charged && credits < creditMax {
        credits := credits + 1;
      }
    }

    method Unload() returns (p: Pkt)
      requires Owned() && Sorted() && turn.Some? && turn.value.attached
      modifies this`turn, this`txFree, this`zcopy, frames
      ensures Owned() && Sorted() && turn.None? && p == old(Value()).hand.value.pkt && (p.zcopy ==> !p.control)
      ensures |txFree| == |old(txFree)| + if old(turn).value.frame.Some? then 1 else 0
      ensures zcopy == old(Zcopied(zcopy, turn))
      ensures Carried(frames[..], posted) == Carried(old(frames[..]), posted)
    {
      hide OneOwner;
      hide Loaded;
      hide StagedOnly;
      hide Carried;
      hide ControlOnly;
      var t := turn.value;
      ghost var was := frames[..];
      if t.frame.Some? {
        var f := t.frame.value;
        ReturnFrame(was, txFree, posted, t);
        p := frames[f].value;
        frames[f] := None;
        txFree := txFree + [f];
        assert frames[..] == was[f := None];
      } else {
        p := zcopy[|zcopy| - 1];
        zcopy := zcopy[..|zcopy| - 1];
        Unattached(was, txFree, posted, t);
      }
      turn := None;
    }

    /** A refused packet is requeued at the head, or released. */
    method PutBack(p: Pkt, group: nat, enomem: bool, status: int)
      requires Valid() && (p.control ==> !p.zcopy)
      modifies this`controlQ, this`dataQ, this`controlQueued, this`dataQueued, this`leaving
      ensures Valid() && Value() == PathTx.PutBack(old(Value()), p, group, enomem, status)
    {
      hide OneOwner;
      hide Loaded;
      hide Carried;
      hide HandOf;
      hide StagedOnly;
      hide TurnSane;
      if enomem && tunnel && (p.control || p.doneCtx.Some? || p.owner.Some?) {
        if p.control {
          controlQ := [p] + controlQ;
          controlQueued := controlQueued + 1;
        } else {
          dataQ := [p.(group := group)] + dataQ;
          dataQueued := dataQueued + 1;
        }
      } else {
        leaving := leaving + [(p, status)];
      }
    }

    // ---------------------------------------------------------------- completion

    /** tbv_path_finish_raw_stream_if_needed. */
    method FinishStream(p: Pkt)
      modifies this`raw
      ensures raw == FinishRaw(old(raw), p)
    {
      if !p.counted {
        return;
      }
      if raw.owner == p.owner {
        if p.end {
          raw := raw.(endSeen := true);
        }
        if raw.inflight > 0 {
          raw := raw.(inflight := raw.inflight - 1);
        }
        if raw.endSeen && raw.inflight == 0 {
          raw := NO_RAW;
        }
      }
      if !raw.active {
        raw := NO_RAW;
      }
    }

    /** A submitted frame gives up its packet and joins the free list. */
    method FreeFrame(f: nat, ghost k: nat) returns (p: Pkt)
      requires Owned() && Sorted() && k < |posted| && posted[k] == f
      modifies this`posted, this`txFree, frames
      ensures Owned() && Sorted() && p == Carried(old(frames[..]), old(posted))[k]
      ensures |txFree| == |old(txFree)| + 1 && |posted| == |old(posted)| - 1
      ensures Carried(frames[..], posted) == Without(Carried(old(frames[..]), old(posted)), k)
      ensures HandOf(frames[..], zcopy, turn) == old(HandOf(frames[..], zcopy, turn))
    {
      hide OneOwner;
      hide Loaded;
      hide StagedOnly;
      hide Carried;
      hide ControlOnly;
      hide DataOnly;
      ghost var was := frames[..];
      CallbackFrame(was, txFree, posted, turn, k);
      p := frames[f].value;
      frames[f] := None;
      txFree := txFree + [f];
      posted := Without(posted, k);
      assert frames[..] == was[f := None];
    }

    /** The common end of both callbacks. */
    method Retire(p: Pkt, canceled: bool)
      requires inflight > 0
      modifies this`raw, this`leaving, this`inflight
      ensures Value() == PathTx.Retire(old(Value()), p, canceled) && inflight == old(inflight) - 1
    {
      FinishStream(p);
      leaving := leaving + [(p, if canceled || p.canceled then ECANCELED else 0)];
      inflight := inflight - 1;
    }

    /** tbv_path_tx_complete for the k-th of the submitted frames. */
    method StagedComplete(f: nat, canceled: bool, ghost k: nat)
      requires Valid() && k < |posted| && posted[k] == f
      modifies this`posted, this`txFree, this`raw, this`leaving, this`inflight, frames
      ensures Valid() && Value() == CompleteStaged(old(Value()), k, canceled)
    {
      hide OneOwner;
      hide Loaded;
      hide Carried;
      hide HandOf;
      hide ControlOnly;
      hide DataOnly;
      hide StagedOnly;
      hide PathTx.Retire;
      var p := FreeFrame(f, k);
      Retire(p, canceled);
    }

    /** tbv_path_zcopy_tx_complete. */
    method ZcopyComplete(i: nat, canceled: bool)
      requires Valid() && i < |Zcopied(zcopy, turn)|
      modifies this`zcopy, this`raw, this`leaving, this`inflight
      ensures Valid() && Value() == CompleteZcopy(old(Value()), i, canceled)
    {
      hide OneOwner;
      hide Loaded;
      hide Carried;
      hide PacketIn;
      hide ControlOnly;
      hide StagedOnly;
      hide PathTx.Retire;
      ZcopiedWithout(zcopy, turn, i);
      hide DataOnly;
      hide Zcopied;
      hide Without;
      var p := zcopy[i];
      zcopy := Without(zcopy, i);
      Retire(p, canceled);
    }

    /** tbv_path_tx_packet_release: the done callback runs. */
    method RunDone(i: nat)
      requires Valid()
      modifies this`leaving, this`released
      ensures Valid() && Value() == Release(old(Value()), i)
    {
      hide OneOwner;
      hide Loaded;
      hide Carried;
      hide HandOf;
      hide StagedOnly;
      hide TurnSane;
      hide ControlOnly;
      hide DataOnly;
      if i < |leaving| {
        released := released + [(leaving[i].0.id, leaving[i].1)];
        leaving := Without(leaving, i);
      }
    }

    /** tbv_path_tx_retired: the counter tells that no packet is left on the path. */
    method Retired() returns (done: bool)
      requires Valid()
      ensures var s := Value(); done == (s.controlQ == [] && s.dataQ == [] && s.hand.None? && s.staged == []
                                         && s.zcopy == [])
    {
      return inflight == 0 && controlQ == [] && dataQ == [];
    }

    // ---------------------------------------------------------------- cancellation

    /** The loop of tbv_path_release_packet_list over one queue, up to the release itself. */
    method ListFor(q: seq<Pkt>, status: int) returns (r: seq<(Pkt, int)>)
      ensures r == WithStatus(q, status)
    {
      r := [];
      var i := 0;
      while i < |q|
        invariant 0 <= i <= |q| == |WithStatus(q, status)| && r == WithStatus(q, status)[..i]
      {
        r := r + [(q[i], status)];
        i := i + 1;
      }
    }

    /** tbv_path_cancel_queued_tx_status. */
    method CancelEverything(status: int)
      requires Valid()
      modifies this`controlQ, this`dataQ, this`controlQueued, this`dataQueued, this`reserved, this`raw, this`leaving
      ensures Valid() && Value() == CancelQueued(old(Value()), status)
    {
      hide InZcopy;
      hide PacketIn;
      hide Zcopied;
      hide OneOwner;
      hide Loaded;
      hide Carried;
      hide HandOf;
      hide StagedOnly;
      hide TurnSane;
      hide WithStatus;
      var control := ListFor(controlQ, status);
      var data := ListFor(dataQ, status);
      leaving := leaving + control + data;
      EmptyQueues();
    }

    method EmptyQueues()
      modifies this`controlQ, this`dataQ, this`controlQueued, this`dataQueued, this`reserved, this`raw
      ensures controlQ == [] && dataQ == [] && controlQueued == 0 && dataQueued == 0 && reserved == 0 && raw == NO_RAW
    {
      controlQ, dataQ, controlQueued, dataQueued, reserved, raw := [], [], 0, 0, 0, NO_RAW;
    }

    /** The loop of tbv_path_cancel_data_match over the data queue. */
    method CancelQueuedMatching(ctx: nat, byOwner: bool)
      requires dataQueued == |dataQ| && DataOnly(dataQ)
      modifies this`dataQ, this`dataQueued, this`leaving
      ensures dataQueued == |dataQ| && DataOnly(dataQ)
      ensures dataQ == Kept(old(dataQ), ctx, byOwner)
      ensures leaving == old(leaving) + Canceled(old(dataQ), ctx, byOwner)
    {
      var kept, canceled, i := [], [], 0;
      while i < |dataQ|
        invariant 0 <= i <= |dataQ| && dataQueued == |kept| + (|dataQ| - i) && DataOnly(kept)
        invariant kept == Kept(dataQ[..i], ctx, byOwner) && canceled == Canceled(dataQ[..i], ctx, byOwner)
        modifies this`dataQueued
      {
        assert dataQ[..i + 1][..i] == dataQ[..i];
        if Matches(dataQ[i], ctx, byOwner) {
          canceled := canceled + [(dataQ[i].(owner := None), ECANCELED)];
          dataQueued := dataQueued - 1;
        } else {
          kept := kept + [dataQ[i]];
        }
        i := i + 1;
      }
      assert dataQ[..i] == dataQ;
      dataQ, leaving := kept, leaving + canceled;
    }

    /** The loop over the frames marks the packets in them. */
    method MarkFrames(ctx: nat, byOwner: bool)
      modifies frames
      ensures MarkedFrames(old(frames[..]), frames[..], ctx, byOwner)
    {
      var i := 0;
      while i < frames.Length
        invariant 0 <= i <= frames.Length
        invariant MarkedFrames(old(frames[..i]), frames[..i], ctx, byOwner)
        invariant forall j :: i <= j < frames.Length ==> frames[j] == old(frames[j])
      {
        if frames[i].Some? && !frames[i].value.control && Matches(frames[i].value, ctx, byOwner) {
          frames[i] := Some(frames[i].value.(canceled := true));
        }
        i := i + 1;
      }
    }

    /** The loop over the zero-copy list. */
    method MarkZcopy(ctx: nat, byOwner: bool)
      requires DataOnly(zcopy)
      modifies this`zcopy
      ensures DataOnly(zcopy) && zcopy == Marked(old(zcopy), ctx, byOwner)
    {
      var i := 0;
      ghost var was := zcopy;
      while i < |zcopy|
        invariant 0 <= i <= |zcopy| == |was|
        invariant forall j :: 0 <= j < i ==> zcopy[j] == MarkOne(was[j], ctx, byOwner)
        invariant forall j :: i <= j < |was| ==> zcopy[j] == was[j]
      {
        if Matches(zcopy[i], ctx, byOwner) {
          zcopy := zcopy[i := zcopy[i].(canceled := true)];
        }
        i := i + 1;
      }
    }

    /** The packets that were submitted, or are attached by the scheduler, are only marked. */
    method MarkSubmitted(ctx: nat, byOwner: bool)
      requires Valid()
      modifies this`zcopy, frames
      ensures Valid()
      ensures Carried(frames[..], posted) == Marked(old(Carried(frames[..], posted)), ctx, byOwner)
      ensures Zcopied(zcopy, turn) == Marked(old(Zcopied(zcopy, turn)), ctx, byOwner)
      ensures HandOf(frames[..], zcopy, turn)
           == HandMarked(old(HandOf(frames[..], zcopy, turn)), ctx, byOwner, turn.Some? && turn.value.attached)
    {
      hide OneOwner;
      hide Loaded;
      hide StagedOnly;
      hide Carried;
      hide PacketIn;
      hide ControlOnly;
      hide DataOnly;
      ghost var was := frames[..];
      MarkFrames(ctx, byOwner);
      MarkedOwned(was, frames[..], txFree, posted, turn, ctx, byOwner);
      hide MarkedFrames;
      MarkZcopy(ctx, byOwner);
    }

    /** tbv_path_cancel_data_match. */
    method CancelContext(ctx: nat, byOwner: bool)
      requires Valid()
      modifies this`raw, this`dataQ, this`dataQueued, this`leaving, this`zcopy, frames
      ensures Valid()
      ensures Value() == CancelMatch(old(Value()), ctx, byOwner, turn.Some? && turn.value.attached)
    {
      hide Zcopied;
      hide TurnSane;
      hide Kept;
      hide Canceled;
      hide Marked;
      hide OneOwner;
      hide Loaded;
      hide StagedOnly;
      hide Carried;
      hide PacketIn;
      hide HandOf;
      hide ControlOnly;
      hide DataOnly;
      if byOwner && raw.active && raw.owner == Some(ctx) {
        raw := NO_RAW;
      }
      CancelQueuedMatching(ctx, byOwner);
      MarkSubmitted(ctx, byOwner);
    }
  }
}
