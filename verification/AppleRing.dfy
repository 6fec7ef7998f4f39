/** The ring of pending slots of struct tbv_qp for Apple messages (kernel/ibdev.c), updated in place,
    against ApplePending. */
module AppleRing {
  import opened Prelude
  import opened Lists
  import opened RecvWqe
  import opened Ring
  import opened ApplePending

  /** struct tbv_apple_pending_rx: the bytes delivered so far, and the capacity of the buffer. */
  datatype Slot = Slot(data: seq<u8>, capacity: u32, status: WcStatus, active: bool, ready: bool)

  const PAGE: nat := 4096

  ghost predicate Holds(slot: Slot, p: Pend, active: bool) {
    slot.data == p.data && slot.status == p.status && slot.active == active && slot.ready == !active
  }

  /** A completion without the message number. */
  datatype Wc = Wc(wqe: Wqe, status: WcStatus, byteLen: nat)

  ghost predicate SameDone(cq: seq<Wc>, done: seq<Done>) {
    |cq| == |done| && forall i :: 0 <= i < |cq| ==> cq[i] == Wc(done[i].wqe, done[i].status, done[i].byteLen)
  }

  /** The ready slots follow the head. */
  ghost predicate ReadyAt(slots: seq<Slot>, head: nat, ready: seq<Pend>)
    requires head < |slots| && |ready| <= |slots|
  {
    forall i :: 0 <= i < |ready| ==> Holds(slots[Wrap(head, i, |slots|)], ready[i], false)
  }

  class PendingRing {
    const slots: array<Slot>
    var head: nat
    var tail: nat
    var readyCount: nat
    var active: int
    var discard: bool
    var bytes: int
    var recvq: seq<Wqe>
    var room: nat
    var overflowed: bool
    var cq: seq<Wc>
    ghost var a: Apple  // the state of ApplePending that the fields stand for

    ghost predicate Valid()
      reads this, slots
    {
      && Plain() && Counted(a) && slots.Length == a.slots
      && (a.slots > 0 ==> head < a.slots && RingHolds())
      && (a.slots == 0 ==> active == -1)
    }

    ghost predicate Plain()
      reads this
    {
      && discard == a.discard && bytes == a.bytes && recvq == a.recvq && room == a.room && overflowed == a.overflowed
      && SameDone(cq, a.done) && readyCount == |a.ready|
    }

    ghost predicate RingHolds()
      requires head < slots.Length && |a.ready| <= slots.Length
      reads this, slots
    {
      && tail == Wrap(head, |a.ready|, slots.Length) && ReadyAt(slots[..], head, a.ready)
      && (if a.active.Some? then active == tail && Holds(slots[tail], a.active.value, true) else active == -1)
    }

    constructor (slotCount: nat, room: nat)
      ensures Valid() && a == ApplePending.Start(slotCount, room).rx && fresh(slots)
    {
      slots := new Slot[slotCount](_ => Slot([], 0, Success, false, false));
      head, tail, readyCount, active, discard, bytes := 0, 0, 0, -1, false, 0;
      recvq, this.room, overflowed, cq := [], room, false, [];
      a := ApplePending.Start(slotCount, room).rx;
    }

    /** tbv_apple_rx_push_wc. */
    method Push(wc: Wc)
      modifies this`cq, this`room, this`overflowed
      ensures var ok := !old(overflowed) && old(room) > 0;
              && overflowed == !ok && room == (if ok then old(room) - 1 else old(room))
              && cq == if ok then old(cq) + [wc] else old(cq)
    {
      if overflowed || room == 0 {
        overflowed := true;
      } else {
        cq := cq + [wc];
        room := room - 1;
      }
    }

    /** One turn of the drain loop: the head slot is copied out and released. */
    method DeliverSlot()
      requires Valid() && a.ready != [] && recvq != []
      modifies this, slots
      ensures Valid() && a == DeliverHead(old(a))
    {
      hide Weigh;
      hide CopyToWqe;
      hide ReadyAt;
      WeighHead(a.ready);
      var w := recvq[0];
      recvq := recvq[1..];
      var p := ReleaseHead();
      var (v, delivered, ok) := CopyToWqe(w, 0, if |p.data| < |w.buf| then p.data else p.data[..|w.buf|]);
      Push(Wc(v, if !ok then ProtErr else if |p.data| > |w.buf| then LenErr else p.status, delivered));
      bytes := if bytes >= |p.data| then bytes - |p.data| else 0;
      a := DeliverHead(a);
    }

    method ReleaseHead() returns (p: Slot)
      requires slots.Length == a.slots && Counted(a) && a.ready != [] && head < slots.Length && RingHolds()
      requires readyCount == |a.ready|
      modifies this`head, this`readyCount, slots
      ensures Holds(p, a.ready[0], false) && head < slots.Length && readyCount == old(readyCount) - 1
      ensures tail == Wrap(head, |a.ready| - 1, slots.Length) && ReadyAt(slots[..], head, a.ready[1..])
      ensures a.active.Some? ==> Holds(slots[tail], a.active.value, true)
    {
      hide Weigh;
      ghost var was := slots[..];
      HeadHolds(was, head, a.ready);
      p := slots[head];
      slots[head] := p.(data := [], status := Success, active := false, ready := false);
      HeadLeaves(was, slots[..], head, a.ready);
      head := Index(head, 1, slots.Length);
      readyCount := readyCount - 1;
    }

    /** tbv_apple_rx_drain_pending_locked. */
    method DrainRing()
      requires Valid()
      modifies this, slots
      ensures Valid() && a == Drain(old(a))
    {
      hide DeliverHead;
      hide Weigh;
      while readyCount > 0
        invariant Valid() && Drain(a) == Drain(old(a))
        decreases readyCount
      {
        if recvq == [] {
          return;
        }
        ghost var n := readyCount;
        ghost var was := a;
        DeliverSlot();
        DeliverShortens(was);
      }
    }

    /** tbv_apple_pending_active_locked. */
    method OpenSlot(ghost msgNo: nat, limit: u32, totalLimit: u32) returns (ok: bool)
      requires Valid()
      modifies this`active, this`a, slots
      ensures Valid() && ok == CanOpen(old(a), Env(limit, totalLimit, true))
      ensures a == if ok then old(a).(active := Some(Opened(old(a), msgNo))) else old(a)
    {
      hide Weigh;
      if active >= 0 {
        return true;
      }
      if slots.Length == 0 || readyCount >= slots.Length || limit == 0 || totalLimit == 0 {
        return false;
      }
      ghost var was := slots[..];
      slots[tail] := slots[tail].(data := [], status := Success, active := true, ready := false);
      TailFree(was, slots[..], head, a.ready);
      active := tail;
      a := a.(active := Some(Pend(msgNo, [], Success)));
      return true;
    }

    /** tbv_apple_rx_copy_piece_to_buf for the active slot, with the status its failure leaves. */
    method CopyPiece(data: seq<u8>, limit: u32, totalLimit: u32, alloc: bool) returns (ghost fits: bool)
      requires Valid() && active >= 0 && 0 < |data| <= ApplePending.FRAME_SIZE
      modifies this`bytes, this`a, slots
      ensures Valid() && (alloc ==> fits)
      ensures var (p, b) := Piece(old(a).active.value, old(a).bytes, data, Env(limit, totalLimit, fits));
              a == old(a).(active := Some(p), bytes := b)
    {
      hide Weigh;
      var slot := slots[active];
      var maxBytes := if limit < MAX_APPLE_MSG then limit else MAX_APPLE_MSG;
      var required := |slot.data| + |data|;
      fits := required <= slot.capacity || alloc;
      if maxBytes == 0 || required > maxBytes || totalLimit == 0 || bytes + |data| > totalLimit {
        SetSlot(slot.(status := LenErr), a.active.value.(status := LenErr));
        return;
      }
      var capacity := slot.capacity;
      if required > capacity {
        if !alloc {
          SetSlot(slot.(status := ProtErr), a.active.value.(status := ProtErr));
          return;
        }
        capacity := NewCapacity(capacity, required, maxBytes);
      }
      bytes := bytes + |data|;
      a := a.(bytes := bytes, active := Some(a.active.value.(data := a.active.value.data + data)));
      slots[active] := slot.(data := slot.data + data, capacity := capacity);
      ghost var now := slots[..];
      TailFree(old(slots[..]), now, head, a.ready);
    }

    /** Update the active slot without changing its bytes. */
    method SetSlot(slot: Slot, ghost p: Pend)
      requires Valid() && active >= 0 && Holds(slot, p, true) && p.data == a.active.value.data
      modifies this`a, slots
      ensures Valid() && a == old(a).(active := Some(p))
    {
      hide Weigh;
      slots[active] := slot;
      TailFree(old(slots[..]), slots[..], head, a.ready);
      a := a.(active := Some(p));
    }

    /** tbv_apple_pending_finish_locked. */
    method FinishSlot()
      requires Valid() && active >= 0
      modifies this, slots
      ensures Valid() && a == Finished(old(a))
    {
      hide Weigh;
      WeighOne(a.ready, a.active.value, DataLen);
      slots[active] := slots[active].(active := false, ready := true);
      TailJoins(old(slots[..]), slots[..], head, a.ready, a.active.value);
      active := -1;
      readyCount := readyCount + 1;
      WrapStep(head, |a.ready|, slots.Length);
      tail := Index(tail, 1, slots.Length);
      a := Finished(a);
    }

    /** tbv_ibdev_rx_apple_frame for a frame of the rail the queue pair is bound to. */
    method RxFrame(f: Frame, limit: u32, totalLimit: u32, alloc: bool) returns (ghost fits: bool)
      requires Valid()
      modifies this, slots
      ensures Valid() && (alloc ==> fits) && a == OnFrame(old(a), f, Env(limit, totalLimit, fits))
    {
      hide Drain;
      hide Piece;
      hide Weigh;
      fits := true;
      if f.data == [] || |f.data| > ApplePending.FRAME_SIZE {
        return;
      }
      DrainRing();
      if discard {
        if f.eof == FRAME_END {
          discard := false;
          a := a.(discard := false);
        }
        return;
      }
      if active < 0 && !f.sof && f.eof != FRAME_END {
        return;
      }
      ghost var b := a;
      var ok := OpenSlot(f.msgNo, limit, totalLimit);
      if !ok {
        discard := f.eof != FRAME_END;
        a := a.(discard := discard);
        return;
      }
      fits := CopyPiece(f.data, limit, totalLimit, alloc);
      assert a == Filled(b, f, Env(limit, totalLimit, fits));
      if f.eof == FRAME_END {
        FinishSlot();
        DrainRing();
      }
    }
  }

  /** The doubling loop for a larger buffer; it always reaches the size required. */
  method NewCapacity(capacity: u32, required: nat, maxBytes: nat) returns (r: u32)
    requires capacity < required <= maxBytes <= MAX_APPLE_MSG
    ensures required <= r && (r <= maxBytes || r == PAGE)
  {
    r := if capacity != 0 then capacity else PAGE;
    while r < required
      invariant r <= maxBytes || r == PAGE
      decreases required - r
    {
      if 2 * r > maxBytes {
        r := maxBytes;
        break;
      }
      r := 2 * r;
    }
  }

  lemma HeadHolds(slots: seq<Slot>, head: nat, ready: seq<Pend>)
    requires head < |slots| && 0 < |ready| <= |slots| && ReadyAt(slots, head, ready)
    ensures Holds(slots[head], ready[0], false)
  {
    assert Wrap(head, 0, |slots|) == head;
  }

  /** The head slot is released. */
  lemma HeadLeaves(was: seq<Slot>, now: seq<Slot>, head: nat, ready: seq<Pend>)
    requires head < |was| == |now| && 0 < |ready| <= |was| && ReadyAt(was, head, ready)
    requires forall i :: 0 <= i < |was| && i != head ==> now[i] == was[i]
    ensures ReadyAt(now, Wrap(head, 1, |now|), ready[1..])
    ensures Wrap(Wrap(head, 1, |now|), |ready| - 1, |now|) == Wrap(head, |ready|, |now|)
  {
    WrapShift(head, |now|);
    forall i | 0 <= i < |ready| - 1 ensures Holds(now[Wrap(Wrap(head, 1, |now|), i, |now|)], ready[1..][i], false) {
      assert Holds(was[Wrap(head, i + 1, |was|)], ready[i + 1], false);
    }
  }

  /** The slot after the ready ones is not one of them. */
  lemma TailFree(was: seq<Slot>, now: seq<Slot>, head: nat, ready: seq<Pend>)
    requires head < |was| == |now| && |ready| < |was| && ReadyAt(was, head, ready)
    requires forall i :: 0 <= i < |was| && i != Wrap(head, |ready|, |was|) ==> now[i] == was[i]
    ensures ReadyAt(now, head, ready)
  {
    forall i | 0 <= i < |ready| ensures Holds(now[Wrap(head, i, |now|)], ready[i], false) {
      assert Holds(was[Wrap(head, i, |was|)], ready[i], false);
    }
  }

  lemma TailJoins(was: seq<Slot>, now: seq<Slot>, head: nat, ready: seq<Pend>, p: Pend)
    requires head < |was| == |now| && |ready| < |was| && ReadyAt(was, head, ready)
    requires forall i :: 0 <= i < |was| && i != Wrap(head, |ready|, |was|) ==> now[i] == was[i]
    requires Holds(now[Wrap(head, |ready|, |now|)], p, false)
    ensures ReadyAt(now, head, ready + [p])
  {
    TailFree(was, now, head, ready);
    forall i | 0 <= i <= |ready| ensures Holds(now[Wrap(head, i, |now|)], (ready + [p])[i], false) {
      if i < |ready| {
        assert Holds(now[Wrap(head, i, |now|)], ready[i], false);
      }
    }
  }

  lemma WrapStep(head: nat, i: nat, capacity: nat)
    requires head < capacity && i < capacity
    ensures Wrap(Wrap(head, i, capacity), 1, capacity) == Wrap(head, i + 1, capacity)
  {
  }

  lemma DeliverShortens(a: Apple)
    requires a.ready != [] && a.recvq != []
    ensures |DeliverHead(a).ready| == |a.ready| - 1
  {
  }
}
