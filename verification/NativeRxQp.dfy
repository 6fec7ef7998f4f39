/** The receive side of struct tbv_qp (kernel/ibdev.c), updated in place with 24-bit PSNs and a bounded
    acknowledgement history, against the receiver of NativeRx. */
module NativeRxQp {
  import opened Prelude
  import opened NativeData
  import opened Psn
  import opened AckHistory
  import opened RecvWqe
  import opened NativeRx
  import opened ReorderWindow
  import RecvParts

  /** An entry of the reorder list. */
  datatype Queued = Queued(psn: psn, body: Body)

  /** A work completion. */
  datatype Wc = Wc(wqe: Wqe, status: WcStatus, byteLen: nat, srcQp: u32, imm: Option<u32>)

  /** An acknowledgement frame. */
  datatype AckFrame = AckFrame(psn: psn, destQp: u32, status: AckStatus)

  ghost predicate SameList(list: seq<Queued>, reorder: seq<Waiting>) {
    && |list| == |reorder|
    && forall i :: 0 <= i < |list| ==> list[i] == Queued(PsnOf(reorder[i].n), reorder[i].body)
  }

  ghost function WcOf(c: Completion): Wc {
    Wc(c.wqe, c.status, c.byteLen, c.srcQp, c.imm)
  }

  ghost predicate SameDone(cq: seq<Wc>, done: seq<Completion>) {
    |cq| == |done| && forall i :: 0 <= i < |cq| ==> cq[i] == WcOf(done[i])
  }

  ghost predicate SameAcks(wire: seq<AckFrame>, acks: seq<Ack>) {
    && |wire| == |acks|
    && forall i :: 0 <= i < |wire| ==> wire[i] == AckFrame(PsnOf(acks[i].n), acks[i].destQp, acks[i].status)
  }

  /** What the fields read from a frame stand for. */
  ghost predicate Reads(f: Fragment, h: Header, p: psn, payload: seq<u8>) {
    && p == PsnOf(f.n) && f.meta == MetaOf(h) && f.offset == h.fragOffset && f.payload == payload
    && f.last == IsLast(h.flags) && f.shape == Shape(h) && f.bad == BadHeader(h)
    && f.rnr == Rnr(h.srcQp, p, h.remoteAddr, h.fragOffset)
  }

  /** Within half the PSN space an entry is found by PSN exactly when it is found by number. */
  lemma FindByPsn(list: seq<Queued>, reorder: seq<Waiting>, expected: int, active: bool, n: int, i: nat)
    requires SameList(list, reorder) && Windowed(reorder, expected, active)
    requires -HALF <= n - expected < HALF && i < |list|
    ensures list[i].psn == PsnOf(n) <==> reorder[i].n == n
  {
    assert InWindow(reorder[i], expected, active);
    if PsnOf(reorder[i].n) == PsnOf(n) {
      SamePsn(reorder[i].n, n);
    }
  }

  lemma FindIs(reorder: seq<Waiting>, n: int, i: nat)
    requires i <= |reorder| && (i < |reorder| ==> reorder[i].n == n)
    requires forall j :: 0 <= j < i ==> reorder[j].n != n
    ensures NativeRx.Find(reorder, n) == i
  {
  }

  /** tbv_rx_prune_stale_reorder_locked never finds anything: no entry is behind the expected number. */
  lemma NoneStale(list: seq<Queued>, rx: Rx, i: nat)
    requires Structure(rx) && SameList(list, rx.reorder) && i < |list|
    ensures PsnDelta(list[i].psn, PsnOf(Expected(rx))) >= 0
  {
    assert InWindow(rx.reorder[i], Expected(rx), rx.active.Some?);
    DeltaExact(rx.reorder[i].n, Expected(rx));
  }

  class RxQp {
    const striping: bool
    const history: History
    var expected: psn
    var active: Option<Active>
    var activePsn: psn
    var list: seq<Queued>
    var count: nat
    var bytes: int
    var rnr: Option<Rnr>
    var recvq: seq<Wqe>
    var room: nat
    var overflowed: bool
    var cq: seq<Wc>
    var wire: seq<AckFrame>
    ghost var rx: Rx  // the receiver of NativeRx that the fields stand for

    ghost predicate Valid()
      reads this, history, history.slots
    {
      && Structure(rx) && Fields() && Lists()
      && history.Valid() && history.first == rx.first && history.log == rx.log
      && expected == PsnOf(Expected(rx)) && (active.Some? ==> activePsn == expected)
    }

    ghost predicate Fields()
      reads this
    {
      && striping == rx.striping && active == rx.active && bytes == rx.bytes && rnr == rx.rnr && recvq == rx.recvq
      && room == rx.room && overflowed == rx.overflowed
    }

    ghost predicate Lists()
      reads this
    {
      SameList(list, rx.reorder) && count == |list| && SameDone(cq, rx.done) && SameAcks(wire, rx.acks)
    }

    constructor (striping: bool, ghost first: int, p: psn, room: nat)
      requires p == PsnOf(first)
      ensures Valid() && rx == NativeRx.Start(striping, first, room) && fresh(history) && fresh(history.slots)
    {
      this.striping, expected, active, activePsn, list, count := striping, p, None, p, [], 0;
      bytes, rnr, recvq, this.room, overflowed, cq, wire := 0, None, [], room, false, [], [];
      rx := NativeRx.Start(striping, first, room);
      history := new History(first);
      new;
      RunKeeps(striping, first, room, []);
    }

    method SendAck(ghost n: int, p: psn, destQp: u32, status: AckStatus)
      requires Valid() && p == PsnOf(n)
      modifies this`wire, this`rx
      ensures Valid() && rx == NativeRx.SendAck(old(rx), n, destQp, status)
    {
      wire := wire + [AckFrame(p, destQp, status)];
      rx := NativeRx.SendAck(rx, n, destQp, status);
    }

    /** tbv_rx_reorder_find. */
    method Find(ghost n: int, p: psn) returns (i: nat)
      requires Valid() && p == PsnOf(n) && -HALF <= n - Expected(rx) < HALF
      ensures i == NativeRx.Find(rx.reorder, n)
    {
      i := 0;
      while i < |list|
        invariant i <= |list| && forall j :: 0 <= j < i ==> rx.reorder[j].n != n
      {
        FindByPsn(list, rx.reorder, Expected(rx), rx.active.Some?, n, i);
        if list[i].psn == p {
          break;
        }
        i := i + 1;
      }
      FindIs(rx.reorder, n, i);
    }

    /** tbv_rx_reorder_unlink_msg_locked. */
    method Unlink(i: nat)
      requires Valid() && i < |list|
      modifies this`list, this`count, this`bytes, this`rx
      ensures Valid() && rx == NativeRx.Unlink(old(rx), i)
    {
      hide SumBytes;
      UnlinkKeeps(rx, i);
      var b: int := list[i].body.bytes;
      bytes := if bytes >= b then bytes - b else 0;
      list := list[..i] + list[i + 1..];
      count := count - 1;
      rx := NativeRx.Unlink(rx, i);
    }

    /** The steps that finishing and delivering share: push the completion, advance, record, acknowledge. */
    method Consume(wqe: Wqe, status: WcStatus, byteLen: nat, meta: Meta)
      requires Valid() && rx.active.None? && forall i :: 0 <= i < |rx.reorder| ==> rx.reorder[i].n != Expected(rx)
      modifies this`cq, this`room, this`overflowed, this`expected, this`wire, this`rx, history`log, history.slots
      ensures Valid() && rx == NativeRx.Consume(old(rx), wqe, status, byteLen, meta)
    {
      hide Structure;
      ghost var s := NativeRx.Consume(rx, wqe, status, byteLen, meta);
      ConsumeKeeps(rx, wqe, status, byteLen, meta);
      NextExact(Expected(rx));
      var pushed := Push(Wc(wqe, status, byteLen, meta.srcQp, meta.imm));
      var ack := if status == Success && pushed then AckOk else AckError;
      wire := wire + [AckFrame(expected, meta.srcQp, ack)];
      history.Store(expected, ack);
      expected := PsnNext(expected);
      rx := s;
    }

    /** tbv_cq_push. */
    method Push(wc: Wc) returns (ok: bool)
      modifies this`cq, this`room, this`overflowed
      ensures ok == (!old(overflowed) && old(room) > 0) && overflowed == !ok
      ensures room == if ok then old(room) - 1 else old(room)
      ensures cq == if ok then old(cq) + [wc] else old(cq)
    {
      if overflowed || room == 0 {
        overflowed := true;
        return false;
      }
      cq := cq + [wc];
      room := room - 1;
      return true;
    }

    /** tbv_rx_finish_send. */
    method Finish()
      requires Valid() && active.Some?
      modifies this, history`log, history.slots
      ensures Valid() && rx == NativeRx.Finish(old(rx))
    {
      hide NativeRx.Consume;
      hide SumBytes;
      var a := active.value;
      NotWaiting(rx);
      active := None;
      rx := WithActive(rx, None);
      Consume(a.wqe, a.status, a.delivered, a.meta);
    }

    /** tbv_rx_fail_active_send. */
    method Fail(status: WcStatus)
      requires Valid()
      modifies this, history`log, history.slots
      ensures Valid() && rx == NativeRx.Fail(old(rx), status)
    {
      if active.None? {
        return;
      }
      hide NativeRx.Finish;
      SetActive(active.value.(status := status));
      Finish();
    }

    /** Update the active message, keeping its fragment count exact. */
    method SetActive(a: Active)
      requires Valid() && active.Some? && (striping ==> ActiveSane(a))
      modifies this`active, this`rx
      ensures Valid() && rx == WithActive(old(rx), Some(a))
    {
      active := Some(a);
      rx := WithActive(rx, Some(a));
    }

    /** The copy loop of tbv_rx_deliver_reorder_msg_locked. */
    method CopyAll(w: Wqe, frags: seq<Frag>) returns (v: Wqe, delivered: nat, ok: bool)
      ensures (v, delivered, ok) == CopyFrags(w, frags)
    {
      v, delivered, ok := w, 0, true;
      var i := 0;
      assert frags[..0] == [];
      while i < |frags|
        invariant 0 <= i <= |frags| && ok && (v, delivered, true) == CopyFrags(w, frags[..i])
      {
        assert frags[..i + 1][..i] == frags[..i];
        var copied := CopyToWqe(v, frags[i].offset, frags[i].data);
        v, delivered, ok := copied.0, delivered + copied.1, copied.2;
        if !ok {
          StopsAt(w, frags, i + 1);
          return;
        }
        i := i + 1;
      }
      assert frags[..|frags|] == frags;
    }

    /** tbv_rx_deliver_reorder_msg_locked; whether the message was delivered. */
    method Deliver(i: nat) returns (delivered: bool)
      requires Valid() && active.None? && i < |list| && rx.reorder[i].n == Expected(rx)
      modifies this, history`log, history.slots
      ensures Valid() && rx == NativeRx.Deliver(old(rx), i) && delivered == (old(recvq) != [])
      ensures history.log == rx.log
    {
      hide NativeRx.Consume;
      hide NativeRx.SendAck;
      hide NativeRx.Unlink;
      hide CopyFrags;
      hide SumBytes;
      var b := list[i].body;
      if recvq == [] {
        SendAck(rx.reorder[i].n, list[i].psn, b.meta.srcQp, AckRnr);
        return false;
      }
      var w := PopRecv();
      UnlinkKeeps(rx, i);
      Unlink(i);
      var v, n, ok := CopyAll(w, b.frags);
      var status := if !ok then ProtErr else if b.meta.total > |w.buf| then LenErr else Success;
      UnlinkFrame(Pop(old(rx)), i);
      Consume(v, status, n, b.meta);
      return true;
    }

    /** tbv_rx_drain_reorder_locked. Its search for stale entries never finds one (NoneStale). */
    method Drain()
      requires Valid()
      modifies this, history`log, history.slots
      ensures Valid() && rx == NativeRx.Drain(old(rx))
    {
      hide NativeRx.Deliver;
      hide SumBytes;
      while active.None?
        invariant Valid() && NativeRx.Drain(rx) == NativeRx.Drain(old(rx))
        decreases |list|
      {
        var i := Find(Expected(rx), expected);
        if i == |list| || !list[i].body.complete {
          return;
        }
        ghost var was := rx;
        var delivered := Deliver(i);
        if !delivered {
          return;
        }
        DeliverShrinks(was, i);
      }
    }

    /** tbv_rx_reorder_fragment_matches_locked. */
    method FragMatches(frags: seq<Frag>, offset: nat, payload: seq<u8>) returns (same: bool)
      ensures same == Matches(frags, offset, payload)
    {
      if payload == [] {
        return true;
      }
      var i := 0;
      while i < |frags|
        invariant 0 <= i <= |frags| && Matches(frags[i..], offset, payload) == Matches(frags, offset, payload)
      {
        if frags[i].offset == offset {
          return frags[i].data == payload;
        }
        i := i + 1;
      }
      return false;
    }

    /** tbv_rx_reorder_store_fragment_locked and what follows it, for a fragment not seen before. */
    method Store(i: nat, ghost f: Fragment, h: Header, p: psn, payload: seq<u8>, idx: nat, alloc: bool)
      requires Valid() && Reads(f, h, p, payload) && i < |list| && rx.reorder[i].n == f.n
      requires idx < list[i].body.fragCount && idx !in list[i].body.seen
      modifies this, history`log, history.slots
      ensures Valid() && rx == NativeRx.Store(old(rx), i, f, idx, alloc)
    {
      hide Reads;
      hide NativeRx.Unlink;
      hide NativeRx.Drain;
      hide SumBytes;
      hide Grown;
      ReadsPlain(f, h, p, payload);
      if payload != [] && bytes + |payload| > MAX_REORDER_BYTES {
        Unlink(i);
      } else if payload != [] && !alloc {
        SendAck(f.n, p, h.srcQp, AckError);
        Unlink(i);
      } else {
        var b := Grown(list[i].body, idx, h.fragOffset, payload);
        GrowKeeps(rx, i, idx, h.fragOffset, payload);
        list := list[i := Queued(list[i].psn, b)];
        bytes := bytes + |payload|;
        rx := Replace(rx, i, b, |payload|);
        if b.complete {
          Drain();
        }
      }
    }

    /** tbv_rx_reack_duplicate_locked for a number behind the expected one. */
    method Reack(ghost f: Fragment, h: Header, p: psn, payload: seq<u8>)
      requires Valid() && Reads(f, h, p, payload) && f.n < Expected(rx) && f.n == NumberOf(Expected(rx), p)
      modifies this`wire, this`rx
      ensures Valid() && rx == NativeRx.Reack(old(rx), f)
    {
      hide Structure;
      ReadsPlain(f, h, p, payload);
      var status := history.Reack(f.n, p, expected);
      SendAck(f.n, p, h.srcQp, status.value);
    }

    /** tbv_rx_send_error_ack. */
    method Refuse(ghost f: Fragment, h: Header, p: psn, payload: seq<u8>)
      requires Valid() && Reads(f, h, p, payload)
      modifies this`wire, this`rx
      ensures Valid() && rx == NativeRx.Refuse(old(rx), f)
    {
      ReadsPlain(f, h, p, payload);
      SendAck(f.n, p, h.srcQp, AckError);
    }

    /** tbv_rx_buffer_fragment_locked. */
    method Buffer(ghost f: Fragment, h: Header, p: psn, payload: seq<u8>, allocMsg: bool, allocFrag: bool)
      requires Valid() && Reads(f, h, p, payload) && Shaped(f) && f.n == NumberOf(Expected(rx), p)
      requires active.Some? ==> f.n != Expected(rx)
      modifies this, history`log, history.slots
      ensures Valid() && rx == NativeRx.Buffer(old(rx), f, allocMsg, allocFrag)
    {
      hide NativeRx.Store;
      hide NativeRx.Refuse;
      hide NativeRx.Reack;
      hide SumBytes;
      hide Shape;
      var delta := PsnDelta(p, expected);
      if delta < 0 {
        Reack(f, h, p, payload);
        return;
      }
      var shape := Shape(h);
      if delta >= WINDOW || shape.None? {
        Refuse(f, h, p, payload);
        return;
      }
      var i := Find(f.n, p);
      if i == |list| {
        BufferNew(f, h, p, payload, shape.value.0, shape.value.1, allocMsg, allocFrag);
      } else {
        BufferFound(i, f, h, p, payload, shape.value.0, shape.value.1, allocFrag);
      }
    }

    method BufferNew(ghost f: Fragment, h: Header, p: psn, payload: seq<u8>, idx: nat, fragCount: nat,
                     allocMsg: bool, allocFrag: bool)
      requires Valid() && Reads(f, h, p, payload) && idx < fragCount
      requires Expected(rx) <= f.n < Expected(rx) + WINDOW && (active.Some? ==> f.n != Expected(rx))
      requires NativeRx.Find(rx.reorder, f.n) == |list|
      modifies this, history`log, history.slots
      ensures Valid()
      ensures rx == if |old(rx).reorder| >= WINDOW || !allocMsg then NativeRx.Refuse(old(rx), f)
                    else NativeRx.Store(NativeRx.Append(old(rx), f.n, EmptyBody(f.meta, fragCount)),
                                        |old(rx).reorder|, f, idx,
                                        allocFrag)
    {
      hide NativeRx.Store;
      hide NativeRx.Refuse;
      hide SumBytes;
      hide Shape;
      if count >= WINDOW || !allocMsg {
        Refuse(f, h, p, payload);
        return;
      }
      AppendKeeps(rx, f.n, EmptyBody(f.meta, fragCount));
      list := list + [Queued(p, EmptyBody(MetaOf(h), fragCount))];
      count := count + 1;
      rx := NativeRx.Append(rx, f.n, EmptyBody(f.meta, fragCount));
      Store(|list| - 1, f, h, p, payload, idx, allocFrag);
    }

    method BufferFound(i: nat, ghost f: Fragment, h: Header, p: psn, payload: seq<u8>, idx: nat, fragCount: nat,
                       alloc: bool)
      requires Valid() && Reads(f, h, p, payload) && f.shape == Some((idx, fragCount)) && idx < fragCount
      requires Expected(rx) <= f.n < Expected(rx) + WINDOW && i == NativeRx.Find(rx.reorder, f.n) < |list|
      modifies this, history`log, history.slots
      ensures Valid() && rx == NativeRx.Buffer(old(rx), f, true, alloc)
    {
      hide NativeRx.Store;
      hide NativeRx.Refuse;
      hide NativeRx.Unlink;
      hide NativeRx.Drain;
      hide Matches;
      hide SumBytes;
      hide Shape;
      var b := list[i].body;
      if b.meta != MetaOf(h) || b.fragCount != fragCount {
        Unlink(i);
        Refuse(f, h, p, payload);
      } else if idx !in b.seen {
        Store(i, f, h, p, payload, idx, alloc);
      } else {
        var same := FragMatches(b.frags, h.fragOffset, payload);
        if !same {
          Unlink(i);
          Refuse(f, h, p, payload);
        } else if b.complete {
          Drain();
        }
      }
    }

    /** A fragment of the active message, striped over rails. */
    method Absorb(idx: nat, offset: nat, payload: seq<u8>)
      requires Valid() && active.Some? && striping && idx < active.value.fragCount
      modifies this, history`log, history.slots
      ensures Valid() && rx == NativeRx.Absorb(old(rx), idx, offset, payload)
    {
      hide NativeRx.Drain;
      hide NativeRx.Finish;
      hide SumBytes;
      var a := active.value;
      if idx !in a.seen {
        a := Copied(a, offset, payload).(seen := a.seen + {idx}, fragsReceived := a.fragsReceived + 1);
      }
      if a.fragsReceived == a.fragCount {
        FinishWith(a);
        Drain();
      } else {
        AbsorbedSane(rx.active.value, idx, offset, payload);
        SetActive(a);
      }
    }

    /** Finish the active message in its last state. */
    method FinishWith(a: Active)
      requires Valid() && active.Some?
      modifies this, history`log, history.slots
      ensures Valid() && rx == NativeRx.Finish(WithActive(old(rx), Some(a)))
    {
      hide NativeRx.Consume;
      hide SumBytes;
      NotWaiting(rx);
      active := None;
      rx := WithActive(rx, None);
      Consume(a.wqe, a.status, a.delivered, a.meta);
    }

    /** The expected message becomes active in the first posted receive. */
    method Activate(meta: Meta, fragCount: nat)
      requires Valid() && active.None? && recvq != [] && NativeRx.Find(rx.reorder, Expected(rx)) == |list|
      requires striping ==> fragCount > 0
      modifies this`recvq, this`active, this`activePsn, this`rx
      ensures Valid() && rx == NativeRx.Activate(old(rx), meta, fragCount)
    {
      hide SumBytes;
      if striping {
        ActivateKeeps(rx, meta, fragCount);
      } else {
        ActivateAnyKeeps(rx, meta, fragCount);
      }
      ghost var s := NativeRx.Activate(rx, meta, fragCount);
      var w := recvq[0];
      recvq := recvq[1..];
      active := Some(Active(meta, fragCount, w, if meta.total > |w.buf| then LenErr else Success, 0, 0, {}, 0));
      activePsn := expected;
      rx := s;
    }

    /** tbv_rx_mark_rnr_locked and the answer. */
    method NotReady(ghost f: Fragment, h: Header, p: psn, payload: seq<u8>)
      requires Valid() && Reads(f, h, p, payload)
      modifies this`rnr, this`wire, this`rx
      ensures Valid() && rx == NativeRx.NotReady(old(rx), f)
    {
      hide Shape;
      hide BadHeader;
      rnr := Some(Rnr(h.srcQp, p, h.remoteAddr, h.fragOffset));
      rx := rx.(rnr := Some(f.rnr));
      SendAck(f.n, p, h.srcQp, AckRnr);
    }

    /** The striped half of tbv_rx_handle_send_fragment. */
    method Striped(ghost f: Fragment, h: Header, p: psn, payload: seq<u8>, allocMsg: bool, allocFrag: bool)
      requires Valid() && Reads(f, h, p, payload) && Shaped(f) && f.n == NumberOf(Expected(rx), p) && striping
      modifies this, history`log, history.slots
      ensures Valid() && rx == NativeRx.Striped(old(rx), f, allocMsg, allocFrag)
    {
      hide NativeRx.Buffer;
      hide NativeRx.Absorb;
      hide NativeRx.Activate;
      hide NativeRx.Refuse;
      hide NativeRx.Reack;
      hide NativeRx.NotReady;
      hide NativeRx.Fail;
      hide SumBytes;
      hide Shape;
      hide BadHeader;
      var shape := Shape(h);
      if shape.None? {
        Refuse(f, h, p, payload);
        return;
      }
      var delta := PsnDelta(p, expected);
      if delta < 0 {
        Reack(f, h, p, payload);
        return;
      }
      var i := Find(f.n, p);
      if delta > 0 || (active.None? && i < |list|) {
        Buffer(f, h, p, payload, allocMsg, allocFrag);
      } else if active.Some? {
        if active.value.meta != MetaOf(h) || activePsn != p || active.value.fragCount != shape.value.1 {
          Fail(ProtErr);
          Refuse(f, h, p, payload);
        } else {
          Absorb(shape.value.0, h.fragOffset, payload);
        }
      } else if recvq == [] {
        NotReady(f, h, p, payload);
      } else {
        Activate(MetaOf(h), shape.value.1);
        ActivateFrame(old(rx), f.meta, shape.value.1);
        Absorb(shape.value.0, h.fragOffset, payload);
      }
    }

    /** The next bytes of the active message. */
    method Take(offset: nat, payload: seq<u8>, last: bool)
      requires Valid() && active.Some? && !striping
      modifies this, history`log, history.slots
      ensures Valid() && rx == NativeRx.Take(old(rx), offset, payload, last)
    {
      hide NativeRx.Drain;
      hide NativeRx.Finish;
      hide SumBytes;
      hide Copied;
      if last {
        FinishWith(Copied(active.value, offset, payload));
        Drain();
      } else {
        SetActive(Copied(active.value, offset, payload));
      }
    }

    /** The in-order half of tbv_rx_handle_send_fragment. */
    method Sequential(ghost f: Fragment, h: Header, p: psn, payload: seq<u8>, allocMsg: bool, allocFrag: bool)
      requires Valid() && Reads(f, h, p, payload) && Shaped(f) && f.n == NumberOf(Expected(rx), p) && !striping
      modifies this, history`log, history.slots
      ensures Valid() && rx == NativeRx.Sequential(old(rx), f, allocMsg, allocFrag)
    {
      hide NativeRx.Buffer;
      hide NativeRx.Continue;
      hide NativeRx.Take;
      hide NativeRx.Activate;
      hide NativeRx.NotReady;
      hide SumBytes;
      hide Shape;
      hide BadHeader;
      if active.Some? {
        Continue(f, h, p, payload, allocMsg, allocFrag);
        return;
      }
      var i := Find(f.n, p);
      SameAsExpected(rx, f.n);
      if i < |list| || p != expected || h.fragOffset != 0 {
        Buffer(f, h, p, payload, allocMsg, allocFrag);
      } else if recvq == [] {
        NotReady(f, h, p, payload);
      } else {
        Activate(MetaOf(h), 0);
        ActivateFrame(old(rx), f.meta, 0);
        Take(0, payload, IsLast(h.flags));
      }
    }

    method Continue(ghost f: Fragment, h: Header, p: psn, payload: seq<u8>, allocMsg: bool, allocFrag: bool)
      requires Valid() && Reads(f, h, p, payload) && Shaped(f) && f.n == NumberOf(Expected(rx), p) && !striping
               && active.Some?
      modifies this, history`log, history.slots
      ensures Valid() && rx == NativeRx.Continue(old(rx), f, allocMsg, allocFrag)
    {
      hide NativeRx.Buffer;
      hide NativeRx.Take;
      hide NativeRx.Fail;
      hide NativeRx.Refuse;
      hide NativeRx.Reack;
      hide SumBytes;
      hide Shape;
      hide BadHeader;
      var a := active.value;
      var last := IsLast(h.flags);
      SameAsExpected(rx, f.n);
      var same := a.meta == MetaOf(h) && activePsn == p;
      if same && a.received == h.fragOffset {
        Take(h.fragOffset, payload, last);
        return;
      }
      var delta := PsnDelta(p, expected);
      if delta < 0 {
        Reack(f, h, p, payload);
      } else if delta > 0 {
        Buffer(f, h, p, payload, allocMsg, allocFrag);
      } else if same && h.fragOffset < a.received {
        var duplicate := a.received - h.fragOffset;
        if duplicate < |payload| {
          Take(a.received, payload[duplicate..], last);
        }
      } else if !same {
        Fail(ProtErr);
        Refuse(f, h, p, payload);
      }
    }

    /** tbv_rx_handle_send_fragment. */
    method HandleFragment(h: Header, payload: seq<u8>, allocMsg: bool, allocFrag: bool)
      requires Valid()
      modifies this, history`log, history.slots
      ensures Valid() && rx == NativeRx.Step(old(rx), Frame(h, payload, allocMsg, allocFrag))
    {
      hide NativeRx.OnFragment;
      hide Structure;
      hide Reads;
      var p := h.psn % PSN_MOD;
      ghost var f := FragmentOf(rx, h, payload);
      ReadsOf(rx, h, payload);
      OnRead(f, h, p, payload, allocMsg, allocFrag);
    }

    method OnRead(ghost f: Fragment, h: Header, p: psn, payload: seq<u8>, allocMsg: bool, allocFrag: bool)
      requires Valid() && Reads(f, h, p, payload) && Shaped(f) && f.n == NumberOf(Expected(rx), p)
      modifies this, history`log, history.slots
      ensures Valid() && rx == NativeRx.OnFragment(old(rx), f, allocMsg, allocFrag)
    {
      hide NativeRx.Striped;
      hide NativeRx.Sequential;
      hide NativeRx.Refuse;
      hide SumBytes;
      hide Shape;
      hide BadHeader;
      hide PsnOf;
      hide NumberOf;
      if BadHeader(h) {
        Refuse(f, h, p, payload);
        return;
      }
      if rnr.Some? && rnr.value.srcQp == h.srcQp && rnr.value.psn == p {
        if !(rnr.value.remoteAddr == h.remoteAddr && rnr.value.fragOffset == h.fragOffset) {
          return;
        }
        DropRnr();
      }
      if striping {
        Striped(f, h, p, payload, allocMsg, allocFrag);
      } else {
        Sequential(f, h, p, payload, allocMsg, allocFrag);
      }
    }

    /** tbv_rx_clear_rnr_locked. */
    method DropRnr()
      requires Valid()
      modifies this`rnr, this`rx
      ensures Valid() && rx == ClearRnr(old(rx))
    {
      rnr := None;
      rx := ClearRnr(rx);
    }

    /** The active-message part of tbv_qp_timeout_reap_rx. */
    method ReapActive()
      requires Valid()
      modifies this, history`log, history.slots
      ensures Valid() && rx == NativeRx.Step(old(rx), NativeRx.ExpireActive)
    {
      Fail(GeneralErr);
    }

    /** One turn of the reorder loop of tbv_qp_timeout_reap_rx. */
    method ReapHead()
      requires Valid()
      modifies this, history`log, history.slots
      ensures Valid() && rx == NativeRx.Step(old(rx), NativeRx.ExpireHead)
    {
      hide NativeRx.Unlink;
      hide NativeRx.Drain;
      hide SumBytes;
      var i := Find(Expected(rx), expected);
      if i == |list| {
        return;
      }
      ExpiredKeeps(rx, i);
      UnlinkFrame(rx, i);
      NextExact(Expected(rx));
      Unlink(i);
      history.Store(expected, AckError);
      expected := PsnNext(expected);
      rx := rx.(log := rx.log + [AckError]);
      Drain();
    }

    method PostRecv(w: Wqe)
      requires Valid()
      modifies this`recvq, this`rx
      ensures Valid() && rx == NativeRx.Step(old(rx), NativeRx.PostRecv(w))
    {
      recvq := recvq + [w];
      rx := rx.(recvq := rx.recvq + [w]);
    }

    method Poll()
      requires Valid()
      modifies this`room, this`rx
      ensures Valid() && rx == NativeRx.Step(old(rx), NativeRx.Poll)
    {
      room := room + 1;
      rx := rx.(room := rx.room + 1);
    }

    /** tbv_qp_pop_recv. */
    method PopRecv() returns (w: Wqe)
      requires Valid() && recvq != []
      modifies this`recvq, this`rx
      ensures Valid() && rx == Pop(old(rx)) && w == old(recvq)[0]
    {
      w := recvq[0];
      recvq := recvq[1..];
      rx := Pop(rx);
    }
  }

  /** The active message has no entry. */
  lemma NotWaiting(rx: Rx)
    requires Structure(rx) && rx.active.Some?
    ensures Structure(WithActive(rx, None))
    ensures forall i :: 0 <= i < |rx.reorder| ==> rx.reorder[i].n != Expected(rx)
  {
    var s := WithActive(rx, None);
    forall i | 0 <= i < |rx.reorder|
      ensures InWindow(s.reorder[i], Expected(s), false) && rx.reorder[i].n != Expected(rx)
    {
      assert InWindow(rx.reorder[i], Expected(rx), true);
    }
  }

  lemma DeliverShrinks(rx: Rx, i: nat)
    requires i < |rx.reorder| && rx.recvq != []
    ensures |NativeRx.Deliver(rx, i).reorder| == |rx.reorder| - 1
  {
  }

  lemma ReadsOf(rx: Rx, h: Header, payload: seq<u8>)
    ensures var f, p := FragmentOf(rx, h, payload), h.psn % PSN_MOD;
            Reads(f, h, p, payload) && Shaped(f) && f.n == NumberOf(Expected(rx), p)
  {
    NumberExact(Expected(rx), h.psn % PSN_MOD);
    ReadShape(rx, h, payload);
  }

  /** The part of `Reads` that needs no arithmetic. */
  lemma ReadsPlain(f: Fragment, h: Header, p: psn, payload: seq<u8>)
    requires Reads(f, h, p, payload)
    ensures p == PsnOf(f.n) && f.meta.srcQp == h.srcQp && f.offset == h.fragOffset && f.payload == payload
  {
  }

  /** A failed copy ends the loop. */
  lemma {:induction false} StopsAt(w: Wqe, frags: seq<Frag>, k: nat)
    requires k <= |frags| && !CopyFrags(w, frags[..k]).2
    ensures CopyFrags(w, frags) == CopyFrags(w, frags[..k])
    decreases |frags|
  {
    if k < |frags| {
      assert frags[..|frags| - 1][..k] == frags[..k];
      StopsAt(w, frags[..|frags| - 1], k);
    } else {
      assert frags[..k] == frags;
    }
  }

  lemma UnlinkFrame(rx: Rx, i: nat)
    requires i < |rx.reorder|
    ensures var s := NativeRx.Unlink(rx, i);
            && s.active == rx.active && |s.reorder| == |rx.reorder| - 1 && Expected(s) == Expected(rx)
            && s.first == rx.first && s.log == rx.log && s.recvq == rx.recvq
  {
  }

  /** Giving up the entry of the expected number. */
  lemma ExpiredKeeps(rx: Rx, i: nat)
    requires Structure(rx) && i < |rx.reorder| && rx.reorder[i].n == Expected(rx)
    ensures rx.active.None?
    ensures var s := NativeRx.Unlink(rx, i); Structure(s) && Structure(s.(log := s.log + [AckError]))
  {
    assert InWindow(rx.reorder[i], Expected(rx), rx.active.Some?);
    UnlinkKeeps(rx, i);
    MoveOn(NativeRx.Unlink(rx, i).reorder, Expected(rx));
  }

  lemma AbsorbedSane(a: Active, idx: nat, offset: nat, payload: seq<u8>)
    requires ActiveSane(a) && idx < a.fragCount && Absorbed(a, idx, offset, payload).fragsReceived != a.fragCount
    ensures ActiveSane(Absorbed(a, idx, offset, payload))
  {
    var b := Absorbed(a, idx, offset, payload);
    RecvParts.AllSeen(b.seen, b.fragCount);
  }

  lemma ActivateFrame(rx: Rx, meta: Meta, fragCount: nat)
    requires rx.recvq != []
    ensures var s := NativeRx.Activate(rx, meta, fragCount);
            s.active.Some? && s.active.value.fragCount == fragCount && s.striping == rx.striping
  {
  }

  lemma ActivateAnyKeeps(rx: Rx, meta: Meta, fragCount: nat)
    requires Structure(rx) && !rx.striping && rx.active.None? && rx.recvq != []
    requires NativeRx.Find(rx.reorder, Expected(rx)) == |rx.reorder|
    ensures Structure(NativeRx.Activate(rx, meta, fragCount))
  {
    ActivateSequentialKeeps(rx, meta);
  }

  /** Within half the PSN space, having the expected PSN is being the expected number. */
  lemma SameAsExpected(rx: Rx, n: int)
    requires -HALF <= n - Expected(rx) < HALF
    ensures PsnOf(n) == PsnOf(Expected(rx)) <==> n == Expected(rx)
  {
    if PsnOf(n) == PsnOf(Expected(rx)) {
      SamePsn(n, Expected(rx));
    }
  }
}
