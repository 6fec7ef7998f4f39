/** The reorder list of NativeRx holds nothing back: whatever became deliverable is delivered in the same step. */
module NativeRxDrain {
  import opened Prelude
  import opened Cut
  import opened NativeData
  import opened Psn
  import opened AckHistory
  import opened RecvWqe
  import opened NativeRx
  import opened RecvParts
  import opened ReorderWindow
  import opened NativeRxSafety
  import Fragments

  /** No message waits that could be delivered: none is active, the expected one is complete, and a receive is
      posted. */
  ghost predicate NothingHeldBack(rx: Rx) {
    rx.active.None? && rx.recvq != [] ==>
      forall j :: 0 <= j < |rx.reorder| && rx.reorder[j].n == Expected(rx) ==> !rx.reorder[j].body.complete
  }

  lemma {:induction false} DrainLeavesNone(rx: Rx)
    requires Structure(rx)
    ensures NothingHeldBack(Drain(rx))
    decreases |rx.reorder|
  {
    hide Deliver;
    var i := Find(rx.reorder, Expected(rx));
    if rx.active.Some? {
    } else if i == |rx.reorder| || !rx.reorder[i].body.complete {
      OnlyOne(rx, i);
    } else if rx.recvq != [] {
      DeliverKeeps(rx, i);
      DeliverTakes(rx, i);
      DrainLeavesNone(Deliver(rx, i));
    } else {
      DeliverWaits(rx, i);
    }
  }

  lemma OnlyOne(rx: Rx, i: nat)
    requires Structure(rx) && i == Find(rx.reorder, Expected(rx))
    requires i == |rx.reorder| || !rx.reorder[i].body.complete
    ensures forall j :: 0 <= j < |rx.reorder| && rx.reorder[j].n == Expected(rx) ==> !rx.reorder[j].body.complete
  {
  }

  lemma DeliverTakes(rx: Rx, i: nat)
    requires i < |rx.reorder| && rx.recvq != []
    ensures |Deliver(rx, i).reorder| < |rx.reorder|
  {
    hide CopyFrags;
  }

  lemma DeliverWaits(rx: Rx, i: nat)
    requires i < |rx.reorder| && rx.recvq == []
    ensures Deliver(rx, i).recvq == []
  {
  }

  /** A step that consumes a message leaves nothing deliverable behind. */
  ghost predicate GoesOn(rx: Rx, s: Rx) {
    Expected(s) != Expected(rx) ==> NothingHeldBack(s)
  }

  lemma StoreGoesOn(rx: Rx, j: nat, f: Fragment, i: nat, alloc: bool)
    requires Structure(rx) && j < |rx.reorder| && i < rx.reorder[j].body.fragCount && i !in rx.reorder[j].body.seen
    ensures GoesOn(rx, Store(rx, j, f, i, alloc))
  {
    hide Drain;
    hide SumBytes;
    hide NothingHeldBack;
    if rx.bytes + |f.payload| <= MAX_REORDER_BYTES {
      GrowKeeps(rx, j, i, f.offset, f.payload);
      DrainLeavesNone(Replace(rx, j, Grown(rx.reorder[j].body, i, f.offset, f.payload), |f.payload|));
    }
  }

  lemma BufferGoesOn(rx: Rx, f: Fragment, allocMsg: bool, allocFrag: bool)
    requires Structure(rx) && Shaped(f) && (rx.active.Some? ==> f.n != Expected(rx))
    ensures GoesOn(rx, Buffer(rx, f, allocMsg, allocFrag))
  {
    hide Drain;
    hide Store;
    hide SumBytes;
    hide NothingHeldBack;
    DrainLeavesNone(rx);
    var i := Find(rx.reorder, f.n);
    if f.shape.Some? && Expected(rx) <= f.n < Expected(rx) + WINDOW {
      var (idx, count) := f.shape.value;
      if i < |rx.reorder| {
        if rx.reorder[i].body.fragCount == count && idx !in rx.reorder[i].body.seen {
          StoreGoesOn(rx, i, f, idx, allocFrag);
        }
      } else if |rx.reorder| < WINDOW {
        AppendKeeps(rx, f.n, EmptyBody(f.meta, count));
        StoreGoesOn(Append(rx, f.n, EmptyBody(f.meta, count)), i, f, idx, allocFrag);
      }
    }
  }

  lemma AbsorbGoesOn(rx: Rx, i: nat, offset: nat, payload: seq<u8>)
    requires Structure(rx) && rx.active.Some? && rx.striping && i < rx.active.value.fragCount
    ensures GoesOn(rx, Absorb(rx, i, offset, payload))
  {
    hide Drain;
    hide Finish;
    hide NothingHeldBack;
    var b := Absorbed(rx.active.value, i, offset, payload);
    AllSeen(b.seen, b.fragCount);
    FinishKeeps(WithActive(rx, Some(b)));
    DrainLeavesNone(Finish(WithActive(rx, Some(b))));
  }

  lemma TakeGoesOn(rx: Rx, offset: nat, payload: seq<u8>, last: bool)
    requires Structure(rx) && rx.active.Some? && !rx.striping
    ensures GoesOn(rx, Take(rx, offset, payload, last))
  {
    hide Drain;
    hide Finish;
    hide NothingHeldBack;
    var s := WithActive(rx, Some(Copied(rx.active.value, offset, payload)));
    FinishKeeps(s);
    DrainLeavesNone(Finish(s));
  }

  lemma StripedGoesOn(rx: Rx, f: Fragment, allocMsg: bool, allocFrag: bool, i: nat, m: Msg, qp: u32)
    requires Structure(rx) && rx.striping && FragTrue(f, m, qp, i)
    requires rx.active.Some? && f.n == Expected(rx) ==> ActiveTrue(true, rx.active.value, m, qp)
    ensures GoesOn(rx, Striped(rx, f, allocMsg, allocFrag))
  {
    hide Buffer;
    hide Absorb;
    hide Fail;
    hide NothingHeldBack;
    hide Count;
    CountPositive(m.data, i);
    if f.n > Expected(rx) || (f.n == Expected(rx) && rx.active.None? && Find(rx.reorder, f.n) < |rx.reorder|) {
      BufferGoesOn(rx, f, allocMsg, allocFrag);
    } else if f.n == Expected(rx) && rx.active.Some? {
      AbsorbGoesOn(rx, i, f.offset, f.payload);
    } else if f.n == Expected(rx) && rx.recvq != [] {
      ActivateKeeps(rx, f.meta, Count(m.data));
      AbsorbGoesOn(Activate(rx, f.meta, Count(m.data)), i, f.offset, f.payload);
    }
  }

  lemma CountPositive(data: seq<u8>, i: nat)
    ensures Count(data) > 0
  {
  }

  lemma SequentialGoesOn(rx: Rx, f: Fragment, allocMsg: bool, allocFrag: bool, i: nat, m: Msg, qp: u32)
    requires Structure(rx) && !rx.striping && FragTrue(f, m, qp, i)
    requires rx.active.Some? && f.n == Expected(rx) ==> ActiveTrue(false, rx.active.value, m, qp)
    ensures GoesOn(rx, Sequential(rx, f, allocMsg, allocFrag))
  {
    hide Buffer;
    hide Take;
    hide Fail;
    hide NothingHeldBack;
    hide Count;
    if rx.active.Some? {
      TakeGoesOn(rx, f.offset, f.payload, f.last);
      var duplicate := rx.active.value.received - f.offset;
      if 0 <= duplicate < |f.payload| {
        TakeGoesOn(rx, rx.active.value.received, f.payload[duplicate..], f.last);
      }
      if f.n != Expected(rx) {
        BufferGoesOn(rx, f, allocMsg, allocFrag);
      }
    } else {
      BufferGoesOn(rx, f, allocMsg, allocFrag);
      if rx.recvq != [] && Find(rx.reorder, f.n) == |rx.reorder| && f.n == Expected(rx) {
        ActivateSequentialKeeps(rx, f.meta);
        TakeGoesOn(Activate(rx, f.meta, 0), 0, f.payload, f.last);
      }
    }
  }

  lemma FrameGoesOn(rx: Rx, f: Fragment, allocMsg: bool, allocFrag: bool, i: nat, m: Msg, qp: u32)
    requires Structure(rx) && FragTrue(f, m, qp, i)
    requires rx.active.Some? && f.n == Expected(rx) ==> ActiveTrue(rx.striping, rx.active.value, m, qp)
    ensures GoesOn(rx, OnFragment(rx, f, allocMsg, allocFrag))
  {
    hide Striped;
    hide Sequential;
    hide Structure;
    hide NothingHeldBack;
    hide Count;
    RnrAside(rx);
    if rx.striping {
      StripedGoesOn(rx, f, allocMsg, allocFrag, i, m, qp);
      StripedGoesOn(ClearRnr(rx), f, allocMsg, allocFrag, i, m, qp);
    } else {
      SequentialGoesOn(rx, f, allocMsg, allocFrag, i, m, qp);
      SequentialGoesOn(ClearRnr(rx), f, allocMsg, allocFrag, i, m, qp);
    }
  }

  lemma RnrAside(rx: Rx)
    ensures Structure(rx) ==> Structure(ClearRnr(rx))
  {
  }

  lemma HeadGoesOn(rx: Rx)
    requires Structure(rx)
    ensures GoesOn(rx, HeadExpires(rx))
  {
    hide Drain;
    hide SumBytes;
    hide NothingHeldBack;
    var i := Find(rx.reorder, Expected(rx));
    if i < |rx.reorder| {
      assert InWindow(rx.reorder[i], Expected(rx), rx.active.Some?);
      UnlinkKeeps(rx, i);
      var s := Unlink(rx, i);
      MoveOn(s.reorder, Expected(s));
      DrainLeavesNone(s.(log := s.log + [AckError]));
    }
  }

  /** In every run of genuine frames: a frame, or the time-out of a held message, that makes the receiver go on
      to a later message leaves none behind that could be delivered. */
  lemma NoneHeldBack(striping: bool, first: int, room: nat, events: seq<Event>, e: Event, sent: int -> Msg, qp: u32)
    requires TrueRun(NativeRx.Start(striping, first, room), events, sent, qp)
    requires TrueEvent(Run(NativeRx.Start(striping, first, room), events), e, sent, qp) && (e.Frame? || e.ExpireHead?)
    ensures var rx := Run(NativeRx.Start(striping, first, room), events);
            Expected(Step(rx, e)) != Expected(rx) ==> NothingHeldBack(Step(rx, e))
  {
    hide Structure;
    hide OnFragment;
    hide FragmentOf;
    hide ListTrue;
    hide DoneTrue;
    hide AcksTrue;
    hide ActiveTrue;
    hide NothingHeldBack;
    var rx := Run(NativeRx.Start(striping, first, room), events);
    Delivery(striping, first, room, events, sent, qp);
    RunKeeps(striping, first, room, events);
    hide Run;
    if e.Frame? {
      var n :| rx.first <= n && -HALF <= n - Expected(rx) < HALF && Genuine(sent(n), qp, n, e.header, e.payload);
      var i :| IsPart(sent(n).data, i, e.header, e.payload);
      ReadTrue(rx, sent(n), qp, n, e.header, e.payload, i);
      FrameGoesOn(rx, FragmentOf(rx, e.header, e.payload), e.allocMsg, e.allocFrag, i, sent(n), qp);
    } else {
      HeadGoesOn(rx);
    }
  }

  // ---------------------------------------------------------------- waiting for a receive

  /** A complete message waits for a receive; a duplicate of one of its fragments comes. */
  ghost predicate Repeats(rx: Rx, f: Fragment, j: nat) {
    && Structure(rx) && rx.active.None? && j < |rx.reorder| && rx.reorder[j].n == f.n == Expected(rx)
    && f.shape.Some? && var b := rx.reorder[j].body;
       && b.complete && b.meta == f.meta && b.fragCount == f.shape.value.1 && f.shape.value.0 in b.seen
       && Matches(b.frags, f.offset, f.payload)
  }

  /** Then it is answered receiver-not-ready while no receive is posted, and delivered as soon as one is. */
  lemma RepeatDelivers(rx: Rx, f: Fragment, j: nat, allocMsg: bool, allocFrag: bool)
    requires Repeats(rx, f, j)
    ensures var s := Route(rx, f, allocMsg, allocFrag);
            if rx.recvq == [] then s == rx.(acks := rx.acks + [Ack(f.n, f.meta.srcQp, AckRnr)])
            else Expected(s) > f.n
  {
    hide Store;
    hide CopyFrags;
    hide Absorb;
    hide Take;
    hide SumBytes;
    assert Find(rx.reorder, f.n) == j;
    if rx.recvq != [] {
      DrainAhead(Deliver(rx, j));
    }
  }

  lemma {:induction false} DrainAhead(rx: Rx)
    ensures Expected(Drain(rx)) >= Expected(rx)
    decreases |rx.reorder|
  {
    hide CopyFrags;
    var i := Find(rx.reorder, Expected(rx));
    if !(rx.active.Some? || i == |rx.reorder| || !rx.reorder[i].body.complete) && rx.recvq != [] {
      DrainAhead(Deliver(rx, i));
    }
  }
}
