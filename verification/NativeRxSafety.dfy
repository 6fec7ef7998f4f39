/** Delivery by the receiver of NativeRx when every frame comes from a truthful sender, under any loss,
    duplication and reordering that keeps a frame within half the PSN space of the expected number. */
module NativeRxSafety {
  import opened Prelude
  import opened Cut
  import opened NativeData
  import opened Psn
  import opened AckHistory
  import opened RecvWqe
  import opened NativeRx
  import opened RecvParts
  import opened ReorderWindow
  import Fragments

  /** A message as the application posted it. */
  datatype Msg = Msg(data: seq<u8>, imm: Option<u32>)

  // ---------------------------------------------------------------- truthful frames

  ghost predicate IsPart(data: seq<u8>, i: nat, h: Header, payload: seq<u8>) {
    && i < Count(data) && h.fragOffset == i * MAX_PAYLOAD && payload == Fragments.Chunk(data, i)
    && h.length == |payload| && (IsLast(h.flags) <==> i == Count(data) - 1)
  }

  ghost predicate SameMessage(m: Msg, qp: u32, h: Header) {
    && |m.data| <= MAX_MSG_SIZE && h.srcQp == qp && h.remoteAddr == 0 && h.flags < 4 && h.immData == |m.data|
    && h.opcode == (if m.imm.Some? then OP_SEND_IMM else OP_SEND)
    && h.rkey == (if m.imm.Some? then m.imm.value else 0)
  }

  /** A frame of message number n. */
  ghost predicate Genuine(m: Msg, qp: u32, n: int, h: Header, payload: seq<u8>) {
    h.psn == PsnOf(n) && SameMessage(m, qp, h) && exists i :: IsPart(m.data, i, h, payload)
  }

  /** The frames that the sender builds are genuine. */
  lemma SenderIsGenuine(ctx: Fragments.SendCtx, n: int, i: nat)
    requires i < Count(Fragments.Message(ctx)) && |Fragments.Message(ctx)| <= MAX_MSG_SIZE && ctx.psn == PsnOf(n)
    ensures Genuine(Msg(Fragments.Message(ctx), if ctx.withImm then Some(ctx.immData) else None), ctx.srcQp, n,
                    Fragments.FrameHeader(ctx, i), Fragments.Chunk(Fragments.Message(ctx), i))
  {
    var h, data := Fragments.FrameHeader(ctx, i), Fragments.Message(ctx);
    assert IsPart(data, i, h, Fragments.Chunk(data, i));
  }

  function MsgMeta(m: Msg, qp: u32): Meta {
    Meta(qp, |m.data|, m.imm)
  }

  /** What the receiver reads in a genuine frame: fragment i of the message. */
  ghost predicate FragTrue(f: Fragment, m: Msg, qp: u32, i: nat) {
    && f.meta == MsgMeta(m, qp) && |m.data| <= MAX_MSG_SIZE && !f.bad
    && i < Count(m.data) && f.shape == Some((i, Count(m.data)))
    && f.offset == i * MAX_PAYLOAD && f.payload == Fragments.Chunk(m.data, i) && (f.last <==> i == Count(m.data) - 1)
  }

  lemma ReadTrue(rx: Rx, m: Msg, qp: u32, n: int, h: Header, payload: seq<u8>, i: nat)
    requires h.psn == PsnOf(n) && -HALF <= n - Expected(rx) < HALF
    requires SameMessage(m, qp, h) && IsPart(m.data, i, h, payload)
    ensures var f := FragmentOf(rx, h, payload); f.n == n && FragTrue(f, m, qp, i)
  {
    NumberExact(Expected(rx), PsnOf(n));
    assert h.psn % PSN_MOD == PsnOf(n);
    Fragments.CountFits(|m.data|);
    ShapeExact(|m.data|, MAX_PAYLOAD, MAX_FRAGS, h.fragOffset, h.length, IsLast(h.flags), i, Count(m.data));
    Fragments.LastIff(|m.data|, i);
    FragFits(|m.data|, MAX_PAYLOAD, i);
  }

  // ---------------------------------------------------------------- invariant

  /** The fragments of the active message already copied. */
  ghost function Parts(striping: bool, a: Active): set<nat> {
    if striping then a.seen else Below(a.received / MAX_PAYLOAD)
  }

  /** A length error is for a message longer than the buffer, a protection error for one that reaches beyond
      what is mapped. */
  ghost predicate Honest(status: WcStatus, w: Wqe, m: Msg) {
    (status == LenErr ==> |m.data| > |w.buf|) && (status == ProtErr ==> w.reach < |m.data|)
  }

  ghost predicate ActiveTrue(striping: bool, a: Active, m: Msg, qp: u32) {
    && a.meta == MsgMeta(m, qp) && |m.data| <= MAX_MSG_SIZE
    && (if striping then a.fragCount == Count(m.data)
        else a.received < |m.data| && a.received % MAX_PAYLOAD == 0)
    && (a.status == Success ==> Holds(a.wqe, a.delivered, m.data, Parts(striping, a)))
    && Honest(a.status, a.wqe, m)
  }

  ghost predicate BodyTrue(b: Body, m: Msg, qp: u32) {
    b.meta == MsgMeta(m, qp) && b.fragCount == Count(m.data) && Stored(b.frags, m.data, b.seen)
  }

  ghost predicate ListTrue(reorder: seq<Waiting>, sent: int -> Msg, qp: u32) {
    forall i :: 0 <= i < |reorder| ==> BodyTrue(reorder[i].body, sent(reorder[i].n), qp)
  }

  /** The completion holds exactly the bytes sent. */
  ghost predicate Exact(c: Completion, m: Msg, qp: u32) {
    IsWhole(c.wqe, c.byteLen, m.data) && c.imm == m.imm && c.srcQp == qp
  }

  ghost predicate IsWhole(w: Wqe, byteLen: nat, data: seq<u8>) {
    byteLen == |data| <= |w.buf| && w.buf[..|data|] == data
  }

  /** A completion belongs to a consumed number; it is a success exactly when the status is OK, and then
      it is exact. */
  ghost predicate CompletionTrue(c: Completion, first: int, log: seq<AckStatus>, sent: int -> Msg, qp: u32) {
    && first <= c.n < first + |log| && (c.status == Success <==> log[c.n - first] == AckOk)
    && (c.status == Success ==> Exact(c, sent(c.n), qp)) && Honest(c.status, c.wqe, sent(c.n))
  }

  ghost predicate InOrder(done: seq<Completion>) {
    forall i, j :: 0 <= i < j < |done| ==> done[i].n < done[j].n
  }

  ghost predicate Succeeded(done: seq<Completion>, n: int) {
    exists i :: 0 <= i < |done| && done[i].n == n && done[i].status == Success
  }

  ghost predicate DoneTrue(first: int, log: seq<AckStatus>, done: seq<Completion>, sent: int -> Msg, qp: u32) {
    && InOrder(done)
    && (forall i :: 0 <= i < |done| ==> CompletionTrue(done[i], first, log, sent, qp))
    && (forall n :: first <= n < first + |log| && log[n - first] == AckOk ==> Succeeded(done, n))
  }

  /** Acknowledgements go to the sender; an OK is for a message delivered, or for one consumed so long ago
      that its status has left the history. */
  ghost predicate AckTrue(first: int, log: seq<AckStatus>, a: Ack, qp: u32) {
    && a.destQp == qp
    && (a.status == AckOk ==>
      && first <= a.n < first + |log|
      && (log[a.n - first] == AckOk || a.n < first + |log| - HISTORY_SIZE))
  }

  ghost predicate AcksTrue(first: int, log: seq<AckStatus>, acks: seq<Ack>, qp: u32) {
    forall i :: 0 <= i < |acks| ==> AckTrue(first, log, acks[i], qp)
  }

  ghost predicate Truth(rx: Rx, sent: int -> Msg, qp: u32) {
    && (rx.active.Some? ==> ActiveTrue(rx.striping, rx.active.value, sent(Expected(rx)), qp))
    && ListTrue(rx.reorder, sent, qp)
    && DoneTrue(rx.first, rx.log, rx.done, sent, qp)
    && AcksTrue(rx.first, rx.log, rx.acks, qp)
  }

  // ---------------------------------------------------------------- consuming

  lemma AcksLater(first: int, log: seq<AckStatus>, acks: seq<Ack>, status: AckStatus, qp: u32)
    requires AcksTrue(first, log, acks, qp)
    ensures AcksTrue(first, log + [status], acks, qp)
  {
    forall i | 0 <= i < |acks| ensures AckTrue(first, log + [status], acks[i], qp) {
      assert AckTrue(first, log, acks[i], qp);
    }
  }

  /** A message consumed without a completion. */
  lemma DoneLater(first: int, log: seq<AckStatus>, done: seq<Completion>, sent: int -> Msg, qp: u32)
    requires DoneTrue(first, log, done, sent, qp)
    ensures DoneTrue(first, log + [AckError], done, sent, qp)
  {
    var grown := log + [AckError];
    forall i | 0 <= i < |done| ensures CompletionTrue(done[i], first, grown, sent, qp) {
      assert CompletionTrue(done[i], first, log, sent, qp);
    }
    forall n | first <= n < first + |grown| && grown[n - first] == AckOk ensures Succeeded(done, n) {
      assert log[n - first] == AckOk;
    }
  }

  lemma DoneGrows(first: int, log: seq<AckStatus>, done: seq<Completion>, c: Completion, sent: int -> Msg, qp: u32)
    requires DoneTrue(first, log, done, sent, qp) && c.n == first + |log|
    requires (c.status == Success ==> Exact(c, sent(c.n), qp)) && Honest(c.status, c.wqe, sent(c.n))
    ensures DoneTrue(first, log + [if c.status == Success then AckOk else AckError], done + [c], sent, qp)
  {
    var l, d := log + [if c.status == Success then AckOk else AckError], done + [c];
    forall i | 0 <= i < |d| ensures CompletionTrue(d[i], first, l, sent, qp) && (i < |done| ==> d[i].n < c.n) {
      if i < |done| {
        assert CompletionTrue(done[i], first, log, sent, qp);
      }
    }
    forall n | first <= n < first + |l| && l[n - first] == AckOk ensures Succeeded(d, n) {
      if n < c.n {
        assert log[n - first] == AckOk && Succeeded(done, n);
        var i :| 0 <= i < |done| && done[i].n == n && done[i].status == Success;
        assert d[i] == done[i];
      } else {
        assert d[|done|] == c;
      }
    }
  }

  lemma ConsumeTrue(rx: Rx, w: Wqe, status: WcStatus, byteLen: nat, sent: int -> Msg, qp: u32)
    requires Truth(rx, sent, qp) && rx.active.None?
    requires status == Success ==> IsWhole(w, byteLen, sent(Expected(rx)).data)
    requires Honest(status, w, sent(Expected(rx)))
    ensures Truth(Consume(rx, w, status, byteLen, MsgMeta(sent(Expected(rx)), qp)), sent, qp)
  {
    var n := Expected(rx);
    var m := sent(n);
    var pushed := !rx.overflowed && rx.room > 0;
    if pushed {
      DoneGrows(rx.first, rx.log, rx.done, Completion(n, w, status, byteLen, qp, m.imm), sent, qp);
    } else {
      DoneLater(rx.first, rx.log, rx.done, sent, qp);
    }
    var ack := if status == Success && pushed then AckOk else AckError;
    AcksLater(rx.first, rx.log, rx.acks, ack, qp);
    AcksGrow(rx.first, rx.log + [ack], rx.acks, Ack(n, qp, ack), qp);
  }

  lemma AcksGrow(first: int, log: seq<AckStatus>, acks: seq<Ack>, a: Ack, qp: u32)
    requires AcksTrue(first, log, acks, qp) && AckTrue(first, log, a, qp)
    ensures AcksTrue(first, log, acks + [a], qp)
  {
  }

  lemma SendAckTrue(rx: Rx, n: int, destQp: u32, status: AckStatus, sent: int -> Msg, qp: u32)
    requires Truth(rx, sent, qp) && AckTrue(rx.first, rx.log, Ack(n, destQp, status), qp)
    ensures Truth(SendAck(rx, n, destQp, status), sent, qp)
  {
    AcksGrow(rx.first, rx.log, rx.acks, Ack(n, destQp, status), qp);
  }

  lemma ReackTrue(rx: Rx, f: Fragment, sent: int -> Msg, qp: u32)
    requires Truth(rx, sent, qp) && rx.first <= f.n < Expected(rx) && f.meta.srcQp == qp
    ensures Truth(Reack(rx, f), sent, qp)
  {
    SendAckTrue(rx, f.n, f.meta.srcQp, Answer(rx.first, rx.log, f.n), sent, qp);
  }

  lemma RefuseTrue(rx: Rx, f: Fragment, sent: int -> Msg, qp: u32)
    requires Truth(rx, sent, qp) && f.meta.srcQp == qp
    ensures Truth(Refuse(rx, f), sent, qp)
  {
    SendAckTrue(rx, f.n, f.meta.srcQp, AckError, sent, qp);
  }

  /** The active message may complete: it failed, or it holds every fragment. */
  ghost predicate Finishable(a: Active, m: Msg, qp: u32) {
    && a.meta == MsgMeta(m, qp)
    && (a.status == Success ==> Holds(a.wqe, a.delivered, m.data, Below(Count(m.data))))
    && Honest(a.status, a.wqe, m)
  }

  lemma FinishTrue(rx: Rx, sent: int -> Msg, qp: u32)
    requires rx.active.Some? && Finishable(rx.active.value, sent(Expected(rx)), qp)
    requires Truth(WithActive(rx, None), sent, qp)
    ensures Truth(Finish(rx), sent, qp)
  {
    hide Consume;
    hide Count;
    hide DoneTrue;
    hide AcksTrue;
    hide ListTrue;
    var a, m := rx.active.value, sent(Expected(rx));
    if a.status == Success {
      HoldsAll(a.wqe, a.delivered, m.data, Below(Count(m.data)));
    }
    ConsumeTrue(WithActive(rx, None), a.wqe, a.status, a.delivered, sent, qp);
  }

  lemma FailTrue(rx: Rx, status: WcStatus, sent: int -> Msg, qp: u32)
    requires Truth(rx, sent, qp) && status == GeneralErr
    ensures Truth(Fail(rx, status), sent, qp)
  {
    hide Finish;
    hide Count;
    hide DoneTrue;
    hide AcksTrue;
    hide ListTrue;
    if rx.active.Some? {
      FinishTrue(WithActive(rx, Some(rx.active.value.(status := status))), sent, qp);
    }
  }

  // ---------------------------------------------------------------- the reorder list

  lemma UnlinkTrue(rx: Rx, i: nat, sent: int -> Msg, qp: u32)
    requires Truth(rx, sent, qp) && i < |rx.reorder|
    ensures Truth(Unlink(rx, i), sent, qp)
  {
  }

  /** A complete entry has every fragment: delivered with success, it is the whole message. */
  lemma CompleteIsWhole(w: Wqe, b: Body, m: Msg, qp: u32)
    requires BodyTrue(b, m, qp) && BodySane(b) && b.complete && |m.data| <= |w.buf|
    ensures var (v, delivered, ok) := CopyFrags(w, b.frags);
            ok ==> IsWhole(v, delivered, m.data)
  {
    AllSeen(b.seen, b.fragCount);
    CopyStored(w, b.frags, m.data, b.seen);
    var (v, delivered, ok) := CopyFrags(w, b.frags);
    if ok {
      HoldsAll(v, delivered, m.data, b.seen);
    }
  }

  /** Copying keeps the size and the mapping of a receive, and fails only beyond the mapping. */
  lemma {:induction false} CopyHonest(w: Wqe, frags: seq<Frag>, m: Msg, seen: set<nat>)
    requires Stored(frags, m.data, seen)
    ensures var (v, _, ok) := CopyFrags(w, frags);
            |v.buf| == |w.buf| && v.reach == w.reach && (!ok ==> w.reach < |m.data|)
    decreases |frags|
  {
    if frags != [] {
      var rest, f := frags[..|frags| - 1], frags[|frags| - 1];
      var i := f.offset / MAX_PAYLOAD;
      CopyHonest(w, rest, m, seen - {i});
      FragFits(|m.data|, MAX_PAYLOAD, i);
    }
  }

  lemma DeliverTrue(rx: Rx, i: nat, sent: int -> Msg, qp: u32)
    requires Structure(rx) && Truth(rx, sent, qp) && rx.active.None?
    requires i < |rx.reorder| && rx.reorder[i].n == Expected(rx) && rx.reorder[i].body.complete
    ensures Truth(Deliver(rx, i), sent, qp)
  {
    hide Consume;
    hide Count;
    hide DoneTrue;
    hide AcksTrue;
    hide CopyFrags;
    hide Stored;
    hide SumBytes;
    var b := rx.reorder[i].body;
    var m := sent(Expected(rx));
    if rx.recvq == [] {
      SendAckTrue(rx, rx.reorder[i].n, b.meta.srcQp, AckRnr, sent, qp);
    } else {
      assert BodyTrue(b, m, qp) && InWindow(rx.reorder[i], Expected(rx), false);
      var w := rx.recvq[0];
      var (v, delivered, ok) := CopyFrags(w, b.frags);
      var status := if !ok then ProtErr else if b.meta.total > |w.buf| then LenErr else Success;
      CopyHonest(w, b.frags, m, b.seen);
      if status == Success {
        CompleteIsWhole(w, b, m, qp);
      }
      PopTrue(rx, i, sent, qp);
      ConsumeTrue(Unlink(Pop(rx), i), v, status, delivered, sent, qp);
    }
  }

  lemma PopTrue(rx: Rx, i: nat, sent: int -> Msg, qp: u32)
    requires Truth(rx, sent, qp) && rx.recvq != [] && i < |rx.reorder|
    ensures Truth(Unlink(Pop(rx), i), sent, qp)
  {
    UnlinkTrue(Pop(rx), i, sent, qp);
  }

  lemma {:induction false} DrainTrue(rx: Rx, sent: int -> Msg, qp: u32)
    requires Structure(rx) && Truth(rx, sent, qp)
    ensures Truth(Drain(rx), sent, qp)
    decreases |rx.reorder|
  {
    var i := Find(rx.reorder, Expected(rx));
    if !(rx.active.Some? || i == |rx.reorder| || !rx.reorder[i].body.complete) {
      DeliverTrue(rx, i, sent, qp);
      DeliverKeeps(rx, i);
      if rx.recvq != [] {
        DrainTrue(Deliver(rx, i), sent, qp);
      }
    }
  }

  lemma GrownTrue(b: Body, m: Msg, qp: u32, i: nat)
    requires BodyTrue(b, m, qp) && i < Count(m.data) && i !in b.seen
    ensures BodyTrue(Grown(b, i, i * MAX_PAYLOAD, Fragments.Chunk(m.data, i)), m, qp)
  {
    StoredMore(b.frags, m.data, b.seen, i);
  }

  lemma ReplaceTrue(rx: Rx, i: nat, b: Body, added: nat, sent: int -> Msg, qp: u32)
    requires Truth(rx, sent, qp) && i < |rx.reorder| && BodyTrue(b, sent(rx.reorder[i].n), qp)
    ensures Truth(Replace(rx, i, b, added), sent, qp)
  {
  }

  lemma StoreTrue(rx: Rx, j: nat, f: Fragment, i: nat, alloc: bool, sent: int -> Msg, qp: u32)
    requires Structure(rx) && Truth(rx, sent, qp) && j < |rx.reorder| && i !in rx.reorder[j].body.seen
    requires FragTrue(f, sent(rx.reorder[j].n), qp, i)
    ensures Truth(Store(rx, j, f, i, alloc), sent, qp)
  {
    hide Drain;
    hide Unlink;
    var e := rx.reorder[j];
    var m := sent(e.n);
    assert BodyTrue(e.body, m, qp);
    if f.payload != [] && rx.bytes + |f.payload| > MAX_REORDER_BYTES {
      UnlinkTrue(rx, j, sent, qp);
    } else if f.payload != [] && !alloc {
      RefuseTrue(rx, f, sent, qp);
      UnlinkTrue(Refuse(rx, f), j, sent, qp);
    } else {
      GrownTrue(e.body, m, qp, i);
      GrowKeeps(rx, j, i, f.offset, f.payload);
      var b := Grown(e.body, i, f.offset, f.payload);
      ReplaceTrue(rx, j, b, |f.payload|, sent, qp);
      DrainTrue(Replace(rx, j, b, |f.payload|), sent, qp);
    }
  }

  lemma AppendTrue(rx: Rx, n: int, b: Body, sent: int -> Msg, qp: u32)
    requires Truth(rx, sent, qp) && BodyTrue(b, sent(n), qp)
    ensures Truth(Append(rx, n, b), sent, qp)
  {
  }

  lemma BufferTrue(rx: Rx, f: Fragment, allocMsg: bool, allocFrag: bool, i: nat, sent: int -> Msg, qp: u32)
    requires Structure(rx) && Truth(rx, sent, qp) && rx.first <= f.n && (rx.active.Some? ==> f.n != Expected(rx))
    requires FragTrue(f, sent(f.n), qp, i)
    ensures Truth(Buffer(rx, f, allocMsg, allocFrag), sent, qp)
  {
    hide Store;
    hide Reack;
    hide Refuse;
    if f.n < Expected(rx) {
      ReackTrue(rx, f, sent, qp);
    } else if f.n >= Expected(rx) + WINDOW {
      RefuseTrue(rx, f, sent, qp);
    } else if Find(rx.reorder, f.n) < |rx.reorder| {
      BufferFoundTrue(rx, f, allocMsg, allocFrag, i, sent, qp);
    } else if |rx.reorder| >= WINDOW || !allocMsg {
      RefuseTrue(rx, f, sent, qp);
    } else {
      StoreNewTrue(rx, f, allocFrag, i, sent, qp);
    }
  }

  lemma StoreNewTrue(rx: Rx, f: Fragment, alloc: bool, i: nat, sent: int -> Msg, qp: u32)
    requires Structure(rx) && Truth(rx, sent, qp) && (rx.active.Some? ==> f.n != Expected(rx))
    requires Expected(rx) <= f.n < Expected(rx) + WINDOW && Find(rx.reorder, f.n) == |rx.reorder| < WINDOW
    requires FragTrue(f, sent(f.n), qp, i)
    ensures Truth(Store(Append(rx, f.n, EmptyBody(f.meta, Count(sent(f.n).data))), |rx.reorder|, f, i, alloc), sent, qp)
  {
    hide Store;
    var b := EmptyBody(f.meta, Count(sent(f.n).data));
    AppendKeeps(rx, f.n, b);
    AppendTrue(rx, f.n, b, sent, qp);
    StoreTrue(Append(rx, f.n, b), |rx.reorder|, f, i, alloc, sent, qp);
  }

  lemma BufferFoundTrue(rx: Rx, f: Fragment, allocMsg: bool, allocFrag: bool, i: nat, sent: int -> Msg, qp: u32)
    requires Structure(rx) && Truth(rx, sent, qp) && Expected(rx) <= f.n < Expected(rx) + WINDOW
    requires FragTrue(f, sent(f.n), qp, i) && Find(rx.reorder, f.n) < |rx.reorder|
    ensures Truth(Buffer(rx, f, allocMsg, allocFrag), sent, qp)
  {
    hide Store;
    hide Drain;
    hide Unlink;
    hide Refuse;
    var j := Find(rx.reorder, f.n);
    var b := rx.reorder[j].body;
    assert BodyTrue(b, sent(f.n), qp);
    if i !in b.seen {
      StoreTrue(rx, j, f, i, allocFrag, sent, qp);
    } else if !Matches(b.frags, f.offset, f.payload) {
      UnlinkTrue(rx, j, sent, qp);
      RefuseTrue(Unlink(rx, j), f, sent, qp);
    } else if b.complete {
      DrainTrue(rx, sent, qp);
    }
  }

  // ---------------------------------------------------------------- the active message

  lemma CopiedHolds(a: Active, data: seq<u8>, parts: set<nat>, i: nat)
    requires a.status == Success ==> Holds(a.wqe, a.delivered, data, parts)
    requires i < Count(data) && i !in parts
    ensures var b := Copied(a, i * MAX_PAYLOAD, Fragments.Chunk(data, i));
            && (b.status == Success ==> Holds(b.wqe, b.delivered, data, parts + {i}))
            && |b.wqe.buf| == |a.wqe.buf| && b.wqe.reach == a.wqe.reach
            && (b.status != a.status ==> b.status == ProtErr && a.wqe.reach < |data|)
  {
    FragFits(|data|, MAX_PAYLOAD, i);
    if a.status == Success && CopyToWqe(a.wqe, i * MAX_PAYLOAD, Fragments.Chunk(data, i)).2 {
      HoldsMore(a.wqe, a.delivered, data, parts, i);
    }
  }

  lemma AbsorbedTrue(a: Active, m: Msg, qp: u32, i: nat)
    requires ActiveTrue(true, a, m, qp) && i < Count(m.data)
    ensures ActiveTrue(true, Absorbed(a, i, i * MAX_PAYLOAD, Fragments.Chunk(m.data, i)), m, qp)
  {
    if i !in a.seen {
      CopiedHolds(a, m.data, a.seen, i);
    }
  }

  lemma AbsorbTrue(rx: Rx, i: nat, f: Fragment, sent: int -> Msg, qp: u32)
    requires Structure(rx) && Truth(rx, sent, qp) && rx.active.Some? && rx.striping
    requires FragTrue(f, sent(Expected(rx)), qp, i)
    ensures Truth(Absorb(rx, i, f.offset, f.payload), sent, qp)
  {
    hide Drain;
    hide Finish;
    hide Fragments.Chunk;
    hide Count;
    var a, m := rx.active.value, sent(Expected(rx));
    AbsorbedTrue(a, m, qp, i);
    var b := Absorbed(a, i, f.offset, f.payload);
    AllSeen(b.seen, b.fragCount);
    var s := WithActive(rx, Some(b));
    if b.fragsReceived == b.fragCount {
      FinishTrue(s, sent, qp);
      FinishKeeps(s);
      DrainTrue(Finish(s), sent, qp);
    }
  }

  lemma ActivateTrue(rx: Rx, meta: Meta, count: nat, sent: int -> Msg, qp: u32)
    requires Truth(rx, sent, qp) && rx.active.None? && rx.recvq != []
    requires meta == MsgMeta(sent(Expected(rx)), qp) && |sent(Expected(rx)).data| <= MAX_MSG_SIZE
    requires if rx.striping then count == Count(sent(Expected(rx)).data) else |sent(Expected(rx)).data| > 0
    ensures Truth(Activate(rx, meta, count), sent, qp)
  {
    if meta.total <= |rx.recvq[0].buf| {
      HoldsNothing(rx.recvq[0], sent(Expected(rx)).data);
    }
    assert Below(0) == {};
  }

  lemma StripedTrue(rx: Rx, f: Fragment, allocMsg: bool, allocFrag: bool, i: nat, sent: int -> Msg, qp: u32)
    requires Structure(rx) && Truth(rx, sent, qp) && rx.striping && rx.first <= f.n
    requires FragTrue(f, sent(f.n), qp, i)
    ensures Truth(Striped(rx, f, allocMsg, allocFrag), sent, qp)
  {
    hide Buffer;
    hide Absorb;
    hide Reack;
    hide NotReady;
    hide Count;
    if f.n < Expected(rx) {
      ReackTrue(rx, f, sent, qp);
    } else if f.n > Expected(rx) || (rx.active.None? && Find(rx.reorder, f.n) < |rx.reorder|) {
      BufferTrue(rx, f, allocMsg, allocFrag, i, sent, qp);
    } else if rx.active.Some? {
      AbsorbTrue(rx, i, f, sent, qp);
    } else if rx.recvq == [] {
      NotReadyTrue(rx, f, sent, qp);
    } else {
      StripedFirstTrue(rx, f, i, sent, qp);
    }
  }

  lemma StripedFirstTrue(rx: Rx, f: Fragment, i: nat, sent: int -> Msg, qp: u32)
    requires Structure(rx) && Truth(rx, sent, qp) && rx.striping && rx.active.None? && rx.recvq != []
    requires Find(rx.reorder, Expected(rx)) == |rx.reorder| && FragTrue(f, sent(Expected(rx)), qp, i)
    ensures Truth(Absorb(Activate(rx, f.meta, Count(sent(Expected(rx)).data)), i, f.offset, f.payload), sent, qp)
  {
    hide Absorb;
    hide Count;
    var count := Count(sent(Expected(rx)).data);
    ActivateKeeps(rx, f.meta, count);
    ActivateTrue(rx, f.meta, count, sent, qp);
    AbsorbTrue(Activate(rx, f.meta, count), i, f, sent, qp);
  }

  lemma NotReadyTrue(rx: Rx, f: Fragment, sent: int -> Msg, qp: u32)
    requires Truth(rx, sent, qp) && f.meta.srcQp == qp
    ensures Truth(NotReady(rx, f), sent, qp)
  {
    SendAckTrue(rx.(rnr := Some(f.rnr)), f.n, f.meta.srcQp, AckRnr, sent, qp);
  }

  /** What holds before the next fragment in order: an active message that may still be empty. */
  ghost predicate NextIs(rx: Rx, i: nat, sent: int -> Msg, qp: u32) {
    && Truth(WithActive(rx, None), sent, qp) && rx.active.Some? && !rx.striping
    && var a, m := rx.active.value, sent(Expected(rx));
       && a.meta == MsgMeta(m, qp) && |m.data| <= MAX_MSG_SIZE && a.received == i * MAX_PAYLOAD
       && (a.status == Success ==> Holds(a.wqe, a.delivered, m.data, Below(i))) && Honest(a.status, a.wqe, m)
  }

  lemma TakeTrue(rx: Rx, f: Fragment, i: nat, sent: int -> Msg, qp: u32)
    requires Structure(rx) && NextIs(rx, i, sent, qp) && FragTrue(f, sent(Expected(rx)), qp, i)
    ensures Truth(Take(rx, f.offset, f.payload, f.last), sent, qp)
  {
    hide Drain;
    hide Finish;
    var a, data := rx.active.value, sent(Expected(rx)).data;
    CopiedHolds(a, data, Below(i), i);
    assert Below(i) + {i} == Below(i + 1);
    Fragments.LastIff(|data|, i);
    var b := Copied(a, f.offset, f.payload);
    var s := WithActive(rx, Some(b));
    if f.last {
      FinishTrue(s, sent, qp);
      FinishKeeps(s);
      DrainTrue(Finish(s), sent, qp);
    } else {
      MulDiv(i + 1, MAX_PAYLOAD);
      assert b.received == (i + 1) * MAX_PAYLOAD;
      assert Parts(false, b) == Below(i + 1);
    }
  }

  /** The active message, seen as waiting for its next fragment. */
  lemma ActiveNext(rx: Rx, sent: int -> Msg, qp: u32)
    requires Truth(rx, sent, qp) && rx.active.Some? && !rx.striping
    ensures NextIs(rx, rx.active.value.received / MAX_PAYLOAD, sent, qp)
  {
    DivBounds(rx.active.value.received, MAX_PAYLOAD);
  }

  /** A genuine fragment that starts below a fragment boundary ends by it. */
  lemma NoOverlap(f: Fragment, m: Msg, qp: u32, i: nat, received: nat)
    requires FragTrue(f, m, qp, i) && received % MAX_PAYLOAD == 0 && f.offset < received
    ensures f.offset + |f.payload| <= received
  {
    FragFits(|m.data|, MAX_PAYLOAD, i);
    DivBounds(received, MAX_PAYLOAD);
    MulSucc(i, MAX_PAYLOAD);
    if received / MAX_PAYLOAD > i {
      MulMono(i + 1, received / MAX_PAYLOAD, MAX_PAYLOAD);
    }
  }

  lemma ContinueTrue(rx: Rx, f: Fragment, allocMsg: bool, allocFrag: bool, i: nat, sent: int -> Msg, qp: u32)
    requires Structure(rx) && Truth(rx, sent, qp) && !rx.striping && rx.active.Some? && rx.first <= f.n
    requires FragTrue(f, sent(f.n), qp, i)
    ensures Truth(Continue(rx, f, allocMsg, allocFrag), sent, qp)
  {
    hide Buffer;
    hide Take;
    hide Reack;
    hide Count;
    var a := rx.active.value;
    if f.n < Expected(rx) {
      ReackTrue(rx, f, sent, qp);
    } else if f.n > Expected(rx) {
      BufferTrue(rx, f, allocMsg, allocFrag, i, sent, qp);
    } else if a.received == f.offset {
      ActiveNext(rx, sent, qp);
      MulDiv(i, MAX_PAYLOAD);
      TakeTrue(rx, f, i, sent, qp);
    } else if f.offset < a.received {
      NoOverlap(f, sent(f.n), qp, i, a.received);
    }
  }

  lemma SequentialTrue(rx: Rx, f: Fragment, allocMsg: bool, allocFrag: bool, i: nat, sent: int -> Msg, qp: u32)
    requires Structure(rx) && Truth(rx, sent, qp) && !rx.striping && rx.first <= f.n
    requires FragTrue(f, sent(f.n), qp, i)
    ensures Truth(Sequential(rx, f, allocMsg, allocFrag), sent, qp)
  {
    hide Buffer;
    hide Continue;
    hide Take;
    hide NotReady;
    hide Count;
    if rx.active.Some? {
      ContinueTrue(rx, f, allocMsg, allocFrag, i, sent, qp);
    } else if Find(rx.reorder, f.n) < |rx.reorder| || f.n != Expected(rx) || f.offset != 0 {
      BufferTrue(rx, f, allocMsg, allocFrag, i, sent, qp);
    } else if rx.recvq == [] {
      NotReadyTrue(rx, f, sent, qp);
    } else {
      FirstTrue(rx, f, i, sent, qp);
    }
  }

  lemma FirstTrue(rx: Rx, f: Fragment, i: nat, sent: int -> Msg, qp: u32)
    requires Structure(rx) && Truth(rx, sent, qp) && !rx.striping && rx.active.None? && rx.recvq != []
    requires Find(rx.reorder, Expected(rx)) == |rx.reorder| && f.offset == 0
    requires FragTrue(f, sent(Expected(rx)), qp, i)
    ensures Truth(Take(Activate(rx, f.meta, 0), 0, f.payload, f.last), sent, qp)
  {
    hide Take;
    hide Count;
    var s, m := Activate(rx, f.meta, 0), sent(Expected(rx));
    ActivateSequentialKeeps(rx, f.meta);
    if f.meta.total <= |rx.recvq[0].buf| {
      HoldsNothing(rx.recvq[0], m.data);
    }
    assert i == 0;
    assert WithActive(s, None) == Pop(rx);
    assert NextIs(s, 0, sent, qp);
    TakeTrue(s, f, 0, sent, qp);
  }

  // ---------------------------------------------------------------- runs

  lemma HeadExpiresTrue(rx: Rx, sent: int -> Msg, qp: u32)
    requires Structure(rx) && Truth(rx, sent, qp)
    ensures Truth(HeadExpires(rx), sent, qp)
  {
    hide Drain;
    hide DoneTrue;
    hide AcksTrue;
    hide SumBytes;
    var i := Find(rx.reorder, Expected(rx));
    if i < |rx.reorder| {
      assert InWindow(rx.reorder[i], Expected(rx), rx.active.Some?);
      var s := Unlink(rx, i);
      UnlinkKeeps(rx, i);
      UnlinkTrue(rx, i, sent, qp);
      MoveOn(s.reorder, Expected(s));
      DoneLater(s.first, s.log, s.done, sent, qp);
      AcksLater(s.first, s.log, s.acks, AckError, qp);
      DrainTrue(s.(log := s.log + [AckError]), sent, qp);
    }
  }

  /** A frame event of a truthful sender: a genuine frame of a message within half the PSN space. */
  ghost predicate TrueEvent(rx: Rx, e: Event, sent: int -> Msg, qp: u32) {
    e.Frame? ==>
      exists n :: rx.first <= n && -HALF <= n - Expected(rx) < HALF && Genuine(sent(n), qp, n, e.header, e.payload)
  }

  lemma FrameTrue(rx: Rx, f: Fragment, allocMsg: bool, allocFrag: bool, i: nat, sent: int -> Msg, qp: u32)
    requires Structure(rx) && Truth(rx, sent, qp) && rx.first <= f.n && FragTrue(f, sent(f.n), qp, i)
    ensures Truth(OnFragment(rx, f, allocMsg, allocFrag), sent, qp)
  {
    hide Striped;
    hide Sequential;
    hide Count;
    if rx.striping {
      StripedTrue(rx, f, allocMsg, allocFrag, i, sent, qp);
      StripedTrue(ClearRnr(rx), f, allocMsg, allocFrag, i, sent, qp);
    } else {
      SequentialTrue(rx, f, allocMsg, allocFrag, i, sent, qp);
      SequentialTrue(ClearRnr(rx), f, allocMsg, allocFrag, i, sent, qp);
    }
  }

  lemma StepTrue(rx: Rx, e: Event, sent: int -> Msg, qp: u32)
    requires Structure(rx) && Truth(rx, sent, qp) && TrueEvent(rx, e, sent, qp)
    ensures Truth(Step(rx, e), sent, qp)
  {
    hide OnFragment;
    hide FragmentOf;
    match e
    case Frame(h, payload, allocMsg, allocFrag) =>
      var n :| rx.first <= n && -HALF <= n - Expected(rx) < HALF && Genuine(sent(n), qp, n, h, payload);
      var i :| IsPart(sent(n).data, i, h, payload);
      ReadTrue(rx, sent(n), qp, n, h, payload, i);
      FrameTrue(rx, FragmentOf(rx, h, payload), allocMsg, allocFrag, i, sent, qp);
    case ExpireActive => FailTrue(rx, GeneralErr, sent, qp);
    case ExpireHead => HeadExpiresTrue(rx, sent, qp);
    case _ =>
  }

  ghost predicate TrueRun(rx: Rx, events: seq<Event>, sent: int -> Msg, qp: u32) {
    forall k :: 0 <= k < |events| ==> TrueEvent(Run(rx, events[..k]), events[k], sent, qp)
  }

  /** The invariants hold in every run. */
  lemma {:induction false} Delivery(striping: bool, first: int, room: nat, events: seq<Event>, sent: int -> Msg,
                                    qp: u32)
    requires TrueRun(NativeRx.Start(striping, first, room), events, sent, qp)
    ensures Truth(Run(NativeRx.Start(striping, first, room), events), sent, qp)
  {
    var rx := NativeRx.Start(striping, first, room);
    if events != [] {
      var k := |events| - 1;
      var prefix := events[..k];
      assert forall j :: 0 <= j < k ==> events[..j] == prefix[..j];
      assert TrueRun(rx, prefix, sent, qp);
      Delivery(striping, first, room, prefix, sent, qp);
      RunKeeps(striping, first, room, prefix);
      StepTrue(Run(rx, prefix), events[k], sent, qp);
    }
  }

  /** Every run: completions come in the order of the messages, at most one for each; a success holds
      exactly the bytes sent, and a length or protection error has its reason; acknowledgements go to the
      sender; and an acknowledgement of success is sent only for a message that completed
      with success, or for one consumed so long ago that the history has forgotten it. */
  lemma DeliveredExactly(striping: bool, first: int, room: nat, events: seq<Event>, sent: int -> Msg, qp: u32)
    requires TrueRun(NativeRx.Start(striping, first, room), events, sent, qp)
    ensures var rx := Run(NativeRx.Start(striping, first, room), events);
            && (forall i, j :: 0 <= i < j < |rx.done| ==> rx.done[i].n < rx.done[j].n)
            && (forall i :: 0 <= i < |rx.done| ==> rx.first <= rx.done[i].n < Expected(rx))
            && (forall i :: 0 <= i < |rx.done| && rx.done[i].status == Success ==>
                  Exact(rx.done[i], sent(rx.done[i].n), qp))
            && (forall i :: 0 <= i < |rx.done| ==> Honest(rx.done[i].status, rx.done[i].wqe, sent(rx.done[i].n)))
            && (forall k :: 0 <= k < |rx.acks| ==> rx.acks[k].destQp == qp)
            && (forall k :: 0 <= k < |rx.acks| && rx.acks[k].status == AckOk ==>
                  rx.acks[k].n < Expected(rx) - HISTORY_SIZE || Succeeded(rx.done, rx.acks[k].n))
  {
    hide Run;
    hide ActiveTrue;
    hide ListTrue;
    hide Exact;
    Delivery(striping, first, room, events, sent, qp);
    var rx := Run(NativeRx.Start(striping, first, room), events);
    forall i | 0 <= i < |rx.done| ensures CompletionTrue(rx.done[i], rx.first, rx.log, sent, qp) {
    }
    forall k | 0 <= k < |rx.acks| ensures AckTrue(rx.first, rx.log, rx.acks[k], qp) {
    }
    forall k | 0 <= k < |rx.acks| && rx.acks[k].status == AckOk
      ensures rx.acks[k].n < Expected(rx) - HISTORY_SIZE || Succeeded(rx.done, rx.acks[k].n)
    {
      assert AckTrue(rx.first, rx.log, rx.acks[k], qp);
    }
  }
}
