/** What the receiver of NativeRx answers: a duplicate of a consumed message gets the status that was recorded
    for it, every completion is acknowledged to its sender, a message without a posted receive is answered
    receiver-not-ready and taken when it is retried, and a malformed frame is refused. */
module NativeRxAnswers {
  import opened Prelude
  import opened Cut
  import opened NativeData
  import opened Psn
  import opened AckHistory
  import opened RecvWqe
  import opened NativeRx
  import opened RecvParts
  import opened ReorderWindow
  import opened NativeRxSafety

  // ---------------------------------------------------------------- duplicates

  /** A frame of message number n that a sender may send: some message has it as a fragment. */
  ghost predicate WellFormed(h: Header, payload: seq<u8>, n: int) {
    h.psn == PsnOf(n) && exists m: Msg, i: nat :: SameMessage(m, h.srcQp, h) && IsPart(m.data, i, h, payload)
  }

  /** Suppression lets the frame through: nothing waits for a retry, or another message does, or it is the
      very fragment that was answered receiver-not-ready. */
  predicate LetThrough(rx: Rx, h: Header) {
    rx.rnr.Some? ==>
      || rx.rnr.value.srcQp != h.srcQp || rx.rnr.value.psn != h.psn
      || (rx.rnr.value.remoteAddr == h.remoteAddr && rx.rnr.value.fragOffset == h.fragOffset)
  }

  lemma ReadWellFormed(rx: Rx, h: Header, payload: seq<u8>, n: int)
    requires WellFormed(h, payload, n) && -HALF <= n - Expected(rx) < HALF
    ensures var f := FragmentOf(rx, h, payload);
            && f.n == n && f.meta.srcQp == h.srcQp && !f.bad && f.shape.Some? && f.rnr.srcQp == h.srcQp
            && f.rnr == Rnr(h.srcQp, h.psn, h.remoteAddr, h.fragOffset)
  {
    var m: Msg, i: nat :| SameMessage(m, h.srcQp, h) && IsPart(m.data, i, h, payload);
    ReadTrue(rx, m, h.srcQp, n, h, payload, i);
  }

  /** In any run, a well-formed frame of a message that has been consumed is answered once, to its sender: with
      the status recorded for the message if it is one of the last 1024, and with success otherwise. It
      changes nothing else, except that it may be the retry that suppression waited for. */
  lemma DuplicateAnswered(striping: bool, first: int, room: nat, events: seq<Event>, e: Event, n: int)
    requires var rx := Run(NativeRx.Start(striping, first, room), events);
             && e.Frame? && WellFormed(e.header, e.payload, n) && LetThrough(rx, e.header)
             && rx.first <= n < Expected(rx) && Expected(rx) - HALF <= n
    ensures var rx := Run(NativeRx.Start(striping, first, room), events);
            var s := Step(rx, e);
            var status := if n >= Expected(rx) - 1024 then rx.log[n - rx.first] else AckOk;
            && s.acks == rx.acks + [Ack(n, e.header.srcQp, status)]
            && s == rx.(acks := s.acks, rnr := s.rnr) && (rx.rnr.None? ==> s.rnr.None?)
  {
    hide Step;
    hide WellFormed;
    hide LetThrough;
    RunKeeps(striping, first, room, events);
    hide Structure;
    DuplicateAt(Run(NativeRx.Start(striping, first, room), events), e, n);
    hide Run;
  }

  lemma DuplicateAt(rx: Rx, e: Event, n: int)
    requires Structure(rx) && e.Frame? && WellFormed(e.header, e.payload, n) && LetThrough(rx, e.header)
    requires rx.first <= n < Expected(rx) && Expected(rx) - HALF <= n
    ensures var s := Step(rx, e);
            var status := if n >= Expected(rx) - 1024 then rx.log[n - rx.first] else AckOk;
            && s.acks == rx.acks + [Ack(n, e.header.srcQp, status)]
            && s == rx.(acks := s.acks, rnr := s.rnr) && (rx.rnr.None? ==> s.rnr.None?)
  {
    ReadWellFormed(rx, e.header, e.payload, n);
    var f := FragmentOf(rx, e.header, e.payload);
    hide WellFormed;
    hide FragmentOf;
    NotWaiting(rx, n);
    hide Structure;
    hide Find;
    DuplicateRouted(rx, f, e.allocMsg, e.allocFrag);
    DuplicateRouted(ClearRnr(rx), f, e.allocMsg, e.allocFrag);
    hide Route;
  }

  lemma NotWaiting(rx: Rx, n: int)
    requires Structure(rx) && n < Expected(rx)
    ensures Find(rx.reorder, n) == |rx.reorder|
  {
    forall j | 0 <= j < |rx.reorder| ensures rx.reorder[j].n != n {
      assert InWindow(rx.reorder[j], Expected(rx), rx.active.Some?);
    }
  }

  lemma DuplicateRouted(rx: Rx, f: Fragment, allocMsg: bool, allocFrag: bool)
    requires rx.first <= f.n < Expected(rx) && f.shape.Some? && Find(rx.reorder, f.n) == |rx.reorder|
    ensures var status := if f.n >= Expected(rx) - 1024 then rx.log[f.n - rx.first] else AckOk;
            Route(rx, f, allocMsg, allocFrag) == rx.(acks := rx.acks + [Ack(f.n, f.meta.srcQp, status)])
  {
    hide Store;
    hide Take;
    hide Absorb;
    hide Fail;
  }

  // ---------------------------------------------------------------- no posted receive

  /** In any run, a well-formed frame that would begin the expected message while no receive is posted is answered
      receiver-not-ready, once, to its sender; nothing else changes but what suppression waits for. */
  lemma NotReadyAnswered(striping: bool, first: int, room: nat, events: seq<Event>, e: Event)
    requires var rx := Run(NativeRx.Start(striping, first, room), events);
             && e.Frame? && WellFormed(e.header, e.payload, Expected(rx)) && LetThrough(rx, e.header)
             && rx.active.None? && rx.recvq == [] && (striping || e.header.fragOffset == 0)
             && forall j :: 0 <= j < |rx.reorder| ==> rx.reorder[j].n != Expected(rx)
    ensures var rx := Run(NativeRx.Start(striping, first, room), events);
            var h := e.header;
            Step(rx, e) == rx.(acks := rx.acks + [Ack(Expected(rx), h.srcQp, AckRnr)],
                               rnr := Some(Rnr(h.srcQp, h.psn, h.remoteAddr, h.fragOffset)))
  {
    var rx := Run(NativeRx.Start(striping, first, room), events);
    StripingStays(striping, first, room, events);
    hide Run;
    ReadWellFormed(rx, e.header, e.payload, Expected(rx));
    OffsetRead(rx, e.header, e.payload);
    hide FragmentOf;
    hide Buffer;
    hide Take;
    hide Absorb;
    hide Fail;
  }

  lemma OffsetRead(rx: Rx, h: Header, payload: seq<u8>)
    ensures FragmentOf(rx, h, payload).offset == h.fragOffset
  {
  }

  /** After that answer the other fragments of the message are dropped without a word, and the retry of the
      fragment that was answered is taken as if nothing had been answered. */
  lemma RetryTaken(rx: Rx, e: Event)
    requires e.Frame? && WellFormed(e.header, e.payload, Expected(rx)) && rx.rnr.Some?
    requires rx.rnr.value.srcQp == e.header.srcQp && rx.rnr.value.psn == e.header.psn
    ensures var h := e.header;
            Step(rx, e) == if rx.rnr.value == Rnr(h.srcQp, h.psn, h.remoteAddr, h.fragOffset)
                           then Step(rx.(rnr := None), e) else rx
  {
    ReadWellFormed(rx, e.header, e.payload, Expected(rx));
    assert FragmentOf(rx.(rnr := None), e.header, e.payload) == FragmentOf(rx, e.header, e.payload);
    hide FragmentOf;
    hide Route;
  }

  lemma {:induction false} StripingStays(striping: bool, first: int, room: nat, events: seq<Event>)
    ensures Run(NativeRx.Start(striping, first, room), events).striping == striping
  {
    hide Step;
    if events != [] {
      StripingStays(striping, first, room, events[..|events| - 1]);
      StepAnswers(Run(NativeRx.Start(striping, first, room), events[..|events| - 1]), events[|events| - 1]);
    }
  }

  /** A frame whose header cannot be that of any fragment is answered with an error, to its sender, and changes
      nothing else. */
  lemma BadRefused(rx: Rx, e: Event)
    requires e.Frame?
    requires var h := e.header;
             || h.fragOffset + h.length > h.immData || h.immData > MAX_MSG_SIZE || h.remoteAddr != 0 || h.flags >= 4
             || (h.length == 0 && !IsLast(h.flags)) || IsLast(h.flags) != (h.fragOffset + h.length == h.immData)
             || (h.opcode != OP_SEND_IMM && h.rkey != 0)
    ensures exists n :: Step(rx, e) == rx.(acks := rx.acks + [Ack(n, e.header.srcQp, AckError)])
  {
    hide Route;
    var n := NumberOf(Expected(rx), e.header.psn % PSN_MOD);
    assert Step(rx, e) == rx.(acks := rx.acks + [Ack(n, e.header.srcQp, AckError)]);
  }

  // ---------------------------------------------------------------- what is given up

  /** In any run, a well-formed frame more than 1024 messages ahead is refused with an error and changes nothing
      else. */
  lemma TooFarRefused(striping: bool, first: int, room: nat, events: seq<Event>, e: Event, n: int)
    requires var rx := Run(NativeRx.Start(striping, first, room), events);
             && e.Frame? && WellFormed(e.header, e.payload, n) && rx.rnr.None?
             && Expected(rx) + 1024 <= n < Expected(rx) + HALF
    ensures var rx := Run(NativeRx.Start(striping, first, room), events);
            Step(rx, e) == rx.(acks := rx.acks + [Ack(n, e.header.srcQp, AckError)])
  {
    hide Run;
    var rx := Run(NativeRx.Start(striping, first, room), events);
    RunKeeps(striping, first, room, events);
    ReadWellFormed(rx, e.header, e.payload, n);
    hide FragmentOf;
    hide Store;
    hide Take;
    hide Absorb;
    hide Fail;
    forall j | 0 <= j < |rx.reorder| ensures rx.reorder[j].n != n {
      assert InWindow(rx.reorder[j], Expected(rx), rx.active.Some?);
    }
  }

  /** A message that expires is given up and the receiver goes on to the next: an active one completes with an
      error, one held in the reorder list is only recorded as failed. */
  lemma ExpiryMovesOn(striping: bool, first: int, room: nat, events: seq<Event>)
    ensures var rx := Run(NativeRx.Start(striping, first, room), events);
            && (rx.active.Some? ==>
                  var s := Step(rx, ExpireActive);
                  && s.active.None? && s.log == rx.log + [AckError]
                  && (rx.room > 0 && !rx.overflowed ==>
                        |s.done| == |rx.done| + 1 && s.done[|rx.done|].status == GeneralErr
                        && s.done[|rx.done|].n == Expected(rx)))
            && ((exists j :: 0 <= j < |rx.reorder| && rx.reorder[j].n == Expected(rx)) ==>
                  rx.log + [AckError] <= Step(rx, ExpireHead).log)
  {
    hide Run;
    hide Drain;
    var rx := Run(NativeRx.Start(striping, first, room), events);
    var i := Find(rx.reorder, Expected(rx));
    if i < |rx.reorder| {
      DrainLogs(Unlink(rx, i).(log := rx.log + [AckError]));
    }
  }

  lemma {:induction false} DrainLogs(rx: Rx)
    ensures rx.log <= Drain(rx).log
    decreases |rx.reorder|
  {
    hide CopyFrags;
    var i := Find(rx.reorder, Expected(rx));
    if !(rx.active.Some? || i == |rx.reorder| || !rx.reorder[i].body.complete) && rx.recvq != [] {
      DrainLogs(Deliver(rx, i));
    }
  }

  // ---------------------------------------------------------------- completions

  /** The completion's acknowledgement: to the sender of the message, OK exactly for a success. */
  function AckOf(c: Completion): Ack {
    Ack(c.n, c.srcQp, if c.status == WcStatus.Success then AckOk else AckError)
  }

  /** Every completion has been acknowledged. */
  ghost predicate Acknowledged(done: seq<Completion>, acks: seq<Ack>) {
    forall i :: 0 <= i < |done| ==> AckOf(done[i]) in acks
  }

  /** From r to s acknowledgements and completions were only added, each new completion with its own. */
  ghost predicate Answers(r: Rx, s: Rx) {
    && r.striping == s.striping && r.acks <= s.acks && r.done <= s.done
    && (Acknowledged(r.done, r.acks) ==> Acknowledged(s.done, s.acks))
  }

  lemma AnswersJoin(r: Rx, s: Rx, t: Rx)
    requires Answers(r, s) && Answers(s, t)
    ensures Answers(r, t)
  {
  }

  lemma AddsAck(r: Rx, s: Rx, a: Ack)
    requires s.acks == r.acks + [a] && s.done == r.done && s.striping == r.striping
    ensures Answers(r, s)
  {
  }

  lemma ConsumeAnswers(rx: Rx, w: Wqe, status: WcStatus, byteLen: nat, meta: Meta)
    ensures Answers(rx, Consume(rx, w, status, byteLen, meta))
  {
    var s := Consume(rx, w, status, byteLen, meta);
    assert s.acks[|rx.acks|] in s.acks;
    if Acknowledged(rx.done, rx.acks) {
      forall i | 0 <= i < |s.done| ensures AckOf(s.done[i]) in s.acks {
        if i < |rx.done| {
          assert AckOf(rx.done[i]) in rx.acks;
        }
      }
    }
  }

  lemma FinishAnswers(rx: Rx)
    ensures Answers(rx, Finish(rx))
  {
    if rx.active.Some? {
      var a := rx.active.value;
      ConsumeAnswers(WithActive(rx, None), a.wqe, a.status, a.delivered, a.meta);
    }
  }

  lemma DeliverAnswers(rx: Rx, i: nat)
    requires i < |rx.reorder|
    ensures Answers(rx, Deliver(rx, i))
  {
    hide Consume;
    hide CopyFrags;
    var b := rx.reorder[i].body;
    if rx.recvq == [] {
      AddsAck(rx, Deliver(rx, i), Ack(rx.reorder[i].n, b.meta.srcQp, AckRnr));
    } else {
      var (v, delivered, ok) := CopyFrags(rx.recvq[0], b.frags);
      var status := if !ok then ProtErr else if b.meta.total > |rx.recvq[0].buf| then LenErr else WcStatus.Success;
      ConsumeAnswers(Unlink(Pop(rx), i), v, status, delivered, b.meta);
    }
  }

  lemma {:induction false} DrainAnswers(rx: Rx)
    ensures Answers(rx, Drain(rx))
    decreases |rx.reorder|
  {
    hide Deliver;
    hide Acknowledged;
    var i := Find(rx.reorder, Expected(rx));
    if !(rx.active.Some? || i == |rx.reorder| || !rx.reorder[i].body.complete) {
      DeliverAnswers(rx, i);
      if rx.recvq != [] {
        DeliverShorter(rx, i);
        DrainAnswers(Deliver(rx, i));
        AnswersJoin(rx, Deliver(rx, i), Drain(Deliver(rx, i)));
      }
    }
  }

  lemma DeliverShorter(rx: Rx, i: nat)
    requires i < |rx.reorder| && rx.recvq != []
    ensures |Deliver(rx, i).reorder| < |rx.reorder|
  {
    hide CopyFrags;
  }

  lemma RefuseAnswers(rx: Rx, f: Fragment)
    ensures Answers(rx, Refuse(rx, f)) && Answers(rx, Reack(rx, f)) && Answers(rx, NotReady(rx, f))
  {
    AddsAck(rx, Refuse(rx, f), Ack(f.n, f.meta.srcQp, AckError));
    AddsAck(rx, Reack(rx, f), Ack(f.n, f.meta.srcQp, Answer(rx.first, rx.log, f.n)));
    AddsAck(rx, NotReady(rx, f), Ack(f.n, f.meta.srcQp, AckRnr));
  }

  lemma StoreAnswers(rx: Rx, i: nat, f: Fragment, idx: nat, alloc: bool)
    requires i < |rx.reorder|
    ensures Answers(rx, Store(rx, i, f, idx, alloc))
  {
    hide Drain;
    hide Acknowledged;
    RefuseAnswers(rx, f);
    DrainAnswers(Replace(rx, i, Grown(rx.reorder[i].body, idx, f.offset, f.payload), |f.payload|));
  }

  lemma BufferAnswers(rx: Rx, f: Fragment, allocMsg: bool, allocFrag: bool)
    ensures Answers(rx, Buffer(rx, f, allocMsg, allocFrag))
  {
    hide Drain;
    hide Store;
    hide Acknowledged;
    RefuseAnswers(rx, f);
    DrainAnswers(rx);
    var i := Find(rx.reorder, f.n);
    if i < |rx.reorder| {
      RefuseAnswers(Unlink(rx, i), f);
    }
    if f.shape.Some? {
      var (idx, count) := f.shape.value;
      if i < |rx.reorder| {
        StoreAnswers(rx, i, f, idx, allocFrag);
      } else {
        StoreAnswers(Append(rx, f.n, EmptyBody(f.meta, count)), i, f, idx, allocFrag);
      }
    }
  }

  /** An active message takes bytes and may finish. */
  lemma FinishDrainAnswers(rx: Rx)
    ensures Answers(rx, Finish(rx)) && Answers(rx, Drain(Finish(rx)))
  {
    FinishAnswers(rx);
    DrainAnswers(Finish(rx));
    AnswersJoin(rx, Finish(rx), Drain(Finish(rx)));
  }

  lemma AbsorbAnswers(rx: Rx, idx: nat, offset: nat, payload: seq<u8>)
    requires rx.active.Some?
    ensures Answers(rx, Absorb(rx, idx, offset, payload))
  {
    hide Drain;
    hide Finish;
    hide Acknowledged;
    hide Copied;
    FinishDrainAnswers(WithActive(rx, Some(Absorbed(rx.active.value, idx, offset, payload))));
  }

  lemma TakeAnswers(rx: Rx, offset: nat, payload: seq<u8>, last: bool)
    requires rx.active.Some?
    ensures Answers(rx, Take(rx, offset, payload, last))
  {
    hide Drain;
    hide Finish;
    hide Acknowledged;
    hide Copied;
    FinishDrainAnswers(WithActive(rx, Some(Copied(rx.active.value, offset, payload))));
  }

  lemma FailAnswers(rx: Rx, status: WcStatus, f: Fragment)
    ensures Answers(rx, Fail(rx, status)) && Answers(rx, Refuse(Fail(rx, status), f))
  {
    hide Finish;
    hide Acknowledged;
    if rx.active.Some? {
      FinishAnswers(WithActive(rx, Some(rx.active.value.(status := status))));
    }
    RefuseAnswers(Fail(rx, status), f);
    AnswersJoin(rx, Fail(rx, status), Refuse(Fail(rx, status), f));
  }

  lemma StripedAnswers(rx: Rx, f: Fragment, allocMsg: bool, allocFrag: bool)
    ensures Answers(rx, Striped(rx, f, allocMsg, allocFrag))
  {
    hide Buffer;
    hide Absorb;
    hide Fail;
    hide Refuse;
    hide Reack;
    hide NotReady;
    hide Acknowledged;
    RefuseAnswers(rx, f);
    BufferAnswers(rx, f, allocMsg, allocFrag);
    FailAnswers(rx, ProtErr, f);
    if f.shape.Some? {
      var (idx, count) := f.shape.value;
      if rx.active.Some? {
        AbsorbAnswers(rx, idx, f.offset, f.payload);
      } else if rx.recvq != [] {
        AbsorbAnswers(Activate(rx, f.meta, count), idx, f.offset, f.payload);
      }
    }
  }

  lemma SequentialAnswers(rx: Rx, f: Fragment, allocMsg: bool, allocFrag: bool)
    ensures Answers(rx, Sequential(rx, f, allocMsg, allocFrag))
  {
    hide Buffer;
    hide Take;
    hide Fail;
    hide Refuse;
    hide Reack;
    hide NotReady;
    hide Acknowledged;
    RefuseAnswers(rx, f);
    BufferAnswers(rx, f, allocMsg, allocFrag);
    FailAnswers(rx, ProtErr, f);
    if rx.active.Some? {
      TakeAnswers(rx, f.offset, f.payload, f.last);
      var duplicate := rx.active.value.received - f.offset;
      if 0 <= duplicate < |f.payload| {
        TakeAnswers(rx, rx.active.value.received, f.payload[duplicate..], f.last);
      }
    } else if rx.recvq != [] {
      TakeAnswers(Activate(rx, f.meta, 0), 0, f.payload, f.last);
    }
  }

  lemma StepAnswers(rx: Rx, e: Event)
    ensures Answers(rx, Step(rx, e))
  {
    hide Striped;
    hide Sequential;
    hide FragmentOf;
    hide Drain;
    hide Refuse;
    hide Fail;
    hide Acknowledged;
    match e
    case Frame(h, payload, allocMsg, allocFrag) =>
      var f := FragmentOf(rx, h, payload);
      RefuseAnswers(rx, f);
      StripedAnswers(rx, f, allocMsg, allocFrag);
      StripedAnswers(ClearRnr(rx), f, allocMsg, allocFrag);
      SequentialAnswers(rx, f, allocMsg, allocFrag);
      SequentialAnswers(ClearRnr(rx), f, allocMsg, allocFrag);
    case ExpireActive => FailOnlyAnswers(rx);
    case ExpireHead =>
      var i := Find(rx.reorder, Expected(rx));
      if i < |rx.reorder| {
        DrainAnswers(Unlink(rx, i).(log := rx.log + [AckError]));
      }
    case _ =>
  }

  lemma FailOnlyAnswers(rx: Rx)
    ensures Answers(rx, Fail(rx, GeneralErr))
  {
    hide Finish;
    hide Acknowledged;
    if rx.active.Some? {
      FinishAnswers(WithActive(rx, Some(rx.active.value.(status := GeneralErr))));
    }
  }

  /** In any run, whatever frames arrive, every completion is acknowledged to the sender of its message: OK for
      a success, and an error otherwise. Acknowledgements are never taken back. */
  lemma {:induction false} CompletionsAcknowledged(striping: bool, first: int, room: nat, events: seq<Event>)
    ensures var rx := Run(NativeRx.Start(striping, first, room), events);
            forall i :: 0 <= i < |rx.done| ==>
              Ack(rx.done[i].n, rx.done[i].srcQp,
                  if rx.done[i].status == WcStatus.Success then AckOk else AckError) in rx.acks
  {
    hide Step;
    var rx := NativeRx.Start(striping, first, room);
    if events != [] {
      var prefix := events[..|events| - 1];
      CompletionsAcknowledged(striping, first, room, prefix);
      assert forall i :: 0 <= i < |Run(rx, prefix).done| ==> AckOf(Run(rx, prefix).done[i]) in Run(rx, prefix).acks;
      StepAnswers(Run(rx, prefix), events[|events| - 1]);
    }
    assert Acknowledged(Run(rx, events).done, Run(rx, events).acks);
    forall i | 0 <= i < |Run(rx, events).done| ensures AckOf(Run(rx, events).done[i]) in Run(rx, events).acks {
    }
  }
}
