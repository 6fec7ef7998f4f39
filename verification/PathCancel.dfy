/** How packets of PathTx end: a canceled one never succeeds, one that nobody canceled succeeds when its frame
    completes, and the queue never grows beyond its limit by more than the packet in hand. */
module PathCancel {
  import opened Prelude
  import opened Lists
  import opened PathTx
  import opened PathOwnership
  import opened PathGate

  // ---------------------------------------------------------------- canceled packets

  ghost predicate Marked1(q: seq<Pkt>, x: nat) {
    forall i :: 0 <= i < |q| ==> q[i].id == x ==> q[i].canceled
  }

  ghost predicate Failed1(q: seq<(Pkt, int)>, x: nat) {
    forall i :: 0 <= i < |q| ==> q[i].0.id == x ==> q[i].1 != 0
  }

  ghost predicate Absent(q: seq<Pkt>, x: nat) {
    forall i :: 0 <= i < |q| ==> q[i].id != x
  }

  ghost predicate ReleasedFailed(q: seq<(nat, int)>, x: nat) {
    forall i :: 0 <= i < |q| ==> q[i].0 == x ==> q[i].1 != 0
  }

  /** Wherever packet x is, it is marked, or has failed. */
  ghost predicate Doomed(s: Path, x: nat) {
    && x < s.accepted && Absent(s.controlQ, x) && Marked1(s.dataQ, x) && Marked1(s.staged, x) && Marked1(s.zcopy, x)
    && (s.hand.Some? && s.hand.value.pkt.id == x ==> s.hand.value.pkt.canceled && !s.hand.value.pkt.control)
    && Failed1(s.leaving, x) && ReleasedFailed(s.released, x)
  }

  /** Errors are not zero. */
  predicate RealErrors(e: Event) {
    (e.PostFails? ==> e.status != 0) && (e.CancelAll? ==> e.status != 0)
  }

  lemma WithoutMarked(q: seq<Pkt>, i: nat, x: nat)
    requires Marked1(q, x) && i < |q|
    ensures Marked1(Without(q, i), x)
  {
  }

  lemma {:induction false} KeptMarked(q: seq<Pkt>, ctx: nat, byOwner: bool, x: nat)
    requires Marked1(q, x)
    ensures Marked1(Kept(q, ctx, byOwner), x) && Failed1(Canceled(q, ctx, byOwner), x)
  {
    if q != [] {
      KeptMarked(q[..|q| - 1], ctx, byOwner, x);
    }
  }

  lemma SendDoomed(s: Path, e: Event, x: nat)
    requires Doomed(s, x) && (e.SendControl? || e.SendData? || e.SendBatch? || e.SendStream?)
    ensures Doomed(Step(s, e), x)
  {
    hide SumOf;
    hide Batch;
    hide Stream;
  }

  lemma TakeDoomed(s: Path, x: nat)
    requires Doomed(s, x) && Sorted(s)
    ensures Doomed(Take(s), x)
  {
    hide Allowed;
  }

  lemma PostDoomed(s: Path, e: Event, x: nat)
    requires Doomed(s, x) && RealErrors(e) && (e.PostOk? || e.PostFails?)
    ensures Doomed(Step(s, e), x)
  {
  }

  lemma StagedDoomed(s: Path, i: nat, canceled: bool, x: nat)
    requires Doomed(s, x)
    ensures Doomed(CompleteStaged(s, i, canceled), x)
  {
    hide FinishRaw;
    if i < |s.staged| {
      WithoutMarked(s.staged, i, x);
    }
    hide Without;
  }

  lemma ZcopyDoomed(s: Path, i: nat, canceled: bool, x: nat)
    requires Doomed(s, x)
    ensures Doomed(CompleteZcopy(s, i, canceled), x)
  {
    hide FinishRaw;
    if i < |s.zcopy| {
      WithoutMarked(s.zcopy, i, x);
    }
    hide Without;
  }

  lemma ReleaseDoomed(s: Path, i: nat, x: nat)
    requires Doomed(s, x)
    ensures Doomed(Release(s, i), x)
  {
  }

  lemma DoneDoomed(s: Path, e: Event, x: nat)
    requires Doomed(s, x) && (e.StagedDone? || e.ZcopyDone? || e.ReleaseOne?)
    ensures Doomed(Step(s, e), x)
  {
    hide Doomed;
    match e
    case StagedDone(i, canceled) => StagedDoomed(s, i, canceled, x);
    case ZcopyDone(i, canceled) => ZcopyDoomed(s, i, canceled, x);
    case ReleaseOne(i) => ReleaseDoomed(s, i, x);
  }

  lemma CancelDoomed(s: Path, e: Event, x: nat)
    requires Doomed(s, x) && RealErrors(e) && (e.CancelCtx? || e.CancelAll?)
    ensures Doomed(Step(s, e), x)
  {
    hide Kept;
    hide Canceled;
    if e.CancelCtx? {
      KeptMarked(s.dataQ, e.ctx, e.byOwner, x);
    }
  }

  lemma StepDoomed(s: Path, e: Event, x: nat)
    requires Doomed(s, x) && Sorted(s) && RealErrors(e)
    ensures Doomed(Step(s, e), x)
  {
    hide Take;
    hide Posted;
    hide PostFailed;
    hide CompleteStaged;
    hide CompleteZcopy;
    hide Release;
    hide CancelMatch;
    hide CancelQueued;
    hide EnqueueControl;
    hide EnqueueData;
    hide EnqueueList;
    if e.SendControl? || e.SendData? || e.SendBatch? || e.SendStream? {
      SendDoomed(s, e, x);
    } else if e.TakeNext? {
      TakeDoomed(s, x);
    } else if e.PostOk? || e.PostFails? {
      PostDoomed(s, e, x);
    } else if e.StagedDone? || e.ZcopyDone? || e.ReleaseOne? {
      DoneDoomed(s, e, x);
    } else if e.CancelCtx? || e.CancelAll? {
      CancelDoomed(s, e, x);
    }
  }

  /** Cancellation reaches the data packet x: it is queued, submitted, or in hand and attached. */
  predicate Reached(s: Path, e: Event, x: nat) {
    && e.CancelCtx?
    && ((exists i :: 0 <= i < |s.dataQ| && Hit(s.dataQ[i], e, x))
        || (exists i :: 0 <= i < |s.staged| && Hit(s.staged[i], e, x))
        || (exists i :: 0 <= i < |s.zcopy| && Hit(s.zcopy[i], e, x))
        || (e.handToo && s.hand.Some? && Hit(s.hand.value.pkt, e, x)))
  }

  /** A data packet of that owner, or of that context. */
  predicate Hit(p: Pkt, e: Event, x: nat)
    requires e.CancelCtx?
  {
    p.id == x && !p.control && if e.byOwner then p.owner == Some(e.ctx) else p.doneCtx == Some(e.ctx)
  }

  lemma {:induction false} Tallied<T>(q: seq<T>, key: T -> nat, x: nat)
    ensures Tally(q, key, x) == 0 ==> forall i :: 0 <= i < |q| ==> key(q[i]) != x
    ensures Tally(q, key, x) == 1 ==> forall i, j :: 0 <= i < j < |q| ==> key(q[i]) != x || key(q[j]) != x
    ensures (exists i :: 0 <= i < |q| && key(q[i]) == x) ==> Tally(q, key, x) > 0
  {
    if q != [] {
      Tallied(q[..|q| - 1], key, x);
    }
  }

  /** Where a packet is, it is only there. */
  lemma OnlyThere(s: Path, e: Event, x: nat)
    requires OnePlace(s, x) && Reached(s, e, x)
    ensures x < s.accepted && Absent(s.controlQ, x)
    ensures (forall i :: 0 <= i < |s.leaving| ==> s.leaving[i].0.id != x)
    ensures (forall i :: 0 <= i < |s.released| ==> s.released[i].0 != x)
    ensures forall i :: 0 <= i < |s.dataQ| && s.dataQ[i].id == x ==> Hit(s.dataQ[i], e, x)
    ensures forall i :: 0 <= i < |s.staged| && s.staged[i].id == x ==> Hit(s.staged[i], e, x)
    ensures forall i :: 0 <= i < |s.zcopy| && s.zcopy[i].id == x ==> Hit(s.zcopy[i], e, x)
    ensures s.hand.Some? && s.hand.value.pkt.id == x ==> e.handToo && Hit(s.hand.value.pkt, e, x)
  {
    Tallied(s.controlQ, PktId, x);
    Tallied(s.dataQ, PktId, x);
    Tallied(s.staged, PktId, x);
    Tallied(s.zcopy, PktId, x);
    Tallied(s.leaving, LeavingId, x);
    Tallied(s.released, ReleasedId, x);
    hide Tally;
  }

  lemma {:induction false} NoneKept(q: seq<Pkt>, e: Event, x: nat)
    requires e.CancelCtx? && forall i :: 0 <= i < |q| && q[i].id == x ==> Hit(q[i], e, x)
    ensures Marked1(Kept(q, e.ctx, e.byOwner), x) && Failed1(Canceled(q, e.ctx, e.byOwner), x)
  {
    if q != [] {
      NoneKept(q[..|q| - 1], e, x);
    }
  }

  lemma CancelDooms(s: Path, e: Event, x: nat)
    requires OnePlace(s, x) && Reached(s, e, x)
    ensures Doomed(Step(s, e), x)
  {
    hide OnePlace;
    hide Kept;
    hide Canceled;
    OnlyThere(s, e, x);
    hide Reached;
    NoneKept(s.dataQ, e, x);
  }

  /** In every run: a data packet that a cancellation reached, queued, submitted or attached, is never released
      with success, whatever happens later. */
  lemma {:induction false} CanceledNeverSucceeds(frameCount: nat, inflightLimit: nat, queueLimit: nat, creditMax: nat,
                                                 events: seq<Event>, e: Event, later: seq<Event>, x: nat)
    requires Reached(Run(PathTx.Start(frameCount, inflightLimit, queueLimit, creditMax), events), e, x)
    requires forall k :: 0 <= k < |later| ==> RealErrors(later[k])
    ensures var s := Run(PathTx.Start(frameCount, inflightLimit, queueLimit, creditMax), events + [e] + later);
            && Doomed(s, x)
            && (forall i :: 0 <= i < |s.released| ==> s.released[i] != (x, 0))
  {
    hide Step;
    hide Doomed;
    hide OnePlace;
    hide Reached;
    var start := PathTx.Start(frameCount, inflightLimit, queueLimit, creditMax);
    if later == [] {
      assert events + [e] + later == events + [e];
      assert (events + [e])[..|events|] == events;
      Ownership(frameCount, inflightLimit, queueLimit, creditMax, events);
      CancelDooms(Run(start, events), e, x);
    } else {
      var prefix := later[..|later| - 1];
      CanceledNeverSucceeds(frameCount, inflightLimit, queueLimit, creditMax, events, e, prefix, x);
      assert (events + [e] + later)[..|events + [e] + later| - 1] == events + [e] + prefix;
      Ownership(frameCount, inflightLimit, queueLimit, creditMax, events + [e] + prefix);
      StepDoomed(Run(start, events + [e] + prefix), later[|later| - 1], x);
    }
    DoomedReleased(Run(start, events + [e] + later), x);
  }

  lemma DoomedReleased(s: Path, x: nat)
    requires Doomed(s, x)
    ensures forall i :: 0 <= i < |s.released| ==> s.released[i] != (x, 0)
  {
  }

  // ---------------------------------------------------------------- packets that nobody canceled

  ghost predicate Clear(q: seq<Pkt>) {
    forall i :: 0 <= i < |q| ==> !q[i].canceled
  }

  ghost predicate AllClear(s: Path) {
    && Clear(s.controlQ) && Clear(s.dataQ) && Clear(s.staged) && Clear(s.zcopy)
    && (s.hand.Some? ==> !s.hand.value.pkt.canceled)
  }

  lemma BatchClear(id: nat, owner: nat, count: nat, lens: seq<nat>)
    ensures Clear(Batch(id, owner, count)) && Clear(Stream(id, owner, lens))
  {
  }

  lemma StepClear(s: Path, e: Event)
    requires AllClear(s) && !e.CancelCtx?
    ensures AllClear(Step(s, e))
  {
    hide FinishRaw;
    hide Allowed;
    hide SumOf;
    hide WithStatus;
    if e.SendBatch? {
      BatchClear(s.accepted, e.owner, e.count, []);
    } else if e.SendStream? {
      BatchClear(s.accepted, e.owner, 0, e.lens);
    }
    hide Batch;
    hide Stream;
  }

  /** Without cancellations of a context nothing is marked. */
  lemma {:induction false} RunClear(frameCount: nat, inflightLimit: nat, queueLimit: nat, creditMax: nat,
                                    events: seq<Event>)
    requires forall k :: 0 <= k < |events| ==> !events[k].CancelCtx?
    ensures AllClear(Run(PathTx.Start(frameCount, inflightLimit, queueLimit, creditMax), events))
  {
    hide Step;
    if events != [] {
      RunClear(frameCount, inflightLimit, queueLimit, creditMax, events[..|events| - 1]);
      StepClear(Run(PathTx.Start(frameCount, inflightLimit, queueLimit, creditMax), events[..|events| - 1]),
                events[|events| - 1]);
    }
  }

  /** In every run without cancellations of a context: a frame that completes releases its packet with success,
      one that the ring cancels with ECANCELED; the frame is free again and no other packet moves. */
  lemma CompletionExact(frameCount: nat, inflightLimit: nat, queueLimit: nat, creditMax: nat, events: seq<Event>,
                        i: nat, canceled: bool)
    requires forall k :: 0 <= k < |events| ==> !events[k].CancelCtx?
    ensures var s := Run(PathTx.Start(frameCount, inflightLimit, queueLimit, creditMax), events);
            && (i < |s.staged| ==>
                  var t := Step(s, StagedDone(i, canceled));
                  && t.leaving == s.leaving + [(s.staged[i], if canceled then ECANCELED else 0)]
                  && t.staged == s.staged[..i] + s.staged[i + 1..] && t.zcopy == s.zcopy
                  && t.free == s.free + 1 && t.inflight == s.inflight - 1)
            && (i < |s.zcopy| ==>
                  var t := Step(s, ZcopyDone(i, canceled));
                  && t.leaving == s.leaving + [(s.zcopy[i], if canceled then ECANCELED else 0)]
                  && t.zcopy == s.zcopy[..i] + s.zcopy[i + 1..] && t.staged == s.staged
                  && t.free == s.free && t.inflight == s.inflight - 1)
  {
    RunClear(frameCount, inflightLimit, queueLimit, creditMax, events);
    Ownership(frameCount, inflightLimit, queueLimit, creditMax, events);
    hide Run;
    hide FinishRaw;
    hide StagedData;
  }

  // ---------------------------------------------------------------- canceled streams

  /** In every run, canceling the owner of the stream on the wire, or everything, ends the stream. So the path
      is not held up: with a frame free, the scheduler's next turn takes the control packet that waits at the
      head of its queue, or the one sent next. */
  lemma CancelEndsStream(frameCount: nat, inflightLimit: nat, queueLimit: nat, creditMax: nat, events: seq<Event>,
                         e: Event, d: Option<nat>)
    requires var s := Run(PathTx.Start(frameCount, inflightLimit, queueLimit, creditMax), events);
             && s.hand.None? && s.tunnel && !s.closed && s.free > 0
             && (e.CancelAll? || (e.CancelCtx? && e.byOwner && s.raw.active && s.raw.owner == Some(e.ctx)))
    ensures var s := Run(PathTx.Start(frameCount, inflightLimit, queueLimit, creditMax), events);
            var t := Step(s, e);
            var u := Step(Step(Step(t, SendControl(d)), Schedule), TakeNext);
            && !t.raw.active
            && u.hand.Some?
            && u.hand.value.pkt.id == if e.CancelCtx? && s.controlQ != [] then s.controlQ[0].id else s.accepted
  {
    Ownership(frameCount, inflightLimit, queueLimit, creditMax, events);
    hide Run;
    hide OnePlace;
    hide Kept;
    hide Canceled;
    hide WithStatus;
    hide Marked;
  }

  // ---------------------------------------------------------------- the queue limit

  ghost predicate Bounded(s: Path) {
    |s.dataQ| + s.reserved + DataInHand(s.hand) <= s.queueLimit + 1
  }

  lemma {:induction false} KeptShorter(q: seq<Pkt>, ctx: nat, byOwner: bool)
    ensures |Kept(q, ctx, byOwner)| <= |q|
  {
    if q != [] {
      KeptShorter(q[..|q| - 1], ctx, byOwner);
    }
  }

  lemma StepBounded(s: Path, e: Event)
    requires Bounded(s) && Sorted(s)
    ensures Bounded(Step(s, e))
  {
    hide FinishRaw;
    hide Allowed;
    hide SumOf;
    hide WithStatus;
    hide Kept;
    hide Canceled;
    hide Marked;
    if e.CancelCtx? {
      KeptShorter(s.dataQ, e.ctx, e.byOwner);
    }
    hide Batch;
    hide Stream;
  }

  /** In every run queued and reserved data, with the packet in hand, exceed the limit by at most one. */
  lemma {:induction false} QueueBound(frameCount: nat, inflightLimit: nat, queueLimit: nat, creditMax: nat,
                                      events: seq<Event>)
    ensures var s := Run(PathTx.Start(frameCount, inflightLimit, queueLimit, creditMax), events);
            |s.dataQ| + s.reserved + DataInHand(s.hand) <= queueLimit + 1
  {
    hide Step;
    LimitsStay(frameCount, inflightLimit, queueLimit, creditMax, events);
    if events != [] {
      var prefix := events[..|events| - 1];
      QueueBound(frameCount, inflightLimit, queueLimit, creditMax, prefix);
      LimitsStay(frameCount, inflightLimit, queueLimit, creditMax, prefix);
      Ownership(frameCount, inflightLimit, queueLimit, creditMax, prefix);
      StepBounded(Run(PathTx.Start(frameCount, inflightLimit, queueLimit, creditMax), prefix), events[|events| - 1]);
    }
  }

  /** Frames are reserved while queued and reserved data leave room for them, sends use them up, no more are given
      back than are reserved, and canceling everything gives back all. */
  lemma ReservationsExact(s: Path, e: Event)
    ensures Step(s, e).reserved
         == match e
            case ReserveFrames(n) =>
              if s.tunnel && !s.closed && |s.dataQ| + s.reserved + n <= s.queueLimit then s.reserved + n
              else s.reserved
            case ReleaseFrames(n) => if n < s.reserved then s.reserved - n else 0
            case CancelAll(_) => 0
            case SendData(_) => if s.tunnel && !s.closed && s.reserved > 0 then s.reserved - 1 else s.reserved
            case SendBatch(_, count, useReserved) =>
              if s.tunnel && !s.closed && useReserved && 0 < count <= s.reserved then s.reserved - count
              else s.reserved
            case _ => s.reserved
  {
    hide Allowed;
    hide FinishRaw;
    hide SumOf;
    hide WithStatus;
    hide Kept;
    hide Canceled;
    hide Marked;
    hide Choose;
    hide CountRaw;
  }

  /** A frame that completes moves the stream on the wire exactly if it was counted in it: the stream ends with
      its last frame once its end was seen. */
  lemma StreamMoves(s: Path, e: Event)
    requires s.raw.active && ((e.StagedDone? && e.i < |s.staged|) || (e.ZcopyDone? && e.i < |s.zcopy|))
    ensures var p := if e.StagedDone? then s.staged[e.i] else s.zcopy[e.i];
            var seen := s.raw.endSeen || p.end;
            Step(s, e).raw ==
            if !p.counted || p.owner != s.raw.owner then s.raw
            else if seen && s.raw.inflight <= 1 then Raw(false, None, false, 0)
            else Raw(true, s.raw.owner, seen, if s.raw.inflight > 0 then s.raw.inflight - 1 else 0)
  {
  }

  /** Packets are accepted exactly when the path is open and, for data, a reservation or room for all of them
      is left: then they join the end of their queue, and otherwise nothing changes. */
  lemma AcceptsExactly(s: Path, owner: nat, count: nat, useReserved: bool, d: Option<nat>)
    ensures var t := Step(s, SendControl(d));
            if s.tunnel && !s.closed then
              && t.accepted == s.accepted + 1
              && |t.controlQ| == |s.controlQ| + 1 && t.controlQ[..|s.controlQ|] == s.controlQ
            else t == s
    ensures var t := Step(s, SendData(d));
            if s.tunnel && !s.closed && (s.reserved > 0 || |s.dataQ| < s.queueLimit) then
              && t.accepted == s.accepted + 1 && |t.dataQ| == |s.dataQ| + 1 && t.dataQ[..|s.dataQ|] == s.dataQ
              && t.reserved == (if s.reserved > 0 then s.reserved - 1 else 0)
            else t == s
    ensures var t := Step(s, SendBatch(owner, count, useReserved));
            if s.tunnel && !s.closed && count > 0
               && (if useReserved then count <= s.reserved else |s.dataQ| + s.reserved + count <= s.queueLimit) then
              && t.accepted == s.accepted + count
              && |t.dataQ| == |s.dataQ| + count && t.dataQ[..|s.dataQ|] == s.dataQ
              && t.reserved == (if useReserved then s.reserved - count else s.reserved)
            else t == s
  {
    hide Batch;
  }
}
