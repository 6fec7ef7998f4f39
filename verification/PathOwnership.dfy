/** Who owns a packet and a frame on the transmit side of a path: PathTx over every run. */
module PathOwnership {
  import opened Prelude
  import opened Lists
  import opened PathTx

  function PktId(p: Pkt): nat { p.id }

  function LeavingId(x: (Pkt, int)): nat { x.0.id }

  function ReleasedId(x: (nat, int)): nat { x.0 }

  /** A staged data packet. */
  function IsData(p: Pkt): nat { if p.control then 0 else 1 }

  /** How often packet x is anywhere. */
  function Places(s: Path, x: nat): nat {
    Tally(s.controlQ, PktId, x) + Tally(s.dataQ, PktId, x) + InHand(s.hand, x) + Tally(s.staged, PktId, x)
    + Tally(s.zcopy, PktId, x) + Tally(s.leaving, LeavingId, x) + Tally(s.released, ReleasedId, x)
  }

  function InHand(hand: Option<Hand>, x: nat): nat {
    if hand.Some? && hand.value.pkt.id == x then 1 else 0
  }

  /** Packet x is in exactly one place if it was accepted, and nowhere otherwise. */
  predicate OnePlace(s: Path, x: nat) {
    Places(s, x) == if x < s.accepted then 1 else 0
  }

  function HandStaged(hand: Option<Hand>): nat {
    if hand.Some? && hand.value.staged then 1 else 0
  }

  function HandData(hand: Option<Hand>): nat {
    if hand.Some? && hand.value.staged then IsData(hand.value.pkt) else 0
  }

  /** Data packets in staged frames. */
  function StagedData(staged: seq<Pkt>, hand: Option<Hand>): nat {
    Weigh(staged, IsData) + HandData(hand)
  }

  ghost predicate Frames(s: Path) {
    && s.free + |s.staged| + HandStaged(s.hand) == s.frameCount
    && s.inflight == |s.staged| + |s.zcopy| + (if s.hand.Some? then 1 else 0)
    && (s.frameCount > 0 ==> StagedData(s.staged, s.hand) + ControlReserve(s.frameCount) <= s.frameCount)
    && (s.frameCount == 0 ==> StagedData(s.staged, s.hand) == 0)
  }

  // ---------------------------------------------------------------- sequences

  lemma {:induction false} TallyRange(packets: seq<Pkt>, first: nat, x: nat)
    requires forall i :: 0 <= i < |packets| ==> packets[i].id == first + i
    ensures Tally(packets, PktId, x) == if first <= x < first + |packets| then 1 else 0
  {
    if packets != [] {
      TallyRange(packets[..|packets| - 1], first, x);
    }
  }

  lemma TallyHead(q: seq<Pkt>, x: nat)
    requires q != []
    ensures Tally(q, PktId, x) == Tally(q[1..], PktId, x) + if q[0].id == x then 1 else 0
  {
    hide Tally;
    TallyWithout(q, 0, PktId, x);
    assert Without(q, 0) == q[1..];
  }

  lemma TallyPush(p: Pkt, q: seq<Pkt>, x: nat)
    ensures Tally([p] + q, PktId, x) == Tally(q, PktId, x) + if p.id == x then 1 else 0
  {
    TallyHead([p] + q, x);
    assert ([p] + q)[1..] == q;
  }

  lemma {:induction false} KeptTally(q: seq<Pkt>, ctx: nat, byOwner: bool, x: nat)
    ensures Tally(Kept(q, ctx, byOwner), PktId, x) + Tally(Canceled(q, ctx, byOwner), LeavingId, x)
            == Tally(q, PktId, x)
  {
    if q != [] {
      var p, rest := q[|q| - 1], q[..|q| - 1];
      KeptTally(rest, ctx, byOwner, x);
      TallyOne(Kept(rest, ctx, byOwner), p, PktId, x);
      TallyOne(Canceled(rest, ctx, byOwner), (p.(owner := None), ECANCELED), LeavingId, x);
    }
  }

  lemma {:induction false} StatusTally(q: seq<Pkt>, status: int, x: nat)
    ensures Tally(WithStatus(q, status), LeavingId, x) == Tally(q, PktId, x)
  {
    if q != [] {
      StatusTally(q[..|q| - 1], status, x);
      assert WithStatus(q, status)[..|q| - 1] == WithStatus(q[..|q| - 1], status);
    }
  }

  lemma {:induction false} WeighAtMost(q: seq<Pkt>)
    ensures Weigh(q, IsData) <= |q|
  {
    if q != [] {
      WeighAtMost(q[..|q| - 1]);
    }
  }

  // ---------------------------------------------------------------- steps

  lemma ListPlaces(s: Path, packets: seq<Pkt>, useReserved: bool, x: nat)
    requires OnePlace(s, x) && forall i :: 0 <= i < |packets| ==> packets[i].id == s.accepted + i
    ensures OnePlace(EnqueueList(s, packets, useReserved), x)
  {
    hide Tally;
    TallyJoin(s.dataQ, packets, PktId, x);
    TallyRange(packets, s.accepted, x);
  }

  lemma SendPlaces(s: Path, e: Event, x: nat)
    requires OnePlace(s, x) && (e.SendControl? || e.SendData? || e.SendBatch? || e.SendStream?)
    ensures OnePlace(Step(s, e), x)
  {
    hide Tally;
    hide EnqueueList;
    match e
    case SendControl(d) =>
      TallyOne(s.controlQ, Pkt(s.accepted, true, false, false, false, false, false, d, d, 0, 0), PktId, x);
    case SendData(d) => TallyOne(s.dataQ, Plain(s.accepted, d, 1), PktId, x);
    case SendBatch(owner, count, useReserved) => ListPlaces(s, Batch(s.accepted, owner, count), useReserved, x);
    case SendStream(owner, lens) => ListPlaces(s, Stream(s.accepted, owner, lens), false, x);
  }

  lemma PopPlaces(s: Path, p: Pkt, source: Source, x: nat)
    requires OnePlace(s, x) && s.hand.None?
    requires if source == Control then s.controlQ != [] && p == s.controlQ[0] else s.dataQ != [] && p == s.dataQ[0]
    ensures OnePlace(Pop(s, p, source), x)
  {
    hide Tally;
    if source == Control {
      TallyHead(s.controlQ, x);
    } else {
      TallyHead(s.dataQ, x);
    }
  }

  lemma TakePlaces(s: Path, x: nat)
    requires OnePlace(s, x)
    ensures OnePlace(Take(s), x)
  {
    hide Tally;
    hide Pop;
    hide Allowed;
    if s.scheduling && s.hand.None? && Admits(s) && Choose(s).Some? {
      var source := Choose(s).value;
      PopPlaces(s, if source == Control then s.controlQ[0] else s.dataQ[0], source, x);
    }
  }

  lemma PostPlaces(s: Path, e: Event, x: nat)
    requires OnePlace(s, x) && (e.PostOk? || e.PostFails?)
    ensures OnePlace(Step(s, e), x)
  {
    hide Tally;
    if s.hand.Some? {
      var p := s.hand.value.pkt;
      TallyOne(s.staged, p, PktId, x);
      TallyOne(s.zcopy, p, PktId, x);
      if e.PostFails? {
        var q := p.(counted := false);
        TallyPush(q, s.controlQ, x);
        TallyPush(q.(group := s.hand.value.group), s.dataQ, x);
        TallyOne(s.leaving, (q, e.status), LeavingId, x);
      }
    }
  }

  lemma DonePlaces(s: Path, e: Event, x: nat)
    requires OnePlace(s, x) && (e.StagedDone? || e.ZcopyDone? || e.ReleaseOne?)
    ensures OnePlace(Step(s, e), x)
  {
    hide Tally;
    hide FinishRaw;
    if e.StagedDone? && e.i < |s.staged| {
      TallyWithout(s.staged, e.i, PktId, x);
      TallyOne(s.leaving, (s.staged[e.i], StatusOf(s.staged[e.i], e.canceled)), LeavingId, x);
    } else if e.ZcopyDone? && e.i < |s.zcopy| {
      TallyWithout(s.zcopy, e.i, PktId, x);
      TallyOne(s.leaving, (s.zcopy[e.i], StatusOf(s.zcopy[e.i], e.canceled)), LeavingId, x);
    } else if e.ReleaseOne? && e.i < |s.leaving| {
      TallyWithout(s.leaving, e.i, LeavingId, x);
      TallyOne(s.released, (s.leaving[e.i].0.id, s.leaving[e.i].1), ReleasedId, x);
    }
  }

  lemma CancelPlaces(s: Path, e: Event, x: nat)
    requires OnePlace(s, x) && (e.CancelCtx? || e.CancelAll?)
    ensures OnePlace(Step(s, e), x)
  {
    hide Tally;
    hide Kept;
    hide Canceled;
    if e.CancelCtx? {
      KeptTally(s.dataQ, e.ctx, e.byOwner, x);
      TallyJoin(s.leaving, Canceled(s.dataQ, e.ctx, e.byOwner), LeavingId, x);
      TallySame(s.staged, Marked(s.staged, e.ctx, e.byOwner), PktId, x);
      TallySame(s.zcopy, Marked(s.zcopy, e.ctx, e.byOwner), PktId, x);
    } else {
      StatusTally(s.controlQ, e.status, x);
      StatusTally(s.dataQ, e.status, x);
      TallyJoin(s.leaving, WithStatus(s.controlQ, e.status), LeavingId, x);
      TallyJoin(s.leaving + WithStatus(s.controlQ, e.status), WithStatus(s.dataQ, e.status), LeavingId, x);
      EmptyTally(x);
    }
  }

  lemma EmptyTally(x: nat)
    ensures Tally([], PktId, x) == 0
  {
  }

  /** Every step keeps every packet in one place. */
  lemma StepPlaces(s: Path, e: Event, x: nat)
    requires OnePlace(s, x)
    ensures OnePlace(Step(s, e), x)
  {
    hide Tally;
    hide Take;
    hide EnqueueList;
    hide Posted;
    hide PostFailed;
    hide CompleteStaged;
    hide CompleteZcopy;
    hide CancelMatch;
    hide CancelQueued;
    if e.SendControl? || e.SendData? || e.SendBatch? || e.SendStream? {
      SendPlaces(s, e, x);
    } else if e.TakeNext? {
      TakePlaces(s, x);
    } else if e.PostOk? || e.PostFails? {
      PostPlaces(s, e, x);
    } else if e.StagedDone? || e.ZcopyDone? || e.ReleaseOne? {
      DonePlaces(s, e, x);
    } else if e.CancelCtx? || e.CancelAll? {
      CancelPlaces(s, e, x);
    }
  }

  // ---------------------------------------------------------------- frames

  ghost predicate HandSane(hand: Option<Hand>) {
    hand.Some? ==> hand.value.staged == !hand.value.pkt.zcopy && (hand.value.pkt.control ==> !hand.value.pkt.zcopy)
  }

  /** Control packets are staged, and only they are in the control queue. */
  ghost predicate Sorted(s: Path) {
    ControlOnly(s.controlQ) && DataOnly(s.dataQ) && HandSane(s.hand)
  }

  lemma {:induction false} KeptData(q: seq<Pkt>, ctx: nat, byOwner: bool)
    requires DataOnly(q)
    ensures DataOnly(Kept(q, ctx, byOwner))
  {
    if q != [] {
      KeptData(q[..|q| - 1], ctx, byOwner);
    }
  }

  lemma StepSorted(s: Path, e: Event)
    requires Sorted(s)
    ensures Sorted(Step(s, e))
  {
    hide Kept;
    hide Canceled;
    hide FinishRaw;
    hide Allowed;
    hide SumOf;
    hide Batch;
    if e.CancelCtx? {
      KeptData(s.dataQ, e.ctx, e.byOwner);
    } else if e.TakeNext? {
      TakeSorted(s);
    } else if e.PostFails? {
      PutBackSorted(s, e);
    }
    hide Take;
    hide PostFailed;
  }

  lemma TakeSorted(s: Path)
    requires Sorted(s)
    ensures Sorted(Take(s))
  {
    hide Allowed;
  }

  lemma PutBackSorted(s: Path, e: Event)
    requires Sorted(s) && e.PostFails?
    ensures Sorted(PostFailed(s, e.enomem, e.status))
  {
  }

  lemma TakeFrames(s: Path)
    requires Frames(s) && Sorted(s)
    ensures Frames(Take(s))
  {
    hide Weigh;
    WeighAtMost(s.staged);
  }

  lemma PostFrames(s: Path, e: Event)
    requires Frames(s) && Sorted(s) && (e.PostOk? || e.PostFails?)
    ensures Frames(Step(s, e))
  {
    hide Weigh;
    if s.hand.Some? {
      WeighOne(s.staged, s.hand.value.pkt, IsData);
    }
  }

  lemma DoneFrames(s: Path, e: Event)
    requires Frames(s) && (e.StagedDone? || e.ZcopyDone? || e.CancelCtx?)
    ensures Frames(Step(s, e))
  {
    hide Weigh;
    hide FinishRaw;
    hide Kept;
    hide Canceled;
    if e.StagedDone? && e.i < |s.staged| {
      WeighWithout(s.staged, e.i, IsData);
    } else if e.CancelCtx? {
      WeighSame(s.staged, Marked(s.staged, e.ctx, e.byOwner), IsData);
    }
  }

  lemma StepFrames(s: Path, e: Event)
    requires Frames(s) && Sorted(s)
    ensures Frames(Step(s, e)) && Step(s, e).frameCount == s.frameCount
  {
    hide Weigh;
    hide FinishRaw;
    hide Kept;
    hide Canceled;
    hide Allowed;
    hide SumOf;
    hide CountRaw;
    if e.TakeNext? {
      TakeFrames(s);
    } else if e.PostOk? || e.PostFails? {
      PostFrames(s, e);
    } else if e.StagedDone? || e.ZcopyDone? || e.CancelCtx? {
      DoneFrames(s, e);
    }
  }

  /** Packet ownership in every run: each accepted packet is in exactly one place, so its done callback
      runs at most once, and has run exactly once when the packet is nowhere else; free, staged and
      in-hand frames total the frame count; and data never takes the frames reserved for control. */
  lemma {:induction false} Ownership(frameCount: nat, inflightLimit: nat, queueLimit: nat, creditMax: nat,
                                     events: seq<Event>)
    ensures var s := Run(Start(frameCount, inflightLimit, queueLimit, creditMax), events);
            && (forall x :: OnePlace(s, x)) && Frames(s) && Sorted(s) && s.frameCount == frameCount
            && (forall x :: Tally(s.released, ReleasedId, x) <= 1)
            && s.free + |s.staged| + HandStaged(s.hand) == frameCount
  {
    hide Step;
    hide Tally;
    hide Frames;
    hide Sorted;
    var start := Start(frameCount, inflightLimit, queueLimit, creditMax);
    if events != [] {
      var prefix := events[..|events| - 1];
      Ownership(frameCount, inflightLimit, queueLimit, creditMax, prefix);
      var t := Run(start, prefix);
      StepFrames(t, events[|events| - 1]);
      StepSorted(t, events[|events| - 1]);
      forall x ensures OnePlace(Run(start, events), x) {
        StepPlaces(t, events[|events| - 1], x);
      }
    } else {
      StartOwned(frameCount, inflightLimit, queueLimit, creditMax);
    }
    var s := Run(start, events);
    forall x ensures Tally(s.released, ReleasedId, x) <= 1 {
      assert OnePlace(s, x);
    }
    FramesTotal(s);
  }

  lemma FramesTotal(s: Path)
    requires Frames(s)
    ensures s.free + |s.staged| + HandStaged(s.hand) == s.frameCount
  {
  }

  lemma StartOwned(frameCount: nat, inflightLimit: nat, queueLimit: nat, creditMax: nat)
    ensures var s := Start(frameCount, inflightLimit, queueLimit, creditMax);
            (forall x :: OnePlace(s, x)) && Frames(s) && Sorted(s)
  {
  }

  // ---------------------------------------------------------------- the ring barrier

  /** tb_ring_stop runs the callback of a frame that is still submitted, as canceled. */
  predicate IsCallback(s: Path, e: Event) {
    || (e.StagedDone? && e.canceled && e.i < |s.staged|)
    || (e.ZcopyDone? && e.canceled && e.i < |s.zcopy|)
  }

  ghost predicate Callbacks(s: Path, calls: seq<Event>) {
    calls != [] ==>
      && Callbacks(s, calls[..|calls| - 1])
      && IsCallback(Run(s, calls[..|calls| - 1]), calls[|calls| - 1])
  }

  /** What callbacks leave of a path: s before, t after n of them. */
  ghost predicate Reaped(s: Path, t: Path, n: nat) {
    && |t.staged| + |t.zcopy| + n == |s.staged| + |s.zcopy|
    && t.controlQ == s.controlQ && t.dataQ == s.dataQ && t.hand == s.hand && t.released == s.released
    && t.accepted == s.accepted && t.wire == s.wire
    && |t.leaving| == |s.leaving| + n && t.leaving[..|s.leaving|] == s.leaving
    && forall j :: |s.leaving| <= j < |t.leaving| ==> t.leaving[j].1 == ECANCELED
  }

  lemma CallbackReaps(s: Path, t: Path, n: nat, e: Event)
    requires Reaped(s, t, n) && IsCallback(t, e)
    ensures Reaped(s, Step(t, e), n + 1)
  {
    hide FinishRaw;
  }

  lemma {:induction false} RunJoin(s: Path, a: seq<Event>, b: seq<Event>)
    ensures Run(s, a + b) == Run(Run(s, a), b)
  {
    hide Step;
    if b == [] {
      assert a + b == a;
    } else {
      assert (a + b)[..|a + b| - 1] == a + b[..|b| - 1];
      RunJoin(s, a, b[..|b| - 1]);
    }
  }

  lemma {:induction false} CallbacksReap(s: Path, calls: seq<Event>)
    requires Callbacks(s, calls)
    ensures Reaped(s, Run(s, calls), |calls|)
  {
    hide Step;
    if calls == [] {
      assert Run(s, calls) == s;
    } else {
      CallbacksReap(s, calls[..|calls| - 1]);
      CallbackReaps(s, Run(s, calls[..|calls| - 1]), |calls| - 1, calls[|calls| - 1]);
    }
  }

  /** The ring barrier, after any run that left nothing in the scheduler's hand: the callbacks it can run are
      never more than the packets submitted; when it has run as many, in whatever order, every frame is
      free, nothing is in flight, every packet accepted is queued, waiting for its release or released, and
      those the barrier took off the ring are released as canceled. */
  lemma BarrierFreesAll(frameCount: nat, inflightLimit: nat, queueLimit: nat, creditMax: nat, events: seq<Event>,
                        calls: seq<Event>)
    requires var s := Run(Start(frameCount, inflightLimit, queueLimit, creditMax), events);
             s.hand.None? && Callbacks(s, calls)
    ensures var s := Run(Start(frameCount, inflightLimit, queueLimit, creditMax), events);
            var t := Run(s, calls);
            && |calls| <= |s.staged| + |s.zcopy| && Reaped(s, t, |calls|)
            && (|calls| == |s.staged| + |s.zcopy| ==>
                  && t.free == frameCount && t.inflight == 0 && t.staged == [] && t.zcopy == []
                  && forall x: nat :: x < t.accepted ==>
                       Tally(t.controlQ, PktId, x) + Tally(t.dataQ, PktId, x) + Tally(t.leaving, LeavingId, x)
                       + Tally(t.released, ReleasedId, x) == 1)
  {
    hide Run;
    var start := Start(frameCount, inflightLimit, queueLimit, creditMax);
    var s := Run(start, events);
    CallbacksReap(s, calls);
    RunJoin(start, events, calls);
    Ownership(frameCount, inflightLimit, queueLimit, creditMax, events + calls);
    var t := Run(s, calls);
    if |calls| == |s.staged| + |s.zcopy| {
      forall x: nat | x < t.accepted
        ensures Tally(t.controlQ, PktId, x) + Tally(t.dataQ, PktId, x) + Tally(t.leaving, LeavingId, x)
                + Tally(t.released, ReleasedId, x) == 1
      {
        assert OnePlace(t, x);
        EmptyTally(x);
      }
    }
  }
}
