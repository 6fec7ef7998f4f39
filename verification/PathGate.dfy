/** What the scheduler of PathTx asks for before a packet goes out, what it spends, and what it puts back. */
module PathGate {
  import opened Prelude
  import opened Lists
  import opened PathTx
  import opened PathOwnership

  // ---------------------------------------------------------------- taking a packet

  /** A packet passes from the head of a queue to the scheduler's hand. */
  predicate Takes(s: Path, t: Path) {
    s.hand.None? && t.hand.Some?
  }

  function Fewer(a: nat, b: nat): nat {
    if a < b then a else b
  }

  /** Credits come back in batches of 256, or of the whole window if that is smaller. */
  function Threshold(window: nat): nat {
    if window < 256 then window else 256
  }

  /** Frames that data leaves to control packets: a quarter of them, at least one of two or more and at most
      256. */
  function Spared(frameCount: nat): nat {
    if frameCount <= 1 then 0 else Fewer(if frameCount / 4 == 0 then 1 else frameCount / 4, 256)
  }

  /** Of the packet p at the head of the data queue: there is at least one credit, and enough for its group or
      for a batch; the in-flight limit is not reached; and a frame is left for it beyond those spared. */
  predicate DataMay(s: Path, p: Pkt) {
    && (!p.control && s.creditMax > 0 ==> s.credits >= 1 && s.credits >= Fewer(p.group, Threshold(s.creditMax)))
    && (s.inflightLimit > 0 ==> s.inflight < s.inflightLimit)
    && (!p.zcopy ==> s.free > 0 && s.inflight + Spared(s.frameCount) < s.frameCount)
  }

  /** During a raw stream only the zero-copy payload of its owner is taken; otherwise control goes first. */
  predicate FromData(s: Path) {
    && s.dataQ != []
    && if s.raw.active then s.dataQ[0].zcopy && !s.dataQ[0].start && s.dataQ[0].owner == s.raw.owner
       else s.controlQ == []
  }

  predicate FromControl(s: Path) {
    !s.raw.active && s.controlQ != []
  }

  /** In every run: the scheduler takes a packet exactly when it is scheduling on an open path, with nothing in
      hand, and either a control packet is first and a frame is free, or a data packet is first and may go. It
      takes the head of the queue, its credit exactly if it is data on a path with credits, and its frame
      exactly if it is not zero-copy. */
  lemma TakesExactly(frameCount: nat, inflightLimit: nat, queueLimit: nat, creditMax: nat, events: seq<Event>)
    ensures var s := Run(PathTx.Start(frameCount, inflightLimit, queueLimit, creditMax), events);
            var t := Step(s, TakeNext);
            && (Takes(s, t) <==> s.scheduling && s.tunnel && !s.closed && s.hand.None?
                                 && ((FromControl(s) && s.free > 0) || (FromData(s) && DataMay(s, s.dataQ[0]))))
            && (Takes(s, t) ==>
                  var p := if FromControl(s) then s.controlQ[0] else s.dataQ[0];
                  && t.hand.value.pkt.id == p.id && t.hand.value.pkt.control == p.control
                  && t.controlQ == (if FromControl(s) then s.controlQ[1..] else s.controlQ)
                  && t.dataQ == (if FromControl(s) then s.dataQ else s.dataQ[1..])
                  && t.credits == (if p.control || creditMax == 0 then s.credits else s.credits - 1)
                  && t.free == (if p.zcopy then s.free else s.free - 1)
                  && t.inflight == s.inflight + 1
                  && t.staged == s.staged && t.zcopy == s.zcopy && t.wire == s.wire && t.leaving == s.leaving)
            && (!Takes(s, t) ==> t == s || t == s.(scheduling := false))
  {
    Ownership(frameCount, inflightLimit, queueLimit, creditMax, events);
    LimitsStay(frameCount, inflightLimit, queueLimit, creditMax, events);
    hide Run;
    TakeExact(Run(PathTx.Start(frameCount, inflightLimit, queueLimit, creditMax), events));
  }

  lemma TakeExact(s: Path)
    requires Sorted(s)
    ensures var t := Take(s);
            && (Takes(s, t) <==> s.scheduling && s.tunnel && !s.closed && s.hand.None?
                                 && ((FromControl(s) && s.free > 0) || (FromData(s) && DataMay(s, s.dataQ[0]))))
            && (Takes(s, t) ==>
                  var p := if FromControl(s) then s.controlQ[0] else s.dataQ[0];
                  && t.hand.value.pkt.id == p.id && t.hand.value.pkt.control == p.control
                  && t.controlQ == (if FromControl(s) then s.controlQ[1..] else s.controlQ)
                  && t.dataQ == (if FromControl(s) then s.dataQ else s.dataQ[1..])
                  && t.credits == (if p.control || s.creditMax == 0 then s.credits else s.credits - 1)
                  && t.free == (if p.zcopy then s.free else s.free - 1)
                  && t.inflight == s.inflight + 1
                  && t.staged == s.staged && t.zcopy == s.zcopy && t.wire == s.wire && t.leaving == s.leaving)
            && (!Takes(s, t) ==> t == s || t == s.(scheduling := false))
  {
  }

  /** The limits of a path never change. */
  lemma {:induction false} LimitsStay(frameCount: nat, inflightLimit: nat, queueLimit: nat, creditMax: nat,
                                      events: seq<Event>)
    ensures var s := Run(PathTx.Start(frameCount, inflightLimit, queueLimit, creditMax), events);
            && s.frameCount == frameCount && s.inflightLimit == inflightLimit && s.queueLimit == queueLimit
            && s.creditMax == creditMax
  {
    hide Step;
    if events != [] {
      var prefix := events[..|events| - 1];
      LimitsStay(frameCount, inflightLimit, queueLimit, creditMax, prefix);
      StepLimits(Run(PathTx.Start(frameCount, inflightLimit, queueLimit, creditMax), prefix), events[|events| - 1]);
    }
  }

  lemma StepLimits(s: Path, e: Event)
    ensures var t := Step(s, e);
            && t.frameCount == s.frameCount && t.inflightLimit == s.inflightLimit && t.queueLimit == s.queueLimit
            && t.creditMax == s.creditMax
  {
    hide Kept;
    hide Canceled;
    hide Marked;
    hide FinishRaw;
    hide Allowed;
    hide CountRaw;
    hide Choose;
    hide WithStatus;
    hide Batch;
    hide Stream;
  }

  // ---------------------------------------------------------------- putting back

  /** In every run: a packet that was taken and is refused for lack of memory leaves no trace, if it is still
      wanted on an open tunnel: queues, frames, credits and the raw stream are as before, and the
      scheduler stops. Refused otherwise, it is released with the error and all else is as before. */
  lemma RefusalUndone(frameCount: nat, inflightLimit: nat, queueLimit: nat, creditMax: nat, events: seq<Event>,
                      enomem: bool, status: int)
    requires var s := Run(PathTx.Start(frameCount, inflightLimit, queueLimit, creditMax), events);
             Takes(s, Step(s, TakeNext))
    ensures var s := Run(PathTx.Start(frameCount, inflightLimit, queueLimit, creditMax), events);
            var p := if FromControl(s) then s.controlQ[0] else s.dataQ[0];
            var t := Step(Step(s, TakeNext), PostFails(enomem, status));
            if enomem && (p.control || p.doneCtx.Some? || p.owner.Some?) then
              Same(t, s.(scheduling := false), p)
            else
              && t.leaving == s.leaving + [(p.(group := 0, counted := false), status)]
              && t == s.(scheduling := false, leaving := t.leaving,
                         controlQ := if FromControl(s) then s.controlQ[1..] else s.controlQ,
                         dataQ := if FromControl(s) then s.dataQ else s.dataQ[1..])
  {
    Ownership(frameCount, inflightLimit, queueLimit, creditMax, events);
    CreditsBound(frameCount, inflightLimit, queueLimit, creditMax, events);
    LimitsStay(frameCount, inflightLimit, queueLimit, creditMax, events);
    TakesExactly(frameCount, inflightLimit, queueLimit, creditMax, events);
    hide Run;
    UndoExact(Run(PathTx.Start(frameCount, inflightLimit, queueLimit, creditMax), events), enomem, status);
  }

  /** The same path, with p at the head of its queue; a control packet forgets its group, which it has none of,
      and a packet is no longer counted in a raw stream. */
  predicate Same(t: Path, s: Path, p: Pkt) {
    if p.control then s.controlQ != [] && t == s.(controlQ := [p.(group := 0, counted := false)] + s.controlQ[1..])
    else s.dataQ != [] && t == s.(dataQ := [p.(counted := false)] + s.dataQ[1..])
  }

  lemma UndoExact(s: Path, enomem: bool, status: int)
    requires Sorted(s) && Frames(s) && s.credits <= s.creditMax && Takes(s, Take(s)) && s.tunnel
    requires FromControl(s) || (FromData(s) && DataMay(s, s.dataQ[0]))
    ensures var p := if FromControl(s) then s.controlQ[0] else s.dataQ[0];
            var t := PostFailed(Take(s), enomem, status);
            if enomem && (p.control || p.doneCtx.Some? || p.owner.Some?) then
              Same(t, s.(scheduling := false), p)
            else
              && t.leaving == s.leaving + [(p.(group := 0, counted := false), status)]
              && t == s.(scheduling := false, leaving := t.leaving,
                         controlQ := if FromControl(s) then s.controlQ[1..] else s.controlQ,
                         dataQ := if FromControl(s) then s.dataQ else s.dataQ[1..])
  {
    hide StagedData;
  }

  // ---------------------------------------------------------------- credits over a run

  /** The credits the peer has sent. */
  function Granted(events: seq<Event>): nat {
    if events == [] then 0
    else
      var e := events[|events| - 1];
      Granted(events[..|events| - 1]) + if e.CreditsCome? then e.n else 0
  }

  /** A data packet in the scheduler's hand. */
  function DataInHand(hand: Option<Hand>): nat {
    if hand.Some? then IsData(hand.value.pkt) else 0
  }

  ghost predicate Funded(s: Path, granted: nat) {
    && (s.hand.Some? ==> (s.hand.value.charged <==> !s.hand.value.pkt.control && s.creditMax > 0))
    && s.credits <= s.creditMax
    && (s.creditMax > 0 ==> s.credits + DataInHand(s.hand) + Weigh(s.wire, IsData) <= s.creditMax + granted)
  }

  /** Only these events move credits or packets in hand. */
  predicate MovesCredits(e: Event) {
    e.TakeNext? || e.PostOk? || e.PostFails? || e.CreditsCome?
  }

  lemma MoveFunded(s: Path, e: Event, granted: nat)
    requires Funded(s, granted) && MovesCredits(e)
    ensures Funded(Step(s, e), granted + if e.CreditsCome? then e.n else 0)
  {
    hide Weigh;
    if e.PostOk? && s.hand.Some? {
      WeighOne(s.wire, s.hand.value.pkt, IsData);
    }
  }

  lemma OtherKeeps(s: Path, e: Event)
    requires !MovesCredits(e)
    ensures var t := Step(s, e);
            && t.credits == s.credits && t.creditMax == s.creditMax && t.wire == s.wire
            && (t.hand.Some? <==> s.hand.Some?)
            && (s.hand.Some? ==> t.hand.value.charged == s.hand.value.charged
                                 && t.hand.value.pkt.control == s.hand.value.pkt.control)
  {
    hide Kept;
    hide Canceled;
    hide Marked;
    hide FinishRaw;
    hide WithStatus;
    hide Batch;
    hide Stream;
    hide Take;
    hide Posted;
    hide PostFailed;
  }

  lemma OtherFunded(s: Path, e: Event, granted: nat)
    requires Funded(s, granted) && !MovesCredits(e)
    ensures Funded(Step(s, e), granted)
  {
    hide Step;
    hide Weigh;
    OtherKeeps(s, e);
  }

  lemma StepFunded(s: Path, e: Event, granted: nat)
    requires Funded(s, granted)
    ensures Funded(Step(s, e), granted + if e.CreditsCome? then e.n else 0)
  {
    hide Step;
    hide Funded;
    if MovesCredits(e) {
      MoveFunded(s, e, granted);
    } else {
      OtherFunded(s, e, granted);
    }
  }

  /** In every run on a path with credits: the credits held, with the data packets in hand and those the ring
      has accepted, never exceed the window and the credits the peer has sent. */
  lemma {:induction false} CreditsBound(frameCount: nat, inflightLimit: nat, queueLimit: nat, creditMax: nat,
                                        events: seq<Event>)
    ensures var s := Run(PathTx.Start(frameCount, inflightLimit, queueLimit, creditMax), events);
            && Funded(s, Granted(events)) && s.credits <= creditMax
            && (creditMax > 0 ==>
                  s.credits + DataInHand(s.hand) + Weigh(s.wire, IsData) <= creditMax + Granted(events))
  {
    hide Step;
    hide Weigh;
    LimitsStay(frameCount, inflightLimit, queueLimit, creditMax, events);
    if events == [] {
      NoneWeighs();
    } else {
      var prefix := events[..|events| - 1];
      CreditsBound(frameCount, inflightLimit, queueLimit, creditMax, prefix);
      StepFunded(Run(PathTx.Start(frameCount, inflightLimit, queueLimit, creditMax), prefix),
                 events[|events| - 1], Granted(prefix));
    }
  }

  lemma NoneWeighs()
    ensures Weigh([], IsData) == 0
  {
  }
}
