/** The credit protocol that keeps data from overrunning the peer's receive ring (kernel/path.c with the
    thresholds of proto/native_data.h): one direction of data, with the credits that come back. */
module Credits {
  import opened Prelude
  import opened NativeData
  import opened Lists

  const CONTROL_RESERVE: nat := 256
  const U32_MAX: nat := 0xFFFF_FFFF

  /** tbv_path_data_credit_window. */
  function Window(ringSize: nat): nat {
    if ringSize == 0 then 0
    else
      var credits := if ringSize <= CONTROL_RESERVE then ringSize / 2 else ringSize - CONTROL_RESERVE;
      var rounded := if credits > CREDIT_BATCH then credits - credits % CREDIT_BATCH else credits;
      if rounded == 0 then 1 else rounded
  }

  /** tbv_native_data_credit_return_threshold. */
  function ReturnThreshold(window: nat): nat {
    if 0 < window < CREDIT_BATCH then window else CREDIT_BATCH
  }

  /** tbv_native_data_start_credit_required. */
  function StartRequired(frames: nat, window: nat): nat {
    if frames == 0 then 0 else if frames < ReturnThreshold(window) then frames else ReturnThreshold(window)
  }

  /** tbv_native_data_consumes_rx_credit. */
  predicate ConsumesCredit(opcode: u8) {
    opcode in {OP_SEND, OP_SEND_IMM, OP_RDMA_WRITE, OP_RDMA_WRITE_IMM, OP_RDMA_READ_REQ, OP_RDMA_READ_RESP, OP_MAD}
  }

  // ---------------------------------------------------------------- credit counters

  /** tbv_path_add_remote_rx_credits: never above the window. */
  function Added(credits: nat, window: nat, more: nat): nat {
    if window == 0 then credits
    else if credits >= window then window
    else if more > window - credits then window
    else credits + more
  }

  /** A credit comes back when the post fails. */
  function Refunded(credits: nat, window: nat): nat {
    if credits < window then credits + 1 else credits
  }

  /** The credits a packet needs at the head of its queue. */
  function Needed(group: nat, window: nat): nat {
    var required := StartRequired(group, window);
    if required > 1 then required else 1
  }

  /** tbv_path_return_rx_data_credit: what stays pending, and what is to be sent now. */
  function Returned(pending: nat, more: nat, window: nat): (r: (nat, nat)) {
    var sum := if pending + more > U32_MAX then U32_MAX else pending + more;
    if sum >= ReturnThreshold(window) then (0, sum) else (sum, 0)
  }

  /** What is pending again after the credit frame could not be sent. */
  function Restored(pending: nat, unsent: nat): nat {
    if pending + unsent > U32_MAX then U32_MAX else pending + unsent
  }

  /** The credit fields of struct tbv_path. */
  class PathCredits {
    var max: nat
    var credits: nat
    var pending: nat

    /** tbv_path_set_remote_rx_capacity. */
    method SetCapacity(ringSize: nat)
      modifies this
      ensures max == Window(ringSize) && credits == max && pending == 0
    {
      var window := 0;
      if ringSize != 0 {
        window := if ringSize <= CONTROL_RESERVE then ringSize / 2 else ringSize - CONTROL_RESERVE;
        if window > CREDIT_BATCH {
          window := window - window % CREDIT_BATCH;
        }
        if window == 0 {
          window := 1;
        }
      }
      max, credits, pending := window, window, 0;
    }

    method Add(more: nat) returns (accepted: nat)
      requires credits <= max
      modifies this`credits
      ensures credits == Added(old(credits), max, more) && accepted == credits - old(credits)
    {
      var was := credits;
      if max != 0 {
        credits := if was >= max then max else if more > max - was then max else was + more;
      }
      accepted := credits - was;
    }

    /** The credit test of tbv_path_schedule_tx for the head packet. */
    method Charge(control: bool, group: nat) returns (admitted: bool, charged: bool)
      modifies this`credits
      ensures admitted == (control || max == 0 || old(credits) >= Needed(group, max))
      ensures charged == (admitted && !control && max != 0)
      ensures credits == if charged then old(credits) - 1 else old(credits)
    {
      charged := false;
      if !control && max != 0 {
        var required := if group == 0 then 0 else if group < ReturnThreshold(max) then group else ReturnThreshold(max);
        if credits < 1 || credits < required {
          return false, false;
        }
        credits := credits - 1;
        charged := true;
      }
      admitted := true;
    }

    method Refund()
      modifies this`credits
      ensures credits == Refunded(old(credits), max)
    {
      if credits < max {
        credits := credits + 1;
      }
    }

    method Return(more: nat, window: nat) returns (send: nat)
      modifies this`pending
      ensures (pending, send) == Returned(old(pending), more, window)
    {
      send := 0;
      pending := if more > U32_MAX - pending then U32_MAX else pending + more;
      if pending >= ReturnThreshold(window) {
        send := pending;
        pending := 0;
      }
    }

    method Restore(unsent: nat)
      modifies this`pending
      ensures pending == Restored(old(pending), unsent)
    {
      pending := if unsent > U32_MAX - pending then U32_MAX else pending + unsent;
    }
  }

  // ---------------------------------------------------------------- both ends

  /** A frame on its way: its opcode (a raw payload has none), whether it was sent as control, and whether
      the receiver returns a credit for it. */
  datatype Frame = Frame(opcode: u8, raw: bool, control: bool)

  /** Control frames are not charged. */
  predicate Charged(f: Frame) { !f.control }

  predicate Credited(f: Frame) { f.raw || ConsumesCredit(f.opcode) }

  /** The sender's credits; the frame in the scheduler's hand; frames in transit; frames completed and not
      reposted, with whether they parsed; the receiver's pending credits; credit frames being queued;
      credit frames in transit; and how many credited frames had not been charged. */
  datatype Link = Link(window: nat, credits: nat, hand: Option<Frame>, transit: seq<Frame>, held: seq<(Frame, bool)>,
                       pending: nat, queueing: seq<nat>, back: seq<nat>, surplus: nat)

  function Start(window: nat): Link {
    Link(window, window, None, [], [], 0, [], [], 0)
  }

  datatype Event =
    | Take(frame: Frame, group: nat)
    | Posted
    | PostFailed
    | Lost(i: nat)
    | Arrives(i: nat, parsed: bool)
    | Reposted(i: nat)
    | CreditSent(i: nat)
    | CreditFailed(i: nat)
    | CreditLost(i: nat)
    | CreditArrives(i: nat)

  predicate Admits(s: Link, group: nat) {
    s.credits >= Needed(group, s.window)
  }

  /** Reposting a frame returns its credit. */
  function Repost(s: Link, i: nat): Link
    requires i < |s.held|
  {
    var (f, parsed) := s.held[i];
    var t := s.(held := Without(s.held, i));
    if !(parsed && Credited(f)) then t
    else
      var (pending, send) := Returned(s.pending, 1, s.window);
      t.(pending := pending, queueing := if send > 0 then s.queueing + [send] else s.queueing,
         surplus := if Charged(f) then s.surplus else s.surplus + 1)
  }

  function Step(s: Link, e: Event): Link {
    match e
    case Take(f, group) =>
      if s.hand.Some? || (Charged(f) && !Admits(s, group)) then s
      else s.(hand := Some(f), credits := if Charged(f) then s.credits - 1 else s.credits)
    case Posted =>
      if s.hand.None? then s else s.(hand := None, transit := s.transit + [s.hand.value])
    case PostFailed =>
      if s.hand.None? then s
      else s.(hand := None, credits := if Charged(s.hand.value) then Refunded(s.credits, s.window) else s.credits)
    case Lost(i) => if i >= |s.transit| then s else s.(transit := Without(s.transit, i))
    case Arrives(i, parsed) =>
      if i >= |s.transit| then s
      else s.(transit := Without(s.transit, i), held := s.held + [(s.transit[i], parsed)])
    case Reposted(i) => if i >= |s.held| then s else Repost(s, i)
    case CreditSent(i) =>
      if i >= |s.queueing| then s else s.(queueing := Without(s.queueing, i), back := s.back + [s.queueing[i]])
    case CreditFailed(i) =>
      if i >= |s.queueing| then s
      else s.(queueing := Without(s.queueing, i), pending := Restored(s.pending, s.queueing[i]))
    case CreditLost(i) => if i >= |s.back| then s else s.(back := Without(s.back, i))
    case CreditArrives(i) =>
      if i >= |s.back| then s
      else s.(back := Without(s.back, i), credits := Added(s.credits, s.window, s.back[i]))
  }

  function Run(s: Link, events: seq<Event>): Link {
    if events == [] then s else Step(Run(s, events[..|events| - 1]), events[|events| - 1])
  }

  // ---------------------------------------------------------------- conservation

  function Amount(x: nat): nat { x }

  function Sum(s: seq<nat>): nat {
    Weigh(s, Amount)
  }

  function One(f: Frame): nat { if Charged(f) then 1 else 0 }

  function OneHeld(f: (Frame, bool)): nat { One(f.0) }

  /** Charged frames in transit. */
  function InTransit(s: seq<Frame>): nat {
    Weigh(s, One)
  }

  /** Charged frames that arrived and are not reposted. */
  function InRing(s: seq<(Frame, bool)>): nat {
    Weigh(s, OneHeld)
  }

  /** Charged frames the peer has not yet reposted. */
  function Outstanding(s: Link): nat {
    (if s.hand.Some? then One(s.hand.value) else 0) + InTransit(s.transit) + InRing(s.held)
  }

  /** Every credit in the system. */
  function Total(s: Link): nat {
    s.credits + Outstanding(s) + s.pending + Sum(s.queueing) + Sum(s.back)
  }

  /** A step that neither loses nor fails anything. */
  predicate Clean(e: Event) {
    !e.Lost? && !e.CreditLost? && !e.CreditFailed? && (e.Arrives? ==> e.parsed)
  }

  /** A frame whose loss of credit does not matter: charged frames carry a credited opcode. */
  predicate Proper(e: Event) {
    e.Take? && Charged(e.frame) ==> Credited(e.frame)
  }

  /** Credits appear only as surplus, and disappear only by loss or failure. */
  ghost predicate Conserved(s: Link) {
    s.window > 0 && s.credits <= s.window && Total(s) <= s.window + s.surplus
  }

  lemma RepostTotal(s: Link, i: nat)
    requires i < |s.held|
    ensures var t := Repost(s, i);
            && Total(t) - t.surplus <= Total(s) - s.surplus
            && (s.held[i].1 && (Charged(s.held[i].0) ==> Credited(s.held[i].0)) && s.pending < U32_MAX
                ==> Total(t) >= Total(s))
  {
    hide Weigh;
    WeighWithout(s.held, i, OneHeld);
    var (pending, send) := Returned(s.pending, 1, s.window);
    WeighOne(s.queueing, send, Amount);
  }

  lemma StepConserves(s: Link, e: Event)
    requires Conserved(s)
    ensures Conserved(Step(s, e)) && Step(s, e).window == s.window
  {
    hide Weigh;
    hide Repost;
    match e
    case Take(f, group) =>
    case Posted => if s.hand.Some? { WeighOne(s.transit, s.hand.value, One); }
    case PostFailed =>
    case Lost(i) => if i < |s.transit| { WeighWithout(s.transit, i, One); }
    case Arrives(i, parsed) =>
      if i < |s.transit| { WeighWithout(s.transit, i, One); WeighOne(s.held, (s.transit[i], parsed), OneHeld); }
    case Reposted(i) => if i < |s.held| { RepostTotal(s, i); RepostFrame(s, i); }
    case CreditSent(i) =>
      if i < |s.queueing| {
        WeighWithout(s.queueing, i, Amount);
        WeighOne(s.back, s.queueing[i], Amount);
      }
    case CreditFailed(i) => if i < |s.queueing| { WeighWithout(s.queueing, i, Amount); }
    case CreditLost(i) => if i < |s.back| { WeighWithout(s.back, i, Amount); }
    case CreditArrives(i) => if i < |s.back| { WeighWithout(s.back, i, Amount); }
  }

  lemma RepostFrame(s: Link, i: nat)
    requires i < |s.held|
    ensures Repost(s, i).window == s.window && Repost(s, i).credits == s.credits
  {
  }

  /** In every run: the sender's credits, the charged frames the peer has not reposted, its pending
      credits and the credits on their way never exceed the window by more than the number of credited
      frames that were never charged. Without such frames, data never occupies more of the peer's ring
      than the window. */
  lemma {:induction false} Conservation(window: nat, events: seq<Event>)
    requires window > 0
    ensures var s := Run(Start(window), events);
            && s.window == window && Conserved(s)
            && (s.surplus == 0 ==> InTransit(s.transit) + InRing(s.held) <= window)
  {
    if events != [] {
      Conservation(window, events[..|events| - 1]);
      StepConserves(Run(Start(window), events[..|events| - 1]), events[|events| - 1]);
    }
  }

  /** Frames that take a credit back without having been charged are the uncharged ones with a credited
      opcode: without them there is no surplus. */
  lemma {:induction false} NoSurplus(window: nat, events: seq<Event>)
    requires forall k :: 0 <= k < |events| && events[k].Take? && Credited(events[k].frame) ==> Charged(events[k].frame)
    ensures var s := Run(Start(window), events);
            && s.surplus == 0 && (s.hand.Some? ==> Paid(s.hand.value))
            && (forall k :: 0 <= k < |s.transit| ==> Paid(s.transit[k]))
            && (forall k :: 0 <= k < |s.held| ==> Paid(s.held[k].0))
  {
    if events != [] {
      NoSurplus(window, events[..|events| - 1]);
    }
  }

  predicate Paid(f: Frame) {
    Credited(f) ==> Charged(f)
  }

  /** The window leaves room in the ring, except for a ring of one entry. */
  lemma WindowFits(ringSize: nat)
    requires ringSize > 0
    ensures 1 <= Window(ringSize) <= ringSize
    ensures ringSize > 1 ==> Window(ringSize) < ringSize
    ensures ringSize > CONTROL_RESERVE ==> Window(ringSize) + CONTROL_RESERVE <= ringSize
  {
  }

  // ---------------------------------------------------------------- progress

  /** In a clean run nothing is lost. */
  ghost predicate Lossless(s: Link) {
    && s.window > 0 && Total(s) >= s.window
    && s.pending < ReturnThreshold(s.window) && Proper1(s.hand)
    && (forall k :: 0 <= k < |s.transit| ==> Proper1(Some(s.transit[k])))
    && (forall k :: 0 <= k < |s.held| ==> Proper1(Some(s.held[k].0)) && s.held[k].1)
  }

  predicate Proper1(f: Option<Frame>) {
    f.Some? && Charged(f.value) ==> Credited(f.value)
  }

  lemma FrameLossless(s: Link, e: Event)
    requires Conserved(s) && Lossless(s) && Clean(e) && Proper(e)
    requires e.Take? || e.Posted? || e.PostFailed? || e.Arrives? || e.Reposted?
    ensures Lossless(Step(s, e))
  {
    hide Credited;
    hide Weigh;
    match e
    case Take(f, group) =>
    case Posted => if s.hand.Some? { WeighOne(s.transit, s.hand.value, One); }
    case PostFailed =>
    case Arrives(i, parsed) =>
      if i < |s.transit| { WeighWithout(s.transit, i, One); WeighOne(s.held, (s.transit[i], parsed), OneHeld); }
    case Reposted(i) => if i < |s.held| { RepostTotal(s, i); }
  }

  lemma CreditLossless(s: Link, e: Event)
    requires Conserved(s) && Lossless(s) && Clean(e)
    requires e.Lost? || e.CreditSent? || e.CreditFailed? || e.CreditLost? || e.CreditArrives?
    ensures Lossless(Step(s, e))
  {
    hide Credited;
    hide Weigh;
    match e
    case CreditSent(i) =>
      if i < |s.queueing| {
        WeighWithout(s.queueing, i, Amount);
        WeighOne(s.back, s.queueing[i], Amount);
      }
    case CreditArrives(i) => if i < |s.back| { WeighWithout(s.back, i, Amount); }
    case _ =>
  }

  lemma StepLossless(s: Link, e: Event)
    requires Conserved(s) && Lossless(s) && Clean(e) && Proper(e)
    ensures Lossless(Step(s, e))
  {
    hide Lossless;
    hide Conserved;
    hide Step;
    if e.Take? || e.Posted? || e.PostFailed? || e.Arrives? || e.Reposted? {
      FrameLossless(s, e);
    } else {
      CreditLossless(s, e);
    }
  }

  ghost predicate CleanRun(events: seq<Event>) {
    forall k :: 0 <= k < |events| ==> Clean(events[k]) && Proper(events[k])
  }

  lemma {:induction false} RunLossless(window: nat, events: seq<Event>)
    requires window > 0 && CleanRun(events)
    ensures Lossless(Run(Start(window), events))
  {
    if events != [] {
      var prefix := events[..|events| - 1];
      RunLossless(window, prefix);
      Conservation(window, prefix);
      StepLossless(Run(Start(window), prefix), events[|events| - 1]);
    }
  }

  /** A step that loses nothing; posts and credit frames may fail. */
  predicate Safe(e: Event) {
    !e.Lost? && !e.CreditLost? && (e.Arrives? ==> e.parsed)
  }

  ghost predicate Whole(s: Link) {
    && s.window > 0 && Total(s) >= s.window && Proper1(s.hand)
    && (forall k :: 0 <= k < |s.transit| ==> Proper1(Some(s.transit[k])))
    && (forall k :: 0 <= k < |s.held| ==> Proper1(Some(s.held[k].0)) && s.held[k].1)
  }

  lemma FrameWhole(s: Link, e: Event)
    requires Conserved(s) && Whole(s) && Safe(e) && Proper(e) && s.window + Step(s, e).surplus <= U32_MAX
    requires e.Take? || e.Posted? || e.PostFailed? || e.Arrives? || e.Reposted?
    ensures Whole(Step(s, e))
  {
    hide Credited;
    hide Weigh;
    match e
    case Take(f, group) =>
    case Posted => if s.hand.Some? { WeighOne(s.transit, s.hand.value, One); }
    case PostFailed =>
    case Arrives(i, parsed) =>
      if i < |s.transit| { WeighWithout(s.transit, i, One); WeighOne(s.held, (s.transit[i], parsed), OneHeld); }
    case Reposted(i) => if i < |s.held| { RepostWhole(s, i); }
  }

  lemma CreditWhole(s: Link, e: Event)
    requires Conserved(s) && Whole(s) && Safe(e) && s.window + s.surplus <= U32_MAX
    requires e.Lost? || e.CreditSent? || e.CreditFailed? || e.CreditLost? || e.CreditArrives?
    ensures Whole(Step(s, e))
  {
    hide Credited;
    hide Charged;
    hide Weigh;
    match e
    case CreditSent(i) =>
      if i < |s.queueing| {
        WeighWithout(s.queueing, i, Amount);
        WeighOne(s.back, s.queueing[i], Amount);
      }
    case CreditFailed(i) => if i < |s.queueing| { WeighWithout(s.queueing, i, Amount); }
    case CreditArrives(i) => if i < |s.back| { WeighWithout(s.back, i, Amount); }
  }

  lemma StepWhole(s: Link, e: Event)
    requires Conserved(s) && Whole(s) && Safe(e) && Proper(e) && s.window + Step(s, e).surplus <= U32_MAX
    ensures Whole(Step(s, e))
  {
    hide Whole;
    hide Conserved;
    SurplusGrows(s, e);
    hide Step;
    if e.Take? || e.Posted? || e.PostFailed? || e.Arrives? || e.Reposted? {
      FrameWhole(s, e);
    } else {
      CreditWhole(s, e);
    }
  }

  lemma RepostWhole(s: Link, i: nat)
    requires Conserved(s) && Whole(s) && i < |s.held| && s.window + Repost(s, i).surplus <= U32_MAX
    ensures Total(Repost(s, i)) >= Total(s) || Total(Repost(s, i)) >= s.window
  {
    hide Weigh;
    hide Credited;
    WeighWithout(s.held, i, OneHeld);
    var (pending, send) := Returned(s.pending, 1, s.window);
    WeighOne(s.queueing, send, Amount);
  }

  lemma SurplusGrows(s: Link, e: Event)
    ensures Step(s, e).surplus >= s.surplus
  {
  }

  /** No credit leaks: in every run that loses no frame and no credit frame, whatever posts and credit frames
      fail, all credits of the window are somewhere, and without uncharged credited frames no more than
      those. */
  lemma {:induction false} NoLeak(window: nat, events: seq<Event>)
    requires window > 0 && forall k :: 0 <= k < |events| ==> Safe(events[k]) && Proper(events[k])
    requires window + Run(Start(window), events).surplus <= U32_MAX
    ensures var s := Run(Start(window), events);
            && Whole(s) && window <= Total(s) <= window + s.surplus
  {
    hide Step;
    hide Whole;
    hide Total;
    if events == [] {
      StartWhole(window);
    } else {
      var prefix := events[..|events| - 1];
      SurplusGrows(Run(Start(window), prefix), events[|events| - 1]);
      NoLeak(window, prefix);
      Conservation(window, prefix);
      StepWhole(Run(Start(window), prefix), events[|events| - 1]);
    }
    Conservation(window, events);
    WholeTotal(Run(Start(window), events));
  }

  lemma StartWhole(window: nat)
    requires window > 0
    ensures Whole(Start(window))
  {
  }

  lemma WholeTotal(s: Link)
    requires Whole(s)
    ensures Total(s) >= s.window
  {
  }

  /** No frame and no credit is under way. */
  predicate Quiet(s: Link) {
    s.hand.None? && s.transit == [] && s.held == [] && s.queueing == [] && s.back == []
  }

  /** What the peer may withhold while everything is quiet. */
  lemma QuietCredits(window: nat, events: seq<Event>)
    requires window > 0 && CleanRun(events) && Quiet(Run(Start(window), events))
    ensures var s := Run(Start(window), events);
            s.pending < ReturnThreshold(window) && s.credits + s.pending >= window
  {
    Conservation(window, events);
    RunLossless(window, events);
  }

  const DATA: Frame := Frame(OP_SEND, false, false)

  /** k data frames, each sent, received and reposted before the next. */
  function Rounds(k: nat): seq<Event> {
    if k == 0 then [] else Rounds(k - 1) + [Take(DATA, 1)] + [Posted] + [Arrives(0, true)] + [Reposted(0)]
  }

  lemma RunOne(s: Link, events: seq<Event>, e: Event)
    ensures Run(s, events + [e]) == Step(Run(s, events), e)
  {
    assert (events + [e])[..|events|] == events;
  }

  /** After k frames the peer withholds k credits, as long as that is below its threshold. */
  lemma {:induction false} RoundsWithhold(window: nat, k: nat)
    requires k < ReturnThreshold(window) && k <= window
    ensures Run(Start(window), Rounds(k)) == Start(window).(credits := window - k, pending := k)
  {
    hide Step;
    if k > 0 {
      RoundsWithhold(window, k - 1);
      var es := Rounds(k - 1);
      RunOne(Start(window), es, Take(DATA, 1));
      RunOne(Start(window), es + [Take(DATA, 1)], Posted);
      RunOne(Start(window), es + [Take(DATA, 1)] + [Posted], Arrives(0, true));
      RunOne(Start(window), es + [Take(DATA, 1)] + [Posted] + [Arrives(0, true)], Reposted(0));
      OneRound(window, k);
    }
  }

  lemma {:induction false} RoundsClean(k: nat)
    ensures CleanRun(Rounds(k))
  {
    if k > 0 {
      RoundsClean(k - 1);
    }
  }

  lemma OneRound(window: nat, k: nat)
    requires 0 < k < ReturnThreshold(window) && k <= window
    ensures var s := Start(window).(credits := window - k + 1, pending := k - 1);
            Step(Step(Step(Step(s, Take(DATA, 1)), Posted), Arrives(0, true)), Reposted(0))
              == Start(window).(credits := window - k, pending := k)
  {
    var s := Start(window).(credits := window - k + 1, pending := k - 1);
    assert Step(s, Take(DATA, 1)) == s.(hand := Some(DATA), credits := window - k);
    assert Step(Step(s, Take(DATA, 1)), Posted) == s.(transit := [DATA], credits := window - k);
    assert Without([DATA], 0) == [];
    assert Without([(DATA, true)], 0) == [];
  }

  /** Whenever a clean run is quiet the head packet of any group has the credits it needs to start:
      exactly for a window of 1 or of at least twice the batch minus one. */
  lemma Progress(window: nat)
    requires window > 0
    ensures (forall events, group :: CleanRun(events) && Quiet(Run(Start(window), events)) ==>
               Admits(Run(Start(window), events), group))
       <==> window == 1 || window >= 2 * CREDIT_BATCH - 1
  {
    forall events, group | CleanRun(events) && Quiet(Run(Start(window), events))
      && (window == 1 || window >= 2 * CREDIT_BATCH - 1)
      ensures Admits(Run(Start(window), events), group)
    {
      QuietCredits(window, events);
      Conservation(window, events);
    }
    if 1 < window < 2 * CREDIT_BATCH - 1 {
      var k := window - ReturnThreshold(window) + 1;
      RoundsWithhold(window, k);
      RoundsClean(k);
      assert Quiet(Run(Start(window), Rounds(k)));
      assert !Admits(Run(Start(window), Rounds(k)), CREDIT_BATCH);
    }
  }

  /** The rings whose window makes progress: those of at least 768 entries, and those whose window is 1. */
  lemma ProgressRings(ringSize: nat)
    requires ringSize > 0
    ensures Window(ringSize) == 1 || Window(ringSize) >= 2 * CREDIT_BATCH - 1
       <==> ringSize <= 3 || ringSize == CONTROL_RESERVE + 1 || ringSize >= 3 * CREDIT_BATCH
    ensures Window(4096) == 3840
  {
  }
}
