/** The binding of an Apple rail to a queue pair (kernel/ibdev.c) and the transmit side of its path
    (kernel/path.c). There is one Apple queue pair number, so at most one queue pair at a time. Frames carry
    no incarnation, so packets are tagged with the epoch they belong to only for the statements. Every
    locked section is one step. */
module RailBind {
  import opened Prelude
  import opened Lists

  datatype BindState = Unbound | Bound | Quiescing | Quarantined

  /** How far a quiesce has come. */
  datatype Stage = Begun | Closed | Canceled | Retired | RefsDone | Finished

  /** A quiesce in progress: whose producers it stops, whether it is part of a destroy, whether the rail was
      quarantined when it began, and its outcome so far. */
  datatype Quiesce = Quiesce(owner: Option<nat>, destroys: bool, wasQuarantined: bool, stage: Stage, failed: bool,
                             barrier: bool, restart: bool, reopen: bool)

  /** The queue pair that holds the number: `id` tells incarnations apart, `retired` says that its destroy
      has quiesced the rail. */
  datatype Qp = Qp(id: nat, closing: bool, railBound: bool, bindEpoch: nat, retired: bool)

  /** A thread that has selected the rail's path for a queue pair and has not enqueued yet. */
  datatype Ticket = Ticket(qp: nat, epoch: nat)

  /** struct tbv_rail_bind, the transmit side of the path, and the queue pair. `queue` and `inflight` hold
      the epochs of the packets queued and submitted; `next` numbers queue pairs. */
  datatype Rail = Rail(state: BindState, bindQp: Option<nat>, epoch: nat, remote: Option<nat>, lastError: bool,
                       rxMark: nat, rxCompleted: nat, removing: bool, txClosed: bool, ringsStopped: bool,
                       queue: seq<nat>, inflight: seq<nat>, cur: Option<Qp>, next: nat, tickets: seq<Ticket>,
                       quiesce: Option<Quiesce>)

  // ---------------------------------------------------------------- binding

  /** Nothing has come from the peer since the mark, nothing is unretired, and the last teardown worked. */
  predicate Silent(r: Rail) {
    r.rxCompleted == r.rxMark && r.inflight == [] && !r.ringsStopped && !r.lastError
  }

  /** A new epoch owns the rail. */
  function Own(r: Rail, remote: Option<nat>): Rail
    requires r.cur.Some?
  {
    r.(state := Bound, bindQp := Some(r.cur.value.id), epoch := r.epoch + 1, remote := remote,
       cur := Some(r.cur.value.(railBound := true, bindEpoch := r.epoch + 1)))
  }

  /** tbv_rail_apple_bound_to. */
  predicate BoundTo(r: Rail, q: Qp) {
    r.state == Bound && r.bindQp == Some(q.id) && r.epoch == q.bindEpoch
  }

  /** A queue pair that already owns the rail: only its remote number may become known. */
  function Revalidate(r: Rail, q: Qp, remote: Option<nat>, hopMatches: bool): Rail {
    if BoundTo(r, q) && remote.Some? && r.remote.None? && hopMatches then r.(remote := remote) else r
  }

  /** A quarantine is lifted and transmission opened. */
  function Lift(r: Rail): Rail {
    r.(state := Unbound, txClosed := false)
  }

  /** tbv_qp_apple_bind_rail with tbv_rail_apple_admit_locked, on a transition of the queue pair into a
      transport state; `hopMatches` is the check of the remote number against the path. A queue pair that
      is being destroyed is no longer modified. */
  function Bind(r: Rail, remote: Option<nat>, hopMatches: bool): Rail {
    if r.cur.None? || r.cur.value.closing then r
    else if r.cur.value.railBound then Revalidate(r, r.cur.value, remote, hopMatches)
    else if r.removing then r
    else
      match r.state
      case Quiescing => r
      case Bound => r
      case Unbound => if remote.Some? && !hopMatches then r else Own(r, remote)
      case Quarantined =>
        if remote.None? then r
        else if !Silent(r) then r.(rxMark := r.rxCompleted)
        else if !hopMatches then Lift(r)
        else Own(Lift(r), remote)
  }

  /** The bind lifts a quarantine. */
  predicate Lifts(r: Rail, remote: Option<nat>) {
    && r.cur.Some? && !r.cur.value.closing && !r.cur.value.railBound && !r.removing
    && r.state == Quarantined && remote.Some? && Silent(r)
  }

  /** tbv_qp_apple_unbind_rail. */
  function Unbind(r: Rail): Rail {
    if r.cur.None? || !r.cur.value.railBound then r
    else
      var s := r.(cur := Some(r.cur.value.(railBound := false)));
      if r.bindQp == Some(r.cur.value.id) then
        s.(bindQp := None, state := if r.state == Bound then Unbound else r.state)
      else s
  }

  // ---------------------------------------------------------------- tbv_apple_path_quiesce

  /** Whose producers a quiesce stops: the calling queue pair's, or without one the bound queue pair's if it
      is alive. */
  function OwnerOf(r: Rail, own: bool): Option<nat> {
    if r.cur.None? then None
    else if own || (r.bindQp == Some(r.cur.value.id) && !r.cur.value.closing) then Some(r.cur.value.id)
    else None
  }

  /** `own`: the quiesce is part of a modify or destroy of the queue pair, not of a stall or removal. */
  function QuiesceBegin(r: Rail, own: bool): Rail {
    r.(state := if r.state == Quarantined then Quarantined else Quiescing,
       quiesce := Some(Quiesce(OwnerOf(r, own), own && r.cur.Some? && r.cur.value.closing,
                               r.state == Quarantined, Begun,
                               false, false, false, false)))
  }

  /** The ring-stop barrier: what it leaves unretired, and whether the rings could be started again. */
  datatype BarrierResult = BarrierResult(unretired: seq<nat>, restart: bool, restarted: bool)

  predicate Possible(r: Rail, b: BarrierResult) {
    forall e :: e in b.unretired ==> e in r.inflight
  }

  function Barrier(r: Rail, q: Quiesce, b: BarrierResult): Rail {
    r.(inflight := b.unretired,
       ringsStopped := !(b.unretired == [] && b.restart),
       quiesce := Some(q.(stage := Retired, barrier := true, restart := b.restart,
                          failed := b.unretired != [] || (b.restart && !b.restarted))))
  }

  /** The owner gives up the rail; after its destroy's quiesce it only waits for its references. */
  function Released(cur: Option<Qp>, q: Quiesce): Option<Qp> {
    if cur.Some? && q.owner == Some(cur.value.id) then
      Some(cur.value.(railBound := false, retired := cur.value.retired || (q.destroys && !q.failed)))
    else cur
  }

  predicate Clean(q: Quiesce) {
    !q.failed && !(q.barrier && q.restart)
  }

  /** The binding lets go of the owner. */
  function Forget(r: Rail, q: Quiesce): Rail {
    r.(bindQp := if q.owner.Some? && r.bindQp == q.owner then None else r.bindQp, cur := Released(r.cur, q))
  }

  /** The outcome decides the state of the rail and whether transmission opens again. */
  function Note(r: Rail, q: Quiesce): Rail {
    var state := if Clean(q) then (if q.wasQuarantined then r.state else Unbound) else Quarantined;
    r.(state := state, lastError := q.failed, rxMark := if Clean(q) then r.rxMark else r.rxCompleted,
       quiesce := Some(q.(stage := Finished, reopen := state == Unbound && !q.barrier && !r.removing)))
  }

  /** Record the outcome and release the binding. */
  function Record(r: Rail, q: Quiesce): Rail {
    Note(Forget(r, q), q)
  }

  // ---------------------------------------------------------------- runs

  datatype Event =
    | Create
    | Destroy
    | Gone
    | BindQp(remote: Option<nat>, hopMatches: bool)
    | UnbindQp
    | Select
    | Enqueue(i: nat)
    | Abandon(i: nat)
    | Submit
    | SubmitFails
    | Retire(i: nat)
    | RxFrame
    | Remove
    | Begin(own: bool)
    | CloseTx
    | Cancel
    | Drained
    | DrainTimesOut(result: BarrierResult)
    | RefsReleased
    | RefsHeld
    | Finish
    | Reopen

  predicate At(r: Rail, stage: Stage) {
    r.quiesce.Some? && r.quiesce.value.stage == stage
  }

  function SetStage(r: Rail, stage: Stage): Rail
    requires r.quiesce.Some?
  {
    r.(quiesce := Some(r.quiesce.value.(stage := stage)))
  }

  /** The queue pair: it takes the only number, is destroyed, and is gone once its destroy has quiesced the
      rail and no reference is left. */
  function QpStep(r: Rail, e: Event): Rail
    requires e.Create? || e.Destroy? || e.Gone?
  {
    match e
    case Create =>
      if r.cur.Some? then r else r.(cur := Some(Qp(r.next, false, false, 0, false)), next := r.next + 1)
    case Destroy => if r.cur.None? then r else r.(cur := Some(r.cur.value.(closing := true)))
    case Gone =>
      if r.cur.None? || !r.cur.value.closing || !r.cur.value.retired || r.tickets != [] then r else r.(cur := None)
  }

  function Step(r: Rail, e: Event): Rail {
    match e
    case Create => QpStep(r, e)
    case Destroy => QpStep(r, e)
    case Gone => QpStep(r, e)
    case BindQp(remote, hopMatches) => Bind(r, remote, hopMatches)
    case UnbindQp => Unbind(r)
    case Select =>
      if r.cur.Some? && r.cur.value.railBound && BoundTo(r, r.cur.value) then
        r.(tickets := r.tickets + [Ticket(r.cur.value.id, r.epoch)])
      else r
    case Enqueue(i) =>
      if i >= |r.tickets| then r
      else r.(tickets := Without(r.tickets, i), queue := if r.txClosed then r.queue else r.queue + [r.tickets[i].epoch])
    case Abandon(i) => if i >= |r.tickets| then r else r.(tickets := Without(r.tickets, i))
    case Submit =>
      if r.txClosed || r.queue == [] then r else r.(queue := r.queue[1..], inflight := r.inflight + [r.queue[0]])
    case SubmitFails => if r.txClosed || r.queue == [] then r else r.(queue := r.queue[1..])
    case Retire(i) => if i >= |r.inflight| then r else r.(inflight := Without(r.inflight, i))
    case RxFrame => r.(rxCompleted := r.rxCompleted + 1)
    case Remove => r.(removing := true)
    case Begin(own) => if r.quiesce.Some? || (own && r.cur.None?) then r else QuiesceBegin(r, own)
    case CloseTx => if At(r, Begun) then SetStage(r.(txClosed := true), Closed) else r
    case Cancel => if At(r, Closed) then SetStage(r.(queue := []), Canceled) else r
    case Drained => if At(r, Canceled) && AllRetired(r) then SetStage(r, Retired) else r
    case DrainTimesOut(b) =>
      if At(r, Canceled) && !AllRetired(r) && Possible(r, b) then Barrier(r, r.quiesce.value, b) else r
    case RefsReleased =>
      if At(r, Retired) && (r.quiesce.value.failed || NoTickets(r, r.quiesce.value.owner)) then SetStage(r, RefsDone)
      else r
    case RefsHeld =>
      if At(r, Retired) && !r.quiesce.value.failed && r.quiesce.value.owner.Some? then
        r.(quiesce := Some(r.quiesce.value.(stage := RefsDone, failed := true)))
      else r
    case Finish => if At(r, RefsDone) then Record(r, r.quiesce.value) else r
    case Reopen =>
      if At(r, Finished) then
        r.(txClosed := if r.quiesce.value.reopen then false else r.txClosed, quiesce := None)
      else r
  }

  /** tbv_path_tx_retired: nothing is submitted and nothing queued. The drain times out only without it. */
  predicate AllRetired(r: Rail) {
    r.inflight == [] && r.queue == []
  }

  /** No thread of the owner still holds the path. */
  predicate NoTickets(r: Rail, owner: Option<nat>) {
    owner.Some? ==> forall i :: 0 <= i < |r.tickets| ==> r.tickets[i].qp != owner.value
  }

  function Run(r: Rail, events: seq<Event>): Rail {
    if events == [] then r else Step(Run(r, events[..|events| - 1]), events[|events| - 1])
  }

  function Start(): Rail {
    Rail(Unbound, None, 0, None, false, 0, 0, false, false, false, [], [], None, 0, [], None)
  }

  // ---------------------------------------------------------------- isolation

  ghost predicate AllOf(epochs: seq<nat>, epoch: nat) {
    forall i :: 0 <= i < |epochs| ==> epochs[i] == epoch
  }

  /** Nothing of any epoch is held by a thread, queued or submitted. */
  predicate Nothing(r: Rail) {
    r.tickets == [] && r.queue == [] && r.inflight == []
  }

  /** Everything queued or submitted belongs to the current epoch, and quarantine keeps transmission
      closed with nothing queued. */
  ghost predicate Apart(r: Rail) {
    && AllOf(r.queue, r.epoch) && AllOf(r.inflight, r.epoch)
    && (r.state == Quarantined ==> r.txClosed && r.queue == [])
  }

  /** In every state of the run epochs are kept apart, and a new one begins only when nothing of an earlier
      one is left. */
  ghost predicate IsolatedRun(events: seq<Event>) {
    && (forall k :: 0 <= k <= |events| ==> Apart(Run(Start(), events[..k])))
    && forall k :: 0 <= k < |events| ==> BeginsClean(Run(Start(), events[..k]), events[k])
  }

  ghost predicate BeginsClean(r: Rail, e: Event) {
    Step(r, e).epoch != r.epoch ==> Step(r, e).epoch == r.epoch + 1 && Nothing(r)
  }

  /** Three rules for the callers. `stop`: no quiesce for a stall or module exit is begun on a quarantined
      rail, unless the rail is being removed. `lift`: no quarantine is lifted while a quiesce is running.
      `unbind`: the bound queue pair is not unbound outside its destroy. */
  datatype Rules = Rules(stop: bool, lift: bool, unbind: bool)

  predicate Obeys(rules: Rules, r: Rail, e: Event) {
    && (rules.stop && e.Begin? && !e.own && r.quiesce.None? && r.state == Quarantined ==> r.removing)
    && (rules.lift && e.BindQp? && Lifts(r, e.remote) ==> r.quiesce.None? || r.quiesce.value.stage == Finished)
    && (rules.unbind && e.UnbindQp? && r.cur.Some? && r.bindQp == Some(r.cur.value.id) ==> r.cur.value.closing)
  }

  ghost predicate ObeyedRun(rules: Rules, events: seq<Event>) {
    forall k :: 0 <= k < |events| ==> Obeys(rules, Run(Start(), events[..k]), events[k])
  }

  const ALL: Rules := Rules(true, true, true)

  // ---------------------------------------------------------------- the invariant

  predicate Closing(r: Rail) {
    r.cur.Some? && r.cur.value.closing
  }

  /** Threads that hold the path belong to the queue pair and to the current epoch. */
  ghost predicate Held(tickets: seq<Ticket>, epoch: nat, qp: Option<nat>) {
    forall i :: 0 <= i < |tickets| ==> tickets[i].epoch == epoch && qp == Some(tickets[i].qp)
  }

  function IdOf(cur: Option<Qp>): Option<nat> {
    if cur.Some? then Some(cur.value.id) else None
  }

  /** The quiesce waits for the threads that hold the path; else none holds it, or nobody can bind. */
  ghost predicate Covered(r: Rail, q: Quiesce) {
    || r.tickets == [] || Closing(r) || (q.wasQuarantined && r.removing)
    || (r.cur.Some? && q.owner == Some(r.cur.value.id))
  }

  /** What a quiesce has reached. */
  ghost predicate Progress(r: Rail, q: Quiesce) {
    && (q.stage != Finished ==> r.state == (if q.wasQuarantined then Quarantined else Quiescing) && Covered(r, q))
    && (q.stage in {Closed, Canceled, Retired, RefsDone} ==> r.txClosed)
    && (q.stage in {Canceled, Retired, RefsDone} ==> r.queue == [])
    && (q.stage in {Retired, RefsDone} && !q.failed ==> r.inflight == [])
    && (q.stage == RefsDone && !q.failed ==>
          r.tickets == [] || (Covered(r, q) && (r.cur.Some? ==> q.owner != Some(r.cur.value.id))))
    && (q.stage == Finished ==> r.state != Quiescing && (q.reopen ==> r.state != Quarantined))
    && (q.destroys && q.stage != Finished && r.cur.Some? && q.owner == Some(r.cur.value.id) ==> Closing(r))
    && (q.owner.Some? ==> q.owner.value < r.next)
  }

  /** What the queue pair's flags say. */
  ghost predicate QpTrue(r: Rail) {
    && (r.bindQp.Some? ==> r.cur.Some? && r.bindQp == Some(r.cur.value.id) && r.cur.value.railBound)
    && (r.state == Bound ==> r.bindQp.Some?)
    && (r.cur.Some? ==> r.cur.value.id < r.next)
    && (r.cur.Some? && r.cur.value.retired ==> Closing(r) && !r.cur.value.railBound && Nothing(r))
  }

  ghost predicate Isolated(r: Rail) {
    && Apart(r) && Held(r.tickets, r.epoch, IdOf(r.cur)) && QpTrue(r)
    && (r.state == Unbound ==> Closing(r) || Nothing(r))
    && (r.state == Quarantined && !r.lastError && !Closing(r) && !r.removing ==> r.tickets == [])
    && (r.state == Quiescing ==> r.quiesce.Some?)
    && (r.quiesce.Some? ==> Progress(r, r.quiesce.value))
  }

  lemma QpIsolated(r: Rail, e: Event)
    requires Isolated(r) && (e.Create? || e.Destroy? || e.Gone?)
    ensures Isolated(Step(r, e)) && Step(r, e).epoch == r.epoch
  {
    hide Bind;
    hide Record;
    hide Barrier;
    hide Unbind;
    hide QuiesceBegin;
    hide Possible;
  }

  lemma UnbindIsolated(r: Rail)
    requires Isolated(r) && Obeys(ALL, r, UnbindQp)
    ensures Isolated(Unbind(r)) && Unbind(r).epoch == r.epoch
  {
  }

  /** With nothing left, the queue pair may own the rail. */
  lemma OwnIsolated(r: Rail, remote: Option<nat>)
    requires Isolated(r) && r.state == Unbound && r.cur.Some? && !Closing(r)
    ensures Isolated(Own(r, remote)) && Nothing(r)
  {
  }

  lemma LiftIsolated(r: Rail, remote: Option<nat>)
    requires Isolated(r) && Lifts(r, remote) && (r.quiesce.None? || r.quiesce.value.stage == Finished)
    ensures Isolated(Lift(r)) && Nothing(r)
  {
  }

  lemma BindIsolated(r: Rail, remote: Option<nat>, hopMatches: bool)
    requires Isolated(r) && Obeys(ALL, r, BindQp(remote, hopMatches))
    ensures Isolated(Bind(r, remote, hopMatches)) && BeginsClean(r, BindQp(remote, hopMatches))
  {
    if Lifts(r, remote) {
      LiftIsolated(r, remote);
      hide Isolated;
      OwnIsolated(Lift(r), remote);
    } else if r.cur.Some? && !Closing(r) && r.state == Unbound {
      OwnIsolated(r, remote);
      hide Own;
    }
  }

  lemma WithoutAt<T>(s: seq<T>, i: nat)
    requires i < |s|
    ensures |Without(s, i)| == |s| - 1
    ensures forall k :: 0 <= k < |s| - 1 ==> Without(s, i)[k] == s[if k < i then k else k + 1]
  {
  }

  lemma SelectIsolated(r: Rail)
    requires Isolated(r)
    ensures Isolated(Step(r, Select)) && Step(r, Select).epoch == r.epoch
  {
  }

  /** A thread gives up the path, with or without a packet queued on it. */
  lemma ThreadIsolated(r: Rail, i: nat)
    requires Isolated(r)
    ensures Isolated(Step(r, Enqueue(i))) && Step(r, Enqueue(i)).epoch == r.epoch
    ensures Isolated(Step(r, Abandon(i))) && Step(r, Abandon(i)).epoch == r.epoch
  {
    if i < |r.tickets| {
      WithoutAt(r.tickets, i);
      var t := r.tickets[i];
      hide Without;
    }
  }

  lemma PacketIsolated(r: Rail, e: Event)
    requires Isolated(r) && (e.Submit? || e.SubmitFails? || e.RxFrame? || e.Remove?)
    ensures Isolated(Step(r, e)) && Step(r, e).epoch == r.epoch
  {
  }

  lemma RetireIsolated(r: Rail, i: nat)
    requires Isolated(r)
    ensures Isolated(Step(r, Retire(i))) && Step(r, Retire(i)).epoch == r.epoch
  {
    if i < |r.inflight| {
      WithoutAt(r.inflight, i);
      hide Without;
    }
  }

  lemma BeginIsolated(r: Rail, own: bool)
    requires Isolated(r) && Obeys(ALL, r, Begin(own))
    ensures Isolated(Step(r, Begin(own))) && Step(r, Begin(own)).epoch == r.epoch
  {
  }

  lemma CloseIsolated(r: Rail, e: Event)
    requires Isolated(r) && (e.CloseTx? || e.Cancel? || e.Drained?)
    ensures Isolated(Step(r, e)) && Step(r, e).epoch == r.epoch
  {
    hide Bind;
    hide QpStep;
    hide Barrier;
    hide Unbind;
    hide QuiesceBegin;
    hide Possible;
    hide Record;
  }

  lemma BarrierIsolated(r: Rail, b: BarrierResult)
    requires Isolated(r)
    ensures Isolated(Step(r, DrainTimesOut(b))) && Step(r, DrainTimesOut(b)).epoch == r.epoch
  {
    if At(r, Canceled) && Possible(r, b) {
      assert b.unretired != [] ==> b.unretired[0] in b.unretired;
      forall i | 0 <= i < |b.unretired| ensures b.unretired[i] == r.epoch {
        assert b.unretired[i] in r.inflight;
      }
    }
  }

  lemma RefsIsolated(r: Rail, e: Event)
    requires Isolated(r) && (e.RefsReleased? || e.RefsHeld?)
    ensures Isolated(Step(r, e)) && Step(r, e).epoch == r.epoch
  {
    hide Bind;
    hide QpStep;
    hide Barrier;
    hide Unbind;
    hide QuiesceBegin;
    hide Possible;
    hide Record;
    assert r.tickets != [] ==> r.tickets[0].qp >= 0;
  }

  lemma FinishIsolated(r: Rail)
    requires Isolated(r)
    ensures Isolated(Step(r, Finish)) && Step(r, Finish).epoch == r.epoch
  {
    hide Bind;
    hide QpStep;
    hide Barrier;
    hide Unbind;
    hide QuiesceBegin;
    hide Possible;
    assert r.tickets != [] ==> r.tickets[0].qp >= 0;
  }

  lemma ReopenIsolated(r: Rail)
    requires Isolated(r)
    ensures Isolated(Step(r, Reopen)) && Step(r, Reopen).epoch == r.epoch
  {
    hide Bind;
    hide QpStep;
    hide Barrier;
    hide Unbind;
    hide QuiesceBegin;
    hide Possible;
    hide Record;
  }

  lemma StepIsolated(r: Rail, e: Event)
    requires Isolated(r) && Obeys(ALL, r, e)
    ensures Isolated(Step(r, e)) && BeginsClean(r, e)
  {
    hide Isolated;
    hide QpStep;
    hide Bind;
    hide Unbind;
    hide Record;
    hide Barrier;
    if e.Create? || e.Destroy? || e.Gone? {
      QpIsolated(r, e);
    } else if e.UnbindQp? {
      UnbindIsolated(r);
    } else if e.BindQp? {
      BindIsolated(r, e.remote, e.hopMatches);
    } else if e.Select? {
      SelectIsolated(r);
    } else if e.Enqueue? || e.Abandon? {
      ThreadIsolated(r, e.i);
    } else if e.Submit? || e.SubmitFails? || e.RxFrame? || e.Remove? {
      PacketIsolated(r, e);
    } else if e.Retire? {
      RetireIsolated(r, e.i);
    } else if e.Begin? {
      BeginIsolated(r, e.own);
    } else if e.CloseTx? || e.Cancel? || e.Drained? {
      CloseIsolated(r, e);
    } else if e.DrainTimesOut? {
      BarrierIsolated(r, e.result);
    } else {
      if e.Finish? {
        FinishIsolated(r);
      } else if e.Reopen? {
        ReopenIsolated(r);
      } else {
        RefsIsolated(r, e);
      }
    }
  }

  lemma {:induction false} RunIsolated(events: seq<Event>)
    requires ObeyedRun(ALL, events)
    ensures Isolated(Run(Start(), events))
  {
    hide Isolated;
    hide Step;
    hide Obeys;
    if events != [] {
      var n := |events| - 1;
      var prefix := events[..n];
      assert forall k :: 0 <= k <= n ==> events[..k] == prefix[..k];
      assert Obeys(ALL, Run(Start(), events[..n]), events[n]);
      RunIsolated(prefix);
      StepIsolated(Run(Start(), prefix), events[n]);
    } else {
      StartIsolated();
    }
  }

  lemma StartIsolated()
    ensures Isolated(Start())
  {
  }

  lemma IsolatedApart(r: Rail)
    requires Isolated(r)
    ensures Apart(r)
  {
  }

  /** Epoch isolation: under the three rules, in every state of every run everything queued or submitted
      belongs to the current epoch, quarantine keeps transmission closed with nothing queued, and a new
      epoch begins only when nothing of an earlier one is held, queued or submitted. */
  lemma Isolation(events: seq<Event>)
    requires ObeyedRun(ALL, events)
    ensures IsolatedRun(events)
  {
    hide Run;
    hide Isolated;
    hide Apart;
    hide BeginsClean;
    hide Obeys;
    forall k | 0 <= k <= |events|
      ensures Isolated(Run(Start(), events[..k])) && Apart(Run(Start(), events[..k]))
    {
      assert forall j :: 0 <= j <= k ==> events[..k][..j] == events[..j];
      RunIsolated(events[..k]);
      IsolatedApart(Run(Start(), events[..k]));
    }
    forall k | 0 <= k < |events| ensures BeginsClean(Run(Start(), events[..k]), events[k]) {
      StepIsolated(Run(Start(), events[..k]), events[k]);
    }
  }

  /** The unbind that ends a destroy, after the number is free again, changes nothing: by then the queue
      pair has been released, and what it had on the path is gone. */
  lemma DestroyEndsUnbound(events: seq<Event>)
    requires ObeyedRun(ALL, events)
    ensures var r := Run(Start(), events);
            r.cur.Some? && r.cur.value.retired ==> Unbind(r) == r && Step(r, Gone) == r.(cur := None) && Nothing(r)
  {
    hide Run;
    RunIsolated(events);
  }

  /** A quiesce that did not find the rail quarantined keeps it quiescing until it records its outcome. */
  ghost predicate Steady(r: Rail) {
    r.quiesce.Some? && r.quiesce.value.stage != Finished && !r.quiesce.value.wasQuarantined ==> r.state == Quiescing
  }

  lemma StepSteady(r: Rail, e: Event)
    requires Steady(r)
    ensures Steady(Step(r, e))
  {
  }

  lemma {:induction false} RunSteady(events: seq<Event>)
    ensures Steady(Run(Start(), events))
  {
    if events != [] {
      RunSteady(events[..|events| - 1]);
      StepSteady(Run(Start(), events[..|events| - 1]), events[|events| - 1]);
    }
  }

  /** A queue pair that is alive and does not own the rail asks to bind it. */
  predicate Asks(r: Rail, e: Event) {
    e.BindQp? && r.cur.Some? && !r.cur.value.closing && !r.cur.value.railBound && !r.removing
  }

  /** In every run whatsoever, quarantine is left exactly by a bind that brings a new peer session, with no peer
      frame since the mark, nothing unretired, the rings running and no error in the last teardown. */
  lemma QuarantineExit(events: seq<Event>, e: Event)
    requires Run(Start(), events).state == Quarantined
    ensures var r := Run(Start(), events);
            Step(r, e).state != Quarantined
            <==> Asks(r, e) && e.remote.Some?
                 && r.rxCompleted == r.rxMark && r.inflight == [] && !r.ringsStopped && !r.lastError
  {
    hide Run;
    RunSteady(events);
    ExitStep(Run(Start(), events), e);
  }

  lemma ExitStep(r: Rail, e: Event)
    requires Steady(r) && r.state == Quarantined
    ensures Step(r, e).state != Quarantined
       <==> Asks(r, e) && e.remote.Some?
            && r.rxCompleted == r.rxMark && r.inflight == [] && !r.ringsStopped && !r.lastError
  {
    if e.BindQp? {
      BindExit(r, e);
    } else {
      StaysQuarantined(r, e);
    }
    hide Step;
  }

  lemma BindExit(r: Rail, e: Event)
    requires r.state == Quarantined && e.BindQp?
    ensures Bind(r, e.remote, e.hopMatches).state != Quarantined
       <==> Asks(r, e) && e.remote.Some?
            && r.rxCompleted == r.rxMark && r.inflight == [] && !r.ringsStopped && !r.lastError
  {
  }

  lemma StaysQuarantined(r: Rail, e: Event)
    requires Steady(r) && r.state == Quarantined && !e.BindQp?
    ensures Step(r, e).state == Quarantined
  {
    hide Possible;
    hide Bind;
    hide Without;
    hide OwnerOf;
  }

  /** In every run, a new epoch begins exactly by such a bind, or by a bind of an unbound rail, of a queue pair
      whose peer number, if it is known, matches the path; then that queue pair owns the rail. */
  lemma EpochBegins(events: seq<Event>, e: Event)
    ensures var r := Run(Start(), events);
            var s := Step(r, e);
            && (s.epoch != r.epoch
                <==> Asks(r, e) && (e.remote.Some? ==> e.hopMatches)
                     && (r.state == Unbound
                         || (r.state == Quarantined && e.remote.Some? && r.rxCompleted == r.rxMark && r.inflight == []
                             && !r.ringsStopped && !r.lastError)))
            && (s.epoch != r.epoch ==>
                  && s.state == Bound && s.epoch == r.epoch + 1 && s.bindQp == Some(r.cur.value.id)
                  && s.remote == e.remote
                  && s.cur == Some(r.cur.value.(railBound := true, bindEpoch := s.epoch)))
  {
    hide Run;
    if e.BindQp? {
      BindEpoch(Run(Start(), events), e);
    } else {
      SameEpoch(Run(Start(), events), e);
    }
    hide Step;
  }

  lemma BindEpoch(r: Rail, e: Event)
    requires e.BindQp?
    ensures var s := Bind(r, e.remote, e.hopMatches);
            && (s.epoch != r.epoch
                <==> Asks(r, e) && (e.remote.Some? ==> e.hopMatches)
                     && (r.state == Unbound
                         || (r.state == Quarantined && e.remote.Some? && r.rxCompleted == r.rxMark && r.inflight == []
                             && !r.ringsStopped && !r.lastError)))
            && (s.epoch != r.epoch ==>
                  && s.state == Bound && s.epoch == r.epoch + 1 && s.bindQp == Some(r.cur.value.id)
                  && s.remote == e.remote
                  && s.cur == Some(r.cur.value.(railBound := true, bindEpoch := s.epoch)))
  {
  }

  lemma SameEpoch(r: Rail, e: Event)
    requires !e.BindQp?
    ensures Step(r, e).epoch == r.epoch
  {
    hide Possible;
    hide Bind;
    hide Without;
    hide OwnerOf;
  }

  /** In every run, a bind of a queue pair that owns the rail changes at most the peer's number, from unknown to
      the one it brings, if that matches the path. */
  lemma RemoteLearned(events: seq<Event>, e: Event)
    requires var r := Run(Start(), events);
             e.BindQp? && r.cur.Some? && !r.cur.value.closing && r.cur.value.railBound
    ensures var r := Run(Start(), events);
            var owns := r.state == Bound && r.bindQp == Some(r.cur.value.id) && r.epoch == r.cur.value.bindEpoch;
            Step(r, e) == if owns && r.remote.None? && e.remote.Some? && e.hopMatches then r.(remote := e.remote) else r
  {
    hide Run;
  }

  // ---------------------------------------------------------------- a silent peer

  /** The moments from which the peer must be silent: a quiesce ends in quarantine, or a bind with a new session
      is refused because of it. */
  predicate Marks(r: Rail, e: Event) {
    || (e.Finish? && r.quiesce.Some? && r.quiesce.value.stage == RefsDone
        && (r.quiesce.value.failed || (r.quiesce.value.barrier && r.quiesce.value.restart)))
    || (Asks(r, e) && e.remote.Some? && r.state == Quarantined
        && !(r.rxCompleted == r.rxMark && r.inflight == [] && !r.ringsStopped && !r.lastError))
  }

  ghost predicate MarkedAt(events: seq<Event>, k: nat)
    requires k < |events|
  {
    Marks(Run(Start(), events[..k]), events[k])
  }

  /** Frames that came from the peer. */
  function Frames(events: seq<Event>): nat {
    if events == [] then 0 else Frames(events[..|events| - 1]) + if events[|events| - 1].RxFrame? then 1 else 0
  }

  /** The last mark was made at event k, when rxMark frames had come. */
  ghost predicate LastMark(events: seq<Event>, k: nat, rxMark: nat)
    requires k < |events|
  {
    && MarkedAt(events, k) && rxMark == Frames(events[..k])
    && forall j :: k < j < |events| ==> !MarkedAt(events, j)
  }

  lemma BindMarks(r: Rail, e: Event)
    requires e.BindQp?
    ensures var s := Step(r, e);
            && s.rxCompleted == r.rxCompleted + (if e.RxFrame? then 1 else 0)
            && s.rxMark == (if Marks(r, e) then r.rxCompleted else r.rxMark)
            && (s.state == Quarantined ==> r.state == Quarantined || Marks(r, e))
  {
  }

  lemma FinishMarks(r: Rail, e: Event)
    requires e.Finish? && Steady(r)
    ensures var s := Step(r, e);
            && s.rxCompleted == r.rxCompleted + (if e.RxFrame? then 1 else 0)
            && s.rxMark == (if Marks(r, e) then r.rxCompleted else r.rxMark)
            && (s.state == Quarantined ==> r.state == Quarantined || Marks(r, e))
  {
  }

  /** The steps of a quiesce but its last section. */
  predicate OfQuiesce(e: Event) {
    e.Begin? || e.CloseTx? || e.Cancel? || e.Drained? || e.DrainTimesOut? || e.RefsReleased? || e.RefsHeld? || e.Reopen?
  }

  lemma QuiesceMarks(r: Rail, e: Event)
    requires OfQuiesce(e)
    ensures var s := Step(r, e);
            && s.rxCompleted == r.rxCompleted + (if e.RxFrame? then 1 else 0) && s.rxMark == r.rxMark
            && (s.state == Quarantined ==> r.state == Quarantined)
            && !Marks(r, e)
  {
    hide Possible;
    hide AllRetired;
    hide NoTickets;
    hide OwnerOf;
    hide Bind;
    hide Unbind;
    hide QpStep;
    hide Record;
    hide Without;
  }

  /** The other events touch neither the mark nor, unless to leave it, quarantine. */
  lemma OtherMarks(r: Rail, e: Event)
    requires !e.BindQp? && !e.Finish? && !OfQuiesce(e)
    ensures var s := Step(r, e);
            && s.rxCompleted == r.rxCompleted + (if e.RxFrame? then 1 else 0) && s.rxMark == r.rxMark
            && (s.state == Quarantined ==> r.state == Quarantined)
            && !Marks(r, e)
  {
    hide Possible;
    hide AllRetired;
    hide NoTickets;
    hide OwnerOf;
    hide Bind;
    hide Record;
    hide Barrier;
    hide Without;
  }

  lemma MarkStep(r: Rail, e: Event)
    requires Steady(r)
    ensures var s := Step(r, e);
            && s.rxCompleted == r.rxCompleted + (if e.RxFrame? then 1 else 0)
            && s.rxMark == (if Marks(r, e) then r.rxCompleted else r.rxMark)
            && (s.state == Quarantined ==> r.state == Quarantined || Marks(r, e))
  {
    hide Step;
    hide Marks;
    if e.BindQp? {
      BindMarks(r, e);
    } else if e.Finish? {
      FinishMarks(r, e);
    } else if OfQuiesce(e) {
      QuiesceMarks(r, e);
    } else {
      OtherMarks(r, e);
    }
  }

  lemma MarkedPrefix(events: seq<Event>, k: nat)
    requires k + 1 < |events|
    ensures MarkedAt(events[..|events| - 1], k) <==> MarkedAt(events, k)
  {
    hide Run;
    assert events[..|events| - 1][..k] == events[..k];
  }

  lemma LastMarkMore(events: seq<Event>, k: nat, rxMark: nat)
    requires events != [] && k < |events| - 1 && LastMark(events[..|events| - 1], k, rxMark)
    requires !MarkedAt(events, |events| - 1)
    ensures LastMark(events, k, rxMark)
  {
    hide MarkedAt;
    var prefix := events[..|events| - 1];
    assert prefix[..k] == events[..k];
    MarkedPrefix(events, k);
    forall j: nat | k < j < |events| ensures !MarkedAt(events, j) {
      if j < |events| - 1 {
        MarkedPrefix(events, j);
      }
    }
  }

  /** In every run the frames counted are those that came, and a quarantined rail's mark is the count at the
      last moment that marks. */
  lemma {:induction false} MarkExact(events: seq<Event>)
    ensures var r := Run(Start(), events);
            && r.rxCompleted == Frames(events)
            && (r.state == Quarantined ==> exists k :: 0 <= k < |events| && LastMark(events, k, r.rxMark))
  {
    hide Step;
    hide Marks;
    hide LastMark;
    if events != [] {
      var n := |events| - 1;
      var prefix := events[..n];
      var q := Run(Start(), prefix);
      MarkExact(prefix);
      RunSteady(prefix);
      MarkStep(q, events[n]);
      if Run(Start(), events).state == Quarantined {
        if MarkedAt(events, n) {
          MarkNow(events);
        } else {
          var k :| 0 <= k < n && LastMark(prefix, k, q.rxMark);
          LastMarkMore(events, k, q.rxMark);
        }
      }
    }
  }

  lemma MarkNow(events: seq<Event>)
    requires events != [] && MarkedAt(events, |events| - 1)
    ensures LastMark(events, |events| - 1, Frames(events[..|events| - 1]))
  {
  }

  lemma {:induction false} FramesBetween(events: seq<Event>, k: nat)
    requires k <= |events|
    ensures Frames(events[..k]) <= Frames(events)
    ensures Frames(events[..k]) == Frames(events) ==> forall j :: k <= j < |events| ==> !events[j].RxFrame?
  {
    if k < |events| {
      var prefix := events[..|events| - 1];
      assert prefix[..k] == events[..k];
      FramesBetween(prefix, k);
    } else {
      assert events[..k] == events;
    }
  }

  /** In every run, when a rail leaves quarantine no frame has come from its peer since the moment that
      quarantined it or, if a bind with a new session was refused after that, since the last refusal. */
  lemma PeerSilent(events: seq<Event>, e: Event)
    requires Run(Start(), events).state == Quarantined && Step(Run(Start(), events), e).state != Quarantined
    ensures exists k :: 0 <= k < |events| && MarkedAt(events, k)
                        && (forall j :: k < j < |events| ==> !MarkedAt(events, j))
                        && forall j :: k <= j < |events| ==> !events[j].RxFrame?
  {
    hide Step;
    hide Run;
    QuarantineExit(events, e);
    MarkExact(events);
    var k :| 0 <= k < |events| && LastMark(events, k, Run(Start(), events).rxMark);
    FramesBetween(events, k);
    hide Frames;
  }

  // ---------------------------------------------------------------- every rule is needed

  /** Every event obeys the rules where it happens. */
  ghost predicate ObeyedFrom(rules: Rules, r: Rail, events: seq<Event>)
    decreases |events|
  {
    events == [] || (Obeys(rules, r, events[0]) && ObeyedFrom(rules, Step(r, events[0]), events[1..]))
  }

  function Play(r: Rail, events: seq<Event>): Rail
    decreases |events|
  {
    if events == [] then r else Play(Step(r, events[0]), events[1..])
  }

  lemma {:induction false} PlayIsRun(r: Rail, events: seq<Event>)
    ensures Play(r, events) == Run(r, events)
    decreases |events|
  {
    hide Step;
    if events != [] {
      PlayIsRun(Step(r, events[0]), events[1..]);
      RunHead(r, events);
    }
  }

  lemma {:induction false} RunHead(r: Rail, events: seq<Event>)
    requires events != []
    ensures Run(r, events) == Run(Step(r, events[0]), events[1..])
    decreases |events|
  {
    hide Step;
    if |events| == 1 {
      assert events[..0] == [] && events[1..] == [];
      assert Run(r, events) == Step(Run(r, []), events[0]);
    } else {
      RunHead(r, events[..|events| - 1]);
      assert events[1..][..|events| - 2] == events[..|events| - 1][1..];
    }
  }

  lemma {:induction false} ObeyedIsRun(rules: Rules, r: Rail, events: seq<Event>)
    requires ObeyedFrom(rules, r, events)
    ensures forall k :: 0 <= k < |events| ==> Obeys(rules, Run(r, events[..k]), events[k])
    decreases |events|
  {
    hide Step;
    hide Obeys;
    if events != [] {
      ObeyedIsRun(rules, Step(r, events[0]), events[1..]);
      forall k | 0 <= k < |events| ensures Obeys(rules, Run(r, events[..k]), events[k]) {
        if k == 0 {
          assert events[..0] == [];
        } else {
          RunHead(r, events[..k]);
          assert events[..k][1..] == events[1..][..k - 1];
        }
      }
    }
  }

  lemma {:induction false} PlayJoin(r: Rail, a: seq<Event>, b: seq<Event>)
    ensures Play(r, a + b) == Play(Play(r, a), b)
    decreases |a|
  {
    hide Step;
    if a == [] {
      assert a + b == b;
    } else {
      assert (a + b)[1..] == a[1..] + b;
      PlayJoin(Step(r, a[0]), a[1..], b);
    }
  }

  lemma {:induction false} ObeyedJoin(rules: Rules, r: Rail, a: seq<Event>, b: seq<Event>)
    requires ObeyedFrom(rules, r, a) && ObeyedFrom(rules, Play(r, a), b)
    ensures ObeyedFrom(rules, r, a + b)
    decreases |a|
  {
    hide Step;
    hide Obeys;
    if a == [] {
      assert a + b == b;
    } else {
      assert (a + b)[1..] == a[1..] + b;
      ObeyedJoin(rules, Step(r, a[0]), a[1..], b);
    }
  }

  /** A run that keeps the rules and ends where epochs are mixed, or with transmission open in quarantine. */
  lemma Violates(rules: Rules, events: seq<Event>)
    requires ObeyedFrom(rules, Start(), events) && !Apart(Play(Start(), events))
    ensures ObeyedRun(rules, events) && !IsolatedRun(events)
  {
    hide Step;
    hide Obeys;
    ObeyedIsRun(rules, Start(), events);
    PlayIsRun(Start(), events);
    assert events[..|events|] == events;
  }

  /** The events lead from r to t and keep the rules. */
  ghost predicate Leads(rules: Rules, r: Rail, events: seq<Event>, t: Rail) {
    Play(r, events) == t && ObeyedFrom(rules, r, events)
  }

  lemma LeadsJoin(rules: Rules, r: Rail, a: seq<Event>, s: Rail, b: seq<Event>, t: Rail)
    requires Leads(rules, r, a, s) && Leads(rules, s, b, t)
    ensures Leads(rules, r, a + b, t)
  {
    hide Step;
    hide Obeys;
    PlayJoin(r, a, b);
    ObeyedJoin(rules, r, a, b);
  }

  lemma LeadsOne(rules: Rules, r: Rail, e: Event)
    requires Obeys(rules, r, e)
    ensures Leads(rules, r, [e], Step(r, e))
  {
    hide Step;
    hide Obeys;
    assert [e][1..] == [];
    assert Play(Step(r, e), []) == Step(r, e) && ObeyedFrom(rules, Step(r, e), []);
    assert Play(r, [e]) == Play(Step(r, [e][0]), [e][1..]);
  }

  lemma LeadsThree(rules: Rules, r: Rail, a: Event, b: Event, c: Event)
    requires Obeys(rules, r, a) && Obeys(rules, Step(r, a), b) && Obeys(rules, Step(Step(r, a), b), c)
    ensures Leads(rules, r, [a, b, c], Step(Step(Step(r, a), b), c))
  {
    hide Step;
    hide Obeys;
    LeadsOne(rules, r, a);
    LeadsOne(rules, Step(r, a), b);
    LeadsJoin(rules, r, [a], Step(r, a), [b], Step(Step(r, a), b));
    LeadsOne(rules, Step(Step(r, a), b), c);
    LeadsJoin(rules, r, [a] + [b], Step(Step(r, a), b), [c], Step(Step(Step(r, a), b), c));
    assert [a] + [b] + [c] == [a, b, c];
  }

  /** The queue pair owns the rail in epoch 1. */
  function Owned(): Rail {
    Start().(state := Bound, bindQp := Some(0), epoch := 1, cur := Some(Qp(0, false, true, 1, false)), next := 1)
  }

  /** The same, after a peer frame. */
  const OPEN: seq<Event> := [Create, BindQp(None, true), RxFrame]

  function Opened(): Rail {
    Owned().(rxCompleted := 1)
  }

  lemma Opens(rules: Rules)
    ensures Leads(rules, Start(), OPEN, Opened())
  {
    LeadsThree(rules, Start(), Create, BindQp(None, true), RxFrame);
    assert Step(Start(), Create) == Start().(cur := Some(Qp(0, false, false, 0, false)), next := 1);
    assert Step(Step(Start(), Create), BindQp(None, true)) == Owned();
  }

  /** A quiesce has closed transmission and canceled what was queued. */
  function Stopped(r: Rail, own: bool): Rail {
    QuiesceBegin(r, own).(txClosed := true, queue := [],
                          quiesce := Some(QuiesceBegin(r, own).quiesce.value.(stage := Canceled)))
  }

  lemma Stops(rules: Rules, r: Rail, own: bool)
    requires r.quiesce.None? && (own ==> r.cur.Some?) && Obeys(rules, r, Begin(own))
    ensures Leads(rules, r, [Begin(own), CloseTx, Cancel], Stopped(r, own))
  {
    hide QuiesceBegin;
    LeadsThree(rules, r, Begin(own), CloseTx, Cancel);
    BeginStage(r, own);
    assert Step(r, Begin(own)) == QuiesceBegin(r, own);
  }

  lemma BeginStage(r: Rail, own: bool)
    ensures At(QuiesceBegin(r, own), Begun)
  {
  }

  /** The quiesce has recorded its outcome and is over. */
  function Over(r: Rail): Rail
    requires r.quiesce.Some?
  {
    Step(Record(r, r.quiesce.value), Reopen)
  }

  /** Nothing was submitted; the references are released or held. */
  lemma Ends(rules: Rules, r: Rail, held: bool)
    requires At(r, Canceled) && r.inflight == [] && r.queue == [] && !r.quiesce.value.failed
    requires held ==> r.quiesce.value.owner.Some?
    requires !held ==> NoTickets(r, r.quiesce.value.owner)
    ensures var q := r.quiesce.value.(stage := RefsDone, failed := held);
            Leads(rules, r, [Drained, if held then RefsHeld else RefsReleased, Finish] + [Reopen],
                  Over(r.(quiesce := Some(q))))
  {
    hide Record;
    var e := if held then RefsHeld else RefsReleased;
    var q := r.quiesce.value.(stage := RefsDone, failed := held);
    var s := r.(quiesce := Some(q));
    EndSteps(rules, r, held);
    hide Step;
    hide Obeys;
    LeadsThree(rules, r, Drained, e, Finish);
    LeadsOne(rules, Record(s, q), Reopen);
    LeadsJoin(rules, r, [Drained, e, Finish], Record(s, q), [Reopen], Over(s));
  }

  lemma EndSteps(rules: Rules, r: Rail, held: bool)
    requires At(r, Canceled) && r.inflight == [] && r.queue == [] && !r.quiesce.value.failed
    requires held ==> r.quiesce.value.owner.Some?
    requires !held ==> NoTickets(r, r.quiesce.value.owner)
    ensures var e := if held then RefsHeld else RefsReleased;
            var q := r.quiesce.value.(stage := RefsDone, failed := held);
            var s := r.(quiesce := Some(q));
            && Step(Step(Step(r, Drained), e), Finish) == Record(s, q)
            && Obeys(rules, r, Drained) && Obeys(rules, Step(r, Drained), e)
            && Obeys(rules, Step(Step(r, Drained), e), Finish) && Obeys(rules, Record(s, q), Reopen)
  {
    hide Record;
    var e := if held then RefsHeld else RefsReleased;
    var q := r.quiesce.value.(stage := RefsDone, failed := held);
    var s := r.(quiesce := Some(q));
    RefsSteps(r, held);
    assert Step(s, Finish) == Record(s, q);
    hide Step;
    EndObeys(rules, r, Drained);
    EndObeys(rules, Step(r, Drained), e);
    EndObeys(rules, Step(Step(r, Drained), e), Finish);
    EndObeys(rules, Record(s, q), Reopen);
  }

  lemma EndObeys(rules: Rules, r: Rail, e: Event)
    requires e.Drained? || e.RefsHeld? || e.RefsReleased? || e.Finish? || e.Reopen?
    ensures Obeys(rules, r, e)
  {
  }

  lemma RefsSteps(r: Rail, held: bool)
    requires At(r, Canceled) && AllRetired(r) && !r.quiesce.value.failed
    requires if held then r.quiesce.value.owner.Some? else NoTickets(r, r.quiesce.value.owner)
    ensures Step(Step(r, Drained), if held then RefsHeld else RefsReleased)
         == r.(quiesce := Some(r.quiesce.value.(stage := RefsDone, failed := held)))
  {
    assert Step(r, Drained) == SetStage(r, Retired);
    hide AllRetired;
  }

  const CLEAN_BARRIER: BarrierResult := BarrierResult([], true, true)

  /** The rail after its quiesce failed with a thread still holding the path. */
  function LeftBehind(): Rail {
    Opened().(state := Quarantined, bindQp := None, lastError := true, rxMark := 1, txClosed := true,
              cur := Some(Qp(0, false, false, 1, false)), tickets := [Ticket(0, 1)])
  }

  const HELD_QUIESCE: seq<Event> :=
    OPEN + [Select] + [Begin(true), CloseTx, Cancel] + ([Drained, RefsHeld, Finish] + [Reopen])

  lemma FailsHeld(rules: Rules)
    ensures Leads(rules, Start(), HELD_QUIESCE, LeftBehind())
  {
    var r := Opened().(tickets := [Ticket(0, 1)]);
    Opens(rules);
    LeadsOne(rules, Opened(), Select);
    assert Step(Opened(), Select) == r;
    LeadsJoin(rules, Start(), OPEN, Opened(), [Select], r);
    Stops(rules, r, true);
    LeadsJoin(rules, Start(), OPEN + [Select], r, [Begin(true), CloseTx, Cancel], Stopped(r, true));
    Ends(rules, Stopped(r, true), true);
    HeldOutcome(r);
    LeadsJoin(rules, Start(), OPEN + [Select] + [Begin(true), CloseTx, Cancel], Stopped(r, true),
              [Drained, RefsHeld, Finish] + [Reopen], LeftBehind());
  }

  lemma HeldOutcome(r: Rail)
    requires r == Opened().(tickets := [Ticket(0, 1)])
    ensures var s := Stopped(r, true);
            Over(s.(quiesce := Some(s.quiesce.value.(stage := RefsDone, failed := true)))) == LeftBehind()
  {
  }

  /** Without the first rule: the quiesce of a module exit, which finds the rail quarantined, clears the error
      although a thread of epoch 1 still holds the path; the next session binds epoch 2, and the thread's
      packet is queued in it. */
  const EXIT_QUIESCE: seq<Event> :=
    HELD_QUIESCE + [Begin(false), CloseTx, Cancel] + ([Drained, RefsReleased, Finish] + [Reopen])
    + [BindQp(Some(7), true), Enqueue(0), RxFrame]

  lemma StopRuleNeeded(rules: Rules)
    requires !rules.stop
    ensures ObeyedRun(rules, EXIT_QUIESCE) && !IsolatedRun(EXIT_QUIESCE)
  {
    var r := LeftBehind();
    FailsHeld(rules);
    Stops(rules, r, false);
    LeadsJoin(rules, Start(), HELD_QUIESCE, r, [Begin(false), CloseTx, Cancel], Stopped(r, false));
    Ends(rules, Stopped(r, false), false);
    var s := r.(lastError := false);
    ExitOutcome(r);
    LeadsJoin(rules, Start(), HELD_QUIESCE + [Begin(false), CloseTx, Cancel], Stopped(r, false),
              [Drained, RefsReleased, Finish] + [Reopen], s);
    ExitEnd(rules, s);
    LeadsJoin(rules, Start(),
              HELD_QUIESCE + [Begin(false), CloseTx, Cancel] + ([Drained, RefsReleased, Finish] + [Reopen]),
              s, [BindQp(Some(7), true), Enqueue(0), RxFrame], ExitResult(s));
    Violates(rules, EXIT_QUIESCE);
  }

  lemma ExitOutcome(r: Rail)
    requires r == LeftBehind()
    ensures var s := Stopped(r, false);
            Over(s.(quiesce := Some(s.quiesce.value.(stage := RefsDone, failed := false)))) == r.(lastError := false)
  {
  }

  function ExitResult(s: Rail): Rail {
    Step(Step(Step(s, BindQp(Some(7), true)), Enqueue(0)), RxFrame)
  }

  lemma ExitEnd(rules: Rules, s: Rail)
    requires s == LeftBehind().(lastError := false)
    ensures Leads(rules, s, [BindQp(Some(7), true), Enqueue(0), RxFrame], ExitResult(s)) && !Apart(ExitResult(s))
  {
    LeadsThree(rules, s, BindQp(Some(7), true), Enqueue(0), RxFrame);
    assert ExitResult(s).queue == [1] && ExitResult(s).epoch == 2;
    assert ExitResult(s).queue[0] == 1;
  }

  /** The rail after a stall's quiesce ended with the barrier. */
  function Quarantine(): Rail {
    Opened().(state := Quarantined, bindQp := None, rxMark := 1, txClosed := true,
              cur := Some(Qp(0, false, false, 1, false)))
  }

  const SEND: seq<Event> := [Select, Enqueue(0), Submit]

  /** A frame of epoch 1 is submitted. */
  function Submitted(): Rail {
    Opened().(inflight := [1])
  }

  lemma Submits(rules: Rules)
    ensures Leads(rules, Opened(), SEND, Submitted())
  {
    hide Bind;
    hide Record;
    LeadsThree(rules, Opened(), Select, Enqueue(0), Submit);
    assert Step(Opened(), Select) == Opened().(tickets := [Ticket(0, 1)]);
    assert Step(Opened().(tickets := [Ticket(0, 1)]), Enqueue(0)) == Opened().(queue := [1]);
  }

  /** The frame stalls: the drain times out and the barrier cancels it. */
  const STALLED: seq<Event> :=
    OPEN + SEND + [Begin(false), CloseTx, Cancel] + [DrainTimesOut(CLEAN_BARRIER), RefsReleased, Finish] + [Reopen]

  lemma StallQuarantines(rules: Rules)
    ensures Leads(rules, Start(), STALLED, Quarantine())
  {
    var r := Submitted();
    var stop, drain := [Begin(false), CloseTx, Cancel], [DrainTimesOut(CLEAN_BARRIER), RefsReleased, Finish];
    Opens(rules);
    Submits(rules);
    LeadsJoin(rules, Start(), OPEN, Opened(), SEND, r);
    Stops(rules, r, false);
    LeadsJoin(rules, Start(), OPEN + SEND, r, stop, Stopped(r, false));
    var s := Barriered(Stopped(r, false));
    BarrierEnds(rules, r);
    LeadsJoin(rules, Start(), OPEN + SEND + stop, Stopped(r, false), drain, s);
    LeadsOne(rules, s, Reopen);
    BarrierOutcome(r);
    LeadsJoin(rules, Start(), OPEN + SEND + stop + drain, s, [Reopen], Quarantine());
  }

  function Barriered(r: Rail): Rail {
    Step(Step(Step(r, DrainTimesOut(CLEAN_BARRIER)), RefsReleased), Finish)
  }

  lemma BarrierEnds(rules: Rules, r: Rail)
    requires r == Submitted()
    ensures Leads(rules, Stopped(r, false), [DrainTimesOut(CLEAN_BARRIER), RefsReleased, Finish],
                  Barriered(Stopped(r, false)))
  {
    LeadsThree(rules, Stopped(r, false), DrainTimesOut(CLEAN_BARRIER), RefsReleased, Finish);
  }

  lemma BarrierOutcome(r: Rail)
    requires r == Submitted()
    ensures Step(Barriered(Stopped(r, false)), Reopen) == Quarantine()
  {
    hide Record;
    var s := Stopped(r, false);
    var q := s.quiesce.value.(stage := Retired, barrier := true, restart := true, failed := false);
    var empty := s.(inflight := []);
    BarrierStep(s);
    assert Step(empty.(quiesce := Some(q)), RefsReleased) == empty.(quiesce := Some(q.(stage := RefsDone)));
    BarrierRecord(empty, q.(stage := RefsDone));
  }

  lemma BarrierStep(s: Rail)
    requires s == Stopped(Submitted(), false)
    ensures var q := s.quiesce.value.(stage := Retired, barrier := true, restart := true, failed := false);
            Step(s, DrainTimesOut(CLEAN_BARRIER)) == s.(inflight := [], quiesce := Some(q))
  {
  }

  lemma BarrierRecord(s: Rail, q: Quiesce)
    requires s == Stopped(Opened(), false) && q == Quiesce(Some(0), false, false, RefsDone, false, true, true, false)
    ensures Step(Step(s.(quiesce := Some(q)), Finish), Reopen) == Quarantine()
  {
  }

  /** Without the second rule: a modify binds a new session while the quiesce of another modify is still
      running on the quarantined rail; that quiesce then fails, and the rail is quarantined with
      transmission open. */
  const LIFT_INSIDE: seq<Event> :=
    STALLED + [Begin(true), CloseTx, Cancel] + [BindQp(Some(7), true)] + [Drained, RefsHeld, Finish]

  lemma LiftRuleNeeded(rules: Rules)
    requires !rules.lift
    ensures ObeyedRun(rules, LIFT_INSIDE) && !IsolatedRun(LIFT_INSIDE)
  {
    var r := Quarantine();
    var stop := [Begin(true), CloseTx, Cancel];
    StallQuarantines(rules);
    Stops(rules, r, true);
    LeadsJoin(rules, Start(), STALLED, r, stop, Stopped(r, true));
    var s := LiftedInside();
    LeadsOne(rules, Stopped(r, true), BindQp(Some(7), true));
    LiftStep();
    LeadsJoin(rules, Start(), STALLED + stop, Stopped(r, true), [BindQp(Some(7), true)], s);
    LiftEnd(rules, s);
    LeadsJoin(rules, Start(), STALLED + stop + [BindQp(Some(7), true)], s, [Drained, RefsHeld, Finish], LiftResult(s));
    Violates(rules, LIFT_INSIDE);
  }

  function LiftResult(s: Rail): Rail {
    Step(Step(Step(s, Drained), RefsHeld), Finish)
  }

  /** Epoch 2 owns the rail although the quiesce of epoch 1 has canceled what was queued. */
  function LiftedInside(): Rail {
    Opened().(state := Bound, bindQp := Some(0), epoch := 2, remote := Some(7), rxMark := 1, txClosed := false,
              cur := Some(Qp(0, false, true, 2, false)),
              quiesce := Some(Quiesce(Some(0), false, true, Canceled, false, false, false, false)))
  }

  lemma LiftStep()
    ensures Step(Stopped(Quarantine(), true), BindQp(Some(7), true)) == LiftedInside()
  {
  }

  lemma LiftEnd(rules: Rules, s: Rail)
    requires s == LiftedInside()
    ensures Leads(rules, s, [Drained, RefsHeld, Finish], LiftResult(s)) && !Apart(LiftResult(s))
  {
    LiftObeys(rules, s);
    LiftOutcome(s);
    hide Step;
    hide Obeys;
    hide Apart;
    LeadsThree(rules, s, Drained, RefsHeld, Finish);
  }

  lemma LiftObeys(rules: Rules, s: Rail)
    requires s == LiftedInside()
    ensures Obeys(rules, s, Drained) && Obeys(rules, Step(s, Drained), RefsHeld)
    ensures Obeys(rules, Step(Step(s, Drained), RefsHeld), Finish)
  {
    hide Step;
  }

  lemma LiftOutcome(s: Rail)
    requires s == LiftedInside()
    ensures !Apart(LiftResult(s))
  {
    var retired := SetStage(s, Retired);
    LiftDrained(s);
    var over := s.(quiesce := Some(s.quiesce.value.(stage := RefsDone, failed := true)));
    LiftHeld(s);
    LiftFinished(over);
    hide Step;
  }

  lemma LiftDrained(s: Rail)
    requires s == LiftedInside()
    ensures Step(s, Drained) == SetStage(s, Retired)
  {
    hide Bind;
    hide QpStep;
    hide Barrier;
    hide Unbind;
    hide QuiesceBegin;
    hide Possible;
    hide Record;
  }

  lemma LiftHeld(s: Rail)
    requires s == LiftedInside()
    ensures Step(SetStage(s, Retired), RefsHeld)
         == s.(quiesce := Some(s.quiesce.value.(stage := RefsDone, failed := true)))
  {
    hide Bind;
    hide QpStep;
    hide Barrier;
    hide Unbind;
    hide QuiesceBegin;
    hide Possible;
    hide Record;
  }

  lemma LiftFinished(over: Rail)
    requires At(over, RefsDone) && over.quiesce.value.failed && !over.txClosed
    ensures !Apart(Step(over, Finish))
  {
    hide Bind;
    hide QpStep;
    hide Barrier;
    hide Unbind;
    hide QuiesceBegin;
    hide Possible;
    assert Step(over, Finish).state == Quarantined && !Step(over, Finish).txClosed;
  }

  /** Without the third rule: after the quiesce of one modify another modify binds epoch 2 and sends; the
      first one's unbind then releases the rail without a quiesce, and epoch 3 begins on the packet of
      epoch 2. */
  const LATE_UNBIND: seq<Event> :=
    OPEN + [Begin(true), CloseTx, Cancel] + ([Drained, RefsReleased, Finish] + [Reopen])
    + [BindQp(None, true), Select, Enqueue(0)] + [UnbindQp, BindQp(None, true), RxFrame]

  lemma UnbindRuleNeeded(rules: Rules)
    requires !rules.unbind
    ensures ObeyedRun(rules, LATE_UNBIND) && !IsolatedRun(LATE_UNBIND)
  {
    var r := Opened();
    var stop, end := [Begin(true), CloseTx, Cancel], [Drained, RefsReleased, Finish] + [Reopen];
    Opens(rules);
    Stops(rules, r, true);
    LeadsJoin(rules, Start(), OPEN, r, stop, Stopped(r, true));
    Ends(rules, Stopped(r, true), false);
    var s := r.(state := Unbound, bindQp := None, cur := Some(Qp(0, false, false, 1, false)));
    CleanOutcome(r);
    LeadsJoin(rules, Start(), OPEN + stop, Stopped(r, true), end, s);
    var t := Step(Step(Step(s, BindQp(None, true)), Select), Enqueue(0));
    LeadsThree(rules, s, BindQp(None, true), Select, Enqueue(0));
    LeadsJoin(rules, Start(), OPEN + stop + end, s, [BindQp(None, true), Select, Enqueue(0)], t);
    QueuedIs();
    UnbindEnd(rules);
    LeadsJoin(rules, Start(), OPEN + stop + end + [BindQp(None, true), Select, Enqueue(0)], t,
              [UnbindQp, BindQp(None, true), RxFrame], UnbindResult(t));
    Violates(rules, LATE_UNBIND);
  }

  lemma CleanOutcome(r: Rail)
    requires r == Opened()
    ensures var s := Stopped(r, true);
            Over(s.(quiesce := Some(s.quiesce.value.(stage := RefsDone, failed := false))))
              == r.(state := Unbound, bindQp := None, cur := Some(Qp(0, false, false, 1, false)))
  {
  }

  function UnbindResult(t: Rail): Rail {
    Step(Step(Step(t, UnbindQp), BindQp(None, true)), RxFrame)
  }

  /** Epoch 2 owns the rail and has queued a packet. */
  function Queued(): Rail {
    Opened().(epoch := 2, cur := Some(Qp(0, false, true, 2, false)), queue := [2])
  }

  lemma QueuedIs()
    ensures var s := Opened().(state := Unbound, bindQp := None, cur := Some(Qp(0, false, false, 1, false)));
            Step(Step(Step(s, BindQp(None, true)), Select), Enqueue(0)) == Queued()
  {
    hide QpStep;
    hide Barrier;
    hide Record;
    hide QuiesceBegin;
    hide Possible;
    var s := Opened().(state := Unbound, bindQp := None, cur := Some(Qp(0, false, false, 1, false)));
    var t := Step(s, BindQp(None, true));
    assert t == Queued().(queue := []);
    assert Step(t, Select) == t.(tickets := [Ticket(0, 2)]);
  }

  lemma UnbindEnd(rules: Rules)
    requires !rules.unbind
    ensures Leads(rules, Queued(), [UnbindQp, BindQp(None, true), RxFrame], UnbindResult(Queued()))
    ensures !Apart(UnbindResult(Queued()))
  {
    hide QpStep;
    hide Barrier;
    hide Record;
    hide QuiesceBegin;
    hide Possible;
    LeadsThree(rules, Queued(), UnbindQp, BindQp(None, true), RxFrame);
    assert UnbindResult(Queued()).queue[0] == 2 && UnbindResult(Queued()).epoch == 3;
  }

  /** The rules are exact: with a set of rules kept, every run is isolated if and only if the set has all
      three of them. */
  lemma RulesExact(rules: Rules)
    ensures (forall events :: ObeyedRun(rules, events) ==> IsolatedRun(events))
       <==> rules.stop && rules.lift && rules.unbind
  {
    hide IsolatedRun;
    hide ObeyedRun;
    if rules == ALL {
      forall events | ObeyedRun(rules, events) ensures IsolatedRun(events) {
        Isolation(events);
      }
    }
    if !rules.stop {
      StopRuleNeeded(rules);
    }
    if !rules.lift {
      LiftRuleNeeded(rules);
    }
    if !rules.unbind {
      UnbindRuleNeeded(rules);
    }
  }
}
