/** The pending sends and reads of a reliable-connected queue pair (kernel/ibdev.c): ordered completion,
    the send-queue slots they hold, receiver-not-ready and time-out retries, and the flush on error. */
module SendQueue {
  import opened Prelude
  import opened Psn
  import opened Lists

  const EAGAIN: int := -11
  const EIO: int := -5
  const ETIMEDOUT: int := -110
  const ECANCELED: int := -125

  /** struct tbv_send_ctx; `maxRnr` is None when receiver-not-ready is retried for ever. */
  datatype Ctx = Ctx(psn: psn, counted: bool, ready: bool, status: int, completed: bool, rnrWaiting: bool,
                     retrying: bool, rnrRetries: nat, maxRnr: Option<nat>, retries: nat, maxRetries: nat)

  /** Contexts by the order of their posting; the ids pending in list order; those taken off the list and
      not yet completed; the completions so far; and the ids whose posting failed. */
  datatype Lane = Lane(ctxs: seq<Ctx>, pending: seq<nat>, limbo: seq<nat>, done: seq<(nat, int)>, withdrawn: seq<nat>)

  /** A lane and the count of send-queue slots in use. */
  datatype Held = Held(lane: Lane, count: nat)

  ghost predicate InRange(l: Lane) {
    && (forall i :: 0 <= i < |l.pending| ==> l.pending[i] < |l.ctxs|)
    && (forall i :: 0 <= i < |l.limbo| ==> l.limbo[i] < |l.ctxs|)
  }

  // ---------------------------------------------------------------- steps of a lane

  /** tbv_qp_release_sendq_counted_locked. */
  function Release(c: Ctx, count: nat): (r: (Ctx, nat)) {
    if !c.counted then (c, count) else (c.(counted := false), if count == 0 then 0 else count - 1)
  }

  /** The first status of a context sticks. */
  function MarkReady(c: Ctx, status: int): Ctx {
    if c.ready then c else c.(ready := true, status := status, retrying := false, rnrWaiting := false)
  }

  /** A new context at the end of the list, holding a slot. */
  function Enqueue(h: Held, p: psn, maxRnr: Option<nat>, maxRetries: nat): Held {
    var l := h.lane;
    Held(l.(ctxs := l.ctxs + [Ctx(p, true, false, 0, false, false, false, 0, maxRnr, 0, maxRetries)],
            pending := l.pending + [|l.ctxs|]),
         h.count + 1)
  }

  function Update(l: Lane, id: nat, c: Ctx): Lane
    requires id < |l.ctxs|
  {
    l.(ctxs := l.ctxs[id := c])
  }

  /** The context at place i leaves the list and gives its slot back. */
  function Leave(h: Held, i: nat): (r: Held)
    requires InRange(h.lane) && i < |h.lane.pending|
  {
    var l := h.lane;
    var id := l.pending[i];
    var (c, count) := Release(l.ctxs[id].(retrying := false, rnrWaiting := false), h.count);
    Held(Update(l, id, c).(pending := Without(l.pending, i)), count)
  }

  function ToLimbo(h: Held, i: nat): (r: Held)
    requires InRange(h.lane) && i < |h.lane.pending|
    ensures InRange(r.lane) && |r.lane.pending| == |h.lane.pending| - 1
  {
    var s := Leave(h, i);
    Held(s.lane.(limbo := s.lane.limbo + [h.lane.pending[i]]), s.count)
  }

  function Withdraw(h: Held, i: nat): (r: Held)
    requires InRange(h.lane) && i < |h.lane.pending|
    ensures InRange(r.lane)
  {
    var s := Leave(h, i);
    Held(s.lane.(withdrawn := s.lane.withdrawn + [h.lane.pending[i]]), s.count)
  }

  /** tbv_qp_drain_ready_sends_locked. */
  function Drain(h: Held): (r: Held)
    requires InRange(h.lane)
    ensures InRange(r.lane)
    decreases |h.lane.pending|
  {
    if h.lane.pending == [] || !h.lane.ctxs[h.lane.pending[0]].ready then h else Drain(ToLimbo(h, 0))
  }

  /** The place of the first pending context with a PSN, or the length of the list. */
  function Find(l: Lane, p: psn, from: nat): (i: nat)
    requires InRange(l) && from <= |l.pending|
    ensures from <= i <= |l.pending|
    decreases |l.pending| - from
  {
    if from == |l.pending| || l.ctxs[l.pending[from]].psn == p then from else Find(l, p, from + 1)
  }

  function ReadyAt(l: Lane, i: nat, status: int): (r: Lane)
    requires InRange(l) && i < |l.pending|
    ensures InRange(r) && r.pending == l.pending
  {
    Update(l, l.pending[i], MarkReady(l.ctxs[l.pending[i]], status))
  }

  /** A context gets its status, and whatever is ready at the head of the list leaves. */
  function Settle(h: Held, i: nat, status: int): (r: Held)
    requires InRange(h.lane) && i < |h.lane.pending|
    ensures InRange(r.lane)
  {
    Drain(Held(ReadyAt(h.lane, i, status), h.count))
  }

  /** tbv_qp_complete_send_ordered. */
  function CompleteOrdered(h: Held, p: psn, status: int): (r: Held)
    requires InRange(h.lane)
    ensures InRange(r.lane)
  {
    var i := Find(h.lane, p, 0);
    if i == |h.lane.pending| then h else Settle(h, i, status)
  }

  predicate RnrExhausted(c: Ctx) {
    c.maxRnr.Some? && c.rnrRetries >= c.maxRnr.value
  }

  /** tbv_qp_note_rnr_ack. */
  function NoteRnr(h: Held, p: psn, error: bool): (r: Held)
    requires InRange(h.lane)
    ensures InRange(r.lane)
  {
    var i := Find(h.lane, p, 0);
    if i == |h.lane.pending| then h
    else
      var id := h.lane.pending[i];
      var c := h.lane.ctxs[id];
      if RnrExhausted(c) || error then Settle(h, i, EAGAIN)
      else Held(Update(h.lane, id, c.(rnrWaiting := true, retrying := false)), h.count)
  }

  /** tbv_qp_timeout_reap_tx for one pending send whose timer has run out: it is retried, waits, or fails.
      `busy` says that frames of it are still being transmitted, `final` that its full time has passed. */
  function Expire(h: Held, i: nat, error: bool, busy: bool, final: bool): (r: Held)
    requires InRange(h.lane)
    ensures InRange(r.lane)
  {
    if i >= |h.lane.pending| then h
    else
      var id := h.lane.pending[i];
      var c := h.lane.ctxs[id];
      if c.ready then h
      else if c.rnrWaiting then
        if !c.retrying && !busy && !RnrExhausted(c) && !error then
          Held(Update(h.lane, id, c.(retrying := true, rnrWaiting := false)), h.count)
        else Settle(h, i, EAGAIN)
      else if busy || (c.maxRetries > 0 && c.retrying && !final) then h
      else if !c.retrying && c.retries < c.maxRetries && !error then
        Held(Update(h.lane, id, c.(retrying := true)), h.count)
      else Settle(h, i, ETIMEDOUT)
  }

  /** The outcome of posting a retry: posted, -ENOMEM, -ENOTCONN, or another error. */
  datatype PostResult = Posts | NoMemory | NotConnected | Failed

  function Capped(n: nat): nat {
    if n < 255 then n + 1 else n
  }

  /** What posting a retry leaves of its context, unless it fails for good. */
  function AfterPost(c: Ctx, rnr: bool, result: PostResult): Ctx {
    match result
    case Posts => if rnr then c.(rnrRetries := Capped(c.rnrRetries)) else c.(retries := Capped(c.retries))
    case NoMemory => c.(retrying := false)
    case NotConnected => c.(retries := Capped(c.retries), retrying := false)
    case Failed => c
  }

  /** The retry loop of tbv_qp_timeout_work for one send. */
  function Retried(h: Held, i: nat, rnr: bool, result: PostResult, error: bool): (r: Held)
    requires InRange(h.lane)
    ensures InRange(r.lane)
  {
    if i >= |h.lane.pending| then h
    else
      var id := h.lane.pending[i];
      var c := h.lane.ctxs[id];
      if error || c.completed then Held(Update(h.lane, id, c.(retrying := false)), h.count)
      else if result == Failed then Settle(h, i, ETIMEDOUT)
      else Held(Update(h.lane, id, AfterPost(c, rnr, result)), h.count)
  }

  /** tbv_send_tx_done without error: the last frame of a send has left. */
  function TxDrained(h: Held, i: nat): (r: Held)
    requires InRange(h.lane)
    ensures InRange(r.lane)
  {
    if i >= |h.lane.pending| then h
    else
      var id := h.lane.pending[i];
      Held(Update(h.lane, id, h.lane.ctxs[id].(retrying := false)), h.count)
  }

  function Flushed(c: Ctx, force: bool): Ctx {
    if force then c.(ready := true, status := ECANCELED) else MarkReady(c, ECANCELED)
  }

  /** tbv_qp_flush_sends and, with `force`, tbv_qp_flush_reads: everything leaves the list. */
  function Flush(h: Held, force: bool): (r: Held)
    requires InRange(h.lane)
    ensures InRange(r.lane)
    decreases |h.lane.pending|
  {
    if h.lane.pending == [] then h
    else
      var id := h.lane.pending[0];
      Flush(ToLimbo(Held(Update(h.lane, id, Flushed(h.lane.ctxs[id], force)), h.count), 0), force)
  }

  /** A pending read without a status times out by itself, out of order. */
  function GiveUp(h: Held, i: nat): (r: Held)
    requires InRange(h.lane)
    ensures InRange(r.lane)
  {
    if i >= |h.lane.pending| || h.lane.ctxs[h.lane.pending[i]].ready then h
    else
      var id := h.lane.pending[i];
      ToLimbo(Held(Update(h.lane, id, h.lane.ctxs[id].(ready := true, status := ETIMEDOUT)), h.count), i)
  }

  /** tbv_send_complete for one context taken off the list. */
  function Complete(l: Lane, i: nat): (r: Lane)
    requires InRange(l)
    ensures InRange(r)
  {
    if i >= |l.limbo| then l
    else
      var id := l.limbo[i];
      var c := l.ctxs[id];
      var s := l.(limbo := Without(l.limbo, i));
      if c.completed then s else Update(s, id, c.(completed := true)).(done := l.done + [(id, c.status)])
  }

  // ---------------------------------------------------------------- the queue pair

  datatype Qp = Qp(maxWr: nat, error: bool, count: nat, sendLane: Lane, readLane: Lane, nextPsn: psn)

  datatype Event =
    | PostSend(maxRnr: Option<nat>, maxRetries: nat, posted: bool)
    | PostRead(posted: bool)
    | Ack(psn: psn, status: int)
    | AckRnr(psn: psn)
    | TxFailed(psn: psn, status: int)
    | SendExpires(i: nat, busy: bool, final: bool)
    | SendRetried(i: nat, rnr: bool, result: PostResult)
    | SendDrained(i: nat)
    | ReadDone(i: nat, status: int)
    | ReadExpires(i: nat)
    | Error
    | FlushSendList
    | FlushReadList
    | FinishSend(i: nat)
    | FinishRead(i: nat)

  ghost predicate Sound(q: Qp) {
    InRange(q.sendLane) && InRange(q.readLane)
  }

  /** tbv_qp_reserve_sendq succeeds. */
  predicate CanPost(q: Qp) {
    !q.error && q.count < q.maxWr
  }

  function Posted(h: Held, p: psn, maxRnr: Option<nat>, maxRetries: nat, posted: bool): (r: Held)
    requires InRange(h.lane)
    ensures InRange(r.lane)
  {
    var s := Enqueue(h, p, maxRnr, maxRetries);
    if posted then s else Withdraw(s, |h.lane.pending|)
  }

  function WithSends(q: Qp, h: Held): Qp { q.(sendLane := h.lane, count := h.count) }

  function WithReads(q: Qp, h: Held): Qp { q.(readLane := h.lane, count := h.count) }

  function Sends(q: Qp): Held { Held(q.sendLane, q.count) }

  function Reads(q: Qp): Held { Held(q.readLane, q.count) }

  function Step(q: Qp, e: Event): (r: Qp)
    requires Sound(q)
    ensures Sound(r)
  {
    match e
    case PostSend(maxRnr, maxRetries, posted) =>
      if !CanPost(q) then q
      else WithSends(q, Posted(Sends(q), q.nextPsn, maxRnr, maxRetries, posted)).(nextPsn := PsnNext(q.nextPsn))
    case PostRead(posted) =>
      if !CanPost(q) then q
      else WithReads(q, Posted(Reads(q), q.nextPsn, None, 0, posted)).(nextPsn := PsnNext(q.nextPsn))
    case Ack(p, status) => WithSends(q, CompleteOrdered(Sends(q), p, status))
    case AckRnr(p) => WithSends(q, NoteRnr(Sends(q), p, q.error))
    case TxFailed(p, status) => WithSends(q, CompleteOrdered(Sends(q), p, status))
    case SendExpires(i, busy, final) => WithSends(q, Expire(Sends(q), i, q.error, busy, final))
    case SendRetried(i, rnr, result) => WithSends(q, Retried(Sends(q), i, rnr, result, q.error))
    case SendDrained(i) => WithSends(q, TxDrained(Sends(q), i))
    case ReadDone(i, status) => if i >= |q.readLane.pending| then q else WithReads(q, Settle(Reads(q), i, status))
    case ReadExpires(i) => WithReads(q, GiveUp(Reads(q), i))
    case Error => q.(error := true)
    case FlushSendList => if q.error then WithSends(q, Flush(Sends(q), false)) else q
    case FlushReadList => if q.error then WithReads(q, Flush(Reads(q), true)) else q
    case FinishSend(i) => q.(sendLane := Complete(q.sendLane, i))
    case FinishRead(i) => q.(readLane := Complete(q.readLane, i))
  }

  function Start(maxWr: nat, first: psn): Qp {
    Qp(maxWr, false, 0, Lane([], [], [], [], []), Lane([], [], [], [], []), first)
  }

  function Run(q: Qp, events: seq<Event>): (r: Qp)
    requires Sound(q)
    ensures Sound(r)
  {
    if events == [] then q else Step(Run(q, events[..|events| - 1]), events[|events| - 1])
  }

  // ---------------------------------------------------------------- where every context is

  function Ids(done: seq<(nat, int)>): (r: seq<nat>)
    ensures |r| == |done| && forall i :: 0 <= i < |r| ==> r[i] == done[i].0
  {
    seq(|done|, i requires 0 <= i < |done| => done[i].0)
  }

  /** Every place a context can be in. */
  ghost function Places(l: Lane): multiset<nat> {
    multiset(l.pending) + multiset(l.limbo) + multiset(Ids(l.done)) + multiset(l.withdrawn)
  }

  /** Every context is in exactly one place; the pending ones are in the order of posting and are exactly
      those holding a slot; the completed ones are exactly those with a completion. */
  ghost predicate Placed(l: Lane) {
    InRange(l) && OnePlace(l)
  }

  ghost predicate OnePlace(l: Lane)
    requires InRange(l)
  {
    && (forall id: nat :: Places(l)[id] == if id < |l.ctxs| then 1 else 0)
    && (forall i, j :: 0 <= i < j < |l.pending| ==> l.pending[i] < l.pending[j])
    && (forall id :: 0 <= id < |l.ctxs| ==> (l.ctxs[id].counted <==> id in l.pending))
    && (forall id :: 0 <= id < |l.ctxs| ==> (l.ctxs[id].completed <==> id in Ids(l.done)))
  }

  ghost predicate Inv(q: Qp) {
    Placed(q.sendLane) && Placed(q.readLane) && q.count == |q.sendLane.pending| + |q.readLane.pending| <= q.maxWr
  }

  lemma MsWithout<T>(s: seq<T>, i: nat)
    requires i < |s|
    ensures multiset(s) == multiset(Without(s, i)) + multiset{s[i]}
  {
    assert s == s[..i] + [s[i]] + s[i + 1..];
  }

  lemma IdsAppend(done: seq<(nat, int)>, d: (nat, int))
    ensures Ids(done + [d]) == Ids(done) + [d.0]
  {
  }

  ghost predicate Increasing(s: seq<nat>) {
    forall i, j :: 0 <= i < j < |s| ==> s[i] < s[j]
  }

  /** A placed lane whose slots, with those of the other lane, are all the slots in use. */
  ghost predicate Good(h: Held, others: nat) {
    Placed(h.lane) && h.count == |h.lane.pending| + others
  }

  lemma EnqueueGood(h: Held, p: psn, maxRnr: Option<nat>, maxRetries: nat, others: nat)
    requires Good(h, others)
    ensures Good(Enqueue(h, p, maxRnr, maxRetries), others)
  {
    var l, m := h.lane, Enqueue(h, p, maxRnr, maxRetries).lane;
    assert Places(m) == Places(l) + multiset{|l.ctxs|};
    forall id | 0 <= id < |m.ctxs|
      ensures (m.ctxs[id].counted <==> id in m.pending) && (m.ctxs[id].completed <==> id in Ids(m.done))
    {
      if id == |l.ctxs| {
        assert Places(l)[id] == 0;
        assert m.pending[|l.pending|] == id;
      } else {
        assert id in m.pending <==> id in l.pending;
      }
    }
  }

  /** A change of a context that neither gives up its slot nor completes it. */
  lemma UpdateGood(h: Held, id: nat, c: Ctx, others: nat)
    requires Good(h, others) && id < |h.lane.ctxs|
    requires c.counted == h.lane.ctxs[id].counted && c.completed == h.lane.ctxs[id].completed
    ensures Good(Held(Update(h.lane, id, c), h.count), others)
  {
    assert Places(Update(h.lane, id, c)) == Places(h.lane);
  }

  lemma IncreasingWithout(s: seq<nat>, i: nat)
    requires Increasing(s) && i < |s|
    ensures Increasing(Without(s, i)) && forall x :: x in Without(s, i) <==> x in s && x != s[i]
  {
    var t := Without(s, i);
    forall x ensures x in t <==> x in s && x != s[i] {
      if x in s && x != s[i] {
        var k :| 0 <= k < |s| && s[k] == x;
        assert t[if k < i then k else k - 1] == x;
      }
    }
  }

  /** What leaving the list does to the slots and to the list. */
  lemma LeaveFacts(h: Held, i: nat, others: nat)
    requires Good(h, others) && i < |h.lane.pending|
    ensures var l, m := h.lane, Leave(h, i).lane;
            && Leave(h, i).count == |m.pending| + others && |m.ctxs| == |l.ctxs| && InRange(m)
            && m.limbo == l.limbo && m.done == l.done && m.withdrawn == l.withdrawn
            && multiset(l.pending) == multiset(m.pending) + multiset{l.pending[i]}
            && Increasing(m.pending)
            && (forall id :: 0 <= id < |m.ctxs| ==> (m.ctxs[id].counted <==> id in m.pending))
            && (forall id :: 0 <= id < |m.ctxs| ==> (m.ctxs[id].completed <==> id in Ids(m.done)))
  {
    hide Places;
    var l := h.lane;
    MsWithout(l.pending, i);
    IncreasingWithout(l.pending, i);
    assert l.ctxs[l.pending[i]].counted;
    hide Without;
  }

  lemma ToLimboGood(h: Held, i: nat, others: nat)
    requires Good(h, others) && i < |h.lane.pending|
    ensures Good(ToLimbo(h, i), others)
  {
    hide Leave;
    LeaveFacts(h, i, others);
    assert Places(ToLimbo(h, i).lane) == Places(h.lane);
  }

  lemma WithdrawGood(h: Held, i: nat, others: nat)
    requires Good(h, others) && i < |h.lane.pending|
    ensures Good(Withdraw(h, i), others)
  {
    hide Leave;
    LeaveFacts(h, i, others);
    assert Places(Withdraw(h, i).lane) == Places(h.lane);
  }

  lemma {:induction false} DrainGood(h: Held, others: nat)
    requires Good(h, others)
    ensures Good(Drain(h), others)
    decreases |h.lane.pending|
  {
    if h.lane.pending != [] && h.lane.ctxs[h.lane.pending[0]].ready {
      ToLimboGood(h, 0, others);
      DrainGood(ToLimbo(h, 0), others);
    }
  }

  lemma SettleGood(h: Held, i: nat, status: int, others: nat)
    requires Good(h, others) && i < |h.lane.pending|
    ensures Good(Settle(h, i, status), others)
  {
    var id := h.lane.pending[i];
    UpdateGood(h, id, MarkReady(h.lane.ctxs[id], status), others);
    DrainGood(Held(ReadyAt(h.lane, i, status), h.count), others);
  }

  lemma {:induction false} FlushGood(h: Held, force: bool, others: nat)
    requires Good(h, others)
    ensures Good(Flush(h, force), others) && Flush(h, force).lane.pending == []
    decreases |h.lane.pending|
  {
    if h.lane.pending != [] {
      var id := h.lane.pending[0];
      var c := Flushed(h.lane.ctxs[id], force);
      var s := Held(Update(h.lane, id, c), h.count);
      UpdateGood(h, id, c, others);
      ToLimboGood(s, 0, others);
      FlushGood(ToLimbo(s, 0), force, others);
    }
  }

  lemma CompletePlaced(l: Lane, i: nat)
    requires Placed(l)
    ensures Placed(Complete(l, i)) && Complete(l, i).pending == l.pending
    ensures i < |l.limbo| ==> Complete(l, i).done == l.done + [(l.limbo[i], l.ctxs[l.limbo[i]].status)]
  {
    if i < |l.limbo| {
      var id, m := l.limbo[i], Complete(l, i);
      MsWithout(l.limbo, i);
      assert id !in Ids(l.done) by {
        assert Places(l)[id] == 1 && multiset(l.limbo)[id] >= 1;
        assert multiset(Ids(l.done))[id] == 0;
      }
      IdsAppend(l.done, (id, l.ctxs[id].status));
      assert Places(m) == Places(l);
      forall x | 0 <= x < |m.ctxs| ensures m.ctxs[x].completed <==> x in Ids(m.done) {
        assert x in Ids(m.done) <==> x == id || x in Ids(l.done);
      }
    }
  }

  lemma PostedGood(h: Held, p: psn, maxRnr: Option<nat>, maxRetries: nat, posted: bool, others: nat)
    requires Good(h, others)
    ensures Good(Posted(h, p, maxRnr, maxRetries, posted), others)
    ensures Posted(h, p, maxRnr, maxRetries, posted).count <= h.count + 1
  {
    hide OnePlace;
    EnqueueGood(h, p, maxRnr, maxRetries, others);
    if !posted {
      WithdrawGood(Enqueue(h, p, maxRnr, maxRetries), |h.lane.pending|, others);
    }
  }

  /** No step but a post takes more slots. */
  ghost predicate Shrinks(h: Held, s: Held) {
    |s.lane.pending| <= |h.lane.pending|
  }

  lemma {:induction false} DrainShrinks(h: Held)
    requires InRange(h.lane)
    ensures Shrinks(h, Drain(h))
    decreases |h.lane.pending|
  {
    if h.lane.pending != [] && h.lane.ctxs[h.lane.pending[0]].ready {
      DrainShrinks(ToLimbo(h, 0));
    }
  }

  lemma SettleBoth(h: Held, i: nat, status: int, others: nat)
    requires Good(h, others) && i < |h.lane.pending|
    ensures Good(Settle(h, i, status), others) && Shrinks(h, Settle(h, i, status))
  {
    SettleGood(h, i, status, others);
    DrainShrinks(Held(ReadyAt(h.lane, i, status), h.count));
  }

  lemma SendStepGood(q: Qp, e: Event)
    requires Inv(q) && (e.Ack? || e.AckRnr? || e.TxFailed? || e.SendExpires? || e.SendRetried? || e.SendDrained?)
    ensures Inv(Step(q, e))
  {
    hide OnePlace;
    hide Settle;
    var h, others := Sends(q), |q.readLane.pending|;
    if e.Ack? || e.AckRnr? || e.TxFailed? {
      var i := Find(q.sendLane, e.psn, 0);
      if i < |q.sendLane.pending| {
        SendAtGood(q, e, i);
      }
    } else if e.i < |q.sendLane.pending| {
      SendAtGood(q, e, e.i);
    }
  }

  /** Whatever happens to the send at place i: it is updated in its place, or it settles. */
  lemma SendAtGood(q: Qp, e: Event, i: nat)
    requires Inv(q) && i < |q.sendLane.pending|
    requires ((e.Ack? || e.AckRnr? || e.TxFailed?) && i == Find(q.sendLane, e.psn, 0))
          || ((e.SendExpires? || e.SendRetried? || e.SendDrained?) && i == e.i)
    ensures Inv(Step(q, e))
  {
    hide OnePlace;
    hide Settle;
    hide Find;
    var h, others := Sends(q), |q.readLane.pending|;
    var id := q.sendLane.pending[i];
    var c := q.sendLane.ctxs[id];
    SettleBoth(h, i, if e.Ack? || e.TxFailed? then e.status else if e.AckRnr? then EAGAIN
                     else if e.SendRetried? then ETIMEDOUT else if c.rnrWaiting then EAGAIN else ETIMEDOUT, others);
    if e.AckRnr? {
      UpdateGood(h, id, c.(rnrWaiting := true, retrying := false), others);
    } else if e.SendExpires? {
      UpdateGood(h, id, c.(retrying := true, rnrWaiting := false), others);
      UpdateGood(h, id, c.(retrying := true), others);
    } else if e.SendRetried? {
      UpdateGood(h, id, AfterPost(c, e.rnr, e.result), others);
      UpdateGood(h, id, c.(retrying := false), others);
    } else if e.SendDrained? {
      UpdateGood(h, id, c.(retrying := false), others);
    }
  }

  lemma StepGood(q: Qp, e: Event)
    requires Inv(q)
    ensures Inv(Step(q, e))
  {
    hide OnePlace;
    hide Settle;
    hide Flush;
    hide Complete;
    hide Posted;
    var s, r := |q.sendLane.pending|, |q.readLane.pending|;
    match e
    case PostSend(maxRnr, maxRetries, posted) => PostedGood(Sends(q), q.nextPsn, maxRnr, maxRetries, posted, r);
    case PostRead(posted) => PostedGood(Reads(q), q.nextPsn, None, 0, posted, s);
    case ReadDone(i, status) => if i < r { SettleBoth(Reads(q), i, status, s); }
    case ReadExpires(i) =>
      if i < r && !q.readLane.ctxs[q.readLane.pending[i]].ready {
        var id := q.readLane.pending[i];
        var c := q.readLane.ctxs[id].(ready := true, status := ETIMEDOUT);
        UpdateGood(Reads(q), id, c, s);
        ToLimboGood(Held(Update(q.readLane, id, c), q.count), i, s);
      }
    case Error =>
    case FlushSendList => FlushGood(Sends(q), false, r);
    case FlushReadList => FlushGood(Reads(q), true, s);
    case FinishSend(i) => CompletePlaced(q.sendLane, i);
    case FinishRead(i) => CompletePlaced(q.readLane, i);
    case _ => SendStepGood(q, e);
  }

  /** In every run: each send and read that was accepted is in exactly one place, so it completes at most
      once; the slots in use are exactly those of the sends and reads still pending, and stay within
      max_send_wr. */
  lemma {:induction false} SlotsExact(maxWr: nat, first: psn, events: seq<Event>)
    ensures var q := Run(Start(maxWr, first), events);
            && Inv(q) && q.maxWr == maxWr && q.count == |q.sendLane.pending| + |q.readLane.pending| <= maxWr
            && (forall id :: multiset(Ids(q.sendLane.done))[id] <= 1 && multiset(Ids(q.readLane.done))[id] <= 1)
  {
    hide Step;
    if events != [] {
      SlotsExact(maxWr, first, events[..|events| - 1]);
      StepGood(Run(Start(maxWr, first), events[..|events| - 1]), events[|events| - 1]);
      StepMaxWr(Run(Start(maxWr, first), events[..|events| - 1]), events[|events| - 1]);
    }
    var q := Run(Start(maxWr, first), events);
    AtMostOnce(q.sendLane);
    AtMostOnce(q.readLane);
  }

  lemma StepMaxWr(q: Qp, e: Event)
    requires Sound(q)
    ensures Step(q, e).maxWr == q.maxWr
  {
  }

  lemma AtMostOnce(l: Lane)
    requires Placed(l)
    ensures forall id :: multiset(Ids(l.done))[id] <= 1
  {
    forall id ensures multiset(Ids(l.done))[id] <= 1 {
      assert Places(l)[id] <= 1;
    }
  }

  // ---------------------------------------------------------------- order

  /** The sends that were accepted and not withdrawn, as completed, leaving and pending. */
  ghost function Chain(l: Lane): seq<nat> {
    Ids(l.done) + l.limbo + l.pending
  }

  /** A change of a lane that keeps its chain and touches neither completions nor failed posts. */
  ghost predicate Kept(l: Lane, m: Lane) {
    && Chain(m) == Chain(l) && |m.ctxs| == |l.ctxs|
    && m.done == l.done && m.withdrawn == l.withdrawn
  }

  lemma ToLimboKept(h: Held)
    requires InRange(h.lane) && h.lane.pending != []
    ensures Kept(h.lane, ToLimbo(h, 0).lane)
  {
    assert [h.lane.pending[0]] + h.lane.pending[1..] == h.lane.pending;
    assert Without(h.lane.pending, 0) == h.lane.pending[1..];
  }

  lemma {:induction false} DrainKept(h: Held)
    requires InRange(h.lane)
    ensures Kept(h.lane, Drain(h).lane)
    decreases |h.lane.pending|
  {
    if h.lane.pending != [] && h.lane.ctxs[h.lane.pending[0]].ready {
      ToLimboKept(h);
      DrainKept(ToLimbo(h, 0));
    }
  }

  /** Entering ERR empties the list from its head. */
  lemma {:induction false} FlushKept(h: Held, force: bool)
    requires InRange(h.lane)
    ensures Kept(h.lane, Flush(h, force).lane)
    decreases |h.lane.pending|
  {
    if h.lane.pending != [] {
      var s := Held(Update(h.lane, h.lane.pending[0], Flushed(h.lane.ctxs[h.lane.pending[0]], force)), h.count);
      ToLimboKept(s);
      FlushKept(ToLimbo(s, 0), force);
    }
  }

  lemma SettleKept(h: Held, i: nat, status: int)
    requires InRange(h.lane) && i < |h.lane.pending|
    ensures Kept(h.lane, Settle(h, i, status).lane)
  {
    DrainKept(Held(ReadyAt(h.lane, i, status), h.count));
  }

  /** Only posts and completions change the chain or the completions. */
  lemma StepKept(q: Qp, e: Event)
    requires Sound(q) && !e.PostSend? && !e.FinishSend?
    ensures Kept(q.sendLane, Step(q, e).sendLane)
  {
    hide Find;
    hide AfterPost;
    hide RnrExhausted;
    hide GiveUp;
    forall i: nat, status | i < |q.sendLane.pending|
      ensures Kept(q.sendLane, Settle(Sends(q), i, status).lane)
    {
      SettleKept(Sends(q), i, status);
    }
    if e.FlushSendList? {
      FlushKept(Sends(q), false);
    }
    hide Settle;
    hide Flush;
  }

  /** A new send goes to the end of the chain, unless posting it fails. */
  lemma PostChain(h: Held, p: psn, maxRnr: Option<nat>, maxRetries: nat, posted: bool)
    requires InRange(h.lane)
    ensures var l, m := h.lane, Posted(h, p, maxRnr, maxRetries, posted).lane;
            && Chain(m) == (if posted then Chain(l) + [|l.ctxs|] else Chain(l))
            && m.withdrawn == (if posted then l.withdrawn else l.withdrawn + [|l.ctxs|])
            && m.done == l.done && |m.ctxs| == |l.ctxs| + 1
  {
    var s := Enqueue(h, p, maxRnr, maxRetries);
    assert Without(s.lane.pending, |h.lane.pending|) == h.lane.pending;
  }

  /** The context at place i of those that left the list completes, once. */
  lemma CompleteDone(l: Lane, i: nat)
    requires Placed(l) && i < |l.limbo|
    ensures Ids(Complete(l, i).done) == Ids(l.done) + [l.limbo[i]] && l.limbo[i] !in Ids(l.done)
    ensures Complete(l, i).limbo == Without(l.limbo, i) && Complete(l, i).pending == l.pending
    ensures Complete(l, i).withdrawn == l.withdrawn && |Complete(l, i).ctxs| == |l.ctxs|
  {
    var id := l.limbo[i];
    assert Places(l)[id] == 1;
    assert multiset(l.limbo)[id] >= 1;
    IdsAppend(l.done, (id, l.ctxs[id].status));
  }

  lemma CompleteChain(l: Lane)
    requires Placed(l) && l.limbo != []
    ensures Chain(Complete(l, 0)) == Chain(l)
  {
    CompleteDone(l, 0);
    hide Complete;
    hide OnePlace;
    assert Without(l.limbo, 0) == l.limbo[1..];
    MoveHead(Ids(l.done), l.limbo, l.pending);
  }

  lemma MoveHead<T>(a: seq<T>, b: seq<T>, c: seq<T>)
    requires b != []
    ensures a + [b[0]] + b[1..] + c == a + b + c
  {
  }

  /** The one thing asked of the order in which sends are finished: whoever finishes a send takes the first
      of those that left the list. */
  predicate Orderly(q: Qp, e: Event) {
    e.FinishSend? ==> e.i == 0 || e.i >= |q.sendLane.limbo|
  }

  /** The sends completed, those leaving and those pending are, in this order, accepted sends in the order
      of their posting. */
  ghost predicate InLine(l: Lane) {
    Increasing(Chain(l)) && forall k :: 0 <= k < |Chain(l)| ==> Chain(l)[k] < |l.ctxs|
  }

  /** Completions are in the order of posting and skip no accepted send. */
  ghost predicate InOrder(l: Lane) {
    && Increasing(Ids(l.done))
    && forall d, id :: d in Ids(l.done) && 0 <= id < d ==> id in l.withdrawn || id in Ids(l.done)
  }

  lemma StepInLine(q: Qp, e: Event)
    requires Inv(q) && Orderly(q, e) && InLine(q.sendLane)
    ensures InLine(Step(q, e).sendLane)
  {
    hide OnePlace;
    hide Chain;
    if e.PostSend? {
      hide Posted;
      PostChain(Sends(q), q.nextPsn, e.maxRnr, e.maxRetries, e.posted);
    } else if !e.FinishSend? {
      StepKept(q, e);
      hide Step;
    } else if e.i < |q.sendLane.limbo| {
      CompleteChain(q.sendLane);
      CompleteDone(q.sendLane, 0);
      hide Complete;
    }
  }

  /** Finishing any but the first of those that left the list skips the first. */
  lemma Breaks(l: Lane, i: nat)
    requires Placed(l) && InLine(l) && 0 < i < |l.limbo|
    ensures !InOrder(Complete(l, i))
  {
    var n, first, later := |l.done|, l.limbo[0], l.limbo[i];
    assert Chain(l)[n] == first && Chain(l)[n + i] == later;
    assert first < later;
    CompleteDone(l, 0);
    CompleteDone(l, i);
    var m := Complete(l, i);
    hide Complete;
    assert first !in l.withdrawn by {
      assert Places(l)[first] <= 1;
      assert multiset(l.limbo)[first] >= 1;
    }
    hide OnePlace;
    hide Chain;
    assert Ids(m.done)[n] == later;
    assert later in Ids(m.done);
    assert first !in Ids(m.done);
  }

  lemma StepBreaks(q: Qp, e: Event)
    requires Inv(q) && InLine(q.sendLane) && !Orderly(q, e)
    ensures !InOrder(Step(q, e).sendLane)
  {
    Breaks(q.sendLane, e.i);
    hide Complete;
    hide InOrder;
  }

  /** Completions are only added, at the end; and a post fails, if it does, when the send is new. */
  ghost predicate Extends(l: Lane, m: Lane) {
    && |Ids(l.done)| <= |Ids(m.done)| && Ids(m.done)[..|Ids(l.done)|] == Ids(l.done)
    && |l.ctxs| <= |m.ctxs|
    && forall id :: id in m.withdrawn ==> id in l.withdrawn || id >= |l.ctxs|
  }

  lemma StepExtends(q: Qp, e: Event)
    requires Inv(q)
    ensures Extends(q.sendLane, Step(q, e).sendLane)
  {
    hide OnePlace;
    hide Chain;
    if e.PostSend? {
      hide Posted;
      PostChain(Sends(q), q.nextPsn, e.maxRnr, e.maxRetries, e.posted);
    } else if !e.FinishSend? {
      StepKept(q, e);
      hide Step;
    } else if e.i < |q.sendLane.limbo| {
      CompleteDone(q.sendLane, e.i);
      hide Complete;
    }
  }

  /** Order once lost is never regained. */
  lemma OrderWasThere(l: Lane, m: Lane)
    requires Extends(l, m) && Placed(l) && InOrder(m)
    ensures InOrder(l)
  {
    var a, b := Ids(l.done), Ids(m.done);
    assert forall k :: 0 <= k < |a| ==> a[k] == b[..|a|][k] == b[k];
    forall d, id | d in a && 0 <= id < d ensures id in l.withdrawn || id in a {
      var k :| 0 <= k < |a| && a[k] == d;
      assert b[k] == d;
      assert Places(l)[d] >= 1;
      assert d < |l.ctxs| && d in b;
      if id in b {
        var j :| 0 <= j < |b| && b[j] == id;
        assert j < k;
        assert a[j] == id;
      } else {
        assert id in m.withdrawn;
      }
    }
  }

  ghost predicate InTurn(q: Qp, events: seq<Event>, k: nat)
    requires Sound(q) && k < |events|
  {
    Orderly(Run(q, events[..k]), events[k])
  }

  /** At every step of the run sends are finished from the head. */
  ghost predicate FinishedInTurn(q: Qp, events: seq<Event>)
    requires Sound(q)
  {
    forall k :: 0 <= k < |events| ==> InTurn(q, events, k)
  }

  lemma InTurnPrefix(q: Qp, events: seq<Event>, k: nat)
    requires Sound(q) && k + 1 < |events|
    ensures InTurn(q, events[..|events| - 1], k) <==> InTurn(q, events, k)
  {
    hide Run;
    hide Orderly;
    assert events[..|events| - 1][..k] == events[..k];
  }

  lemma InTurnSplit(q: Qp, events: seq<Event>)
    requires Sound(q) && events != []
    ensures var n := |events| - 1;
            FinishedInTurn(q, events) <==> FinishedInTurn(q, events[..n]) && InTurn(q, events, n)
  {
    hide InTurn;
    var n := |events| - 1;
    forall k: nat | k < n ensures InTurn(q, events[..n], k) <==> InTurn(q, events, k) {
      InTurnPrefix(q, events, k);
    }
  }

  lemma StartInOrder(maxWr: nat, first: psn)
    ensures var s := Start(maxWr, first);
            InOrder(s.sendLane) && InLine(s.sendLane) && FinishedInTurn(s, []) && Run(s, []) == s
  {
  }

  /** Under any mix of acknowledgements out of order, receiver-not-ready answers, time-outs, retries, entry
      into ERR and flushes: completions leave in the order of posting with none skipped exactly when every
      send was finished while it was the first of those that had left the list. */
  lemma {:induction false} InPostOrder(maxWr: nat, first: psn, events: seq<Event>)
    ensures var l := Run(Start(maxWr, first), events).sendLane;
            && (InOrder(l) <==> FinishedInTurn(Start(maxWr, first), events))
            && (InOrder(l) ==> InLine(l))
  {
    hide Step;
    hide InOrder;
    hide InLine;
    hide Placed;
    hide Extends;
    hide Orderly;
    hide FinishedInTurn;
    var s := Start(maxWr, first);
    SlotsExact(maxWr, first, events);
    if events == [] {
      StartInOrder(maxWr, first);
    } else {
      var prefix, e := events[..|events| - 1], events[|events| - 1];
      var q := Run(s, prefix);
      InPostOrder(maxWr, first, prefix);
      SlotsExact(maxWr, first, prefix);
      InTurnSplit(s, events);
      StepExtends(q, e);
      if InOrder(Step(q, e).sendLane) {
        OrderWasThere(q.sendLane, Step(q, e).sendLane);
      }
      assert InTurn(s, events, |prefix|) <==> Orderly(q, e);
      if InOrder(q.sendLane) {
        if Orderly(q, e) {
          StepInLine(q, e);
          NoneSkipped(Step(q, e).sendLane);
        } else {
          StepBreaks(q, e);
        }
      }
    }
  }

  /** Whoever took sends off the list completes them all, in their order. */
  function Push(q: Qp): (r: Qp)
    requires Sound(q)
    ensures Sound(r) && r.sendLane.limbo == []
    decreases |q.sendLane.limbo|
  {
    if q.sendLane.limbo == [] then q else Push(Step(q, FinishSend(0)))
  }

  /** A run whose locked sections each complete the sends they took off the list, before the next begins. */
  function CallRun(q: Qp, calls: seq<Event>): (r: Qp)
    requires Sound(q)
    ensures Sound(r)
  {
    if calls == [] then q else Push(Step(CallRun(q, calls[..|calls| - 1]), calls[|calls| - 1]))
  }

  lemma {:induction false} PushInLine(q: Qp)
    requires Inv(q) && InLine(q.sendLane)
    ensures Inv(Push(q)) && InLine(Push(q).sendLane)
    decreases |q.sendLane.limbo|
  {
    hide OnePlace;
    hide InLine;
    if q.sendLane.limbo != [] {
      StepGood(q, FinishSend(0));
      StepInLine(q, FinishSend(0));
      PushInLine(Step(q, FinishSend(0)));
    }
  }

  /** When each locked section completes what it took off the list before the next begins, which the time-out
      path does not do as it enters ERR in between: under any mix of acknowledgements, receiver-not-ready
      answers, time-outs and retries, completions leave in the order of posting with none skipped, and the
      accepted sends are those completed, followed by those pending. */
  lemma {:induction false} CallsInPostOrder(maxWr: nat, first: psn, calls: seq<Event>)
    requires forall k :: 0 <= k < |calls| ==> !calls[k].FinishSend?
    ensures var q := CallRun(Start(maxWr, first), calls);
            && Inv(q) && InLine(q.sendLane) && InOrder(q.sendLane)
            && q.sendLane.limbo == [] && Chain(q.sendLane) == Ids(q.sendLane.done) + q.sendLane.pending
  {
    hide Step;
    hide Push;
    hide OnePlace;
    hide InLine;
    hide InOrder;
    var s := Start(maxWr, first);
    if calls == [] {
      SlotsExact(maxWr, first, []);
      StartInOrder(maxWr, first);
    } else {
      var q := CallRun(s, calls[..|calls| - 1]);
      var e := calls[|calls| - 1];
      CallsInPostOrder(maxWr, first, calls[..|calls| - 1]);
      StepGood(q, e);
      StepInLine(q, e);
      PushInLine(Step(q, e));
    }
    NoneSkipped(CallRun(s, calls).sendLane);
  }

  /** Every accepted send is in the chain, so an earlier one than a completed one is completed too. */
  lemma NoneSkipped(l: Lane)
    requires Placed(l) && InLine(l)
    ensures InOrder(l)
  {
    var c, n := Chain(l), |l.done|;
    assert forall k :: 0 <= k < n ==> c[k] == Ids(l.done)[k];
    forall d, id | d in Ids(l.done) && 0 <= id < d ensures id in l.withdrawn || id in Ids(l.done) {
      var k :| 0 <= k < n && Ids(l.done)[k] == d;
      InSomePlace(l, d, id);
      forall j | 0 <= j < |l.limbo| ensures l.limbo[j] > d {
        assert c[n + j] == l.limbo[j] && c[k] < c[n + j];
      }
      forall j | 0 <= j < |l.pending| ensures l.pending[j] > d {
        assert c[n + |l.limbo| + j] == l.pending[j] && c[k] < c[n + |l.limbo| + j];
      }
    }
  }

  lemma InSomePlace(l: Lane, d: nat, id: nat)
    requires Placed(l) && d in Ids(l.done) && id < d
    ensures id in l.pending || id in l.limbo || id in Ids(l.done) || id in l.withdrawn
  {
    assert Places(l)[d] >= 1;
    assert Places(l)[id] == 1;
  }

  lemma RunOne(q: Qp, events: seq<Event>, e: Event)
    requires Sound(q)
    ensures Run(q, events + [e]) == Step(Run(q, events), e)
  {
    assert (events + [e])[..|events|] == events;
  }

  function Fresh(p: psn): Ctx {
    Ctx(p, true, false, 0, false, false, false, 0, None, 0, 0)
  }

  function Left(p: psn, status: int): Ctx {
    Fresh(p).(counted := false, ready := true, status := status)
  }

  const POST: Event := PostSend(None, 0, true)

  lemma TwoPosted()
    ensures Run(Start(2, 0), [POST] + [POST])
         == Start(2, 0).(count := 2, nextPsn := 2, sendLane := Lane([Fresh(0), Fresh(1)], [0, 1], [], [], []))
  {
    hide Run;
    hide Step;
    RunOne(Start(2, 0), [], POST);
    assert [] + [POST] == [POST];
    EmptyRun(Start(2, 0));
    OnePosted();
    RunOne(Start(2, 0), [POST], POST);
    AnotherPosted();
  }

  lemma EmptyRun(q: Qp)
    requires Sound(q)
    ensures Run(q, []) == q
  {
  }

  lemma OnePosted()
    ensures Step(Start(2, 0), POST)
            == Start(2, 0).(count := 1, nextPsn := 1, sendLane := Lane([Fresh(0)], [0], [], [], []))
  {
  }

  lemma AnotherPosted()
    ensures Step(Start(2, 0).(count := 1, nextPsn := 1, sendLane := Lane([Fresh(0)], [0], [], [], [])), POST)
         == Start(2, 0).(count := 2, nextPsn := 2, sendLane := Lane([Fresh(0), Fresh(1)], [0, 1], [], [], []))
  {
  }

  /** Of two pending sends the first times out. */
  lemma FirstExpires(q: Qp)
    requires q == Start(2, 0).(count := 2, nextPsn := 2, sendLane := Lane([Fresh(0), Fresh(1)], [0, 1], [], [], []))
    ensures Step(q, SendExpires(0, false, true))
         == q.(count := 1, sendLane := Lane([Left(0, ETIMEDOUT), Fresh(1)], [1], [0], [], []))
  {
    var h := Held(ReadyAt(q.sendLane, 0, ETIMEDOUT), 2);
    assert Without([0, 1], 0) == [1];
    assert ToLimbo(h, 0) == Held(Lane([Left(0, ETIMEDOUT), Fresh(1)], [1], [0], [], []), 1);
  }

  /** Entering ERR flushes the second. */
  lemma SecondFlushed(q: Qp)
    requires q == Start(2, 0).(count := 1, nextPsn := 2,
                               sendLane := Lane([Left(0, ETIMEDOUT), Fresh(1)], [1], [0], [], []))
    ensures Step(Step(q, Error), FlushSendList)
         == q.(count := 0, error := true,
               sendLane := Lane([Left(0, ETIMEDOUT), Left(1, ECANCELED)], [], [0, 1], [], []))
  {
    var h := Held(Update(q.sendLane, 1, MarkReady(Fresh(1), ECANCELED)), 1);
    assert Without([1], 0) == [];
    assert q.sendLane.ctxs[1] == Fresh(1) && q.sendLane.pending[0] == 1;
    var t := ToLimbo(h, 0);
    assert t.lane.ctxs == [Left(0, ETIMEDOUT), Left(1, ECANCELED)];
    assert t == Held(Lane([Left(0, ETIMEDOUT), Left(1, ECANCELED)], [], [0, 1], [], []), 0);
    assert Flush(t, false) == t;
    assert Flush(Sends(q), false) == t;
  }

  lemma LastFirst(q: Qp)
    requires q.sendLane == Lane([Left(0, ETIMEDOUT), Left(1, ECANCELED)], [], [0, 1], [], []) && Sound(q)
    ensures Step(Step(q, FinishSend(1)), FinishSend(0)).sendLane.done == [(1, ECANCELED), (0, ETIMEDOUT)]
  {
    assert Without([0, 1], 1) == [0];
    assert Complete(q.sendLane, 1).limbo == [0] && Complete(q.sendLane, 1).ctxs[0] == Left(0, ETIMEDOUT);
  }

  /** In ERR the order can break: the first of two sends times out, entering ERR flushes the second and
      completes it before the first. */
  lemma ErrorBreaksOrder()
    ensures var events := [POST] + [POST] + [SendExpires(0, false, true)] + [Error] + [FlushSendList]
                          + [FinishSend(1)] + [FinishSend(0)];
            Run(Start(2, 0), events).sendLane.done == [(1, ECANCELED), (0, ETIMEDOUT)]
  {
    hide Step;
    var s, two := Start(2, 0), [POST] + [POST];
    TwoPosted();
    RunOne(s, two, SendExpires(0, false, true));
    FirstExpires(Run(s, two));
    var three := two + [SendExpires(0, false, true)];
    RunOne(s, three, Error);
    RunOne(s, three + [Error], FlushSendList);
    SecondFlushed(Run(s, three));
    RunOne(s, three + [Error] + [FlushSendList], FinishSend(1));
    RunOne(s, three + [Error] + [FlushSendList] + [FinishSend(1)], FinishSend(0));
    LastFirst(Run(s, three + [Error] + [FlushSendList]));
  }
}
