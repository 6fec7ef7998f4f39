/** The status with which a send or a read of SendQueue completes: that of the event that settled it, and no
    other. */
module SendStatus {
  import opened Prelude
  import opened Psn
  import opened Lists
  import opened SendQueue

  // ---------------------------------------------------------------- what settles a send

  /** Of the pending sends the first one with PSN p is id. */
  ghost predicate FirstWith(l: Lane, p: psn, id: nat)
    requires InRange(l)
  {
    exists i :: 0 <= i < |l.pending| && l.pending[i] == id && l.ctxs[id].psn == p
                && forall j :: 0 <= j < i ==> l.ctxs[l.pending[j]].psn != p
  }

  ghost predicate IsAt(l: Lane, i: nat, id: nat) {
    i < |l.pending| && l.pending[i] == id
  }

  /** Its retries for a receiver that was not ready are spent. */
  ghost predicate NoRnrLeft(c: Ctx) {
    c.maxRnr.Some? && c.rnrRetries >= c.maxRnr.value
  }

  /** Event e gives the pending send id, which has no status yet, the status s: an acknowledgement or a failed
      transmission of its PSN gives its own; a spent budget or an error gives EAGAIN or ETIMEDOUT; the flush
      on error gives ECANCELED. */
  ghost predicate Settles(q: Qp, e: Event, id: nat, s: int)
    requires Sound(q)
  {
    && id < |q.sendLane.ctxs| && !q.sendLane.ctxs[id].ready && id in q.sendLane.pending
    && var l, c := q.sendLane, q.sendLane.ctxs[id];
       match e
       case Ack(p, status) => FirstWith(l, p, id) && s == status
       case TxFailed(p, status) => FirstWith(l, p, id) && s == status
       case AckRnr(p) => FirstWith(l, p, id) && (NoRnrLeft(c) || q.error) && s == EAGAIN
       case SendExpires(i, busy, final) =>
         && IsAt(l, i, id)
         && (if c.rnrWaiting then (c.retrying || busy || NoRnrLeft(c) || q.error) && s == EAGAIN
             else !busy && (c.retrying ==> c.maxRetries == 0 || final)
                  && (c.retrying || c.retries >= c.maxRetries || q.error) && s == ETIMEDOUT)
       case SendRetried(i, _, result) =>
         IsAt(l, i, id) && !q.error && !c.completed && result == Failed && s == ETIMEDOUT
       case FlushSendList => q.error && s == ECANCELED
       case _ => false
  }

  // ---------------------------------------------------------------- verdicts

  /** A context keeps its PSN, its limits and the count of its retries. */
  ghost predicate SameSend(c: Ctx, d: Ctx) {
    && d.psn == c.psn && d.maxRnr == c.maxRnr && d.maxRetries == c.maxRetries
    && d.retries == c.retries && d.rnrRetries == c.rnrRetries
  }

  ghost predicate SameVerdict(c: Ctx, d: Ctx) {
    SameSend(c, d) && d.ready == c.ready && d.status == c.status
  }

  ghost predicate SameVerdicts(l: Lane, m: Lane) {
    |m.ctxs| == |l.ctxs| && forall id :: 0 <= id < |l.ctxs| ==> SameVerdict(l.ctxs[id], m.ctxs[id])
  }

  /** Only the context id may have got a status, s. */
  ghost predicate OnlyVerdict(l: Lane, m: Lane, id: nat, s: int) {
    && |m.ctxs| == |l.ctxs|
    && forall j :: 0 <= j < |l.ctxs| ==>
         if j == id && !l.ctxs[j].ready then
           SameSend(l.ctxs[j], m.ctxs[j]) && m.ctxs[j].ready && m.ctxs[j].status == s
         else SameVerdict(l.ctxs[j], m.ctxs[j])
  }

  lemma SameJoin(l: Lane, m: Lane, n: Lane)
    requires SameVerdicts(l, m) && SameVerdicts(m, n)
    ensures SameVerdicts(l, n)
  {
    forall id | 0 <= id < |l.ctxs| ensures SameVerdict(l.ctxs[id], n.ctxs[id]) {
      assert SameVerdict(l.ctxs[id], m.ctxs[id]) && SameVerdict(m.ctxs[id], n.ctxs[id]);
    }
  }

  lemma LeaveSame(h: Held, i: nat)
    requires InRange(h.lane) && i < |h.lane.pending|
    ensures SameVerdicts(h.lane, ToLimbo(h, i).lane) && SameVerdicts(h.lane, Withdraw(h, i).lane)
  {
  }

  lemma {:induction false} DrainSame(h: Held)
    requires InRange(h.lane)
    ensures SameVerdicts(h.lane, Drain(h).lane)
    decreases |h.lane.pending|
  {
    hide SameVerdict;
    if h.lane.pending != [] && h.lane.ctxs[h.lane.pending[0]].ready {
      LeaveSame(h, 0);
      DrainSame(ToLimbo(h, 0));
      SameJoin(h.lane, ToLimbo(h, 0).lane, Drain(ToLimbo(h, 0)).lane);
    } else {
      SameItself(h.lane);
    }
  }

  lemma SameItself(l: Lane)
    ensures SameVerdicts(l, l)
  {
  }

  lemma SettleVerdict(h: Held, i: nat, status: int)
    requires InRange(h.lane) && i < |h.lane.pending|
    ensures OnlyVerdict(h.lane, Settle(h, i, status).lane, h.lane.pending[i], status)
  {
    var m := ReadyAt(h.lane, i, status);
    DrainSame(Held(m, h.count));
    hide Drain;
    var n := Drain(Held(m, h.count)).lane;
    forall j | 0 <= j < |h.lane.ctxs| ensures SameVerdict(m.ctxs[j], n.ctxs[j]) {
    }
  }

  lemma FindFirst(l: Lane, p: psn, from: nat)
    requires InRange(l) && from <= |l.pending|
    ensures var i := Find(l, p, from);
            && (i < |l.pending| ==> l.ctxs[l.pending[i]].psn == p)
            && forall j :: from <= j < i ==> l.ctxs[l.pending[j]].psn != p
    decreases |l.pending| - from
  {
    if from < |l.pending| && l.ctxs[l.pending[from]].psn != p {
      FindFirst(l, p, from + 1);
    }
  }

  /** Flushing gives every pending context without a status ECANCELED. */
  lemma {:induction false} FlushVerdict(h: Held)
    requires InRange(h.lane)
    ensures var l, m := h.lane, Flush(h, false).lane;
            && |m.ctxs| == |l.ctxs|
            && forall id :: 0 <= id < |l.ctxs| ==>
                 && SameSend(l.ctxs[id], m.ctxs[id])
                 && m.ctxs[id].ready == (l.ctxs[id].ready || id in l.pending)
                 && m.ctxs[id].status == if !l.ctxs[id].ready && id in l.pending then ECANCELED else l.ctxs[id].status
    decreases |h.lane.pending|
  {
    if h.lane.pending != [] {
      var l, id := h.lane, h.lane.pending[0];
      var s := Held(Update(l, id, Flushed(l.ctxs[id], false)), h.count);
      LeaveSame(s, 0);
      var t := ToLimbo(s, 0);
      FlushVerdict(t);
      hide Flush;
      assert t.lane.pending == l.pending[1..];
      assert l.pending == [id] + t.lane.pending;
      forall j | 0 <= j < |l.ctxs| ensures SameVerdict(s.lane.ctxs[j], t.lane.ctxs[j]) {
      }
      hide ToLimbo;
    }
  }

  // ---------------------------------------------------------------- steps

  /** The events about one pending send. */
  predicate AboutOne(e: Event) {
    e.Ack? || e.TxFailed? || e.AckRnr? || e.SendExpires? || e.SendRetried?
  }

  /** The place of the send that an event is about. */
  function PlaceOf(q: Qp, e: Event): nat
    requires Sound(q) && AboutOne(e)
  {
    if e.SendExpires? || e.SendRetried? then e.i else Find(q.sendLane, e.psn, 0)
  }

  lemma FirstIsFound(l: Lane, p: psn, id: nat)
    requires Placed(l)
    ensures FirstWith(l, p, id) <==> Find(l, p, 0) < |l.pending| && l.pending[Find(l, p, 0)] == id
  {
    FindFirst(l, p, 0);
  }

  /** Who is settled is the send at that place. */
  lemma SettlesThere(q: Qp, e: Event, id: nat, s: int)
    requires Inv(q) && AboutOne(e) && Settles(q, e, id, s)
    ensures IsAt(q.sendLane, PlaceOf(q, e), id)
  {
    if e.Ack? || e.TxFailed? || e.AckRnr? {
      FirstIsFound(q.sendLane, e.psn, id);
    }
  }

  /** The status an event gives the send it is about, if it gives one. */
  function Verdict(c: Ctx, e: Event, error: bool): Option<int>
    requires AboutOne(e)
  {
    if c.ready then None
    else
      match e
      case Ack(_, status) => Some(status)
      case TxFailed(_, status) => Some(status)
      case AckRnr(_) => if RnrExhausted(c) || error then Some(EAGAIN) else None
      case SendExpires(_, busy, final) =>
        if c.rnrWaiting then if !c.retrying && !busy && !RnrExhausted(c) && !error then None else Some(EAGAIN)
        else if busy || (c.maxRetries > 0 && c.retrying && !final) then None
        else if !c.retrying && c.retries < c.maxRetries && !error then None
        else Some(ETIMEDOUT)
      case SendRetried(_, _, result) => if error || c.completed || result != Failed then None else Some(ETIMEDOUT)
  }

  /** What is said of such an event's verdict is what Settles says. */
  lemma SettlesExactly(q: Qp, e: Event, id: nat, s: int)
    requires Inv(q) && AboutOne(e) && PlaceOf(q, e) < |q.sendLane.pending|
    ensures Settles(q, e, id, s)
       <==> id == q.sendLane.pending[PlaceOf(q, e)] && Verdict(q.sendLane.ctxs[id], e, q.error) == Some(s)
  {
    hide OnePlace;
    if e.Ack? || e.TxFailed? || e.AckRnr? {
      FirstIsFound(q.sendLane, e.psn, id);
    }
    hide Find;
    hide FirstWith;
  }

  /** A context is updated without a verdict. */
  lemma UpdateSame(l: Lane, id: nat, c: Ctx)
    requires id < |l.ctxs| && SameVerdict(l.ctxs[id], c)
    ensures SameVerdicts(l, Update(l, id, c))
  {
  }

  /** A status for a context that has one changes no verdict. */
  lemma OnlyOrSame(l: Lane, m: Lane, id: nat, s: int)
    requires OnlyVerdict(l, m, id, s) && id < |l.ctxs| && l.ctxs[id].ready
    ensures SameVerdicts(l, m)
  {
  }

  /** A context that has a status keeps it when it is settled. */
  lemma SettleTaken(h: Held, i: nat, s: int)
    requires InRange(h.lane) && i < |h.lane.pending|
    ensures var l, m, id := h.lane, Settle(h, i, s).lane, h.lane.pending[i];
            if l.ctxs[id].ready then SameVerdicts(l, m) else OnlyVerdict(l, m, id, s)
  {
    SettleVerdict(h, i, s);
    if h.lane.ctxs[h.lane.pending[i]].ready {
      OnlyOrSame(h.lane, Settle(h, i, s).lane, h.lane.pending[i], s);
    }
  }

  lemma AckTaken(q: Qp, e: Event)
    requires Inv(q) && (e.Ack? || e.TxFailed? || e.AckRnr?) && PlaceOf(q, e) < |q.sendLane.pending|
    ensures var l, m, id := q.sendLane, Step(q, e).sendLane, q.sendLane.pending[PlaceOf(q, e)];
            var v := Verdict(l.ctxs[id], e, q.error);
            if v.Some? then OnlyVerdict(l, m, id, v.value) else SameVerdicts(l, m)
  {
    hide OnePlace;
    hide OnlyVerdict;
    hide SameVerdicts;
    hide Find;
    var l, i := q.sendLane, PlaceOf(q, e);
    var c := l.ctxs[l.pending[i]];
    SettleTaken(Sends(q), i, if e.AckRnr? then EAGAIN else e.status);
    UpdateSame(l, l.pending[i], c.(rnrWaiting := true, retrying := false));
    hide Settle;
    hide Update;
  }

  lemma ExpireTaken(q: Qp, e: Event)
    requires Inv(q) && e.SendExpires? && e.i < |q.sendLane.pending|
    ensures var l, m, id := q.sendLane, Step(q, e).sendLane, q.sendLane.pending[PlaceOf(q, e)];
            var v := Verdict(l.ctxs[id], e, q.error);
            if v.Some? then OnlyVerdict(l, m, id, v.value) else SameVerdicts(l, m)
  {
    hide OnePlace;
    hide OnlyVerdict;
    hide SameVerdicts;
    hide Find;
    var l := q.sendLane;
    var id := l.pending[e.i];
    var c := l.ctxs[id];
    SettleTaken(Sends(q), e.i, if c.rnrWaiting then EAGAIN else ETIMEDOUT);
    SameItself(l);
    UpdateSame(l, id, c.(retrying := true, rnrWaiting := false));
    UpdateSame(l, id, c.(retrying := true));
    hide Settle;
    hide Update;
  }

  /** Posting a retry of the send at place i is counted. */
  ghost predicate RetryCounts(q: Qp, e: Event, id: nat, rnr: bool)
    requires Sound(q)
  {
    && e.SendRetried? && IsAt(q.sendLane, e.i, id) && id < |q.sendLane.ctxs|
    && !q.error && !q.sendLane.ctxs[id].completed
    && if rnr then e.rnr && e.result == Posts else (!e.rnr && e.result == Posts) || e.result == NotConnected
  }

  /** The event counts at most a retry of the context id, and gives no verdict. */
  ghost predicate OnlyCounted(q: Qp, e: Event, m: Lane, id: nat)
    requires Sound(q)
  {
    && |m.ctxs| == |q.sendLane.ctxs|
    && forall j :: 0 <= j < |m.ctxs| ==>
         if j != id then SameVerdict(q.sendLane.ctxs[j], m.ctxs[j])
         else
           && var c, d := q.sendLane.ctxs[j], m.ctxs[j];
           && d.psn == c.psn && d.maxRnr == c.maxRnr && d.maxRetries == c.maxRetries
           && d.ready == c.ready && d.status == c.status
           && d.retries == (if RetryCounts(q, e, j, false) then Capped(c.retries) else c.retries)
           && d.rnrRetries == (if RetryCounts(q, e, j, true) then Capped(c.rnrRetries) else c.rnrRetries)
  }

  lemma RetriedTaken(q: Qp, e: Event)
    requires Inv(q) && e.SendRetried? && e.i < |q.sendLane.pending|
    ensures var l, m, id := q.sendLane, Step(q, e).sendLane, q.sendLane.pending[e.i];
            var v := Verdict(l.ctxs[id], e, q.error);
            if v.Some? then
              OnlyVerdict(l, m, id, v.value) && !RetryCounts(q, e, id, true) && !RetryCounts(q, e, id, false)
            else OnlyCounted(q, e, m, id)
  {
    hide OnePlace;
    hide OnlyVerdict;
    var l := q.sendLane;
    var id := l.pending[e.i];
    if !q.error && !l.ctxs[id].completed && e.result == Failed {
      SettleTaken(Sends(q), e.i, ETIMEDOUT);
    }
    hide Settle;
  }

  lemma VerdictTaken(q: Qp, e: Event)
    requires Inv(q) && AboutOne(e) && !e.SendRetried? && PlaceOf(q, e) < |q.sendLane.pending|
    ensures var l, m, id := q.sendLane, Step(q, e).sendLane, q.sendLane.pending[PlaceOf(q, e)];
            var v := Verdict(l.ctxs[id], e, q.error);
            if v.Some? then OnlyVerdict(l, m, id, v.value) else SameVerdicts(l, m)
  {
    hide Step;
    if e.SendExpires? {
      ExpireTaken(q, e);
    } else {
      AckTaken(q, e);
    }
  }

  /** What one event does to the verdict on a send that was there before. */
  ghost predicate Judged(q: Qp, e: Event, id: nat)
    requires Sound(q) && id < |q.sendLane.ctxs|
  {
    var m := Step(q, e).sendLane;
    && id < |m.ctxs|
    && var c, d := q.sendLane.ctxs[id], m.ctxs[id];
       && d.psn == c.psn && d.maxRnr == c.maxRnr && d.maxRetries == c.maxRetries
       && d.retries == (if RetryCounts(q, e, id, false) then Capped(c.retries) else c.retries)
       && d.rnrRetries == (if RetryCounts(q, e, id, true) then Capped(c.rnrRetries) else c.rnrRetries)
       && (c.ready ==> d.ready && d.status == c.status)
       && (!c.ready ==> forall s :: Settles(q, e, id, s) <==> d.ready && d.status == s)
  }

  lemma OneJudged(q: Qp, e: Event, id: nat)
    requires Inv(q) && AboutOne(e) && id < |q.sendLane.ctxs|
    ensures Judged(q, e, id)
  {
    hide OnePlace;
    hide Settles;
    hide Verdict;
    var l := q.sendLane;
    if PlaceOf(q, e) < |l.pending| {
      if e.SendRetried? {
        RetriedTaken(q, e);
      } else {
        VerdictTaken(q, e);
      }
      forall s ensures Settles(q, e, id, s)
                   <==> id == l.pending[PlaceOf(q, e)] && Verdict(l.ctxs[id], e, q.error) == Some(s) {
        SettlesExactly(q, e, id, s);
      }
      hide Step;
      hide PlaceOf;
    } else {
      NoneThere(q, e, id);
    }
  }

  lemma NoneThere(q: Qp, e: Event, id: nat)
    requires Inv(q) && AboutOne(e) && PlaceOf(q, e) >= |q.sendLane.pending|
    ensures Step(q, e).sendLane == q.sendLane && forall s :: !Settles(q, e, id, s)
    ensures !RetryCounts(q, e, id, true) && !RetryCounts(q, e, id, false)
  {
    hide OnePlace;
    forall s ensures !Settles(q, e, id, s) {
      if Settles(q, e, id, s) {
        SettlesThere(q, e, id, s);
      }
    }
    hide Settles;
  }

  lemma FlushJudged(q: Qp, id: nat)
    requires Inv(q) && id < |q.sendLane.ctxs|
    ensures Judged(q, FlushSendList, id)
  {
    hide OnePlace;
    FlushVerdict(Sends(q));
    hide Flush;
  }

  /** Posts, completions and the events of reads give no verdict on a send that was there. */
  lemma OtherJudged(q: Qp, e: Event, id: nat)
    requires Inv(q) && !AboutOne(e) && !e.FlushSendList? && id < |q.sendLane.ctxs|
    ensures Judged(q, e, id)
  {
    hide OnePlace;
    hide CompleteOrdered;
    hide Settle;
    hide GiveUp;
    hide Flush;
  }

  lemma EachJudged(q: Qp, e: Event, id: nat)
    requires Inv(q) && id < |q.sendLane.ctxs|
    ensures Judged(q, e, id)
  {
    hide Judged;
    if AboutOne(e) {
      OneJudged(q, e, id);
    } else if e.FlushSendList? {
      FlushJudged(q, id);
    } else {
      OtherJudged(q, e, id);
    }
  }

  // ---------------------------------------------------------------- posts

  /** A post is accepted exactly when the queue pair is not in error and a slot is free; the context joins the
      end of the list, or fails, without a status and with the next PSN. */
  lemma PostExact(maxWr: nat, first: psn, events: seq<Event>, e: Event)
    requires e.PostSend?
    ensures var q := Run(Start(maxWr, first), events);
            var l, m := q.sendLane, Step(q, e).sendLane;
            if q.error || |l.pending| + |q.readLane.pending| >= maxWr then Step(q, e) == q
            else
              && |m.ctxs| == |l.ctxs| + 1 && m.ctxs[..|l.ctxs|] == l.ctxs
              && (if e.posted then m.pending == l.pending + [|l.ctxs|]
                  else m.pending == l.pending && m.withdrawn == l.withdrawn + [|l.ctxs|])
              && var c := m.ctxs[|l.ctxs|];
                 && c.psn == q.nextPsn && !c.ready && c.retries == 0 && c.rnrRetries == 0
                 && c.maxRnr == e.maxRnr && c.maxRetries == e.maxRetries
                 && Step(q, e).nextPsn == (q.nextPsn + 1) % 0x100_0000
  {
    hide Run;
    hide Step;
    hide Placed;
    SlotsExact(maxWr, first, events);
    PostNew(Run(Start(maxWr, first), events), e);
  }

  lemma PostNew(q: Qp, e: Event)
    requires Inv(q) && e.PostSend?
    ensures var l, m := q.sendLane, Step(q, e).sendLane;
            if !CanPost(q) then Step(q, e) == q
            else
              && |m.ctxs| == |l.ctxs| + 1 && m.ctxs[..|l.ctxs|] == l.ctxs
              && (if e.posted then m.pending == l.pending + [|l.ctxs|]
                  else m.pending == l.pending && m.withdrawn == l.withdrawn + [|l.ctxs|])
              && m.limbo == l.limbo && m.done == l.done
              && var c := m.ctxs[|l.ctxs|];
                 && c.psn == q.nextPsn && !c.ready && c.retries == 0 && c.rnrRetries == 0
                 && c.maxRnr == e.maxRnr && c.maxRetries == e.maxRetries
                 && Step(q, e).nextPsn == (q.nextPsn + 1) % 0x100_0000
  {
    hide OnePlace;
    var s := Enqueue(Sends(q), q.nextPsn, e.maxRnr, e.maxRetries);
    assert Without(s.lane.pending, |q.sendLane.pending|) == q.sendLane.pending;
  }

  /** Contexts are only added by posts. */
  lemma CtxsKept(q: Qp, e: Event)
    requires Inv(q)
    ensures |Step(q, e).sendLane.ctxs| == |q.sendLane.ctxs| + if e.PostSend? && CanPost(q) then 1 else 0
  {
    hide OnePlace;
    hide Step;
    if e.PostSend? {
      PostNew(q, e);
    } else {
      StepExtends(q, e);
      if e.FinishSend? {
        FinishCtxs(q, e);
      } else {
        StepKept(q, e);
      }
    }
  }

  lemma FinishCtxs(q: Qp, e: Event)
    requires Sound(q) && e.FinishSend?
    ensures |Step(q, e).sendLane.ctxs| == |q.sendLane.ctxs|
  {
  }

  // ---------------------------------------------------------------- runs

  /** An event of the run settled the send id with the status s. */
  ghost predicate SettledIn(q: Qp, events: seq<Event>, id: nat, s: int)
    requires Sound(q)
  {
    exists k :: 0 <= k < |events| && SettledAt(q, events, k, id, s)
  }

  ghost predicate SettledAt(q: Qp, events: seq<Event>, k: nat, id: nat, s: int)
    requires Sound(q) && k < |events|
  {
    Settles(Run(q, events[..k]), events[k], id, s)
  }

  lemma SettledPrefix(q: Qp, events: seq<Event>, k: nat, id: nat, s: int)
    requires Sound(q) && k + 1 < |events|
    ensures SettledAt(q, events[..|events| - 1], k, id, s) <==> SettledAt(q, events, k, id, s)
  {
    hide Run;
    hide Settles;
    assert events[..|events| - 1][..k] == events[..k];
  }

  lemma SettledMore(q: Qp, events: seq<Event>, id: nat, s: int)
    requires Sound(q) && events != []
    ensures var n := |events| - 1;
            SettledIn(q, events, id, s) <==> SettledIn(q, events[..n], id, s) || SettledAt(q, events, n, id, s)
  {
    hide SettledAt;
    var n := |events| - 1;
    forall k: nat | k < n ensures SettledAt(q, events[..n], k, id, s) <==> SettledAt(q, events, k, id, s) {
      SettledPrefix(q, events, k, id, s);
    }
  }

  /** A send that is not there yet has not been settled. */
  lemma {:induction false} NotSettledBefore(maxWr: nat, first: psn, events: seq<Event>, id: nat, s: int)
    requires |Run(Start(maxWr, first), events).sendLane.ctxs| <= id
    ensures !SettledIn(Start(maxWr, first), events, id, s)
  {
    hide Step;
    if events != [] {
      var prefix := events[..|events| - 1];
      SlotsExact(maxWr, first, prefix);
      CtxsKept(Run(Start(maxWr, first), prefix), events[|events| - 1]);
      NotSettledBefore(maxWr, first, prefix, id, s);
      SettledMore(Start(maxWr, first), events, id, s);
    }
  }

  /** In every run a send has a status exactly if an event has settled it, and the status is that event's. */
  lemma {:induction false} StatusExact(maxWr: nat, first: psn, events: seq<Event>, id: nat)
    requires id < |Run(Start(maxWr, first), events).sendLane.ctxs|
    ensures var c := Run(Start(maxWr, first), events).sendLane.ctxs[id];
            forall s :: SettledIn(Start(maxWr, first), events, id, s) <==> c.ready && c.status == s
  {
    hide Step;
    hide Settles;
    hide SettledIn;
    var q0 := Start(maxWr, first);
    if events != [] {
      var n := |events| - 1;
      var prefix, e := events[..n], events[n];
      var q := Run(q0, prefix);
      SlotsExact(maxWr, first, prefix);
      CtxsKept(q, e);
      forall s ensures SettledIn(q0, events, id, s) <==> SettledIn(q0, prefix, id, s) || Settles(q, e, id, s) {
        SettledMore(q0, events, id, s);
      }
      if id < |q.sendLane.ctxs| {
        StatusExact(maxWr, first, prefix, id);
        EachJudged(q, e, id);
        SettlesUnready(q, e, id);
      } else {
        PostNew(q, e);
        forall s ensures !SettledIn(q0, prefix, id, s) {
          NotSettledBefore(maxWr, first, prefix, id, s);
        }
        SettlesUnready(q, e, id);
      }
    }
  }

  lemma SettlesUnready(q: Qp, e: Event, id: nat)
    requires Sound(q)
    ensures id >= |q.sendLane.ctxs| || q.sendLane.ctxs[id].ready ==> forall s :: !Settles(q, e, id, s)
  {
  }

  // ---------------------------------------------------------------- completions

  /** Whatever has left the list has a status, and completions carry it. */
  ghost predicate Carried(l: Lane) {
    && (forall i :: 0 <= i < |l.limbo| ==> l.limbo[i] < |l.ctxs| && l.ctxs[l.limbo[i]].ready)
    && forall i :: 0 <= i < |l.done| ==>
         && l.done[i].0 < |l.ctxs|
         && l.ctxs[l.done[i].0].ready && l.ctxs[l.done[i].0].status == l.done[i].1
  }

  /** The first of the list waits for its status. */
  ghost predicate HeadWaits(l: Lane)
    requires InRange(l)
  {
    l.pending != [] ==> !l.ctxs[l.pending[0]].ready
  }

  lemma SameCarried(l: Lane, m: Lane)
    requires Carried(l) && m.limbo == l.limbo && m.done == l.done && |m.ctxs| >= |l.ctxs|
    requires forall id :: 0 <= id < |l.ctxs| && l.ctxs[id].ready ==>
               m.ctxs[id].ready && m.ctxs[id].status == l.ctxs[id].status
    ensures Carried(m)
  {
  }

  lemma LeaveCarried(h: Held)
    requires InRange(h.lane) && h.lane.pending != [] && h.lane.ctxs[h.lane.pending[0]].ready && Carried(h.lane)
    ensures Carried(ToLimbo(h, 0).lane)
  {
  }

  lemma {:induction false} DrainCarried(h: Held)
    requires InRange(h.lane) && Carried(h.lane)
    ensures Carried(Drain(h).lane) && HeadWaits(Drain(h).lane)
    decreases |h.lane.pending|
  {
    hide Carried;
    if h.lane.pending != [] && h.lane.ctxs[h.lane.pending[0]].ready {
      LeaveCarried(h);
      DrainCarried(ToLimbo(h, 0));
    }
  }

  lemma SettleCarried(h: Held, i: nat, s: int)
    requires InRange(h.lane) && i < |h.lane.pending| && Carried(h.lane)
    ensures Carried(Settle(h, i, s).lane) && HeadWaits(Settle(h, i, s).lane)
  {
    SameCarried(h.lane, ReadyAt(h.lane, i, s));
    DrainCarried(Held(ReadyAt(h.lane, i, s), h.count));
  }

  lemma {:induction false} FlushCarried(h: Held)
    requires InRange(h.lane) && Carried(h.lane)
    ensures Carried(Flush(h, false).lane) && Flush(h, false).lane.pending == []
    decreases |h.lane.pending|
  {
    if h.lane.pending != [] {
      var id := h.lane.pending[0];
      var s := Held(Update(h.lane, id, Flushed(h.lane.ctxs[id], false)), h.count);
      SameCarried(h.lane, s.lane);
      LeaveCarried(s);
      hide Carried;
      FlushCarried(ToLimbo(s, 0));
    }
  }

  lemma CompleteCarried(l: Lane, i: nat)
    requires Placed(l) && Carried(l) && HeadWaits(l)
    ensures Carried(Complete(l, i)) && HeadWaits(Complete(l, i))
  {
    hide OnePlace;
  }

  lemma UpdateCarried(l: Lane, id: nat, c: Ctx)
    requires InRange(l) && id < |l.ctxs| && Carried(l) && HeadWaits(l)
    requires c.ready == l.ctxs[id].ready && c.status == l.ctxs[id].status
    ensures Carried(Update(l, id, c)) && HeadWaits(Update(l, id, c))
  {
  }

  lemma AckCarried(q: Qp, e: Event)
    requires Inv(q) && (e.Ack? || e.TxFailed? || e.AckRnr?) && Carried(q.sendLane) && HeadWaits(q.sendLane)
    ensures Carried(Step(q, e).sendLane) && HeadWaits(Step(q, e).sendLane)
  {
    hide OnePlace;
    hide Carried;
    hide HeadWaits;
    hide Find;
    var l, i := q.sendLane, PlaceOf(q, e);
    if i < |l.pending| {
      SettleCarried(Sends(q), i, if e.AckRnr? then EAGAIN else e.status);
      UpdateCarried(l, l.pending[i], l.ctxs[l.pending[i]].(rnrWaiting := true, retrying := false));
    }
    hide Settle;
    hide Update;
  }

  lemma ExpireCarried(q: Qp, e: Event)
    requires Inv(q) && e.SendExpires? && Carried(q.sendLane) && HeadWaits(q.sendLane)
    ensures Carried(Step(q, e).sendLane) && HeadWaits(Step(q, e).sendLane)
  {
    hide OnePlace;
    hide Carried;
    hide HeadWaits;
    hide Find;
    var l := q.sendLane;
    if e.i < |l.pending| {
      var id := l.pending[e.i];
      var c := l.ctxs[id];
      SettleCarried(Sends(q), e.i, if c.rnrWaiting then EAGAIN else ETIMEDOUT);
      UpdateCarried(l, id, c.(retrying := true, rnrWaiting := false));
      UpdateCarried(l, id, c.(retrying := true));
    }
    hide Settle;
    hide Update;
  }

  lemma RetriedCarried(q: Qp, e: Event)
    requires Inv(q) && e.SendRetried? && Carried(q.sendLane) && HeadWaits(q.sendLane)
    ensures Carried(Step(q, e).sendLane) && HeadWaits(Step(q, e).sendLane)
  {
    hide OnePlace;
    hide Carried;
    hide HeadWaits;
    hide Find;
    var l := q.sendLane;
    if e.i < |l.pending| {
      var id := l.pending[e.i];
      SettleCarried(Sends(q), e.i, ETIMEDOUT);
      UpdateCarried(l, id, l.ctxs[id].(retrying := false));
      UpdateCarried(l, id, AfterPost(l.ctxs[id], e.rnr, e.result));
    }
    hide Settle;
    hide Update;
    hide AfterPost;
  }

  lemma OneCarried(q: Qp, e: Event)
    requires Inv(q) && AboutOne(e) && Carried(q.sendLane) && HeadWaits(q.sendLane)
    ensures Carried(Step(q, e).sendLane) && HeadWaits(Step(q, e).sendLane)
  {
    hide Step;
    if e.SendExpires? {
      ExpireCarried(q, e);
    } else if e.SendRetried? {
      RetriedCarried(q, e);
    } else {
      AckCarried(q, e);
    }
  }

  lemma PostCarried(q: Qp, e: Event)
    requires Inv(q) && e.PostSend? && Carried(q.sendLane) && HeadWaits(q.sendLane)
    ensures Carried(Step(q, e).sendLane) && HeadWaits(Step(q, e).sendLane)
  {
    hide OnePlace;
    PostNew(q, e);
    if CanPost(q) {
      var l, m := q.sendLane, Step(q, e).sendLane;
      forall id | 0 <= id < |l.ctxs| ensures m.ctxs[id] == l.ctxs[id] {
        assert m.ctxs[..|l.ctxs|][id] == m.ctxs[id];
      }
      SameCarried(l, m);
    }
    hide Step;
  }

  lemma StepCarried(q: Qp, e: Event)
    requires Inv(q) && Carried(q.sendLane) && HeadWaits(q.sendLane)
    ensures Carried(Step(q, e).sendLane) && HeadWaits(Step(q, e).sendLane)
  {
    hide OnePlace;
    hide Carried;
    if AboutOne(e) {
      OneCarried(q, e);
    } else if e.PostSend? {
      PostCarried(q, e);
    } else if e.FlushSendList? {
      FlushCarried(Sends(q));
      hide Flush;
    } else if e.FinishSend? {
      CompleteCarried(q.sendLane, e.i);
      hide Complete;
    } else {
      if e.SendDrained? && e.i < |q.sendLane.pending| {
        var id := q.sendLane.pending[e.i];
        UpdateCarried(q.sendLane, id, q.sendLane.ctxs[id].(retrying := false));
      }
      hide Settle;
      hide Posted;
      hide GiveUp;
      hide Flush;
    }
  }

  lemma {:induction false} RunCarried(maxWr: nat, first: psn, events: seq<Event>)
    ensures var l := Run(Start(maxWr, first), events).sendLane; Carried(l) && HeadWaits(l)
  {
    hide Step;
    if events != [] {
      SlotsExact(maxWr, first, events[..|events| - 1]);
      RunCarried(maxWr, first, events[..|events| - 1]);
      StepCarried(Run(Start(maxWr, first), events[..|events| - 1]), events[|events| - 1]);
    }
  }

  /** In every run: a send completes with the status of the event that settled it and with no other; and a
      send stays pending only behind one, or as one, that nothing has settled yet. */
  lemma CompletesAsSettled(maxWr: nat, first: psn, events: seq<Event>)
    ensures var q0 := Start(maxWr, first);
            var l := Run(q0, events).sendLane;
            && (forall i :: 0 <= i < |l.done| ==> SettledIn(q0, events, l.done[i].0, l.done[i].1))
            && (forall i, s :: 0 <= i < |l.done| && SettledIn(q0, events, l.done[i].0, s) ==> s == l.done[i].1)
            && (l.pending != [] ==> forall s :: !SettledIn(q0, events, l.pending[0], s))
  {
    hide Run;
    hide SettledIn;
    var q0 := Start(maxWr, first);
    var l := Run(q0, events).sendLane;
    RunCarried(maxWr, first, events);
    forall i | 0 <= i < |l.done|
      ensures forall s :: SettledIn(q0, events, l.done[i].0, s) <==> s == l.done[i].1
    {
      StatusExact(maxWr, first, events, l.done[i].0);
    }
    if l.pending != [] {
      StatusExact(maxWr, first, events, l.pending[0]);
    }
  }

  // ---------------------------------------------------------------- retries

  /** The retries of the send id that were posted, for a time-out or for a receiver that was not ready. */
  ghost function Retries(q: Qp, events: seq<Event>, id: nat, rnr: bool): nat
    requires Sound(q)
  {
    if events == [] then 0
    else
      var prefix, e := events[..|events| - 1], events[|events| - 1];
      Retries(q, prefix, id, rnr) + if RetryCounts(Run(q, prefix), e, id, rnr) then 1 else 0
  }

  lemma {:induction false} NoRetriesBefore(maxWr: nat, first: psn, events: seq<Event>, id: nat, rnr: bool)
    requires |Run(Start(maxWr, first), events).sendLane.ctxs| <= id
    ensures Retries(Start(maxWr, first), events, id, rnr) == 0
  {
    hide Step;
    if events != [] {
      var prefix := events[..|events| - 1];
      SlotsExact(maxWr, first, prefix);
      CtxsKept(Run(Start(maxWr, first), prefix), events[|events| - 1]);
      NoRetriesBefore(maxWr, first, prefix, id, rnr);
    }
  }

  /** In every run the retry counters of a send are the retries that were posted for it, up to 255: so a send
      fails for a spent budget only after its retries. */
  lemma {:induction false} RetriesExact(maxWr: nat, first: psn, events: seq<Event>, id: nat)
    requires id < |Run(Start(maxWr, first), events).sendLane.ctxs|
    ensures var q0 := Start(maxWr, first);
            var c := Run(q0, events).sendLane.ctxs[id];
            var n, m := Retries(q0, events, id, false), Retries(q0, events, id, true);
            c.retries == (if n < 255 then n else 255) && c.rnrRetries == (if m < 255 then m else 255)
  {
    hide Step;
    hide RetryCounts;
    if events != [] {
      var n := |events| - 1;
      var prefix, e := events[..n], events[n];
      var q := Run(Start(maxWr, first), prefix);
      SlotsExact(maxWr, first, prefix);
      CtxsKept(q, e);
      if id < |q.sendLane.ctxs| {
        RetriesExact(maxWr, first, prefix, id);
        EachJudged(q, e, id);
      } else {
        PostNew(q, e);
        NoRetriesBefore(maxWr, first, prefix, id, false);
        NoRetriesBefore(maxWr, first, prefix, id, true);
        NoRetryOfNone(q, e, id);
      }
    }
  }

  lemma NoRetryOfNone(q: Qp, e: Event, id: nat)
    requires Sound(q) && id >= |q.sendLane.ctxs|
    ensures !RetryCounts(q, e, id, true) && !RetryCounts(q, e, id, false)
  {
  }

  /** A send keeps the PSN with which it was posted. */
  lemma {:induction false} PsnKept(maxWr: nat, first: psn, events: seq<Event>, k: nat)
    requires k < |events| && events[k].PostSend?
    ensures var q, l := Run(Start(maxWr, first), events[..k]), Run(Start(maxWr, first), events).sendLane;
            CanPost(q) ==> |q.sendLane.ctxs| < |l.ctxs| && l.ctxs[|q.sendLane.ctxs|].psn == q.nextPsn
  {
    hide Step;
    var n := |events| - 1;
    var prefix := events[..n];
    var q := Run(Start(maxWr, first), prefix);
    SlotsExact(maxWr, first, prefix);
    CtxsKept(q, events[n]);
    assert prefix[..k] == events[..k];
    if k < n {
      PsnKept(maxWr, first, prefix, k);
      var id := |Run(Start(maxWr, first), events[..k]).sendLane.ctxs|;
      if id < |q.sendLane.ctxs| {
        EachJudged(q, events[n], id);
      }
    } else {
      PostNew(q, events[n]);
    }
  }

  /** A send that was answered receiver-not-ready, with retries left, is retried when its timer runs out. */
  lemma NotReadyRetried(maxWr: nat, first: psn, events: seq<Event>, p: psn, id: nat, i: nat, final: bool)
    requires var q := Run(Start(maxWr, first), events);
             FirstWith(q.sendLane, p, id) && IsAt(q.sendLane, i, id) && !q.sendLane.ctxs[id].ready && !q.error
             && !NoRnrLeft(q.sendLane.ctxs[id])
    ensures var q := Run(Start(maxWr, first), events);
            var r := Step(Step(q, AckRnr(p)), SendExpires(i, false, final));
            && r.sendLane.pending == q.sendLane.pending
            && r.sendLane.ctxs[id] == q.sendLane.ctxs[id].(retrying := true, rnrWaiting := false)
  {
    hide Run;
    SlotsExact(maxWr, first, events);
    var q := Run(Start(maxWr, first), events);
    FirstIsFound(q.sendLane, p, id);
    assert Find(q.sendLane, p, 0) == i;
    hide Settle;
    hide Find;
  }

  /** A send that was not answered, with retries left, is retried when its timer runs out. */
  lemma TimeOutRetried(q: Qp, id: nat, i: nat, final: bool)
    requires Sound(q) && IsAt(q.sendLane, i, id) && !q.error
    requires var c := q.sendLane.ctxs[id]; !c.ready && !c.rnrWaiting && !c.retrying && c.retries < c.maxRetries
    ensures var r := Step(q, SendExpires(i, false, final));
            && r.sendLane.pending == q.sendLane.pending
            && r.sendLane.ctxs[id] == q.sendLane.ctxs[id].(retrying := true)
  {
    hide Settle;
  }

  /** A send whose last frame has left, or whose retry could not be posted for now, is retried again when its timer
      runs out, as long as it has retries left. */
  lemma RetriedAgain(q: Qp, e: Event, id: nat, i: nat, final: bool)
    requires Sound(q) && IsAt(q.sendLane, i, id) && !q.error
    requires e == SendDrained(i) || (e.SendRetried? && e.i == i && (e.result == NoMemory || e.result == NotConnected))
    requires var c := q.sendLane.ctxs[id]; !c.ready && !c.rnrWaiting && !c.completed && c.retries + 1 < c.maxRetries
    ensures var r := Step(Step(q, e), SendExpires(i, false, final));
            && r.sendLane.pending == q.sendLane.pending && r.count == q.count
            && r.sendLane.ctxs[id] == q.sendLane.ctxs[id].(retrying := true, retries := r.sendLane.ctxs[id].retries)
            && r.sendLane.ctxs[id].retries <= q.sendLane.ctxs[id].retries + 1
  {
    hide Settle;
  }

  /** On a queue pair in error no retry is posted, and the send fails when its timer runs out. */
  lemma ErrorEndsRetry(q: Qp, id: nat, i: nat, rnr: bool, result: PostResult, final: bool)
    requires Sound(q) && IsAt(q.sendLane, i, id) && q.error
    requires var c := q.sendLane.ctxs[id]; !c.ready && !c.rnrWaiting
    ensures var r := Step(Step(q, SendRetried(i, rnr, result)), SendExpires(i, false, final));
            && id < |r.sendLane.ctxs| && r.sendLane.ctxs[id].ready && r.sendLane.ctxs[id].status == ETIMEDOUT
  {
    var s := Step(q, SendRetried(i, rnr, result));
    assert s.sendLane.ctxs[id] == q.sendLane.ctxs[id].(retrying := false);
    hide Drain;
    DrainKeepsStatus(Held(ReadyAt(s.sendLane, i, ETIMEDOUT), s.count), id);
  }

  lemma {:induction false} DrainKeepsStatus(h: Held, id: nat)
    requires InRange(h.lane) && id < |h.lane.ctxs|
    ensures var l := Drain(h).lane;
            id < |l.ctxs| && l.ctxs[id].ready == h.lane.ctxs[id].ready && l.ctxs[id].status == h.lane.ctxs[id].status
    decreases |h.lane.pending|
  {
    if h.lane.pending != [] && h.lane.ctxs[h.lane.pending[0]].ready {
      DrainKeepsStatus(ToLimbo(h, 0), id);
    }
  }

  // ---------------------------------------------------------------- reads

  /** What gives the pending read id the status s. */
  ghost predicate SettlesRead(q: Qp, e: Event, id: nat, s: int)
    requires Sound(q)
  {
    && id < |q.readLane.ctxs| && id in q.readLane.pending
    && match e
       case ReadDone(i, status) => IsAt(q.readLane, i, id) && !q.readLane.ctxs[id].ready && s == status
       case ReadExpires(i) => IsAt(q.readLane, i, id) && !q.readLane.ctxs[id].ready && s == ETIMEDOUT
       case FlushReadList => q.error && s == ECANCELED
       case _ => false
  }

  ghost predicate ReadSettledAt(q: Qp, events: seq<Event>, k: nat, id: nat, s: int)
    requires Sound(q) && k < |events|
  {
    SettlesRead(Run(q, events[..k]), events[k], id, s)
  }

  ghost predicate ReadSettledIn(q: Qp, events: seq<Event>, id: nat, s: int)
    requires Sound(q)
  {
    exists k :: 0 <= k < |events| && ReadSettledAt(q, events, k, id, s)
  }

  lemma ReadSettledPrefix(q: Qp, events: seq<Event>, k: nat, id: nat, s: int)
    requires Sound(q) && k + 1 < |events|
    ensures ReadSettledAt(q, events[..|events| - 1], k, id, s) <==> ReadSettledAt(q, events, k, id, s)
  {
    hide Run;
    hide SettlesRead;
    assert events[..|events| - 1][..k] == events[..k];
  }

  lemma ReadSettledMore(q: Qp, events: seq<Event>, id: nat, s: int)
    requires Sound(q) && events != []
    ensures var n := |events| - 1;
            (ReadSettledIn(q, events[..n], id, s) || ReadSettledAt(q, events, n, id, s))
            ==> ReadSettledIn(q, events, id, s)
  {
    hide ReadSettledAt;
    var n := |events| - 1;
    forall k: nat | k < n
      ensures ReadSettledAt(q, events[..n], k, id, s) <==> ReadSettledAt(q, events, k, id, s)
    {
      ReadSettledPrefix(q, events, k, id, s);
    }
  }

  /** The flush of reads gives every pending one ECANCELED. */
  lemma {:induction false} ForcedVerdict(h: Held)
    requires InRange(h.lane)
    ensures var l, m := h.lane, Flush(h, true).lane;
            && |m.ctxs| == |l.ctxs|
            && forall id :: 0 <= id < |l.ctxs| ==>
                 && m.ctxs[id].ready == (l.ctxs[id].ready || id in l.pending)
                 && m.ctxs[id].status == if id in l.pending then ECANCELED else l.ctxs[id].status
    decreases |h.lane.pending|
  {
    if h.lane.pending != [] {
      var l, id := h.lane, h.lane.pending[0];
      var s := Held(Update(l, id, Flushed(l.ctxs[id], true)), h.count);
      LeaveSame(s, 0);
      var t := ToLimbo(s, 0);
      ForcedVerdict(t);
      hide Flush;
      assert t.lane.pending == l.pending[1..];
      assert l.pending == [id] + t.lane.pending;
      forall j | 0 <= j < |l.ctxs| ensures SameVerdict(s.lane.ctxs[j], t.lane.ctxs[j]) {
      }
      hide ToLimbo;
    }
  }

  /** A read's status after an event is the one it had, or the one the event gave. */
  ghost predicate ReadJudged(q: Qp, e: Event, id: nat)
    requires Sound(q) && id < |Step(q, e).readLane.ctxs|
  {
    var l, d := q.readLane, Step(q, e).readLane.ctxs[id];
    d.ready ==>
      || SettlesRead(q, e, id, d.status)
      || (id < |l.ctxs| && l.ctxs[id].ready && l.ctxs[id].status == d.status)
  }

  lemma EachReadJudged(q: Qp, e: Event, id: nat)
    requires Inv(q) && id < |Step(q, e).readLane.ctxs|
    ensures ReadJudged(q, e, id)
  {
    hide OnePlace;
    if e.ReadDone? && e.i < |q.readLane.pending| {
      SettleVerdict(Reads(q), e.i, e.status);
    } else if e.ReadExpires? && e.i < |q.readLane.pending| && !q.readLane.ctxs[q.readLane.pending[e.i]].ready {
      var at := q.readLane.pending[e.i];
      LeaveSame(Held(Update(q.readLane, at, q.readLane.ctxs[at].(ready := true, status := ETIMEDOUT)), q.count), e.i);
    } else if e.FlushReadList? {
      ForcedVerdict(Reads(q));
    }
    hide Settle;
    hide Flush;
    hide CompleteOrdered;
    hide ToLimbo;
    hide Expire;
    hide Retried;
    hide NoteRnr;
  }

  /** A pending context may get any status: nothing that has left the list is it. */
  lemma PendingCarried(l: Lane, id: nat, c: Ctx)
    requires Placed(l) && Carried(l) && id in l.pending
    ensures Carried(Update(l, id, c))
  {
    assert Places(l)[id] == 1;
    assert multiset(l.pending)[id] >= 1;
    assert id !in l.limbo && id !in Ids(l.done);
    forall i | 0 <= i < |l.done| ensures l.done[i].0 != id {
      assert Ids(l.done)[i] == l.done[i].0;
    }
  }

  lemma LeaveAnyCarried(h: Held, i: nat)
    requires InRange(h.lane) && i < |h.lane.pending| && h.lane.ctxs[h.lane.pending[i]].ready && Carried(h.lane)
    ensures Carried(ToLimbo(h, i).lane)
  {
  }

  lemma {:induction false} ForceCarried(h: Held, others: nat)
    requires Good(h, others) && Carried(h.lane)
    ensures Carried(Flush(h, true).lane)
    decreases |h.lane.pending|
  {
    hide OnePlace;
    hide Carried;
    if h.lane.pending != [] {
      var id := h.lane.pending[0];
      var c := Flushed(h.lane.ctxs[id], true);
      var s := Held(Update(h.lane, id, c), h.count);
      UpdateGood(h, id, c, others);
      PendingCarried(h.lane, id, c);
      ToLimboGood(s, 0, others);
      LeaveCarried(s);
      ForceCarried(ToLimbo(s, 0), others);
    }
  }

  lemma ExpiredCarried(q: Qp, i: nat)
    requires Inv(q) && Carried(q.readLane)
    ensures Carried(GiveUp(Reads(q), i).lane)
  {
    hide OnePlace;
    hide Carried;
    if i < |q.readLane.pending| && !q.readLane.ctxs[q.readLane.pending[i]].ready {
      var id := q.readLane.pending[i];
      var c := q.readLane.ctxs[id].(ready := true, status := ETIMEDOUT);
      PendingCarried(q.readLane, id, c);
      LeaveAnyCarried(Held(Update(q.readLane, id, c), q.count), i);
    }
  }

  lemma CompleteReadCarried(l: Lane, i: nat)
    requires Placed(l) && Carried(l)
    ensures Carried(Complete(l, i))
  {
    hide OnePlace;
  }

  lemma PostReadCarried(h: Held, p: psn, posted: bool)
    requires InRange(h.lane) && Carried(h.lane)
    ensures Carried(Posted(h, p, None, 0, posted).lane)
  {
  }

  lemma StepReadCarried(q: Qp, e: Event)
    requires Inv(q) && Carried(q.readLane)
    ensures Carried(Step(q, e).readLane)
  {
    hide OnePlace;
    hide Carried;
    if e.PostRead? {
      PostReadCarried(Reads(q), q.nextPsn, e.posted);
    } else if e.ReadDone? && e.i < |q.readLane.pending| {
      SettleReadCarried(Reads(q), e.i, e.status);
    } else if e.ReadExpires? {
      ExpiredCarried(q, e.i);
    } else if e.FlushReadList? {
      ForceCarried(Reads(q), |q.sendLane.pending|);
    } else if e.FinishRead? {
      CompleteReadCarried(q.readLane, e.i);
    }
    hide Posted;
    hide Settle;
    hide GiveUp;
    hide Flush;
    hide Complete;
    hide CompleteOrdered;
    hide NoteRnr;
    hide Expire;
    hide Retried;
  }

  lemma SettleReadCarried(h: Held, i: nat, s: int)
    requires InRange(h.lane) && i < |h.lane.pending| && Carried(h.lane)
    ensures Carried(Settle(h, i, s).lane)
  {
    SettleCarried(h, i, s);
  }

  /** A read's status comes from an event of the run. */
  ghost predicate ReadsTrue(q0: Qp, events: seq<Event>)
    requires Sound(q0)
  {
    var l := Run(q0, events).readLane;
    && Carried(l)
    && forall id :: 0 <= id < |l.ctxs| && l.ctxs[id].ready ==> ReadSettledIn(q0, events, id, l.ctxs[id].status)
  }

  lemma {:induction false} RunReadsTrue(maxWr: nat, first: psn, events: seq<Event>)
    ensures ReadsTrue(Start(maxWr, first), events)
  {
    hide Step;
    hide Carried;
    hide ReadSettledIn;
    hide SettlesRead;
    var q0 := Start(maxWr, first);
    if events == [] {
      StartCarried(maxWr, first);
    } else {
      var n := |events| - 1;
      var prefix, e := events[..n], events[n];
      var q := Run(q0, prefix);
      SlotsExact(maxWr, first, prefix);
      RunReadsTrue(maxWr, first, prefix);
      StepReadCarried(q, e);
      var m := Run(q0, events).readLane;
      forall id | 0 <= id < |m.ctxs| && m.ctxs[id].ready ensures ReadSettledIn(q0, events, id, m.ctxs[id].status) {
        EachReadJudged(q, e, id);
        ReadSettledMore(q0, events, id, m.ctxs[id].status);
      }
    }
  }

  lemma StartCarried(maxWr: nat, first: psn)
    ensures Carried(Start(maxWr, first).readLane) && Start(maxWr, first).readLane.ctxs == []
  {
  }

  /** In every run a read completes with the status of an event that gave it one while it was pending: its
      response, its time-out, or the flush on error. */
  lemma ReadCompletesAsSettled(maxWr: nat, first: psn, events: seq<Event>)
    ensures var q0 := Start(maxWr, first);
            var l := Run(q0, events).readLane;
            forall i :: 0 <= i < |l.done| ==> ReadSettledIn(q0, events, l.done[i].0, l.done[i].1)
  {
    hide Run;
    hide ReadSettledIn;
    RunReadsTrue(maxWr, first, events);
  }

  /** A read that expires leaves the list at once, whatever is before it, gives its slot back, and will complete
      with ETIMEDOUT. */
  lemma ReadTimesOut(q: Qp, id: nat, i: nat)
    requires Sound(q) && IsAt(q.readLane, i, id) && !q.readLane.ctxs[id].ready && !q.readLane.ctxs[id].completed
    ensures var s := Step(q, ReadExpires(i));
            && s.readLane.pending == q.readLane.pending[..i] + q.readLane.pending[i + 1..]
            && s.readLane.limbo == q.readLane.limbo + [id]
            && s.count == (if q.readLane.ctxs[id].counted && q.count > 0 then q.count - 1 else q.count)
            && Step(s, FinishRead(|q.readLane.limbo|)).readLane.done == q.readLane.done + [(id, ETIMEDOUT)]
  {
  }
}
