/** The send contexts of struct tbv_qp (kernel/ibdev.c) as the C code keeps them: objects on the list
    pending_sends, with the slots in use counted in sendq_count. The methods refine SendQueue. */
module SendList {
  import opened Prelude
  import opened Psn
  import opened Lists
  import opened SendQueue

  /** struct tbv_send_ctx; `id` is its place among all that were posted. */
  class SendCtx {
    const psn: psn
    const maxRnr: Option<nat>
    const maxRetries: nat
    ghost const id: nat
    var sqCounted: bool
    var ready: bool
    var status: int
    var completed: bool
    var rnrWaiting: bool
    var retrying: bool
    var rnrRetries: nat
    var retries: nat

    ghost function Value(): Ctx
      reads this
    {
      Ctx(psn, sqCounted, ready, status, completed, rnrWaiting, retrying, rnrRetries, maxRnr, retries, maxRetries)
    }

    constructor (p: psn, maxRnr: Option<nat>, maxRetries: nat, ghost id: nat)
      ensures Value() == Ctx(p, true, false, 0, false, false, false, 0, maxRnr, 0, maxRetries) && this.id == id
    {
      psn, this.maxRnr, this.maxRetries, this.id := p, maxRnr, maxRetries, id;
      sqCounted, ready, status, completed := true, false, 0, false;
      rnrWaiting, retrying, rnrRetries, retries := false, false, 0, 0;
    }

    /** The first status sticks. */
    method GiveStatus(s: int)
      modifies this
      ensures Value() == MarkReady(old(Value()), s)
    {
      if !ready {
        ready, status, retrying, rnrWaiting := true, s, false, false;
      }
    }

    method StopWaiting()
      modifies this`retrying, this`rnrWaiting
      ensures Value() == old(Value()).(retrying := false, rnrWaiting := false)
    {
      retrying, rnrWaiting := false, false;
    }

    /** The counters after posting a retry. */
    method CountRetry(rnr: bool, result: PostResult)
      requires result != Failed
      modifies this
      ensures Value() == AfterPost(old(Value()), rnr, result)
    {
      if result == Posts && rnr {
        rnrRetries := if rnrRetries < 255 then rnrRetries + 1 else rnrRetries;
      } else if result != NoMemory {
        retries := if retries < 255 then retries + 1 else retries;
      }
      if result != Posts {
        retrying := false;
      }
    }
  }

  ghost function IdsOf(q: seq<SendCtx>): (r: seq<nat>)
    ensures |r| == |q|
  {
    seq(|q|, i requires 0 <= i < |q| => q[i].id)
  }

  ghost function Values(all: seq<SendCtx>): (r: seq<Ctx>)
    reads all
    ensures |r| == |all|
  {
    if all == [] then [] else Values(all[..|all| - 1]) + [all[|all| - 1].Value()]
  }

  ghost predicate Numbered(all: seq<SendCtx>) {
    forall i :: 0 <= i < |all| ==> all[i].id == i
  }

  ghost predicate Known(all: seq<SendCtx>, c: SendCtx) {
    c.id < |all| && all[c.id] == c
  }

  ghost predicate AllKnown(all: seq<SendCtx>, q: seq<SendCtx>) {
    forall i :: 0 <= i < |q| ==> Known(all, q[i])
  }

  lemma {:induction false} ValueAt(all: seq<SendCtx>, i: nat)
    requires i < |all|
    ensures Values(all)[i] == all[i].Value()
  {
    if i < |all| - 1 {
      ValueAt(all[..|all| - 1], i);
    }
  }

  lemma EachValue(all: seq<SendCtx>)
    ensures forall i :: 0 <= i < |all| ==> Values(all)[i] == all[i].Value()
  {
    forall i: nat | i < |all| ensures Values(all)[i] == all[i].Value() {
      ValueAt(all, i);
    }
  }

  lemma OneMore(all: seq<SendCtx>, c: SendCtx)
    ensures Values(all + [c]) == Values(all) + [c.Value()]
  {
    assert (all + [c])[..|all|] == all;
  }

  /** A change of one context; `was` are the values before. */
  lemma OneChanged(all: seq<SendCtx>, c: SendCtx, was: seq<Ctx>)
    requires Numbered(all) && Known(all, c) && |was| == |all|
    requires forall i :: 0 <= i < |all| && i != c.id ==> was[i] == all[i].Value()
    ensures Values(all) == was[c.id := c.Value()]
  {
    hide Values;
    EachValue(all);
  }

  class SendQp {
    var pending: seq<SendCtx>
    var sendqCount: nat
    const maxWr: nat
    var error: bool
    ghost var all: seq<SendCtx>
    ghost var limbo: seq<SendCtx>
    ghost var done: seq<(nat, int)>
    ghost var withdrawn: seq<nat>

    ghost predicate Valid()
      reads this
    {
      Numbered(all) && AllKnown(all, pending) && AllKnown(all, limbo)
    }

    ghost function Value(): Held
      reads this, all
    {
      Held(Lane(Values(all), IdsOf(pending), IdsOf(limbo), done, withdrawn), sendqCount)
    }

    constructor (maxWr: nat)
      ensures Valid() && all == [] && Value() == Sends(SendQueue.Start(maxWr, 0)) && !error && this.maxWr == maxWr
    {
      pending, sendqCount, error, all, limbo, done, withdrawn := [], 0, false, [], [], [], [];
      this.maxWr := maxWr;
    }

    /** tbv_qp_reserve_sendq and tbv_qp_queue_send; a refused post changes nothing. */
    method Post(p: psn, maxRnr: Option<nat>, maxRetries: nat) returns (send: SendCtx?)
      requires Valid()
      modifies this`pending, this`sendqCount, this`all
      ensures Valid() && (send != null) == (!error && old(sendqCount) < maxWr)
      ensures send == null ==> Value() == old(Value()) && all == old(all)
      ensures send != null ==> fresh(send) && all == old(all) + [send] && pending == old(pending) + [send]
      ensures send != null ==> Value() == Enqueue(old(Value()), p, maxRnr, maxRetries)
    {
      hide Values;
      if error || sendqCount >= maxWr {
        return null;
      }
      sendqCount := sendqCount + 1;
      send := new SendCtx(p, maxRnr, maxRetries, |all|);
      OneMore(all, send);
      all := all + [send];
      pending := pending + [send];
    }

    /** tbv_qp_release_sendq_counted_locked. */
    method ReleaseSlot(c: SendCtx)
      modifies this`sendqCount, c`sqCounted
      ensures (c.Value(), sendqCount) == Release(old(c.Value()), old(sendqCount))
    {
      if c.sqCounted {
        sendqCount := if sendqCount == 0 then 0 else sendqCount - 1;
        c.sqCounted := false;
      }
    }

    /** The context at place i is taken off the list and gives its slot back. */
    method TakeOff(c: SendCtx, i: nat)
      requires Valid() && i < |pending| && c == pending[i]
      modifies this`pending, this`sendqCount, c
      ensures Valid() && pending == Without(old(pending), i)
      ensures Value() == Leave(old(Value()), i)
    {
      hide Values;
      EachValue(all);
      ghost var was := Values(all);
      pending := pending[..i] + pending[i + 1..];
      c.StopWaiting();
      ReleaseSlot(c);
      OneChanged(all, c, was);
    }

    /** tbv_qp_unqueue_send, which looks the context up in the list. */
    method Unqueue(send: SendCtx) returns (found: bool)
      requires Valid() && Known(all, send)
      modifies this`pending, this`sendqCount, this`withdrawn, send
      ensures Valid() && found == (send in old(pending))
      ensures found ==> exists i :: 0 <= i < |old(pending)| && old(pending)[i] == send
                                    && Value() == Withdraw(old(Value()), i)
      ensures !found ==> Value() == old(Value())
    {
      hide Leave;
      hide Values;
      var i := 0;
      while i < |pending|
        invariant i <= |pending| && send !in pending[..i]
      {
        if pending[i] == send {
          ghost var was := Value();
          TakeOff(send, i);
          LeaveKeeps(was, i);
          withdrawn := withdrawn + [send.id];
          assert Value() == Withdraw(was, i);
          return true;
        }
        i := i + 1;
      }
      return false;
    }

    /** Moves the context at place i of the list to the list of those to complete. */
    method MoveTo(c: SendCtx, i: nat, complete: seq<SendCtx>) returns (r: seq<SendCtx>)
      requires Valid() && i < |pending| && c == pending[i]
      modifies this`pending, this`sendqCount, this`limbo, c
      ensures Valid() && Value() == ToLimbo(old(Value()), i) && pending == Without(old(pending), i)
      ensures r == complete + [c] && limbo == old(limbo) + [c]
    {
      hide Values;
      hide Leave;
      ghost var was := Value();
      TakeOff(c, i);
      LeaveKeeps(was, i);
      limbo := limbo + [c];
      r := complete + [c];
      assert IdsOf(limbo) == was.lane.limbo + [c.id];
    }

    /** tbv_qp_drain_ready_sends_locked. */
    method DrainReady(complete: seq<SendCtx>) returns (r: seq<SendCtx>)
      requires Valid()
      modifies this`pending, this`sendqCount, this`limbo, pending
      ensures Valid() && Value() == Drain(old(Value()))
      ensures exists moved :: r == complete + moved && limbo == old(limbo) + moved
    {
      hide ToLimbo;
      hide Values;
      r := complete;
      ghost var moved: seq<SendCtx> := [];
      while pending != []
        invariant Valid() && Drain(Value()) == Drain(old(Value()))
        invariant r == complete + moved && limbo == old(limbo) + moved
        invariant forall c :: c in pending ==> c in old(pending)
        decreases |pending|
      {
        EachValue(all);
        if !pending[0].ready {
          return;
        }
        assert pending[0] in pending;
        moved := moved + [pending[0]];
        r := MoveTo(pending[0], 0, r);
      }
    }

    /** The search of the pending list by PSN. */
    method FindPsn(p: psn) returns (i: nat)
      requires Valid()
      ensures i == Find(Value().lane, p, 0)
    {
      hide Values;
      EachValue(all);
      i := 0;
      while i < |pending|
        invariant i <= |pending| && Find(Value().lane, p, i) == Find(Value().lane, p, 0)
      {
        if pending[i].psn == p {
          return;
        }
        i := i + 1;
      }
    }

    /** A context gets its status unless it already has one, and the list is drained. */
    method SettleAt(i: nat, status: int) returns (complete: seq<SendCtx>)
      requires Valid() && i < |pending|
      modifies this`pending, this`sendqCount, this`limbo, pending
      ensures Valid() && Value() == Settle(old(Value()), i, status) && limbo == old(limbo) + complete
    {
      hide Values;
      EachValue(all);
      ghost var was := Values(all);
      pending[i].GiveStatus(status);
      OneChanged(all, pending[i], was);
      complete := DrainReady([]);
    }

    /** tbv_qp_complete_send_ordered. */
    method CompleteSend(p: psn, status: int) returns (found: bool, complete: seq<SendCtx>)
      requires Valid()
      modifies this`pending, this`sendqCount, this`limbo, pending
      ensures Valid() && Value() == CompleteOrdered(old(Value()), p, status) && limbo == old(limbo) + complete
      ensures found == (Find(old(Value()).lane, p, 0) < |old(pending)|)
    {
      hide Settle;
      hide Values;
      hide Find;
      var i := FindPsn(p);
      found, complete := i < |pending|, [];
      if found {
        complete := SettleAt(i, status);
      }
    }

    /** tbv_qp_note_rnr_ack. */
    method NoteRnrAck(p: psn) returns (matched: bool, complete: seq<SendCtx>)
      requires Valid()
      modifies this`pending, this`sendqCount, this`limbo, pending
      ensures Valid() && Value() == NoteRnr(old(Value()), p, error) && limbo == old(limbo) + complete
    {
      hide Settle;
      hide Values;
      hide Find;
      EachValue(all);
      ghost var was := Values(all);
      var i := FindPsn(p);
      matched, complete := i < |pending|, [];
      if matched {
        var send := pending[i];
        if (send.maxRnr.Some? && send.rnrRetries >= send.maxRnr.value) || error {
          complete := SettleAt(i, EAGAIN);
        } else {
          send.rnrWaiting, send.retrying := true, false;
          OneChanged(all, send, was);
        }
      }
    }

    /** The decision of tbv_qp_timeout_reap_tx for an expired send at place i. */
    method ReapAt(i: nat, busy: bool, final: bool) returns (complete: seq<SendCtx>)
      requires Valid()
      modifies this`pending, this`sendqCount, this`limbo, pending
      ensures Valid() && Value() == Expire(old(Value()), i, error, busy, final) && limbo == old(limbo) + complete
    {
      hide Settle;
      hide Values;
      EachValue(all);
      ghost var was := Values(all);
      complete := [];
      if i >= |pending| || pending[i].ready {
        return;
      }
      var send := pending[i];
      if send.rnrWaiting {
        if !send.retrying && !busy && !(send.maxRnr.Some? && send.rnrRetries >= send.maxRnr.value) && !error {
          send.retrying, send.rnrWaiting := true, false;
          OneChanged(all, send, was);
        } else {
          complete := SettleAt(i, EAGAIN);
        }
        return;
      }
      if busy || (send.maxRetries > 0 && send.retrying && !final) {
        return;
      }
      if !send.retrying && send.retries < send.maxRetries && !error {
        send.retrying := true;
        OneChanged(all, send, was);
      } else {
        complete := SettleAt(i, ETIMEDOUT);
      }
    }

    /** What the retry loop of tbv_qp_timeout_work does after posting the send at place i. */
    method AfterRetry(i: nat, rnr: bool, result: PostResult) returns (complete: seq<SendCtx>)
      requires Valid()
      modifies this`pending, this`sendqCount, this`limbo, pending
      ensures Valid() && Value() == Retried(old(Value()), i, rnr, result, error) && limbo == old(limbo) + complete
    {
      hide Settle;
      hide Values;
      hide AfterPost;
      EachValue(all);
      ghost var was := Values(all);
      complete := [];
      if i >= |pending| {
        return;
      }
      var send := pending[i];
      if error || send.completed {
        send.retrying := false;
        OneChanged(all, send, was);
      } else if result == Failed {
        complete := SettleAt(i, ETIMEDOUT);
      } else {
        send.CountRetry(rnr, result);
        OneChanged(all, send, was);
      }
    }

    /** tbv_send_tx_done without error, for a reliable send whose last frame has left. */
    method TxDrainedAt(i: nat)
      requires Valid()
      modifies pending
      ensures Valid() && Value() == TxDrained(old(Value()), i)
    {
      hide Values;
      EachValue(all);
      ghost var was := Values(all);
      if i < |pending| {
        pending[i].retrying := false;
        OneChanged(all, pending[i], was);
      }
    }

    /** tbv_qp_flush_sends, on entering ERR, and tbv_qp_flush_reads with the status its caller completes
        the reads with. */
    method FlushAll(force: bool) returns (flush: seq<SendCtx>)
      requires Valid()
      modifies this`pending, this`sendqCount, this`limbo, pending
      ensures Valid() && Value() == Flush(old(Value()), force) && limbo == old(limbo) + flush
    {
      hide ToLimbo;
      hide Values;
      flush := [];
      while pending != []
        invariant Valid() && Flush(Value(), force) == Flush(old(Value()), force)
        invariant limbo == old(limbo) + flush
        invariant forall c :: c in pending ==> c in old(pending)
        decreases |pending|
      {
        assert pending[0] in pending;
        CancelHead(force);
        flush := MoveTo(pending[0], 0, flush);
      }
    }

    method CancelHead(force: bool)
      requires Valid() && pending != []
      modifies pending[0]
      ensures var l := old(Value()).lane; var id := l.pending[0];
              Value() == old(Value()).(lane := Update(l, id, Flushed(l.ctxs[id], force)))
    {
      hide Values;
      EachValue(all);
      ghost var was := Values(all);
      var send := pending[0];
      if force {
        send.ready, send.status := true, ECANCELED;
      } else {
        send.GiveStatus(ECANCELED);
      }
      OneChanged(all, send, was);
    }

    /** tbv_qp_mark_error and its flush of the sends. */
    method EnterError() returns (flush: seq<SendCtx>)
      requires Valid()
      modifies this`error, this`pending, this`sendqCount, this`limbo, pending
      ensures Valid() && error && Value() == Flush(old(Value()), false) && limbo == old(limbo) + flush
    {
      error := true;
      flush := FlushAll(false);
    }

    /** The time-out of one pending read in tbv_qp_timeout_reap_tx. */
    method ExpireReadAt(i: nat) returns (timedOut: seq<SendCtx>)
      requires Valid()
      modifies this`pending, this`sendqCount, this`limbo, pending
      ensures Valid() && Value() == GiveUp(old(Value()), i) && limbo == old(limbo) + timedOut
    {
      hide ToLimbo;
      hide Values;
      EachValue(all);
      ghost var was := Values(all);
      timedOut := [];
      if i < |pending| && !pending[i].ready {
        var read := pending[i];
        read.ready, read.status := true, ETIMEDOUT;
        OneChanged(all, read, was);
        timedOut := MoveTo(read, i, []);
      }
    }

    /** tbv_send_complete for the i-th of those off the list: the completed flag lets one completion through. */
    method Complete(send: SendCtx, ghost i: nat)
      requires Valid() && i < |limbo| && limbo[i] == send
      modifies this`limbo, this`done, send
      ensures Valid() && Value() == old(Value()).(lane := SendQueue.Complete(old(Value()).lane, i))
    {
      hide Values;
      EachValue(all);
      ghost var was := Values(all);
      limbo := Without(limbo, i);
      if !send.completed {
        done := done + [(send.id, send.status)];
        send.completed := true;
      }
      OneChanged(all, send, was);
    }
  }

  lemma LeaveKeeps(h: Held, i: nat)
    requires InRange(h.lane) && i < |h.lane.pending|
    ensures Leave(h, i).lane.limbo == h.lane.limbo && Leave(h, i).lane.done == h.lane.done
    ensures Leave(h, i).lane.withdrawn == h.lane.withdrawn
  {
  }
}
