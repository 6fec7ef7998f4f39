/** struct tbv_rail_bind with its pointer to the queue pair, the queue pair's own flags, and the transmit
    counters of the path (kernel/ibdev.c, kernel/path.c), updated in place, against RailBind. */
module RailState {
  import opened Prelude
  import opened RailBind

  const QPN_SHIFTED: nat := 0x100

  /** The fields of struct tbv_qp that the binding uses. */
  class QpObj {
    ghost const id: nat
    var closing: bool
    var railBound: bool
    var bindEpoch: nat
    ghost var retired: bool

    ghost function Value(): Qp
      reads this
    {
      Qp(id, closing, railBound, bindEpoch, retired)
    }

    constructor (ghost id: nat)
      ensures Value() == Qp(id, false, false, 0, false)
    {
      this.id, closing, railBound, bindEpoch, retired := id, false, false, 0, false;
    }
  }

  /** tbv_rail_apple_check_remote_qpn_locked: the receive hop encoded in the peer's number is the hop this
      path transmits on, if that is known. */
  predicate HopMatches(localPath: int, remoteQpn: u32) {
    localPath < 0 || remoteQpn / QPN_SHIFTED == localPath
  }

  /** A remote number that may not be known yet. */
  function Remote(known: bool, qpn: u32): Option<nat> {
    if known then Some(qpn as nat) else None
  }

  class RailObj {
    const localPath: int
    var state: BindState
    var qp: QpObj?
    var epoch: nat
    var remoteQpn: u32
    var remoteKnown: bool
    var lastTeardownError: int
    var rxMark: nat
    var rxCompleted: nat
    var removing: bool
    var txClosed: bool
    var ringsStopped: bool
    var txQueued: nat
    var txInflight: int
    ghost var queue: seq<nat>
    ghost var inflight: seq<nat>
    ghost var cur: QpObj?  // the queue pair that holds the number
    ghost var next: nat
    ghost var tickets: seq<Ticket>
    ghost var quiesce: Option<Quiesce>

    ghost predicate Valid()
      reads this, qp, cur
    {
      && txQueued == |queue| && txInflight == |inflight|
      && (qp != null && cur != null ==> (qp == cur <==> qp.id == cur.id))
    }

    ghost function Value(): Rail
      reads this, qp, cur
    {
      Rail(state, if qp == null then None else Some(qp.id), epoch, Remote(remoteKnown, remoteQpn),
           lastTeardownError != 0, rxMark, rxCompleted, removing, txClosed, ringsStopped, queue, inflight,
           if cur == null then None else Some(cur.Value()), next, tickets, quiesce)
    }

    constructor (localPath: int)
      ensures Valid() && Value() == RailBind.Start()
    {
      this.localPath := localPath;
      state, qp, epoch, remoteQpn, remoteKnown, lastTeardownError := Unbound, null, 0, 0, false, 0;
      rxMark, rxCompleted, removing, txClosed, ringsStopped, txQueued, txInflight := 0, 0, false, false, false, 0, 0;
      queue, inflight, cur, next, tickets, quiesce := [], [], null, 0, [], None;
    }

    /** tbv_rail_apple_admit_locked: whether a new epoch may begin. A quarantine is lifted here. */
    method Admit(newSession: bool) returns (ok: bool)
      requires Valid()
      modifies this`state, this`txClosed, this`rxMark
      ensures Valid()
      ensures ok == (!removing && (old(state) == Unbound || old(state) == Bound ||
                                   (old(state) == Quarantined && newSession && Silent(old(Value())))))
      ensures Value() == if removing || old(state) != Quarantined || !newSession then old(Value())
                         else if Silent(old(Value())) then Lift(old(Value()))
                         else old(Value()).(rxMark := rxCompleted)
    {
      if removing {
        return false;
      }
      match state {
        case Unbound => return true;
        case Bound => return true;
        case Quiescing => return false;
        case Quarantined =>
          if !newSession {
            return false;
          }
          if rxCompleted == rxMark && txInflight == 0 && !ringsStopped && lastTeardownError == 0 {
            state := Unbound;
            txClosed := false;
            return true;
          }
          rxMark := rxCompleted;
          return false;
      }
    }

    /** tbv_qp_apple_bind_rail. */
    method BindQp(tqp: QpObj, known: bool, qpn: u32) returns (ok: bool)
      requires Valid() && tqp == cur && !tqp.closing
      modifies this, tqp`railBound, tqp`bindEpoch
      ensures Valid() && cur == old(cur) && cur.closing == old(tqp.closing)
      ensures Value() == RailBind.Bind(old(Value()), Remote(known, qpn), HopMatches(localPath, qpn))
      ensures ok ==> BoundTo(Value(), tqp.Value())
    {
      hide Silent;
      if tqp.railBound {
        ok := StillOwns(tqp, known, qpn);
        return;
      }
      ok := Admit(known);
      if !ok || state == Bound {
        return false;
      }
      if known && !HopMatches(localPath, qpn) {
        return false;
      }
      TakeOver(tqp, known, qpn);
    }

    /** A new epoch owns the rail. */
    method TakeOver(tqp: QpObj, known: bool, qpn: u32)
      requires Valid() && tqp == cur
      modifies this`epoch, this`state, this`qp, this`remoteQpn, this`remoteKnown, tqp`railBound, tqp`bindEpoch
      ensures Valid() && Value() == Own(old(Value()), Remote(known, qpn))
    {
      epoch := epoch + 1;
      tqp.bindEpoch, tqp.railBound := epoch, true;
      state, qp := Bound, tqp;
      SetRemote(known, qpn);
    }

    method SetRemote(known: bool, qpn: u32)
      requires Valid()
      modifies this`remoteQpn, this`remoteKnown
      ensures Valid() && Value() == old(Value()).(remote := Remote(known, qpn))
    {
      remoteQpn, remoteKnown := if known then qpn else 0, known;
    }

    /** The first half of tbv_qp_apple_bind_rail, for a queue pair that is already bound. */
    method StillOwns(tqp: QpObj, known: bool, qpn: u32) returns (ok: bool)
      requires Valid() && tqp == cur
      modifies this`remoteQpn, this`remoteKnown
      ensures Valid() && (ok ==> BoundTo(Value(), tqp.Value()))
      ensures Value() == Revalidate(old(Value()), tqp.Value(), Remote(known, qpn), HopMatches(localPath, qpn))
    {
      if state != Bound || qp != tqp || epoch != tqp.bindEpoch {
        return false;
      }
      if known && remoteKnown && remoteQpn != qpn {
        return false;
      }
      if known && !remoteKnown {
        if !HopMatches(localPath, qpn) {
          return false;
        }
        remoteQpn, remoteKnown := qpn, true;
      }
      return true;
    }

    /** tbv_qp_apple_unbind_rail. */
    method UnbindQp(tqp: QpObj)
      requires Valid() && tqp == cur
      modifies this`qp, this`state, tqp`railBound
      ensures Valid() && Value() == RailBind.Unbind(old(Value()))
    {
      if tqp.railBound {
        if qp == tqp {
          qp := null;
          if state == Bound {
            state := Unbound;
          }
        }
        tqp.railBound := false;
      }
    }

    /** The first locked section of tbv_apple_path_quiesce. `tqp` is the caller's queue pair, if it has one. */
    method BeginQuiesce(tqp: QpObj?) returns (owner: QpObj?, wasQuarantined: bool)
      requires Valid() && (tqp != null ==> tqp == cur) && (qp != null ==> qp == cur)
      modifies this`state, this`quiesce
      ensures Valid() && Value() == QuiesceBegin(old(Value()), tqp != null)
      ensures owner != null ==> owner == cur
      ensures wasQuarantined == quiesce.value.wasQuarantined
      ensures quiesce.value.owner == if owner == null then None else Some(owner.id)
    {
      wasQuarantined := state == Quarantined;
      if !wasQuarantined {
        state := Quiescing;
      }
      owner := tqp;
      if owner == null && qp != null && !qp.closing {
        owner := qp;
      }
      quiesce := Some(Quiesce(if owner == null then None else Some(owner.id), tqp != null && tqp.closing,
                              wasQuarantined,
                              Begun, false, false, false, false));
    }

    /** tbv_path_close_tx. */
    method CloseForQuiesce()
      requires Valid() && quiesce.Some? && quiesce.value.stage == Begun
      modifies this`txClosed, this`quiesce
      ensures Valid() && Value() == Step(old(Value()), CloseTx)
    {
      txClosed := true;
      quiesce := Some(quiesce.value.(stage := Closed));
    }

    /** tbv_path_cancel_queued_tx. */
    method CancelQueued()
      requires Valid() && quiesce.Some? && quiesce.value.stage == Closed
      modifies this`txQueued, this`queue, this`quiesce
      ensures Valid() && Value() == Step(old(Value()), Cancel)
    {
      txQueued, queue := 0, [];
      quiesce := Some(quiesce.value.(stage := Canceled));
    }

    /** tbv_path_drain_tx: whether everything submitted has retired by the deadline. */
    method DrainTx() returns (retired: bool)
      requires Valid() && quiesce.Some? && quiesce.value.stage == Canceled
      modifies this`quiesce
      ensures Valid() && retired == (inflight == [] && queue == []) && Value() == Step(old(Value()), Drained)
    {
      retired := txInflight == 0 && txQueued == 0;
      if retired {
        quiesce := Some(quiesce.value.(stage := Retired));
      }
    }

    /** tbv_path_ring_barrier on started rings: the stop runs callbacks until `left` frames, whose epochs
        are `unretired`, remain; the rings are started again only if nothing is left. */
    method RingBarrier(left: nat, ghost unretired: seq<nat>, restart: bool, restarts: bool) returns (failed: bool)
      requires Valid() && quiesce.Some? && quiesce.value.stage == Canceled && left == |unretired|
      modifies this`txInflight, this`inflight, this`ringsStopped, this`quiesce
      ensures Valid()
      ensures Value() == Barrier(old(Value()), old(quiesce).value, BarrierResult(unretired, restart, restarts))
      ensures failed == quiesce.value.failed
    {
      txInflight, inflight := left, unretired;
      failed := txInflight != 0;
      ringsStopped := failed || !restart;
      if !failed && restart {
        failed := !restarts;
      }
      quiesce := Some(quiesce.value.(stage := Retired, barrier := true, restart := restart, failed := failed));
    }

    /** The last locked section of tbv_apple_path_quiesce; `error` is what it returns. */
    method RecordOutcome(owner: QpObj?, error: int, barrier: bool, restart: bool, wasQuarantined: bool)
      returns (reopen: bool)
      requires Valid() && quiesce.Some? && quiesce.value.stage == RefsDone
      requires var q := quiesce.value;
               && q.failed == (error != 0) && q.barrier == barrier && q.restart == restart
               && q.wasQuarantined == wasQuarantined
      requires quiesce.value.owner == (if owner == null then None else Some(owner.id))
               && (owner != null ==> owner == cur)
      modifies this, if owner == null then {} else {owner}
      ensures Valid() && Value() == Record(old(Value()), old(quiesce).value)
      ensures reopen == quiesce.value.reopen
    {
      hide Forget;
      hide Note;
      ghost var q := quiesce.value;
      if owner != null {
        ReleaseOwner(owner, q);
      } else {
        NothingToForget(Value(), q);
      }
      reopen := NoteOutcome(error, barrier, restart, wasQuarantined, q);
    }

    method ReleaseOwner(owner: QpObj, ghost q: Quiesce)
      requires Valid() && owner == cur && q.owner == Some(owner.id)
      modifies this`qp, owner`railBound, owner`retired
      ensures Valid() && Value() == Forget(old(Value()), q)
    {
      if qp == owner {
        qp := null;
      }
      owner.railBound := false;
      owner.retired := owner.retired || (q.destroys && !q.failed);
    }

    method NoteOutcome(error: int, barrier: bool, restart: bool, wasQuarantined: bool, ghost q: Quiesce)
      returns (reopen: bool)
      requires Valid() && q.stage == RefsDone
      requires q.failed == (error != 0) && q.barrier == barrier && q.restart == restart
               && q.wasQuarantined == wasQuarantined
      modifies this`lastTeardownError, this`state, this`rxMark, this`quiesce
      ensures Valid() && Value() == Note(old(Value()), q) && reopen == quiesce.value.reopen
    {
      lastTeardownError := error;
      if error != 0 || (barrier && restart) {
        state, rxMark := Quarantined, rxCompleted;
      } else if !wasQuarantined {
        state := Unbound;
      }
      reopen := state == Unbound && !barrier && !removing;
      quiesce := Some(q.(stage := Finished, reopen := reopen));
    }

    /** tbv_path_open_tx after the last locked section, if it is called for. */
    method Conclude(reopen: bool)
      requires Valid() && quiesce.Some? && quiesce.value.stage == Finished && quiesce.value.reopen == reopen
      modifies this`txClosed, this`quiesce
      ensures Valid() && Value() == Step(old(Value()), Reopen)
    {
      if reopen {
        txClosed := false;
      }
      quiesce := None;
    }
  }

  lemma NothingToForget(r: Rail, q: Quiesce)
    requires q.owner.None?
    ensures Forget(r, q) == r
  {
  }
}
