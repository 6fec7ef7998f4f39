/** The rails of one native peer (kernel/native_control.c) as the C code keeps them: objects on a list, found
    by route and rail id under the lock. The methods refine Handshake: a packet or an answer changes the
    rail it names, as one step of that rail, and no other. */
module NativeControl {
  import opened Prelude
  import opened Handshake

  /** The two states of a path whose rings run. */
  datatype PathState = RingStarted | TunnelEnabled

  function Sent(m: Option<Msg>): set<Msg> {
    if m.Some? then {m.value} else {}
  }

  /** struct tbv_rail. The places of the work function and of the packet handler are not stored. */
  class NativeRail {
    const route: nat
    const railId: nat
    const out: nat
    var pathState: PathState
    var negotiated: bool
    var remoteTransmitPath: int
    var readySent: bool
    var remoteReady: bool
    var published: bool
    ghost var work: Work
    ghost var handlers: Handlers

    ghost function Value(): Rail
      reads this
    {
      Rail(out, negotiated, remoteTransmitPath, pathState == TunnelEnabled, readySent, remoteReady, published, work,
           handlers)
    }

    constructor (route: nat, railId: nat, out: nat)
      ensures Value() == Fresh(out) && this.route == route && this.railId == railId
    {
      this.route, this.railId, this.out := route, railId, out;
      pathState, negotiated, remoteTransmitPath := RingStarted, false, -1;
      readySent, remoteReady, published, work, handlers := false, false, false, Idle, Handlers(0, 0, 0, 0);
    }

    /** tbv_rail_data_ready and the publication that follows it. */
    method PublishIfReady()
      modifies this`published
      ensures Value() == Publish(old(Value()))
    {
      if pathState == TunnelEnabled && readySent && remoteReady {
        published := true;
      }
    }

    // The work function of a rail, from one locked section to the next.

    /** tbv_native_control_work begins: HELLO, unless it is negotiated. A HELLO is refused once the tunnel
        is enabled. */
    method StartWork(self: nat) returns (request: Option<Msg>)
      requires work == Idle
      modifies this`work
      ensures (Value(), Sent(request)) == RailStep(self, old(Value()), Start)
    {
      request := None;
      if negotiated {
        work := AtTunnel;
      } else if pathState == RingStarted {
        work := HelloWait;
        request := Some(Msg(Hello, self, out));
      }
    }

    /** The tunnel is enabled only towards a negotiated remote path; enabling it may fail. */
    method Enable(self: nat, ok: bool)
      requires work == AtTunnel
      modifies this`work, this`pathState
      ensures var tries := old(Value().negotiated && Value().remoteOut >= 0 && !Value().tunnel);
              (Value(), {}) == RailStep(self, old(Value()), if tries && !ok then Fails else EnableTunnel)
    {
      if pathState == TunnelEnabled {
        work := AtReady;
      } else if !negotiated || remoteTransmitPath < 0 || !ok {
        work := Idle;
      } else {
        pathState, work := TunnelEnabled, TunnelCheck;
      }
    }

    /** The publication check after the tunnel, and after READY. */
    method CheckReady(self: nat)
      requires CheckDue(Value())
      modifies this`published, this`work
      ensures (Value(), {}) == RailStep(self, old(Value()), Check)
    {
      PublishIfReady();
      work := if work == TunnelCheck then AtReady else Idle;
    }

    /** READY, unless it was answered already. */
    method BeginReady(self: nat) returns (request: Option<Msg>)
      requires work == AtReady
      modifies this`work
      ensures (Value(), Sent(request)) == RailStep(self, old(Value()), SendReady)
    {
      request := None;
      if pathState != TunnelEnabled || readySent {
        work := Idle;
      } else {
        work := ReadyWait;
        request := Some(Msg(Ready, self, out));
      }
    }

    method RecordSent(self: nat)
      requires work == ReadyDone
      modifies this`readySent, this`work
      ensures (Value(), {}) == RailStep(self, old(Value()), SetReadySent)
    {
      readySent := true;
      work := ReadyCheck;
    }

    /** A request that was not answered as it should: READY counts as done on a rail that is ready anyway. */
    method RequestFailed(self: nat)
      requires work == HelloWait || work == ReadyWait
      modifies this`work
      ensures (Value(), {}) == RailStep(self, old(Value()), Fails)
    {
      work := if work == ReadyWait && pathState == TunnelEnabled && readySent && remoteReady then ReadyDone else Idle;
    }
  }

  predicate Names(r: NativeRail, route: nat, railId: nat) {
    r.route == route && r.railId == railId
  }

  class NativePeer {
    var rails: seq<NativeRail>

    /** Rail ids are unique within a peer. */
    predicate Valid()
      reads this
    {
      forall i, j :: 0 <= i < j < |rails| ==> rails[i].railId != rails[j].railId
    }

    constructor (rails: seq<NativeRail>)
      requires forall i, j :: 0 <= i < j < |rails| ==> rails[i].railId != rails[j].railId
      ensures Valid() && this.rails == rails
    {
      this.rails := rails;
    }

    /** The search that every locked section makes. */
    method Find(route: nat, railId: nat) returns (r: NativeRail?)
      requires Valid()
      ensures r == null ==> forall x :: x in rails ==> !Names(x, route, railId)
      ensures r != null ==> r in rails && forall x :: x in rails ==> (Names(x, route, railId) <==> x == r)
    {
      var i := 0;
      while i < |rails|
        invariant 0 <= i <= |rails| && forall j :: 0 <= j < i ==> !Names(rails[j], route, railId)
      {
        if Names(rails[i], route, railId) {
          return rails[i];
        }
        i := i + 1;
      }
      return null;
    }

    /** tbv_native_control_apply_remote. */
    method ApplyRemoteTo(route: nat, railId: nat, m: Msg) returns (found: bool)
      requires Valid()
      modifies rails
      ensures found == exists r :: r in rails && Names(r, route, railId)
      ensures forall r :: r in rails ==>
                r.Value() == if Names(r, route, railId) then ApplyRemote(old(r.Value()), m) else old(r.Value())
    {
      var r := Find(route, railId);
      if r == null {
        return false;
      }
      r.negotiated := true;
      r.remoteTransmitPath := m.out;
      return true;
    }

    /** tbv_native_control_mark_remote_ready. */
    method MarkRemote(route: nat, railId: nat) returns (found: bool)
      requires Valid()
      modifies rails
      ensures found == exists r :: r in rails && Names(r, route, railId)
      ensures forall r :: r in rails ==>
                r.Value() == if Names(r, route, railId) then MarkRemoteReady(old(r.Value())) else old(r.Value())
    {
      var r := Find(route, railId);
      if r == null {
        return false;
      }
      r.remoteReady := true;
      r.PublishIfReady();
      return true;
    }

    /** tbv_native_control_handle_packet; for READY the snapshot, with whether the handler goes on and whether
        it will answer. */
    method HandlePacket(route: nat, railId: nat, m: Msg, self: nat, replied: bool)
      returns (reply: Option<Msg>, answers: Option<bool>)
      requires Valid()
      modifies rails
      ensures forall r :: r in rails ==>
                if Names(r, route, railId) then
                  (r.Value(), Sent(reply)) == RailStep(self, old(r.Value()), Receive(m, replied))
                else r.Value() == old(r.Value())
      ensures forall r :: r in rails && Names(r, route, railId) && m.op == Ready ==>
                answers == Some(r.Value().tunnel)
      ensures m.op != Ready || (forall r :: r in rails ==> !Names(r, route, railId)) ==> answers == None
      ensures (forall r :: r in rails ==> !Names(r, route, railId)) ==> reply == None
    {
      reply, answers := None, None;
      if m.op == ReadyAck {
        return;
      }
      var r := Find(route, railId);
      if r == null {
        return;
      }
      if m.op == Ready {
        answers := Some(r.pathState == TunnelEnabled);
        r.handlers := Snapshot(r.Value());
      } else {
        var found := ApplyRemoteTo(route, railId, m);
        if m.op == Hello && replied {
          reply := Some(Msg(HelloAck, self, r.out));
        }
      }
    }

    /** A handler of READY goes on after its snapshot: it finds the rail again and marks its peer ready. */
    method MarkAfterSnapshot(route: nat, railId: nat, self: nat, answers: bool) returns (found: bool)
      requires Valid()
      requires forall r :: r in rails && Names(r, route, railId) ==>
                 if answers then r.handlers.seen > 0 else r.handlers.dark > 0
      modifies rails
      ensures found == exists r :: r in rails && Names(r, route, railId)
      ensures forall r :: r in rails ==>
                if Names(r, route, railId) then (r.Value(), {}) == RailStep(self, old(r.Value()), MarkReady(answers))
                else r.Value() == old(r.Value())
    {
      found := MarkRemote(route, railId);
      if found {
        ghost var r :| r in rails && Names(r, route, railId);
        ghost var h := r.handlers;
        hide Publish;
        r.handlers := if answers then h.(seen := h.seen - 1, marked := h.marked + 1) else h.(dark := h.dark - 1);
      }
    }

    /** The unlocked answer to READY, which may fail. */
    method AnswerReady(r: NativeRail, self: nat, replied: bool) returns (reply: Option<Msg>)
      requires r.handlers.marked > 0
      modifies r`handlers
      ensures (r.Value(), Sent(reply)) == RailStep(self, old(r.Value()), SendReadyAck(replied))
    {
      reply := if replied then Some(Msg(ReadyAck, self, r.out)) else None;
      ghost var h := r.handlers;
      r.handlers := h.(marked := h.marked - 1, answered := if replied then h.answered + 1 else h.answered);
    }

    /** tbv_native_control_mark_local_ready_sent, which finds the rail again. */
    method MarkLocalSent(route: nat, railId: nat, self: nat) returns (found: bool)
      requires Valid() && forall r :: r in rails && Names(r, route, railId) ==> r.handlers.answered > 0
      modifies rails
      ensures found == exists r :: r in rails && Names(r, route, railId)
      ensures forall r :: r in rails ==>
                if Names(r, route, railId) then (r.Value(), {}) == RailStep(self, old(r.Value()), MarkSent)
                else r.Value() == old(r.Value())
    {
      var r := Find(route, railId);
      if r == null {
        return false;
      }
      r.readySent := true;
      r.PublishIfReady();
      r.handlers := r.handlers.(answered := r.handlers.answered - 1);
      return true;
    }

    /** tbv_native_control_exchange_once: the answer to HELLO is applied to the rail it names, and the work
        goes on with its own. */
    method HelloAnswered(own: NativeRail, route: nat, railId: nat, m: Msg, self: nat)
      requires Valid() && own in rails && own.work == HelloWait
      modifies rails
      ensures m.op == HelloAck && Names(own, route, railId) ==>
                (own.Value(), {}) == RailStep(self, old(own.Value()), Response(m))
                && forall r :: r in rails && r != own ==> r.Value() == old(r.Value())
      ensures m.op == HelloAck && !Names(own, route, railId) && (exists r :: r in rails && Names(r, route, railId)) ==>
                (own.Value(), {}) == RailStep(self, old(own.Value()), Strays)
                && forall r :: r in rails && r != own ==>
                     (r.Value(), {}) == if !Names(r, route, railId) then (old(r.Value()), {})
                                        else RailStep(self, old(r.Value()), Receive(m, false))
      ensures m.op != HelloAck || (forall r :: r in rails ==> !Names(r, route, railId)) ==>
                (own.Value(), {}) == RailStep(self, old(own.Value()), Fails)
                && forall r :: r in rails && r != own ==> r.Value() == old(r.Value())
    {
      if m.op != HelloAck {
        own.RequestFailed(self);
        return;
      }
      var found := ApplyRemoteTo(route, railId, m);
      if found {
        own.work := AtTunnel;
      } else {
        own.RequestFailed(self);
      }
    }

    /** tbv_native_control_ready_once: an answer that names another rail is refused. */
    method ReadyAnswered(own: NativeRail, route: nat, railId: nat, m: Msg, self: nat)
      requires Valid() && own in rails && own.work == ReadyWait
      modifies rails
      ensures var answer := if Names(own, route, railId) then Response(m) else Fails;
              (own.Value(), {}) == RailStep(self, old(own.Value()), answer)
      ensures forall r :: r in rails && r != own ==> r.Value() == old(r.Value())
    {
      if m.op != ReadyAck || railId != own.railId {
        own.RequestFailed(self);
        return;
      }
      var found := MarkRemote(route, railId);
      if found {
        own.work := ReadyDone;
      } else {
        own.RequestFailed(self);
      }
    }
  }
}
