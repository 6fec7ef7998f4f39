/** The HELLO / READY handshake of a native rail (kernel/native_control.c) as a protocol of two nodes.
    Each locked section of the packet handler and of the per-rail work function is one step; of HELLO the
    snapshot, which reads nothing that changes, is taken with the section that follows it. Any number of
    packet handlers may overlap. */
module Handshake {
  import opened Prelude

  datatype Op = Hello | HelloAck | Ready | ReadyAck

  /** A control packet: who sent it, and the sender's out path. */
  datatype Msg = Msg(op: Op, from: nat, out: nat)

  /** Where the work function of a rail stands. */
  datatype Work = Idle | HelloWait | AtTunnel | TunnelCheck | AtReady | ReadyWait | ReadyDone | ReadyCheck

  /** How many packet handlers stand between their locked sections for a READY packet: after the snapshot
      that found the tunnel disabled, or enabled; after marking the peer ready; after sending the answer. */
  datatype Handlers = Handlers(dark: nat, seen: nat, marked: nat, answered: nat)

  /** The fields of struct tbv_rail that the handshake uses. */
  datatype Rail = Rail(out: nat, negotiated: bool, remoteOut: int, tunnel: bool, readySent: bool, remoteReady: bool,
                       published: bool, work: Work, handlers: Handlers)

  /** tbv_rail_data_ready for a native rail. */
  predicate DataReady(r: Rail) {
    r.tunnel && r.readySent && r.remoteReady
  }

  /** tbv_ibdev_rail_event, if the rail has just become ready. */
  function Publish(r: Rail): Rail {
    if DataReady(r) then r.(published := true) else r
  }

  /** tbv_native_control_apply_remote. */
  function ApplyRemote(r: Rail, m: Msg): Rail {
    r.(negotiated := true, remoteOut := m.out)
  }

  /** tbv_native_control_mark_remote_ready. */
  function MarkRemoteReady(r: Rail): Rail {
    Publish(r.(remoteReady := true))
  }

  /** tbv_native_control_mark_local_ready_sent. */
  function MarkLocalReadySent(r: Rail): Rail {
    Publish(r.(readySent := true))
  }

  /** The snapshot that tells whether READY will be answered. */
  function Snapshot(r: Rail): Handlers {
    if r.tunnel then r.handlers.(seen := r.handlers.seen + 1) else r.handlers.(dark := r.handlers.dark + 1)
  }

  datatype Action =
    | Receive(msg: Msg, replied: bool)   // the packet handler takes a packet; `replied`: its answer could be sent
    | MarkReady(answers: bool)           // a handler of READY marks the peer ready, and will answer or not
    | SendReadyAck(replied: bool)        // it answers, or fails to
    | MarkSent                           // and records that it did
    | Start                              // the work function runs
    | Response(msg: Msg)                 // its request is answered
    | Strays                             // its request is answered by a packet about another rail
    | Fails                              // its request times out, or its step fails
    | EnableTunnel
    | Check                              // its publication check
    | SetReadySent
    | SendReady

  /** One step of one rail: its new state and the packets it sends. */
  function RailStep(self: nat, r: Rail, a: Action): (s: (Rail, set<Msg>)) {
    match a
    case Receive(m, replied) =>
      if m.op == Hello then
        (ApplyRemote(r, m), if replied then {Msg(HelloAck, self, r.out)} else {})
      else if m.op == HelloAck then (ApplyRemote(r, m), {})
      else if m.op == Ready then (r.(handlers := Snapshot(r)), {})
      else (r, {})
    case MarkReady(answers) =>
      var h := r.handlers;
      if answers && h.seen > 0 then
        (MarkRemoteReady(r).(handlers := h.(seen := h.seen - 1, marked := h.marked + 1)), {})
      else if !answers && h.dark > 0 then (MarkRemoteReady(r).(handlers := h.(dark := h.dark - 1)), {})
      else (r, {})
    case SendReadyAck(replied) =>
      var h := r.handlers;
      if h.marked == 0 then (r, {})
      else if replied then
        (r.(handlers := h.(marked := h.marked - 1, answered := h.answered + 1)), {Msg(ReadyAck, self, r.out)})
      else (r.(handlers := h.(marked := h.marked - 1)), {})
    case MarkSent =>
      var h := r.handlers;
      if h.answered == 0 then (r, {})
      else (MarkLocalReadySent(r).(handlers := h.(answered := h.answered - 1)), {})
    case Start =>
      if r.work != Idle then (r, {})
      else if !r.negotiated then
        if r.tunnel then (r, {}) else (r.(work := HelloWait), {Msg(Hello, self, r.out)})
      else (r.(work := AtTunnel), {})
    case Response(m) =>
      if r.work == HelloWait && m.op == HelloAck then (ApplyRemote(r, m).(work := AtTunnel), {})
      else if r.work == ReadyWait && m.op == ReadyAck then (MarkRemoteReady(r).(work := ReadyDone), {})
      else RailFails(r)
    case Strays => if r.work == HelloWait then (r.(work := AtTunnel), {}) else (r, {})
    case Fails => RailFails(r)
    case EnableTunnel =>
      if r.work != AtTunnel then (r, {})
      else if r.tunnel then (r.(work := AtReady), {})
      else if !r.negotiated || r.remoteOut < 0 then (r.(work := Idle), {})
      else (r.(tunnel := true, work := TunnelCheck), {})
    case Check =>
      if r.work == TunnelCheck then (Publish(r).(work := AtReady), {})
      else if r.work == ReadyCheck then (Publish(r).(work := Idle), {})
      else (r, {})
    case SendReady =>
      if r.work != AtReady then (r, {})
      else if !r.tunnel || r.readySent then (r.(work := Idle), {})
      else (r.(work := ReadyWait), {Msg(Ready, self, r.out)})
    case SetReadySent =>
      if r.work != ReadyDone then (r, {}) else (r.(readySent := true, work := ReadyCheck), {})
  }

  /** A request that fails: the work function gives up for now, unless READY failed on a rail that has
      become ready meanwhile. */
  function RailFails(r: Rail): (s: (Rail, set<Msg>)) {
    if r.work == ReadyWait && DataReady(r) then (r.(work := ReadyDone), {})
    else if r.work in {HelloWait, AtTunnel, ReadyWait} then (r.(work := Idle), {})
    else (r, {})
  }

  // ---------------------------------------------------------------- two nodes

  function Fresh(out: nat): Rail {
    Rail(out, false, -1, false, false, false, false, Idle, Handlers(0, 0, 0, 0))
  }

  /** Two rails and every packet ever sent: a packet may be lost, delayed or delivered again. */
  datatype Net = Net(rails: seq<Rail>, sent: set<Msg>)

  datatype Event = Event(node: nat, action: Action)

  /** A rail sees only packets the other one sent. */
  predicate Possible(s: Net, e: Event) {
    && e.node < 2
    && (e.action.Receive? || e.action.Response? ==> e.action.msg in s.sent && e.action.msg.from == 1 - e.node)
  }

  function Step(s: Net, e: Event): Net
    requires |s.rails| == 2
  {
    if !Possible(s, e) then s
    else
      var (r, msgs) := RailStep(e.node, s.rails[e.node], e.action);
      Net(s.rails[e.node := r], s.sent + msgs)
  }

  function Run(s: Net, events: seq<Event>): (t: Net)
    requires |s.rails| == 2
    ensures |t.rails| == 2
  {
    if events == [] then s else Step(Run(s, events[..|events| - 1]), events[|events| - 1])
  }

  /** What a packet tells about its sender. */
  ghost predicate MsgTrue(m: Msg, sender: Rail) {
    && m.out == sender.out
    && (m.op == Ready || m.op == ReadyAck ==> sender.tunnel)
    && (m.op == ReadyAck ==> sender.remoteReady && (sender.readySent || sender.handlers.answered > 0))
  }

  /** A publication check is about to be made. */
  predicate CheckDue(r: Rail) {
    r.work == TunnelCheck || r.work == ReadyCheck
  }

  /** A handler of READY knows that the peer enabled its tunnel, and one that will answer that this rail did. */
  ghost predicate HandlersTrue(r: Rail, peer: Rail) {
    && (r.handlers.dark > 0 || r.handlers.seen > 0 ==> peer.tunnel)
    && (r.handlers.seen > 0 ==> r.tunnel)
    && (r.handlers.marked > 0 || r.handlers.answered > 0 ==> r.tunnel && r.remoteReady)
  }

  /** What a rail knows about its peer is true, and it is published as soon as it is ready. */
  ghost predicate RailTrue(r: Rail, peer: Rail) {
    && (r.negotiated ==> r.remoteOut == peer.out)
    && (r.tunnel ==> r.negotiated)
    && (r.remoteReady ==> peer.tunnel)
    && HandlersTrue(r, peer)
    && (r.work == ReadyDone ==> r.remoteReady) && (r.readySent ==> r.remoteReady)
    && (r.work in {AtReady, ReadyWait, ReadyDone, ReadyCheck, TunnelCheck} ==> r.tunnel)
    && (r.published ==> DataReady(r))
    && (DataReady(r) ==> r.published || CheckDue(r))
  }

  ghost predicate Agree(s: Net) {
    && |s.rails| == 2 && RailTrue(s.rails[0], s.rails[1]) && RailTrue(s.rails[1], s.rails[0])
    && forall m :: m in s.sent ==> m.from < 2 && MsgTrue(m, s.rails[m.from])
  }

  /** What a step of a rail never takes back. */
  ghost predicate Advances(r: Rail, s: Rail) {
    && s.out == r.out && (r.tunnel ==> s.tunnel) && (r.remoteReady ==> s.remoteReady) && (r.readySent ==> s.readySent)
    && (r.published ==> s.published) && (r.handlers.answered > 0 ==> s.handlers.answered > 0 || s.readySent)
  }

  /** The steps of the packet handlers. */
  predicate Handles(a: Action) {
    a.Receive? || a.MarkReady? || a.SendReadyAck? || a.MarkSent?
  }

  lemma HandlerStepOwn(self: nat, r: Rail, peer: Rail, a: Action)
    requires RailTrue(r, peer) && Handles(a) && (a.Receive? ==> MsgTrue(a.msg, peer))
    ensures RailTrue(RailStep(self, r, a).0, peer)
  {
    hide RailFails;
  }

  lemma WorkStepOwn(self: nat, r: Rail, peer: Rail, a: Action)
    requires RailTrue(r, peer) && !Handles(a) && (a.Response? ==> MsgTrue(a.msg, peer))
    ensures RailTrue(RailStep(self, r, a).0, peer)
  {
    hide Snapshot;
  }

  lemma RailStepOwn(self: nat, r: Rail, peer: Rail, a: Action)
    requires RailTrue(r, peer) && (a.Receive? || a.Response? ==> MsgTrue(a.msg, peer))
    ensures RailTrue(RailStep(self, r, a).0, peer)
  {
    hide RailStep;
    if Handles(a) {
      HandlerStepOwn(self, r, peer, a);
    } else {
      WorkStepOwn(self, r, peer, a);
    }
  }

  lemma RailStepAdvances(self: nat, r: Rail, peer: Rail, a: Action)
    requires RailTrue(r, peer)
    ensures var (s, msgs) := RailStep(self, r, a);
            Advances(r, s) && forall m :: m in msgs ==> m.from == self && MsgTrue(m, s)
  {
  }

  lemma RailStepTrue(self: nat, r: Rail, peer: Rail, a: Action)
    requires RailTrue(r, peer) && RailTrue(peer, r)
    requires a.Receive? || a.Response? ==> MsgTrue(a.msg, peer)
    ensures var (s, msgs) := RailStep(self, r, a);
            && RailTrue(s, peer) && RailTrue(peer, s) && Advances(r, s)
            && forall m :: m in msgs ==> m.from == self && MsgTrue(m, s)
  {
    hide RailStep;
    RailStepOwn(self, r, peer, a);
    RailStepAdvances(self, r, peer, a);
  }

  lemma StepAgrees(s: Net, e: Event)
    requires Agree(s)
    ensures Agree(Step(s, e))
  {
    hide RailStep;
    hide RailTrue;
    if Possible(s, e) {
      RailStepTrue(e.node, s.rails[e.node], s.rails[1 - e.node], e.action);
    }
  }

  /** In every interleaving of packets, answers, losses and retries, a rail that is ready for data, or
      published, has a peer that enabled its tunnel as well, both towards the other's real out path; and
      once no publication check is due, being ready and being published are the same. */
  lemma {:induction false} Agreement(out0: nat, out1: nat, events: seq<Event>)
    ensures var s := Run(Net([Fresh(out0), Fresh(out1)], {}), events);
            && Agree(s)
            && forall i {:trigger s.rails[i]} :: 0 <= i < 2 ==>
                 && (DataReady(s.rails[i]) || s.rails[i].published ==>
                       && s.rails[0].tunnel && s.rails[1].tunnel
                       && s.rails[0].remoteOut == s.rails[1].out && s.rails[1].remoteOut == s.rails[0].out)
                 && (!CheckDue(s.rails[i]) ==> (DataReady(s.rails[i]) <==> s.rails[i].published))
  {
    hide Step;
    hide Agree;
    if events == [] {
      StartAgrees(out0, out1);
    } else {
      var prefix := events[..|events| - 1];
      Agreement(out0, out1, prefix);
      StepAgrees(Run(Net([Fresh(out0), Fresh(out1)], {}), prefix), events[|events| - 1]);
    }
    AgreeOnPaths(Run(Net([Fresh(out0), Fresh(out1)], {}), events));
  }

  lemma StartAgrees(out0: nat, out1: nat)
    ensures Agree(Net([Fresh(out0), Fresh(out1)], {}))
  {
  }

  lemma AgreeOnPaths(s: Net)
    requires Agree(s)
    ensures |s.rails| == 2
    ensures forall i {:trigger s.rails[i]} :: 0 <= i < 2 ==>
              && (DataReady(s.rails[i]) || s.rails[i].published ==>
                    && s.rails[0].tunnel && s.rails[1].tunnel
                    && s.rails[0].remoteOut == s.rails[1].out && s.rails[1].remoteOut == s.rails[0].out)
              && (!CheckDue(s.rails[i]) ==> (DataReady(s.rails[i]) <==> s.rails[i].published))
  {
  }

  /** Whichever step of a run completes the three conditions publishes the rail, at once or in the check
      that the same work function makes next. */
  lemma LastConditionPublishes(out0: nat, out1: nat, events: seq<Event>, e: Event)
    requires var s := Run(Net([Fresh(out0), Fresh(out1)], {}), events);
             e.node < 2 && !DataReady(s.rails[e.node]) && DataReady(Step(s, e).rails[e.node])
    ensures var s := Run(Net([Fresh(out0), Fresh(out1)], {}), events);
            var t := Step(s, e);
            t.rails[e.node].published
            || (CheckDue(t.rails[e.node]) && Step(t, Event(e.node, Check)).rails[e.node].published)
  {
    hide RailStep;
    Agreement(out0, out1, events);
    var s := Run(Net([Fresh(out0), Fresh(out1)], {}), events);
    RailStepTrue(e.node, s.rails[e.node], s.rails[1 - e.node], e.action);
    CheckPublishes(e.node, Step(s, e).rails[e.node]);
  }

  lemma CheckPublishes(self: nat, r: Rail)
    ensures DataReady(r) && CheckDue(r) ==> RailStep(self, r, Check).0.published
  {
  }

  /** A rail that becomes ready on READY_ACK leaves a peer that is ready as well, or that only has to
      record the answer it has already sent. */
  lemma AckMeansPeerReady(out0: nat, out1: nat, events: seq<Event>, m: Msg)
    requires m in Run(Net([Fresh(out0), Fresh(out1)], {}), events).sent && m.op == ReadyAck
    ensures var s := Run(Net([Fresh(out0), Fresh(out1)], {}), events);
            && m.from < 2
            && DataReady(if s.rails[m.from].handlers.answered > 0 then MarkLocalReadySent(s.rails[m.from])
                         else s.rails[m.from])
  {
    Agreement(out0, out1, events);
  }

  // ---------------------------------------------------------------- progress

  /** Some further events lead from s to t. */
  ghost predicate Leads(s: Net, t: Net)
    requires |s.rails| == 2
  {
    exists events :: Run(s, events) == t
  }

  lemma {:induction false} RunJoin(s: Net, a: seq<Event>, b: seq<Event>)
    requires |s.rails| == 2
    ensures Run(Run(s, a), b) == Run(s, a + b)
  {
    hide Step;
    if b == [] {
      assert a + b == a;
    } else {
      assert (a + b)[..|a + b| - 1] == a + b[..|b| - 1];
      RunJoin(s, a, b[..|b| - 1]);
    }
  }

  lemma LeadsJoin(s: Net, t: Net, u: Net)
    requires |s.rails| == 2 && |t.rails| == 2 && Leads(s, t) && Leads(t, u)
    ensures Leads(s, u)
  {
    hide Run;
    var a :| Run(s, a) == t;
    var b :| Run(t, b) == u;
    RunJoin(s, a, b);
  }

  lemma LeadsNowhere(s: Net)
    requires |s.rails| == 2
    ensures Leads(s, s)
  {
    assert Run(s, []) == s;
  }

  /** One possible action of rail i. */
  lemma Do(s: Net, i: nat, a: Action) returns (t: Net)
    requires Agree(s) && i < 2 && Possible(s, Event(i, a))
    ensures Agree(t) && Leads(s, t)
    ensures (t.rails[i], t.sent) == (RailStep(i, s.rails[i], a).0, s.sent + RailStep(i, s.rails[i], a).1)
    ensures t.rails[1 - i] == s.rails[1 - i] && Advances(s.rails[i], t.rails[i])
  {
    t := Step(s, Event(i, a));
    assert [Event(i, a)][..0] == [];
    assert Run(s, [Event(i, a)]) == Step(Run(s, []), Event(i, a));
    assert Run(s, []) == s;
    StepAgrees(s, Event(i, a));
    RailStepAdvances(i, s.rails[i], s.rails[1 - i], a);
    hide RailStep;
    hide Run;
  }

  /** Nothing is taken back on either rail, and the other rail has only answered. */
  ghost predicate Grown(s: Net, t: Net) {
    && |s.rails| == 2 && |t.rails| == 2 && Agree(t) && Leads(s, t) && s.sent <= t.sent
    && Advances(s.rails[0], t.rails[0]) && Advances(s.rails[1], t.rails[1])
    && (s.rails[0].negotiated ==> t.rails[0].negotiated) && (s.rails[1].negotiated ==> t.rails[1].negotiated)
  }

  lemma GrownJoin(s: Net, t: Net, u: Net)
    requires Grown(s, t) && Grown(t, u)
    ensures Grown(s, u)
  {
    hide Agree;
    LeadsJoin(s, t, u);
    hide Leads;
  }

  lemma DoGrown(s: Net, i: nat, a: Action) returns (t: Net)
    requires Agree(s) && i < 2 && Possible(s, Event(i, a))
    ensures Grown(s, t)
    ensures (t.rails[i], t.sent) == (RailStep(i, s.rails[i], a).0, s.sent + RailStep(i, s.rails[i], a).1)
    ensures t.rails[1 - i] == s.rails[1 - i]
  {
    t := Do(s, i, a);
    StaysNegotiated(i, s.rails[i], a);
    hide Leads;
    hide Agree;
    hide RailStep;
  }

  lemma StaysNegotiated(self: nat, r: Rail, a: Action)
    ensures r.negotiated ==> RailStep(self, r, a).0.negotiated
  {
  }

  function Rank(w: Work): nat {
    match w
    case Idle => 0
    case HelloWait => 1
    case AtTunnel => 1
    case ReadyCheck => 1
    case ReadyDone => 2
    case ReadyWait => 3
    case AtReady => 4
    case TunnelCheck => 5
  }

  /** The work function of rail i comes to its end. */
  lemma {:induction false} WorkEnds(s: Net, i: nat) returns (t: Net)
    requires Agree(s) && i < 2
    ensures Grown(s, t) && t.rails[i].work == Idle && t.rails[1 - i] == s.rails[1 - i]
    decreases Rank(s.rails[i].work)
  {
    var w := s.rails[i].work;
    if w == Idle {
      LeadsNowhere(s);
      t := s;
    } else {
      var a := if w == ReadyCheck || w == TunnelCheck then Check else if w == ReadyDone then SetReadySent
               else if w == AtReady then SendReady else Fails;
      var u := DoGrown(s, i, a);
      WorkFalls(i, s.rails[i], a);
      hide RailStep;
      hide Grown;
      t := WorkEnds(u, i);
      GrownJoin(s, u, t);
    }
  }

  lemma WorkFalls(self: nat, r: Rail, a: Action)
    requires r.work != Idle
    requires a == if r.work == ReadyCheck || r.work == TunnelCheck then Check
                  else if r.work == ReadyDone then SetReadySent
                  else if r.work == AtReady then SendReady else Fails
    ensures Rank(RailStep(self, r, a).0.work) < Rank(r.work)
  {
  }

  lemma RailOf(s: Net, i: nat)
    requires Agree(s) && i < 2
    ensures |s.rails| == 2 && RailTrue(s.rails[i], s.rails[1 - i])
  {
  }

  /** An idle rail negotiates, by HELLO and its answer unless it has already. */
  lemma Negotiate(s: Net, i: nat) returns (t: Net)
    requires Agree(s) && i < 2 && s.rails[i].work == Idle
    ensures Grown(s, t) && t.rails[i].negotiated && t.rails[i].work == AtTunnel
  {
    hide Agree;
    hide Leads;
    RailOf(s, i);
    var u := DoGrown(s, i, Start);
    if s.rails[i].negotiated {
      t := u;
    } else {
      var hello, ack := Msg(Hello, i, s.rails[i].out), Msg(HelloAck, 1 - i, s.rails[1 - i].out);
      assert hello in u.sent;
      var v := DoGrown(u, 1 - i, Receive(hello, true));
      assert ack in v.sent;
      t := DoGrown(v, i, Response(ack));
      hide RailStep;
      GrownJoin(s, u, v);
      GrownJoin(s, v, t);
    }
  }

  /** A negotiated rail enables its tunnel, unless it has, and checks. */
  lemma Enable(s: Net, i: nat) returns (t: Net)
    requires Agree(s) && i < 2 && s.rails[i].work == AtTunnel && s.rails[i].negotiated
    ensures Grown(s, t) && t.rails[i].tunnel && t.rails[i].work == AtReady
  {
    hide Agree;
    hide Leads;
    RailOf(s, i);
    var u := DoGrown(s, i, EnableTunnel);
    if s.rails[i].tunnel {
      t := u;
    } else {
      t := DoGrown(u, i, Check);
      hide RailStep;
      GrownJoin(s, u, t);
    }
  }

  /** The peer takes READY and answers it. */
  lemma Answer(s: Net, i: nat) returns (t: Net)
    requires Agree(s) && i < 2 && s.rails[1 - i].tunnel && Msg(Ready, i, s.rails[i].out) in s.sent
    ensures Grown(s, t) && t.rails[i] == s.rails[i] && DataReady(t.rails[1 - i])
    ensures Msg(ReadyAck, 1 - i, s.rails[1 - i].out) in t.sent
  {
    hide Agree;
    hide Leads;
    var j := 1 - i;
    RailOf(s, i);
    var u := DoGrown(s, j, Receive(Msg(Ready, i, s.rails[i].out), true));
    var v := DoGrown(u, j, MarkReady(true));
    var w := DoGrown(v, j, SendReadyAck(true));
    t := DoGrown(w, j, MarkSent);
    hide RailStep;
    GrownJoin(s, u, v);
    GrownJoin(s, v, w);
    GrownJoin(s, w, t);
  }

  /** READY and its answer make both rails ready for data. */
  lemma Exchange(s: Net, i: nat) returns (t: Net)
    requires Agree(s) && i < 2 && s.rails[i].tunnel && s.rails[1 - i].tunnel
    requires s.rails[i].work == AtReady && !s.rails[i].readySent
    ensures Grown(s, t) && DataReady(t.rails[0]) && DataReady(t.rails[1])
  {
    hide Agree;
    hide Leads;
    var u := DoGrown(s, i, SendReady);
    var v := Answer(u, i);
    var ack := Msg(ReadyAck, 1 - i, s.rails[1 - i].out);
    var w := DoGrown(v, i, Response(ack));
    t := DoGrown(w, i, SetReadySent);
    hide RailStep;
    GrownJoin(s, u, v);
    GrownJoin(s, v, w);
    GrownJoin(s, w, t);
  }

  /** Rail i enables its tunnel from wherever its work function stands. */
  lemma BringUp(s: Net, i: nat) returns (t: Net)
    requires Agree(s) && i < 2
    ensures Grown(s, t) && t.rails[i].tunnel && t.rails[i].work == AtReady
  {
    var u := WorkEnds(s, i);
    hide Agree;
    hide Leads;
    var v := Negotiate(u, i);
    t := Enable(v, i);
    GrownJoin(s, u, v);
    GrownJoin(s, v, t);
  }

  lemma SentIsReady(s: Net, i: nat)
    requires Agree(s) && i < 2 && s.rails[i].tunnel && s.rails[i].readySent
    ensures DataReady(s.rails[i])
  {
    RailOf(s, i);
  }

  lemma BothUp(s: Net) returns (t: Net)
    requires Agree(s)
    ensures Grown(s, t) && DataReady(t.rails[0]) && DataReady(t.rails[1])
  {
    hide Agree;
    hide Leads;
    var u := BringUp(s, 0);
    var v := BringUp(u, 1);
    GrownJoin(s, u, v);
    if !v.rails[1].readySent {
      t := Exchange(v, 1);
      GrownJoin(s, v, t);
    } else {
      var w := BringUp(v, 0);
      GrownJoin(s, v, w);
      if !w.rails[0].readySent {
        t := Exchange(w, 0);
        GrownJoin(s, w, t);
      } else {
        SentIsReady(w, 0);
        SentIsReady(w, 1);
        t := w;
      }
    }
  }

  lemma IdleIsPublished(s: Net, i: nat)
    requires Agree(s) && i < 2 && s.rails[i].work == Idle && DataReady(s.rails[i])
    ensures s.rails[i].published
  {
    RailOf(s, i);
  }

  /** The handshake never gets stuck: from every reachable state, whatever was lost, timed out or answered late,
      further events make both rails ready for data and published. */
  lemma AlwaysConnects(out0: nat, out1: nat, events: seq<Event>)
    ensures exists more ::
              var t := Run(Run(Net([Fresh(out0), Fresh(out1)], {}), events), more);
              && DataReady(t.rails[0]) && t.rails[0].published && DataReady(t.rails[1]) && t.rails[1].published
  {
    var s := Run(Net([Fresh(out0), Fresh(out1)], {}), events);
    Agreement(out0, out1, events);
    var u := BothUp(s);
    var v := WorkEnds(u, 0);
    var t := WorkEnds(v, 1);
    IdleIsPublished(t, 0);
    IdleIsPublished(t, 1);
    hide Agree;
    GrownJoin(s, u, v);
    GrownJoin(s, v, t);
    var more :| Run(s, more) == t;
    hide Run;
  }

  /** In every run: a request that fails leaves the rail's work idle, for a later attempt, and takes nothing back;
      but if READY fails on a rail that its peer has made ready meanwhile, the work ends as if it had been
      answered. */
  lemma FailureHarmless(out0: nat, out1: nat, events: seq<Event>, i: nat)
    requires i < 2
    requires Run(Net([Fresh(out0), Fresh(out1)], {}), events).rails[i].work in {HelloWait, ReadyWait}
    ensures var s := Run(Net([Fresh(out0), Fresh(out1)], {}), events);
            var r := s.rails[i];
            var t := Step(s, Event(i, Fails));
            if r.work == ReadyWait && r.tunnel && r.readySent && r.remoteReady then
              var u := Step(Step(t, Event(i, SetReadySent)), Event(i, Check));
              && t.rails[i] == r.(work := ReadyDone) && u.rails[i] == r.(work := Idle) && r.published
            else t.rails[i] == r.(work := Idle)
  {
    Agreement(out0, out1, events);
    hide Run;
    hide HandlersTrue;
    hide MsgTrue;
  }

  /** A HELLO that is answered for another rail ends as well: the tunnel is enabled next exactly if the peer's own
      HELLO has been handled meanwhile. */
  lemma StrayAnswer(out0: nat, out1: nat, events: seq<Event>, i: nat)
    requires i < 2
    requires Run(Net([Fresh(out0), Fresh(out1)], {}), events).rails[i].work == HelloWait
    ensures var s := Run(Net([Fresh(out0), Fresh(out1)], {}), events);
            var r := s.rails[i];
            var t := Step(Step(s, Event(i, Strays)), Event(i, EnableTunnel)).rails[i];
            && t == r.(tunnel := r.negotiated || r.tunnel, work := t.work)
            && t.work == if r.tunnel then AtReady else if r.negotiated then TunnelCheck else Idle
  {
    Agreement(out0, out1, events);
    hide Run;
    hide HandlersTrue;
    hide MsgTrue;
  }
}
