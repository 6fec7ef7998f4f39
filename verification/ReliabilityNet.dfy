/** Senders and one receiver of proto/reliability.c joined by a network that loses, duplicates and
    reorders: every frame ever sent may be delivered any number of times, at any later moment. */
module ReliabilityNet {
  import opened Prelude
  import opened Cut
  import opened ReliabilityTx
  import opened ReliabilityRx
  import Bits

  /** `txs` is keyed by operation id: an id is used by at most one sender, ever. */
  datatype Net = Net(txs: map<u32, Tx>, rx: Rx, data: set<DataFrame>, acks: set<AckFrame>)

  datatype Action =
    | StartOp(connId: u64, opId: u32, op: u8, totalLen: u32, maxPayload: u32, retryBudget: u32, rnrBudget: u32)
    | SendFrame(opId: u32)
    | ExpireTimer(opId: u32)
    | DeliverData(frame: DataFrame, recvAvailable: bool)
    | DeliverAck(ack: AckFrame)

  function Begin(connId: u64, maxPayload: u32): Net {
    Net(map[], Rx(connId, maxPayload, Idle, []), {}, {})
  }

  /** The network delivers only what was sent, and senders do not reuse ids. */
  ghost predicate Enabled(n: Net, a: Action) {
    match a
    case StartOp(_, opId, _, _, _, _, _) => opId !in n.txs
    case SendFrame(opId) => opId in n.txs && Sound(n.txs[opId])
    case ExpireTimer(opId) => opId in n.txs
    case DeliverData(frame, _) => frame in n.data
    case DeliverAck(ack) => ack in n.acks
  }

  /** The acknowledgement an event carries is put on the wire. */
  function WithAck(acks: set<AckFrame>, event: Result<RxEvent>): set<AckFrame> {
    if event.Ok? && event.value.ack.Some? then acks + {event.value.ack.value} else acks
  }

  function Act(n: Net, a: Action): (r: Net)
    requires Enabled(n, a)
  {
    match a
    case StartOp(connId, opId, op, totalLen, maxPayload, retryBudget, rnrBudget) =>
      var t := Start(connId, opId, op, totalLen, maxPayload, retryBudget, rnrBudget);
      if t.Ok? then n.(txs := n.txs[opId := t.value]) else n
    case SendFrame(opId) =>
      var (t, f) := NextFrame(n.txs[opId]);
      n.(txs := n.txs[opId := t], data := if f.Ok? then n.data + {f.value} else n.data)
    case ExpireTimer(opId) => n.(txs := n.txs[opId := OnTimeout(n.txs[opId]).0])
    case DeliverData(frame, recvAvailable) =>
      var (rx, event) := OnData(n.rx, frame, recvAvailable);
      n.(rx := rx, acks := WithAck(n.acks, event))
    case DeliverAck(ack) =>
      if ack.opId in n.txs then n.(txs := n.txs[ack.opId := OnAck(n.txs[ack.opId], ack).0]) else n
  }

  ghost predicate Path(n: Net, actions: seq<Action>, m: Net)
    decreases |actions|
  {
    if actions == [] then n == m
    else Enabled(n, actions[0]) && Path(Act(n, actions[0]), actions[1..], m)
  }

  // ---------------------------------------------------------------- the invariant

  ghost predicate Finished(log: seq<Done>, opId: u32, totalLen: u32) {
    exists k :: 0 <= k < |log| && log[k].ack.opId == opId && log[k].totalLen == totalLen
  }

  ghost predicate TxGood(id: u32, t: Tx, log: seq<Done>) {
    && t.opId == id && Sound(t) && Shaped(t) && t.state != Empty
    && (t.state == Complete ==> Finished(log, id, t.totalLen))
  }

  ghost predicate FrameGood(f: DataFrame, txs: map<u32, Tx>) {
    && f.opId in txs
    && var t := txs[f.opId]; Shaped(t) && f.fragIndex < t.frameCount && SameFrame(f, FrameOf(t, f.fragIndex))
  }

  ghost predicate CurrentGood(c: Current, txs: map<u32, Tx>) {
    c.Assembling? ==>
      && c.opId in txs
      && var t := txs[c.opId];
         Shaped(t) && c.op == t.op && c.frameCount == t.frameCount
           && c.totalLen == SeenLen(t.totalLen, t.maxPayload, c.seen, t.frameCount)
  }

  ghost predicate LogGood(log: seq<Done>, txs: map<u32, Tx>) {
    forall k :: 0 <= k < |log| ==> log[k].ack.opId in txs && log[k].totalLen == txs[log[k].ack.opId].totalLen
  }

  /** What is finished is acknowledged OK, on the connection of the receiver. */
  ghost predicate LogOk(log: seq<Done>, connId: u64) {
    forall k :: 0 <= k < |log| ==> log[k].ack.status == ACK_OK && log[k].ack.connId == connId
  }

  ghost predicate AcksGood(acks: set<AckFrame>, log: seq<Done>) {
    forall a :: a in acks && a.status == ACK_OK ==> exists k :: 0 <= k < |log| && log[k].ack.opId == a.opId
  }

  ghost predicate Inv(n: Net) {
    && Sane(n.rx)
    && (forall id :: id in n.txs ==> TxGood(id, n.txs[id], n.rx.log))
    && (forall f :: f in n.data ==> FrameGood(f, n.txs))
    && CurrentGood(n.rx.current, n.txs)
    && LogGood(n.rx.log, n.txs) && LogOk(n.rx.log, n.rx.connId)
    && AcksGood(n.acks, n.rx.log)
  }

  /** A sender step that keeps the message, and completes only what the receiver finished, keeps
      the invariant. */
  lemma TxStepKeeps(n: Net, id: u32, t: Tx)
    requires Inv(n) && id in n.txs && SameMessage(n.txs[id], t) && TxGood(id, t, n.rx.log)
    ensures Inv(n.(txs := n.txs[id := t]))
  {
    var m := n.(txs := n.txs[id := t]);
    forall f | f in m.data ensures FrameGood(f, m.txs) {
      assert FrameGood(f, n.txs);
    }
  }

  lemma StartKeeps(n: Net, id: u32, t: Tx)
    requires Inv(n) && id !in n.txs && Fresh(t) && Sound(t) && t.opId == id
    ensures Inv(n.(txs := n.txs[id := t]))
  {
    var m := n.(txs := n.txs[id := t]);
    forall f | f in m.data ensures FrameGood(f, m.txs) {
      assert FrameGood(f, n.txs);
    }
  }

  /** Absorbing a genuine frame counts its bytes once. */
  lemma AbsorbCounts(n: Net, f: DataFrame)
    requires Inv(n) && f in n.data && n.rx.current.Assembling? && f.opId == n.rx.current.opId
    ensures var d := Absorb(n.rx.current, f); var t := n.txs[f.opId];
            && d.totalLen == SeenLen(t.totalLen, t.maxPayload, d.seen, t.frameCount)
            && (|d.seen| == t.frameCount ==> d.totalLen == t.totalLen)
  {
    assert FrameGood(f, n.txs);
    var c, t := n.rx.current, n.txs[f.opId];
    var d := Absorb(c, f);
    PassTiles(t.totalLen, t.maxPayload, t.frameCount);
    SeenLenBound(t.totalLen, t.maxPayload, d.seen, t.frameCount);
    if f.fragIndex !in c.seen {
      SeenLenAdd(t.totalLen, t.maxPayload, c.seen, f.fragIndex, t.frameCount);
    }
    Bits.BoundedSet(d.seen, t.frameCount);
  }

  lemma OpenKeeps(n: Net, f: DataFrame)
    requires Inv(n) && f in n.data && n.rx.current.Idle? && Cached(n.rx.log, f.opId, HISTORY).None?
    ensures Inv(n.(rx := n.rx.(current := Opened(n.rx, f))))
  {
    assert FrameGood(f, n.txs);
    var t := n.txs[f.opId];
    SeenLenBound(t.totalLen, t.maxPayload, {}, t.frameCount);
  }

  /** The log only grows, so what was finished stays finished. */
  lemma LogGrows(n: Net, d: Done)
    requires Inv(n) && d.ack.opId in n.txs && d.totalLen == n.txs[d.ack.opId].totalLen
    ensures var log := n.rx.log + [d];
            && LogGood(log, n.txs)
            && AcksGood(n.acks + {d.ack}, log)
            && forall id :: id in n.txs ==> TxGood(id, n.txs[id], log)
  {
    var log := n.rx.log + [d];
    assert log[|n.rx.log|] == d;
    assert forall k :: 0 <= k < |n.rx.log| ==> log[k] == n.rx.log[k];
    forall id | id in n.txs ensures TxGood(id, n.txs[id], log) {
      assert TxGood(id, n.txs[id], n.rx.log);
    }
    forall a | a in n.acks + {d.ack} && a.status == ACK_OK
      ensures exists k :: 0 <= k < |log| && log[k].ack.opId == a.opId
    {
      if a in n.acks {
        var k :| 0 <= k < |n.rx.log| && n.rx.log[k].ack.opId == a.opId;
        assert log[k].ack.opId == a.opId;
      }
    }
  }

  lemma AssembleKeeps(n: Net, f: DataFrame)
    requires Inv(n) && f in n.data && n.rx.current.Assembling? && f.connId == n.rx.connId
    ensures var (rx, event) := Assemble(n.rx, f); Inv(n.(rx := rx, acks := WithAck(n.acks, event)))
  {
    assert FrameGood(f, n.txs);
    AssembleSane(n.rx, f);
    var c := n.rx.current;
    if f.opId == c.opId && f.op == c.op && f.fragCount == c.frameCount {
      AbsorbCounts(n, f);
      var d := Absorb(c, f);
      if |d.seen| == d.frameCount {
        FinishKeeps(n, f, d);
      }
    }
  }

  /** The last fragment of an operation. */
  lemma FinishKeeps(n: Net, f: DataFrame, d: Current)
    requires Inv(n) && f in n.data && f.opId in n.txs && d.Assembling? && d.totalLen == n.txs[f.opId].totalLen
    requires f.connId == n.rx.connId
    requires Sane(n.rx.(current := Idle, log := n.rx.log + [Done(BuildAck(f, ACK_OK), d.totalLen)]))
    ensures var ack := BuildAck(f, ACK_OK);
            Inv(n.(rx := n.rx.(current := Idle, log := n.rx.log + [Done(ack, d.totalLen)]), acks := n.acks + {ack}))
  {
    hide Sane;
    LogGrows(n, Done(BuildAck(f, ACK_OK), d.totalLen));
    hide LogGood;
    hide AcksGood;
    hide TxGood;
    hide FrameGood;
  }

  lemma DataKeeps(n: Net, f: DataFrame, recvAvailable: bool)
    requires Inv(n) && f in n.data
    ensures Inv(Act(n, DeliverData(f, recvAvailable)))
  {
    var cached := Cached(n.rx.log, f.opId, HISTORY);
    if Validate(n.rx, f).Some? || f.connId != n.rx.connId {
    } else if n.rx.current.Idle? && (cached.Some? || !recvAvailable) {
    } else if n.rx.current.Idle? {
      OpenKeeps(n, f);
      AssembleKeeps(n.(rx := n.rx.(current := Opened(n.rx, f))), f);
    } else {
      AssembleKeeps(n, f);
    }
  }

  lemma SendKeeps(n: Net, opId: u32)
    requires Inv(n) && opId in n.txs
    ensures Inv(Act(n, SendFrame(opId)))
  {
    assert TxGood(opId, n.txs[opId], n.rx.log);
    var (t, f) := NextFrame(n.txs[opId]);
    TxStepKeeps(n, opId, t);
  }

  lemma AckKeeps(n: Net, ack: AckFrame)
    requires Inv(n) && ack in n.acks && ack.opId in n.txs
    ensures Inv(Act(n, DeliverAck(ack)))
  {
    var t := n.txs[ack.opId];
    assert TxGood(ack.opId, t, n.rx.log);
    if ack.status == ACK_OK {
      var k :| 0 <= k < |n.rx.log| && n.rx.log[k].ack.opId == ack.opId;
      assert Finished(n.rx.log, ack.opId, t.totalLen);
    }
    TxStepKeeps(n, ack.opId, OnAck(t, ack).0);
  }

  lemma ActKeeps(n: Net, a: Action)
    requires Inv(n) && Enabled(n, a)
    ensures Inv(Act(n, a))
  {
    match a
    case StartOp(connId, opId, op, totalLen, maxPayload, retryBudget, rnrBudget) =>
      var t := Start(connId, opId, op, totalLen, maxPayload, retryBudget, rnrBudget);
      if t.Ok? {
        StartKeeps(n, opId, t.value);
      }
    case SendFrame(opId) =>
      SendKeeps(n, opId);
    case ExpireTimer(opId) =>
      assert TxGood(opId, n.txs[opId], n.rx.log);
      TxStepKeeps(n, opId, OnTimeout(n.txs[opId]).0);
    case DeliverData(frame, recvAvailable) =>
      DataKeeps(n, frame, recvAvailable);
    case DeliverAck(ack) =>
      if ack.opId in n.txs {
        AckKeeps(n, ack);
      }
  }

  lemma {:induction false} PathKeeps(n: Net, actions: seq<Action>, m: Net)
    requires Inv(n) && Path(n, actions, m)
    ensures Inv(m)
    decreases |actions|
  {
    if actions != [] {
      ActKeeps(n, actions[0]);
      PathKeeps(Act(n, actions[0]), actions[1..], m);
    }
  }

  /** End to end: however frames and acknowledgements are lost, duplicated and reordered, a sender
      that completed OK was finished by the receiver with the same total length; every finished
      operation has the length its sender gave; and no operation is finished twice within 17
      consecutive ones. */
  lemma EndToEnd(connId: u64, maxPayload: u32, actions: seq<Action>, n: Net)
    requires Path(Begin(connId, maxPayload), actions, n)
    ensures forall id :: id in n.txs && n.txs[id].state == Complete ==> Finished(n.rx.log, id, n.txs[id].totalLen)
    ensures forall k :: 0 <= k < |n.rx.log| ==>
              n.rx.log[k].ack.opId in n.txs && n.rx.log[k].totalLen == n.txs[n.rx.log[k].ack.opId].totalLen
    ensures WindowDistinct(n.rx.log)
  {
    PathKeeps(Begin(connId, maxPayload), actions, n);
    forall id | id in n.txs && n.txs[id].state == Complete ensures Finished(n.rx.log, id, n.txs[id].totalLen) {
      assert TxGood(id, n.txs[id], n.rx.log);
    }
  }

  // ---------------------------------------------------------------- recovery

  lemma {:induction false} PathJoin(n: Net, a: seq<Action>, m: Net, b: seq<Action>, o: Net)
    requires Path(n, a, m) && Path(m, b, o)
    ensures Path(n, a + b, o)
    decreases |a|
  {
    hide Act;
    hide Enabled;
    if a == [] {
      assert a + b == b;
    } else {
      assert (a + b)[1..] == a[1..] + b;
      PathJoin(Act(n, a[0]), a[1..], m, b, o);
    }
  }

  lemma PathOne(n: Net, a: Action)
    requires Enabled(n, a)
    ensures Path(n, [a], Act(n, a))
  {
    hide Act;
    hide Enabled;
    assert [a][1..] == [];
    assert Path(Act(n, a), [], Act(n, a));
  }

  /** The first k fragments of a message are sent and arrive one by one at a receiver with a buffer. */
  function PassActions(t: Tx, generation: u32, k: nat): (r: seq<Action>)
    requires Shaped(t) && k <= t.frameCount
  {
    if k == 0 then []
    else
      PassActions(t, generation, k - 1)
      + ([SendFrame(t.opId)] + [DeliverData(FragmentOf(t, k - 1, generation), true)])
  }

  /** Operation id is live, towards this receiver, and the receiver is not busy with another one. */
  ghost predicate Serves(n: Net, id: u32) {
    && id in n.txs && Live(n.txs[id])
    && n.txs[id].connId == n.rx.connId && n.txs[id].maxPayload == n.rx.maxPayload
    && (n.rx.current.Assembling? ==> n.rx.current.opId == id)
  }

  ghost predicate Served(n: Net, id: u32) {
    Inv(n) && Serves(n, id)
  }

  ghost predicate AckedOk(n: Net, id: u32) {
    exists ack :: ack in n.acks && ack.connId == n.rx.connId && ack.opId == id && ack.status == ACK_OK
  }

  /** Where a pass stands after k of its frames: answered, or being assembled, or about to begin. */
  ghost predicate Underway(n: Net, t: Tx, k: nat) {
    && Served(n, t.opId) && Shaped(t) && k <= t.frameCount
    && SameMessage(t, n.txs[t.opId]) && n.txs[t.opId].nextFrame == k
    && n.txs[t.opId].retryGeneration == t.retryGeneration
    && (|| (n.rx.current.Idle? && Cached(n.rx.log, t.opId, HISTORY).Some? && (k > 0 ==> AckedOk(n, t.opId)))
        || (n.rx.current.Assembling? && forall i :: 0 <= i < k ==> i in n.rx.current.seen)
        || (n.rx.current.Idle? && k == 0))
  }

  /** The receiver takes a fragment of an operation it serves. */
  lemma FragmentTaken(n: Net, t: Tx, k: nat)
    requires Underway(n, t, k) && k < t.frameCount
    ensures Validate(n.rx, FragmentOf(t, k, t.retryGeneration)).None?
  {
    FragFits(t.totalLen, t.maxPayload, k);
  }

  lemma SendOne(n: Net, t: Tx, k: nat)
    requires Underway(n, t, k) && k < t.frameCount
    ensures Enabled(n, SendFrame(t.opId))
    ensures var m := Act(n, SendFrame(t.opId));
            && FragmentOf(t, k, t.retryGeneration) in m.data && m.rx == n.rx && m.acks == n.acks
            && t.opId in m.txs && Live(m.txs[t.opId]) && SameMessage(t, m.txs[t.opId])
            && m.txs[t.opId].nextFrame == k + 1 && m.txs[t.opId].retryGeneration == t.retryGeneration
  {
    assert TxGood(t.opId, n.txs[t.opId], n.rx.log);
  }

  /** The receiver after a fragment it takes. */
  lemma TakeOne(n: Net, t: Tx, k: nat)
    requires Underway(n, t, k) && k < t.frameCount
    ensures var (rx, event) := OnData(n.rx, FragmentOf(t, k, t.retryGeneration), true);
            var acks := WithAck(n.acks, event);
            && rx.connId == n.rx.connId && rx.maxPayload == n.rx.maxPayload
            && (|| (rx.current.Idle? && Cached(rx.log, t.opId, HISTORY).Some?
                    && exists ack ::
                         ack in acks && ack.connId == rx.connId && ack.opId == t.opId && ack.status == ACK_OK)
                || (rx.current.Assembling? && rx.current.opId == t.opId
                    && forall i :: 0 <= i < k + 1 ==> i in rx.current.seen))
  {
    FragmentTaken(n, t, k);
    var f := FragmentOf(t, k, t.retryGeneration);
    var (rx, event) := OnData(n.rx, f, true);
    var cached := Cached(n.rx.log, t.opId, HISTORY);
    if n.rx.current.Idle? && cached.Some? {
      assert cached.value in WithAck(n.acks, event);
      var j :| 0 <= j < |n.rx.log| && n.rx.log[j].ack == cached.value;
    } else if rx.current.Idle? {
      assert BuildAck(f, ACK_OK) in WithAck(n.acks, event);
      assert rx.log[|n.rx.log|].ack == BuildAck(f, ACK_OK);
    }
  }

  lemma PassStep(n: Net, t: Tx, k: nat)
    requires Underway(n, t, k) && k < t.frameCount
    ensures var send, take := SendFrame(t.opId), DeliverData(FragmentOf(t, k, t.retryGeneration), true);
            && Enabled(n, send) && Enabled(Act(n, send), take)
            && Underway(Act(Act(n, send), take), t, k + 1)
  {
    hide Inv;
    hide OnData;
    hide Live;
    hide FragmentOf;
    hide FrameCount;
    hide Cached;
    SendOne(n, t, k);
    TakeOne(n, t, k);
    ActKeeps(n, SendFrame(t.opId));
    ActKeeps(Act(n, SendFrame(t.opId)), DeliverData(FragmentOf(t, k, t.retryGeneration), true));
  }

  lemma UnderwayShaped(n: Net, t: Tx)
    requires Underway(n, t, 0)
    ensures Shaped(t)
  {
  }

  lemma {:induction false} PassArrives(n: Net, t: Tx, k: nat) returns (m: Net)
    requires Underway(n, t, 0) && k <= t.frameCount
    ensures Path(n, PassActions(t, t.retryGeneration, k), m) && Underway(m, t, k)
  {
    hide Underway;
    hide Act;
    hide Enabled;
    hide FragmentOf;
    if k == 0 {
      m := n;
    } else {
      var l := PassArrives(n, t, k - 1);
      UnderwayShaped(n, t);
      PassStep(l, t, k - 1);
      var send, take := SendFrame(t.opId), DeliverData(FragmentOf(t, k - 1, t.retryGeneration), true);
      PathOne(l, send);
      PathOne(Act(l, send), take);
      m := Act(Act(l, send), take);
      PathJoin(l, [send], Act(l, send), [take], m);
      PathJoin(n, PassActions(t, t.retryGeneration, k - 1), l, [send] + [take], m);
    }
  }

  /** A full pass leaves the operation acknowledged. */
  lemma PassAcks(n: Net, t: Tx)
    requires Underway(n, t, t.frameCount)
    ensures AckedOk(n, t.opId)
  {
    if n.rx.current.Assembling? {
      assert CurrentGood(n.rx.current, n.txs);
      FullSet(n.rx.current.seen, t.frameCount);
    }
  }

  lemma {:induction false} FullSet(seen: set<nat>, k: nat)
    requires forall i :: 0 <= i < k ==> i in seen
    ensures |seen| >= k
  {
    if k > 0 {
      FullSet(seen - {k - 1}, k - 1);
    }
  }

  /** Operation id completes with OK, and the receiver has finished it, when one pass of its frames and then
      one acknowledgement arrive. */
  ghost predicate PassCompletes(n: Net, id: u32)
    requires id in n.txs && Shaped(n.txs[id])
  {
    var t := n.txs[id];
    exists ack: AckFrame, m: Net ::
      && ack.opId == id && Path(n, PassActions(t, t.retryGeneration, t.frameCount) + [DeliverAck(ack)], m)
      && id in m.txs && m.txs[id].state == Complete && Finished(m.rx.log, id, m.txs[id].totalLen)
  }

  lemma ServedShaped(n: Net, id: u32)
    requires Served(n, id)
    ensures Shaped(n.txs[id]) && n.txs[id].opId == id
  {
    assert TxGood(id, n.txs[id], n.rx.log);
  }

  lemma PassRecovers(n: Net, id: u32)
    requires Served(n, id) && n.txs[id].nextFrame == 0
    ensures Shaped(n.txs[id]) && PassCompletes(n, id)
  {
    ServedShaped(n, id);
    var t := n.txs[id];
    var l := PassArrives(n, t, t.frameCount);
    PassAcks(l, t);
    var ack :| ack in l.acks && ack.connId == l.rx.connId && ack.opId == id && ack.status == ACK_OK;
    PathOne(l, DeliverAck(ack));
    var m := Act(l, DeliverAck(ack));
    PathJoin(n, PassActions(t, t.retryGeneration, t.frameCount), l, [DeliverAck(ack)], m);
    ActKeeps(l, DeliverAck(ack));
    assert TxGood(id, m.txs[id], m.rx.log);
  }

  /** From any state that frames and acknowledgements lost, duplicated and reordered can lead to: a pass that
      is about to begin completes the operation, at a receiver that has a buffer and is not busy with another
      operation. It does not matter whether the receiver has finished the operation already, has part of
      it, or has nothing. */
  lemma FirstPassCompletes(connId: u64, maxPayload: u32, actions: seq<Action>, n: Net, id: u32)
    requires Path(Begin(connId, maxPayload), actions, n) && Serves(n, id) && n.txs[id].nextFrame == 0
    ensures Shaped(n.txs[id]) && PassCompletes(n, id)
  {
    PathKeeps(Begin(connId, maxPayload), actions, n);
    PassRecovers(n, id);
  }

  /** Retransmission recovers whatever was lost: after a time-out that does not exhaust the budget the next
      pass, under a new generation, completes the operation. */
  lemma TimeOutRecovers(connId: u64, maxPayload: u32, actions: seq<Action>, n: Net, id: u32)
    requires Path(Begin(connId, maxPayload), actions, n) && Serves(n, id) && n.txs[id].state == InFlight
    requires Live(Act(n, ExpireTimer(id)).txs[id])
    ensures var m := Act(n, ExpireTimer(id));
            && m.txs[id].retryGeneration == (n.txs[id].retryGeneration + 1) % U32_MOD
            && Shaped(m.txs[id]) && PassCompletes(m, id)
  {
    PathKeeps(Begin(connId, maxPayload), actions, n);
    ActKeeps(n, ExpireTimer(id));
    hide Inv;
    hide PassCompletes;
    PassRecovers(Act(n, ExpireTimer(id)), id);
  }

  /** The first frame finds no buffer: it is answered receiver-not-ready, and after that answer, unless it
      exhausts the budget, the next pass completes the operation. */
  lemma NotReadyRecovers(connId: u64, maxPayload: u32, actions: seq<Action>, n: Net, id: u32) returns (m: Net)
    requires Path(Begin(connId, maxPayload), actions, n) && Serves(n, id) && n.txs[id].nextFrame == 0
    requires n.rx.current.Idle?
    requires forall k :: 0 <= k < |n.rx.log| && |n.rx.log| - HISTORY <= k ==> n.rx.log[k].ack.opId != id
    ensures Shaped(n.txs[id])
    ensures var t := n.txs[id];
            Path(n, [SendFrame(id)] + [DeliverData(FragmentOf(t, 0, t.retryGeneration), false)]
                    + [DeliverAck(AckFrame(t.connId, id, t.retryGeneration, ACK_RNR))], m)
    ensures m.rx == n.rx && id in m.txs
    ensures Live(m.txs[id]) ==> Shaped(m.txs[id]) && PassCompletes(m, id)
                                && m.txs[id].retryGeneration == (n.txs[id].retryGeneration + 1) % U32_MOD
  {
    PathKeeps(Begin(connId, maxPayload), actions, n);
    ServedShaped(n, id);
    hide Inv;
    hide PassCompletes;
    hide FragmentOf;
    var t := n.txs[id];
    NotReadySent(n, id);
    NotReadyTaken(n, id);
    hide Act;
    var send, data := SendFrame(id), DeliverData(FragmentOf(t, 0, t.retryGeneration), false);
    var answer := DeliverAck(AckFrame(t.connId, id, t.retryGeneration, ACK_RNR));
    var l := Act(n, send);
    var k := Act(l, data);
    m := Act(k, answer);
    PathOne(n, send);
    PathOne(l, data);
    PathOne(k, answer);
    PathJoin(n, [send], l, [data], k);
    PathJoin(n, [send] + [data], k, [answer], m);
    ActKeeps(n, send);
    ActKeeps(l, data);
    ActKeeps(k, answer);
    if Live(m.txs[id]) {
      PassRecovers(m, id);
    }
  }

  lemma NotReadySent(n: Net, id: u32)
    requires Served(n, id) && n.txs[id].nextFrame == 0 && n.rx.current.Idle?
    requires Cached(n.rx.log, id, HISTORY).None? && Shaped(n.txs[id]) && n.txs[id].opId == id
    ensures var t := n.txs[id];
            var data := DeliverData(FragmentOf(t, 0, t.retryGeneration), false);
            var l := Act(n, SendFrame(id));
            && Enabled(n, SendFrame(id)) && Enabled(l, data)
            && Act(l, data) == l.(acks := n.acks + {AckFrame(t.connId, id, t.retryGeneration, ACK_RNR)})
            && l.rx == n.rx && id in l.txs && Live(l.txs[id]) && SameMessage(t, l.txs[id])
            && l.txs[id].retryGeneration == t.retryGeneration
  {
    var t := n.txs[id];
    SendOne(n, t, 0);
    FragmentTaken(n, t, 0);
    hide Inv;
  }

  lemma NotReadyTaken(n: Net, id: u32)
    requires Served(n, id) && n.txs[id].nextFrame == 0 && n.rx.current.Idle?
    requires Cached(n.rx.log, id, HISTORY).None? && Shaped(n.txs[id]) && n.txs[id].opId == id
    ensures var t := n.txs[id];
            var l := Act(n, SendFrame(id));
            var ack := AckFrame(t.connId, id, t.retryGeneration, ACK_RNR);
            var k := l.(acks := n.acks + {ack});
            var m := Act(k, DeliverAck(ack));
            && Enabled(k, DeliverAck(ack)) && m.rx == n.rx && id in m.txs
            && (Live(m.txs[id]) ==>
                  && m.txs[id].nextFrame == 0 && m.txs[id].retryGeneration == (t.retryGeneration + 1) % U32_MOD
                  && SameMessage(t, m.txs[id]))
  {
    NotReadySent(n, id);
    hide Inv;
    hide NextFrame;
  }
}
