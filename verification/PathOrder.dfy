/** Packets of PathTx go out in the order they were accepted, and a canceled packet never succeeds. */
module PathOrder {
  import opened Prelude
  import opened Lists
  import opened PathTx
  import opened PathOwnership
  import opened PathGate

  // ---------------------------------------------------------------- order

  function IdsOf(q: seq<Pkt>): (r: seq<nat>)
    ensures |r| == |q| && forall i :: 0 <= i < |q| ==> r[i] == q[i].id
  {
    seq(|q|, i requires 0 <= i < |q| => q[i].id)
  }

  /** The packets of one kind, control or data, on the wire. */
  function Sent(wire: seq<Pkt>, control: bool): seq<nat> {
    if wire == [] then []
    else
      var p, rest := wire[|wire| - 1], Sent(wire[..|wire| - 1], control);
      if p.control == control then rest + [p.id] else rest
  }

  function Handed(hand: Option<Hand>, control: bool): seq<nat> {
    if hand.Some? && hand.value.pkt.control == control then [hand.value.pkt.id] else []
  }

  /** The packets of one kind as sent, in hand and queued. */
  function Line(s: Path, control: bool): seq<nat> {
    Sent(s.wire, control) + Handed(s.hand, control) + IdsOf(if control then s.controlQ else s.dataQ)
  }

  ghost predicate Ascending(q: seq<nat>, bound: nat) {
    (forall i, j :: 0 <= i < j < |q| ==> q[i] < q[j]) && forall i :: 0 <= i < |q| ==> q[i] < bound
  }

  ghost predicate InOrder(s: Path) {
    Ascending(Line(s, true), s.accepted) && Ascending(Line(s, false), s.accepted)
  }

  lemma Shorter(a: seq<nat>, b: seq<nat>, c: seq<nat>, bound: nat)
    requires Ascending(a + b + c, bound)
    ensures Ascending(a + c, bound)
  {
    var q, r := a + b + c, a + c;
    forall i, j | 0 <= i < j < |r| ensures r[i] < r[j] {
      var k, l := if i < |a| then i else i + |b|, if j < |a| then j else j + |b|;
      assert q[k] == r[i] && q[l] == r[j];
    }
    forall i | 0 <= i < |r| ensures r[i] < bound {
      assert q[if i < |a| then i else i + |b|] == r[i];
    }
  }

  lemma Longer(a: seq<nat>, first: nat, count: nat, packets: seq<Pkt>)
    requires Ascending(a, first) && |packets| == count
    requires forall i :: 0 <= i < |packets| ==> packets[i].id == first + i
    ensures Ascending(a + IdsOf(packets), first + count)
  {
  }

  lemma IdsJoin(a: seq<Pkt>, b: seq<Pkt>)
    ensures IdsOf(a + b) == IdsOf(a) + IdsOf(b)
  {
  }

  lemma IdsHead(q: seq<Pkt>)
    requires q != []
    ensures IdsOf(q) == [q[0].id] + IdsOf(q[1..])
  {
  }

  lemma SentMore(wire: seq<Pkt>, p: Pkt, control: bool)
    ensures Sent(wire + [p], control)
         == if p.control == control then Sent(wire, control) + [p.id] else Sent(wire, control)
  {
    assert (wire + [p])[..|wire|] == wire;
  }

  lemma LastIs(q: seq<nat>, x: nat, bound: nat)
    ensures Ascending(q + [x], bound) <==> Ascending(q, x) && x < bound
  {
    var r := q + [x];
    assert r[|q|] == x && forall i :: 0 <= i < |q| ==> r[i] == q[i];
  }

  /** Removing packets from the queue keeps the order. */
  lemma {:induction false} KeptOrder(a: seq<nat>, q: seq<Pkt>, ctx: nat, byOwner: bool, bound: nat)
    requires Ascending(a + IdsOf(q), bound)
    ensures Ascending(a + IdsOf(Kept(q, ctx, byOwner)), bound)
  {
    hide Ascending;
    if q == [] {
      assert Kept(q, ctx, byOwner) == q;
    } else {
      var last, rest := q[|q| - 1], q[..|q| - 1];
      assert a + IdsOf(q) == a + IdsOf(rest) + [last.id];
      LastIs(a + IdsOf(rest), last.id, bound);
      KeptOrder(a, rest, ctx, byOwner, last.id);
      var k := Kept(rest, ctx, byOwner);
      LastIs(a + IdsOf(k), last.id, bound);
      assert a + IdsOf(k + [last]) == a + IdsOf(k) + [last.id];
      Wider(a + IdsOf(k), last.id, bound);
    }
  }

  lemma Wider(q: seq<nat>, low: nat, high: nat)
    requires Ascending(q, low) && low <= high
    ensures Ascending(q, high)
  {
  }

  // ---------------------------------------------------------------- steps

  lemma Assoc(a: seq<nat>, b: seq<nat>, c: seq<nat>)
    ensures a + b + c == a + (b + c)
  {
  }

  /** New packets join the end of their line. */
  lemma SendOrder(s: Path, e: Event)
    requires InOrder(s) && (e.SendControl? || e.SendData? || e.SendBatch? || e.SendStream?)
    ensures InOrder(Step(s, e))
  {
    hide Ascending;
    hide Sent;
    hide Stream;
    hide Batch;
    match e
    case SendControl(d) =>
      Appended(s, [Pkt(s.accepted, true, false, false, false, false, false, d, d, 0, 0)], true);
    case SendData(d) => Appended(s, [Plain(s.accepted, d, 1)], false);
    case SendBatch(owner, count, useReserved) => Appended(s, Batch(s.accepted, owner, count), false);
    case SendStream(owner, lens) => Appended(s, Stream(s.accepted, owner, lens), false);
  }

  lemma Appended(s: Path, packets: seq<Pkt>, control: bool)
    requires InOrder(s) && forall i :: 0 <= i < |packets| ==> packets[i].id == s.accepted + i
    ensures var q := if control then s.controlQ else s.dataQ;
            && Ascending(Sent(s.wire, control) + Handed(s.hand, control) + IdsOf(q + packets), s.accepted + |packets|)
            && Ascending(Line(s, !control), s.accepted + |packets|)
  {
    hide Sent;
    hide Ascending;
    hide Handed;
    var q := if control then s.controlQ else s.dataQ;
    Longer(Line(s, control), s.accepted, |packets|, packets);
    IdsJoin(q, packets);
    hide IdsOf;
    Assoc(Sent(s.wire, control) + Handed(s.hand, control), IdsOf(q), IdsOf(packets));
    Wider(Line(s, !control), s.accepted, s.accepted + |packets|);
  }

  /** From the queue to the hand and from the hand to the wire, nothing overtakes. */
  lemma TakeOrder(s: Path)
    requires InOrder(s) && Sorted(s)
    ensures InOrder(Take(s))
  {
    hide Ascending;
    hide Sent;
    var t := Take(s);
    TakeExact(s);
    if Takes(s, t) {
      if FromControl(s) {
        IdsHead(s.controlQ);
        assert Line(t, true) == Line(s, true);
      } else {
        IdsHead(s.dataQ);
        assert Line(t, false) == Line(s, false);
      }
      TakeAccepts(s);
    }
    hide Take;
  }

  lemma TakeAccepts(s: Path)
    ensures Take(s).accepted == s.accepted
  {
  }

  lemma PostOrder(s: Path)
    requires InOrder(s)
    ensures InOrder(Posted(s))
  {
    hide Ascending;
    hide Sent;
    if s.hand.Some? {
      SentMore(s.wire, s.hand.value.pkt, true);
      SentMore(s.wire, s.hand.value.pkt, false);
      assert Line(Posted(s), true) == Line(s, true);
      assert Line(Posted(s), false) == Line(s, false);
    }
  }

  /** A refused packet goes back to where it came from, or leaves the line. */
  lemma RefuseOrder(s: Path, enomem: bool, status: int)
    requires InOrder(s)
    ensures InOrder(PostFailed(s, enomem, status))
  {
    hide Ascending;
    hide Sent;
    hide PostFailed;
    hide Requeues;
    if s.hand.Some? {
      var t := PostFailed(s, enomem, status);
      var p := s.hand.value.pkt;
      var q := if p.control then s.controlQ else s.dataQ;
      Refused(s, enomem, status);
      Reline(Sent(s.wire, p.control), p.id, IdsOf(q));
      if enomem && Requeues(s, p) {
        IdsHead(if p.control then t.controlQ else t.dataQ);
      } else {
        Shorter(Sent(s.wire, p.control), [p.id], IdsOf(q), s.accepted);
      }
      hide IdsOf;
    } else {
      NothingRefused(s, enomem, status);
    }
  }

  lemma Reline(a: seq<nat>, x: nat, b: seq<nat>)
    ensures a + [] + ([x] + b) == a + [x] + b && a + [] + b == a + b
  {
  }

  lemma NothingRefused(s: Path, enomem: bool, status: int)
    requires s.hand.None?
    ensures PostFailed(s, enomem, status) == s
  {
  }

  lemma Refused(s: Path, enomem: bool, status: int)
    requires s.hand.Some?
    ensures var t, p := PostFailed(s, enomem, status), s.hand.value.pkt;
            && t.wire == s.wire && t.hand == None && t.accepted == s.accepted
            && (if enomem && Requeues(s, p) then
                  if p.control then
                    |t.controlQ| > 0 && t.controlQ[0].id == p.id && t.controlQ[1..] == s.controlQ && t.dataQ == s.dataQ
                  else |t.dataQ| > 0 && t.dataQ[0].id == p.id && t.dataQ[1..] == s.dataQ && t.controlQ == s.controlQ
                else t.controlQ == s.controlQ && t.dataQ == s.dataQ)
  {
  }

  lemma CancelOrder(s: Path, e: Event)
    requires InOrder(s) && (e.CancelCtx? || e.CancelAll?)
    ensures InOrder(Step(s, e))
  {
    hide Ascending;
    hide Sent;
    hide Kept;
    hide Canceled;
    hide Marked;
    hide WithStatus;
    var t := Step(s, e);
    assert forall c :: Handed(t.hand, c) == Handed(s.hand, c);
    var a, b := Sent(s.wire, false) + Handed(s.hand, false), Sent(s.wire, true) + Handed(s.hand, true);
    if e.CancelCtx? {
      KeptOrder(a, s.dataQ, e.ctx, e.byOwner, s.accepted);
    } else {
      assert a + IdsOf(s.dataQ) + [] == Line(s, false) && a + [] == Line(t, false);
      assert b + IdsOf(s.controlQ) + [] == Line(s, true) && b + [] == Line(t, true);
      Shorter(a, IdsOf(s.dataQ), [], s.accepted);
      Shorter(b, IdsOf(s.controlQ), [], s.accepted);
    }
  }

  lemma StepOrder(s: Path, e: Event)
    requires InOrder(s) && Sorted(s)
    ensures InOrder(Step(s, e))
  {
    hide Line;
    hide Ascending;
    hide Take;
    hide Posted;
    hide PostFailed;
    hide CompleteStaged;
    hide CompleteZcopy;
    hide CancelMatch;
    hide CancelQueued;
    hide EnqueueControl;
    hide EnqueueData;
    hide EnqueueList;
    if e.SendControl? || e.SendData? || e.SendBatch? || e.SendStream? {
      SendOrder(s, e);
    } else if e.TakeNext? {
      TakeOrder(s);
    } else if e.PostOk? {
      PostOrder(s);
    } else if e.PostFails? {
      RefuseOrder(s, e.enomem, e.status);
    } else if e.CancelCtx? || e.CancelAll? {
      CancelOrder(s, e);
    } else {
      RestOrder(s, e);
    }
  }

  /** The other events leave the lines alone. */
  lemma RestOrder(s: Path, e: Event)
    requires InOrder(s) && (e.ReserveFrames? || e.ReleaseFrames? || e.Schedule? || e.StagedDone? || e.ZcopyDone?
                            || e.ReleaseOne? || e.CreditsCome? || e.Close? || e.Open?)
    ensures InOrder(Step(s, e))
  {
    hide Ascending;
    hide Sent;
    hide FinishRaw;
    hide IdsOf;
    hide Handed;
  }

  /** In every run, with failed posts, cancellations and raw streams: the packets of each kind, control and
      data, are on the wire in the order they were accepted, followed in it by the one in hand and by those
      queued. */
  lemma {:induction false} FirstInFirstOut(frameCount: nat, inflightLimit: nat, queueLimit: nat, creditMax: nat,
                                           events: seq<Event>)
    ensures var s := Run(PathTx.Start(frameCount, inflightLimit, queueLimit, creditMax), events);
            Ascending(Line(s, true), s.accepted) && Ascending(Line(s, false), s.accepted)
  {
    hide Step;
    hide Line;
    hide Ascending;
    if events == [] {
      StartInOrder(frameCount, inflightLimit, queueLimit, creditMax);
    } else {
      var prefix := events[..|events| - 1];
      FirstInFirstOut(frameCount, inflightLimit, queueLimit, creditMax, prefix);
      Ownership(frameCount, inflightLimit, queueLimit, creditMax, prefix);
      StepOrder(Run(PathTx.Start(frameCount, inflightLimit, queueLimit, creditMax), prefix), events[|events| - 1]);
    }
  }

  lemma StartInOrder(frameCount: nat, inflightLimit: nat, queueLimit: nat, creditMax: nat)
    ensures InOrder(PathTx.Start(frameCount, inflightLimit, queueLimit, creditMax))
  {
  }
}
