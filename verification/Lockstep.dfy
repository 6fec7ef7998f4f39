/** Raw streams stay whole on the wire: PathTx over runs without cancellation and without failed posts. */
module Lockstep {
  import opened Prelude
  import opened Lists
  import opened PathTx

  /** A raw stream that has begun on the wire: its owner, its announced length and what has followed. */
  datatype Current = Current(owner: Option<nat>, total: nat, done: nat)

  datatype Follow = Follow(cur: Option<Current>, ok: bool)

  const CALM: Follow := Follow(None, true)

  /** Following the wire by one packet: a stream's header may only start between streams, only its own
      payload may follow until its length is complete, and the last payload is marked as the end. */
  function After(f: Follow, p: Pkt): Follow {
    if p.start then Follow(Some(Current(p.owner, p.len, 0)), f.ok && f.cur.None? && p.len > 0 && !p.zcopy && !p.end)
    else if p.zcopy then
      if f.cur.None? then Follow(None, false)
      else
        var c := f.cur.value;
        var done := c.done + p.len;
        Follow(if done == c.total then None else Some(c.(done := done)),
               f.ok && p.owner == c.owner && p.len > 0 && done <= c.total && (p.end <==> done == c.total))
    else Follow(f.cur, f.ok && f.cur.None?)
  }

  function Chain(f: Follow, q: seq<Pkt>): Follow {
    if q == [] then f else After(Chain(f, q[..|q| - 1]), q[|q| - 1])
  }

  lemma {:induction false} ChainJoin(f: Follow, a: seq<Pkt>, b: seq<Pkt>)
    ensures Chain(f, a + b) == Chain(Chain(f, a), b)
  {
    if b == [] {
      assert a + b == a;
    } else {
      assert (a + b)[..|a + b| - 1] == a + b[..|b| - 1];
      ChainJoin(f, a, b[..|b| - 1]);
    }
  }

  lemma ChainOne(f: Follow, p: Pkt)
    ensures Chain(f, [p]) == After(f, p)
  {
    assert [p][..0] == [];
  }

  lemma ChainHead(f: Follow, q: seq<Pkt>)
    requires q != []
    ensures Chain(f, q) == Chain(After(f, q[0]), q[1..])
  {
    ChainJoin(f, [q[0]], q[1..]);
    ChainOne(f, q[0]);
    assert [q[0]] + q[1..] == q;
  }

  /** Once broken, it stays broken. */
  lemma {:induction false} ChainBroken(f: Follow, q: seq<Pkt>)
    requires Chain(f, q).ok
    ensures f.ok
  {
    if q != [] {
      ChainBroken(f, q[..|q| - 1]);
    }
  }

  // ---------------------------------------------------------------- what is enqueued

  ghost predicate PlainOnly(q: seq<Pkt>) {
    forall i :: 0 <= i < |q| ==> !q[i].start && !q[i].zcopy
  }

  lemma {:induction false} PlainCalm(q: seq<Pkt>)
    requires PlainOnly(q)
    ensures Chain(CALM, q) == CALM
  {
    if q != [] {
      PlainCalm(q[..|q| - 1]);
    }
  }

  lemma {:induction false} SumMonotone(lens: seq<nat>, k: nat)
    requires k <= |lens| && forall i :: 0 <= i < |lens| ==> lens[i] > 0
    ensures SumOf(lens[..k]) + (|lens| - k) <= SumOf(lens)
    decreases |lens| - k
  {
    if k < |lens| {
      SumMonotone(lens, k + 1);
      WeighOne(lens[..k], lens[k], Amount);
      assert lens[..k] + [lens[k]] == lens[..k + 1];
    } else {
      assert lens[..k] == lens;
    }
  }

  /** The stream as far as its first k payloads. */
  lemma {:induction false} StreamFollows(id: nat, owner: nat, lens: seq<nat>, k: nat)
    requires |lens| > 0 && k <= |lens| && forall i :: 0 <= i < |lens| ==> lens[i] > 0
    ensures var f := Chain(CALM, Stream(id, owner, lens)[..k + 1]);
            f == (if k == |lens| then CALM else Follow(Some(Current(Some(owner), SumOf(lens), SumOf(lens[..k]))), true))
  {
    var s := Stream(id, owner, lens);
    if k == 0 {
      assert s[..1] == [s[0]];
      ChainOne(CALM, s[0]);
      SumMonotone(lens, 0);
    } else {
      hide Weigh;
      hide Chain;
      StreamFollows(id, owner, lens, k - 1);
      assert s[..k + 1] == s[..k] + [s[k]];
      ChainJoin(CALM, s[..k], [s[k]]);
      ChainOne(Chain(CALM, s[..k]), s[k]);
      PayloadFollows(id, owner, lens, k);
    }
  }

  /** One payload of a stream. */
  lemma PayloadFollows(id: nat, owner: nat, lens: seq<nat>, k: nat)
    requires 0 < k <= |lens| && forall i :: 0 <= i < |lens| ==> lens[i] > 0
    ensures After(Follow(Some(Current(Some(owner), SumOf(lens), SumOf(lens[..k - 1]))), true),
                  Stream(id, owner, lens)[k])
         == if k == |lens| then CALM else Follow(Some(Current(Some(owner), SumOf(lens), SumOf(lens[..k]))), true)
  {
    hide Weigh;
    var p := Stream(id, owner, lens)[k];
    WeighOne(lens[..k - 1], lens[k - 1], Amount);
    assert lens[..k - 1] + [lens[k - 1]] == lens[..k];
    SumMonotone(lens, k);
    assert k == |lens| ==> lens[..k] == lens;
    assert p.zcopy && !p.start && p.len == lens[k - 1] && p.owner == Some(owner) && (p.end <==> k == |lens|);
  }

  lemma StreamCalm(id: nat, owner: nat, lens: seq<nat>)
    requires |lens| > 0 && forall i :: 0 <= i < |lens| ==> lens[i] > 0
    ensures Chain(CALM, Stream(id, owner, lens)) == CALM
  {
    StreamFollows(id, owner, lens, |lens|);
    assert Stream(id, owner, lens)[..|lens| + 1] == Stream(id, owner, lens);
  }

  // ---------------------------------------------------------------- invariant

  function CountOne(p: Pkt): nat { if p.counted then 1 else 0 }

  /** Packets of the active stream that are in hand or submitted. */
  function CountedIn(s: Path): nat {
    Weigh(s.staged, CountOne) + Weigh(s.zcopy, CountOne) + if s.hand.Some? then CountOne(s.hand.value.pkt) else 0
  }

  function EndOne(p: Pkt): nat { if p.counted && p.end then 1 else 0 }

  /** Ends of the active stream that are in hand or submitted. */
  function EndsIn(s: Path): nat {
    Weigh(s.staged, EndOne) + Weigh(s.zcopy, EndOne) + if s.hand.Some? then EndOne(s.hand.value.pkt) else 0
  }

  function OnWire(s: Path): Follow {
    Chain(CALM, s.wire)
  }

  /** After the packet in hand, too. */
  function WithHand(s: Path): Follow {
    if s.hand.Some? then After(OnWire(s), s.hand.value.pkt) else OnWire(s)
  }

  /** A counted packet belongs to the active stream, and its end is not counted before the stream has
      been handed out completely. */
  ghost predicate CountedTrue(p: Pkt, raw: Raw, f: Follow) {
    p.counted ==> raw.active && p.owner == raw.owner && (p.end ==> f.cur.None?)
  }

  ghost predicate AllCounted(q: seq<Pkt>, raw: Raw, f: Follow) {
    forall i :: 0 <= i < |q| ==> CountedTrue(q[i], raw, f)
  }

  /** An active stream has its packets counted, and is over as soon as all of it has been handed out and has
      completed. */
  ghost predicate RawTrue(raw: Raw, f: Follow, counted: nat, ends: nat) {
    && (if raw.active then raw.inflight == counted else raw == NO_RAW && counted == 0)
    && (f.cur.Some? ==> raw.active && raw.owner == f.cur.value.owner && !raw.endSeen)
    && (raw.active && f.cur.None? ==> counted > 0 && (raw.endSeen || ends > 0))
    && ends <= counted
  }

  /** No packet waiting in the queues is counted. */
  ghost predicate Uncounted(q: seq<Pkt>) {
    forall i :: 0 <= i < |q| ==> !q[i].counted
  }

  ghost predicate Whole(s: Path) {
    && Chain(WithHand(s), s.dataQ) == CALM
    && RawTrue(s.raw, WithHand(s), CountedIn(s), EndsIn(s))
    && AllCounted(s.staged, s.raw, WithHand(s)) && AllCounted(s.zcopy, s.raw, WithHand(s))
    && (s.hand.Some? ==> CountedTrue(s.hand.value.pkt, s.raw, WithHand(s)))
    && PlainOnly(s.controlQ) && Uncounted(s.controlQ) && Uncounted(s.dataQ)
  }

  /** No cancellation and no failed post; streams have payload, none of it empty. */
  predicate Smooth(e: Event) {
    match e
    case PostFails(_, _) => false
    case CancelCtx(_, _, _) => false
    case CancelAll(_) => false
    case StagedDone(_, canceled) => !canceled
    case ZcopyDone(_, canceled) => !canceled
    case SendStream(_, lens) => |lens| > 0 && forall i :: 0 <= i < |lens| ==> lens[i] > 0
    case _ => true
  }

  lemma ListWhole(s: Path, packets: seq<Pkt>, useReserved: bool)
    requires Whole(s) && Chain(CALM, packets) == CALM && Uncounted(packets)
    ensures Whole(EnqueueList(s, packets, useReserved))
  {
    hide Chain;
    hide After;
    ChainJoin(WithHand(s), s.dataQ, packets);
  }

  lemma SendWhole(s: Path, e: Event)
    requires Whole(s) && Smooth(e) && (e.SendControl? || e.SendData? || e.SendBatch? || e.SendStream?)
    ensures Whole(Step(s, e))
  {
    hide Chain;
    hide After;
    hide Weigh;
    match e
    case SendControl(d) =>
    case SendData(d) =>
      var p := Plain(s.accepted, d, 1);
      ChainJoin(WithHand(s), s.dataQ, [p]);
      PlainCalm([p]);
    case SendBatch(owner, count, useReserved) =>
      var b := Batch(s.accepted, owner, count);
      BatchPlain(s.accepted, owner, count);
      PlainCalm(b);
      ListWhole(s, b, useReserved);
    case SendStream(owner, lens) =>
      StreamCalm(s.accepted, owner, lens);
      StreamUncounted(s.accepted, owner, lens);
      ListWhole(s, Stream(s.accepted, owner, lens), false);
  }

  lemma BatchPlain(id: nat, owner: nat, count: nat)
    ensures PlainOnly(Batch(id, owner, count)) && Uncounted(Batch(id, owner, count))
  {
  }

  lemma StreamUncounted(id: nat, owner: nat, lens: seq<nat>)
    ensures Uncounted(Stream(id, owner, lens))
  {
  }

  /** The scheduler never takes a packet that would break into a stream. */
  lemma ChosenFits(s: Path, source: Source)
    requires Whole(s) && s.hand.None? && Choose(s) == Some(source)
    requires source == Control ==> s.controlQ != []
    requires source == Data ==> s.dataQ != []
    ensures var f, p := OnWire(s), if source == Control then s.controlQ[0] else s.dataQ[0];
            && After(f, p).ok && !p.counted
            && (source == Data ==> Chain(After(f, p), s.dataQ[1..]) == CALM)
            && (source == Control ==> After(f, p) == f && f == CALM && !s.raw.active)
            && (p.start ==> !s.raw.active)
            && (p.zcopy && !p.start ==> s.raw.active && p.owner == s.raw.owner && !s.raw.endSeen)
            && (!p.start && !p.zcopy ==> !s.raw.active && f.cur.None?)
            && (p.end && p.zcopy && !p.start ==> After(f, p).cur.None?)
            && (f.cur.Some? ==> p.zcopy && !p.start)
            && (p.start ==> !p.end && !p.zcopy)
  {
    hide Chain;
    var f := OnWire(s);
    if source == Data {
      ChainHead(f, s.dataQ);
      ChainBroken(After(f, s.dataQ[0]), s.dataQ[1..]);
    } else {
      ChainBroken(f, s.dataQ);
    }
  }

  lemma PopWhole(s: Path, source: Source)
    requires Whole(s) && s.hand.None? && Choose(s) == Some(source)
    requires source == Control ==> s.controlQ != []
    requires source == Data ==> s.dataQ != []
    ensures Whole(Pop(s, if source == Control then s.controlQ[0] else s.dataQ[0], source))
  {
    hide Chain;
    hide Weigh;
    ChosenFits(s, source);
    var p := if source == Control then s.controlQ[0] else s.dataQ[0];
    var t := Pop(s, p, source);
    var q := t.hand.value.pkt;
    assert After(OnWire(s), q) == After(OnWire(s), p);
  }

  lemma {:induction false} NoneCounted(q: seq<Pkt>)
    ensures Weigh(q, CountOne) == 0 ==> Uncounted(q)
  {
    if q != [] {
      NoneCounted(q[..|q| - 1]);
    }
  }

  lemma {:induction false} EndsCounted(q: seq<Pkt>)
    ensures Weigh(q, EndOne) <= Weigh(q, CountOne)
  {
    if q != [] {
      EndsCounted(q[..|q| - 1]);
    }
  }

  lemma StagedWhole(s: Path, i: nat)
    requires Whole(s)
    ensures Whole(CompleteStaged(s, i, false))
  {
    hide Chain;
    hide Weigh;
    hide After;
    if i < |s.staged| {
      WeighWithout(s.staged, i, CountOne);
      WeighWithout(s.staged, i, EndOne);
      EndsCounted(Without(s.staged, i));
      EndsCounted(s.zcopy);
      NoneCounted(Without(s.staged, i));
      NoneCounted(s.zcopy);
    }
  }

  lemma ZcopyWhole(s: Path, i: nat)
    requires Whole(s)
    ensures Whole(CompleteZcopy(s, i, false))
  {
    hide Chain;
    hide Weigh;
    hide After;
    if i < |s.zcopy| {
      WeighWithout(s.zcopy, i, CountOne);
      WeighWithout(s.zcopy, i, EndOne);
      EndsCounted(Without(s.zcopy, i));
      EndsCounted(s.staged);
      NoneCounted(Without(s.zcopy, i));
      NoneCounted(s.staged);
    }
  }

  lemma DoneWhole(s: Path, e: Event)
    requires Whole(s) && Smooth(e) && (e.StagedDone? || e.ZcopyDone?)
    ensures Whole(Step(s, e))
  {
    hide Whole;
    hide CompleteStaged;
    hide CompleteZcopy;
    if e.StagedDone? {
      StagedWhole(s, e.i);
    } else {
      ZcopyWhole(s, e.i);
    }
  }

  lemma PostWhole(s: Path)
    requires Whole(s)
    ensures Whole(Posted(s))
  {
    hide Chain;
    hide Weigh;
    hide After;
    if s.hand.Some? {
      var p := s.hand.value.pkt;
      WeighOne(s.staged, p, CountOne);
      WeighOne(s.zcopy, p, CountOne);
      WeighOne(s.staged, p, EndOne);
      WeighOne(s.zcopy, p, EndOne);
      ChainJoin(CALM, s.wire, [p]);
      ChainOne(OnWire(s), p);
    }
  }

  lemma StepWhole(s: Path, e: Event)
    requires Whole(s) && Smooth(e)
    ensures Whole(Step(s, e))
  {
    hide Chain;
    hide Weigh;
    hide After;
    hide Pop;
    hide Posted;
    hide CompleteStaged;
    hide CompleteZcopy;
    hide EnqueueList;
    hide SumOf;
    if e.SendControl? || e.SendData? || e.SendBatch? || e.SendStream? {
      SendWhole(s, e);
    } else if e.StagedDone? || e.ZcopyDone? {
      DoneWhole(s, e);
    } else if e.PostOk? {
      PostWhole(s);
    } else if e.TakeNext? && s.scheduling && s.hand.None? && Choose(s).Some? {
      PopWhole(s, Choose(s).value);
    }
  }

  /** In every run without cancellation and without failed posts, the wire carries whole streams: no other
      packet between a stream's header and the end of its payload. A stream is active no longer than some of
      it is still to be handed out or has not completed. */
  lemma {:induction false} StreamsStayWhole(frameCount: nat, inflightLimit: nat, queueLimit: nat, creditMax: nat,
                                           events: seq<Event>)
    requires forall k :: 0 <= k < |events| ==> Smooth(events[k])
    ensures var s := Run(Start(frameCount, inflightLimit, queueLimit, creditMax), events);
            && Whole(s) && OnWire(s).ok
            && (s.raw.active ==> OnWire(s).cur.Some? || s.hand.Some? || s.staged != [] || s.zcopy != [])
  {
    hide Step;
    hide Smooth;
    var start := Start(frameCount, inflightLimit, queueLimit, creditMax);
    if events != [] {
      var prefix := events[..|events| - 1];
      StreamsStayWhole(frameCount, inflightLimit, queueLimit, creditMax, prefix);
      StepWhole(Run(start, prefix), events[|events| - 1]);
    }
    var s := Run(start, events);
    ChainBroken(WithHand(s), s.dataQ);
    NothingCounted(s);
  }

  lemma NothingCounted(s: Path)
    ensures s.staged == [] && s.zcopy == [] && s.hand.None? ==> CountedIn(s) == 0
  {
  }
}
