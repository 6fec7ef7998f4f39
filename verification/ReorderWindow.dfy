/** What the receiver keeps for arbitrary frames: reorder entries have distinct numbers inside the
    window that starts at the expected one, and the counts and byte totals are exact. */
module ReorderWindow {
  import opened Prelude
  import opened NativeData
  import opened Psn
  import opened AckHistory
  import opened RecvWqe
  import opened NativeRx
  import opened RecvParts

  function FragBytes(frags: seq<Frag>): nat {
    if frags == [] then 0 else FragBytes(frags[..|frags| - 1]) + |frags[|frags| - 1].data|
  }

  function SumBytes(reorder: seq<Waiting>): nat {
    if reorder == [] then 0 else SumBytes(reorder[..|reorder| - 1]) + reorder[|reorder| - 1].body.bytes
  }

  ghost predicate BodySane(b: Body) {
    && b.bytes == FragBytes(b.frags)
    && b.seen <= Below(b.fragCount) && b.fragsReceived == |b.seen|
    && (b.complete <==> b.fragsReceived == b.fragCount)
  }

  /** While a message is active no entry has the expected number. */
  ghost predicate InWindow(e: Waiting, expected: int, active: bool) {
    expected <= e.n < expected + WINDOW && (active ==> e.n != expected) && BodySane(e.body)
  }

  ghost predicate Distinct(reorder: seq<Waiting>) {
    forall i, j :: 0 <= i < j < |reorder| ==> reorder[i].n != reorder[j].n
  }

  ghost predicate Windowed(reorder: seq<Waiting>, expected: int, active: bool) {
    && Distinct(reorder) && |reorder| <= WINDOW
    && forall i :: 0 <= i < |reorder| ==> InWindow(reorder[i], expected, active)
  }

  ghost predicate ActiveSane(a: Active) {
    a.seen <= Below(a.fragCount) && a.fragsReceived == |a.seen| && |a.seen| < a.fragCount
  }

  ghost predicate Sane(reorder: seq<Waiting>, bytes: nat, expected: int, active: Option<Active>, striping: bool) {
    && Windowed(reorder, expected, active.Some?)
    && bytes == SumBytes(reorder) <= MAX_REORDER_BYTES
    && (active.Some? && striping ==> ActiveSane(active.value))
  }

  ghost predicate Structure(rx: Rx) {
    Sane(rx.reorder, rx.bytes, Expected(rx), rx.active, rx.striping)
  }

  // ---------------------------------------------------------------- lists

  lemma {:induction false} SumJoin(a: seq<Waiting>, b: seq<Waiting>)
    ensures SumBytes(a + b) == SumBytes(a) + SumBytes(b)
  {
    if b == [] {
      assert a + b == a;
    } else {
      assert (a + b)[..|a + b| - 1] == a + b[..|b| - 1];
      SumJoin(a, b[..|b| - 1]);
    }
  }

  lemma SumInsert(a: seq<Waiting>, e: Waiting, b: seq<Waiting>)
    ensures SumBytes(a + [e] + b) == SumBytes(a + b) + e.body.bytes
  {
    SumJoin(a, b);
    SumJoin(a, [e]);
    SumJoin(a + [e], b);
    SumOne(e);
  }

  lemma SumSplit(reorder: seq<Waiting>, i: nat)
    requires i < |reorder|
    ensures SumBytes(reorder) == SumBytes(reorder[..i] + reorder[i + 1..]) + reorder[i].body.bytes
  {
    hide SumBytes;
    SumInsert(reorder[..i], reorder[i], reorder[i + 1..]);
    assert reorder[..i] + [reorder[i]] + reorder[i + 1..] == reorder;
  }

  lemma SumOne(e: Waiting)
    ensures SumBytes([e]) == e.body.bytes
  {
    assert [e][..0] == [];
  }

  lemma SumUpdate(reorder: seq<Waiting>, i: nat, e: Waiting)
    requires i < |reorder|
    ensures SumBytes(reorder[i := e]) == SumBytes(reorder) - reorder[i].body.bytes + e.body.bytes
  {
    SumSplit(reorder, i);
    SumSplit(reorder[i := e], i);
    assert reorder[i := e][..i] + reorder[i := e][i + 1..] == reorder[..i] + reorder[i + 1..];
  }

  /** Distinct numbers inside the window, none of them n, leave room for n: the list is never full
      when a new entry is wanted. */
  lemma NeverFull(reorder: seq<Waiting>, expected: int, active: bool, n: int)
    requires Windowed(reorder, expected, active) && expected <= n < expected + WINDOW
    requires Find(reorder, n) == |reorder|
    ensures |reorder| < WINDOW
  {
    var used := Offsets(reorder, expected);
    OffsetsSize(reorder, expected);
    AllSeen(used, WINDOW);
    assert n - expected !in used;
    assert n - expected in Below(WINDOW);
  }

  ghost function Offsets(reorder: seq<Waiting>, expected: int): set<nat>
    requires forall i :: 0 <= i < |reorder| ==> expected <= reorder[i].n
  {
    set i | 0 <= i < |reorder| :: reorder[i].n - expected
  }

  lemma {:induction false} OffsetsSize(reorder: seq<Waiting>, expected: int)
    requires Distinct(reorder) && forall i :: 0 <= i < |reorder| ==> expected <= reorder[i].n
    ensures |Offsets(reorder, expected)| == |reorder|
  {
    if reorder != [] {
      var last := |reorder| - 1;
      OffsetsSize(reorder[..last], expected);
      assert Offsets(reorder, expected) == Offsets(reorder[..last], expected) + {reorder[last].n - expected};
    }
  }

  // ---------------------------------------------------------------- steps

  lemma UnlinkKeeps(rx: Rx, i: nat)
    requires Structure(rx) && i < |rx.reorder|
    ensures Structure(Unlink(rx, i))
    ensures forall j :: 0 <= j < |rx.reorder| - 1 ==> Unlink(rx, i).reorder[j].n != rx.reorder[i].n
  {
    SumSplit(rx.reorder, i);
  }

  /** Nothing has the expected number: the window may move past it. */
  lemma MoveOn(reorder: seq<Waiting>, expected: int)
    requires Windowed(reorder, expected, false) && forall i :: 0 <= i < |reorder| ==> reorder[i].n != expected
    ensures Windowed(reorder, expected + 1, false)
  {
    forall i | 0 <= i < |reorder| ensures InWindow(reorder[i], expected + 1, false) {
      assert InWindow(reorder[i], expected, false);
    }
  }

  lemma ConsumeKeeps(rx: Rx, wqe: Wqe, status: WcStatus, byteLen: nat, meta: Meta)
    requires Structure(rx) && rx.active.None?
    requires forall i :: 0 <= i < |rx.reorder| ==> rx.reorder[i].n != Expected(rx)
    ensures Structure(Consume(rx, wqe, status, byteLen, meta))
  {
    MoveOn(rx.reorder, Expected(rx));
  }

  lemma FinishKeeps(rx: Rx)
    requires Windowed(rx.reorder, Expected(rx), rx.active.Some?)
    requires rx.bytes == SumBytes(rx.reorder) <= MAX_REORDER_BYTES
    ensures Structure(Finish(rx))
  {
    if rx.active.Some? {
      var a := rx.active.value;
      var s := WithActive(rx, None);
      forall i | 0 <= i < |s.reorder|
        ensures InWindow(s.reorder[i], Expected(s), false) && s.reorder[i].n != Expected(s)
      {
        assert InWindow(rx.reorder[i], Expected(rx), true);
      }
      ConsumeKeeps(s, a.wqe, a.status, a.delivered, a.meta);
    }
  }

  lemma DeliverKeeps(rx: Rx, i: nat)
    requires Structure(rx) && rx.active.None? && i < |rx.reorder| && rx.reorder[i].n == Expected(rx)
    ensures Structure(Deliver(rx, i))
  {
    if rx.recvq != [] {
      var b := rx.reorder[i].body;
      var s := Pop(rx);
      UnlinkKeeps(s, i);
      var (v, delivered, ok) := CopyFrags(rx.recvq[0], b.frags);
      var status := if !ok then ProtErr else if b.meta.total > |rx.recvq[0].buf| then LenErr else Success;
      ConsumeKeeps(Unlink(s, i), v, status, delivered, b.meta);
    }
  }

  lemma {:induction false} DrainKeeps(rx: Rx)
    requires Structure(rx)
    ensures Structure(Drain(rx))
    decreases |rx.reorder|
  {
    var i := Find(rx.reorder, Expected(rx));
    if !(rx.active.Some? || i == |rx.reorder| || !rx.reorder[i].body.complete) {
      DeliverKeeps(rx, i);
      if rx.recvq != [] {
        DrainKeeps(Deliver(rx, i));
      }
    }
  }

  lemma GrownSane(b: Body, idx: nat, offset: nat, payload: seq<u8>)
    requires BodySane(b) && idx < b.fragCount && idx !in b.seen
    ensures BodySane(Grown(b, idx, offset, payload))
  {
    AllSeen(b.seen, b.fragCount);
    if payload != [] {
      var grown := b.frags + [Frag(offset, payload)];
      assert grown[..|grown| - 1] == b.frags;
    }
  }

  lemma ReplaceKeeps(rx: Rx, i: nat, b: Body, added: nat)
    requires Structure(rx) && i < |rx.reorder| && BodySane(b) && b.bytes == rx.reorder[i].body.bytes + added
    requires rx.bytes + added <= MAX_REORDER_BYTES
    ensures Structure(Replace(rx, i, b, added))
  {
    var e := rx.reorder[i];
    SumUpdate(rx.reorder, i, Waiting(e.n, b));
    assert InWindow(e, Expected(rx), rx.active.Some?);
  }

  lemma StoreKeeps(rx: Rx, i: nat, f: Fragment, idx: nat, alloc: bool)
    requires Structure(rx) && i < |rx.reorder|
    requires idx < rx.reorder[i].body.fragCount && idx !in rx.reorder[i].body.seen
    ensures Structure(Store(rx, i, f, idx, alloc))
  {
    if f.payload != [] && rx.bytes + |f.payload| > MAX_REORDER_BYTES {
      UnlinkKeeps(rx, i);
    } else if f.payload != [] && !alloc {
      UnlinkKeeps(Refuse(rx, f), i);
    } else {
      GrowKeeps(rx, i, idx, f.offset, f.payload);
      DrainKeeps(Replace(rx, i, Grown(rx.reorder[i].body, idx, f.offset, f.payload), |f.payload|));
    }
  }

  lemma GrowKeeps(rx: Rx, i: nat, idx: nat, offset: nat, payload: seq<u8>)
    requires Structure(rx) && i < |rx.reorder| && rx.bytes + |payload| <= MAX_REORDER_BYTES
    requires idx < rx.reorder[i].body.fragCount && idx !in rx.reorder[i].body.seen
    ensures Structure(Replace(rx, i, Grown(rx.reorder[i].body, idx, offset, payload), |payload|))
  {
    var e := rx.reorder[i];
    assert InWindow(e, Expected(rx), rx.active.Some?);
    GrownSane(e.body, idx, offset, payload);
    ReplaceKeeps(rx, i, Grown(e.body, idx, offset, payload), |payload|);
  }

  lemma AppendKeeps(rx: Rx, n: int, b: Body)
    requires Structure(rx) && Find(rx.reorder, n) == |rx.reorder| < WINDOW
    requires InWindow(Waiting(n, b), Expected(rx), rx.active.Some?) && b.bytes == 0
    ensures Structure(Append(rx, n, b))
  {
    SumJoin(rx.reorder, [Waiting(n, b)]);
    SumOne(Waiting(n, b));
  }

  /** A shape is an index below a count. */
  ghost predicate Shaped(f: Fragment) {
    f.shape.Some? ==> f.shape.value.0 < f.shape.value.1
  }

  lemma BufferKeeps(rx: Rx, f: Fragment, allocMsg: bool, allocFrag: bool)
    requires Structure(rx) && Shaped(f) && (rx.active.Some? ==> f.n != Expected(rx))
    ensures Structure(Buffer(rx, f, allocMsg, allocFrag))
  {
    hide Store;
    hide Drain;
    hide SumBytes;
    if f.n < Expected(rx) {
    } else if f.n >= Expected(rx) + WINDOW || f.shape.None? {
    } else if Find(rx.reorder, f.n) < |rx.reorder| {
      BufferFoundKeeps(rx, f, allocMsg, allocFrag);
    } else {
      var (idx, count) := f.shape.value;
      if |rx.reorder| < WINDOW && allocMsg {
        AppendKeeps(rx, f.n, EmptyBody(f.meta, count));
        StoreKeeps(Append(rx, f.n, EmptyBody(f.meta, count)), |rx.reorder|, f, idx, allocFrag);
      }
    }
  }

  lemma BufferFoundKeeps(rx: Rx, f: Fragment, allocMsg: bool, allocFrag: bool)
    requires Structure(rx) && Shaped(f) && Expected(rx) <= f.n < Expected(rx) + WINDOW && f.shape.Some?
    requires Find(rx.reorder, f.n) < |rx.reorder|
    ensures Structure(Buffer(rx, f, allocMsg, allocFrag))
  {
    hide Store;
    hide Drain;
    hide Unlink;
    var (idx, count) := f.shape.value;
    var i := Find(rx.reorder, f.n);
    var b := rx.reorder[i].body;
    if b.meta != f.meta || b.fragCount != count {
      UnlinkKeeps(rx, i);
    } else if idx !in b.seen {
      StoreKeeps(rx, i, f, idx, allocFrag);
    } else if !Matches(b.frags, f.offset, f.payload) {
      UnlinkKeeps(rx, i);
    } else if b.complete {
      DrainKeeps(rx);
    }
  }

  lemma AbsorbKeeps(rx: Rx, idx: nat, offset: nat, payload: seq<u8>)
    requires Structure(rx) && rx.active.Some? && rx.striping && idx < rx.active.value.fragCount
    ensures Structure(Absorb(rx, idx, offset, payload))
  {
    var b := Absorbed(rx.active.value, idx, offset, payload);
    AllSeen(b.seen, b.fragCount);
    var s := WithActive(rx, Some(b));
    if b.fragsReceived == b.fragCount {
      FinishKeeps(s);
      DrainKeeps(Finish(s));
    }
  }

  lemma FailKeeps(rx: Rx, status: WcStatus)
    requires Structure(rx)
    ensures Structure(Fail(rx, status))
  {
    if rx.active.Some? {
      FinishKeeps(WithActive(rx, Some(rx.active.value.(status := status))));
    }
  }

  /** Starting a message that no entry holds. */
  lemma ActivateKeeps(rx: Rx, meta: Meta, count: nat)
    requires Structure(rx) && rx.active.None? && rx.recvq != [] && count > 0
    requires Find(rx.reorder, Expected(rx)) == |rx.reorder|
    ensures Structure(Activate(rx, meta, count))
  {
    var s := Activate(rx, meta, count);
    forall i | 0 <= i < |s.reorder| ensures InWindow(s.reorder[i], Expected(s), true) {
      assert InWindow(rx.reorder[i], Expected(rx), false);
    }
  }

  lemma StripedKeeps(rx: Rx, f: Fragment, allocMsg: bool, allocFrag: bool)
    requires Structure(rx) && rx.striping && Shaped(f)
    ensures Structure(Striped(rx, f, allocMsg, allocFrag))
  {
    hide Buffer;
    hide Absorb;
    hide Fail;
    if f.shape.Some? && f.n >= Expected(rx) {
      var (idx, count) := f.shape.value;
      if f.n > Expected(rx) || (rx.active.None? && Find(rx.reorder, f.n) < |rx.reorder|) {
        BufferKeeps(rx, f, allocMsg, allocFrag);
      } else if rx.active.Some? {
        FailKeeps(rx, ProtErr);
        if rx.active.value.fragCount == count {
          AbsorbKeeps(rx, idx, f.offset, f.payload);
        }
      } else if rx.recvq != [] {
        ActivateKeeps(rx, f.meta, count);
        AbsorbKeeps(Activate(rx, f.meta, count), idx, f.offset, f.payload);
      }
    }
  }

  lemma TakeKeeps(rx: Rx, offset: nat, payload: seq<u8>, last: bool)
    requires Structure(rx) && rx.active.Some? && !rx.striping
    ensures Structure(Take(rx, offset, payload, last))
  {
    var s := WithActive(rx, Some(Copied(rx.active.value, offset, payload)));
    if last {
      FinishKeeps(s);
      DrainKeeps(Finish(s));
    }
  }

  lemma SequentialKeeps(rx: Rx, f: Fragment, allocMsg: bool, allocFrag: bool)
    requires Structure(rx) && !rx.striping && Shaped(f)
    ensures Structure(Sequential(rx, f, allocMsg, allocFrag))
  {
    if rx.active.Some? {
      ContinueKeeps(rx, f, allocMsg, allocFrag);
    } else if Find(rx.reorder, f.n) < |rx.reorder| || f.n != Expected(rx) || f.offset != 0 {
      BufferKeeps(rx, f, allocMsg, allocFrag);
    } else if rx.recvq != [] {
      ActivateSequentialKeeps(rx, f.meta);
      TakeKeeps(Activate(rx, f.meta, 0), 0, f.payload, f.last);
    }
  }

  lemma ActivateSequentialKeeps(rx: Rx, meta: Meta)
    requires Structure(rx) && !rx.striping && rx.active.None? && rx.recvq != []
    requires Find(rx.reorder, Expected(rx)) == |rx.reorder|
    ensures Structure(Activate(rx, meta, 0))
  {
    var s := Activate(rx, meta, 0);
    forall i | 0 <= i < |s.reorder| ensures InWindow(s.reorder[i], Expected(s), true) {
      assert InWindow(rx.reorder[i], Expected(rx), false);
    }
  }

  lemma ContinueKeeps(rx: Rx, f: Fragment, allocMsg: bool, allocFrag: bool)
    requires Structure(rx) && !rx.striping && rx.active.Some? && Shaped(f)
    ensures Structure(Continue(rx, f, allocMsg, allocFrag))
  {
    hide Buffer;
    hide Take;
    hide Fail;
    var a := rx.active.value;
    var same := a.meta == f.meta && f.n == Expected(rx);
    if same && a.received == f.offset {
      TakeKeeps(rx, f.offset, f.payload, f.last);
    } else if f.n < Expected(rx) {
    } else if f.n > Expected(rx) {
      BufferKeeps(rx, f, allocMsg, allocFrag);
    } else if same && f.offset < a.received {
      if a.received - f.offset < |f.payload| {
        TakeKeeps(rx, a.received, f.payload[a.received - f.offset..], f.last);
      }
    } else if !same {
      FailKeeps(rx, ProtErr);
    }
  }

  lemma HeadExpiresKeeps(rx: Rx)
    requires Structure(rx)
    ensures Structure(HeadExpires(rx))
  {
    var i := Find(rx.reorder, Expected(rx));
    if i < |rx.reorder| {
      assert InWindow(rx.reorder[i], Expected(rx), rx.active.Some?);
      UnlinkKeeps(rx, i);
      var s := Unlink(rx, i);
      MoveOn(s.reorder, Expected(s));
      DrainKeeps(s.(log := s.log + [AckError]));
    }
  }

  lemma RouteKeeps(rx: Rx, f: Fragment, allocMsg: bool, allocFrag: bool)
    requires Structure(rx) && Shaped(f)
    ensures Structure(Route(rx, f, allocMsg, allocFrag))
  {
    if rx.striping {
      StripedKeeps(rx, f, allocMsg, allocFrag);
    } else {
      SequentialKeeps(rx, f, allocMsg, allocFrag);
    }
  }

  lemma FrameKeeps(rx: Rx, f: Fragment, allocMsg: bool, allocFrag: bool)
    requires Structure(rx) && Shaped(f)
    ensures Structure(OnFragment(rx, f, allocMsg, allocFrag))
  {
    hide Route;
    RouteKeeps(rx, f, allocMsg, allocFrag);
    RouteKeeps(ClearRnr(rx), f, allocMsg, allocFrag);
  }

  lemma ReadShape(rx: Rx, h: Header, payload: seq<u8>)
    ensures Shaped(FragmentOf(rx, h, payload))
  {
  }

  lemma StepKeeps(rx: Rx, e: Event)
    requires Structure(rx)
    ensures Structure(Step(rx, e))
  {
    match e
    case Frame(h, payload, allocMsg, allocFrag) =>
      ReadShape(rx, h, payload);
      FrameKeeps(rx, FragmentOf(rx, h, payload), allocMsg, allocFrag);
    case ExpireActive => FailKeeps(rx, GeneralErr);
    case ExpireHead => HeadExpiresKeeps(rx);
    case _ =>
  }

  /** Over every run, whatever frames arrive. */
  lemma {:induction false} RunKeeps(striping: bool, first: int, room: nat, events: seq<Event>)
    ensures Structure(Run(NativeRx.Start(striping, first, room), events))
  {
    if events != [] {
      RunKeeps(striping, first, room, events[..|events| - 1]);
      StepKeeps(Run(NativeRx.Start(striping, first, room), events[..|events| - 1]), events[|events| - 1]);
    }
  }
}
