/** Progress of the receiver of NativeRx when fragments are expected in order: exactly which arrivals of the
    fragments of the expected message consume it. */
module NativeRxInOrder {
  import opened Prelude
  import opened Cut
  import opened NativeData
  import opened Psn
  import opened AckHistory
  import opened RecvWqe
  import opened NativeRx
  import opened RecvParts
  import opened ReorderWindow
  import opened NativeRxSafety
  import opened NativeRxProgress
  import Fragments

  // ---------------------------------------------------------------- held fragments

  /** The held fragments of a message take the bytes of those seen. */
  lemma {:induction false} StoredBytes(frags: seq<Frag>, data: seq<u8>, seen: set<nat>)
    requires Stored(frags, data, seen)
    ensures FragBytes(frags) == SeenLen(|data|, MAX_PAYLOAD, seen, Count(data))
    decreases |frags|
  {
    if frags == [] {
      if data == [] {
        SeenEmpty(seen, Count(data));
      } else {
        SeenLenBound(|data|, MAX_PAYLOAD, seen, Count(data));
      }
    } else {
      var i := frags[|frags| - 1].offset / MAX_PAYLOAD;
      StoredBytes(frags[..|frags| - 1], data, seen - {i});
      SeenLenAdd(|data|, MAX_PAYLOAD, seen - {i}, i, Count(data));
      assert seen - {i} + {i} == seen;
    }
  }

  /** One more fragment keeps within the length of the message. */
  lemma RoomForMore(frags: seq<Frag>, data: seq<u8>, seen: set<nat>, i: nat)
    requires Stored(frags, data, seen) && i !in seen && i < Count(data)
    ensures FragBytes(frags) + |Fragments.Chunk(data, i)| <= |data|
  {
    StoredBytes(frags, data, seen);
    SeenLenAdd(|data|, MAX_PAYLOAD, seen, i, Count(data));
    SeenLenBound(|data|, MAX_PAYLOAD, seen + {i}, Count(data));
    PassTiles(|data|, MAX_PAYLOAD, Count(data));
  }

  /** Each held fragment is where its offset says, and every seen one with bytes is held. */
  lemma {:induction false} StoredHeld(frags: seq<Frag>, data: seq<u8>, seen: set<nat>)
    requires Stored(frags, data, seen)
    ensures forall k :: 0 <= k < |frags| ==>
              var i := frags[k].offset / MAX_PAYLOAD;
              i < Count(data) && frags[k].offset == i * MAX_PAYLOAD && frags[k].data == Fragments.Chunk(data, i)
    ensures data != [] ==> forall i :: i in seen ==> exists k :: 0 <= k < |frags| && frags[k].offset == i * MAX_PAYLOAD
    decreases |frags|
  {
    if frags != [] {
      var last := |frags| - 1;
      var rest, i := frags[..last], frags[last].offset / MAX_PAYLOAD;
      StoredHeld(rest, data, seen - {i});
      if data != [] {
        forall j | j in seen ensures exists k :: 0 <= k < |frags| && frags[k].offset == j * MAX_PAYLOAD {
          if j == i {
            assert frags[last].offset == j * MAX_PAYLOAD;
          } else {
            assert j in seen - {i};
            var k :| 0 <= k < |rest| && rest[k].offset == j * MAX_PAYLOAD;
            assert frags[k].offset == j * MAX_PAYLOAD;
          }
        }
      }
    }
  }

  lemma {:induction false} FirstMatches(frags: seq<Frag>, offset: nat, payload: seq<u8>)
    requires forall k :: 0 <= k < |frags| && frags[k].offset == offset ==> frags[k].data == payload
    requires exists k :: 0 <= k < |frags| && frags[k].offset == offset
    ensures Matches(frags, offset, payload)
    decreases |frags|
  {
    if frags[0].offset != offset {
      var k :| 0 <= k < |frags| && frags[k].offset == offset;
      assert frags[1..][k - 1] == frags[k];
      FirstMatches(frags[1..], offset, payload);
    }
  }

  /** A genuine duplicate is recognised as one. */
  lemma DuplicateMatches(frags: seq<Frag>, data: seq<u8>, seen: set<nat>, i: nat)
    requires Stored(frags, data, seen) && i in seen && i < Count(data)
    ensures Matches(frags, i * MAX_PAYLOAD, Fragments.Chunk(data, i))
  {
    if data == [] {
      FragFits(0, MAX_PAYLOAD, i);
      assert Fragments.Chunk(data, i) == [];
    } else {
      StoredHeld(frags, data, seen);
      MulDiv(i, MAX_PAYLOAD);
      FirstMatches(frags, i * MAX_PAYLOAD, Fragments.Chunk(data, i));
    }
  }

  /** Held fragments of a message that fits are all copied. */
  lemma {:induction false} CopyFragsWorks(w: Wqe, frags: seq<Frag>, data: seq<u8>, seen: set<nat>)
    requires Stored(frags, data, seen) && Suffices(w, data)
    ensures var (v, delivered, ok) := CopyFrags(w, frags); ok && Suffices(v, data)
    decreases |frags|
  {
    if frags != [] {
      var rest, f := frags[..|frags| - 1], frags[|frags| - 1];
      var i := f.offset / MAX_PAYLOAD;
      CopyFragsWorks(w, rest, data, seen - {i});
      CopyWorks(CopyFrags(w, rest).0, data, i);
    }
  }

  // ---------------------------------------------------------------- the states of the message

  /** Message n is expected and nothing stands in its way. */
  ghost predicate Awaited(rx: Rx, n: int) {
    Structure(rx) && !rx.striping && Expected(rx) == n && rx.rnr.None? && !rx.overflowed && rx.room > 0
  }

  ghost predicate Posted(rx: Rx, m: Msg) {
    rx.active.None? && rx.recvq != [] && Suffices(rx.recvq[0], m.data)
  }

  /** No fragment of it has come in; the reorder memory could hold all of it. */
  ghost predicate Untouched(rx: Rx, m: Msg, n: int) {
    Awaited(rx, n) && Posted(rx, m) && Find(rx.reorder, n) == |rx.reorder| && rx.bytes + |m.data| <= MAX_REORDER_BYTES
  }

  /** Its first j fragments have been copied into the receive. */
  ghost predicate Receiving(rx: Rx, m: Msg, qp: u32, n: int, j: nat) {
    && Awaited(rx, n) && 0 < j < Count(m.data) && rx.active.Some?
    && var a := rx.active.value;
       a.meta == MsgMeta(m, qp) && a.status == WcStatus.Success && a.received == j * MAX_PAYLOAD
         && Suffices(a.wqe, m.data)
  }

  /** Its fragments `got` are held in the reorder list. */
  ghost predicate Collecting(rx: Rx, m: Msg, qp: u32, n: int, got: set<nat>) {
    && Awaited(rx, n) && Posted(rx, m) && Find(rx.reorder, n) < |rx.reorder|
    && var b := rx.reorder[Find(rx.reorder, n)].body;
       BodyTrue(b, m, qp) && b.seen == got && !b.complete && rx.bytes - b.bytes + |m.data| <= MAX_REORDER_BYTES
  }

  // ---------------------------------------------------------------- in order

  /** The next fragment of an active message. */
  lemma TakeAdvances(rx: Rx, m: Msg, qp: u32, n: int, j: nat)
    requires Awaited(rx, n) && j < Count(m.data) && rx.active.Some?
    requires var a := rx.active.value;
             a.meta == MsgMeta(m, qp) && a.status == WcStatus.Success && a.received == j * MAX_PAYLOAD
             && Suffices(a.wqe, m.data)
    ensures var s := Take(rx, j * MAX_PAYLOAD, Fragments.Chunk(m.data, j), j == Count(m.data) - 1);
            if j + 1 == Count(m.data) then Consumed(s, n) else Receiving(s, m, qp, n, j + 1)
  {
    var payload, last := Fragments.Chunk(m.data, j), j == Count(m.data) - 1;
    hide Drain;
    hide Count;
    hide Fragments.Chunk;
    CopyWorks(rx.active.value.wqe, m.data, j);
    TakeKeeps(rx, j * MAX_PAYLOAD, payload, last);
    var s := WithActive(rx, Some(Copied(rx.active.value, j * MAX_PAYLOAD, payload)));
    if last {
      assert Consumed(Finish(s), n);
      DrainGrows(Finish(s));
    } else {
      ChunkFull(m.data, j);
    }
  }

  lemma ChunkFull(data: seq<u8>, j: nat)
    requires j + 1 < Count(data)
    ensures j * MAX_PAYLOAD + |Fragments.Chunk(data, j)| == (j + 1) * MAX_PAYLOAD
  {
    FragFits(|data|, MAX_PAYLOAD, j);
    MulSucc(j, MAX_PAYLOAD);
  }

  lemma ContinueAdvances(rx: Rx, f: Fragment, m: Msg, qp: u32, n: int, j: nat, i: nat, allocMsg: bool, allocFrag: bool)
    requires Receiving(rx, m, qp, n, j) && FragTrue(f, m, qp, i) && f.n == n
    ensures var s := OnFragment(rx, f, allocMsg, allocFrag);
            if i != j then s == rx
            else if j + 1 == Count(m.data) then Consumed(s, n)
            else Receiving(s, m, qp, n, j + 1)
  {
    hide Take;
    hide Structure;
    hide Fragments.Chunk;
    hide Count;
    MulDiv(i, MAX_PAYLOAD);
    MulDiv(j, MAX_PAYLOAD);
    if i == j {
      TakeAdvances(rx, m, qp, n, j);
    } else if i < j {
      MulMono(i + 1, j, MAX_PAYLOAD);
      MulSucc(i, MAX_PAYLOAD);
      NoOverlap(f, m, qp, i, j * MAX_PAYLOAD);
    } else {
      MulMono(j + 1, i, MAX_PAYLOAD);
      MulSucc(j, MAX_PAYLOAD);
    }
  }

  // ---------------------------------------------------------------- through the reorder list

  /** The entry of the expected message is complete: it is delivered with success. */
  lemma DrainConsumes(rx: Rx, m: Msg, qp: u32, n: int)
    requires Awaited(rx, n) && Posted(rx, m) && Find(rx.reorder, n) < |rx.reorder|
    requires var b := rx.reorder[Find(rx.reorder, n)].body; BodyTrue(b, m, qp) && b.complete
    ensures Consumed(Drain(rx), n)
  {
    hide Structure;
    hide CopyFrags;
    hide Stored;
    hide Count;
    var i := Find(rx.reorder, n);
    var b := rx.reorder[i].body;
    CopyFragsWorks(rx.recvq[0], b.frags, m.data, b.seen);
    var s := Deliver(rx, i);
    assert Consumed(s, n);
    DrainGrows(s);
    assert Drain(rx) == Drain(s);
  }

  /** A new fragment in the entry at place k. */
  lemma StoreAdvances(rx: Rx, f: Fragment, m: Msg, qp: u32, n: int, k: nat, i: nat)
    requires Awaited(rx, n) && Posted(rx, m) && k < |rx.reorder| && k == Find(rx.reorder, n)
    requires var b := rx.reorder[k].body;
             BodyTrue(b, m, qp) && !b.complete && i !in b.seen && rx.bytes - b.bytes + |m.data| <= MAX_REORDER_BYTES
    requires FragTrue(f, m, qp, i)
    ensures var got := rx.reorder[k].body.seen + {i};
            var s := Store(rx, k, f, i, true);
            if got == Below(Count(m.data)) then Consumed(s, n) else Collecting(s, m, qp, n, got)
  {
    hide Drain;
    hide SumBytes;
    hide Stored;
    hide FragBytes;
    hide Count;
    hide Fragments.Chunk;
    var e := rx.reorder[k];
    assert InWindow(e, n, false);
    RoomForMore(e.body.frags, m.data, e.body.seen, i);
    GrownTrue(e.body, m, qp, i);
    GrowKeeps(rx, k, i, f.offset, f.payload);
    var b := Grown(e.body, i, f.offset, f.payload);
    var s := Replace(rx, k, b, |f.payload|);
    FindReplaced(rx.reorder, n, Waiting(e.n, b));
    AllSeen(b.seen, Count(m.data));
    BelowSize(Count(m.data));
    if b.complete {
      DrainConsumes(s, m, qp, n);
    }
  }

  lemma {:induction false} FindReplaced(reorder: seq<Waiting>, n: int, e: Waiting)
    requires Find(reorder, n) < |reorder| && e.n == n
    ensures Find(reorder[Find(reorder, n) := e], n) == Find(reorder, n)
  {
    var k := Find(reorder, n);
    FindIs(reorder[k := e], n, k);
  }

  lemma {:induction false} FindIs(reorder: seq<Waiting>, n: int, k: nat)
    requires k < |reorder| && reorder[k].n == n && forall j :: 0 <= j < k ==> reorder[j].n != n
    ensures Find(reorder, n) == k
  {
  }

  /** A fragment of a message that is collected in the reorder list. */
  lemma CollectAdvances(rx: Rx, f: Fragment, m: Msg, qp: u32, n: int, got: set<nat>, i: nat, allocMsg: bool)
    requires Collecting(rx, m, qp, n, got) && FragTrue(f, m, qp, i) && f.n == n
    ensures var s := OnFragment(rx, f, allocMsg, true);
            if got + {i} == Below(Count(m.data)) && i !in got then Consumed(s, n)
            else Collecting(s, m, qp, n, got + {i})
  {
    hide Store;
    hide Drain;
    hide Structure;
    hide Stored;
    hide Count;
    hide Fragments.Chunk;
    var k := Find(rx.reorder, n);
    var b := rx.reorder[k].body;
    if i in got {
      assert got + {i} == got;
      DuplicateMatches(b.frags, m.data, b.seen, i);
    } else {
      StoreAdvances(rx, f, m, qp, n, k, i);
    }
  }

  lemma EntryOpens(rx: Rx, m: Msg, n: int, b: Body)
    requires Untouched(rx, m, n) && b == EmptyBody(b.meta, b.fragCount) && b.fragCount > 0
    ensures var s, k := Append(rx, n, b), |rx.reorder|;
            k < WINDOW && Awaited(s, n) && Posted(s, m) && Find(s.reorder, n) == k
  {
    hide SumBytes;
    NeverFull(rx.reorder, n, false, n);
    AppendKeeps(rx, n, b);
    hide Distinct;
    FindIs(Append(rx, n, b).reorder, n, |rx.reorder|);
  }

  /** The first fragment to arrive is not the first of the message. */
  lemma CollectStarts(rx: Rx, f: Fragment, m: Msg, qp: u32, n: int, i: nat)
    requires Untouched(rx, m, n) && FragTrue(f, m, qp, i) && f.n == n && i > 0
    ensures Collecting(OnFragment(rx, f, true, true), m, qp, n, {i})
  {
    hide Store;
    hide Drain;
    hide SumBytes;
    hide Count;
    hide Fragments.Chunk;
    var b := EmptyBody(f.meta, Count(m.data));
    var s, k := Append(rx, n, b), |rx.reorder|;
    EntryOpens(rx, m, n, b);
    hide Structure;
    MulMono(1, i, MAX_PAYLOAD);
    StoreAdvances(s, f, m, qp, n, k, i);
    assert {} + {i} == {i};
    assert 0 in Below(Count(m.data));
  }

  lemma FirstAdvances(rx: Rx, f: Fragment, m: Msg, qp: u32, n: int)
    requires Untouched(rx, m, n) && FragTrue(f, m, qp, 0) && f.n == n
    ensures var s := OnFragment(rx, f, true, true);
            if Count(m.data) == 1 then Consumed(s, n) else Receiving(s, m, qp, n, 1)
  {
    hide Take;
    hide Structure;
    hide Count;
    hide Fragments.Chunk;
    ActivateSequentialKeeps(rx, f.meta);
    TakeAdvances(Activate(rx, f.meta, 0), m, qp, n, 0);
  }

  // ---------------------------------------------------------------- all arrivals

  lemma TakeGrows(rx: Rx, offset: nat, payload: seq<u8>, last: bool)
    requires rx.active.Some?
    ensures Grows(rx, Take(rx, offset, payload, last))
  {
    hide Drain;
    DrainGrows(Finish(WithActive(rx, Some(Copied(rx.active.value, offset, payload)))));
  }

  lemma ArrivalGrows(rx: Rx, f: Fragment, allocMsg: bool, allocFrag: bool)
    requires !rx.striping
    ensures Grows(rx, Sequential(rx, f, allocMsg, allocFrag))
  {
    hide Take;
    hide Buffer;
    BufferGrows(rx, f, allocMsg, allocFrag);
    if rx.active.Some? {
      TakeGrows(rx, f.offset, f.payload, f.last);
      var duplicate := rx.active.value.received - f.offset;
      if 0 <= duplicate < |f.payload| {
        TakeGrows(rx, rx.active.value.received, f.payload[duplicate..], f.last);
      }
    } else if rx.recvq != [] {
      TakeGrows(Activate(rx, f.meta, 0), 0, f.payload, f.last);
    }
  }

  lemma FragmentGrowsInOrder(rx: Rx, f: Fragment, allocMsg: bool, allocFrag: bool)
    requires !rx.striping
    ensures Grows(rx, OnFragment(rx, f, allocMsg, allocFrag))
  {
    hide Sequential;
    ArrivalGrows(rx, f, allocMsg, allocFrag);
    ArrivalGrows(ClearRnr(rx), f, allocMsg, allocFrag);
  }

  /** How many fragments 0, 1, 2, ... have come in this order, whatever came between them. */
  function InTurn(idx: seq<nat>): nat {
    if idx == [] then 0
    else
      var k := InTurn(idx[..|idx| - 1]);
      if idx[|idx| - 1] == k then k + 1 else k
  }

  lemma {:induction false} InTurnSeen(idx: seq<nat>, count: nat)
    requires forall j :: 0 <= j < |idx| ==> idx[j] < count
    ensures InTurn(idx) <= count && Below(InTurn(idx)) <= SeenIn(idx)
    ensures idx != [] && idx[0] == 0 ==> InTurn(idx) > 0
  {
    if idx != [] {
      InTurnSeen(idx[..|idx| - 1], count);
    }
  }

  /** These arrivals consume a message of `count` fragments: if fragment 0 came first, the others must have
      come in turn; otherwise all must have come. */
  predicate Suffice(idx: seq<nat>, count: nat) {
    idx != [] && if idx[0] == 0 then InTurn(idx) == count else SeenIn(idx) == Below(count)
  }

  /** Where the message stands after the arrivals idx. */
  ghost predicate Stands(rx: Rx, m: Msg, qp: u32, n: int, idx: seq<nat>) {
    && !rx.striping
    && if idx == [] then Untouched(rx, m, n)
       else if Suffice(idx, Count(m.data)) then Consumed(rx, n)
       else if idx[0] == 0 then Receiving(rx, m, qp, n, InTurn(idx))
       else Collecting(rx, m, qp, n, SeenIn(idx))
  }

  lemma ArrivalAdvances(rx: Rx, f: Fragment, m: Msg, qp: u32, n: int, idx: seq<nat>, i: nat)
    requires Stands(rx, m, qp, n, idx) && FragTrue(f, m, qp, i) && f.n == n
    requires forall j :: 0 <= j < |idx| ==> idx[j] < Count(m.data)
    ensures Stands(OnFragment(rx, f, true, true), m, qp, n, idx + [i])
  {
    hide OnFragment;
    hide Untouched;
    hide Receiving;
    hide Collecting;
    hide FragTrue;
    hide Count;
    var s, more := OnFragment(rx, f, true, true), idx + [i];
    assert more[..|idx|] == idx;
    FragmentGrowsInOrder(rx, f, true, true);
    IsIndex(f, m, qp, i);
    InTurnSeen(idx, Count(m.data));
    SeenInside(idx, Count(m.data));
    if idx == [] {
      if i == 0 {
        FirstAdvances(rx, f, m, qp, n);
        assert InTurn(more) == 1;
      } else {
        CollectStarts(rx, f, m, qp, n, i);
        assert SeenIn(more) == {i} && 0 in Below(Count(m.data));
      }
    } else if Suffice(idx, Count(m.data)) {
      assert Consumed(s, n);
      assert SeenIn(more) == SeenIn(idx) + {i};
    } else if idx[0] == 0 {
      ContinueAdvances(rx, f, m, qp, n, InTurn(idx), i, true, true);
    } else {
      CollectAdvances(rx, f, m, qp, n, SeenIn(idx), i, true);
      assert SeenIn(more) == SeenIn(idx) + {i};
      assert i in SeenIn(idx) ==> SeenIn(more) == SeenIn(idx);
    }
  }

  lemma IsIndex(f: Fragment, m: Msg, qp: u32, i: nat)
    requires FragTrue(f, m, qp, i)
    ensures i < Count(m.data)
  {
  }

  /** The reorder list finds the memory it asks for. */
  ghost predicate Allocates(events: seq<Event>) {
    forall k :: 0 <= k < |events| ==> events[k].Frame? && events[k].allocMsg && events[k].allocFrag
  }

  lemma {:induction false} ArrivalsAdvance(rx: Rx, events: seq<Event>, idx: seq<nat>, m: Msg, qp: u32, n: int)
    requires Untouched(rx, m, n) && FramesOf(rx, events, idx, m, qp, n) && Allocates(events)
    ensures Stands(Run(rx, events), m, qp, n, idx)
  {
    hide Step;
    hide Stands;
    hide Untouched;
    hide FramesOf;
    hide Allocates;
    hide InCut;
    hide IsPart;
    hide NativeRxSafety.SameMessage;
    if events == [] {
      NoFrames(rx, idx, m, qp, n);
      StartStands(rx, m, qp, n);
    } else {
      var k := |events| - 1;
      var prefix := events[..k];
      FramesSplit(rx, events, idx, m, qp, n);
      IndexesBelow(rx, prefix, idx[..k], m, qp, n);
      ArrivalsAdvance(rx, prefix, idx[..k], m, qp, n);
      StepAdvances(Run(rx, prefix), events[k], idx[..k], m, qp, n, idx[k]);
      assert idx[..k] + [idx[k]] == idx;
    }
  }

  lemma NoFrames(rx: Rx, idx: seq<nat>, m: Msg, qp: u32, n: int)
    requires FramesOf(rx, [], idx, m, qp, n)
    ensures idx == []
  {
  }

  /** Indexes of fragments of a message. */
  ghost predicate InCut(idx: seq<nat>, data: seq<u8>) {
    forall j :: 0 <= j < |idx| ==> idx[j] < Count(data)
  }

  lemma IndexesBelow(rx: Rx, events: seq<Event>, idx: seq<nat>, m: Msg, qp: u32, n: int)
    requires FramesOf(rx, events, idx, m, qp, n)
    ensures InCut(idx, m.data)
  {
    hide Run;
    forall j | 0 <= j < |idx| ensures idx[j] < Count(m.data) {
      assert IsPart(m.data, idx[j], events[j].header, events[j].payload);
    }
  }

  lemma FramesSplit(rx: Rx, events: seq<Event>, idx: seq<nat>, m: Msg, qp: u32, n: int)
    requires FramesOf(rx, events, idx, m, qp, n) && events != [] && Allocates(events)
    ensures var k := |events| - 1;
            && Allocates(events[..k]) && events[k].Frame? && events[k].allocMsg && events[k].allocFrag
            && |idx| == k + 1 && FramesOf(rx, events[..k], idx[..k], m, qp, n)
            && events[k].header.psn == PsnOf(n) && SameMessage(m, qp, events[k].header)
            && IsPart(m.data, idx[k], events[k].header, events[k].payload)
            && -HALF <= n - Expected(Run(rx, events[..k])) < HALF
  {
    hide Run;
    var k := |events| - 1;
    assert forall j :: 0 <= j < k ==> events[..j] == events[..k][..j];
  }

  lemma StartStands(rx: Rx, m: Msg, qp: u32, n: int)
    requires Untouched(rx, m, n)
    ensures Stands(rx, m, qp, n, [])
  {
  }

  lemma StepAdvances(rx: Rx, e: Event, idx: seq<nat>, m: Msg, qp: u32, n: int, i: nat)
    requires Stands(rx, m, qp, n, idx) && InCut(idx, m.data)
    requires e.Frame? && e.allocMsg && e.allocFrag && e.header.psn == PsnOf(n) && -HALF <= n - Expected(rx) < HALF
    requires SameMessage(m, qp, e.header) && IsPart(m.data, i, e.header, e.payload)
    ensures Stands(Step(rx, e), m, qp, n, idx + [i])
  {
    hide OnFragment;
    hide Stands;
    hide FragmentOf;
    hide FragTrue;
    ReadTrue(rx, m, qp, n, e.header, e.payload, i);
    ArrivalAdvances(rx, FragmentOf(rx, e.header, e.payload), m, qp, n, idx, i);
  }

  /** With fragments expected in order: an awaited message, for which a receive that can take it is posted
      and the reorder memory has room, is consumed with success by the arrivals idx of its fragments, in any
      order and with any repetition, exactly when fragment 0 came first and the others in turn, or another
      came first and all came. */
  lemma ConsumedExactly(rx: Rx, events: seq<Event>, idx: seq<nat>, m: Msg, qp: u32, n: int)
    requires Untouched(rx, m, n) && FramesOf(rx, events, idx, m, qp, n) && Allocates(events)
    ensures Consumed(Run(rx, events), n) <==> Suffice(idx, Count(m.data))
  {
    hide Run;
    hide Structure;
    hide Count;
    ArrivalsAdvance(rx, events, idx, m, qp, n);
  }

  /** So a sender that sends every fragment in turn is always served, whatever else comes in between. */
  lemma InTurnConsumes(rx: Rx, events: seq<Event>, idx: seq<nat>, m: Msg, qp: u32, n: int)
    requires Untouched(rx, m, n) && FramesOf(rx, events, idx, m, qp, n) && Allocates(events)
    requires InTurn(idx) == Count(m.data)
    ensures Consumed(Run(rx, events), n)
  {
    hide Run;
    hide Untouched;
    ArrivalsAdvance(rx, events, idx, m, qp, n);
    IndexesBelow(rx, events, idx, m, qp, n);
    InTurnSeen(idx, Count(m.data));
    SeenInside(idx, Count(m.data));
    assert idx != [];
    assert SeenIn(idx) == Below(Count(m.data));
    ConsumedExactly(rx, events, idx, m, qp, n);
  }
}
