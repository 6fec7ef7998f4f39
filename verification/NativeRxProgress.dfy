/** Progress of the receiver of NativeRx with fragments striped over rails: the expected message is consumed
    with success exactly when all of its fragments have come in. */
module NativeRxProgress {
  import opened Prelude
  import opened Cut
  import opened NativeData
  import opened Psn
  import opened AckHistory
  import opened RecvWqe
  import opened NativeRx
  import opened RecvParts
  import opened ReorderWindow
  import opened NativeRxSafety
  import Fragments

  /** The buffer can take the message, and all of it is mapped. */
  predicate Suffices(w: Wqe, data: seq<u8>) {
    |data| <= |w.buf| && |data| <= w.reach
  }

  /** Message n is expected and the fragments `got` of it have come in. */
  ghost predicate Underway(rx: Rx, m: Msg, qp: u32, n: int, got: set<nat>) {
    && Structure(rx) && rx.striping && Expected(rx) == n && rx.rnr.None? && !rx.overflowed && rx.room > 0
    && (if got == {} then
          rx.active.None? && Find(rx.reorder, n) == |rx.reorder| && rx.recvq != [] && Suffices(rx.recvq[0], m.data)
        else rx.active.Some? && Partly(rx.active.value, m, qp, got))
  }

  ghost predicate Partly(a: Active, m: Msg, qp: u32, got: set<nat>) {
    && a.meta == MsgMeta(m, qp) && a.fragCount == Count(m.data) && a.seen == got && a.fragsReceived == |got|
    && a.status == Success && Suffices(a.wqe, m.data)
  }

  /** Message n has been consumed with success. */
  predicate Consumed(rx: Rx, n: int) {
    rx.first <= n < Expected(rx) && rx.log[n - rx.first] == AckOk
  }

  // ---------------------------------------------------------------- the log only grows

  ghost predicate Grows(rx: Rx, s: Rx) {
    s.first == rx.first && s.striping == rx.striping && rx.log <= s.log
  }

  lemma {:induction false} DrainGrows(rx: Rx)
    ensures Grows(rx, Drain(rx))
    decreases |rx.reorder|
  {
    hide CopyFrags;
    var i := Find(rx.reorder, Expected(rx));
    if !(rx.active.Some? || i == |rx.reorder| || !rx.reorder[i].body.complete) && rx.recvq != [] {
      DrainGrows(Deliver(rx, i));
    }
  }

  lemma StoreGrows(rx: Rx, i: nat, f: Fragment, idx: nat, alloc: bool)
    requires i < |rx.reorder|
    ensures Grows(rx, Store(rx, i, f, idx, alloc))
  {
    hide Drain;
    hide Grown;
    DrainGrows(Replace(rx, i, Grown(rx.reorder[i].body, idx, f.offset, f.payload), |f.payload|));
  }

  lemma BufferGrows(rx: Rx, f: Fragment, allocMsg: bool, allocFrag: bool)
    ensures Grows(rx, Buffer(rx, f, allocMsg, allocFrag))
  {
    hide Drain;
    hide Store;
    DrainGrows(rx);
    var i := Find(rx.reorder, f.n);
    if f.shape.Some? {
      var (idx, count) := f.shape.value;
      if i < |rx.reorder| {
        StoreGrows(rx, i, f, idx, allocFrag);
      } else {
        StoreGrows(Append(rx, f.n, EmptyBody(f.meta, count)), i, f, idx, allocFrag);
      }
    }
  }

  lemma StripedGrows(rx: Rx, f: Fragment, allocMsg: bool, allocFrag: bool)
    requires rx.striping
    ensures Grows(rx, Striped(rx, f, allocMsg, allocFrag))
  {
    hide Drain;
    hide Buffer;
    hide Copied;
    BufferGrows(rx, f, allocMsg, allocFrag);
    if f.shape.Some? {
      var (idx, count) := f.shape.value;
      if rx.active.Some? {
        AbsorbGrows(rx, idx, f.offset, f.payload);
      } else if rx.recvq != [] {
        AbsorbGrows(Activate(rx, f.meta, count), idx, f.offset, f.payload);
      }
    }
  }

  lemma AbsorbGrows(rx: Rx, idx: nat, offset: nat, payload: seq<u8>)
    requires rx.active.Some?
    ensures Grows(rx, Absorb(rx, idx, offset, payload))
  {
    hide Drain;
    hide Copied;
    DrainGrows(Finish(WithActive(rx, Some(Absorbed(rx.active.value, idx, offset, payload)))));
  }

  lemma FragmentGrows(rx: Rx, f: Fragment, allocMsg: bool, allocFrag: bool)
    requires rx.striping
    ensures Grows(rx, OnFragment(rx, f, allocMsg, allocFrag))
  {
    hide Striped;
    StripedGrows(rx, f, allocMsg, allocFrag);
    StripedGrows(ClearRnr(rx), f, allocMsg, allocFrag);
  }

  // ---------------------------------------------------------------- one fragment

  /** A fragment of a message that fits is always copied. */
  lemma CopyWorks(w: Wqe, data: seq<u8>, i: nat)
    requires Suffices(w, data) && i < Count(data)
    ensures var (v, more, ok) := CopyToWqe(w, i * MAX_PAYLOAD, Fragments.Chunk(data, i)); ok && Suffices(v, data)
  {
    FragFits(|data|, MAX_PAYLOAD, i);
  }

  /** Absorbing fragment i: the message is further on, or consumed if that was the last one missing. */
  lemma AbsorbAdvances(rx: Rx, m: Msg, qp: u32, n: int, got: set<nat>, i: nat)
    requires Structure(rx) && rx.striping && Expected(rx) == n && rx.rnr.None? && !rx.overflowed && rx.room > 0
    requires rx.active.Some? && Partly(rx.active.value, m, qp, got) && i < Count(m.data) && got <= Below(Count(m.data))
    ensures var s := Absorb(rx, i, i * MAX_PAYLOAD, Fragments.Chunk(m.data, i));
            if got + {i} == Below(Count(m.data)) then Consumed(s, n)
            else Underway(s, m, qp, n, got + {i})
  {
    hide Drain;
    hide FrameCount;
    hide Fragments.Chunk;
    var a := rx.active.value;
    var payload := Fragments.Chunk(m.data, i);
    CopyWorks(a.wqe, m.data, i);
    AbsorbKeeps(rx, i, i * MAX_PAYLOAD, payload);
    var b := Absorbed(a, i, i * MAX_PAYLOAD, payload);
    assert i in got ==> got + {i} == got;
    AllSeen(b.seen, Count(m.data));
    BelowSize(Count(m.data));
    var s := WithActive(rx, Some(b));
    if b.fragsReceived == b.fragCount {
      assert Consumed(Finish(s), n);
      DrainGrows(Finish(s));
    }
  }

  lemma FragmentAdvances(rx: Rx, f: Fragment, m: Msg, qp: u32, n: int, got: set<nat>, i: nat, allocMsg: bool,
                         allocFrag: bool)
    requires Underway(rx, m, qp, n, got) && FragTrue(f, m, qp, i) && f.n == n && got <= Below(Count(m.data))
    ensures var s := OnFragment(rx, f, allocMsg, allocFrag);
            if got + {i} == Below(Count(m.data)) then Consumed(s, n)
            else Underway(s, m, qp, n, got + {i})
  {
    hide Absorb;
    hide Structure;
    hide Count;
    hide Fragments.Chunk;
    if got == {} {
      ActivateKeeps(rx, f.meta, Count(m.data));
      AbsorbAdvances(Activate(rx, f.meta, Count(m.data)), m, qp, n, {}, i);
    } else {
      AbsorbAdvances(rx, m, qp, n, got, i);
    }
  }

  // ---------------------------------------------------------------- all fragments

  function SeenIn(idx: seq<nat>): set<nat> {
    if idx == [] then {} else SeenIn(idx[..|idx| - 1]) + {idx[|idx| - 1]}
  }

  lemma {:induction false} SeenInside(idx: seq<nat>, k: nat)
    requires forall j :: 0 <= j < |idx| ==> idx[j] < k
    ensures SeenIn(idx) <= Below(k) && (idx != [] ==> SeenIn(idx) != {})
    ensures forall j :: 0 <= j < |idx| ==> idx[j] in SeenIn(idx)
  {
    if idx != [] {
      SeenInside(idx[..|idx| - 1], k);
    }
  }

  /** The events are frames of message n, the k-th of them carrying fragment idx[k]; nothing is assumed
      about their order or repetition. */
  ghost predicate FramesOf(rx: Rx, events: seq<Event>, idx: seq<nat>, m: Msg, qp: u32, n: int) {
    && |events| == |idx|
    && forall k :: 0 <= k < |events| ==>
         && events[k].Frame? && events[k].header.psn == PsnOf(n) && SameMessage(m, qp, events[k].header)
         && IsPart(m.data, idx[k], events[k].header, events[k].payload)
         && -HALF <= n - Expected(Run(rx, events[..k])) < HALF
  }

  /** What is known after some frames of message n. */
  ghost predicate Advanced(rx: Rx, m: Msg, qp: u32, n: int, got: set<nat>) {
    && rx.striping
    && (if got == Below(Count(m.data)) then Consumed(rx, n) else Underway(rx, m, qp, n, got))
  }

  lemma FrameAdvances(rx: Rx, e: Event, m: Msg, qp: u32, n: int, got: set<nat>, i: nat)
    requires Advanced(rx, m, qp, n, got) && got <= Below(Count(m.data))
    requires e.Frame? && e.header.psn == PsnOf(n) && -HALF <= n - Expected(rx) < HALF
    requires SameMessage(m, qp, e.header) && IsPart(m.data, i, e.header, e.payload)
    ensures Advanced(Step(rx, e), m, qp, n, got + {i})
  {
    hide OnFragment;
    hide Underway;
    hide FragmentOf;
    hide FragTrue;
    hide FrameCount;
    ReadTrue(rx, m, qp, n, e.header, e.payload, i);
    var f := FragmentOf(rx, e.header, e.payload);
    FragmentGrows(rx, f, e.allocMsg, e.allocFrag);
    if got == Below(Count(m.data)) {
      assert got + {i} == got;
    } else {
      FragmentAdvances(rx, f, m, qp, n, got, i, e.allocMsg, e.allocFrag);
    }
  }

  lemma {:induction false} FramesAdvance(rx: Rx, events: seq<Event>, idx: seq<nat>, m: Msg, qp: u32, n: int)
    requires Underway(rx, m, qp, n, {}) && FramesOf(rx, events, idx, m, qp, n)
    ensures Advanced(Run(rx, events), m, qp, n, SeenIn(idx))
  {
    hide Underway;
    hide Step;
    hide FrameCount;
    if events == [] {
      UnderwayStripes(rx, m, qp, n, {});
      assert 0 in Below(Count(m.data));
    } else {
      var k := |events| - 1;
      var prefix := events[..k];
      assert forall j :: 0 <= j <= k ==> events[..j] == prefix[..j];
      FramesAdvance(rx, prefix, idx[..k], m, qp, n);
      SeenInside(idx[..k], Count(m.data));
      FrameAdvances(Run(rx, prefix), events[k], m, qp, n, SeenIn(idx[..k]), idx[k]);
    }
  }

  lemma UnderwayStripes(rx: Rx, m: Msg, qp: u32, n: int, got: set<nat>)
    requires Underway(rx, m, qp, n, got)
    ensures rx.striping
  {
  }

  /** With fragments striped over rails: an awaited message, for which a receive that can take it is posted
      and the completion queue has room, is consumed with success exactly when every fragment of it has come
      in, in any order and however often. */
  lemma AllFragmentsConsume(rx: Rx, events: seq<Event>, idx: seq<nat>, m: Msg, qp: u32, n: int)
    requires Underway(rx, m, qp, n, {}) && FramesOf(rx, events, idx, m, qp, n)
    ensures Consumed(Run(rx, events), n) <==> forall i :: 0 <= i < Count(m.data) ==> i in idx
  {
    hide Run;
    hide Structure;
    hide Count;
    FramesAdvance(rx, events, idx, m, qp, n);
    SeenInside(idx, Count(m.data));
    InIdx(idx);
    if forall i :: 0 <= i < Count(m.data) ==> i in idx {
      assert SeenIn(idx) == Below(Count(m.data));
    }
  }

  lemma {:induction false} InIdx(idx: seq<nat>)
    ensures forall i :: i in SeenIn(idx) <==> i in idx
  {
    if idx != [] {
      InIdx(idx[..|idx| - 1]);
    }
  }
}
