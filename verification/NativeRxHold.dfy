/** What the receiver of NativeRx does with one fragment of a message it cannot consume yet: it holds it, has it
    already, or gives the message up and says so. */
module NativeRxHold {
  import opened Prelude
  import opened Cut
  import opened NativeData
  import opened Psn
  import opened AckHistory
  import opened RecvWqe
  import opened NativeRx
  import opened RecvParts
  import opened ReorderWindow
  import opened NativeRxSafety
  import opened NativeRxAnswers
  import Fragments

  /** In the run, fragment i of message m arrives under number n, and suppression lets it through. */
  ghost predicate Comes(rx: Rx, e: Event, n: int, m: Msg, i: nat) {
    && e.Frame? && e.header.psn == PsnOf(n) && LetThrough(rx, e.header)
    && SameMessage(m, e.header.srcQp, e.header) && IsPart(m.data, i, e.header, e.payload)
  }

  /** The reorder list holds some of message n. */
  ghost predicate Holding(rx: Rx, n: int) {
    exists j :: 0 <= j < |rx.reorder| && rx.reorder[j].n == n
  }

  /** Holding these bytes too would exceed the limit of 64 MiB. */
  predicate TooMuch(rx: Rx, payload: seq<u8>) {
    payload != [] && rx.bytes + |payload| > 0x400_0000
  }

  /** What is held of a message contradicts the fragment: another length, immediate or sender, or other bytes at
      the same place. */
  ghost predicate Contradicts(b: Body, m: Msg, qp: u32, i: nat, payload: seq<u8>) {
    || b.meta != Meta(qp, |m.data|, m.imm) || b.fragCount != Count(m.data)
    || (i in b.seen && payload != []
        && forall k :: 0 <= k < |b.frags| ==> b.frags[k].offset == i * MAX_PAYLOAD ==> b.frags[k].data != payload)
  }

  /** The fragment is held already. */
  ghost predicate Repeated(b: Body, m: Msg, qp: u32, i: nat, payload: seq<u8>) {
    && b.meta == Meta(qp, |m.data|, m.imm) && b.fragCount == Count(m.data) && i in b.seen
    && (payload != [] ==>
          && (exists k :: 0 <= k < |b.frags| && b.frags[k].offset == i * MAX_PAYLOAD)
          && forall k :: 0 <= k < |b.frags| && b.frags[k].offset == i * MAX_PAYLOAD ==> b.frags[k].data == payload)
  }

  /** The fragment is missing from what is held. */
  ghost predicate Missing(b: Body, m: Msg, qp: u32, i: nat) {
    b.meta == Meta(qp, |m.data|, m.imm) && b.fragCount == Count(m.data) && i !in b.seen
  }

  lemma {:induction false} MatchesExact(frags: seq<Frag>, offset: nat, payload: seq<u8>)
    ensures payload != [] && (forall k :: 0 <= k < |frags| ==> frags[k].offset == offset ==> frags[k].data != payload)
            ==> !Matches(frags, offset, payload)
    ensures (exists k :: 0 <= k < |frags| && frags[k].offset == offset)
            && (forall k :: 0 <= k < |frags| && frags[k].offset == offset ==> frags[k].data == payload)
            ==> Matches(frags, offset, payload)
  {
    if frags != [] && frags[0].offset != offset {
      MatchesExact(frags[1..], offset, payload);
      assert forall k :: 0 < k < |frags| ==> frags[k] == frags[1..][k - 1];
    }
  }

  /** The receiver leads the fragment, read as f, to its reorder list in state q. */
  ghost predicate Led(rx: Rx, e: Event, n: int, m: Msg, i: nat, q: Rx, f: Fragment) {
    && e.Frame? && q == rx.(rnr := q.rnr) && f.n == n && FragTrue(f, m, e.header.srcQp, i) && f.payload == e.payload
    && f.meta.srcQp == e.header.srcQp && Step(rx, e) == Buffer(q, f, e.allocMsg, e.allocFrag)
  }

  /** So it does if the fragment belongs to a message held there, or to one ahead. */
  lemma Routed(rx: Rx, e: Event, n: int, m: Msg, i: nat)
    requires Structure(rx) && Comes(rx, e, n, m, i)
    requires Holding(rx, n) || Expected(rx) < n < Expected(rx) + WINDOW
    ensures exists q: Rx, f: Fragment :: Led(rx, e, n, m, i, q, f)
  {
    hide Buffer;
    hide Take;
    hide Absorb;
    hide Fail;
    InReach(rx, n);
    ReadTrue(rx, m, e.header.srcQp, n, e.header, e.payload, i);
    ReadKey(rx, e.header, e.payload);
    var f := FragmentOf(rx, e.header, e.payload);
    hide FragmentOf;
    hide SumBytes;
    assert Led(rx, e, n, m, i, ClearRnr(rx), f) || Led(rx, e, n, m, i, rx, f);
  }

  lemma ReadKey(rx: Rx, h: Header, payload: seq<u8>)
    requires h.psn < PSN_MOD
    ensures FragmentOf(rx, h, payload).rnr == Rnr(h.srcQp, h.psn, h.remoteAddr, h.fragOffset)
  {
  }

  lemma InReach(rx: Rx, n: int)
    requires Structure(rx) && (Holding(rx, n) || Expected(rx) < n < Expected(rx) + WINDOW)
    ensures Expected(rx) <= n < Expected(rx) + WINDOW
    ensures rx.active.Some? ==> n != Expected(rx)
    ensures Holding(rx, n) ==> Find(rx.reorder, n) < |rx.reorder|
    ensures forall j :: 0 <= j < |rx.reorder| && rx.reorder[j].n == n ==> j == Find(rx.reorder, n)
  {
    forall j | 0 <= j < |rx.reorder| ensures InWindow(rx.reorder[j], Expected(rx), rx.active.Some?) {
    }
    hide SumBytes;
  }

  /** Entry j of the state after is gone, with its bytes. */
  ghost predicate Dropped(rx: Rx, s: Rx, j: nat)
    requires j < |rx.reorder|
  {
    s.reorder == rx.reorder[..j] + rx.reorder[j + 1..] && s.bytes + rx.reorder[j].body.bytes == rx.bytes
  }

  lemma BytesHeld(rx: Rx, j: nat)
    requires Structure(rx) && j < |rx.reorder|
    ensures rx.reorder[j].body.bytes <= rx.bytes
  {
    SumSplit(rx.reorder, j);
    hide SumBytes;
  }

  lemma ConflictStep(q: Rx, f: Fragment, j: nat, m: Msg, qp: u32, i: nat, allocMsg: bool, allocFrag: bool)
    requires j < |q.reorder| && Find(q.reorder, f.n) == j && Expected(q) <= f.n < Expected(q) + WINDOW
    requires q.reorder[j].body.bytes <= q.bytes && FragTrue(f, m, qp, i)
    requires Contradicts(q.reorder[j].body, m, qp, i, f.payload)
    ensures var s := Buffer(q, f, allocMsg, allocFrag);
            && s == q.(reorder := s.reorder, bytes := s.bytes, acks := q.acks + [Ack(f.n, f.meta.srcQp, AckError)])
            && Dropped(q, s, j)
  {
    MatchesExact(q.reorder[j].body.frags, i * MAX_PAYLOAD, f.payload);
    hide Matches;
    hide Store;
    hide Drain;
  }

  /** In every run: a fragment that contradicts what is held of its message makes the receiver drop all it holds
      of the message and answer with an error; nothing else changes. */
  lemma ConflictDropped(striping: bool, first: int, room: nat, events: seq<Event>, e: Event, j: nat, m: Msg, i: nat)
    requires var rx := Run(NativeRx.Start(striping, first, room), events);
             && j < |rx.reorder| && Comes(rx, e, rx.reorder[j].n, m, i)
             && Contradicts(rx.reorder[j].body, m, e.header.srcQp, i, e.payload)
    ensures var rx := Run(NativeRx.Start(striping, first, room), events);
            var s := Step(rx, e);
            && Dropped(rx, s, j)
            && s == rx.(reorder := s.reorder, bytes := s.bytes, rnr := s.rnr,
                        acks := rx.acks + [Ack(rx.reorder[j].n, e.header.srcQp, AckError)])
  {
    var rx := Run(NativeRx.Start(striping, first, room), events);
    RunKeeps(striping, first, room, events);
    hide Run;
    hide Structure;
    hide Step;
    hide Buffer;
    hide Comes;
    hide Contradicts;
    hide FragTrue;
    var n := rx.reorder[j].n;
    Routed(rx, e, n, m, i);
    InReach(rx, n);
    BytesHeld(rx, j);
    var q: Rx, f: Fragment :| Led(rx, e, n, m, i, q, f);
    ConflictStep(q, f, j, m, e.header.srcQp, i, e.allocMsg, e.allocFrag);
  }

  lemma RepeatStep(q: Rx, f: Fragment, j: nat, m: Msg, qp: u32, i: nat, allocMsg: bool, allocFrag: bool)
    requires j < |q.reorder| && Find(q.reorder, f.n) == j && Expected(q) <= f.n < Expected(q) + WINDOW
    requires FragTrue(f, m, qp, i) && Repeated(q.reorder[j].body, m, qp, i, f.payload) && !q.reorder[j].body.complete
    ensures Buffer(q, f, allocMsg, allocFrag) == q
  {
    MatchesExact(q.reorder[j].body.frags, i * MAX_PAYLOAD, f.payload);
    hide Store;
    hide Drain;
  }

  /** In every run: a fragment that is held already changes nothing while its message is incomplete. */
  lemma RepeatIgnored(striping: bool, first: int, room: nat, events: seq<Event>, e: Event, j: nat, m: Msg, i: nat)
    requires var rx := Run(NativeRx.Start(striping, first, room), events);
             && j < |rx.reorder| && Comes(rx, e, rx.reorder[j].n, m, i) && !rx.reorder[j].body.complete
             && Repeated(rx.reorder[j].body, m, e.header.srcQp, i, e.payload)
    ensures var rx := Run(NativeRx.Start(striping, first, room), events);
            Step(rx, e) == rx.(rnr := Step(rx, e).rnr)
  {
    var rx := Run(NativeRx.Start(striping, first, room), events);
    RunKeeps(striping, first, room, events);
    hide Run;
    hide Structure;
    hide Step;
    hide Buffer;
    hide Comes;
    hide Repeated;
    hide FragTrue;
    var n := rx.reorder[j].n;
    Routed(rx, e, n, m, i);
    InReach(rx, n);
    var q: Rx, f: Fragment :| Led(rx, e, n, m, i, q, f);
    RepeatStep(q, f, j, m, e.header.srcQp, i, e.allocMsg, e.allocFrag);
  }

  /** What is held of a message with one more fragment, which does not complete it. */
  function OneMore(b: Body, i: nat, payload: seq<u8>): Body {
    b.(seen := b.seen + {i}, fragsReceived := b.fragsReceived + 1, bytes := b.bytes + |payload|,
       frags := b.frags + if payload == [] then [] else [Frag(i * MAX_PAYLOAD, payload)])
  }

  lemma MissingStep(q: Rx, f: Fragment, j: nat, m: Msg, qp: u32, i: nat, allocMsg: bool, allocFrag: bool)
    requires j < |q.reorder| && Find(q.reorder, f.n) == j && Expected(q) <= f.n < Expected(q) + WINDOW
    requires q.reorder[j].body.bytes <= q.bytes && FragTrue(f, m, qp, i) && Missing(q.reorder[j].body, m, qp, i)
    requires BodySane(q.reorder[j].body)
    ensures f.shape == Some((i, q.reorder[j].body.fragCount)) && f.meta == q.reorder[j].body.meta
    ensures var s := Buffer(q, f, allocMsg, allocFrag);
            var b := q.reorder[j].body;
            if TooMuch(q, f.payload) || (f.payload != [] && !allocFrag) then
              && s == q.(reorder := s.reorder, bytes := s.bytes,
                         acks := if TooMuch(q, f.payload) then q.acks
                                 else q.acks + [Ack(f.n, f.meta.srcQp, AckError)])
              && Dropped(q, s, j)
            else
              b.seen + {i} != Below(Count(m.data)) ==>
                s == q.(reorder := q.reorder[j := Waiting(f.n, OneMore(b, i, f.payload))],
                        bytes := q.bytes + |f.payload|)
  {
    NotAll(q.reorder[j].body, i, Count(m.data));
    StoreStep(q, j, f, i, allocFrag);
    hide Store;
    hide BodySane;
    hide TooMuch;
    hide Dropped;
    hide OneMore;
    hide Below;
    assert Buffer(q, f, allocMsg, allocFrag) == Store(q, j, f, i, allocFrag);
    hide Buffer;
    hide FragTrue;
    hide Find;
  }

  lemma StoreStep(q: Rx, j: nat, f: Fragment, i: nat, alloc: bool)
    requires j < |q.reorder| && q.reorder[j].n == f.n && q.reorder[j].body.bytes <= q.bytes
    requires f.offset == i * MAX_PAYLOAD
    ensures var s := Store(q, j, f, i, alloc);
            var b := q.reorder[j].body;
            if TooMuch(q, f.payload) || (f.payload != [] && !alloc) then
              && s == q.(reorder := s.reorder, bytes := s.bytes,
                         acks := if TooMuch(q, f.payload) then q.acks
                                 else q.acks + [Ack(f.n, f.meta.srcQp, AckError)])
              && Dropped(q, s, j)
            else
              !b.complete && b.fragsReceived + 1 != b.fragCount ==>
                s == q.(reorder := q.reorder[j := Waiting(f.n, OneMore(b, i, f.payload))],
                        bytes := q.bytes + |f.payload|)
  {
    hide Drain;
    var b := q.reorder[j].body;
    assert b.frags + [] == b.frags;
    assert !b.complete && b.fragsReceived + 1 != b.fragCount ==>
        Grown(b, i, f.offset, f.payload) == OneMore(b, i, f.payload);
  }

  lemma NotAll(b: Body, i: nat, count: nat)
    requires BodySane(b) && i < b.fragCount == count && i !in b.seen
    ensures !b.complete && (b.fragsReceived + 1 == b.fragCount <==> b.seen + {i} == Below(count))
  {
    AllSeen(b.seen, b.fragCount);
    AllSeen(b.seen + {i}, b.fragCount);
    BelowSize(b.fragCount);
    assert i in Below(b.fragCount);
  }

  /** What becomes of a missing fragment, from rx to the state s after. */
  ghost predicate MissingTaken(rx: Rx, s: Rx, e: Event, j: nat, m: Msg, i: nat)
    requires j < |rx.reorder| && e.Frame?
  {
    var n, b := rx.reorder[j].n, rx.reorder[j].body;
    if TooMuch(rx, e.payload) || (e.payload != [] && !e.allocFrag) then
      && s == rx.(reorder := s.reorder, bytes := s.bytes, rnr := s.rnr,
                  acks := if TooMuch(rx, e.payload) then rx.acks
                          else rx.acks + [Ack(n, e.header.srcQp, AckError)])
      && Dropped(rx, s, j)
    else
      b.seen + {i} != Below(Count(m.data)) ==>
        s == rx.(reorder := rx.reorder[j := Waiting(n, OneMore(b, i, e.payload))],
                 bytes := rx.bytes + |e.payload|, rnr := s.rnr)
  }

  lemma MissingLed(rx: Rx, e: Event, j: nat, m: Msg, i: nat, q: Rx, f: Fragment)
    requires Structure(rx) && j < |rx.reorder| && Find(rx.reorder, rx.reorder[j].n) == j
    requires Led(rx, e, rx.reorder[j].n, m, i, q, f) && Missing(rx.reorder[j].body, m, e.header.srcQp, i)
    requires Expected(rx) <= rx.reorder[j].n < Expected(rx) + WINDOW
    ensures MissingTaken(rx, Step(rx, e), e, j, m, i)
  {
    EntrySane(rx, j);
    BytesHeld(rx, j);
    hide Structure;
    hide Below;
    hide Step;
    hide Buffer;
    hide Missing;
    hide FragTrue;
    hide BodySane;
    hide OneMore;
    hide Count;
    hide Find;
    MissingStep(q, f, j, m, e.header.srcQp, i, e.allocMsg, e.allocFrag);
  }

  /** In every run: a missing fragment of a held message is dropped with all that is held of the message if it
      would be too much, or if there is no memory for it, which is answered with an error. Otherwise it is held
      as well; and if it does not complete the message, nothing else changes. */
  lemma MissingHeld(striping: bool, first: int, room: nat, events: seq<Event>, e: Event, j: nat, m: Msg, i: nat)
    requires var rx := Run(NativeRx.Start(striping, first, room), events);
             && j < |rx.reorder| && Comes(rx, e, rx.reorder[j].n, m, i)
             && Missing(rx.reorder[j].body, m, e.header.srcQp, i)
    ensures var rx := Run(NativeRx.Start(striping, first, room), events);
            MissingTaken(rx, Step(rx, e), e, j, m, i)
  {
    var rx := Run(NativeRx.Start(striping, first, room), events);
    RunKeeps(striping, first, room, events);
    hide Run;
    hide Structure;
    hide Step;
    hide Comes;
    hide Missing;
    hide MissingTaken;
    hide Led;
    Routed(rx, e, rx.reorder[j].n, m, i);
    InReach(rx, rx.reorder[j].n);
    var q: Rx, f: Fragment :| Led(rx, e, rx.reorder[j].n, m, i, q, f);
    MissingLed(rx, e, j, m, i, q, f);
  }

  lemma EntrySane(rx: Rx, j: nat)
    requires Structure(rx) && j < |rx.reorder|
    ensures BodySane(rx.reorder[j].body)
  {
    assert InWindow(rx.reorder[j], Expected(rx), rx.active.Some?);
  }

  lemma FirstStep(q: Rx, f: Fragment, m: Msg, qp: u32, i: nat, allocMsg: bool, allocFrag: bool)
    requires Find(q.reorder, f.n) == |q.reorder| < WINDOW && Expected(q) <= f.n < Expected(q) + WINDOW
    requires FragTrue(f, m, qp, i)
    ensures var s := Buffer(q, f, allocMsg, allocFrag);
            if !allocMsg || (f.payload != [] && !allocFrag && !TooMuch(q, f.payload)) then
              s == q.(acks := q.acks + [Ack(f.n, f.meta.srcQp, AckError)])
            else if TooMuch(q, f.payload) then s == q
            else
              Count(m.data) > 1 ==>
                var b := OneMore(Body(f.meta, Count(m.data), {}, 0, [], 0, false), i, f.payload);
                s == q.(reorder := q.reorder + [Waiting(f.n, b)], bytes := q.bytes + |f.payload|)
  {
    hide Count;
    var b := EmptyBody(f.meta, Count(m.data));
    var r := Append(q, f.n, b);
    StoreStep(r, |q.reorder|, f, i, allocFrag);
    hide Store;
    assert r.reorder[..|q.reorder|] + r.reorder[|q.reorder| + 1..] == q.reorder;
    assert r.reorder[|q.reorder| := Waiting(f.n, OneMore(b, i, f.payload))]
        == q.reorder + [Waiting(f.n, OneMore(b, i, f.payload))];
  }

  /** In every run: the first fragment of a message ahead is refused with an error if no memory can be had,
      dropped without a word if it would be too much, and held otherwise; and if it is not the whole message,
      nothing else changes. */
  lemma FirstHeld(striping: bool, first: int, room: nat, events: seq<Event>, e: Event, n: int, m: Msg, i: nat)
    requires var rx := Run(NativeRx.Start(striping, first, room), events);
             && Comes(rx, e, n, m, i) && !Holding(rx, n) && Expected(rx) < n < Expected(rx) + 1024
    ensures var rx := Run(NativeRx.Start(striping, first, room), events);
            var s := Step(rx, e);
            if !e.allocMsg || (e.payload != [] && !e.allocFrag && !TooMuch(rx, e.payload)) then
              s == rx.(acks := rx.acks + [Ack(n, e.header.srcQp, AckError)], rnr := s.rnr)
            else if TooMuch(rx, e.payload) then s == rx.(rnr := s.rnr)
            else
              Count(m.data) > 1 ==>
                var none := Body(Meta(e.header.srcQp, |m.data|, m.imm), Count(m.data), {}, 0, [], 0, false);
                s == rx.(reorder := rx.reorder + [Waiting(n, OneMore(none, i, e.payload))],
                         bytes := rx.bytes + |e.payload|, rnr := s.rnr)
  {
    var rx := Run(NativeRx.Start(striping, first, room), events);
    RunKeeps(striping, first, room, events);
    hide Run;
    hide Step;
    hide Buffer;
    hide Comes;
    hide Count;
    hide OneMore;
    RoomLeft(rx, n);
    hide Structure;
    Routed(rx, e, n, m, i);
    InReach(rx, n);
    var q: Rx, f: Fragment :| Led(rx, e, n, m, i, q, f);
    FirstStep(q, f, m, e.header.srcQp, i, e.allocMsg, e.allocFrag);
    SizedMeta(e, m, i, f);
  }

  lemma SizedMeta(e: Event, m: Msg, i: nat, f: Fragment)
    requires e.Frame? && FragTrue(f, m, e.header.srcQp, i)
    ensures |m.data| <= MAX_MSG_SIZE && f.meta == Meta(e.header.srcQp, |m.data|, m.imm)
  {
  }

  lemma RoomLeft(rx: Rx, n: int)
    requires Structure(rx) && !Holding(rx, n) && Expected(rx) < n < Expected(rx) + WINDOW
    ensures |rx.reorder| < WINDOW && Find(rx.reorder, n) == |rx.reorder|
  {
    NeverFull(rx.reorder, Expected(rx), rx.active.Some?, n);
    hide SumBytes;
  }

  // ---------------------------------------------------------------- the active message

  lemma ActiveConflictStep(rx: Rx, f: Fragment, m: Msg, qp: u32, i: nat, allocMsg: bool, allocFrag: bool)
    requires rx.active.Some? && FragTrue(f, m, qp, i) && f.n == Expected(rx)
    requires rx.active.value.meta != f.meta || (rx.striping && rx.active.value.fragCount != Count(m.data))
    ensures Route(rx, f, allocMsg, allocFrag) == Refuse(Fail(rx, ProtErr), f)
  {
    hide Buffer;
    hide Take;
    hide Absorb;
    hide Fail;
    hide Refuse;
    hide Count;
  }

  lemma Ended(rx: Rx, f: Fragment)
    requires rx.active.Some?
    ensures var s := Refuse(Fail(rx, ProtErr), f);
            var a := rx.active.value;
            var n := Expected(rx);
            && s.active.None? && s.log == rx.log + [AckError] && s.reorder == rx.reorder && s.recvq == rx.recvq
            && s.acks == rx.acks + [Ack(n, a.meta.srcQp, AckError), Ack(f.n, f.meta.srcQp, AckError)]
            && s.done == if rx.room == 0 || rx.overflowed then rx.done
                         else rx.done + [Completion(n, a.wqe, ProtErr, a.delivered, a.meta.srcQp, a.meta.imm)]
  {
  }

  /** In every run: a fragment under the expected number that is not of the active message, or cuts it otherwise,
      ends the active message with a protection error, and both are answered with an error. */
  lemma ActiveConflict(striping: bool, first: int, room: nat, events: seq<Event>, e: Event, m: Msg, i: nat)
    requires var rx := Run(NativeRx.Start(striping, first, room), events);
             && rx.active.Some? && Comes(rx, e, Expected(rx), m, i)
             && (rx.active.value.meta != Meta(e.header.srcQp, |m.data|, m.imm)
                 || (striping && rx.active.value.fragCount != Count(m.data)))
    ensures var rx := Run(NativeRx.Start(striping, first, room), events);
            var s := Step(rx, e);
            var a := rx.active.value;
            var n := Expected(rx);
            && s.active.None? && s.log == rx.log + [AckError] && s.reorder == rx.reorder && s.recvq == rx.recvq
            && s.acks == rx.acks + [Ack(n, a.meta.srcQp, AckError), Ack(n, e.header.srcQp, AckError)]
            && s.done == if rx.room == 0 || rx.overflowed then rx.done
                         else rx.done + [Completion(n, a.wqe, ProtErr, a.delivered, a.meta.srcQp, a.meta.imm)]
  {
    var rx := Run(NativeRx.Start(striping, first, room), events);
    StripingStays(striping, first, room, events);
    hide Run;
    hide Count;
    ReadTrue(rx, m, e.header.srcQp, Expected(rx), e.header, e.payload, i);
    ReadKey(rx, e.header, e.payload);
    var f := FragmentOf(rx, e.header, e.payload);
    hide FragmentOf;
    hide Route;
    hide Fail;
    ActiveConflictStep(rx, f, m, e.header.srcQp, i, e.allocMsg, e.allocFrag);
    ActiveConflictStep(ClearRnr(rx), f, m, e.header.srcQp, i, e.allocMsg, e.allocFrag);
    Ended(rx, f);
    Ended(ClearRnr(rx), f);
    hide Refuse;
  }

  /** In every run: a fragment that the active message has already changes nothing. */
  lemma ActiveRepeatIgnored(striping: bool, first: int, room: nat, events: seq<Event>, e: Event, m: Msg, i: nat)
    requires var rx := Run(NativeRx.Start(striping, first, room), events);
             && rx.active.Some? && Comes(rx, e, Expected(rx), m, i)
             && rx.active.value.meta == Meta(e.header.srcQp, |m.data|, m.imm)
             && (if striping then rx.active.value.fragCount == Count(m.data) && i in rx.active.value.seen
                 else i * MAX_PAYLOAD + |e.payload| <= rx.active.value.received && e.payload != [])
    ensures var rx := Run(NativeRx.Start(striping, first, room), events);
            Step(rx, e) == rx.(rnr := Step(rx, e).rnr)
  {
    var rx := Run(NativeRx.Start(striping, first, room), events);
    StripingStays(striping, first, room, events);
    RunKeeps(striping, first, room, events);
    hide Run;
    ReadTrue(rx, m, e.header.srcQp, Expected(rx), e.header, e.payload, i);
    ReadKey(rx, e.header, e.payload);
    hide FragmentOf;
    hide Buffer;
    hide Fail;
    hide Finish;
    hide SumBytes;
  }
}
