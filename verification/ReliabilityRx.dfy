/** The receiver half of proto/reliability.c: one operation at a time reassembled from a 64-bit
    bitmap, and the 16 most recent acknowledgements kept for duplicates. */
module ReliabilityRx {
  import opened Prelude
  import opened ReliabilityTx
  import Bits

  const HISTORY: nat := 16

  /** A finished operation: the acknowledgement sent for it and the bytes counted. */
  datatype Done = Done(ack: AckFrame, totalLen: u32)

  datatype Current = Idle
                   | Assembling(opId: u32, op: u8, frameCount: u32, seen: set<nat>, totalLen: u32)

  /** The receiver as its callers see it: every operation it ever finished, in order, and the one
      it is assembling. */
  datatype Rx = Rx(connId: u64, maxPayload: u32, current: Current, log: seq<Done>)

  datatype RxEvent = RxEvent(duplicate: bool, stale: bool, rnr: bool,
                             ack: Option<AckFrame>, completion: Completion)

  const QUIET: RxEvent := RxEvent(false, false, false, None, NoCompletion)

  // ---------------------------------------------------------------- specification

  /** The acknowledgement of an operation among the `back` most recently finished ones. */
  function Cached(log: seq<Done>, opId: u32, back: nat): (r: Option<AckFrame>)
    ensures r.None? <==> forall k :: 0 <= k < |log| && |log| - back <= k ==> log[k].ack.opId != opId
    ensures r.Some? ==> exists k :: 0 <= k < |log| && |log| - back <= k && log[k].ack == r.value && r.value.opId == opId
  {
    if log == [] || back == 0 then None
    else
      var last := log[|log| - 1];
      if last.ack.opId == opId then Some(last.ack)
      else
        var rest := log[..|log| - 1];
        assert forall k :: 0 <= k < |rest| ==> rest[k] == log[k];
        Cached(rest, opId, back - 1)
  }

  function Validate(rx: Rx, f: DataFrame): (r: Option<Error>) {
    if !ValidOp(f.op) then Some(EINVAL)
    else if rx.maxPayload == 0 || f.fragCount == 0 || f.fragCount > MAX_FRAGS || f.fragIndex >= f.fragCount then
      Some(EINVAL)
    else if f.offset != f.fragIndex * rx.maxPayload % U32_MOD then Some(EINVAL)
    else if f.length > rx.maxPayload then Some(EMSGSIZE)
    else None
  }

  function BuildAck(f: DataFrame, status: u8): AckFrame {
    AckFrame(f.connId, f.opId, f.retryGeneration, status)
  }

  /** The operation a frame is assembled into: the current one, or a new one it opens. */
  function Opened(rx: Rx, f: DataFrame): (r: Current)
    ensures r.Assembling?
  {
    if rx.current.Assembling? then rx.current else Assembling(f.opId, f.op, f.fragCount, {}, 0)
  }

  function Absorb(c: Current, f: DataFrame): (r: Current)
    requires c.Assembling?
    ensures r.Assembling?
  {
    if f.fragIndex in c.seen then c
    else c.(seen := c.seen + {f.fragIndex}, totalLen := Add32(c.totalLen, f.length))
  }

  /** Add a frame to the open operation, and finish it with its last fragment. */
  function Assemble(rx: Rx, f: DataFrame): (r: (Rx, Result<RxEvent>))
    requires rx.current.Assembling?
  {
    var c := rx.current;
    if f.opId != c.opId || f.op != c.op || f.fragCount != c.frameCount then (rx, Err(EBUSY))
    else
      var d := Absorb(c, f);
      var dup := f.fragIndex in c.seen;
      if |d.seen| == d.frameCount then
        var ack := BuildAck(f, ACK_OK);
        (rx.(current := Idle, log := rx.log + [Done(ack, d.totalLen)]),
         Ok(QUIET.(duplicate := dup, ack := Some(ack), completion := Completed(f.opId, COMP_OK))))
      else (rx.(current := d), Ok(QUIET.(duplicate := dup)))
  }

  function OnData(rx: Rx, f: DataFrame, recvAvailable: bool): (r: (Rx, Result<RxEvent>)) {
    var bad := Validate(rx, f);
    var cached := Cached(rx.log, f.opId, HISTORY);
    if bad.Some? then (rx, Err(bad.value))
    else if f.connId != rx.connId then (rx, Ok(QUIET.(stale := true)))
    else if rx.current.Idle? && cached.Some? then (rx, Ok(QUIET.(duplicate := true, ack := cached)))
    else if rx.current.Idle? && !recvAvailable then
      (rx, Ok(QUIET.(rnr := true, ack := Some(BuildAck(f, ACK_RNR)))))
    else Assemble(rx.(current := Opened(rx, f)), f)
  }

  /** What the receiver keeps, whatever frames arrive: an open operation is incomplete and is not
      one of the 16 most recently finished, and any 17 consecutive finished operations differ. */
  ghost predicate Sane(rx: Rx) {
    && (rx.current.Assembling? ==>
          && 0 < rx.current.frameCount <= MAX_FRAGS
          && (forall i :: i in rx.current.seen ==> i < rx.current.frameCount)
          && |rx.current.seen| < rx.current.frameCount
          && Cached(rx.log, rx.current.opId, HISTORY).None?)
    && WindowDistinct(rx.log)
  }

  ghost predicate WindowDistinct(log: seq<Done>) {
    forall i, j :: 0 <= i < j < |log| && j - i <= HISTORY ==> log[i].ack.opId != log[j].ack.opId
  }

  lemma AssembleSane(rx: Rx, f: DataFrame)
    requires Sane(rx) && rx.current.Assembling? && f.fragIndex < f.fragCount
    ensures Sane(Assemble(rx, f).0)
  {
    var r := Assemble(rx, f).0;
    if r.log != rx.log {
      assert r.log[|rx.log|].ack.opId == rx.current.opId;
    }
    if r.current.Assembling? {
      Bits.BoundedSet(r.current.seen, r.current.frameCount);
    }
  }

  lemma OnDataSane(rx: Rx, f: DataFrame, recvAvailable: bool)
    requires Sane(rx)
    ensures Sane(OnData(rx, f, recvAvailable).0)
  {
    if Validate(rx, f).None? && (rx.current.Assembling? || Cached(rx.log, f.opId, HISTORY).None?) {
      AssembleSane(rx.(current := Opened(rx, f)), f);
    }
  }

  function RunRx(rx: Rx, arrivals: seq<(DataFrame, bool)>): (r: Rx) {
    if arrivals == [] then rx
    else
      var (f, avail) := arrivals[|arrivals| - 1];
      OnData(RunRx(rx, arrivals[..|arrivals| - 1]), f, avail).0
  }

  /** Under any frames whatsoever, forged ones included, the receiver never finishes again an
      operation that is among the 16 it finished last. */
  lemma {:induction false} NeverCompletesRecentAgain(connId: u64, maxPayload: u32, arrivals: seq<(DataFrame, bool)>)
    ensures var r := RunRx(Rx(connId, maxPayload, Idle, []), arrivals);
            Sane(r) && WindowDistinct(r.log)
  {
    if arrivals != [] {
      NeverCompletesRecentAgain(connId, maxPayload, arrivals[..|arrivals| - 1]);
      var (f, avail) := arrivals[|arrivals| - 1];
      OnDataSane(RunRx(Rx(connId, maxPayload, Idle, []), arrivals[..|arrivals| - 1]), f, avail);
    }
  }

  /** Sixteen is exact: an idle receiver with a buffer finishes a valid one-fragment operation if and
      only if it is not among the 16 it finished last, however often it finished before those. */
  lemma FinishesIffForgotten(rx: Rx, f: DataFrame)
    requires Sane(rx) && rx.current.Idle? && Validate(rx, f).None? && f.connId == rx.connId && f.fragCount == 1
    ensures OnData(rx, f, true).0.log != rx.log
       <==> forall k :: |rx.log| - HISTORY <= k < |rx.log| && 0 <= k ==> rx.log[k].ack.opId != f.opId
  {
    if Cached(rx.log, f.opId, HISTORY).None? {
      var c := Opened(rx, f);
      assert Absorb(c, f).seen == {0};
    }
  }

  /** A frame that the receiver may take: of its connection, with a fragment of a message of at most 64. */
  predicate Acceptable(rx: Rx, f: DataFrame) {
    && 1 <= f.op <= 5 && rx.maxPayload > 0 && f.fragIndex < f.fragCount <= 64
    && f.offset == f.fragIndex * rx.maxPayload % U32_MOD && f.length <= rx.maxPayload
  }

  /** The k-th finished operation is the last one with that number, and among the sixteen finished last. */
  predicate Recent(rx: Rx, opId: u32, k: nat) {
    && k < |rx.log| <= k + 16 && rx.log[k].ack.opId == opId
    && forall j :: k < j < |rx.log| ==> rx.log[j].ack.opId != opId
  }

  /** In every run: a frame that is not acceptable is an error, and one of another connection is ignored as stale;
      an idle receiver answers an operation finished recently with the acknowledgement of that time, and any
      other, without a buffer, receiver-not-ready; and one that assembles an operation is busy for any other. None
      of these changes anything. */
  lemma OthersAnswered(connId: u64, maxPayload: u32, arrivals: seq<(DataFrame, bool)>, f: DataFrame, avail: bool)
    ensures var rx := RunRx(Rx(connId, maxPayload, Idle, []), arrivals);
            var (s, r) := OnData(rx, f, avail);
            && (!Acceptable(rx, f) ==> s == rx && r.Err?)
            && (Acceptable(rx, f) && f.connId != rx.connId ==>
                  s == rx && r == Ok(RxEvent(false, true, false, None, NoCompletion)))
            && (Acceptable(rx, f) && f.connId == rx.connId && rx.current.Idle? ==>
                  && (forall k: nat :: Recent(rx, f.opId, k) ==>
                        s == rx && r == Ok(RxEvent(true, false, false, Some(rx.log[k].ack), NoCompletion)))
                  && ((forall k :: 0 <= k < |rx.log| <= k + 16 ==> rx.log[k].ack.opId != f.opId) && !avail ==>
                        && s == rx
                        && r == Ok(RxEvent(false, false, true,
                                           Some(AckFrame(f.connId, f.opId, f.retryGeneration, ACK_RNR)),
                                           NoCompletion))))
            && (Acceptable(rx, f) && f.connId == rx.connId && rx.current.Assembling?
                && (f.opId != rx.current.opId || f.op != rx.current.op || f.fragCount != rx.current.frameCount) ==>
                  s == rx && r == Err(EBUSY))
  {
    hide RunRx;
    var rx := RunRx(Rx(connId, maxPayload, Idle, []), arrivals);
    hide Absorb;
    forall k: nat | Recent(rx, f.opId, k) ensures Cached(rx.log, f.opId, HISTORY) == Some(rx.log[k].ack) {
      CachedIsLast(rx.log, f.opId, HISTORY, k);
    }
  }

  lemma {:induction false} CachedIsLast(log: seq<Done>, opId: u32, back: nat, k: nat)
    requires k < |log| <= k + back && log[k].ack.opId == opId
    requires forall j :: k < j < |log| ==> log[j].ack.opId != opId
    ensures Cached(log, opId, back) == Some(log[k].ack)
  {
    if k < |log| - 1 {
      CachedIsLast(log[..|log| - 1], opId, back - 1, k);
    }
  }

  /** In every run: an operation finishes exactly with the fragment that was missing last; then, and only then, its
      completion is reported, with an acknowledgement for the frame's generation. */
  lemma FinishesExactly(connId: u64, maxPayload: u32, arrivals: seq<(DataFrame, bool)>, f: DataFrame, avail: bool)
    ensures var rx := RunRx(Rx(connId, maxPayload, Idle, []), arrivals);
            var (s, r) := OnData(rx, f, avail);
            && (s.log != rx.log <==> r.Ok? && r.value.completion != NoCompletion)
            && (s.log != rx.log ==>
                  && r.value.completion == Completed(f.opId, COMP_OK) && s.current.Idle?
                  && r.value.ack == Some(AckFrame(f.connId, f.opId, f.retryGeneration, ACK_OK))
                  && |s.log| == |rx.log| + 1 && s.log[..|rx.log|] == rx.log && s.log[|rx.log|].ack == r.value.ack.value)
            && (rx.current.Assembling? && Acceptable(rx, f) && f.connId == rx.connId && f.opId == rx.current.opId
                && f.op == rx.current.op && f.fragCount == rx.current.frameCount ==>
                  if forall i: nat :: i < f.fragCount ==> i in rx.current.seen || i == f.fragIndex then s.log != rx.log
                  else
                    && s.log == rx.log && s.current.Assembling?
                    && s.current.seen == rx.current.seen + {f.fragIndex}
                    && r == Ok(RxEvent(f.fragIndex in rx.current.seen, false, false, None, NoCompletion)))
  {
    var rx := RunRx(Rx(connId, maxPayload, Idle, []), arrivals);
    NeverCompletesRecentAgain(connId, maxPayload, arrivals);
    hide RunRx;
    if rx.current.Assembling? && f.fragIndex < f.fragCount == rx.current.frameCount {
      AllThere(rx.current.seen + {f.fragIndex}, f.fragCount);
    }
  }

  lemma {:induction false} AllThere(seen: set<nat>, count: nat)
    requires forall i :: i in seen ==> i < count
    ensures |seen| == count <==> forall i: nat :: i < count ==> i in seen
  {
    if count == 0 {
      assert seen == {};
    } else if count - 1 in seen {
      AllThere(seen - {count - 1}, count - 1);
    } else {
      Bits.BoundedSet(seen, count - 1);
    }
  }

  // ---------------------------------------------------------------- the C struct

  datatype Slot = Slot(valid: bool, opId: u32, ack: AckFrame)

  const NO_ACK: AckFrame := AckFrame(0, 0, 0, 0)
  const NO_SLOT: Slot := Slot(false, 0, NO_ACK)

  /** The operation whose acknowledgement slot s holds after n stores. */
  lemma SlotOwner(n: nat, s: nat) returns (k: nat)
    requires s < HISTORY && (n < HISTORY ==> s < n)
    ensures n - HISTORY <= k < n && k % HISTORY == s
  {
    k := if n < HISTORY then s else n - 1 - (n - 1 - s) % HISTORY;
  }

  lemma SlotsDiffer(n: nat)
    ensures forall k: nat :: n - HISTORY < k < n ==> k % HISTORY != n % HISTORY
  {
  }

  /** The 32-bit counter wraps at a multiple of 16, so the slot after the wrap is the right one. */
  lemma NextSlot(next: u32, n: nat)
    requires next % HISTORY == n % HISTORY
    ensures Add32(next, 1) % HISTORY == (n + 1) % HISTORY
  {
  }

  /** The ack_history and ack_history_next fields of struct tbv_rel_rx_op. */
  class AckCache {
    const slots: array<Slot>
    var next: u32
    ghost var log: seq<Done>  // every finished operation

    /** Slot k % 16 holds the k-th finished operation, for the last 16 of them. */
    ghost predicate Valid()
      reads this, slots
    {
      && slots.Length == HISTORY
      && next % HISTORY == |log| % HISTORY
      && WindowDistinct(log)
      && (forall k :: 0 <= k < |log| && |log| - HISTORY <= k ==>
            slots[k % HISTORY] == Slot(true, log[k].ack.opId, log[k].ack))
      && (forall s :: |log| <= s < HISTORY ==> !slots[s].valid)
    }

    constructor ()
      ensures Valid() && fresh(slots) && log == []
    {
      slots := new Slot[16](i => NO_SLOT);
      next, log := 0, [];
    }

    /** The slot scan finds the acknowledgement of a recently finished operation, if there is one. */
    method Find(id: u32) returns (r: Option<AckFrame>)
      requires Valid()
      ensures r == Cached(log, id, HISTORY)
    {
      var i := 0;
      while i < HISTORY
        invariant 0 <= i <= HISTORY
        invariant forall s :: 0 <= s < i ==> !slots[s].valid || slots[s].opId != id
      {
        if slots[i].valid && slots[i].opId == id {
          SlotIsCached(i, id);
          return Some(slots[i].ack);
        }
        i := i + 1;
      }
      assert Cached(log, id, HISTORY).None?;
      return None;
    }

    /** A valid slot belongs to one of the last 16 operations. */
    lemma SlotIsCached(s: nat, id: u32)
      requires Valid() && s < HISTORY && slots[s].valid && slots[s].opId == id
      ensures Cached(log, id, HISTORY) == Some(slots[s].ack)
    {
      var k := SlotOwner(|log|, s);
      var r := Cached(log, id, HISTORY);
      var j :| 0 <= j < |log| && |log| - HISTORY <= j && log[j].ack == r.value && r.value.opId == id;
      assert log[j].ack.opId == log[k].ack.opId;
    }

    method Store(ack: AckFrame, ghost len: u32)
      requires Valid() && Cached(log, ack.opId, HISTORY).None?
      modifies this, slots
      ensures Valid() && log == old(log) + [Done(ack, len)]
    {
      var s := next % HISTORY;
      SlotsDiffer(|log|);
      NextSlot(next, |log|);
      slots[s] := Slot(true, ack.opId, ack);
      next := Add32(next, 1);
      log := log + [Done(ack, len)];
    }
  }

  /** struct tbv_rel_rx_op, updated in place. */
  class RxOp {
    const connId: u64
    const maxPayload: u32
    const cache: AckCache
    var opId: u32
    var op: u8
    var frameCount: u32
    var receivedCount: u32
    var receivedBitmap: nat
    var totalLen: u32
    var active: bool
    ghost var seen: set<nat>  // the fragments of the open operation

    ghost function Value(): Rx
      reads this, cache
    {
      Rx(connId, maxPayload, if active then Assembling(opId, op, frameCount, seen, totalLen) else Idle, cache.log)
    }

    ghost predicate BitmapHolds()
      reads this
    {
      seen == Bits.Members(receivedBitmap, MAX_FRAGS) && receivedCount == |seen|
    }

    ghost predicate Valid()
      reads this, cache, cache.slots
    {
      cache.Valid() && Sane(Value()) && (active ==> BitmapHolds())
    }

    constructor (connId: u64, maxPayload: u32)
      ensures Valid() && fresh(cache) && fresh(cache.slots)
      ensures Value() == Rx(connId, maxPayload, Idle, [])
    {
      this.connId, this.maxPayload := connId, maxPayload;
      cache := new AckCache();
      opId, op, frameCount, receivedCount, receivedBitmap, totalLen := 0, 0, 0, 0, 0, 0;
      active, seen := false, {};
    }

    method Validated(f: DataFrame) returns (r: Option<Error>)
      ensures r == Validate(Value(), f)
    {
      if !ValidOp(f.op) {
        return Some(EINVAL);
      }
      if maxPayload == 0 || f.fragCount == 0 || f.fragCount > MAX_FRAGS || f.fragIndex >= f.fragCount {
        return Some(EINVAL);
      }
      var expected: u32 := f.fragIndex * maxPayload % U32_MOD;
      if f.offset != expected {
        return Some(EINVAL);
      }
      if f.length > maxPayload {
        return Some(EMSGSIZE);
      }
      return None;
    }

    /** Mark a fragment received; its bytes count the first time. */
    method Record(index: nat, len: u32) returns (duplicate: bool)
      requires BitmapHolds() && index < MAX_FRAGS
      modifies this`receivedBitmap, this`receivedCount, this`totalLen, this`seen
      ensures BitmapHolds()
      ensures duplicate <==> index in old(seen)
      ensures seen == old(seen) + {index}
      ensures totalLen == if duplicate then old(totalLen) else Add32(old(totalLen), len)
    {
      Bits.MembersSet(receivedBitmap, index, MAX_FRAGS);
      duplicate := Bits.TestBit(receivedBitmap, index);
      if !duplicate {
        Bits.BoundedSet(seen + {index}, MAX_FRAGS);
        receivedBitmap := Bits.SetBit(receivedBitmap, index);
        receivedCount := receivedCount + 1;
        totalLen := Add32(totalLen, len);
        seen := seen + {index};
      }
    }

    method Open(f: DataFrame)
      requires Valid() && !active && 0 < f.fragCount <= MAX_FRAGS && Cached(cache.log, f.opId, HISTORY).None?
      modifies this
      ensures Valid()
      ensures Value() == old(Value()).(current := Assembling(f.opId, f.op, f.fragCount, {}, 0))
    {
      active, opId, op, frameCount := true, f.opId, f.op, f.fragCount;
      receivedCount, receivedBitmap, totalLen := 0, 0, 0;
      seen := {};
      Bits.MembersZero(MAX_FRAGS);
    }

    method AssembleFrame(f: DataFrame) returns (event: Result<RxEvent>)
      requires Valid() && active && f.fragIndex < f.fragCount
      modifies this, cache, cache.slots
      ensures Valid()
      ensures (Value(), event) == Assemble(old(Value()), f)
    {
      AssembleSane(Value(), f);
      if f.opId != opId || f.op != op || f.fragCount != frameCount {
        return Err(EBUSY);
      }
      var duplicate := Record(f.fragIndex, f.length);
      assert duplicate ==> old(seen) + {f.fragIndex} == old(seen);
      event := Ok(QUIET.(duplicate := duplicate));
      if receivedCount == frameCount {
        active := false;
        var ack := BuildAck(f, ACK_OK);
        cache.Store(ack, totalLen);
        event := Ok(event.value.(ack := Some(ack), completion := Completed(f.opId, COMP_OK)));
      }
    }

    method Data(f: DataFrame, recvAvailable: bool) returns (event: Result<RxEvent>)
      requires Valid()
      modifies this, cache, cache.slots
      ensures Valid()
      ensures (Value(), event) == OnData(old(Value()), f, recvAvailable)
    {
      var bad := Validated(f);
      if bad.Some? {
        return Err(bad.value);
      }
      if f.connId != connId {
        return Ok(QUIET.(stale := true));
      }
      if !active {
        var cached := cache.Find(f.opId);
        if cached.Some? {
          return Ok(QUIET.(duplicate := true, ack := cached));
        }
        if !recvAvailable {
          return Ok(QUIET.(rnr := true, ack := Some(BuildAck(f, ACK_RNR))));
        }
        Open(f);
      }
      event := AssembleFrame(f);
    }
  }
}
