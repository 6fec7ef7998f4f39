/** The ordered completion ring of proto/reliability.c: operations are pushed in post order, marked
    ready in any order, and drained in post order. */
module OrderQueue {
  import opened Prelude
  import opened Ring

  const ORDER_MAX: nat := 128

  datatype Outcome = Pass | EINVAL | ENOSPC | EEXIST | ENOENT | EALREADY

  /** A queued operation and the status it was first marked with. */
  datatype Entry = Entry(opId: u32, mark: Option<u8>)

  datatype Completion = Completion(opId: u32, status: u8)

  /** Capacity 0 stands for a queue that was never initialised. */
  datatype Queue = Queue(capacity: nat, entries: seq<Entry>)

  // ---------------------------------------------------------------- specification

  predicate Holds(entries: seq<Entry>, opId: u32) {
    exists i :: 0 <= i < |entries| && entries[i].opId == opId
  }

  function Push(q: Queue, opId: u32): (r: (Queue, Outcome)) {
    if q.capacity == 0 then (q, EINVAL)
    else if |q.entries| == q.capacity then (q, ENOSPC)
    else if Holds(q.entries, opId) then (q, EEXIST)
    else (q.(entries := q.entries + [Entry(opId, None)]), Pass)
  }

  /** The first entry of an operation, or the number of entries. */
  function Find(entries: seq<Entry>, opId: u32): (r: nat)
    ensures r <= |entries|
    ensures r < |entries| ==> entries[r].opId == opId
    ensures forall i :: 0 <= i < r ==> entries[i].opId != opId
  {
    if entries == [] || entries[0].opId == opId then 0 else 1 + Find(entries[1..], opId)
  }

  function Mark(q: Queue, opId: u32, status: u8): (r: (Queue, Outcome)) {
    var i := Find(q.entries, opId);
    if q.capacity == 0 then (q, EINVAL)
    else if i == |q.entries| then (q, ENOENT)
    else match q.entries[i].mark
      case Some(s) => (q, if s == status then Pass else EALREADY)
      case None => (q.(entries := q.entries[i := Entry(opId, Some(status))]), Pass)
  }

  function Fill(e: Entry, status: u8): Entry {
    if e.mark.Some? then e else e.(mark := Some(status))
  }

  function Flush(q: Queue, status: u8): (r: (Queue, Outcome)) {
    if q.capacity == 0 then (q, EINVAL)
    else (q.(entries := seq(|q.entries|, i requires 0 <= i < |q.entries| => Fill(q.entries[i], status))), Pass)
  }

  /** How many entries at the front are ready. */
  function ReadyPrefix(entries: seq<Entry>): (r: nat)
    ensures r <= |entries|
    ensures forall i :: 0 <= i < r ==> entries[i].mark.Some?
    ensures r < |entries| ==> entries[r].mark.None?
  {
    if entries == [] || entries[0].mark.None? then 0 else 1 + ReadyPrefix(entries[1..])
  }

  function Min(a: nat, b: nat): nat {
    if a < b then a else b
  }

  function Completions(entries: seq<Entry>): (r: seq<Completion>)
    requires forall i :: 0 <= i < |entries| ==> entries[i].mark.Some?
    ensures |r| == |entries|
    ensures forall i :: 0 <= i < |r| ==> r[i] == Completion(entries[i].opId, entries[i].mark.value)
  {
    seq(|entries|, i requires 0 <= i < |entries| => Completion(entries[i].opId, entries[i].mark.value))
  }

  /** The longest ready prefix, cut at max, leaves in order. */
  function Drain(q: Queue, max: nat): (r: (Queue, seq<Completion>, Outcome)) {
    if q.capacity == 0 then (q, [], EINVAL)
    else
      var n := Min(max, ReadyPrefix(q.entries));
      (q.(entries := q.entries[n..]), Completions(q.entries[..n]), Pass)
  }

  ghost predicate Sane(q: Queue) {
    && q.capacity <= ORDER_MAX && |q.entries| <= q.capacity
    && forall i, j :: 0 <= i < j < |q.entries| ==> q.entries[i].opId != q.entries[j].opId
  }

  // ---------------------------------------------------------------- the C ring

  datatype Slot = Slot(opId: u32, status: u8, occupied: bool, ready: bool)

  const EMPTY_SLOT: Slot := Slot(0, 0, false, false)

  function Seat(e: Entry): Slot {
    match e.mark
    case Some(s) => Slot(e.opId, s, true, true)
    case None => Slot(e.opId, 0, true, false)
  }

  /** struct tbv_rel_order_queue, updated in place. */
  class OrderRing {
    var capacity: nat
    var head: nat
    var count: nat
    const slots: array<Slot>
    ghost var entries: seq<Entry>

    ghost function Value(): Queue
      reads this
    {
      Queue(capacity, entries)
    }

    ghost predicate Valid()
      reads this, slots
    {
      && slots.Length == ORDER_MAX && Sane(Value()) && count == |entries|
      && (capacity > 0 ==> head < capacity)
      && forall i :: 0 <= i < count ==> slots[Wrap(head, i, capacity)] == Seat(entries[i])
    }

    constructor ()
      ensures Valid() && fresh(slots) && Value() == Queue(0, [])
    {
      slots := new Slot[128](i => EMPTY_SLOT);
      capacity, head, count, entries := 0, 0, 0, [];
    }

    method Init(capacity: nat) returns (r: Outcome)
      requires Valid()
      modifies this, slots
      ensures Valid()
      ensures r == if capacity == 0 || capacity > ORDER_MAX then EINVAL else Pass
      ensures Value() == if r == Pass then Queue(capacity, []) else old(Value())
    {
      if capacity == 0 || capacity > ORDER_MAX {
        return EINVAL;
      }
      forall i | 0 <= i < slots.Length {
        slots[i] := EMPTY_SLOT;
      }
      this.capacity, head, count, entries := capacity, 0, 0, [];
      return Pass;
    }

    /** The scan both push and mark make over the occupied part of the ring. */
    method Scan(opId: u32) returns (i: nat)
      requires Valid() && capacity > 0
      ensures i == Find(entries, opId)
    {
      i := 0;
      while i < count
        invariant 0 <= i <= count
        invariant forall k :: 0 <= k < i ==> entries[k].opId != opId
      {
        var p := Index(head, i, capacity);
        if slots[p].occupied && slots[p].opId == opId {
          return;
        }
        i := i + 1;
      }
    }

    method PushOp(opId: u32) returns (r: Outcome)
      requires Valid()
      modifies this, slots
      ensures Valid()
      ensures (Value(), r) == Push(old(Value()), opId)
    {
      if capacity == 0 {
        return EINVAL;
      }
      if count == capacity {
        return ENOSPC;
      }
      var i := Scan(opId);
      if i < count {
        return EEXIST;
      }
      var p := Index(head, count, capacity);
      slots[p] := Slot(opId, 0, true, false);
      entries := entries + [Entry(opId, None)];
      count := count + 1;
      return Pass;
    }

    method MarkOp(opId: u32, status: u8) returns (r: Outcome)
      requires Valid()
      modifies this, slots
      ensures Valid()
      ensures (Value(), r) == Mark(old(Value()), opId, status)
    {
      if capacity == 0 {
        return EINVAL;
      }
      var i := Scan(opId);
      if i == count {
        return ENOENT;
      }
      var p := Index(head, i, capacity);
      assert slots[p] == Seat(entries[i]);
      if slots[p].ready {
        return if slots[p].status == status then Pass else EALREADY;
      }
      slots[p] := slots[p].(ready := true, status := status);
      entries := entries[i := Entry(opId, Some(status))];
      return Pass;
    }

    method FlushAll(status: u8) returns (r: Outcome)
      requires Valid()
      modifies this`entries, slots
      ensures Valid()
      ensures (Value(), r) == Flush(old(Value()), status)
    {
      if capacity == 0 {
        return EINVAL;
      }
      ghost var was := entries;
      var i := 0;
      while i < count
        invariant 0 <= i <= count == |was| == |entries|
        invariant forall k :: 0 <= k < i ==> entries[k] == Fill(was[k], status)
        invariant forall k :: i <= k < count ==> entries[k] == was[k]
        invariant Valid()
      {
        var p := Index(head, i, capacity);
        assert slots[p] == Seat(entries[i]);
        if !slots[p].ready {
          slots[p] := slots[p].(ready := true, status := status);
        }
        entries := entries[i := Fill(entries[i], status)];
        i := i + 1;
      }
      assert entries == Flush(Queue(capacity, was), status).0.entries;
      return Pass;
    }

    /** One turn of the drain loop: the head leaves the ring. */
    method PopHead() returns (c: Completion)
      requires Valid() && count > 0 && entries[0].mark.Some?
      modifies this, slots
      ensures Valid() && capacity == old(capacity)
      ensures entries == old(entries)[1..]
      ensures c == Completion(old(entries)[0].opId, old(entries)[0].mark.value)
    {
      HeadSeat();
      c := Completion(slots[head].opId, slots[head].status);
      slots[head] := EMPTY_SLOT;
      WrapShift(head, capacity);
      head := Index(head, 1, capacity);
      entries := entries[1..];
      count := count - 1;
    }

    method HeadWaits() returns (waiting: bool)
      requires Valid() && count > 0
      ensures capacity > 0 && waiting == entries[0].mark.None?
    {
      HeadSeat();
      waiting := !slots[head].occupied || !slots[head].ready;
    }

    /** The drain loop. */
    method Collect(max: nat) returns (out: seq<Completion>)
      requires Valid() && capacity > 0
      modifies this, slots
      ensures Valid() && capacity == old(capacity)
      ensures |out| <= max && |out| <= ReadyPrefix(old(entries)) && entries == old(entries)[|out|..]
      ensures |out| < max && entries != [] ==> entries[0].mark.None?
      ensures forall i :: 0 <= i < |out| ==> out[i] == Completion(old(entries)[i].opId, old(entries)[i].mark.value)
    {
      hide Wrap;
      hide Seat;
      hide Sane;
      hide ReadyPrefix;
      out := [];
      ghost var was := entries;
      while count > 0 && |out| < max
        invariant Valid() && capacity == old(capacity)
        invariant |out| <= max && |out| <= ReadyPrefix(was) && entries == was[|out|..]
        invariant forall i :: 0 <= i < |out| ==> out[i] == Completion(was[i].opId, was[i].mark.value)
      {
        var waiting := HeadWaits();
        if waiting {
          return;
        }
        var c := PopHead();
        out := out + [c];
      }
    }

    lemma HeadSeat()
      requires Valid() && count > 0
      ensures capacity > 0 && slots[head] == Seat(entries[0])
    {
      assert Wrap(head, 0, capacity) == head;
    }

    method DrainOps(max: nat) returns (out: seq<Completion>, r: Outcome)
      requires Valid()
      modifies this, slots
      ensures Valid()
      ensures (Value(), out, r) == Drain(old(Value()), max)
    {
      if capacity == 0 {
        return [], EINVAL;
      }
      out := Collect(max);
      if count == 0 {
        head := 0;
      }
      assert out == Completions(old(entries)[..|out|]);
      return out, Pass;
    }
  }

  // ---------------------------------------------------------------- every run

  datatype Event = Pushed(opId: u32) | Marked(opId: u32, status: u8) | Flushed(status: u8) | Drained(max: nat)

  /** What the outside has seen: the accepted pushes in order, every status ever offered for each of
      them by a mark or a flush that reached it in the queue, and the completions drained so far. */
  datatype Trace = Trace(q: Queue, pushed: seq<u32>, offers: seq<seq<u8>>, drained: seq<Completion>)

  function Step(t: Trace, e: Event): (r: Trace)
    requires |t.offers| == |t.pushed| == |t.drained| + |t.q.entries|
  {
    match e
    case Pushed(opId) =>
      var (q, ok) := Push(t.q, opId);
      if ok == Pass then t.(q := q, pushed := t.pushed + [opId], offers := t.offers + [[]]) else t
    case Marked(opId, status) =>
      var i := Find(t.q.entries, opId);
      var q := Mark(t.q, opId, status).0;
      if i == |t.q.entries| then t.(q := q)
      else t.(q := q, offers := t.offers[|t.drained| + i := t.offers[|t.drained| + i] + [status]])
    case Flushed(status) =>
      t.(q := Flush(t.q, status).0,
         offers := seq(|t.offers|, k requires 0 <= k < |t.offers| =>
           if k < |t.drained| then t.offers[k] else t.offers[k] + [status]))
    case Drained(max) =>
      var (q, out, ok) := Drain(t.q, max);
      t.(q := q, drained := t.drained + out)
  }

  /** The k-th drained completion is the k-th push, with the first status offered to it. */
  ghost predicate DrainedGood(t: Trace) {
    forall k :: 0 <= k < |t.drained| ==>
      && k < |t.pushed| && k < |t.offers|
      && t.drained[k].opId == t.pushed[k] && t.offers[k] != [] && t.drained[k].status == t.offers[k][0]
  }

  /** The entry of a push carries the first status offered to it, if any was. */
  ghost predicate EntryGood(e: Entry, opId: u32, offers: seq<u8>) {
    e.opId == opId && e.mark == if offers == [] then None else Some(offers[0])
  }

  ghost predicate Inv(t: Trace) {
    && Sane(t.q) && t.q.capacity > 0
    && |t.offers| == |t.pushed| == |t.drained| + |t.q.entries|
    && DrainedGood(t)
    && forall k :: |t.drained| <= k < |t.pushed| ==> EntryGood(t.q.entries[k - |t.drained|], t.pushed[k], t.offers[k])
  }

  lemma PushKeeps(t: Trace, opId: u32)
    requires Inv(t)
    ensures Inv(Step(t, Pushed(opId)))
  {
  }

  lemma MarkKeeps(t: Trace, opId: u32, status: u8)
    requires Inv(t)
    ensures Inv(Step(t, Marked(opId, status)))
  {
    var i := Find(t.q.entries, opId);
    if i < |t.q.entries| {
      assert EntryGood(t.q.entries[i], t.pushed[|t.drained| + i], t.offers[|t.drained| + i]);
    }
  }

  lemma FlushKeeps(t: Trace, status: u8)
    requires Inv(t)
    ensures Inv(Step(t, Flushed(status)))
  {
    var r := Step(t, Flushed(status));
    assert forall i :: 0 <= i < |r.q.entries| ==> r.q.entries[i] == Fill(t.q.entries[i], status);
    forall k | |t.drained| <= k < |t.pushed|
      ensures EntryGood(r.q.entries[k - |t.drained|], r.pushed[k], r.offers[k])
    {
      assert EntryGood(t.q.entries[k - |t.drained|], t.pushed[k], t.offers[k]);
    }
  }

  lemma DrainKeeps(t: Trace, max: nat)
    requires Inv(t)
    ensures Inv(Step(t, Drained(max)))
  {
    var r := Step(t, Drained(max));
    var n := Min(max, ReadyPrefix(t.q.entries));
    forall k | 0 <= k < |r.drained|
      ensures r.drained[k].opId == t.pushed[k] && t.offers[k] != [] && r.drained[k].status == t.offers[k][0]
    {
      if k >= |t.drained| {
        assert EntryGood(t.q.entries[k - |t.drained|], t.pushed[k], t.offers[k]);
      }
    }
    forall k | |r.drained| <= k < |t.pushed|
      ensures EntryGood(r.q.entries[k - |r.drained|], r.pushed[k], r.offers[k])
    {
      assert r.q.entries[k - |r.drained|] == t.q.entries[k - |t.drained|];
    }
  }

  lemma StepKeeps(t: Trace, e: Event)
    requires Inv(t)
    ensures Inv(Step(t, e))
  {
    match e
    case Pushed(opId) => PushKeeps(t, opId);
    case Marked(opId, status) => MarkKeeps(t, opId, status);
    case Flushed(status) => FlushKeeps(t, status);
    case Drained(max) => DrainKeeps(t, max);
  }

  function Run(capacity: nat, events: seq<Event>): (r: Trace)
    requires 0 < capacity <= ORDER_MAX
    ensures Inv(r)
  {
    if events == [] then Trace(Queue(capacity, []), [], [], [])
    else
      var t := Run(capacity, events[..|events| - 1]);
      StepKeeps(t, events[|events| - 1]);
      Step(t, events[|events| - 1])
  }

  /** Over any run the drained operations are a prefix of the pushed ones, in order and each once,
      with the first status that a mark or flush offered. */
  lemma DrainedIsPushedPrefix(capacity: nat, events: seq<Event>)
    requires 0 < capacity <= ORDER_MAX
    ensures var t := Run(capacity, events); |t.drained| <= |t.pushed| == |t.offers| && DrainedGood(t)
  {
    assert Inv(Run(capacity, events));
  }

  /** A drain stops only at max, at the end of the queue, or at an operation never marked: nothing
      ready is held back and nothing unready is let through. */
  lemma DrainIsMaximal(q: Queue, max: nat)
    requires q.capacity > 0
    ensures var (r, out, ok) := Drain(q, max);
            && |out| <= max && |out| + |r.entries| == |q.entries|
            && (|out| < max && r.entries != [] ==> r.entries[0].mark.None?)
  {
  }

  /** In any run an operation is accepted exactly when the ring has room and does not hold it; otherwise nothing
      changes and the answer tells why. */
  lemma PushesExactly(capacity: nat, events: seq<Event>, opId: u32)
    requires 0 < capacity <= ORDER_MAX
    ensures var q := Run(capacity, events).q;
            var held := exists i :: 0 <= i < |q.entries| && q.entries[i].opId == opId;
            var (p, answer) := Push(q, opId);
            && (answer == Pass <==> |q.entries| < q.capacity && !held)
            && (answer == Pass ==> p.entries == q.entries + [Entry(opId, None)] && p.capacity == q.capacity)
            && (answer != Pass ==> p == q && answer == if |q.entries| == q.capacity then ENOSPC else EEXIST)
  {
    assert Inv(Run(capacity, events));
    hide Run;
  }

  /** In any run a mark takes exactly when the operation is held without one, or with this one; otherwise nothing
      changes and the answer tells why. */
  lemma MarksExactly(capacity: nat, events: seq<Event>, i: nat, opId: u32, status: u8)
    requires 0 < capacity <= ORDER_MAX
    requires var q := Run(capacity, events).q; i < |q.entries| && q.entries[i].opId == opId
    ensures var q := Run(capacity, events).q;
            var e := q.entries[i];
            var (m, answer) := Mark(q, opId, status);
            && answer == (if e.mark.None? || e.mark == Some(status) then Pass else EALREADY)
            && m == (if e.mark.None? then q.(entries := q.entries[i := Entry(opId, Some(status))]) else q)
  {
    assert Inv(Run(capacity, events));
    hide Run;
  }

  /** A mark of an operation that is not held is answered so. */
  lemma UnknownNotMarked(capacity: nat, events: seq<Event>, opId: u32, status: u8)
    requires 0 < capacity <= ORDER_MAX
    requires var q := Run(capacity, events).q; forall i :: 0 <= i < |q.entries| ==> q.entries[i].opId != opId
    ensures Mark(Run(capacity, events).q, opId, status) == (Run(capacity, events).q, ENOENT)
  {
    assert Inv(Run(capacity, events));
    hide Run;
  }
}
