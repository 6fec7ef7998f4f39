/** The 1024-slot history of statuses already sent for consumed PSNs (kernel/ibdev.c), against the
    unbounded log it stands for. */
module AckHistory {
  import opened Prelude
  import opened Psn

  const HISTORY_SIZE: nat := 1024

  datatype AckStatus = AckOk | AckError | AckRnr

  /** The status recorded for number n, if it is one of the last 1024 consumed. The log starts at `first`. */
  function Recall(first: int, log: seq<AckStatus>, n: int): Option<AckStatus> {
    var end := first + |log|;
    if first <= n < end && end - HISTORY_SIZE <= n then Some(log[n - first]) else None
  }

  /** The answer to a duplicate: the recorded status, or success once it is forgotten. */
  function Answer(first: int, log: seq<AckStatus>, n: int): AckStatus {
    var status := Recall(first, log, n);
    if status.Some? then status.value else AckOk
  }

  /** Duplicates of the last 1024 consumed numbers get the status first recorded for them; all duplicates
      do exactly if no forgotten status was other than success. */
  lemma AnswerExact(first: int, log: seq<AckStatus>)
    ensures forall k :: 0 <= k < |log| && k >= |log| - HISTORY_SIZE ==> Answer(first, log, first + k) == log[k]
    ensures (forall k :: 0 <= k < |log| ==> Answer(first, log, first + k) == log[k])
       <==> (forall k :: 0 <= k < |log| - HISTORY_SIZE ==> log[k] == AckOk)
  {
    forall k | 0 <= k < |log|
      ensures Answer(first, log, first + k) == log[k] <==> k >= |log| - HISTORY_SIZE || log[k] == AckOk
    {
    }
  }

  /** What is recorded stays recorded: consuming more numbers changes no answer until it is forgotten. */
  lemma {:induction false} AnswerStays(first: int, log: seq<AckStatus>, more: seq<AckStatus>, n: int)
    requires first <= n < first + |log| && n >= first + |log| + |more| - HISTORY_SIZE
    ensures Answer(first, log + more, n) == Answer(first, log, n) == log[n - first]
  {
  }

  datatype Entry = Entry(valid: bool, psn: psn, status: AckStatus)

  /** The last number below `end` in slot r. */
  function Latest(end: int, r: int): (n: int)
    requires 0 <= r < HISTORY_SIZE
    ensures end - HISTORY_SIZE <= n < end
  {
    end - 1 - (end - 1 - r) % HISTORY_SIZE
  }

  lemma {:induction false} Mod1024(x: int, k: int)
    ensures (k * HISTORY_SIZE + x) % HISTORY_SIZE == x % HISTORY_SIZE
  {
    var r, s := (k * HISTORY_SIZE + x) % HISTORY_SIZE, x % HISTORY_SIZE;
    var a, b := (k * HISTORY_SIZE + x) / HISTORY_SIZE, x / HISTORY_SIZE;
    assert r - s == (k - a + b) * HISTORY_SIZE;
  }

  /** `Latest` is in its slot, and is the only number of that slot among the last 1024. */
  lemma LatestExact(end: int, r: int)
    requires 0 <= r < HISTORY_SIZE
    ensures Latest(end, r) % HISTORY_SIZE == r
    ensures forall n :: n % HISTORY_SIZE == r && end - HISTORY_SIZE <= n < end ==> n == Latest(end, r)
  {
    var x := end - 1 - r;
    var q := x / HISTORY_SIZE;
    assert Latest(end, r) == q * HISTORY_SIZE + r;
    Mod1024(r, q);
    forall n | n % HISTORY_SIZE == r && end - HISTORY_SIZE <= n < end ensures n == Latest(end, r) {
      var p := n / HISTORY_SIZE;
      assert n - Latest(end, r) == (p - q) * HISTORY_SIZE;
    }
  }

  /** The slot of a PSN is the slot of every number with that PSN. */
  lemma SlotOfPsn(n: int)
    ensures PsnOf(n) % HISTORY_SIZE == n % HISTORY_SIZE
  {
    var q := n / PSN_MOD;
    assert n == q * 16384 * HISTORY_SIZE + PsnOf(n);
    Mod1024(PsnOf(n), q * 16384);
  }

  /** Consuming one more number moves only its own slot. */
  lemma LatestMoves(end: int, r: int)
    requires 0 <= r < HISTORY_SIZE
    ensures Latest(end + 1, r) == if r == end % HISTORY_SIZE then end else Latest(end, r)
  {
    LatestExact(end, r);
    LatestExact(end + 1, r);
  }

  /** ack_history of struct tbv_qp. */
  class History {
    const slots: array<Entry>
    ghost const first: int
    ghost var log: seq<AckStatus>

    ghost predicate SlotValid(r: int)
      requires 0 <= r < HISTORY_SIZE == slots.Length
      reads this, slots
    {
      var n := Latest(first + |log|, r);
      if n < first then !slots[r].valid else slots[r] == Entry(true, PsnOf(n), log[n - first])
    }

    ghost predicate Valid()
      reads this, slots
    {
      slots.Length == HISTORY_SIZE && forall r :: 0 <= r < HISTORY_SIZE ==> SlotValid(r)
    }

    constructor (ghost start: int)
      ensures Valid() && fresh(slots) && first == start && log == []
    {
      slots := new Entry[HISTORY_SIZE](_ => Entry(false, 0, AckOk));
      first, log := start, [];
    }

    /** tbv_qp_ack_history_store_locked for the PSN just consumed. */
    method Store(p: psn, status: AckStatus)
      requires Valid() && p == PsnOf(first + |log|)
      modifies this`log, slots
      ensures Valid() && log == old(log) + [status]
    {
      ghost var end := first + |log|;
      SlotOfPsn(end);
      slots[p % HISTORY_SIZE] := Entry(true, p, status);
      log := log + [status];
      forall r | 0 <= r < HISTORY_SIZE ensures SlotValid(r) {
        LatestMoves(end, r);
        assert old(SlotValid(r));
      }
    }

    /** tbv_qp_ack_history_lookup_locked. A duplicate, whatever wraps happened since, is found exactly
        when it is one of the last 1024 consumed, with the status recorded for it. */
    method Lookup(ghost n: int, p: psn) returns (found: Option<AckStatus>)
      requires Valid() && p == PsnOf(n) && -HALF <= n - (first + |log|) < 0
      ensures found == Recall(first, log, n)
    {
      ghost var end := first + |log|;
      SlotOfPsn(n);
      LatestExact(end, p % HISTORY_SIZE);
      ghost var m := Latest(end, p % HISTORY_SIZE);
      assert SlotValid(p % HISTORY_SIZE);
      if PsnOf(m) == PsnOf(n) {
        SamePsn(m, n);
      }
      var entry := slots[p % HISTORY_SIZE];
      found := if !entry.valid || entry.psn != p then None else Some(entry.status);
    }

    /** tbv_rx_reack_duplicate_locked, given the expected PSN: nothing for a PSN that is not behind it. */
    method Reack(ghost n: int, p: psn, expected: psn) returns (reply: Option<AckStatus>)
      requires Valid() && expected == PsnOf(first + |log|) && n == NumberOf(first + |log|, p)
      ensures reply == if n >= first + |log| then None else Some(Answer(first, log, n))
    {
      NumberExact(first + |log|, p);
      if PsnDelta(p, expected) >= 0 {
        return None;
      }
      var found := Lookup(n, p);
      return Some(if found.Some? then found.value else AckOk);
    }
  }
}
