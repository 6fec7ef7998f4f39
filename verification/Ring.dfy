/** Positions in a ring array. */
module Ring {
  import Cut

  /** Ring position `offset` places after `head`. */
  function Wrap(head: nat, offset: nat, capacity: nat): (r: nat)
    requires head < capacity && offset <= capacity
    ensures r < capacity
  {
    if head + offset < capacity then head + offset else head + offset - capacity
  }

  lemma WrapIsMod(head: nat, offset: nat, capacity: nat)
    requires head < capacity && offset <= capacity
    ensures (head + offset) % capacity == Wrap(head, offset, capacity)
  {
    var x := head + offset;
    var q := x / capacity;
    Cut.DivBounds(x, capacity);
    assert x == q * capacity + x % capacity;
    if q >= 2 {
      Cut.MulMono(2, q, capacity);
    }
  }

  method Index(head: nat, offset: nat, capacity: nat) returns (r: nat)
    requires head < capacity && offset <= capacity
    ensures r == Wrap(head, offset, capacity)
  {
    WrapIsMod(head, offset, capacity);
    r := (head + offset) % capacity;
  }

  lemma WrapShift(head: nat, capacity: nat)
    requires head < capacity
    ensures forall i: nat {:trigger Wrap(Wrap(head, 1, capacity), i, capacity)} ::
              i < capacity ==> Wrap(Wrap(head, 1, capacity), i, capacity) == Wrap(head, i + 1, capacity)
  {
  }
}
