/** Bitmaps as natural numbers: `b & (1 << i)` and `b | (1 << i)` read off the binary digits. */
module Bits {
  predicate TestBit(b: nat, i: nat) {
    if i == 0 then b % 2 == 1 else TestBit(b / 2, i - 1)
  }

  function SetBit(b: nat, i: nat): nat {
    if i == 0 then (if b % 2 == 1 then b else b + 1) else 2 * SetBit(b / 2, i - 1) + b % 2
  }

  /** Setting bit i makes it readable and leaves the other bits. */
  lemma {:induction false} SetBitReads(b: nat, i: nat, j: nat)
    ensures TestBit(SetBit(b, i), j) <==> i == j || TestBit(b, j)
  {
    var s := SetBit(b, i);
    if i > 0 {
      assert s / 2 == SetBit(b / 2, i - 1) && s % 2 == b % 2;
    } else {
      assert s / 2 == b / 2;
    }
    if i > 0 && j > 0 {
      SetBitReads(b / 2, i - 1, j - 1);
    }
  }

  lemma {:induction false} ZeroReads(i: nat)
    ensures !TestBit(0, i)
  {
    if i > 0 {
      ZeroReads(i - 1);
    }
  }

  /** The set a bitmap of n bits stands for. */
  ghost function Members(b: nat, n: nat): (r: set<nat>) {
    set i: nat | i < n && TestBit(b, i)
  }

  lemma MembersZero(n: nat)
    ensures Members(0, n) == {}
  {
    forall i: nat | i < n ensures !TestBit(0, i) { ZeroReads(i); }
  }

  lemma MembersSet(b: nat, i: nat, n: nat)
    requires i < n
    ensures Members(SetBit(b, i), n) == Members(b, n) + {i}
    ensures TestBit(b, i) <==> i in Members(b, n)
  {
    forall j: nat | j < n ensures TestBit(SetBit(b, i), j) <==> i == j || TestBit(b, j) {
      SetBitReads(b, i, j);
    }
  }

  /** A set of indices below n has at most n members, and n of them only when it holds them all. */
  lemma {:induction false} BoundedSet(s: set<nat>, n: nat)
    requires forall i :: i in s ==> i < n
    ensures |s| <= n
    ensures |s| == n ==> forall i: nat :: i < n ==> i in s
  {
    if n > 0 {
      BoundedSet(s - {n - 1}, n - 1);
    } else {
      assert s == {};
    }
  }
}
