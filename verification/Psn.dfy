/** 24-bit packet sequence numbers compared by serial arithmetic (kernel/ibdev.c), and the unbounded
    numbers they stand for. */
module Psn {
  import opened Prelude

  const PSN_MOD: int := 0x100_0000
  const HALF: int := 0x80_0000

  type psn = x: int | 0 <= x < PSN_MOD

  /** tbv_psn_next: 32-bit increment under the 24-bit mask. */
  function PsnNext(p: u32): psn {
    Add32(p, 1) % PSN_MOD
  }

  /** tbv_psn_delta: the masked 32-bit difference, sign-extended from bit 23. */
  function PsnDelta(a: u32, b: u32): (r: int)
    ensures -HALF <= r < HALF
  {
    var delta := (a - b) % U32_MOD % PSN_MOD;
    if delta / HALF % 2 == 1 then delta - PSN_MOD else delta
  }

  /** The PSN of the message with an unbounded number. */
  function PsnOf(n: int): psn {
    n % PSN_MOD
  }

  /** The number a PSN is taken to mean when the expected number is `expected`. */
  function NumberOf(expected: int, p: psn): int {
    expected + PsnDelta(p, PsnOf(expected))
  }

  lemma NextExact(n: int)
    ensures PsnNext(PsnOf(n)) == PsnOf(n + 1)
  {
  }

  /** Masking the wrapped 32-bit difference gives the difference modulo 2^24. */
  lemma MaskedDifference(x: int)
    ensures x % U32_MOD % PSN_MOD == x % PSN_MOD
  {
    var q := x / U32_MOD;
    assert x == q * 256 * PSN_MOD + x % U32_MOD;
    ModShift(x % U32_MOD, q * 256);
  }

  lemma {:induction false} ModShift(x: int, k: int)
    ensures (k * PSN_MOD + x) % PSN_MOD == x % PSN_MOD
  {
    var r, s := (k * PSN_MOD + x) % PSN_MOD, x % PSN_MOD;
    var a, b := (k * PSN_MOD + x) / PSN_MOD, x / PSN_MOD;
    assert r - s == (k - a + b) * PSN_MOD;
  }

  lemma DifferenceMod(n: int, m: int)
    ensures (PsnOf(n) - PsnOf(m)) % PSN_MOD == (n - m) % PSN_MOD
  {
    var a, b := n / PSN_MOD, m / PSN_MOD;
    ModShift(n - m, b - a);
    assert (b - a) * PSN_MOD + (n - m) == PsnOf(n) - PsnOf(m);
  }

  /** Serial arithmetic gives the true distance exactly when the numbers lie within half the PSN space. */
  lemma DeltaExact(n: int, m: int)
    ensures PsnDelta(PsnOf(n), PsnOf(m)) == n - m <==> -HALF <= n - m < HALF
  {
    MaskedDifference(PsnOf(n) - PsnOf(m));
    DifferenceMod(n, m);
    var d := n - m;
    if -HALF <= d < 0 {
      ModShift(d, 1);
      assert (1 * PSN_MOD + d) % PSN_MOD == PSN_MOD + d;
    }
  }

  /** The number a PSN is taken to mean has that PSN and is the only such number within reach. */
  lemma NumberExact(expected: int, p: psn)
    ensures PsnOf(NumberOf(expected, p)) == p
    ensures -HALF <= NumberOf(expected, p) - expected < HALF
    ensures forall n :: PsnOf(n) == p && -HALF <= n - expected < HALF ==> n == NumberOf(expected, p)
  {
    var e := PsnOf(expected);
    MaskedDifference(p - e);
    var q := expected / PSN_MOD;
    assert expected == q * PSN_MOD + e;
    var d := PsnDelta(p, e);
    ModShift(p, 0);
    if p - e < 0 {
      ModShift(p - e, 1);
    }
    assert exists k :: -1 <= k <= 1 && NumberOf(expected, p) == k * PSN_MOD + q * PSN_MOD + p by {
      if d == p - e {
        assert NumberOf(expected, p) == 0 * PSN_MOD + q * PSN_MOD + p;
      } else if d == p - e + PSN_MOD {
        assert NumberOf(expected, p) == 1 * PSN_MOD + q * PSN_MOD + p;
      } else {
        assert NumberOf(expected, p) == -1 * PSN_MOD + q * PSN_MOD + p;
      }
    }
    var k :| -1 <= k <= 1 && NumberOf(expected, p) == k * PSN_MOD + q * PSN_MOD + p;
    ModShift(p, k + q);
    forall n | PsnOf(n) == p && -HALF <= n - expected < HALF ensures n == NumberOf(expected, p) {
      DeltaExact(n, expected);
    }
  }

  /** Numbers closer than the whole PSN space have equal PSNs only if they are equal. */
  lemma SamePsn(n: int, m: int)
    requires PsnOf(n) == PsnOf(m) && -PSN_MOD < n - m < PSN_MOD
    ensures n == m
  {
    DifferenceMod(n, m);
  }
}
