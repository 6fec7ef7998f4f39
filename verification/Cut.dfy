/** Cutting a message into fragments of at most `maxPayload` bytes: the arithmetic that the
    reliability core (proto/reliability.c) and the native data path (proto/native_data.h) share. */
module Cut {
  import opened Prelude

  lemma MulSucc(n: nat, m: nat)
    ensures (n + 1) * m == m + n * m
  {
  }

  lemma MulMono(a: nat, b: nat, m: nat)
    requires a <= b
    ensures a * m <= b * m
  {
  }

  lemma DivBounds(a: nat, b: nat)
    requires b > 0
    ensures a / b * b <= a < (a / b + 1) * b
  {
  }

  /** Ceiling division over the mathematical integers; an empty message is one fragment. */
  function FrameCount(totalLen: nat, maxPayload: nat): (r: nat)
    requires maxPayload > 0
    ensures r >= 1
    ensures totalLen > 0 ==> (r - 1) * maxPayload < totalLen <= r * maxPayload
  {
    if totalLen == 0 then 1
    else
      DivBounds(totalLen + maxPayload - 1, maxPayload);
      (totalLen + maxPayload - 1) / maxPayload
  }

  /** The bytes of fragment i. */
  function FragLen(totalLen: nat, maxPayload: nat, i: nat): (r: nat)
    requires maxPayload > 0
  {
    if totalLen <= i * maxPayload then 0
    else if totalLen - i * maxPayload > maxPayload then maxPayload
    else totalLen - i * maxPayload
  }

  /** The 32-bit sum in the source's ceiling division loses its carry. */
  predicate SumWraps(totalLen: u32, maxPayload: u32) {
    totalLen > 0 && totalLen + maxPayload - 1 >= U32_MOD
  }

  /** When the 32-bit sum wraps, the quotient is 0; otherwise it is the mathematical count. */
  lemma WrappedCount(totalLen: u32, maxPayload: u32)
    requires totalLen > 0 && maxPayload > 0
    ensures Add32(totalLen, maxPayload - 1) / maxPayload
            == if SumWraps(totalLen, maxPayload) then 0 else FrameCount(totalLen, maxPayload)
  {
    if SumWraps(totalLen, maxPayload) {
      assert Add32(totalLen, maxPayload - 1) < maxPayload;
    }
  }

  /** A fragment lies inside the message, and only the last one may be short. */
  lemma FragFits(totalLen: nat, maxPayload: nat, i: nat)
    requires maxPayload > 0 && i < FrameCount(totalLen, maxPayload)
    ensures 0 <= i * maxPayload <= i * maxPayload + FragLen(totalLen, maxPayload, i) <= totalLen
    ensures i < FrameCount(totalLen, maxPayload) - 1 ==> FragLen(totalLen, maxPayload, i) == maxPayload
    ensures i == FrameCount(totalLen, maxPayload) - 1 ==> i * maxPayload + FragLen(totalLen, maxPayload, i) == totalLen
    ensures totalLen > 0 ==> FragLen(totalLen, maxPayload, i) > 0
  {
    var n := FrameCount(totalLen, maxPayload);
    MulSucc(i, maxPayload);
    MulMono(i, n - 1, maxPayload);
    if i < n - 1 {
      MulMono(i + 1, n - 1, maxPayload);
    } else {
      MulSucc(n - 1, maxPayload);
    }
  }

  /** A multiple of maxPayload below the total names one fragment. */
  lemma IndexOf(totalLen: nat, maxPayload: nat, offset: nat)
    requires maxPayload > 0 && offset % maxPayload == 0 && offset < totalLen
    ensures offset / maxPayload * maxPayload == offset
    ensures offset / maxPayload < FrameCount(totalLen, maxPayload)
  {
    var n := FrameCount(totalLen, maxPayload);
    var i := offset / maxPayload;
    assert i * maxPayload == offset;
    if i >= n {
      MulMono(n, i, maxPayload);
    }
  }

  /** The lengths of the first k fragments. */
  function SumLens(totalLen: nat, maxPayload: nat, k: nat): (r: nat)
    requires maxPayload > 0
  {
    if k == 0 then 0 else SumLens(totalLen, maxPayload, k - 1) + FragLen(totalLen, maxPayload, k - 1)
  }

  /** A pass tiles the message: fragment k starts where the earlier ones end, and all of them
      together are the whole message. */
  lemma {:induction false} PassTiles(totalLen: nat, maxPayload: nat, k: nat)
    requires maxPayload > 0 && k <= FrameCount(totalLen, maxPayload)
    ensures k < FrameCount(totalLen, maxPayload) ==> SumLens(totalLen, maxPayload, k) == k * maxPayload
    ensures k == FrameCount(totalLen, maxPayload) ==> SumLens(totalLen, maxPayload, k) == totalLen
  {
    if k > 0 {
      PassTiles(totalLen, maxPayload, k - 1);
      MulSucc(k - 1, maxPayload);
      FragFits(totalLen, maxPayload, k - 1);
    }
  }

  /** Bytes of the fragments below k that have been seen. */
  function SeenLen(totalLen: nat, maxPayload: nat, seen: set<nat>, k: nat): (r: nat)
    requires maxPayload > 0
  {
    if k == 0 then 0
    else SeenLen(totalLen, maxPayload, seen, k - 1) + if k - 1 in seen then FragLen(totalLen, maxPayload, k - 1) else 0
  }

  lemma {:induction false} SeenLenAdd(totalLen: nat, maxPayload: nat, seen: set<nat>, i: nat, k: nat)
    requires maxPayload > 0 && i !in seen
    ensures SeenLen(totalLen, maxPayload, seen + {i}, k)
         == SeenLen(totalLen, maxPayload, seen, k) + if i < k then FragLen(totalLen, maxPayload, i) else 0
  {
    if k > 0 {
      SeenLenAdd(totalLen, maxPayload, seen, i, k - 1);
    }
  }

  lemma {:induction false} SeenLenBound(totalLen: nat, maxPayload: nat, seen: set<nat>, k: nat)
    requires maxPayload > 0
    ensures SeenLen(totalLen, maxPayload, seen, k) <= SumLens(totalLen, maxPayload, k)
    ensures (forall i: nat :: i < k ==> i in seen) ==>
              SeenLen(totalLen, maxPayload, seen, k) == SumLens(totalLen, maxPayload, k)
    ensures (forall i :: i in seen ==> i >= k) ==> SeenLen(totalLen, maxPayload, seen, k) == 0
  {
    if k > 0 {
      SeenLenBound(totalLen, maxPayload, seen, k - 1);
    }
  }
}
