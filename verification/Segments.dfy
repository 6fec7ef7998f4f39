/** Scatter/gather lists of kernel/ibdev.c: a list of memory segments read or written as one
    contiguous byte range. Memory regions are byte sequences. */
module Segments {
  import opened Prelude

  function Concat(segs: seq<seq<u8>>): (r: seq<u8>) {
    if segs == [] then [] else Concat(segs[..|segs| - 1]) + segs[|segs| - 1]
  }

  /** Where segment i starts. */
  function Start(segs: seq<seq<u8>>, i: nat): nat
    requires i <= |segs|
  {
    if i == 0 then 0 else Start(segs, i - 1) + |segs[i - 1]|
  }

  /** Overwrite part of a byte range; what falls beyond its end is lost. */
  function Patch(all: seq<u8>, offset: nat, data: seq<u8>): (r: seq<u8>)
    ensures |r| == |all|
    ensures forall k :: 0 <= k < |r| ==> r[k] == if offset <= k < offset + |data| then data[k - offset] else all[k]
  {
    seq(|all|, k requires 0 <= k < |all| => if offset <= k < offset + |data| then data[k - offset] else all[k])
  }

  lemma {:induction false} StartOfPrefix(segs: seq<seq<u8>>, n: nat, i: nat)
    requires i <= n <= |segs|
    ensures Start(segs[..n], i) == Start(segs, i)
  {
    if i > 0 {
      StartOfPrefix(segs, n, i - 1);
    }
  }

  lemma {:induction false} TotalLength(segs: seq<seq<u8>>)
    ensures |Concat(segs)| == Start(segs, |segs|)
  {
    if segs != [] {
      var last := |segs| - 1;
      StartOfPrefix(segs, last, last);
      TotalLength(segs[..last]);
    }
  }

  lemma {:induction false} StartMonotone(segs: seq<seq<u8>>, i: nat, j: nat)
    requires i <= j <= |segs|
    ensures Start(segs, i) <= Start(segs, j)
  {
    if i < j {
      StartMonotone(segs, i, j - 1);
    }
  }

  /** Segment i sits in the whole at its start. */
  lemma {:induction false} Place(segs: seq<seq<u8>>, i: nat)
    requires i < |segs|
    ensures Start(segs, i) + |segs[i]| <= |Concat(segs)|
    ensures forall k :: Start(segs, i) <= k < Start(segs, i) + |segs[i]| ==>
                             Concat(segs)[k] == segs[i][k - Start(segs, i)]
  {
    var last := |segs| - 1;
    var rest := segs[..last];
    TotalLength(segs);
    TotalLength(rest);
    StartOfPrefix(segs, last, last);
    StartMonotone(segs, i + 1, |segs|);
    if i < last {
      StartOfPrefix(segs, last, i);
      Place(rest, i);
      var p := Start(segs, i);
      forall k | p <= k < p + |segs[i]| ensures Concat(segs)[k] == segs[i][k - p] {
        assert Concat(segs)[k] == Concat(rest)[k];
      }
    }
  }

  /** Writing into one segment patches the whole at that segment's place. */
  lemma {:induction false} SegmentWrite(segs: seq<seq<u8>>, i: nat, segOff: nat, piece: seq<u8>)
    requires i < |segs| && segOff + |piece| <= |segs[i]|
    ensures Concat(segs[i := Patch(segs[i], segOff, piece)]) == Patch(Concat(segs), Start(segs, i) + segOff, piece)
  {
    var last := |segs| - 1;
    var rest := segs[..last];
    var seg := Patch(segs[i], segOff, piece);
    var updated := segs[i := seg];
    TotalLength(rest);
    StartOfPrefix(segs, last, i);
    if i == last {
      assert updated[..last] == rest;
      StartOfPrefix(segs, last, last);
      PatchRight(Concat(rest), segs[last], segOff, piece);
    } else {
      assert updated[..last] == rest[i := seg];
      SegmentWrite(rest, i, segOff, piece);
      Place(rest, i);
      PatchLeft(Concat(rest), segs[last], Start(segs, i) + segOff, piece);
    }
  }

  lemma PatchRight(a: seq<u8>, b: seq<u8>, offset: nat, data: seq<u8>)
    ensures a + Patch(b, offset, data) == Patch(a + b, |a| + offset, data)
  {
  }

  lemma PatchLeft(a: seq<u8>, b: seq<u8>, offset: nat, data: seq<u8>)
    requires offset + |data| <= |a|
    ensures Patch(a, offset, data) + b == Patch(a + b, offset, data)
  {
  }

  lemma PatchMore(all: seq<u8>, offset: nat, data: seq<u8>, more: seq<u8>)
    ensures Patch(Patch(all, offset, data), offset + |data|, more) == Patch(all, offset, data + more)
  {
  }

  lemma SliceAppend(all: seq<u8>, a: nat, b: nat, c: nat)
    requires a <= b <= c <= |all|
    ensures all[a..b] + all[b..c] == all[a..c]
  {
  }

  /** How many bytes of a range that starts at `offset` end before position `end`. */
  function Reach(offset: nat, end: nat, length: nat): nat {
    if end <= offset then 0 else if end - offset < length then end - offset else length
  }

  /** One turn of the gather loop: append what segment `seg` at `skipped` has of the range. */
  method GatherSegment(seg: seq<u8>, skipped: nat, offset: nat, length: nat, dst: seq<u8>, ghost all: seq<u8>)
    returns (r: seq<u8>)
    requires skipped + |seg| <= |all| && forall k :: skipped <= k < skipped + |seg| ==> all[k] == seg[k - skipped]
    requires |dst| == Reach(offset, skipped, length) < length
    requires offset + |dst| <= |all| ==> dst == all[offset..offset + |dst|]
    ensures |r| == Reach(offset, skipped + |seg|, length)
    ensures offset + |r| <= |all| ==> r == all[offset..offset + |r|]
  {
    r := dst;
    if offset < skipped + |seg| {
      var segOff := if offset > skipped then offset - skipped else 0;
      var chunk := if |seg| - segOff < length - |dst| then |seg| - segOff else length - |dst|;
      var piece := seg[segOff..segOff + chunk];
      assert piece == all[offset + |dst|..offset + |dst| + chunk];
      SliceAppend(all, offset, offset + |dst|, offset + |dst| + chunk);
      r := dst + piece;
    }
  }

  /** tbv_copy_send_range: gather `length` bytes from `offset` on. */
  method CopySendRange(segs: seq<seq<u8>>, offset: nat, length: nat) returns (dst: seq<u8>, ok: bool)
    ensures ok <==> length == 0 || offset + length <= |Concat(segs)|
    ensures ok ==> dst == if length == 0 then [] else Concat(segs)[offset..offset + length]
  {
    dst := [];
    if length == 0 {
      return dst, true;
    }
    ghost var all := Concat(segs);
    var skipped, i := 0, 0;
    while i < |segs|
      invariant 0 <= i <= |segs| && skipped == Start(segs, i)
      invariant |dst| == Reach(offset, skipped, length) < length
      invariant offset + |dst| <= |all| ==> dst == all[offset..offset + |dst|]
    {
      Place(segs, i);
      dst := GatherSegment(segs[i], skipped, offset, length, dst, all);
      if |dst| == length {
        return dst, true;
      }
      skipped := skipped + |segs[i]|;
      i := i + 1;
    }
    TotalLength(segs);
    return dst, false;
  }

  ghost predicate SameShape(segs: seq<seq<u8>>, result: seq<seq<u8>>) {
    |result| == |segs| && forall j :: 0 <= j < |segs| ==> |result[j]| == |segs[j]|
  }

  lemma {:induction false} SameStart(segs: seq<seq<u8>>, result: seq<seq<u8>>, i: nat)
    requires SameShape(segs, result) && i <= |segs|
    ensures Start(result, i) == Start(segs, i)
  {
    if i > 0 {
      SameStart(segs, result, i - 1);
    }
  }

  lemma ScatterStep(segs: seq<seq<u8>>, i: nat, segOff: nat, offset: nat, payload: seq<u8>, copied: nat, chunk: nat,
                    all: seq<u8>)
    requires i < |segs| && copied + chunk <= |payload| && segOff + chunk <= |segs[i]|
    requires Start(segs, i) + segOff == offset + copied
    requires Concat(segs) == Patch(all, offset, payload[..copied])
    ensures Concat(segs[i := Patch(segs[i], segOff, payload[copied..copied + chunk])])
         == Patch(all, offset, payload[..copied + chunk])
  {
    var piece := payload[copied..copied + chunk];
    SegmentWrite(segs, i, segOff, piece);
    PatchMore(all, offset, payload[..copied], piece);
    assert payload[..copied] + piece == payload[..copied + chunk];
  }

  /** One turn of the scatter loop: write what falls into segment i. */
  method ScatterSegment(segs: seq<seq<u8>>, i: nat, skipped: nat, offset: nat, payload: seq<u8>, copied: nat,
                        ghost all: seq<u8>)
    returns (r: seq<seq<u8>>, done: nat)
    requires i < |segs| && skipped == Start(segs, i)
    requires copied == Reach(offset, skipped, |payload|) < |payload|
    requires Concat(segs) == Patch(all, offset, payload[..copied])
    ensures SameShape(segs, r) && done == Reach(offset, skipped + |segs[i]|, |payload|)
    ensures Concat(r) == Patch(all, offset, payload[..done])
  {
    var seg := segs[i];
    r, done := segs, copied;
    if offset < skipped + |seg| {
      var segOff := if offset > skipped then offset - skipped else 0;
      var chunk := if |seg| - segOff < |payload| - copied then |seg| - segOff else |payload| - copied;
      var piece := payload[copied..copied + chunk];
      ScatterStep(segs, i, segOff, offset, payload, copied, chunk, all);
      r, done := segs[i := Patch(seg, segOff, piece)], copied + chunk;
    }
  }

  /** tbv_copy_to_read_segments: scatter a payload over the segments from `offset` on. A payload that
      does not fit is refused, after the part that fits was written. */
  method CopyToReadSegments(segs: seq<seq<u8>>, offset: nat, payload: seq<u8>)
    returns (result: seq<seq<u8>>, ok: bool)
    ensures SameShape(segs, result)
    ensures Concat(result) == Patch(Concat(segs), offset, payload)
    ensures ok <==> payload == [] || offset + |payload| <= |Concat(segs)|
  {
    result := segs;
    if payload == [] {
      return result, true;
    }
    ghost var all := Concat(segs);
    var skipped, copied, i := 0, 0, 0;
    while i < |segs|
      invariant 0 <= i <= |segs| && skipped == Start(segs, i) && SameShape(segs, result)
      invariant copied == Reach(offset, skipped, |payload|) < |payload|
      invariant Concat(result) == Patch(all, offset, payload[..copied])
    {
      SameStart(segs, result, i);
      result, copied := ScatterSegment(result, i, skipped, offset, payload, copied, all);
      if copied == |payload| {
        assert payload[..copied] == payload;
        TotalLength(segs);
        StartMonotone(segs, i + 1, |segs|);
        return result, true;
      }
      skipped := skipped + |segs[i]|;
      i := i + 1;
    }
    TotalLength(segs);
    assert Patch(all, offset, payload[..copied]) == Patch(all, offset, payload);
    return result, false;
  }
}
