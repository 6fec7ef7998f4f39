/** Which fragments of a message a receive buffer holds. */
module RecvParts {
  import opened Prelude
  import opened Cut
  import opened NativeData
  import opened RecvWqe
  import opened NativeRx
  import Fragments
  import Segments

  function Count(data: seq<u8>): (n: nat)
    ensures n >= 1
  {
    FrameCount(|data|, MAX_PAYLOAD)
  }

  function Below(k: nat): (s: set<nat>)
    ensures forall i :: i in s <==> 0 <= i < k
  {
    if k == 0 then {} else Below(k - 1) + {k - 1}
  }

  lemma {:induction false} BelowSize(k: nat)
    ensures |Below(k)| == k
  {
    if k > 0 {
      BelowSize(k - 1);
    }
  }

  /** As many different indices below k as there are: all of them. */
  lemma AllSeen(seen: set<nat>, k: nat)
    requires seen <= Below(k)
    ensures |seen| <= k && (|seen| == k ==> seen == Below(k))
  {
    BelowSize(k);
    var rest := Below(k) - seen;
    assert seen + rest == Below(k);
  }

  /** The bytes of the given fragments are in place. */
  ghost predicate Filled(buf: seq<u8>, data: seq<u8>, parts: set<nat>)
    requires |data| <= |buf|
  {
    forall k :: 0 <= k < |data| && k / MAX_PAYLOAD in parts ==> buf[k] == data[k]
  }

  ghost predicate Holds(w: Wqe, delivered: nat, data: seq<u8>, parts: set<nat>) {
    && |data| <= |w.buf| && Filled(w.buf, data, parts)
    && delivered == SeenLen(|data|, MAX_PAYLOAD, parts, Count(data))
  }

  lemma ByteOfPart(data: seq<u8>, i: nat, k: nat)
    requires i < Count(data) && k < |data| && k / MAX_PAYLOAD == i
    ensures i * MAX_PAYLOAD <= k < i * MAX_PAYLOAD + |Fragments.Chunk(data, i)|
    ensures Fragments.Chunk(data, i)[k - i * MAX_PAYLOAD] == data[k]
  {
    FragFits(|data|, MAX_PAYLOAD, i);
  }

  lemma HoldsNothing(w: Wqe, data: seq<u8>)
    requires |data| <= |w.buf|
    ensures Holds(w, 0, data, {})
  {
    SeenLenBound(|data|, MAX_PAYLOAD, {}, Count(data));
  }

  /** A successful copy of one more fragment. */
  lemma HoldsMore(w: Wqe, delivered: nat, data: seq<u8>, parts: set<nat>, i: nat)
    requires Holds(w, delivered, data, parts) && i < Count(data) && i !in parts
    requires CopyToWqe(w, i * MAX_PAYLOAD, Fragments.Chunk(data, i)).2
    ensures var (v, more, _) := CopyToWqe(w, i * MAX_PAYLOAD, Fragments.Chunk(data, i));
            Holds(v, delivered + more, data, parts + {i})
  {
    var (v, more, ok) := CopyToWqe(w, i * MAX_PAYLOAD, Fragments.Chunk(data, i));
    FragFits(|data|, MAX_PAYLOAD, i);
    SeenLenAdd(|data|, MAX_PAYLOAD, parts, i, Count(data));
    forall k | 0 <= k < |data| && k / MAX_PAYLOAD in parts + {i} ensures v.buf[k] == data[k] {
      if k / MAX_PAYLOAD == i {
        ByteOfPart(data, i, k);
      } else if i * MAX_PAYLOAD <= k < i * MAX_PAYLOAD + |Fragments.Chunk(data, i)| {
        PartOfByte(i, k);
      }
    }
  }

  lemma PartOfByte(i: nat, k: nat)
    requires i * MAX_PAYLOAD <= k < i * MAX_PAYLOAD + MAX_PAYLOAD
    ensures k / MAX_PAYLOAD == i
  {
  }

  /** All fragments in place: the buffer starts with the message. */
  lemma HoldsAll(w: Wqe, delivered: nat, data: seq<u8>, parts: set<nat>)
    requires Holds(w, delivered, data, parts) && parts == Below(Count(data))
    ensures delivered == |data| && w.buf[..|data|] == data
  {
    SeenLenBound(|data|, MAX_PAYLOAD, parts, Count(data));
    PassTiles(|data|, MAX_PAYLOAD, Count(data));
    forall k | 0 <= k < |data| ensures w.buf[k] == data[k] {
      DivBounds(k, MAX_PAYLOAD);
      PartBelow(data, k);
    }
  }

  lemma PartBelow(data: seq<u8>, k: nat)
    requires k < |data|
    ensures k / MAX_PAYLOAD < Count(data)
  {
    DivBounds(k, MAX_PAYLOAD);
  }

  /** The stored fragments are right and are those seen; an empty message stores none. */
  ghost predicate Stored(frags: seq<Frag>, data: seq<u8>, seen: set<nat>)
    decreases |frags|
  {
    if frags == [] then seen == {} || data == []
    else
      var f := frags[|frags| - 1];
      var i := f.offset / MAX_PAYLOAD;
      && i in seen && i < Count(data) && f.offset == i * MAX_PAYLOAD && f.data == Fragments.Chunk(data, i)
      && Stored(frags[..|frags| - 1], data, seen - {i})
  }

  /** Copying stored fragments, if it works, leaves exactly them in the buffer. */
  lemma {:induction false} CopyStored(w: Wqe, frags: seq<Frag>, data: seq<u8>, seen: set<nat>)
    requires Stored(frags, data, seen) && |data| <= |w.buf|
    ensures var (v, delivered, ok) := CopyFrags(w, frags); ok ==> Holds(v, delivered, data, seen)
    decreases |frags|
  {
    if frags == [] {
      if data == [] {
        SeenEmpty(seen, Count(data));
      } else {
        HoldsNothing(w, data);
      }
    } else {
      var rest, f := frags[..|frags| - 1], frags[|frags| - 1];
      var i := f.offset / MAX_PAYLOAD;
      CopyStored(w, rest, data, seen - {i});
      var (v, delivered, ok) := CopyFrags(w, rest);
      if ok && CopyToWqe(v, f.offset, f.data).2 {
        HoldsMore(v, delivered, data, seen - {i}, i);
        assert seen - {i} + {i} == seen;
      }
    }
  }

  lemma {:induction false} SeenEmpty(seen: set<nat>, k: nat)
    ensures SeenLen(0, MAX_PAYLOAD, seen, k) == 0
  {
    if k > 0 {
      SeenEmpty(seen, k - 1);
    }
  }

  /** Holding one more fragment. */
  lemma StoredMore(frags: seq<Frag>, data: seq<u8>, seen: set<nat>, i: nat)
    requires Stored(frags, data, seen) && i !in seen && i < Count(data)
    ensures Fragments.Chunk(data, i) == [] ==> Stored(frags, data, seen + {i})
    ensures Fragments.Chunk(data, i) != [] ==>
              Stored(frags + [Frag(i * MAX_PAYLOAD, Fragments.Chunk(data, i))], data, seen + {i})
  {
    FragFits(|data|, MAX_PAYLOAD, i);
    if Fragments.Chunk(data, i) == [] {
      assert data == [];
      StoredOfNothing(frags, data, seen, seen + {i});
    } else {
      var grown := frags + [Frag(i * MAX_PAYLOAD, Fragments.Chunk(data, i))];
      MulDiv(i, MAX_PAYLOAD);
      assert grown[..|grown| - 1] == frags;
      assert seen + {i} - {i} == seen;
    }
  }

  lemma {:induction false} StoredOfNothing(frags: seq<Frag>, data: seq<u8>, seen: set<nat>, more: set<nat>)
    requires Stored(frags, data, seen) && data == [] && seen <= more
    ensures Stored(frags, data, more)
    decreases |frags|
  {
    if frags != [] {
      var i := frags[|frags| - 1].offset / MAX_PAYLOAD;
      StoredOfNothing(frags[..|frags| - 1], data, seen - {i}, more - {i});
    }
  }
}
