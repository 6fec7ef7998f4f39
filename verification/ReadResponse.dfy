/** Reassembly of RDMA READ responses (kernel/ibdev.c): the in-order part is scattered to memory at
    once, fragments beyond it are held until the gap closes. */
module ReadResponse {
  import opened Prelude
  import opened Cut
  import opened NativeData
  import Segments

  datatype Status = OK | EIO | EBADHDR | EFAULT

  /** The acknowledgement a response fragment provokes, if any. */
  datatype Reply = Silent | AckOk | AckRetry | AckError

  /** A pending read: its memory as one byte range, the contiguous prefix received, the fragments held
      beyond it by offset, and the status it completed with, if it did. */
  datatype Read = Read(mem: seq<u8>, received: nat, held: map<nat, seq<u8>>, status: Option<Status>)

  // ---------------------------------------------------------------- specification

  /** The first status sticks. */
  function Complete(r: Read, status: Status): Read {
    if r.status.Some? then r else r.(status := Some(status))
  }

  predicate WellShaped(totalLen: nat, h: Header) {
    && h.remoteAddr == 0 && h.immData == totalLen && h.fragOffset + h.length <= totalLen && h.flags < 4
    && FragmentShape(h.immData, MAX_PAYLOAD, MAX_FRAGS, h.fragOffset, h.length, IsLast(h.flags)).Some?
  }

  /** Move held fragments to memory as long as one starts where the prefix ends. */
  function Drain(r: Read): (d: Read)
    decreases |r.held|
  {
    if r.received !in r.held then r
    else
      var data := r.held[r.received];
      assert |r.held - {r.received}| < |r.held| by { HeldShrinks(r.held, r.received); }
      Drain(r.(mem := Segments.Patch(r.mem, r.received, data), received := r.received + |data|,
               held := r.held - {r.received}))
  }

  lemma HeldShrinks(held: map<nat, seq<u8>>, k: nat)
    requires k in held
    ensures |held - {k}| == |held| - 1
  {
    assert (held - {k}).Keys == held.Keys - {k};
  }

  /** A fragment that starts where the prefix ends. */
  function Advance(r: Read, offset: nat, payload: seq<u8>): (a: (Read, Reply)) {
    var d := Drain(r.(mem := Segments.Patch(r.mem, offset, payload), received := offset + |payload|));
    if d.received != |r.mem| then (d, Silent) else (Complete(d, OK), AckOk)
  }

  /** `alloc` says whether a fragment buffer can be allocated. */
  function OnResponse(r: Read, h: Header, payload: seq<u8>, alloc: bool): (a: (Read, Reply)) {
    if h.rkey != 0 then (Complete(r, EIO), AckError)
    else if !WellShaped(|r.mem|, h) then (Complete(r, EBADHDR), AckError)
    else if h.fragOffset < r.received then (r, Silent)
    else if h.fragOffset == r.received then Advance(r, h.fragOffset, payload)
    else if h.fragOffset in r.held then
      if r.held[h.fragOffset] == payload then (r, AckRetry) else (Complete(r, EIO), AckError)
    else if alloc then (r.(held := r.held[h.fragOffset := payload]), AckRetry)
    else (r, AckRetry)
  }

  // ---------------------------------------------------------------- what holds in every run

  function ChunkLen(totalLen: nat, offset: nat): nat {
    FragLen(totalLen, MAX_PAYLOAD, offset / MAX_PAYLOAD)
  }

  /** A fragment offset of the cut. */
  predicate IsOffset(totalLen: nat, offset: nat) {
    offset < totalLen && offset % MAX_PAYLOAD == 0
  }

  lemma OffsetChunk(totalLen: nat, offset: nat)
    requires IsOffset(totalLen, offset)
    ensures 0 < ChunkLen(totalLen, offset) <= MAX_PAYLOAD
    ensures offset + ChunkLen(totalLen, offset) <= totalLen
    ensures offset + ChunkLen(totalLen, offset) == totalLen || ChunkLen(totalLen, offset) == MAX_PAYLOAD
  {
    IndexOf(totalLen, MAX_PAYLOAD, offset);
    FragFits(totalLen, MAX_PAYLOAD, offset / MAX_PAYLOAD);
  }

  /** A well-shaped header names one fragment of the cut, or is the one frame of an empty response. */
  lemma ShapeIsChunk(totalLen: nat, h: Header)
    requires WellShaped(totalLen, h)
    ensures totalLen > 0 ==> IsOffset(totalLen, h.fragOffset) && h.length == ChunkLen(totalLen, h.fragOffset)
    ensures totalLen == 0 ==> h.fragOffset == 0 && h.length == 0
  {
    var shape := FragmentShape(h.immData, MAX_PAYLOAD, MAX_FRAGS, h.fragOffset, h.length, IsLast(h.flags)).value;
    ShapeExact(h.immData, MAX_PAYLOAD, MAX_FRAGS, h.fragOffset, h.length, IsLast(h.flags), shape.0, shape.1);
    if totalLen > 0 {
      MulDiv(shape.0, MAX_PAYLOAD);
      FragFits(totalLen, MAX_PAYLOAD, shape.0);
    }
  }

  /** The prefix ends at a fragment boundary. */
  predicate Boundary(totalLen: nat, received: nat) {
    received == totalLen || IsOffset(totalLen, received)
  }

  /** `data` is the true response. What is in memory below `received` is right, every held fragment is
      right and lies at or beyond the prefix, and the read has completed OK exactly when the whole
      response is in memory. */
  ghost predicate Partial(r: Read, data: seq<u8>) {
    && |r.mem| == |data| && Boundary(|data|, r.received)
    && r.mem[..r.received] == data[..r.received]
    && forall o :: o in r.held ==>
         r.received <= o && IsOffset(|data|, o) && r.held[o] == data[o..][..ChunkLen(|data|, o)]
  }

  ghost predicate Inv(r: Read, data: seq<u8>) {
    && Partial(r, data)
    && r.received !in r.held
    && (r.status.None? || r.status == Some(OK))
    && (|data| > 0 ==> (r.status == Some(OK) <==> r.received == |data|))
  }

  /** A genuine response fragment: well shaped, with the bytes the responder read. */
  ghost predicate Genuine(h: Header, payload: seq<u8>, data: seq<u8>) {
    && h.rkey == 0 && WellShaped(|data|, h) && |payload| == h.length
    && payload == data[h.fragOffset..h.fragOffset + h.length]
  }

  /** Writing a right chunk at the end of the prefix extends the prefix. */
  lemma ExtendPrefix(r: Read, data: seq<u8>, payload: seq<u8>)
    requires Partial(r, data) && r.received < |data|
    requires payload == data[r.received..][..ChunkLenAt(data, r.received)]
    ensures var m := Segments.Patch(r.mem, r.received, payload); var e := r.received + |payload|;
            e <= |data| && Boundary(|data|, e) && m[..e] == data[..e]
  {
    OffsetChunk(|data|, r.received);
    var m, e := Segments.Patch(r.mem, r.received, payload), r.received + |payload|;
    forall k | 0 <= k < e ensures m[k] == data[k] {
      if k < r.received {
        assert m[k] == r.mem[k] && r.mem[k] == r.mem[..r.received][k];
      } else {
        assert m[k] == payload[k - r.received];
      }
    }
    if e < |data| {
      assert e % MAX_PAYLOAD == 0;
    }
  }

  ghost function ChunkLenAt(data: seq<u8>, offset: nat): (n: nat)
    requires IsOffset(|data|, offset)
    ensures offset + n <= |data|
  {
    OffsetChunk(|data|, offset);
    ChunkLen(|data|, offset)
  }

  lemma {:induction false} DrainKeeps(r: Read, data: seq<u8>)
    requires Partial(r, data)
    ensures var d := Drain(r);
            Partial(d, data) && d.received !in d.held && d.received >= r.received && d.status == r.status
    decreases |r.held|
  {
    if r.received in r.held {
      var payload := r.held[r.received];
      ExtendPrefix(r, data, payload);
      OffsetChunk(|data|, r.received);
      HeldShrinks(r.held, r.received);
      var s := r.(mem := Segments.Patch(r.mem, r.received, payload), received := r.received + |payload|,
                  held := r.held - {r.received});
      forall o | o in s.held ensures s.received <= o {
        NextOffset(|data|, r.received, o);
      }
      DrainKeeps(s, data);
    }
  }

  /** The next fragment offset is at least one chunk further. */
  lemma NextOffset(totalLen: nat, o: nat, p: nat)
    requires IsOffset(totalLen, o) && IsOffset(totalLen, p) && o < p
    ensures o + ChunkLen(totalLen, o) <= p
  {
    OffsetChunk(totalLen, o);
    assert p - o >= MAX_PAYLOAD;
  }

  lemma ResponseKeeps(r: Read, h: Header, payload: seq<u8>, alloc: bool, data: seq<u8>)
    requires Inv(r, data) && Genuine(h, payload, data)
    ensures var s := OnResponse(r, h, payload, alloc).0; Inv(s, data) && s.received >= r.received
  {
    ShapeIsChunk(|data|, h);
    if |data| == 0 {
      EmptyKeeps(r, h, payload, alloc, data);
    } else if h.fragOffset == r.received {
      AdvanceKeeps(r, payload, data);
    } else if h.fragOffset > r.received {
      assert payload == data[h.fragOffset..][..ChunkLen(|data|, h.fragOffset)];
      GapKeeps(r, h, payload, alloc, data);
    }
    hide Advance;
    hide Partial;
    hide IsOffset;
    hide ChunkLen;
  }

  lemma EmptyKeeps(r: Read, h: Header, payload: seq<u8>, alloc: bool, data: seq<u8>)
    requires Inv(r, data) && Genuine(h, payload, data) && |data| == 0
    ensures var s := OnResponse(r, h, payload, alloc).0; Inv(s, data) && s.received >= r.received
  {
    ShapeIsChunk(|data|, h);
    assert Segments.Patch(r.mem, 0, payload) == r.mem;
    assert r.(mem := r.mem, received := 0) == r;
  }

  lemma GapKeeps(r: Read, h: Header, payload: seq<u8>, alloc: bool, data: seq<u8>)
    requires Inv(r, data) && Genuine(h, payload, data) && h.fragOffset > r.received && IsOffset(|data|, h.fragOffset)
    requires payload == data[h.fragOffset..][..ChunkLen(|data|, h.fragOffset)]
    ensures var s := OnResponse(r, h, payload, alloc).0; Inv(s, data) && s.received >= r.received
  {
    hide Advance;
    hide WellShaped;
    hide IsOffset;
    hide ChunkLen;
  }

  lemma AdvanceKeeps(r: Read, payload: seq<u8>, data: seq<u8>)
    requires Inv(r, data) && r.received < |data|
    requires payload == data[r.received..r.received + ChunkLenAt(data, r.received)]
    ensures var s := Advance(r, r.received, payload).0; Inv(s, data) && s.received >= r.received
  {
    assert payload == data[r.received..][..ChunkLenAt(data, r.received)];
    ExtendPrefix(r, data, payload);
    OffsetChunk(|data|, r.received);
    var s := r.(mem := Segments.Patch(r.mem, r.received, payload), received := r.received + |payload|);
    forall o | o in s.held ensures s.received <= o {
      NextOffset(|data|, r.received, o);
    }
    DrainKeeps(s, data);
  }

  /** A response fragment and whether memory could be had for it. */
  datatype Arrival = Arrival(header: Header, payload: seq<u8>, alloc: bool)

  function Run(r: Read, arrivals: seq<Arrival>): Read {
    if arrivals == [] then r
    else
      var a := arrivals[|arrivals| - 1];
      OnResponse(Run(r, arrivals[..|arrivals| - 1]), a.header, a.payload, a.alloc).0
  }

  /** A read just posted. */
  function Posted(mem: seq<u8>): Read {
    Read(mem, 0, map[], None)
  }

  /** Under any order, duplication and loss of genuine fragments: the received prefix is in its place in
      memory, everything held lies beyond it, no error status arises, and the read completes OK exactly
      when the whole response is in memory. */
  lemma {:induction false} Reassembles(mem: seq<u8>, data: seq<u8>, arrivals: seq<Arrival>)
    requires |mem| == |data|
    requires forall i :: 0 <= i < |arrivals| ==> Genuine(arrivals[i].header, arrivals[i].payload, data)
    ensures var r := Run(Posted(mem), arrivals);
            && Inv(r, data)
            && (r.status == Some(OK) ==> r.mem == data)
  {
    if arrivals != [] {
      var prefix := arrivals[..|arrivals| - 1];
      Reassembles(mem, data, prefix);
      var a := arrivals[|arrivals| - 1];
      ResponseKeeps(Run(Posted(mem), prefix), a.header, a.payload, a.alloc, data);
    }
    var r := Run(Posted(mem), arrivals);
    if r.received == |data| {
      assert r.mem == r.mem[..r.received] && data == data[..r.received];
    }
  }

  /** A fragment that has come in is in memory or held. */
  predicate Kept(r: Read, offset: nat) {
    offset < r.received || offset in r.held
  }

  lemma {:induction false} DrainCovers(r: Read, data: seq<u8>, o: nat)
    requires Partial(r, data) && Kept(r, o)
    ensures Kept(Drain(r), o)
    decreases |r.held|
  {
    if r.received in r.held {
      var payload := r.held[r.received];
      ExtendPrefix(r, data, payload);
      OffsetChunk(|data|, r.received);
      HeldShrinks(r.held, r.received);
      hide FrameCount;
      var s := r.(mem := Segments.Patch(r.mem, r.received, payload), received := r.received + |payload|,
                  held := r.held - {r.received});
      forall p | p in s.held ensures s.received <= p {
        NextOffset(|data|, r.received, p);
      }
      DrainCovers(s, data, o);
    }
  }

  lemma ResponseCovers(r: Read, h: Header, payload: seq<u8>, alloc: bool, data: seq<u8>, o: nat)
    requires Inv(r, data) && Genuine(h, payload, data) && |data| > 0
    requires Kept(r, o) || (o == h.fragOffset && alloc)
    ensures Kept(OnResponse(r, h, payload, alloc).0, o)
  {
    ShapeIsChunk(|data|, h);
    if h.fragOffset == r.received {
      OffsetChunk(|data|, r.received);
      assert payload == data[r.received..][..ChunkLenAt(data, r.received)];
      ExtendPrefix(r, data, payload);
      var s := r.(mem := Segments.Patch(r.mem, r.received, payload), received := r.received + |payload|);
      forall p | p in s.held ensures s.received <= p {
        NextOffset(|data|, r.received, p);
      }
      DrainCovers(s, data, o);
    }
  }

  lemma {:induction false} RunCovers(mem: seq<u8>, data: seq<u8>, arrivals: seq<Arrival>, i: nat)
    requires |mem| == |data| > 0 && i < |arrivals| && arrivals[i].alloc
    requires forall j :: 0 <= j < |arrivals| ==> Genuine(arrivals[j].header, arrivals[j].payload, data)
    ensures Kept(Run(Posted(mem), arrivals), arrivals[i].header.fragOffset)
  {
    var last := |arrivals| - 1;
    var prefix, a := arrivals[..last], arrivals[last];
    Reassembles(mem, data, prefix);
    if i < last {
      RunCovers(mem, data, prefix, i);
    }
    ResponseCovers(Run(Posted(mem), prefix), a.header, a.payload, a.alloc, data, arrivals[i].header.fragOffset);
  }

  /** The converse: once every fragment has come in with memory to hold it, in whatever order, the read
      has completed OK with the whole response in memory. */
  lemma CompletesWhenAllArrived(mem: seq<u8>, data: seq<u8>, arrivals: seq<Arrival>)
    requires |mem| == |data| > 0
    requires forall i :: 0 <= i < |arrivals| ==> Genuine(arrivals[i].header, arrivals[i].payload, data)
    requires forall o :: IsOffset(|data|, o) ==>
               exists i :: 0 <= i < |arrivals| && arrivals[i].alloc && arrivals[i].header.fragOffset == o
    ensures var r := Run(Posted(mem), arrivals); r.status == Some(OK) && r.mem == data
  {
    var r := Run(Posted(mem), arrivals);
    Reassembles(mem, data, arrivals);
    if r.received < |data| {
      assert IsOffset(|data|, r.received);
      var i :| 0 <= i < |arrivals| && arrivals[i].alloc && arrivals[i].header.fragOffset == r.received;
      RunCovers(mem, data, arrivals, i);
    }
  }

  /** In any run of genuine fragments, the reply to the next one: none for a fragment the prefix covers, a retry
      for one beyond the prefix, and for the next one OK exactly if it completes the read, and none else. */
  lemma RepliesExact(mem: seq<u8>, data: seq<u8>, arrivals: seq<Arrival>, a: Arrival)
    requires |mem| == |data| > 0
    requires forall i :: 0 <= i < |arrivals| ==> Genuine(arrivals[i].header, arrivals[i].payload, data)
    requires Genuine(a.header, a.payload, data)
    ensures var r := Run(Posted(mem), arrivals);
            var (s, reply) := OnResponse(r, a.header, a.payload, a.alloc);
            && (a.header.fragOffset < r.received ==> reply == Silent && s == r)
            && (a.header.fragOffset > r.received ==> reply == AckRetry && s.mem == r.mem && s.received == r.received)
            && (a.header.fragOffset == r.received ==>
                  && s.received >= r.received + |a.payload| && |a.payload| > 0
                  && reply == if s.received == |data| then AckOk else Silent)
            && (r.status.None? && s.status == Some(OK) <==> reply == AckOk)
  {
    Reassembles(mem, data, arrivals);
    hide OnResponse;
    hide Genuine;
    hide Inv;
    ReplyExact(Run(Posted(mem), arrivals), data, a);
    hide Run;
  }

  lemma ReplyExact(r: Read, data: seq<u8>, a: Arrival)
    requires Inv(r, data) && |data| > 0 && Genuine(a.header, a.payload, data)
    ensures var (s, reply) := OnResponse(r, a.header, a.payload, a.alloc);
            && (a.header.fragOffset < r.received ==> reply == Silent && s == r)
            && (a.header.fragOffset > r.received ==> reply == AckRetry && s.mem == r.mem && s.received == r.received)
            && (a.header.fragOffset == r.received ==>
                  && s.received >= r.received + |a.payload| && |a.payload| > 0
                  && reply == if s.received == |data| then AckOk else Silent)
            && (r.status.None? && s.status == Some(OK) <==> reply == AckOk)
  {
    hide WellShaped;
    ResponseKeeps(r, a.header, a.payload, a.alloc, data);
    GenuineShape(a.header, a.payload, data);
    if a.header.fragOffset == r.received {
      ReceivedGrows(r.(mem := Segments.Patch(r.mem, a.header.fragOffset, a.payload),
                       received := a.header.fragOffset + |a.payload|));
    } else if a.header.fragOffset in r.held {
      HeldIsGenuine(r, a.header, a.payload, data);
    }
    hide Drain;
    hide Genuine;
    hide ChunkLen;
    hide IsOffset;
  }

  lemma {:induction false} ReceivedGrows(r: Read)
    ensures Drain(r).received >= r.received && Drain(r).status == r.status && |Drain(r).mem| == |r.mem|
    decreases |r.held|
  {
    if r.received in r.held {
      HeldShrinks(r.held, r.received);
      ReceivedGrows(r.(mem := Segments.Patch(r.mem, r.received, r.held[r.received]),
                       received := r.received + |r.held[r.received]|, held := r.held - {r.received}));
    }
  }

  lemma GenuineShape(h: Header, payload: seq<u8>, data: seq<u8>)
    requires Genuine(h, payload, data) && |data| > 0
    ensures WellShaped(|data|, h) && h.rkey == 0 && |payload| > 0 && IsOffset(|data|, h.fragOffset)
    ensures payload == data[h.fragOffset..][..ChunkLen(|data|, h.fragOffset)]
  {
    ShapeIsChunk(|data|, h);
    OffsetChunk(|data|, h.fragOffset);
  }

  lemma HeldIsGenuine(r: Read, h: Header, payload: seq<u8>, data: seq<u8>)
    requires Inv(r, data) && Genuine(h, payload, data) && |data| > 0 && h.fragOffset in r.held
    ensures r.held[h.fragOffset] == payload
  {
    GenuineShape(h, payload, data);
  }

  /** A response of another kind is answered with an error and completes the read with one, unless it has
      completed: a remote error with EIO, one that cannot be a fragment of this response with EBADHDR, and
      one that contradicts a held fragment with EIO. The memory is left alone. */
  lemma BadRefused(r: Read, h: Header, payload: seq<u8>, alloc: bool)
    ensures var (s, reply) := OnResponse(r, h, payload, alloc);
            var bad := h.remoteAddr != 0 || h.immData != |r.mem| || h.fragOffset + h.length > |r.mem| || h.flags >= 4;
            && (h.rkey != 0 ==> reply == AckError && s == r.(status := if r.status.Some? then r.status else Some(EIO)))
            && (h.rkey == 0 && bad ==>
                  reply == AckError && s == r.(status := if r.status.Some? then r.status else Some(EBADHDR)))
            && (h.rkey == 0 && WellShaped(|r.mem|, h) && h.fragOffset > r.received && h.fragOffset in r.held
                && r.held[h.fragOffset] != payload ==>
                  reply == AckError && s == r.(status := if r.status.Some? then r.status else Some(EIO)))
  {
    hide Drain;
  }

  // ---------------------------------------------------------------- struct tbv_read_ctx

  datatype Frag = Frag(offset: nat, data: seq<u8>)

  datatype StoreResult = Stored | Mismatch | NoSpace | NoMemory

  /** Fragments ordered by offset, none running into the next, none beyond the end. */
  ghost predicate Ordered(frags: seq<Frag>, totalLen: nat) {
    && (forall i :: 0 <= i < |frags| ==>
          IsOffset(totalLen, frags[i].offset) && |frags[i].data| == ChunkLen(totalLen, frags[i].offset))
    && forall i, j :: 0 <= i < j < |frags| ==> frags[i].offset < frags[j].offset
  }

  ghost function HeldOf(frags: seq<Frag>, totalLen: nat): map<nat, seq<u8>>
    requires Ordered(frags, totalLen)
  {
    map f | f in frags :: f.offset := f.data
  }

  function Bytes(frags: seq<Frag>): nat {
    if frags == [] then 0 else Bytes(frags[..|frags| - 1]) + |frags[|frags| - 1].data|
  }

  /** Ordered fragments fit between the start and the end of the last of them. */
  lemma {:induction false} BytesFit(frags: seq<Frag>, totalLen: nat)
    requires Ordered(frags, totalLen)
    ensures Bytes(frags) <= totalLen
    ensures frags != [] ==> Bytes(frags) <= frags[|frags| - 1].offset + |frags[|frags| - 1].data| <= totalLen
  {
    if frags != [] {
      var n := |frags|;
      var rest := frags[..n - 1];
      assert forall i, j :: 0 <= i < j < |rest| ==> rest[i] == frags[i] && rest[j] == frags[j];
      BytesFit(rest, totalLen);
      OffsetChunk(totalLen, frags[n - 1].offset);
      if n > 1 {
        NextOffset(totalLen, frags[n - 2].offset, frags[n - 1].offset);
      }
    }
  }

  lemma {:induction false} BytesAppend(a: seq<Frag>, b: seq<Frag>)
    ensures Bytes(a + b) == Bytes(a) + Bytes(b)
  {
    if b == [] {
      assert a + b == a;
    } else {
      var c := b[..|b| - 1];
      assert (a + b)[..|a + b| - 1] == a + c;
      BytesAppend(a, c);
    }
  }

  /** struct tbv_read_ctx, updated in place. */
  class ReadCtx {
    const totalLen: nat
    var segs: seq<seq<u8>>
    var received: nat
    var frags: seq<Frag>
    var bufferedBytes: int
    var status: Option<Status>
    ghost var held: map<nat, seq<u8>>  // the fragments by offset

    ghost function Value(): Read
      reads this
    {
      Read(Segments.Concat(segs), received, held, status)
    }

    ghost predicate FragsValid()
      reads this
    {
      Ordered(frags, totalLen) && held == HeldOf(frags, totalLen) && bufferedBytes == Bytes(frags)
    }

    ghost predicate Valid()
      reads this
    {
      FragsValid() && |Segments.Concat(segs)| == totalLen <= MAX_MSG_SIZE
    }

    constructor (segs: seq<seq<u8>>, totalLen: nat)
      requires totalLen == |Segments.Concat(segs)| <= MAX_MSG_SIZE
      ensures Valid() && Value() == Posted(Segments.Concat(segs))
    {
      this.totalLen, this.segs := totalLen, segs;
      received, frags, bufferedBytes, status, held := 0, [], 0, None, map[];
    }

    /** tbv_read_resp_find_frag_locked: the index of the fragment at an offset, or the list length. */
    method FindFrag(offset: nat) returns (i: nat)
      requires FragsValid()
      ensures i <= |frags| && (i < |frags| <==> offset in held)
      ensures i < |frags| ==> frags[i].offset == offset && held[offset] == frags[i].data
    {
      i := 0;
      while i < |frags|
        invariant 0 <= i <= |frags|
        invariant forall k :: 0 <= k < i ==> frags[k].offset != offset
      {
        if frags[i].offset == offset {
          assert frags[i] in frags;
          return;
        }
        i := i + 1;
      }
    }

    /** The place of a new offset in the ordered list. */
    method FindSlot(offset: nat) returns (at: nat)
      requires FragsValid() && offset !in held
      ensures at <= |frags|
      ensures forall k :: 0 <= k < at ==> frags[k].offset < offset
      ensures forall k :: at <= k < |frags| ==> frags[k].offset > offset
    {
      at := 0;
      while at < |frags| && !(offset < frags[at].offset)
        invariant 0 <= at <= |frags|
        invariant forall k :: 0 <= k < at ==> frags[k].offset < offset
      {
        assert frags[at] in frags;
        at := at + 1;
      }
    }

    /** tbv_read_resp_store_frag_locked. Its -ENOSPC branch is never taken: the fragments held and the
        new one are different fragments of one response. */
    method StoreFrag(offset: nat, payload: seq<u8>, alloc: bool) returns (r: StoreResult)
      requires Valid() && IsOffset(totalLen, offset) && |payload| == ChunkLen(totalLen, offset)
      modifies this`frags, this`bufferedBytes, this`held
      ensures Valid() && r != NoSpace
      ensures r == if offset in old(held) then (if old(held)[offset] == payload then Stored else Mismatch)
                   else if alloc then Stored else NoMemory
      ensures held == if r == Stored then old(held)[offset := payload] else old(held)
    {
      var found := FindFrag(offset);
      if found < |frags| {
        return if frags[found].data == payload then Stored else Mismatch;
      }
      r := InsertFrag(Frag(offset, payload), alloc);
    }

    /** Put a new fragment in its place, if the total allows and memory can be had. */
    method InsertFrag(f: Frag, alloc: bool) returns (r: StoreResult)
      requires FragsValid() && totalLen <= MAX_MSG_SIZE && f.offset !in held
      requires IsOffset(totalLen, f.offset) && |f.data| == ChunkLen(totalLen, f.offset)
      modifies this`frags, this`bufferedBytes, this`held
      ensures FragsValid() && r == if alloc then Stored else NoMemory
      ensures held == if alloc then old(held)[f.offset := f.data] else old(held)
    {
      var at := FindSlot(f.offset);
      InsertFits(frags, at, f, totalLen);
      var newBytes := bufferedBytes + |f.data|;
      r := if newBytes >= U32_MOD || newBytes > totalLen then NoSpace else if !alloc then NoMemory else Stored;
      if r == Stored {
        frags := frags[..at] + [f] + frags[at..];
        bufferedBytes := newBytes;
        held := held[f.offset := f.data];
      }
    }

    /** Take a fragment off the list. */
    method RemoveFrag(i: nat)
      requires FragsValid() && i < |frags|
      modifies this`frags, this`bufferedBytes, this`held
      ensures FragsValid() && |frags| == old(|frags|) - 1 && held == old(held) - {old(frags[i]).offset}
    {
      RemoveFits(frags, i, totalLen);
      var len := |frags[i].data|;
      held := held - {frags[i].offset};
      bufferedBytes := if bufferedBytes >= len then bufferedBytes - len else 0;
      frags := frags[..i] + frags[i + 1..];
    }

    /** tbv_read_resp_drain_frags_locked. */
    method DrainFrags()
      requires Valid()
      modifies this`segs, this`received, this`frags, this`bufferedBytes, this`held
      ensures Valid() && Value() == Drain(old(Value()))
    {
      while true
        invariant Valid() && Drain(Value()) == Drain(old(Value())) && status == old(status)
        decreases |frags|
      {
        var i := FindFrag(received);
        if i == |frags| {
          return;
        }
        MoveFrag(i);
      }
    }

    /** One turn of the loop: the fragment goes to memory and leaves the list. */
    method MoveFrag(i: nat)
      requires Valid() && i < |frags| && frags[i].offset == received
      requires received in held && held[received] == frags[i].data
      modifies this`segs, this`received, this`frags, this`bufferedBytes, this`held
      ensures Valid() && Drain(Value()) == Drain(old(Value())) && |frags| < old(|frags|)
    {
      hide Ordered;
      hide HeldOf;
      hide Bytes;
      hide Segments.Concat;
      hide Segments.Patch;
      var f := frags[i];
      var fits: bool;
      segs, fits := Segments.CopyToReadSegments(segs, f.offset, f.data);
      received := f.offset + |f.data|;
      RemoveFrag(i);
    }

    /** tbv_rx_handle_rdma_read_resp for a read that is still pending. */
    method Response(h: Header, payload: seq<u8>, alloc: bool) returns (reply: Reply)
      requires Valid() && |payload| == h.length
      modifies this
      ensures Valid()
      ensures (Value(), reply) == OnResponse(old(Value()), h, payload, alloc)
    {
      if h.rkey != 0 {
        SetStatus(EIO);
        return AckError;
      }
      if h.remoteAddr != 0 || h.immData != totalLen || h.fragOffset + h.length >= U32_MOD ||
         h.fragOffset + h.length > totalLen || h.flags >= 4 ||
         FragmentShape(h.immData, MAX_PAYLOAD, MAX_FRAGS, h.fragOffset, h.length, IsLast(h.flags)).None? {
        SetStatus(EBADHDR);
        return AckError;
      }
      if h.fragOffset < received {
        return Silent;
      }
      ShapeIsChunk(totalLen, h);
      if h.fragOffset != received {
        reply := Hold(h.fragOffset, payload, alloc);
      } else {
        reply := Extend(payload);
      }
    }

    /** The branch for a fragment beyond the prefix. */
    method Hold(offset: nat, payload: seq<u8>, alloc: bool) returns (reply: Reply)
      requires Valid() && IsOffset(totalLen, offset) && |payload| == ChunkLen(totalLen, offset)
      modifies this
      ensures Valid()
      ensures (Value(), reply) ==
              var r := old(Value());
              if offset in r.held && r.held[offset] != payload then (Complete(r, EIO), AckError)
              else if offset in r.held || !alloc then (r, AckRetry)
              else (r.(held := r.held[offset := payload]), AckRetry)
    {
      var stored := StoreFrag(offset, payload, alloc);
      if stored == Mismatch {
        SetStatus(EIO);
        return AckError;
      }
      assert offset in old(held) ==> old(held)[offset := payload] == old(held);
      return AckRetry;
    }

    /** The branch for the fragment that starts where the prefix ends. */
    method Extend(payload: seq<u8>) returns (reply: Reply)
      requires Valid() && received + |payload| <= totalLen
      modifies this
      ensures Valid()
      ensures (Value(), reply) == Advance(old(Value()), old(received), payload)
    {
      var fits: bool;
      segs, fits := Segments.CopyToReadSegments(segs, received, payload);
      received := received + |payload|;
      ghost var grown := Value();
      assert grown == old(Value()).(mem := Segments.Patch(old(Value()).mem, old(received), payload),
                                    received := received);
      DrainFrags();
      if received != totalLen {
        return Silent;
      }
      SetStatus(OK);
      return AckOk;
    }

    /** The ready flag of tbv_qp_complete_read_ordered. */
    method SetStatus(s: Status)
      modifies this`status
      ensures Value() == Complete(old(Value()), s)
    {
      if status.None? {
        status := Some(s);
      }
    }
  }

  lemma BytesInsert(a: seq<Frag>, f: Frag, b: seq<Frag>)
    ensures Bytes(a + [f] + b) == Bytes(a + b) + |f.data|
  {
    assert [f][..0] == [];
    BytesAppend(a, [f]);
    BytesAppend(a + [f], b);
    BytesAppend(a, b);
  }

  lemma InsertOrdered(frags: seq<Frag>, at: nat, f: Frag, totalLen: nat)
    requires Ordered(frags, totalLen) && at <= |frags|
    requires IsOffset(totalLen, f.offset) && |f.data| == ChunkLen(totalLen, f.offset)
    requires forall k :: 0 <= k < at ==> frags[k].offset < f.offset
    requires forall k :: at <= k < |frags| ==> frags[k].offset > f.offset
    ensures Ordered(frags[..at] + [f] + frags[at..], totalLen)
  {
    var grown := frags[..at] + [f] + frags[at..];
    assert forall k :: 0 <= k < at ==> grown[k] == frags[k];
    assert grown[at] == f;
    assert forall k :: at < k < |grown| ==> grown[k] == frags[k - 1];
  }

  lemma InsertFits(frags: seq<Frag>, at: nat, f: Frag, totalLen: nat)
    requires Ordered(frags, totalLen) && at <= |frags|
    requires IsOffset(totalLen, f.offset) && |f.data| == ChunkLen(totalLen, f.offset)
    requires forall k :: 0 <= k < at ==> frags[k].offset < f.offset
    requires forall k :: at <= k < |frags| ==> frags[k].offset > f.offset
    ensures var grown := frags[..at] + [f] + frags[at..];
            && Ordered(grown, totalLen) && Bytes(grown) == Bytes(frags) + |f.data| <= totalLen
            && HeldOf(grown, totalLen) == HeldOf(frags, totalLen)[f.offset := f.data]
  {
    hide Bytes;
    var grown := frags[..at] + [f] + frags[at..];
    InsertOrdered(frags, at, f, totalLen);
    BytesInsert(frags[..at], f, frags[at..]);
    assert frags[..at] + frags[at..] == frags;
    BytesFit(grown, totalLen);
    assert forall g :: g in grown <==> g == f || g in frags by {
      assert forall g :: g in frags <==> g in frags[..at] || g in frags[at..] by {
        assert frags == frags[..at] + frags[at..];
      }
    }
    HeldGrows(frags, grown, f, totalLen);
  }

  lemma HeldGrows(frags: seq<Frag>, grown: seq<Frag>, f: Frag, totalLen: nat)
    requires Ordered(frags, totalLen) && Ordered(grown, totalLen)
    requires forall g :: g in grown <==> g == f || g in frags
    ensures HeldOf(grown, totalLen) == HeldOf(frags, totalLen)[f.offset := f.data]
  {
    assert f in grown;
    var l, r := HeldOf(grown, totalLen), HeldOf(frags, totalLen)[f.offset := f.data];
    forall o ensures o in l <==> o in r {
      if o in l {
        var g :| g in grown && g.offset == o;
      }
      if o in r && o != f.offset {
        var g :| g in frags && g.offset == o;
        assert g in grown;
      }
    }
  }

  lemma RemoveFits(frags: seq<Frag>, i: nat, totalLen: nat)
    requires Ordered(frags, totalLen) && i < |frags|
    ensures var shrunk := frags[..i] + frags[i + 1..];
            && Ordered(shrunk, totalLen) && Bytes(shrunk) == Bytes(frags) - |frags[i].data|
            && HeldOf(shrunk, totalLen) == HeldOf(frags, totalLen) - {frags[i].offset}
  {
    RemoveOrdered(frags, i, totalLen);
    RemoveBytes(frags, i);
    HeldShrinksTo(frags[..i] + frags[i + 1..], frags, frags[i], totalLen);
  }

  lemma RemoveBytes(frags: seq<Frag>, i: nat)
    requires i < |frags|
    ensures Bytes(frags[..i] + frags[i + 1..]) == Bytes(frags) - |frags[i].data|
  {
    BytesInsert(frags[..i], frags[i], frags[i + 1..]);
    assert frags[..i] + [frags[i]] + frags[i + 1..] == frags;
  }

  lemma HeldShrinksTo(shrunk: seq<Frag>, frags: seq<Frag>, f: Frag, totalLen: nat)
    requires Ordered(frags, totalLen) && Ordered(shrunk, totalLen)
    requires forall g :: g in frags <==> g == f || g in shrunk
    requires forall g :: g in shrunk ==> g.offset != f.offset
    ensures HeldOf(shrunk, totalLen) == HeldOf(frags, totalLen) - {f.offset}
  {
    HeldGrows(shrunk, frags, f, totalLen);
    var l := HeldOf(shrunk, totalLen);
    assert f.offset !in l;
    assert l[f.offset := f.data] - {f.offset} == l;
  }

  lemma RemoveOrdered(frags: seq<Frag>, i: nat, totalLen: nat)
    requires Ordered(frags, totalLen) && i < |frags|
    ensures var shrunk := frags[..i] + frags[i + 1..];
            && Ordered(shrunk, totalLen)
            && (forall g :: g in frags <==> g == frags[i] || g in shrunk)
            && (forall g :: g in shrunk ==> g.offset != frags[i].offset)
  {
    var shrunk := frags[..i] + frags[i + 1..];
    assert forall k :: 0 <= k < i ==> shrunk[k] == frags[k];
    assert forall k :: i <= k < |shrunk| ==> shrunk[k] == frags[k + 1];
    forall g | g in frags ensures g == frags[i] || g in shrunk {
      var k :| 0 <= k < |frags| && frags[k] == g;
      if k < i {
        assert shrunk[k] == g;
      } else if k > i {
        assert shrunk[k - 1] == g;
      }
    }
  }
}
