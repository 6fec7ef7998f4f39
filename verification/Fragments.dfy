/** Native SEND fragmentation of kernel/ibdev.c: gather a message from its segments, cut it, and build
    one frame of bytes per fragment; and the way back through the parser and the shape check. */
module Fragments {
  import opened Prelude
  import opened Cut
  import opened NativeData
  import Segments

  /** The fields of struct tbv_send_ctx that a SEND frame depends on. */
  datatype SendCtx = SendCtx(withImm: bool, solicited: bool, destQp: u32, srcQp: u32, psn: u32, immData: u32,
                             segs: seq<seq<u8>>)

  ghost function Message(ctx: SendCtx): seq<u8> {
    Segments.Concat(ctx.segs)
  }

  function Flags(last: bool, solicited: bool): u8 {
    if last then (if solicited then F_LAST + F_SOLICITED else F_LAST) else 0
  }

  /** tbv_send_ctx_build_native_header for SEND and SEND_IMM. */
  function HeaderOf(ctx: SendCtx, totalLen: u32, offset: u32, len: u32, last: bool): (h: Header)
    ensures len <= MAX_PAYLOAD ==> Check(h).None?
    ensures IsLast(h.flags) <==> last
  {
    Header(if ctx.withImm then OP_SEND_IMM else OP_SEND, Flags(last, ctx.solicited), ctx.destQp, ctx.srcQp, ctx.psn,
           len, totalLen, 0, if ctx.withImm then ctx.immData else 0, offset)
  }

  /** Fragment i of a message. */
  function Chunk(msg: seq<u8>, i: nat): (r: seq<u8>)
    requires i < FrameCount(|msg|, MAX_PAYLOAD)
    ensures |r| == FragLen(|msg|, MAX_PAYLOAD, i)
  {
    FragFits(|msg|, MAX_PAYLOAD, i);
    msg[i * MAX_PAYLOAD..i * MAX_PAYLOAD + FragLen(|msg|, MAX_PAYLOAD, i)]
  }

  lemma ChunkShort(msg: seq<u8>, i: nat)
    requires i < FrameCount(|msg|, MAX_PAYLOAD)
    ensures |Chunk(msg, i)| <= MAX_PAYLOAD && i * MAX_PAYLOAD <= |msg|
  {
    FragFits(|msg|, MAX_PAYLOAD, i);
  }

  ghost function FrameHeader(ctx: SendCtx, i: nat): (h: Header)
    requires i < FrameCount(|Message(ctx)|, MAX_PAYLOAD) && |Message(ctx)| <= MAX_MSG_SIZE
  {
    var msg := Message(ctx);
    ChunkShort(msg, i);
    HeaderOf(ctx, |msg|, i * MAX_PAYLOAD, |Chunk(msg, i)|, i == FrameCount(|msg|, MAX_PAYLOAD) - 1)
  }

  ghost function FrameBytes(ctx: SendCtx, i: nat): (r: seq<u8>)
    requires i < FrameCount(|Message(ctx)|, MAX_PAYLOAD) && |Message(ctx)| <= MAX_MSG_SIZE
    ensures Payload(r) == Chunk(Message(ctx), i)
  {
    Encode(FrameHeader(ctx, i)) + Chunk(Message(ctx), i)
  }

  function Payload(frame: seq<u8>): seq<u8> {
    if |frame| < HDR_SIZE then [] else frame[48..]
  }

  /** The frames of a message, in order. */
  ghost predicate Built(ctx: SendCtx, frames: seq<seq<u8>>) {
    && |Message(ctx)| <= MAX_MSG_SIZE && |frames| == FrameCount(|Message(ctx)|, MAX_PAYLOAD)
    && forall i :: 0 <= i < |frames| ==> frames[i] == FrameBytes(ctx, i)
  }

  /** One frame: header and payload in one freshly allocated buffer. */
  method MakeFrame(h: Header, payload: seq<u8>) returns (frame: seq<u8>)
    requires Check(h).None?
    ensures frame == Encode(h) + payload
  {
    var buf := new u8[48 + |payload|](i requires 0 <= i => if 48 <= i < 48 + |payload| then payload[i - 48] else 0);
    assert buf[48..] == payload;
    var r := BuildHeader(buf, h);
    frame := buf[..];
  }

  /** The body of the loop: cut, gather and build fragment i. */
  method NextFragment(ctx: SendCtx, totalLen: nat, offset: nat, ghost i: nat) returns (frame: seq<u8>, len: nat)
    requires totalLen == |Message(ctx)| <= MAX_MSG_SIZE
    requires i < FrameCount(totalLen, MAX_PAYLOAD) && offset == i * MAX_PAYLOAD
    ensures frame == FrameBytes(ctx, i) && len == FragLen(totalLen, MAX_PAYLOAD, i)
  {
    LastIff(totalLen, i);
    FragFits(totalLen, MAX_PAYLOAD, i);
    len := if totalLen - offset < MAX_PAYLOAD then totalLen - offset else MAX_PAYLOAD;
    var last := offset + len == totalLen;
    var payload, ok := Segments.CopySendRange(ctx.segs, offset, len);
    assert payload == Chunk(Message(ctx), i);
    frame := MakeFrame(HeaderOf(ctx, totalLen, offset, len, last), payload);
  }

  /** The do-while loop of tbv_native_send_ctx_post_frames. */
  method PostFrames(ctx: SendCtx, totalLen: nat) returns (frames: seq<seq<u8>>)
    requires totalLen == |Message(ctx)| <= MAX_MSG_SIZE
    ensures Built(ctx, frames)
  {
    frames := [];
    var offset := 0;
    ghost var n := FrameCount(totalLen, MAX_PAYLOAD);
    var more := true;
    while more
      invariant |frames| <= n && (more <==> |frames| < n)
      invariant more ==> offset == |frames| * MAX_PAYLOAD
      invariant forall i :: 0 <= i < |frames| ==> frames[i] == FrameBytes(ctx, i)
      decreases n - |frames|
    {
      LastIff(totalLen, |frames|);
      var frame, len := NextFragment(ctx, totalLen, offset, |frames|);
      frames := frames + [frame];
      offset := offset + len;
      more := offset < totalLen;
    }
  }

  lemma LastIff(totalLen: nat, i: nat)
    requires i < FrameCount(totalLen, MAX_PAYLOAD)
    ensures i * MAX_PAYLOAD + FragLen(totalLen, MAX_PAYLOAD, i) == totalLen
       <==> i == FrameCount(totalLen, MAX_PAYLOAD) - 1
    ensures i + 1 < FrameCount(totalLen, MAX_PAYLOAD) ==>
              i * MAX_PAYLOAD + FragLen(totalLen, MAX_PAYLOAD, i) == (i + 1) * MAX_PAYLOAD < totalLen
    ensures FragLen(totalLen, MAX_PAYLOAD, i)
         == if totalLen - i * MAX_PAYLOAD < MAX_PAYLOAD then totalLen - i * MAX_PAYLOAD else MAX_PAYLOAD
  {
    FragFits(totalLen, MAX_PAYLOAD, i);
    if i + 1 < FrameCount(totalLen, MAX_PAYLOAD) {
      FragFits(totalLen, MAX_PAYLOAD, i + 1);
    }
  }

  /** The payloads of the first k frames, one after the other. */
  ghost function Joined(frames: seq<seq<u8>>, k: nat): seq<u8>
    requires k <= |frames|
  {
    if k == 0 then [] else Joined(frames, k - 1) + Payload(frames[k - 1])
  }

  /** What a receiver makes of frame i of n: a parsed header with the addresses, the PSN, the length and the
      immediate of the send, whose shape check says i of n; the last one, and no other, is marked as the last and,
      if asked for, as solicited. */
  ghost predicate Recognised(frame: seq<u8>, ctx: SendCtx, i: nat, n: nat) {
    && Parse(frame).Ok?
    && var h := Parse(frame).value;
       && h.psn == ctx.psn && h.srcQp == ctx.srcQp && h.destQp == ctx.destQp
       && h.immData == |Message(ctx)| && h.remoteAddr == 0
       && h.opcode == (if ctx.withImm then OP_SEND_IMM else OP_SEND)
       && h.rkey == (if ctx.withImm then ctx.immData else 0)
       && h.flags == (if i + 1 < n then 0 else if ctx.solicited then F_LAST + F_SOLICITED else F_LAST)
       && FragmentShape(h.immData, MAX_PAYLOAD, MAX_FRAGS, h.fragOffset, h.length, IsLast(h.flags)) == Some((i, n))
       && |frame| == HDR_SIZE + h.length
  }

  lemma FrameRecognised(ctx: SendCtx, i: nat)
    requires i < FrameCount(|Message(ctx)|, MAX_PAYLOAD) && |Message(ctx)| <= MAX_MSG_SIZE
    ensures Recognised(FrameBytes(ctx, i), ctx, i, FrameCount(|Message(ctx)|, MAX_PAYLOAD))
  {
    var msg := Message(ctx);
    var h := FrameHeader(ctx, i);
    var n := FrameCount(|msg|, MAX_PAYLOAD);
    ChunkShort(msg, i);
    HeaderRoundTrip(h, Chunk(msg, i));
    CountFits(|msg|);
    ShapeExact(|msg|, MAX_PAYLOAD, MAX_FRAGS, h.fragOffset, h.length, IsLast(h.flags), i, n);
  }

  lemma CountFits(totalLen: nat)
    requires totalLen <= MAX_MSG_SIZE
    ensures FrameCount(totalLen, MAX_PAYLOAD) <= MAX_FRAGS
  {
  }

  ghost function JoinedChunks(msg: seq<u8>, k: nat): seq<u8>
    requires k <= FrameCount(|msg|, MAX_PAYLOAD)
  {
    if k == 0 then [] else JoinedChunks(msg, k - 1) + Chunk(msg, k - 1)
  }

  lemma {:induction false} ChunksJoin(msg: seq<u8>, k: nat)
    requires k <= FrameCount(|msg|, MAX_PAYLOAD)
    ensures var end := if k < FrameCount(|msg|, MAX_PAYLOAD) then k * MAX_PAYLOAD else |msg|;
            end <= |msg| && JoinedChunks(msg, k) == msg[..end]
  {
    if k > 0 {
      ChunksJoin(msg, k - 1);
      LastIff(|msg|, k - 1);
      FragFits(|msg|, MAX_PAYLOAD, k - 1);
    }
  }

  lemma {:induction false} JoinedIsChunks(ctx: SendCtx, frames: seq<seq<u8>>, k: nat)
    requires Built(ctx, frames) && k <= |frames|
    ensures Joined(frames, k) == JoinedChunks(Message(ctx), k)
  {
    if k > 0 {
      JoinedIsChunks(ctx, frames, k - 1);
      assert frames[k - 1] == FrameBytes(ctx, k - 1);
    }
  }

  /** Fragmentation round trip: every frame that PostFrames builds is parsed and recognised as fragment
      i of n, and the payloads put back together are the message in the segments. */
  lemma RoundTrip(ctx: SendCtx, frames: seq<seq<u8>>)
    requires Built(ctx, frames)
    ensures forall i :: 0 <= i < |frames| ==> Recognised(frames[i], ctx, i, |frames|)
    ensures Joined(frames, |frames|) == Message(ctx)
  {
    forall i | 0 <= i < |frames| ensures Recognised(frames[i], ctx, i, |frames|) {
      assert frames[i] == FrameBytes(ctx, i);
      FrameRecognised(ctx, i);
    }
    JoinedIsChunks(ctx, frames, |frames|);
    ChunksJoin(Message(ctx), |frames|);
  }
}
