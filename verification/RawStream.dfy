/** Receiving raw streams (kernel/path.c, proto/native_data.h): a header announces the length, and the
    payload frames that follow are turned into fragments. */
module RawStream {
  import opened Prelude
  import opened NativeData
  import PathTx
  import opened Lockstep

  /** tbv_native_data_raw_payload_header. */
  function RawPayloadHeader(stream: Header, done: nat, remaining: nat, len: nat): Option<Header> {
    if !IsRaw(stream.flags) || len == 0 || len > remaining || done >= U32_MOD || len >= U32_MOD then None
    else
      var kept := stream.flags - stream.flags % 8;
      Some(stream.(flags := kept + (if len == remaining then stream.flags % 4 else 0), length := len,
                   fragOffset := done))
  }

  /** The rx_raw fields of struct tbv_path, the fragments emitted so far, each with the header of its
      stream, and the bad frames counted. */
  datatype RawRx = RawRx(pending: bool, stream: Header, done: nat, remaining: nat, emitted: seq<(Header, Header)>,
                         bad: nat)

  /** A frame on the wire: a raw-stream header, raw payload, or anything else. */
  datatype Frame = Head(header: Header) | Payload(len: nat) | Other(len: nat)

  function LenOf(f: Frame): nat {
    match f
    case Head(_) => HDR_SIZE
    case Payload(len) => len
    case Other(len) => len
  }

  /** tbv_path_rx_raw_payload. */
  function OnPayload(rx: RawRx, len: nat): RawRx {
    var h := RawPayloadHeader(rx.stream, rx.done, rx.remaining, len);
    if !rx.pending || len == 0 || len > rx.remaining || h.None? then
      rx.(pending := false, remaining := 0, bad := rx.bad + 1)
    else rx.(pending := len != rx.remaining, done := rx.done + len, remaining := rx.remaining - len,
             emitted := rx.emitted + [(rx.stream, h.value)])
  }

  /** tbv_path_rx_start_raw, behind the checks of tbv_path_rx_complete. */
  function OnHead(rx: RawRx, h: Header): RawRx {
    if h.length == 0 || h.flags >= 8 then rx.(bad := rx.bad + 1)
    else rx.(pending := true, stream := h, done := 0, remaining := h.length)
  }

  function OnFrame(rx: RawRx, f: Frame): RawRx {
    if rx.pending then OnPayload(rx, LenOf(f))
    else
      match f
      case Head(h) => OnHead(rx, h)
      case Payload(_) => rx.(bad := rx.bad + 1)
      case Other(_) => rx
  }

  /** The rx_raw fields of struct tbv_path. */
  class RawReceiver {
    var pending: bool
    var stream: Header
    var done: nat
    var remaining: nat
    var emitted: seq<(Header, Header)>
    var bad: nat

    function Value(): RawRx
      reads this
    {
      RawRx(pending, stream, done, remaining, emitted, bad)
    }

    constructor (h: Header)
      ensures Value() == Idle(h)
    {
      pending, stream, done, remaining, emitted, bad := false, h, 0, 0, [], 0;
    }

    method Begin(h: Header)
      modifies this
      ensures Value() == OnHead(old(Value()), h)
    {
      if h.length == 0 || h.flags >= 8 {
        bad := bad + 1;
        return;
      }
      stream, done, remaining := h, 0, h.length;
      pending := h.length != 0;
    }

    method Take(len: nat) returns (fragment: Option<Header>)
      modifies this
      ensures Value() == OnPayload(old(Value()), len)
      ensures fragment.Some? ==> emitted == old(emitted) + [(stream, fragment.value)]
    {
      if !pending || len == 0 || len > remaining {
        pending, remaining, bad := false, 0, bad + 1;
        return None;
      }
      fragment := RawPayloadHeader(stream, done, remaining, len);
      if fragment.None? {
        pending, remaining, bad := false, 0, bad + 1;
        return;
      }
      if len == remaining {
        pending := false;
      }
      done := done + len;
      remaining := remaining - len;
      emitted := emitted + [(stream, fragment.value)];
    }

    method Receive(f: Frame)
      modifies this
      ensures Value() == OnFrame(old(Value()), f)
    {
      if pending {
        var fragment := Take(LenOf(f));
      } else {
        match f {
          case Head(h) => Begin(h);
          case Payload(_) => bad := bad + 1;
          case Other(_) =>
        }
      }
    }
  }

  function Idle(h: Header): RawRx {
    RawRx(false, h, 0, 0, [], 0)
  }

  // ---------------------------------------------------------------- tiling

  /** A fragment lies inside its stream, changes nothing but its place, length and flags, and is LAST
      exactly if it ends the stream. */
  ghost predicate Fits(e: (Header, Header)) {
    var (s, h) := e;
    && h.length > 0 && h.fragOffset + h.length <= s.length && (IsLast(h.flags) <==> h.fragOffset + h.length == s.length)
    && h == s.(flags := h.flags, length := h.length, fragOffset := h.fragOffset)
  }

  /** The next fragment starts where the one before ended, or starts a new stream after LAST. */
  ghost predicate Follows(a: (Header, Header), b: (Header, Header)) {
    if IsLast(a.1.flags) then b.1.fragOffset == 0
    else b.0 == a.0 && b.1.fragOffset == a.1.fragOffset + a.1.length
  }

  ghost predicate Tiled(emitted: seq<(Header, Header)>) {
    && (forall i :: 0 <= i < |emitted| ==> Fits(emitted[i]))
    && (emitted != [] ==> emitted[0].1.fragOffset == 0)
    && (forall i :: 0 < i < |emitted| ==> Follows(emitted[i - 1], emitted[i]))
  }

  /** Where the fragments so far end: after a whole stream, or inside the current one. */
  ghost predicate EndsAt(emitted: seq<(Header, Header)>, rx: RawRx) {
    if !rx.pending || rx.done == 0 then emitted != [] ==> IsLast(emitted[|emitted| - 1].1.flags)
    else
      && emitted != [] && !IsLast(emitted[|emitted| - 1].1.flags) && emitted[|emitted| - 1].0 == rx.stream
      && emitted[|emitted| - 1].1.fragOffset + emitted[|emitted| - 1].1.length == rx.done
  }

  /** The receiver is where the wire is. */
  ghost predicate InStep(rx: RawRx, f: Follow) {
    && rx.bad == 0 && Tiled(rx.emitted) && EndsAt(rx.emitted, rx)
    && (rx.pending <==> f.cur.Some?)
    && (rx.pending ==> IsRaw(rx.stream.flags) && IsLast(rx.stream.flags) && rx.stream.flags < 8
                       && rx.stream.length == f.cur.value.total && rx.done == f.cur.value.done
                       && rx.remaining == f.cur.value.total - rx.done && rx.remaining > 0)
  }

  /** The frame of a packet; `heads` gives the header that each stream's first packet carries. */
  function FrameOf(p: PathTx.Pkt, heads: map<nat, Header>): Frame {
    if p.start && p.id in heads then Head(heads[p.id]) else if p.zcopy then Payload(p.len) else Other(p.len)
  }

  /** tbv_path_send_page_stream: the first packet announces the total and is marked as LAST and raw. */
  ghost predicate Announced(wire: seq<PathTx.Pkt>, heads: map<nat, Header>) {
    forall i :: 0 <= i < |wire| && wire[i].start ==>
      && wire[i].id in heads && heads[wire[i].id].length == wire[i].len
      && heads[wire[i].id].flags in {F_LAST + F_RAW_STREAM, F_LAST + F_SOLICITED + F_RAW_STREAM}
  }

  function Receive(rx: RawRx, wire: seq<PathTx.Pkt>, heads: map<nat, Header>): RawRx {
    if wire == [] then rx else OnFrame(Receive(rx, wire[..|wire| - 1], heads), FrameOf(wire[|wire| - 1], heads))
  }

  lemma PayloadInStep(rx: RawRx, f: Follow, p: PathTx.Pkt)
    requires InStep(rx, f) && f.cur.Some? && p.zcopy && !p.start && After(f, p).ok
    ensures InStep(OnPayload(rx, p.len), After(f, p))
  {
    var s := OnPayload(rx, p.len);
    var h := RawPayloadHeader(rx.stream, rx.done, rx.remaining, p.len).value;
    FlagsOf(rx.stream.flags);
    assert Fits((rx.stream, h));
    assert forall i :: 0 <= i < |rx.emitted| ==> s.emitted[i] == rx.emitted[i];
  }

  /** The flag arithmetic of a stream marked LAST and raw. */
  lemma FlagsOf(flags: u8)
    requires flags < 8 && IsLast(flags) && IsRaw(flags)
    ensures flags - flags % 8 == 0 && IsLast(flags % 4) && !IsLast(0)
  {
  }

  lemma StepInStep(rx: RawRx, f: Follow, p: PathTx.Pkt, heads: map<nat, Header>)
    requires InStep(rx, f) && f.ok && After(f, p).ok
    requires p.start ==> p.id in heads && heads[p.id].length == p.len
                         && heads[p.id].flags in {F_LAST + F_RAW_STREAM, F_LAST + F_SOLICITED + F_RAW_STREAM}
    ensures InStep(OnFrame(rx, FrameOf(p, heads)), After(f, p))
  {
    hide Tiled;
    if p.zcopy && !p.start {
      PayloadInStep(rx, f, p);
    }
  }

  lemma {:induction false} WireInStep(h: Header, wire: seq<PathTx.Pkt>, heads: map<nat, Header>)
    requires Chain(CALM, wire).ok && Announced(wire, heads)
    ensures InStep(Receive(Idle(h), wire, heads), Chain(CALM, wire))
  {
    if wire != [] {
      var prefix := wire[..|wire| - 1];
      WireInStep(h, prefix, heads);
      StepInStep(Receive(Idle(h), prefix, heads), Chain(CALM, prefix), wire[|wire| - 1], heads);
    }
  }

  /** Raw-stream lockstep end to end: in every run without cancellation and without failed posts, over an
      in-order path, the receiver sees no bad frame and emits fragments that tile each stream in order,
      LAST only on the final one. */
  lemma StreamsTile(frameCount: nat, inflightLimit: nat, queueLimit: nat, creditMax: nat, events: seq<PathTx.Event>,
                    h: Header, heads: map<nat, Header>)
    requires forall k :: 0 <= k < |events| ==> Smooth(events[k])
    requires Announced(PathTx.Run(PathTx.Start(frameCount, inflightLimit, queueLimit, creditMax), events).wire, heads)
    ensures var s := PathTx.Run(PathTx.Start(frameCount, inflightLimit, queueLimit, creditMax), events);
            var rx := Receive(Idle(h), s.wire, heads);
            && rx.bad == 0 && Tiled(rx.emitted)
            && (OnWire(s).cur.None? && rx.emitted != [] ==> IsLast(rx.emitted[|rx.emitted| - 1].1.flags))
  {
    hide Chain;
    hide PathTx.Run;
    hide Receive;
    hide Tiled;
    StreamsStayWhole(frameCount, inflightLimit, queueLimit, creditMax, events);
    WireInStep(h, PathTx.Run(PathTx.Start(frameCount, inflightLimit, queueLimit, creditMax), events).wire, heads);
  }

  /** A frame that cannot be payload of the stream ends the stream and is counted as bad, and nothing is emitted;
      the next good header starts a new stream. */
  lemma BadPayloadEnds(rx: RawRx, f: Frame, h: Header)
    requires rx.pending && (LenOf(f) == 0 || LenOf(f) > rx.remaining) && 0 < h.length && h.flags < 8
    ensures var s := OnFrame(rx, f);
            && s == rx.(pending := false, remaining := 0, bad := rx.bad + 1)
            && OnFrame(s, Head(h)) == s.(pending := true, stream := h, done := 0, remaining := h.length)
  {
  }
}
