/** The sender half of proto/reliability.c: one operation, cut into frames,
    resent on time-out and on receiver-not-ready, and completed exactly once. */
module ReliabilityTx {
  import opened Prelude
  import opened Cut

  const MAX_FRAGS: u32 := 64
  const RETRY_INFINITE: u32 := 0xFFFF_FFFF

  // enum tbv_rel_ack_status and enum tbv_rel_completion_status
  const ACK_OK: u8 := 0
  const ACK_RNR: u8 := 1
  const ACK_ERROR: u8 := 2
  const COMP_OK: u8 := 0
  const COMP_RNR_RETRY_EXHAUSTED: u8 := 1
  const COMP_RETRY_EXHAUSTED: u8 := 2
  const COMP_REMOTE_ERROR: u8 := 3

  datatype Error = EINVAL | EMSGSIZE | ENODATA | EBUSY

  datatype Result<+T> = Ok(value: T) | Err(error: Error)

  datatype DataFrame = DataFrame(connId: u64, opId: u32, frameSeq: u32, retryGeneration: u32,
                                 offset: u32, length: u32, fragIndex: u16, fragCount: u16, op: u8)

  datatype AckFrame = AckFrame(connId: u64, opId: u32, retryGeneration: u32, status: u8)

  datatype Completion = NoCompletion | Completed(opId: u32, status: u8)

  datatype TxState = Empty | Ready | InFlight | Complete | Failed

  datatype Tx = Tx(connId: u64, opId: u32, op: u8, totalLen: u32, maxPayload: u32, frameCount: u32,
                   nextFrame: u32, retryGeneration: u32, retryBudget: u32, rnrBudget: u32,
                   localTxFrames: u32, completionCount: u32, state: TxState)

  const EMPTY_TX: Tx := Tx(0, 0, 0, 0, 0, 0, 0, 0, 0, 0, 0, 0, Empty)

  predicate ValidOp(op: u8) {
    1 <= op <= 5
  }

  // ---------------------------------------------------------------- specification

  /** A started operation: the shape that Start establishes and every later call keeps. */
  ghost predicate Shaped(t: Tx) {
    && t.maxPayload > 0
    && ValidOp(t.op)
    && t.frameCount == FrameCount(t.totalLen, t.maxPayload) <= MAX_FRAGS
    && t.nextFrame <= t.frameCount
  }

  /** What every call may rely on: an operation that can still send was really started. */
  ghost predicate Sound(t: Tx) {
    && (t.state == Ready || t.state == InFlight ==> Shaped(t))
    && (t.state == Empty ==> t == EMPTY_TX)
  }

  function Start(connId: u64, opId: u32, op: u8, totalLen: u32, maxPayload: u32,
                 retryBudget: u32, rnrBudget: u32): (r: Result<Tx>)
  {
    if !ValidOp(op) || maxPayload == 0 then Err(EINVAL)
    else
      var count := FrameCount(totalLen, maxPayload);
      if SumWraps(totalLen, maxPayload) || count > MAX_FRAGS then Err(EMSGSIZE)
      else Ok(Tx(connId, opId, op, totalLen, maxPayload, count, 0, 0, retryBudget, rnrBudget, 0, 0, Ready))
  }

  /** The frame that carries fragment i of the operation. */
  function FrameOf(t: Tx, i: nat): (f: DataFrame)
    requires Shaped(t) && i < t.frameCount
  {
    FragFits(t.totalLen, t.maxPayload, i);
    DataFrame(t.connId, t.opId, i, t.retryGeneration, i * t.maxPayload,
              FragLen(t.totalLen, t.maxPayload, i), i, t.frameCount, t.op)
  }

  function NextFrame(t: Tx): (r: (Tx, Result<DataFrame>))
    requires Sound(t)
  {
    if t.state != Ready && t.state != InFlight then (t, Err(EINVAL))
    else if t.nextFrame >= t.frameCount then (t, Err(ENODATA))
    else (t.(nextFrame := t.nextFrame + 1, localTxFrames := Add32(t.localTxFrames, 1), state := InFlight),
          Ok(FrameOf(t, t.nextFrame)))
  }

  /** Rewind to the first frame under a new generation. */
  function Rewind(t: Tx): Tx {
    t.(retryGeneration := Add32(t.retryGeneration, 1), nextFrame := 0)
  }

  function Finish(t: Tx, state: TxState, status: u8): (Tx, Completion) {
    (t.(state := state, completionCount := Add32(t.completionCount, 1)), Completed(t.opId, status))
  }

  function Spend(budget: u32): (r: u32)
    requires budget > 0
  {
    if budget == RETRY_INFINITE then budget else budget - 1
  }

  function OnTimeout(t: Tx): (r: (Tx, Result<Completion>)) {
    if t.state != InFlight then (t, Err(EINVAL))
    else if t.retryBudget == 0 then
      var (t', c) := Finish(t, Failed, COMP_RETRY_EXHAUSTED); (t', Ok(c))
    else (Rewind(t).(retryBudget := Spend(t.retryBudget)), Ok(NoCompletion))
  }

  function OnAck(t: Tx, ack: AckFrame): (r: (Tx, Result<Completion>)) {
    if ack.connId != t.connId || ack.opId != t.opId || t.state == Complete || t.state == Failed then
      (t, Ok(NoCompletion))
    else if ack.status == ACK_OK then
      var (t', c) := Finish(t, Complete, COMP_OK); (t', Ok(c))
    else if ack.status == ACK_RNR then
      if t.rnrBudget == 0 then
        var (t', c) := Finish(t, Failed, COMP_RNR_RETRY_EXHAUSTED); (t', Ok(c))
      else (Rewind(t).(rnrBudget := Spend(t.rnrBudget), state := Ready), Ok(NoCompletion))
    else if ack.status == ACK_ERROR then
      var (t', c) := Finish(t, Failed, COMP_REMOTE_ERROR); (t', Ok(c))
    else (t, Err(EINVAL))
  }

  // ---------------------------------------------------------------- the C struct

  /** struct tbv_rel_tx_op, updated in place. */
  class TxOp {
    var connId: u64
    var opId: u32
    var op: u8
    var totalLen: u32
    var maxPayload: u32
    var frameCount: u32
    var nextFrame: u32
    var retryGeneration: u32
    var retryBudget: u32
    var rnrBudget: u32
    var localTxFrames: u32
    var completionCount: u32
    var state: TxState

    ghost function Value(): Tx
      reads this
    {
      Tx(connId, opId, op, totalLen, maxPayload, frameCount, nextFrame, retryGeneration, retryBudget,
         rnrBudget, localTxFrames, completionCount, state)
    }

    ghost predicate Valid()
      reads this
    {
      Sound(Value())
    }

    constructor ()
      ensures Value() == EMPTY_TX
    {
      connId, opId, op, totalLen, maxPayload, frameCount, nextFrame := 0, 0, 0, 0, 0, 0, 0;
      retryGeneration, retryBudget, rnrBudget, localTxFrames, completionCount := 0, 0, 0, 0, 0;
      state := Empty;
    }

    /** The frame count in 32-bit arithmetic, as the source computes it. */
    static method CountFrames(totalLen: u32, maxPayload: u32) returns (count: u32)
      requires maxPayload > 0
      ensures count == if SumWraps(totalLen, maxPayload) then 0 else FrameCount(totalLen, maxPayload)
    {
      if totalLen == 0 {
        return 1;
      }
      WrappedCount(totalLen, maxPayload);
      var rounded: u32 := Add32(totalLen, maxPayload - 1);
      count := rounded / maxPayload;
    }

    method Begin(connId: u64, opId: u32, op: u8, totalLen: u32, maxPayload: u32,
                 retryBudget: u32, rnrBudget: u32) returns (error: Result<()>)
      requires Valid()
      modifies this
      ensures Valid()
      ensures var r := Start(connId, opId, op, totalLen, maxPayload, retryBudget, rnrBudget);
              if r.Ok? then error == Ok(()) && Value() == r.value
              else error.Err? && error.error == r.error && Value() == old(Value())
    {
      if !ValidOp(op) || maxPayload == 0 {
        return Err(EINVAL);
      }
      var count := CountFrames(totalLen, maxPayload);
      if count == 0 || count > MAX_FRAGS {
        return Err(EMSGSIZE);
      }
      Reset(connId, opId, op, totalLen, maxPayload, count, retryBudget, rnrBudget);
      return Ok(());
    }

    method Reset(connId: u64, opId: u32, op: u8, totalLen: u32, maxPayload: u32, count: u32,
                 retryBudget: u32, rnrBudget: u32)
      modifies this
      ensures Value() == Tx(connId, opId, op, totalLen, maxPayload, count, 0, 0, retryBudget, rnrBudget, 0, 0, Ready)
    {
      this.connId, this.opId, this.op := connId, opId, op;
      this.totalLen, this.maxPayload, this.frameCount := totalLen, maxPayload, count;
      this.nextFrame, this.retryGeneration := 0, 0;
      this.retryBudget, this.rnrBudget := retryBudget, rnrBudget;
      this.localTxFrames, this.completionCount := 0, 0;
      this.state := Ready;
    }

    method Next() returns (frame: Result<DataFrame>)
      requires Valid()
      modifies this
      ensures Valid()
      ensures (Value(), frame) == NextFrame(old(Value()))
    {
      if state != Ready && state != InFlight {
        return Err(EINVAL);
      }
      if nextFrame >= frameCount {
        return Err(ENODATA);
      }
      FragFits(totalLen, maxPayload, nextFrame);
      var offset: u32 := nextFrame * maxPayload % U32_MOD;
      var remaining: u32 := if totalLen > offset then totalLen - offset else 0;
      var len: u32 := if remaining > maxPayload then maxPayload else remaining;
      frame := Ok(DataFrame(connId, opId, nextFrame, retryGeneration, offset, len, nextFrame, frameCount, op));
      nextFrame := nextFrame + 1;
      localTxFrames := Add32(localTxFrames, 1);
      state := InFlight;
    }

    method Timeout() returns (completion: Result<Completion>)
      requires Valid()
      modifies this
      ensures Valid()
      ensures (Value(), completion) == OnTimeout(old(Value()))
    {
      if state != InFlight {
        return Err(EINVAL);
      }
      if retryBudget != RETRY_INFINITE && retryBudget == 0 {
        state := Failed;
        completionCount := Add32(completionCount, 1);
        return Ok(Completed(opId, COMP_RETRY_EXHAUSTED));
      }
      if retryBudget != RETRY_INFINITE {
        retryBudget := retryBudget - 1;
      }
      retryGeneration := Add32(retryGeneration, 1);
      nextFrame := 0;
      return Ok(NoCompletion);
    }

    method Ack(ack: AckFrame) returns (completion: Result<Completion>)
      requires Valid()
      modifies this
      ensures Valid()
      ensures (Value(), completion) == OnAck(old(Value()), ack)
    {
      if ack.connId != connId || ack.opId != opId {
        return Ok(NoCompletion);
      }
      if state == Complete || state == Failed {
        return Ok(NoCompletion);
      }
      if ack.status == ACK_OK {
        state := Complete;
        completionCount := Add32(completionCount, 1);
        return Ok(Completed(opId, COMP_OK));
      } else if ack.status == ACK_RNR {
        if rnrBudget != RETRY_INFINITE && rnrBudget == 0 {
          state := Failed;
          completionCount := Add32(completionCount, 1);
          return Ok(Completed(opId, COMP_RNR_RETRY_EXHAUSTED));
        }
        if rnrBudget != RETRY_INFINITE {
          rnrBudget := rnrBudget - 1;
        }
        retryGeneration := Add32(retryGeneration, 1);
        nextFrame := 0;
        state := Ready;
        return Ok(NoCompletion);
      } else if ack.status == ACK_ERROR {
        state := Failed;
        completionCount := Add32(completionCount, 1);
        return Ok(Completed(opId, COMP_REMOTE_ERROR));
      } else {
        return Err(EINVAL);
      }
    }
  }

  // ---------------------------------------------------------------- every run of one sender

  datatype Event = Emit | Expire | Acked(ack: AckFrame)

  /** What the outside has seen of a sender: the frames it emitted and the completions it raised. */
  datatype Trace = Trace(tx: Tx, frames: seq<DataFrame>, completions: seq<Completion>)

  function Raised(r: Result<Completion>): seq<Completion> {
    if r.Ok? && r.value.Completed? then [r.value] else []
  }

  function Step(tr: Trace, e: Event): (r: Trace)
    requires Sound(tr.tx)
    ensures Sound(r.tx)
  {
    match e
    case Emit =>
      var (t, f) := NextFrame(tr.tx);
      Trace(t, if f.Ok? then tr.frames + [f.value] else tr.frames, tr.completions)
    case Expire =>
      var (t, c) := OnTimeout(tr.tx);
      Trace(t, tr.frames, tr.completions + Raised(c))
    case Acked(ack) =>
      var (t, c) := OnAck(tr.tx, ack);
      Trace(t, tr.frames, tr.completions + Raised(c))
  }

  function Run(t: Tx, events: seq<Event>): (r: Trace)
    requires Sound(t)
    ensures Sound(r.tx)
  {
    if events == [] then Trace(t, [], [])
    else Step(Run(t, events[..|events| - 1]), events[|events| - 1])
  }

  predicate Live(t: Tx) {
    t.state == Ready || t.state == InFlight
  }

  /** A fresh operation, as a successful start leaves it. */
  ghost predicate Fresh(t: Tx) {
    Shaped(t) && t.nextFrame == 0 && t.state == Ready
  }

  ghost predicate SameMessage(t: Tx, u: Tx) {
    && t.connId == u.connId && t.opId == u.opId && t.op == u.op
    && t.totalLen == u.totalLen && t.maxPayload == u.maxPayload && t.frameCount == u.frameCount
  }

  /** An accepted start is fresh and carries the true frame count; a start is refused for its size
      exactly when that count exceeds 64 or the 32-bit sum wraps. */
  lemma StartAccepts(connId: u64, opId: u32, op: u8, totalLen: u32, maxPayload: u32,
                     retryBudget: u32, rnrBudget: u32)
    requires ValidOp(op) && maxPayload > 0
    ensures var r := Start(connId, opId, op, totalLen, maxPayload, retryBudget, rnrBudget);
            && (r.Ok? <==> FrameCount(totalLen, maxPayload) <= MAX_FRAGS && !SumWraps(totalLen, maxPayload))
            && (r.Ok? ==> Fresh(r.value) && r.value.frameCount == FrameCount(totalLen, maxPayload))
  {
  }

  /** A message of two frames that is refused for its size, because the 32-bit sum wraps. */
  lemma WrapRefusesTwoFrames(connId: u64, opId: u32, retryBudget: u32, rnrBudget: u32)
    ensures var totalLen, maxPayload := 0xFFFF_FFFF, 0x8000_0000;
            && FrameCount(totalLen, maxPayload) == 2 <= MAX_FRAGS
            && Start(connId, opId, 1, totalLen, maxPayload, retryBudget, rnrBudget) == Err(EMSGSIZE)
  {
    var totalLen, maxPayload := 0xFFFF_FFFF, 0x8000_0000;
    assert (totalLen + maxPayload - 1) / maxPayload == 2;
  }

  /** Nothing raised while the operation is live; afterwards exactly one completion, and it says OK
      exactly when the operation completed. */
  predicate RaisedOnce(t: Tx, completions: seq<Completion>) {
    if Live(t) then completions == []
    else
      && |completions| == 1 && completions[0].Completed? && completions[0].opId == t.opId
      && (completions[0].status == COMP_OK <==> t.state == Complete)
  }

  lemma StepRaises(tr: Trace, e: Event)
    requires Sound(tr.tx) && tr.tx.state != Empty && RaisedOnce(tr.tx, tr.completions)
    ensures var r := Step(tr, e);
            SameMessage(tr.tx, r.tx) && r.tx.state != Empty && RaisedOnce(r.tx, r.completions)
  {
  }

  /** In any run a sender keeps its message and completes at most once. */
  lemma {:induction false} CompletesOnce(t: Tx, events: seq<Event>)
    requires Fresh(t)
    ensures var r := Run(t, events);
            SameMessage(t, r.tx) && r.tx.state != Empty && RaisedOnce(r.tx, r.completions)
  {
    if events != [] {
      CompletesOnce(t, events[..|events| - 1]);
      StepRaises(Run(t, events[..|events| - 1]), events[|events| - 1]);
    }
  }

  /** n passes over m frames. */
  function Passes(n: nat, m: nat): (r: nat)
    ensures r == n * m
  {
    if n == 0 then 0
    else
      MulSucc(n - 1, m);
      m + Passes(n - 1, m)
  }

  /** What a sender may still emit: the rest of this pass, and one pass for every retry left. */
  ghost function Potential(t: Tx): int {
    if Live(t) then t.frameCount - t.nextFrame + Passes(t.retryBudget + t.rnrBudget, t.frameCount) else 0
  }

  lemma StepPotential(tr: Trace, e: Event)
    requires Sound(tr.tx) && tr.tx.retryBudget < RETRY_INFINITE && tr.tx.rnrBudget < RETRY_INFINITE
    ensures var r := Step(tr, e);
            && |r.frames| + Potential(r.tx) <= |tr.frames| + Potential(tr.tx)
            && Potential(r.tx) >= 0
            && r.tx.retryBudget <= tr.tx.retryBudget && r.tx.rnrBudget <= tr.tx.rnrBudget
  {
  }

  /** Retry termination: with finite budgets no event sequence makes a sender emit more than
      (1 + retry budget + RNR budget) passes over its message. */
  lemma {:induction false} EmissionBound(t: Tx, events: seq<Event>)
    requires Fresh(t) && t.retryBudget < RETRY_INFINITE && t.rnrBudget < RETRY_INFINITE
    ensures var r := Run(t, events);
            && |r.frames| + Potential(r.tx) <= (1 + t.retryBudget + t.rnrBudget) * t.frameCount
            && Potential(r.tx) >= 0
            && r.tx.retryBudget <= t.retryBudget && r.tx.rnrBudget <= t.rnrBudget
  {
    if events == [] {
      MulSucc(t.retryBudget + t.rnrBudget, t.frameCount);
    } else {
      EmissionBound(t, events[..|events| - 1]);
      StepPotential(Run(t, events[..|events| - 1]), events[|events| - 1]);
    }
  }

  ghost predicate SameFrame(f: DataFrame, g: DataFrame) {
    f == g.(retryGeneration := f.retryGeneration)
  }

  // ---------------------------------------------------------------- passes

  /** Fragment i of a message, field by field, under a generation. */
  function FragmentOf(t: Tx, i: nat, generation: u32): (f: DataFrame)
    requires Shaped(t) && i < t.frameCount
  {
    FragFits(t.totalLen, t.maxPayload, i);
    DataFrame(t.connId, t.opId, i, generation, i * t.maxPayload, FragLen(t.totalLen, t.maxPayload, i), i,
              t.frameCount, t.op)
  }

  /** Every emitted frame is one of the fragments of the message. */
  lemma {:induction false} EmitsFragments(t: Tx, events: seq<Event>)
    requires Fresh(t)
    ensures forall f :: f in Run(t, events).frames
              ==> f.fragIndex < t.frameCount && f == FragmentOf(t, f.fragIndex, f.retryGeneration)
  {
    if events != [] {
      EmitsFragments(t, events[..|events| - 1]);
      CompletesOnce(t, events[..|events| - 1]);
    }
  }

  /** The first k fragments. */
  function Pass(t: Tx, generation: u32, k: nat): (r: seq<DataFrame>)
    requires Shaped(t) && k <= t.frameCount
    ensures |r| == k && forall i :: 0 <= i < k ==> r[i] == FragmentOf(t, i, generation)
  {
    seq(k, i requires 0 <= i < k => FragmentOf(t, i, generation))
  }

  function Emits(k: nat): (r: seq<Event>)
    ensures |r| == k && forall i :: 0 <= i < k ==> r[i] == Emit
  {
    seq(k, i => Emit)
  }

  /** A time-out of an operation in flight. */
  predicate TimesOut(t: Tx, e: Event) {
    e.Expire? && t.state == InFlight
  }

  /** An acknowledgement with this status for a live operation. */
  predicate Answers(t: Tx, e: Event, status: u8) {
    e.Acked? && Live(t) && e.ack.connId == t.connId && e.ack.opId == t.opId && e.ack.status == status
  }

  lemma RunMore(t: Tx, events: seq<Event>, e: Event)
    requires Sound(t)
    ensures Run(t, events + [e]) == Step(Run(t, events), e)
  {
    assert (events + [e])[..|events|] == events;
  }

  /** From the start of a pass, k emissions give the first k fragments. */
  lemma {:induction false} EmitsPass(t: Tx, events: seq<Event>, k: nat)
    requires Fresh(t) && var a := Run(t, events).tx; Live(a) && a.nextFrame == 0
    requires k <= t.frameCount
    ensures var a, c := Run(t, events), Run(t, events + Emits(k));
            && c.frames == a.frames + Pass(t, a.tx.retryGeneration, k) && c.completions == a.completions
            && Live(c.tx) && c.tx.nextFrame == k && c.tx.retryGeneration == a.tx.retryGeneration
  {
    hide Step;
    hide Shaped;
    hide Run;
    hide Pass;
    hide FragmentOf;
    hide SameMessage;
    hide Fresh;
    hide Live;
    hide RaisedOnce;
    MessageShaped(t, t);
    if k == 0 {
      assert events + Emits(0) == events;
      NoPass(t, Run(t, events).tx.retryGeneration);
    } else {
      EmitsPass(t, events, k - 1);
      assert events + Emits(k) == events + Emits(k - 1) + [Emit];
      RunMore(t, events + Emits(k - 1), Emit);
      CompletesOnce(t, events + Emits(k - 1));
      EmitOne(t, Run(t, events + Emits(k - 1)));
      PassMore(t, Run(t, events).tx.retryGeneration, k - 1);
    }
  }

  lemma NoPass(t: Tx, generation: u32)
    requires Shaped(t)
    ensures Pass(t, generation, 0) == []
  {
  }

  lemma PassMore(t: Tx, generation: u32, k: nat)
    requires Shaped(t) && k < t.frameCount
    ensures Pass(t, generation, k + 1) == Pass(t, generation, k) + [FragmentOf(t, k, generation)]
  {
    hide FragmentOf;
  }

  lemma MessageShaped(t: Tx, u: Tx)
    requires Fresh(t)
    ensures Shaped(t) && Sound(t) && (SameMessage(t, u) ==> u.frameCount == t.frameCount)
  {
  }

  lemma EmitOne(t: Tx, tr: Trace)
    requires Shaped(t) && Sound(tr.tx) && Live(tr.tx) && SameMessage(t, tr.tx) && tr.tx.nextFrame < t.frameCount
    ensures var r := Step(tr, Emit);
            && r.frames == tr.frames + [FragmentOf(t, tr.tx.nextFrame, tr.tx.retryGeneration)]
            && r.completions == tr.completions && Live(r.tx)
            && r.tx.nextFrame == tr.tx.nextFrame + 1 && r.tx.retryGeneration == tr.tx.retryGeneration
  {
  }

  /** An operation begins with a pass: emissions give all fragments in order. */
  lemma FirstPass(t: Tx)
    requires Fresh(t)
    ensures Run(t, Emits(t.frameCount)).frames == Pass(t, t.retryGeneration, t.frameCount)
  {
    hide Step;
    hide FragmentOf;
    hide FrameCount;
    hide Pass;
    assert Run(t, []) == Trace(t, [], []);
    EmitsPass(t, [], t.frameCount);
    assert [] + Emits(t.frameCount) == Emits(t.frameCount);
  }

  /** Retransmission: in any run, after a time-out in flight or a receiver-not-ready answer that completes
      nothing, the next emissions are all fragments in order, under the next generation. */
  lemma Resends(t: Tx, events: seq<Event>, e: Event)
    requires Fresh(t)
    requires var a := Run(t, events); (TimesOut(a.tx, e) || Answers(a.tx, e, ACK_RNR))
                                      && Run(t, events + [e]).completions == a.completions
    ensures var a, c := Run(t, events), Run(t, events + [e] + Emits(t.frameCount));
            && c.frames == a.frames + Pass(t, Add32(a.tx.retryGeneration, 1), t.frameCount)
            && c.completions == a.completions && Live(c.tx)
  {
    hide Pass;
    RunMore(t, events, e);
    CompletesOnce(t, events);
    EmitsPass(t, events + [e], t.frameCount);
  }

  // ---------------------------------------------------------------- budgets and completions

  /** The time-outs that struck the operation in flight. */
  function TimeOuts(t: Tx, events: seq<Event>): nat
    requires Sound(t)
  {
    if events == [] then 0
    else
      var prefix, e := events[..|events| - 1], events[|events| - 1];
      TimeOuts(t, prefix) + if TimesOut(Run(t, prefix).tx, e) then 1 else 0
  }

  /** The receiver-not-ready answers that reached the live operation. */
  function NotReadies(t: Tx, events: seq<Event>): nat
    requires Sound(t)
  {
    if events == [] then 0
    else
      var prefix, e := events[..|events| - 1], events[|events| - 1];
      NotReadies(t, prefix) + if Answers(Run(t, prefix).tx, e, ACK_RNR) then 1 else 0
  }

  /** What is left of a budget after n retries. */
  predicate Left(budget: u32, n: nat, rest: u32) {
    if budget == RETRY_INFINITE then rest == RETRY_INFINITE else n <= budget && rest == budget - n
  }

  /** A finite budget is overdrawn by one. */
  predicate Overdrawn(budget: u32, n: nat) {
    budget != RETRY_INFINITE && n == budget + 1
  }

  /** Why an event ends operation u with this status, after so many retries of the started operation t. */
  predicate Causes(t: Tx, u: Tx, e: Event, timeOuts: nat, notReadies: nat, status: u8) {
    || (status == COMP_OK && Answers(u, e, ACK_OK))
    || (status == COMP_REMOTE_ERROR && Answers(u, e, ACK_ERROR))
    || (status == COMP_RNR_RETRY_EXHAUSTED && Answers(u, e, ACK_RNR) && Overdrawn(t.rnrBudget, notReadies))
    || (status == COMP_RETRY_EXHAUSTED && TimesOut(u, e) && Overdrawn(t.retryBudget, timeOuts))
  }

  /** Event k ends the operation with this status. */
  predicate EndsWith(t: Tx, events: seq<Event>, k: nat, status: u8)
    requires Sound(t) && k < |events|
  {
    Causes(t, Run(t, events[..k]).tx, events[k], TimeOuts(t, events[..k + 1]), NotReadies(t, events[..k + 1]), status)
  }

  /** The budgets are spent exactly by the retries there were, and every retry is a new generation. */
  ghost predicate Spent(t: Tx, u: Tx, timeOuts: nat, notReadies: nat) {
    && Left(t.retryBudget, timeOuts, u.retryBudget) && Left(t.rnrBudget, notReadies, u.rnrBudget)
    && u.retryGeneration == (t.retryGeneration + timeOuts + notReadies) % U32_MOD
  }

  lemma AddOne(a: nat)
    ensures Add32(a % U32_MOD, 1) == (a + 1) % U32_MOD
  {
  }

  lemma SpentStep(t: Tx, tr: Trace, e: Event, timeOuts: nat, notReadies: nat)
    requires Fresh(t) && SameMessage(t, tr.tx) && Sound(tr.tx) && Live(tr.tx) && tr.completions == []
    requires Spent(t, tr.tx, timeOuts, notReadies)
    ensures var r := Step(tr, e);
            var n, m := if TimesOut(tr.tx, e) then timeOuts + 1 else timeOuts,
                        if Answers(tr.tx, e, ACK_RNR) then notReadies + 1 else notReadies;
            && (Live(r.tx) ==> r.completions == [] && Spent(t, r.tx, n, m))
            && (Live(r.tx) <==> forall status :: !Causes(t, tr.tx, e, n, m, status))
            && (!Live(r.tx) ==>
                  exists status :: Causes(t, tr.tx, e, n, m, status) && r.completions == [Completed(t.opId, status)])
  {
    hide FrameOf;
    var r := Step(tr, e);
    var n, m := if TimesOut(tr.tx, e) then timeOuts + 1 else timeOuts,
                if Answers(tr.tx, e, ACK_RNR) then notReadies + 1 else notReadies;
    AddOne(t.retryGeneration + timeOuts + notReadies);
    if !Live(r.tx) {
      assert Causes(t, tr.tx, e, n, m, r.completions[0].status);
    }
  }

  lemma SpentNothing(t: Tx)
    requires Fresh(t)
    ensures Spent(t, t, 0, 0) && Sound(t) && Live(t)
  {
  }

  lemma StaysOver(tr: Trace, e: Event)
    requires Sound(tr.tx) && !Live(tr.tx) && tr.tx.state != Empty
    ensures !Live(Step(tr, e).tx) && Step(tr, e).completions == tr.completions
  {
  }

  lemma EndsPrefix(t: Tx, events: seq<Event>, k: nat, status: u8)
    requires Sound(t) && k + 1 < |events|
    ensures EndsWith(t, events[..|events| - 1], k, status) <==> EndsWith(t, events, k, status)
  {
    hide Run;
    hide TimeOuts;
    hide NotReadies;
    var prefix := events[..|events| - 1];
    assert prefix[..k] == events[..k] && prefix[..k + 1] == events[..k + 1];
  }

  /** An event ends the operation. */
  ghost predicate Ended(t: Tx, events: seq<Event>, status: u8)
    requires Sound(t)
  {
    exists k :: 0 <= k < |events| && EndsWith(t, events, k, status)
  }

  lemma EndedEarlier(t: Tx, events: seq<Event>, status: u8)
    requires Sound(t) && events != []
    ensures var n := |events| - 1;
            Ended(t, events, status) <==> Ended(t, events[..n], status) || EndsWith(t, events, n, status)
  {
    hide EndsWith;
    var n := |events| - 1;
    forall k: nat | k < n ensures EndsWith(t, events[..n], k, status) <==> EndsWith(t, events, k, status) {
      EndsPrefix(t, events, k, status);
    }
  }

  /** In any run: the budgets of a live operation are spent exactly by the retries there were, and each retry
      began a new generation; the operation is over exactly when an event has ended it, and its one
      completion has the status of that event. */
  lemma {:induction false} CompletionExact(t: Tx, events: seq<Event>)
    requires Fresh(t)
    ensures var r := Run(t, events);
            && (Live(r.tx) ==> r.completions == [] && Spent(t, r.tx, TimeOuts(t, events), NotReadies(t, events)))
            && (Live(r.tx) <==> forall status :: !Ended(t, events, status))
            && (!Live(r.tx) ==>
                  exists status :: Ended(t, events, status) && r.completions == [Completed(t.opId, status)])
  {
    hide Step;
    hide Spent;
    hide Shaped;
    hide Ended;
    hide EndsWith;
    if events == [] {
      SpentNothing(t);
      NoneEnded(t);
    } else {
      var n := |events| - 1;
      var prefix, e := events[..n], events[n];
      var before := Run(t, prefix);
      CompletesOnce(t, prefix);
      CompletionExact(t, prefix);
      forall status
        ensures Ended(t, events, status) <==> Ended(t, prefix, status) || EndsWith(t, events, n, status)
      {
        EndedEarlier(t, events, status);
      }
      if Live(before.tx) {
        LiveStep(t, events);
      } else {
        forall status: u8 ensures !EndsWith(t, events, n, status) {
          NothingAfter(t, events, status);
        }
        StaysOver(before, e);
      }
    }
  }

  lemma RunLast(t: Tx, events: seq<Event>)
    requires Sound(t) && events != []
    ensures Run(t, events) == Step(Run(t, events[..|events| - 1]), events[|events| - 1])
  {
  }

  lemma CountMore(t: Tx, events: seq<Event>)
    requires Sound(t) && events != []
    ensures var n := |events| - 1;
            var u, e := Run(t, events[..n]).tx, events[n];
            && TimeOuts(t, events)
               == (if TimesOut(u, e) then TimeOuts(t, events[..n]) + 1 else TimeOuts(t, events[..n]))
            && NotReadies(t, events)
               == if Answers(u, e, ACK_RNR) then NotReadies(t, events[..n]) + 1 else NotReadies(t, events[..n])
  {
  }

  lemma EndsLast(t: Tx, events: seq<Event>)
    requires Sound(t) && events != []
    ensures var n := |events| - 1;
            forall status {:trigger EndsWith(t, events, n, status)} ::
              EndsWith(t, events, n, status)
              <==> Causes(t, Run(t, events[..n]).tx, events[n], TimeOuts(t, events), NotReadies(t, events), status)
  {
    hide Run;
    hide TimeOuts;
    hide NotReadies;
    hide Causes;
    assert events[..|events| - 1 + 1] == events;
  }

  /** The next event of a live operation ends it, or is paid from a budget. */
  lemma LiveCauses(t: Tx, events: seq<Event>)
    requires Fresh(t) && events != []
    requires var b := Run(t, events[..|events| - 1]);
             Live(b.tx) && SameMessage(t, b.tx) && b.completions == []
             && Spent(t, b.tx, TimeOuts(t, events[..|events| - 1]), NotReadies(t, events[..|events| - 1]))
    ensures Sound(t)
    ensures var r, u, e := Run(t, events), Run(t, events[..|events| - 1]).tx, events[|events| - 1];
            var n, m := TimeOuts(t, events), NotReadies(t, events);
            && (Live(r.tx) ==> r.completions == [] && Spent(t, r.tx, n, m))
            && (Live(r.tx) <==> forall status :: !Causes(t, u, e, n, m, status))
            && (!Live(r.tx) ==>
                  exists status :: Causes(t, u, e, n, m, status) && r.completions == [Completed(t.opId, status)])
  {
    hide Step;
    hide Spent;
    hide Shaped;
    hide Causes;
    hide Answers;
    hide TimesOut;
    hide Live;
    hide SameMessage;
    hide Fresh;
    hide Run;
    hide TimeOuts;
    hide NotReadies;
    SpentNothing(t);
    var n := |events| - 1;
    SpentStep(t, Run(t, events[..n]), events[n], TimeOuts(t, events[..n]), NotReadies(t, events[..n]));
    CountMore(t, events);
    RunLast(t, events);
  }

  lemma LiveStep(t: Tx, events: seq<Event>)
    requires Fresh(t) && events != []
    requires var b := Run(t, events[..|events| - 1]);
             Live(b.tx) && SameMessage(t, b.tx) && b.completions == []
             && Spent(t, b.tx, TimeOuts(t, events[..|events| - 1]), NotReadies(t, events[..|events| - 1]))
    ensures var r, n := Run(t, events), |events| - 1;
            && (Live(r.tx) ==> r.completions == [] && Spent(t, r.tx, TimeOuts(t, events), NotReadies(t, events)))
            && (Live(r.tx) ==> forall status {:trigger EndsWith(t, events, n, status)} ::
                                 !EndsWith(t, events, n, status))
            && (!Live(r.tx) ==> exists status :: EndsWith(t, events, n, status)
                                                 && r.completions == [Completed(t.opId, status)])
  {
    hide Run;
    hide TimeOuts;
    hide NotReadies;
    hide EndsWith;
    hide Spent;
    hide Causes;
    hide Live;
    hide SameMessage;
    hide Shaped;
    LiveCauses(t, events);
    EndsLast(t, events);
    var n := |events| - 1;
    if !Live(Run(t, events).tx) {
      var status :| Causes(t, Run(t, events[..n]).tx, events[n], TimeOuts(t, events), NotReadies(t, events), status)
                    && Run(t, events).completions == [Completed(t.opId, status)];
      assert EndsWith(t, events, n, status);
    }
  }

  lemma NothingAfter(t: Tx, events: seq<Event>, status: u8)
    requires Sound(t) && events != [] && !Live(Run(t, events[..|events| - 1]).tx)
    ensures !EndsWith(t, events, |events| - 1, status)
  {
    hide Run;
    hide TimeOuts;
    hide NotReadies;
  }

  lemma NoneEnded(t: Tx)
    requires Sound(t)
    ensures forall status :: !Ended(t, [], status)
  {
  }
}
