/** The transmit window of an Apple queue pair (proto/apple_tx.h, kernel/ibdev.c): each send is charged
    frames for as long as it is outstanding and posts its frames in groups. */
module AppleTx {
  import opened Prelude
  import opened Lists

  const I32_MOD: int := 0x8000_0000
  const MAX_FRAMES: nat := 4096  // 16 MiB in frames of 4 KiB

  /** tbv_apple_tx_frame_charge. */
  function FrameCharge(frames: nat, maxFrames: nat): (r: nat)
    ensures r <= frames && r <= maxFrames && (0 < frames <= maxFrames ==> r == frames)
  {
    if maxFrames == 0 then 0 else if frames < maxFrames then frames else maxFrames
  }

  /** tbv_apple_tx_requires_exclusive_window. */
  predicate NeedsExclusive(frames: nat) {
    frames > 0
  }

  /** An atomic_t counter as the C code reads it. */
  function Signed(x: u32): int {
    if x >= I32_MOD then x - U32_MOD else x
  }

  /** tbv_apple_tx_window_ok; the sum of frames is taken in 32 bits. */
  predicate WindowOk(wr: int, frames: int, exclusive: bool, maxWr: u32, maxFrames: u32, charge: u32) {
    && wr >= 0 && frames >= 0
    && (if exclusive then wr == 0 && frames == 0 else maxWr == 0 || wr < Signed(maxWr))
    && (maxFrames == 0 || (frames + charge) % U32_MOD <= maxFrames)
  }

  /** The module parameters, resolved. */
  datatype Config = Config(pipeline: bool, group: u32, budget: u32, maxWr: u32)

  predicate Exclusive(c: Config, frames: nat) {
    !c.pipeline && NeedsExclusive(frames)
  }

  /** A send that holds the window: its frames, its charge, whether it counts as an outstanding send, the
      frames posted and finished, and those posted in the current group. */
  datatype Job = Job(total: nat, charge: nat, wr: bool, posted: nat, done: nat, inGroup: nat)

  /** `wr` and `frames` are apple_tx_inflight and apple_tx_inflight_frames. */
  datatype Sq = Sq(c: Config, jobs: seq<Job>, wr: u32, frames: u32)

  function ChargeOf(j: Job): nat { j.charge }

  function WrOf(j: Job): nat { if j.wr then 1 else 0 }

  /** Frames posted and not finished. */
  function Unfinished(j: Job): nat {
    if j.posted > j.done then j.posted - j.done else 0
  }

  /** tbv_qp_try_acquire_apple_tx_window succeeds. */
  predicate MayAcquire(s: Sq, total: nat) {
    var charge := FrameCharge(total, s.c.group);
    WindowOk(Signed(s.wr), Signed(s.frames), Exclusive(s.c, total), s.c.maxWr, s.c.budget, charge)
  }

  function Acquire(s: Sq, total: nat): Sq
    requires total <= MAX_FRAMES
  {
    var charge := FrameCharge(total, s.c.group);
    var exclusive := Exclusive(s.c, total);
    if !exclusive && s.c.maxWr == 0 && s.c.budget == 0 then s.(jobs := s.jobs + [Job(total, 0, false, 0, 0, 0)])
    else if !MayAcquire(s, total) then s
    else
      var counts := s.c.maxWr > 0 || exclusive;
      s.(jobs := s.jobs + [Job(total, charge, counts, 0, 0, 0)],
         wr := if counts then Add32(s.wr, 1) else s.wr, frames := Add32(s.frames, charge))
  }

  /** tbv_qp_release_apple_tx_window for the job at place i. */
  function Release(s: Sq, i: nat): Sq
    requires i < |s.jobs|
  {
    var j := s.jobs[i];
    s.(jobs := Without(s.jobs, i), wr := if j.wr then (s.wr - 1) % U32_MOD else s.wr,
       frames := (s.frames - j.charge) % U32_MOD)
  }

  /** One turn of the loop of tbv_apple_sq_transmit: a full group waits until all it posted has finished. */
  function PostFrame(c: Config, j: Job): Job {
    if j.posted >= j.total then j
    else if c.group > 0 && j.inGroup >= c.group then
      if j.done >= j.posted then j.(posted := j.posted + 1, inGroup := 1) else j
    else j.(posted := j.posted + 1, inGroup := j.inGroup + 1)
  }

  /** tbv_apple_send_tx_done without error. */
  function FinishFrame(j: Job): Job {
    if j.done < j.posted then j.(done := j.done + 1) else j
  }

  datatype Event =
    | Begin(total: nat)
    | Unreserved(i: nat)
    | Post(i: nat)
    | FrameDone(i: nat)
    | SendDone

  function Step(s: Sq, e: Event): Sq {
    match e
    case Begin(total) => if 0 < total <= MAX_FRAMES then Acquire(s, total) else s
    case Unreserved(i) => if i < |s.jobs| && s.jobs[i].posted == 0 then Release(s, i) else s
    case Post(i) => if i < |s.jobs| then s.(jobs := s.jobs[i := PostFrame(s.c, s.jobs[i])]) else s
    case FrameDone(i) => if i < |s.jobs| then s.(jobs := s.jobs[i := FinishFrame(s.jobs[i])]) else s
    case SendDone => if s.jobs != [] && s.jobs[0].done == s.jobs[0].total then Release(s, 0) else s
  }

  function Run(s: Sq, events: seq<Event>): Sq {
    if events == [] then s else Step(Run(s, events[..|events| - 1]), events[|events| - 1])
  }

  function Start(c: Config): Sq {
    Sq(c, [], 0, 0)
  }

  // ---------------------------------------------------------------- bounds

  ghost predicate JobTrue(c: Config, j: Job) {
    && 0 < j.total <= MAX_FRAMES && j.charge == FrameCharge(j.total, c.group)
    && j.done <= j.posted <= j.total && j.posted - j.done <= j.inGroup <= c.group
    && (!c.pipeline ==> j.wr) && (c.pipeline && c.maxWr == 0 ==> !j.wr)
  }

  /** The counters are exact, within the budget, and never wrap. */
  ghost predicate Exact(s: Sq) {
    && s.c.group > 0 && s.c.budget > 0
    && (forall i :: 0 <= i < |s.jobs| ==> JobTrue(s.c, s.jobs[i]))
    && Weigh(s.jobs, ChargeOf) == s.frames <= s.c.budget && Weigh(s.jobs, WrOf) == s.wr
    && s.frames < I32_MOD + MAX_FRAMES && s.wr < I32_MOD + 1
    && (!s.c.pipeline ==> |s.jobs| <= 1)
  }

  lemma {:induction false} WeighLess(c: Config, jobs: seq<Job>)
    requires forall i :: 0 <= i < |jobs| ==> JobTrue(c, jobs[i])
    ensures Weigh(jobs, Unfinished) <= Weigh(jobs, ChargeOf)
  {
    if jobs != [] {
      WeighLess(c, jobs[..|jobs| - 1]);
    }
  }

  lemma WeighUpdate(jobs: seq<Job>, i: nat, j: Job, w: Job -> nat)
    requires i < |jobs| && w(j) == w(jobs[i])
    ensures Weigh(jobs[i := j], w) == Weigh(jobs, w)
  {
    WeighWithout(jobs, i, w);
    WeighWithout(jobs[i := j], i, w);
    assert Without(jobs[i := j], i) == Without(jobs, i);
  }

  /** At least the number of jobs that count. */
  lemma {:induction false} WeighCounts(c: Config, jobs: seq<Job>)
    requires !c.pipeline && forall i :: 0 <= i < |jobs| ==> JobTrue(c, jobs[i])
    ensures Weigh(jobs, WrOf) == |jobs|
  {
    if jobs != [] {
      WeighCounts(c, jobs[..|jobs| - 1]);
    }
  }

  lemma AcquireExact(s: Sq, total: nat)
    requires Exact(s) && 0 < total <= MAX_FRAMES
    ensures Exact(Acquire(s, total))
  {
    hide Weigh;
    var t := Acquire(s, total);
    if t != s {
      var j := t.jobs[|s.jobs|];
      WeighOne(s.jobs, j, ChargeOf);
      WeighOne(s.jobs, j, WrOf);
      if !s.c.pipeline {
        WeighCounts(s.c, s.jobs);
      }
    }
  }

  lemma ReleaseExact(s: Sq, i: nat)
    requires Exact(s) && i < |s.jobs|
    ensures Exact(Release(s, i))
  {
    hide Weigh;
    WeighWithout(s.jobs, i, ChargeOf);
    WeighWithout(s.jobs, i, WrOf);
  }

  lemma UpdateExact(s: Sq, i: nat, j: Job)
    requires Exact(s) && i < |s.jobs| && JobTrue(s.c, j) && j.charge == s.jobs[i].charge && j.wr == s.jobs[i].wr
    ensures Exact(s.(jobs := s.jobs[i := j]))
  {
    hide Weigh;
    WeighUpdate(s.jobs, i, j, ChargeOf);
    WeighUpdate(s.jobs, i, j, WrOf);
  }

  lemma StepExact(s: Sq, e: Event)
    requires Exact(s)
    ensures Exact(Step(s, e)) && Step(s, e).c == s.c
  {
    hide Weigh;
    match e
    case Begin(total) => if 0 < total <= MAX_FRAMES { AcquireExact(s, total); }
    case Unreserved(i) => if i < |s.jobs| { ReleaseExact(s, i); }
    case Post(i) => if i < |s.jobs| { UpdateExact(s, i, PostFrame(s.c, s.jobs[i])); }
    case FrameDone(i) => if i < |s.jobs| { UpdateExact(s, i, FinishFrame(s.jobs[i])); }
    case SendDone => if s.jobs != [] { ReleaseExact(s, 0); }
  }

  /** With a fixed non-zero group and budget, in every run without error completions: the frames of the
      queue pair that are posted and not finished never exceed the charged ones, which never exceed the
      budget; and without pipelining only one send is outstanding. */
  lemma {:induction false} TxBound(c: Config, events: seq<Event>)
    requires c.group > 0 && c.budget > 0
    ensures var s := Run(Start(c), events);
            && Exact(s) && s.c == c
            && Weigh(s.jobs, Unfinished) <= Weigh(s.jobs, ChargeOf) == s.frames <= c.budget
            && (!c.pipeline ==> |s.jobs| <= 1)
  {
    hide Step;
    if events != [] {
      TxBound(c, events[..|events| - 1]);
      StepExact(Run(Start(c), events[..|events| - 1]), events[|events| - 1]);
    }
    WeighLess(c, Run(Start(c), events).jobs);
  }

  /** The frames of a send up to the group, none without a group. */
  function Capped(total: nat, group: nat): nat {
    if total < group then total else group
  }

  /** The send got the window: it is the newest to hold it, with nothing posted, and is charged. */
  predicate Acquired(s: Sq, t: Sq, total: nat) {
    && t.c == s.c && |t.jobs| == |s.jobs| + 1 && t.jobs[..|s.jobs|] == s.jobs
    && var j := t.jobs[|s.jobs|];
       && j.total == total && j.posted == 0 && j.done == 0 && j.inGroup == 0
       && (s.c.budget > 0 ==> j.charge == Capped(total, s.c.group) && t.frames == (s.frames + j.charge) % U32_MOD)
  }

  /** In every run a send gets the window exactly if its charge fits the budget beside those outstanding and,
      with pipelining, the limit on sends is zero or, as a signed number, above their count, and without it
      nothing is outstanding; otherwise nothing changes. */
  lemma AcquiresExactly(c: Config, events: seq<Event>, total: nat)
    requires c.group > 0 && c.budget > 0 && 0 < total <= MAX_FRAMES
    ensures var s := Run(Start(c), events);
            var t := Step(s, Begin(total));
            && (Acquired(s, t, total) <==>
                  && Weigh(s.jobs, ChargeOf) < 0x8000_0000
                  && Weigh(s.jobs, ChargeOf) + Capped(total, c.group) <= c.budget
                  && if c.pipeline then c.maxWr == 0 || (c.maxWr < 0x8000_0000 && Weigh(s.jobs, WrOf) < c.maxWr)
                     else s.jobs == [])
            && (!Acquired(s, t, total) ==> t == s)
  {
    TxBound(c, events);
    hide Run;
    hide Weigh;
    hide Acquired;
    var s := Run(Start(c), events);
    IdleWeighs(s);
    assert Step(s, Begin(total)) == Acquire(s, total);
    hide Step;
    hide Acquire;
    AcquireSpec(s, total);
  }

  lemma AcquireSpec(s: Sq, total: nat)
    requires s.c.group > 0 && s.c.budget > 0 && 0 < total <= MAX_FRAMES && s.frames <= s.c.budget
    requires s.frames < I32_MOD + MAX_FRAMES && s.wr < I32_MOD + 1 && (s.c.pipeline && s.c.maxWr == 0 ==> s.wr == 0)
    requires !s.c.pipeline ==> (s.jobs == [] <==> s.wr == 0) && (s.jobs == [] ==> s.frames == 0)
    ensures var t := Acquire(s, total);
            && (Acquired(s, t, total) <==>
                  && s.frames < 0x8000_0000 && s.frames + Capped(total, s.c.group) <= s.c.budget
                  && if s.c.pipeline then s.c.maxWr == 0 || (s.c.maxWr < 0x8000_0000 && s.wr < s.c.maxWr)
                     else s.jobs == [])
            && (!Acquired(s, t, total) ==> t == s)
  {
  }

  /** Without pipelining, nothing is outstanding exactly if no send counts. */
  lemma IdleWeighs(s: Sq)
    requires Exact(s)
    ensures s.jobs == [] ==> s.wr == 0 && s.frames == 0
    ensures !s.c.pipeline && s.jobs != [] ==> s.wr > 0
    ensures s.c.pipeline && s.c.maxWr == 0 ==> s.wr == 0
  {
    if !s.c.pipeline {
      WeighCounts(s.c, s.jobs);
    } else if s.c.maxWr == 0 {
      NoneCounts(s.c, s.jobs);
    }
  }

  lemma {:induction false} NoneCounts(c: Config, jobs: seq<Job>)
    requires c.pipeline && c.maxWr == 0 && forall i :: 0 <= i < |jobs| ==> JobTrue(c, jobs[i])
    ensures Weigh(jobs, WrOf) == 0
  {
    if jobs != [] {
      NoneCounts(c, jobs[..|jobs| - 1]);
    }
  }

  /** An idle window lets a send in exactly if its charge fits the budget and the limit on sends, where it is
      consulted, is not negative as a signed number. */
  lemma IdleAdmits(s: Sq, total: nat)
    requires s.wr == 0 && s.frames == 0 && 0 < total <= MAX_FRAMES
    ensures Acquired(s, Step(s, Begin(total)), total) <==>
              && (s.c.budget == 0 || Capped(total, s.c.group) <= s.c.budget)
              && (s.c.pipeline ==> s.c.maxWr < I32_MOD)
  {
  }

  /** No send waits for ever: whenever nothing is outstanding in a run, a group within the budget is let in. */
  lemma IdleRunAdmits(c: Config, events: seq<Event>, total: nat)
    requires 0 < c.group <= c.budget && 0 < total <= MAX_FRAMES && Run(Start(c), events).jobs == []
    requires c.pipeline ==> c.maxWr < I32_MOD
    ensures Acquired(Run(Start(c), events), Step(Run(Start(c), events), Begin(total)), total)
  {
    TxBound(c, events);
    IdleAdmits(Run(Start(c), events), total);
  }

  /** A send that holds the window goes on: its next frame is posted unless the group is full and not all of it
      has finished; a finished frame is counted; and the oldest send gives the window back when all its
      frames have finished. */
  lemma JobProgress(c: Config, events: seq<Event>, i: nat)
    requires c.group > 0 && c.budget > 0 && i < |Run(Start(c), events).jobs|
    ensures var s := Run(Start(c), events);
            var j := s.jobs[i];
            && (j.posted < j.total && (j.inGroup < c.group || j.done == j.posted) ==>
                  Step(s, Post(i)).jobs[i].posted == j.posted + 1)
            && (j.posted > j.done ==> Step(s, FrameDone(i)).jobs[i].done == j.done + 1)
            && (i == 0 && j.done == j.total ==>
                  && Step(s, SendDone).jobs == s.jobs[1..]
                  && Step(s, SendDone).frames == s.frames - j.charge)
  {
    TxBound(c, events);
    hide Run;
    hide Weigh;
    JobStep(Run(Start(c), events), i);
  }

  lemma JobStep(s: Sq, i: nat)
    requires Exact(s) && i < |s.jobs|
    ensures var j := s.jobs[i];
            && (j.posted < j.total && (j.inGroup < s.c.group || j.done == j.posted) ==>
                  Step(s, Post(i)).jobs[i].posted == j.posted + 1)
            && (j.posted > j.done ==> Step(s, FrameDone(i)).jobs[i].done == j.done + 1)
            && (i == 0 && j.done == j.total ==>
                  && Step(s, SendDone).jobs == s.jobs[1..]
                  && Step(s, SendDone).frames == s.frames - j.charge)
  {
    assert JobTrue(s.c, s.jobs[i]);
    WeighWithout(s.jobs, i, ChargeOf);
    hide Weigh;
    assert Without(s.jobs, 0) == s.jobs[1..];
    hide Exact;
  }

  // ---------------------------------------------------------------- the counters of struct tbv_qp

  class TxWindow {
    const c: Config
    var wr: u32
    var frames: u32

    constructor (c: Config)
      ensures this.c == c && wr == 0 && frames == 0
    {
      this.c, wr, frames := c, 0, 0;
    }

    /** tbv_qp_try_acquire_apple_tx_window on a live queue pair. */
    method TryAcquire(total: nat, ghost jobs: seq<Job>) returns (acquired: bool, counts: bool, charge: nat)
      requires 0 < total <= MAX_FRAMES
      modifies this
      ensures var s := Acquire(Sq(c, jobs, old(wr), old(frames)), total);
              && (wr, frames) == (s.wr, s.frames)
              && (acquired <==> s.jobs != jobs)
              && (acquired ==> s.jobs == jobs + [Job(total, charge, counts, 0, 0, 0)])
    {
      charge := FrameCharge(total, c.group);
      var exclusive := Exclusive(c, total);
      counts := false;
      if !exclusive && c.maxWr == 0 && c.budget == 0 {
        return true, false, 0;
      }
      if !WindowOk(Signed(wr), Signed(frames), exclusive, c.maxWr, c.budget, charge) {
        return false, false, 0;
      }
      counts := c.maxWr > 0 || exclusive;
      if counts {
        wr := Add32(wr, 1);
      }
      if charge > 0 {
        frames := Add32(frames, charge);
      }
      acquired := true;
    }

    /** tbv_qp_release_apple_tx_window. */
    method ReleaseWindow(ghost jobs: seq<Job>, ghost i: nat, counts: bool, charge: nat)
      requires i < |jobs| && jobs[i].wr == counts && jobs[i].charge == charge
      modifies this
      ensures var s := Release(Sq(c, jobs, old(wr), old(frames)), i); (wr, frames) == (s.wr, s.frames)
    {
      if counts {
        wr := (wr - 1) % U32_MOD;
      }
      if charge > 0 {
        frames := (frames - charge) % U32_MOD;
      }
    }
  }
}
