/** What a teardown of the rail's path leaves behind, over every run of RailBind. */
module RailTeardown {
  import opened Prelude
  import opened Lists
  import opened RailBind

  /** The drain has timed out with something left, and the rings are stopped. */
  predicate Barriers(r: Rail, e: Event) {
    && e.DrainTimesOut? && r.quiesce.Some? && r.quiesce.value.stage == Canceled
    && (r.inflight != [] || r.queue != []) && Possible(r, e.result)
  }

  ghost predicate BarriersAt(events: seq<Event>, k: nat)
    requires k < |events|
  {
    Barriers(Run(Start(), events[..k]), events[k])
  }

  /** The last barrier was at event k; it left frames unretired, or the rings could not be started again. */
  ghost predicate StoppedAt(events: seq<Event>, k: nat)
    requires k < |events|
  {
    && BarriersAt(events, k) && (events[k].result.unretired != [] || !events[k].result.restart)
    && forall j :: k < j < |events| ==> !BarriersAt(events, j)
  }

  lemma RingsStep(r: Rail, e: Event)
    ensures Step(r, e).ringsStopped
         == if Barriers(r, e) then e.result.unretired != [] || !e.result.restart else r.ringsStopped
  {
    hide Possible;
    hide NoTickets;
    hide OwnerOf;
    hide Without;
    if e.BindQp? {
      BindKeeps(r, e.remote, e.hopMatches);
    }
    hide Bind;
  }

  lemma BarriersPrefix(events: seq<Event>, k: nat)
    requires k + 1 < |events|
    ensures BarriersAt(events[..|events| - 1], k) <==> BarriersAt(events, k)
  {
    hide Run;
    hide Barriers;
    assert events[..|events| - 1][..k] == events[..k];
  }

  lemma StoppedMore(events: seq<Event>, k: nat)
    requires k + 1 < |events| && !BarriersAt(events, |events| - 1)
    ensures StoppedAt(events[..|events| - 1], k) <==> StoppedAt(events, k)
  {
    hide BarriersAt;
    var prefix := events[..|events| - 1];
    forall j | k <= j < |prefix| ensures BarriersAt(prefix, j) <==> BarriersAt(events, j) {
      BarriersPrefix(events, j);
    }
    assert prefix[k] == events[k];
  }

  /** In every run the rings are stopped exactly if the last barrier left them so. */
  lemma {:induction false} RingsExact(events: seq<Event>)
    ensures Run(Start(), events).ringsStopped <==> exists k :: 0 <= k < |events| && StoppedAt(events, k)
  {
    hide Step;
    hide Barriers;
    hide BarriersAt;
    hide StoppedAt;
    if events != [] {
      var n := |events| - 1;
      RingsExact(events[..n]);
      RingsStep(Run(Start(), events[..n]), events[n]);
      if BarriersAt(events, n) {
        RingsNow(events);
      } else {
        assert !Barriers(Run(Start(), events[..n]), events[n]) by { NoBarrier(events); }
        forall k | 0 <= k < n ensures StoppedAt(events[..n], k) <==> StoppedAt(events, k) {
          StoppedMore(events, k);
        }
        NotAtEnd(events);
      }
    }
  }

  lemma NoBarrier(events: seq<Event>)
    requires events != []
    ensures BarriersAt(events, |events| - 1) <==> Barriers(Run(Start(), events[..|events| - 1]), events[|events| - 1])
  {
  }

  lemma NotAtEnd(events: seq<Event>)
    requires events != [] && !BarriersAt(events, |events| - 1)
    ensures !StoppedAt(events, |events| - 1)
  {
  }

  lemma RingsNow(events: seq<Event>)
    requires events != [] && BarriersAt(events, |events| - 1)
    ensures Run(Start(), events).ringsStopped <==> StoppedAt(events, |events| - 1)
    ensures forall k :: 0 <= k < |events| - 1 ==> !StoppedAt(events, k)
  {
    RingsStep(Run(Start(), events[..|events| - 1]), events[|events| - 1]);
    hide Step;
  }

  lemma BindKeeps(r: Rail, remote: Option<nat>, hopMatches: bool)
    ensures var s := Bind(r, remote, hopMatches);
            s.quiesce == r.quiesce && s.lastError == r.lastError && s.ringsStopped == r.ringsStopped
  {
  }

  /** In every run: a quiesce begins without a failure; it has failed once its barrier leaves frames unretired
      or its rings do not start again, or references stay held; and nothing else makes it fail. */
  lemma FailsExactly(events: seq<Event>, e: Event)
    ensures var r := Run(Start(), events);
            var s := Step(r, e);
            s.quiesce.Some? ==>
              s.quiesce.value.failed ==
              if r.quiesce.None? then false
              else if Barriers(r, e) then
                e.result.unretired != [] || (e.result.restart && !e.result.restarted)
              else
                || r.quiesce.value.failed
                || (e.RefsHeld? && r.quiesce.value.stage == Retired && r.quiesce.value.owner.Some?)
  {
    hide Run;
    hide Possible;
    hide NoTickets;
    hide OwnerOf;
    hide Without;
    if e.BindQp? {
      BindKeeps(Run(Start(), events), e.remote, e.hopMatches);
    }
    hide Bind;
  }

  /** In every run, the section that records a quiesce's outcome quarantines the rail if the quiesce has failed
      or its barrier started the rings again; else it leaves the rail unbound, or quarantined if it was. The
      error is remembered and the owner let go; transmission then opens exactly on an unbound rail after a drain
      without a barrier, if the rail is not being removed. */
  lemma FinishExact(events: seq<Event>, e: Event)
    requires var r := Run(Start(), events);
             e.Finish? && r.quiesce.Some? && r.quiesce.value.stage == RefsDone
    ensures var r := Run(Start(), events);
            var q := r.quiesce.value;
            var s := Step(r, e);
            var bad := q.failed || (q.barrier && q.restart);
            && s.state == (if bad then Quarantined else if q.wasQuarantined then r.state else Unbound)
            && s.lastError == q.failed
            && (q.owner.Some? ==> s.bindQp != q.owner)
            && (r.cur.Some? && q.owner == Some(r.cur.value.id) ==>
                  && s.cur.Some? && s.cur.value.id == r.cur.value.id && !s.cur.value.railBound
                  && s.cur.value.retired == (r.cur.value.retired || (q.destroys && !q.failed)))
            && Step(s, Reopen).quiesce.None?
            && Step(s, Reopen).txClosed == (r.txClosed && (bad || s.state != Unbound || q.barrier || r.removing))
  {
    hide Run;
  }

  /** In every run only such a section, and nothing else, changes the error that is remembered. */
  lemma ErrorKept(events: seq<Event>, e: Event)
    requires var r := Run(Start(), events);
             !(e.Finish? && r.quiesce.Some? && r.quiesce.value.stage == RefsDone)
    ensures Step(Run(Start(), events), e).lastError == Run(Start(), events).lastError
  {
    hide Run;
    hide Possible;
    hide NoTickets;
    hide OwnerOf;
    hide Without;
    if e.BindQp? {
      BindKeeps(Run(Start(), events), e.remote, e.hopMatches);
    }
    hide Bind;
    hide Released;
  }

  // ---------------------------------------------------------------- threads and packets

  /** In every run a thread takes hold of the path exactly if its queue pair owns the rail in its own epoch;
      what it enqueues joins the end of the queue while transmission is open, and is dropped otherwise. */
  lemma EnqueueExact(events: seq<Event>, i: nat)
    ensures var r := Run(Start(), events);
            var owns := && r.cur.Some? && r.cur.value.railBound && r.state == Bound
                        && r.bindQp == Some(r.cur.value.id) && r.epoch == r.cur.value.bindEpoch;
            && Step(r, Select).tickets
               == (if owns then r.tickets + [Ticket(r.cur.value.id, r.epoch)] else r.tickets)
            && (i < |r.tickets| ==>
                  && Step(r, Enqueue(i)).tickets == r.tickets[..i] + r.tickets[i + 1..]
                  && Step(r, Enqueue(i)).queue == if r.txClosed then r.queue else r.queue + [r.tickets[i].epoch])
            && Step(r, Submit).inflight
               == (if r.txClosed || r.queue == [] then r.inflight else r.inflight + [r.queue[0]])
  {
    hide Run;
  }
}
