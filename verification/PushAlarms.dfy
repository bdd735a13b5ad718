/** When a push transfer gives up it has a reason, and it never crowds the device. */
module PushAlarms {
  import opened Wire
  import Codec = PushCodec
  import opened PushModel

  predicate Heard(cfg: Config, e: Event) {
    e.Arrival? && e.frame.Some? && e.frame.value.pid == cfg.pid
  }

  // ---- "device unresponsive" -----------------------------------------------------------

  /** Progress queries sent since the last frame of ours arrived. */
  function QueriesSinceHeard(cfg: Config, events: seq<Event>): nat {
    if events == [] then 0
    else
      var before, e := events[..|events| - 1], events[|events| - 1];
      if Heard(cfg, e) then 0
      else
        QueriesSinceHeard(cfg, before)
        + (if Step(cfg, Run(cfg, FRESH, before), e).out == Some(Codec.ProgressQ(cfg.pid)) then 1 else 0)
  }

  lemma QueryCounts(cfg: Config, s: Receiver, e: Event, queries: nat)
    requires s.unanswered <= queries
    requires s.failed == Some(Unresponsive) ==> queries + 1 >= cfg.maxUnanswered
    ensures var a := Step(cfg, s, e);
            var after := if Heard(cfg, e) then 0
                         else queries + (if a.out == Some(Codec.ProgressQ(cfg.pid)) then 1 else 0);
            && (a.next.failed.None? ==> a.next.unanswered <= after)
            && (s.failed.None? && a.next.failed == Some(Unresponsive) ==> after + 1 >= cfg.maxUnanswered)
  {
  }

  /** The silence that made a receiver give the device up, if it did. */
  function FatalSilence(cfg: Config, events: seq<Event>): nat
    decreases |events|
  {
    if events == [] then 0
    else
      var before := events[..|events| - 1];
      if Run(cfg, FRESH, before).failed == Run(cfg, FRESH, events).failed then FatalSilence(cfg, before)
      else QueriesSinceHeard(cfg, events)
  }

  lemma {:induction false} SilenceCounted(cfg: Config, events: seq<Event>)
    ensures var s := Run(cfg, FRESH, events);
            && (s.failed.None? ==> s.unanswered <= QueriesSinceHeard(cfg, events))
            && (s.failed == Some(Unresponsive) ==> FatalSilence(cfg, events) + 1 >= cfg.maxUnanswered)
    decreases |events|
  {
    if events != [] {
      var n := |events| - 1;
      var before, e := events[..n], events[n];
      var s := Run(cfg, FRESH, before);
      SilenceCounted(cfg, before);
      RunSnoc(cfg, FRESH, events);
      if s.failed.None? {
        QueryCounts(cfg, s, e, QueriesSinceHeard(cfg, before));
      } else {
        FailureStays(cfg, s, e);
      }
    }
  }

  lemma FailureStays(cfg: Config, s: Receiver, e: Event)
    requires s.failed.Some?
    ensures Step(cfg, s, e).next.failed == s.failed
  {
  }

  /** No false alarm: a receiver declares the device unresponsive only when, since the
      last frame of any kind that arrived for it, it has sent maxUnanswered - 1
      progress queries or more. Every frame is proof of life. */
  lemma DeadOnlyAfterSilence(cfg: Config, events: seq<Event>)
    ensures Run(cfg, FRESH, events).failed == Some(Unresponsive) ==>
              FatalSilence(cfg, events) >= cfg.maxUnanswered - 1
  {
    SilenceCounted(cfg, events);
  }

  // ---- "stuck" ----------------------------------------------------------------------------

  /** Repair requests sent since the held set last grew. */
  function RepairsSinceGrowth(cfg: Config, events: seq<Event>): nat
    decreases |events|
  {
    if events == [] then 0
    else
      var before, e := events[..|events| - 1], events[|events| - 1];
      var s := Run(cfg, FRESH, before);
      var a := Step(cfg, s, e);
      if |a.next.chunks| > |s.chunks| then 0
      else RepairsSinceGrowth(cfg, before) + (if a.out.Some? && a.out.value.Repair? then 1 else 0)
  }

  predicate StaleCounted(cfg: Config, s: Receiver, repairs: nat) {
    && s.heldAtLastRepair <= |s.chunks|
    && (s.heldAtLastRepair == |s.chunks| ==> s.failed.None? ==> repairs >= s.staleRounds + 1)
    && (s.failed == Some(Stuck) ==> repairs >= cfg.maxStale)
  }

  lemma TickStale(cfg: Config, s: Receiver, at: int, repairs: nat)
    requires StaleCounted(cfg, s, repairs)
    ensures var a := Tick(cfg, s, at);
            StaleCounted(cfg, a.next, repairs + (if a.out.Some? && a.out.value.Repair? then 1 else 0))
  {
    if PassesGate(cfg, s, at) {
      var t := s.(lastTxMs := Some(at));
      if t.manifest.Some? && Missing(t) != [] && t.progressDone {
        assert Tick(cfg, s, at) == AskRepair(cfg, t, Missing(t));
      } else {
        var a := Act(cfg, t);
        assert a.next.heldAtLastRepair == s.heldAtLastRepair && a.next.staleRounds == s.staleRounds;
        assert a.next.chunks == s.chunks && (a.next.failed != Some(Stuck));
      }
    }
  }

  lemma ArrivalGrows(cfg: Config, s: Receiver, frame: Option<Codec.Message>, at: int)
    ensures var t := OnFrame(cfg, s, frame, at);
            && |t.chunks| >= |s.chunks| && t.heldAtLastRepair == s.heldAtLastRepair
            && t.staleRounds == s.staleRounds && t.failed == s.failed
  {
    var t := OnFrame(cfg, s, frame, at);
    if Ours(cfg, frame) && frame.value.Chunk? {
      var i := frame.value.index;
      if i in s.chunks {
        assert t.chunks.Keys == s.chunks.Keys;
        assert |t.chunks| == |t.chunks.Keys| && |s.chunks| == |s.chunks.Keys|;
      } else {
        assert t.chunks.Keys == s.chunks.Keys + {i};
        assert |t.chunks| == |t.chunks.Keys| && |s.chunks| == |s.chunks.Keys|;
      }
    }
  }

  lemma StepStale(cfg: Config, s: Receiver, e: Event, repairs: nat)
    requires StaleCounted(cfg, s, repairs) && s.failed.None?
    ensures var a := Step(cfg, s, e);
            StaleCounted(cfg, a.next,
                         if |a.next.chunks| > |s.chunks| then 0
                         else repairs + (if a.out.Some? && a.out.value.Repair? then 1 else 0))
  {
    match e
    case Arrival(frame, at) => ArrivalGrows(cfg, s, frame, at);
    case Clock(at) =>
      TickKeepsReceived(cfg, s, at);
      TickStale(cfg, s, at, repairs);
  }

  /** The repairs in vain that made a receiver give up, if it did. */
  function FatalRepairs(cfg: Config, events: seq<Event>): nat
    decreases |events|
  {
    if events == [] then 0
    else
      var before := events[..|events| - 1];
      if Run(cfg, FRESH, before).failed == Run(cfg, FRESH, events).failed then FatalRepairs(cfg, before)
      else RepairsSinceGrowth(cfg, events)
  }

  lemma {:induction false} StaleIsCounted(cfg: Config, events: seq<Event>)
    ensures var s := Run(cfg, FRESH, events);
            && (s.failed.None? ==> StaleCounted(cfg, s, RepairsSinceGrowth(cfg, events)))
            && (s.failed == Some(Stuck) ==> FatalRepairs(cfg, events) >= cfg.maxStale)
    decreases |events|
  {
    if events != [] {
      var n := |events| - 1;
      var before, e := events[..n], events[n];
      var s := Run(cfg, FRESH, before);
      StaleIsCounted(cfg, before);
      RunSnoc(cfg, FRESH, events);
      if s.failed.None? {
        StepStale(cfg, s, e, RepairsSinceGrowth(cfg, before));
      } else {
        FailureStays(cfg, s, e);
      }
    }
  }

  /** Stuck means stuck: a receiver gives up on repairs only when maxStale of them
      have been sent since the held set last grew. A transfer that gains a chunk now
      and then is never abandoned, however many rounds it takes. */
  lemma StuckOnlyWithoutGrowth(cfg: Config, events: seq<Event>)
    ensures Run(cfg, FRESH, events).failed == Some(Stuck) ==> FatalRepairs(cfg, events) >= cfg.maxStale
  {
    StaleIsCounted(cfg, events);
  }

  // ---- spacing ------------------------------------------------------------------------------

  /** When the messages of a run are sent. */
  function SendTimes(cfg: Config, s: Receiver, events: seq<Event>): seq<int>
    decreases |events|
  {
    if events == [] then []
    else
      var a := Step(cfg, s, events[0]);
      (if a.out.Some? then [events[0].at] else []) + SendTimes(cfg, a.next, events[1..])
  }

  predicate SpacedFrom(gap: int, last: Option<int>, times: seq<int>)
    decreases |times|
  {
    times != [] ==>
      (last.None? || times[0] - last.value >= gap) && SpacedFrom(gap, Some(times[0]), times[1..])
  }

  /** A tick that sends has kept its distance from the last frame heard and from its
      own last message; one that sends nothing has not moved its timer, or has ended
      the transfer. */
  lemma TickPaces(cfg: Config, s: Receiver, at: int)
    ensures var a := Tick(cfg, s, at);
            && (a.out.Some? ==>
                  && Elapsed(at, s.lastRxMs, Gate(cfg, s)) && Elapsed(at, s.lastTxMs, Gate(cfg, s))
                  && a.next.lastTxMs == Some(at))
            && (a.out.None? ==> a.next.lastTxMs == s.lastTxMs || a.next.failed.Some?)
  {
  }

  /** Whatever the frames and the clock, two messages of a receiver are never closer
      than the shorter of its two timers. */
  lemma {:induction false} MessagesAreSpaced(cfg: Config, s: Receiver, events: seq<Event>)
    ensures SpacedFrom(Min(cfg.idleMs, cfg.actMs), s.lastTxMs, SendTimes(cfg, s, events))
    decreases |events|
  {
    if events != [] {
      var a := Step(cfg, s, events[0]);
      var rest := SendTimes(cfg, a.next, events[1..]);
      MessagesAreSpaced(cfg, a.next, events[1..]);
      if events[0].Clock? {
        TickPaces(cfg, s, events[0].at);
      }
      if a.out.Some? {
        assert ([events[0].at] + rest)[1..] == rest;
      } else {
        assert [] + rest == rest;
        if a.next.failed.Some? {
          NothingAfterFailure(cfg, a.next, events[1..]);
        }
      }
    }
  }

  lemma {:induction false} NothingAfterFailure(cfg: Config, s: Receiver, events: seq<Event>)
    requires s.failed.Some?
    ensures SendTimes(cfg, s, events) == []
    decreases |events|
  {
    if events != [] {
      NothingAfterFailure(cfg, Step(cfg, s, events[0]).next, events[1..]);
    }
  }

  // ---- what the device last said ---------------------------------------------------------------

  /** The device has said it finished its pass, and no repair was requested since. */
  function SaidDone(cfg: Config, events: seq<Event>): bool {
    if events == [] then false
    else
      var before, e := events[..|events| - 1], events[|events| - 1];
      if Heard(cfg, e) && e.frame.value.Progress? then e.frame.value.done
      else
        var out := Step(cfg, Run(cfg, FRESH, before), e).out;
        !(out.Some? && out.value.Repair?) && SaidDone(cfg, before)
  }

  /** A progress query went out that no progress reply has followed. */
  function QueryOpen(cfg: Config, events: seq<Event>): bool {
    if events == [] then false
    else
      var before, e := events[..|events| - 1], events[|events| - 1];
      if Heard(cfg, e) && e.frame.value.Progress? then false
      else Step(cfg, Run(cfg, FRESH, before), e).out == Some(Codec.ProgressQ(cfg.pid)) || QueryOpen(cfg, before)
  }

  /** When the last frame of ours arrived. */
  function LastHeard(cfg: Config, events: seq<Event>): Option<int> {
    if events == [] then None
    else
      var e := events[|events| - 1];
      if Heard(cfg, e) then Some(e.at) else LastHeard(cfg, events[..|events| - 1])
  }

  lemma StepFlags(cfg: Config, s: Receiver, e: Event)
    ensures var a := Step(cfg, s, e);
            && (a.next.progressDone <==>
                  if Heard(cfg, e) && e.frame.value.Progress? then e.frame.value.done
                  else !(a.out.Some? && a.out.value.Repair?) && s.progressDone)
            && (a.next.awaitingProgress <==>
                  if Heard(cfg, e) && e.frame.value.Progress? then false
                  else a.out == Some(Codec.ProgressQ(cfg.pid)) || s.awaitingProgress)
            && a.next.lastRxMs == (if Heard(cfg, e) then Some(e.at) else s.lastRxMs)
  {
  }

  /** The flags of a receiver are the history of what the device said: done since the
      last repair, a query open, the last sign of life. */
  lemma {:induction false} FlagsAreHistory(cfg: Config, events: seq<Event>)
    ensures var s := Run(cfg, FRESH, events);
            && s.progressDone == SaidDone(cfg, events)
            && s.awaitingProgress == QueryOpen(cfg, events)
            && s.lastRxMs == LastHeard(cfg, events)
    decreases |events|
  {
    if events != [] {
      var n := |events| - 1;
      FlagsAreHistory(cfg, events[..n]);
      RunSnoc(cfg, FRESH, events);
      StepFlags(cfg, Run(cfg, FRESH, events[..n]), events[n]);
    }
  }

  /** Each repair request answers its own "done": one is sent only after the device has
      said it finished a pass, and the next one needs a new such reply. */
  lemma EveryRepairAnswersDone(cfg: Config, events: seq<Event>, at: int)
    requires var out := Tick(cfg, Run(cfg, FRESH, events), at).out; out.Some? && out.value.Repair?
    ensures SaidDone(cfg, events) && !SaidDone(cfg, events + [Clock(at)])
  {
    FlagsAreHistory(cfg, events);
    TickSends(cfg, Run(cfg, FRESH, events), at);
    assert (events + [Clock(at)])[..|events|] == events;
  }
}
