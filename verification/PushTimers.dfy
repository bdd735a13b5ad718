/** Which of its two timers a push receiver waits for (clients/node/lib/push-receiver.js:
    159-177), from what it has heard and done. */
module PushTimers {
  import opened Wire
  import Codec = PushCodec
  import opened PushModel
  import opened PushAlarms

  /** The step asked the device something, or ended the transfer. */
  predicate Acts(s: Receiver, a: Acted) {
    a.out.Some? || a.next.failed != s.failed
  }

  /** The time of the last tick that did. */
  function LastAct(cfg: Config, events: seq<Event>): Option<int> {
    if events == [] then None
    else
      var before, e := events[..|events| - 1], events[|events| - 1];
      var s := Run(cfg, FRESH, before);
      if e.Clock? && Acts(s, Step(cfg, s, e)) then Some(e.at) else LastAct(cfg, before)
  }

  lemma StepActs(cfg: Config, s: Receiver, e: Event)
    ensures var a := Step(cfg, s, e);
            a.next.lastTxMs == if e.Clock? && Acts(s, a) then Some(e.at) else s.lastTxMs
  {
  }

  lemma {:induction false} LastActIsHistory(cfg: Config, events: seq<Event>)
    ensures Run(cfg, FRESH, events).lastTxMs == LastAct(cfg, events)
    decreases |events|
  {
    if events != [] {
      var n := |events| - 1;
      LastActIsHistory(cfg, events[..n]);
      RunSnoc(cfg, FRESH, events);
      StepActs(cfg, Run(cfg, FRESH, events[..n]), events[n]);
    }
  }

  /** At least `ms` have passed since that moment, if there was one. */
  predicate QuietFor(ms: int, since: Option<int>, now: int) {
    since.Some? ==> now - since.value >= ms
  }

  /** The first manifest heard. */
  function Announced(cfg: Config, events: seq<Event>): Option<Manifest> {
    if events == [] then None
    else
      var e, rest := events[|events| - 1], Announced(cfg, events[..|events| - 1]);
      if rest.None? && Heard(cfg, e) && e.frame.value.Manifest?
      then Some(Manifest(e.frame.value.length, e.frame.value.count, e.frame.value.crc)) else rest
  }

  predicate IsChunk(cfg: Config, e: Event, i: u16) {
    Heard(cfg, e) && e.frame.value.Chunk? && e.frame.value.index == i
  }

  /** Which chunks have been heard. */
  predicate HeardChunk(cfg: Config, events: seq<Event>, i: u16) {
    exists k :: 0 <= k < |events| && IsChunk(cfg, events[k], i)
  }

  lemma StepHears(cfg: Config, s: Receiver, e: Event)
    ensures Step(cfg, s, e).next.manifest ==
            if s.manifest.None? && Heard(cfg, e) && e.frame.value.Manifest?
            then Some(Manifest(e.frame.value.length, e.frame.value.count, e.frame.value.crc)) else s.manifest
  {
    if e.Clock? { TickKeepsReceived(cfg, s, e.at); }
  }

  lemma StepHolds(cfg: Config, s: Receiver, e: Event, i: u16)
    ensures i in Step(cfg, s, e).next.chunks <==> i in s.chunks || IsChunk(cfg, e, i)
  {
    if e.Clock? { TickKeepsReceived(cfg, s, e.at); }
  }

  lemma {:induction false} HeldIsHeard(cfg: Config, events: seq<Event>, i: u16)
    ensures Run(cfg, FRESH, events).manifest == Announced(cfg, events)
    ensures i in Run(cfg, FRESH, events).chunks <==> HeardChunk(cfg, events, i)
    decreases |events|
  {
    if events != [] {
      var n := |events| - 1;
      var before := events[..n];
      HeldIsHeard(cfg, before, i);
      RunSnoc(cfg, FRESH, events);
      StepHears(cfg, Run(cfg, FRESH, before), events[n]);
      StepHolds(cfg, Run(cfg, FRESH, before), events[n], i);
      if HeardChunk(cfg, before, i) {
        var k :| 0 <= k < n && IsChunk(cfg, before[k], i);
        assert IsChunk(cfg, events[k], i);
      }
      if HeardChunk(cfg, events, i) {
        var k :| 0 <= k <= n && IsChunk(cfg, events[k], i);
        assert k < n ==> IsChunk(cfg, before[k], i);
      }
    }
  }

  /** Every chunk announced was heard. */
  predicate AllHeard(cfg: Config, events: seq<Event>) {
    var m := Announced(cfg, events);
    m.Some? && forall i: u16 :: i < m.value.count ==> HeardChunk(cfg, events, i)
  }

  /** The device has no more to send of its own accord: a manifest was heard, and the device
      said since the last repair that it is done, or every chunk announced was heard. */
  predicate NothingMoreDue(cfg: Config, events: seq<Event>) {
    var m := Announced(cfg, events);
    m.Some? && (SaidDone(cfg, events) || AllHeard(cfg, events))
  }

  /** Exactly when a receiver acts. It does on a tick if and only if it has not ended and a
      whole timer has passed both since the last frame heard and since it acted last: the
      short one where the device has no more to send of its own accord, and the long one
      wherever it may only be pacing itself. */
  lemma ActsOnlyOnTime(cfg: Config, events: seq<Event>, now: int)
    ensures var s := Run(cfg, FRESH, events);
            var ms := if NothingMoreDue(cfg, events) then cfg.actMs else cfg.idleMs;
            Acts(s, Tick(cfg, s, now)) <==>
              && s.phase != DONE && s.failed.None?
              && QuietFor(ms, LastHeard(cfg, events), now) && QuietFor(ms, LastAct(cfg, events), now)
  {
    var s := Run(cfg, FRESH, events);
    FlagsAreHistory(cfg, events);
    LastActIsHistory(cfg, events);
    HeldIsHeard(cfg, events, 0);
    if s.manifest.Some? {
      NothingMissing(s);
      forall i: u16 ensures i in s.chunks <==> HeardChunk(cfg, events, i) {
        HeldIsHeard(cfg, events, i);
      }
    }
  }

  // ---- what it does then, and when it gives up ------------------------------------------------

  /** Whether a query was open when the last frame was heard. */
  function OpenWhenHeard(cfg: Config, events: seq<Event>): bool {
    if events == [] then false
    else if Heard(cfg, events[|events| - 1]) then QueryOpen(cfg, events)
    else OpenWhenHeard(cfg, events[..|events| - 1])
  }

  /** Queries in a row without a sign of life, if one more goes out. */
  function Unheard(cfg: Config, events: seq<Event>): nat {
    QueriesSinceHeard(cfg, events) + (if OpenWhenHeard(cfg, events) then 1 else 0)
  }

  /** What the two counters of a live receiver stand for. */
  predicate CountersAre(s: Receiver, queries: nat, open: bool, repairs: nat) {
    && (if queries == 0 then s.unanswered == 0 && s.awaitingProgress == open
        else s.awaitingProgress && s.unanswered == queries - 1 + (if open then 1 else 0))
    && s.heldAtLastRepair <= |s.chunks|
    && (if s.heldAtLastRepair == |s.chunks| then repairs == s.staleRounds + 1 else repairs == 0)
  }

  /** The same once a step has been made. */
  predicate CountsOn(cfg: Config, a: Acted, queries: nat, open: bool, repairs: nat) {
    a.next.failed.None? ==>
      CountersAre(a.next, queries + (if a.out == Some(Codec.ProgressQ(cfg.pid)) then 1 else 0), open,
                  repairs + (if a.out.Some? && a.out.value.Repair? then 1 else 0))
  }

  lemma QueryCounters(cfg: Config, s: Receiver, queries: nat, open: bool, repairs: nat)
    requires CountersAre(s, queries, open, repairs)
    ensures CountsOn(cfg, Query(cfg, s), queries, open, repairs)
  {
  }

  lemma RepairCounters(cfg: Config, s: Receiver, miss: seq<u16>, queries: nat, open: bool, repairs: nat)
    requires CountersAre(s, queries, open, repairs)
    ensures CountsOn(cfg, AskRepair(cfg, s, miss), queries, open, repairs)
  {
  }

  /** START, COMPLETE and the checksum failure leave the counters alone. */
  lemma OtherCounters(cfg: Config, s: Receiver, a: Acted, queries: nat, open: bool, repairs: nat)
    requires CountersAre(s, queries, open, repairs)
    requires a.next == s.(phase := a.next.phase, failed := a.next.failed)
    requires a.out.Some? ==> a.out.value.Start? || a.out.value.Complete?
    ensures CountsOn(cfg, a, queries, open, repairs)
  {
  }

  lemma ActCounters(cfg: Config, s: Receiver, queries: nat, open: bool, repairs: nat)
    requires CountersAre(s, queries, open, repairs)
    ensures CountsOn(cfg, Act(cfg, s), queries, open, repairs)
  {
    if s.manifest.None? {
      if |s.chunks| == 0 {
        OtherCounters(cfg, s, Act(cfg, s), queries, open, repairs);
      } else {
        QueryCounters(cfg, s, queries, open, repairs);
      }
    } else if Missing(s) == [] {
      OtherCounters(cfg, s, Act(cfg, s), queries, open, repairs);
    } else if !s.progressDone {
      QueryCounters(cfg, s, queries, open, repairs);
    } else {
      RepairCounters(cfg, s, Missing(s), queries, open, repairs);
    }
  }

  lemma TickCounters(cfg: Config, s: Receiver, at: int, queries: nat, open: bool, repairs: nat)
    requires CountersAre(s, queries, open, repairs)
    ensures CountsOn(cfg, Tick(cfg, s, at), queries, open, repairs)
  {
    if PassesGate(cfg, s, at) {
      ActCounters(cfg, s.(lastTxMs := Some(at)), queries, open, repairs);
    } else {
      OtherCounters(cfg, s, Tick(cfg, s, at), queries, open, repairs);
    }
  }

  lemma HearingResets(cfg: Config, s: Receiver, e: Event, queries: nat, open: bool, repairs: nat)
    requires CountersAre(s, queries, open, repairs) && e.Arrival?
    ensures var t := Step(cfg, s, e).next;
            && |t.chunks| >= |s.chunks|
            && (if Heard(cfg, e) then CountersAre(t, 0, t.awaitingProgress, if |t.chunks| > |s.chunks| then 0 else repairs)
                else t == s)
  {
    ArrivalGrows(cfg, s, e.frame, e.at);
  }

  lemma {:induction false} CountersAreHistory(cfg: Config, events: seq<Event>)
    ensures var s := Run(cfg, FRESH, events);
            s.failed.None? ==>
              CountersAre(s, QueriesSinceHeard(cfg, events), OpenWhenHeard(cfg, events), RepairsSinceGrowth(cfg, events))
    decreases |events|
  {
    if events != [] {
      var n := |events| - 1;
      var before, e := events[..n], events[n];
      var s := Run(cfg, FRESH, before);
      RunSnoc(cfg, FRESH, events);
      if s.failed.None? {
        CountersAreHistory(cfg, before);
        var q, o, r := QueriesSinceHeard(cfg, before), OpenWhenHeard(cfg, before), RepairsSinceGrowth(cfg, before);
        FlagsAreHistory(cfg, events);
        if e.Clock? {
          TickKeepsReceived(cfg, s, e.at);
          TickCounters(cfg, s, e.at, q, o, r);
        } else {
          HearingResets(cfg, s, e, q, o, r);
        }
      } else {
        FailureStays(cfg, s, e);
      }
    }
  }

  lemma HeardSomething(cfg: Config, events: seq<Event>)
    ensures |Run(cfg, FRESH, events).chunks| == 0 <==> forall i: u16 :: !HeardChunk(cfg, events, i)
    ensures var m := Run(cfg, FRESH, events).manifest;
            m == Announced(cfg, events)
            && (m.Some? ==> (HasFirst(Run(cfg, FRESH, events).chunks, m.value.count) <==> AllHeard(cfg, events)))
  {
    var s := Run(cfg, FRESH, events);
    HeldIsHeard(cfg, events, 0);
    forall i: u16 ensures i in s.chunks <==> HeardChunk(cfg, events, i) {
      HeldIsHeard(cfg, events, i);
    }
    if |s.chunks| > 0 {
      var i :| i in s.chunks;
    }
  }

  lemma QueryIs(cfg: Config, s: Receiver, queries: nat, open: bool, repairs: nat)
    requires CountersAre(s, queries, open, repairs)
    ensures var a, n := Query(cfg, s), queries + (if open then 1 else 0);
            && a.next.unanswered == n
            && (if n < cfg.maxUnanswered then a.out == Some(Codec.ProgressQ(cfg.pid))
                else a.out == None && a.next.failed == Some(Unresponsive))
  {
  }

  lemma RepairIs(cfg: Config, s: Receiver, miss: seq<u16>, queries: nat, open: bool, repairs: nat)
    requires CountersAre(s, queries, open, repairs)
    ensures var a := AskRepair(cfg, s, miss);
            if repairs < cfg.maxStale then a.out == Some(Codec.Repair(cfg.pid, miss[..Min(|miss|, 113)]))
            else a.out == None && a.next.failed == Some(Stuck)
  {
  }

  /** What a receiver does when it acts, and when it gives up. With nothing heard it asks for
      the start. With everything announced here, it reports completion or a checksum failure.
      With gaps and a device that said done it asks for the first batch of them, unless it has
      already done so maxStale times in vain. Otherwise it asks for progress, unless maxUnanswered
      such queries have met with no frame at all. */
  lemma ActsAccordingly(cfg: Config, events: seq<Event>, now: int)
    requires Acts(Run(cfg, FRESH, events), Tick(cfg, Run(cfg, FRESH, events), now))
    ensures var s := Run(cfg, FRESH, events);
            var a := Tick(cfg, s, now);
            if Announced(cfg, events).None? && forall i: u16 :: !HeardChunk(cfg, events, i) then
              a.out == Some(Codec.Start(cfg.pid))
            else if AllHeard(cfg, events) then
              if Assemble(cfg, s).Some? then
                a.out == Some(Codec.Complete(cfg.pid, Announced(cfg, events).value.crc)) && a.next.phase == DONE
              else a.out == None && a.next.failed == Some(CrcMismatch)
            else if Announced(cfg, events).Some? && SaidDone(cfg, events) then
              if RepairsSinceGrowth(cfg, events) < cfg.maxStale then
                var miss := MissingFrom(s.chunks, 0, Announced(cfg, events).value.count);
                a.out == Some(Codec.Repair(cfg.pid, miss[..Min(|miss|, 113)]))
              else a.out == None && a.next.failed == Some(Stuck)
            else
              a.next.unanswered == Unheard(cfg, events)
              && if Unheard(cfg, events) < cfg.maxUnanswered then a.out == Some(Codec.ProgressQ(cfg.pid))
              else a.out == None && a.next.failed == Some(Unresponsive)
  {
    var s := Run(cfg, FRESH, events);
    FlagsAreHistory(cfg, events);
    CountersAreHistory(cfg, events);
    HeardSomething(cfg, events);
    var t := s.(lastTxMs := Some(now));
    var q, o, r := QueriesSinceHeard(cfg, events), OpenWhenHeard(cfg, events), RepairsSinceGrowth(cfg, events);
    QueryIs(cfg, t, q, o, r);
    if s.manifest.Some? {
      NothingMissing(s);
      RepairIs(cfg, t, Missing(s), q, o, r);
    }
  }

  // ---- phase and rounds ---------------------------------------------------------------------------

  /** How many repair rounds there were: requests for repair, and the one refused as stale. */
  function RepairRounds(cfg: Config, events: seq<Event>): nat {
    if events == [] then 0
    else
      var before, e := events[..|events| - 1], events[|events| - 1];
      var s := Run(cfg, FRESH, before);
      var a := Step(cfg, s, e);
      RepairRounds(cfg, before)
      + (if (a.out.Some? && a.out.value.Repair?) || (s.failed.None? && a.next.failed == Some(Stuck)) then 1 else 0)
  }

  /** The last stage the transfer has reached: completion reported, a repair requested, a chunk
      or a manifest heard. */
  function Stage(cfg: Config, events: seq<Event>): Phase {
    if events == [] then START
    else
      var before, e := events[..|events| - 1], events[|events| - 1];
      var a := Step(cfg, Run(cfg, FRESH, before), e);
      var stage := Stage(cfg, before);
      if a.out.Some? && a.out.value.Complete? then DONE
      else if a.out.Some? && a.out.value.Repair? then REPAIRING
      else if stage == START && Heard(cfg, e) && (e.frame.value.Chunk? || e.frame.value.Manifest?) then RECEIVING
      else stage
  }

  lemma TickStages(cfg: Config, s: Receiver, at: int)
    ensures var a := Tick(cfg, s, at);
            && a.next.phase == (if a.out.Some? && a.out.value.Complete? then DONE
                                else if a.out.Some? && a.out.value.Repair? then REPAIRING else s.phase)
            && a.next.rounds == s.rounds + (if (a.out.Some? && a.out.value.Repair?)
                                               || (s.failed.None? && a.next.failed == Some(Stuck)) then 1 else 0)
  {
  }

  /** Phase and round count are what the transfer has been through. */
  lemma {:induction false} StagesAreHistory(cfg: Config, events: seq<Event>)
    ensures var s := Run(cfg, FRESH, events);
            s.phase == Stage(cfg, events) && s.rounds == RepairRounds(cfg, events)
    decreases |events|
  {
    if events != [] {
      var n := |events| - 1;
      StagesAreHistory(cfg, events[..n]);
      RunSnoc(cfg, FRESH, events);
      if events[n].Clock? {
        TickStages(cfg, Run(cfg, FRESH, events[..n]), events[n].at);
      }
    }
  }
}
