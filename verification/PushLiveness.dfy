/** A push transfer cannot wait for ever, and the repairs it asks for are few. */
module PushLiveness {
  import opened Wire
  import Codec = PushCodec
  import opened PushModel

  predicate HoldsSomething(s: Receiver) {
    s.manifest.Some? || |s.chunks| > 0
  }

  predicate OnlyTicks(events: seq<Event>) {
    forall e :: e in events ==> e.Clock?
  }

  // ---- how many ticks are left ----------------------------------------------------

  /** Unanswered queries still to come before the receiver gives the device up. */
  function QueriesLeft(cfg: Config, s: Receiver): nat {
    if s.awaitingProgress then Max(1, cfg.maxUnanswered - s.unanswered) else cfg.maxUnanswered + 1
  }

  /** How many more ticks past the timers a receiver that hears nothing can make. */
  function TicksLeft(cfg: Config, s: Receiver): nat {
    if Terminal(s) then 0
    else if s.manifest.Some? && Missing(s) == [] then 1
    else if s.manifest.Some? && s.progressDone then
      if NextStale(s) >= cfg.maxStale then 1 else 1 + QueriesLeft(cfg, s)
    else QueriesLeft(cfg, s)
  }

  lemma OneTickFewer(cfg: Config, s: Receiver, at: int)
    requires PassesGate(cfg, s, at) && HoldsSomething(s)
    ensures var t := Tick(cfg, s, at).next;
            HoldsSomething(t) && TicksLeft(cfg, t) == TicksLeft(cfg, s) - 1
  {
  }

  /** The ticks of a run that get past the timers. */
  function Passing(cfg: Config, s: Receiver, events: seq<Event>): nat
    decreases |events|
  {
    if events == [] then 0
    else (if events[0].Clock? && PassesGate(cfg, s, events[0].at) then 1 else 0)
         + Passing(cfg, Step(cfg, s, events[0]).next, events[1..])
  }

  /** No eternal wait: a receiver that holds a manifest or a chunk and hears nothing
      more is DONE or failed exactly when TicksLeft of its ticks have passed the
      timers, and that is never more than maxUnanswered + 2. */
  lemma {:induction false} NoEternalWait(cfg: Config, s: Receiver, events: seq<Event>)
    requires HoldsSomething(s) && OnlyTicks(events)
    ensures Terminal(Run(cfg, s, events)) <==> Passing(cfg, s, events) == TicksLeft(cfg, s)
    ensures Passing(cfg, s, events) <= TicksLeft(cfg, s) <= cfg.maxUnanswered + 2
    decreases |events|
  {
    if events != [] {
      var at := events[0].at;
      if PassesGate(cfg, s, at) {
        OneTickFewer(cfg, s, at);
      }
      NoEternalWait(cfg, Tick(cfg, s, at).next, events[1..]);
    }
  }

  /** Ticks at least `gap` apart, the first at least `gap` after `prev`. */
  predicate Spaced(gap: int, prev: int, events: seq<Event>)
    decreases |events|
  {
    events != [] ==> events[0].at >= prev + gap && Spaced(gap, events[0].at, events[1..])
  }

  lemma {:induction false} SpacedTicksPass(cfg: Config, s: Receiver, prev: int, events: seq<Event>)
    requires OnlyTicks(events) && Spaced(Max(Max(cfg.idleMs, cfg.actMs), 0), prev, events)
    requires (s.lastRxMs.Some? ==> s.lastRxMs.value <= prev) && (s.lastTxMs.Some? ==> s.lastTxMs.value <= prev)
    ensures Passing(cfg, s, events) < |events| ==> Terminal(Run(cfg, s, events))
    decreases |events|
  {
    if events != [] {
      var t := Tick(cfg, s, events[0].at).next;
      TickKeepsReceived(cfg, s, events[0].at);
      SpacedTicksPass(cfg, t, events[0].at, events[1..]);
      if Terminal(s) {
        TerminalForever(cfg, s, events);
      }
    }
  }

  /** In wall-clock terms: maxUnanswered + 2 ticks, none of them early, and the
      transfer has ended one way or the other. */
  lemma SilenceEnds(cfg: Config, s: Receiver, prev: int, events: seq<Event>)
    requires HoldsSomething(s) && OnlyTicks(events) && |events| >= cfg.maxUnanswered + 2
    requires Spaced(Max(Max(cfg.idleMs, cfg.actMs), 0), prev, events)
    requires (s.lastRxMs.Some? ==> s.lastRxMs.value <= prev) && (s.lastTxMs.Some? ==> s.lastTxMs.value <= prev)
    ensures Terminal(Run(cfg, s, events))
  {
    NoEternalWait(cfg, s, events);
    SpacedTicksPass(cfg, s, prev, events);
  }

  /** The exception: a receiver that holds nothing re-asks with START at every tick
      past the timers, without bound. It never ends by itself. */
  lemma {:induction false} StartRetriesAreUnbounded(cfg: Config, s: Receiver, events: seq<Event>)
    requires !HoldsSomething(s) && !Terminal(s) && OnlyTicks(events)
    ensures var t := Run(cfg, s, events);
            !HoldsSomething(t) && !Terminal(t)
            && Sent(cfg, s, events)
               == seq(Passing(cfg, s, events), _ => Codec.Start(cfg.pid))
    decreases |events|
  {
    if events != [] {
      var a := Tick(cfg, s, events[0].at);
      assert events[0] in events;
      StartRetriesAreUnbounded(cfg, a.next, events[1..]);
      var start := Some(Codec.Start(cfg.pid));
      if PassesGate(cfg, s, events[0].at) {
        assert a.out == start;
      } else {
        assert a.out == None;
      }
    }
  }

  // ---- DONE and failed -----------------------------------------------------------------

  /** Both ends are absorbing under any frame and any tick. */
  lemma {:induction false} TerminalForever(cfg: Config, s: Receiver, events: seq<Event>)
    requires Terminal(s)
    ensures var t := Run(cfg, s, events);
            t.phase == DONE <==> s.phase == DONE
    ensures Run(cfg, s, events).failed == s.failed && Sent(cfg, s, events) == []
    decreases |events|
  {
    if events != [] {
      TerminalForever(cfg, Step(cfg, s, events[0]).next, events[1..]);
    }
  }

  /** ... and no run, honest or not, reaches both. */
  lemma {:induction false} EndsExclude(cfg: Config, s: Receiver, events: seq<Event>)
    requires s.phase == DONE ==> s.failed.None?
    ensures var t := Run(cfg, s, events);
            t.phase == DONE ==> t.failed.None?
    decreases |events|
  {
    if events != [] {
      EndsExclude(cfg, Step(cfg, s, events[0]).next, events[1..]);
    }
  }
}
