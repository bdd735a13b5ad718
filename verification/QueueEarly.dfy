/** A reply that overtakes the return of its own send (clients/node/lib/queue.js): the
    command is settled while its send is still awaited. Exactly what that does to it. */
module QueueEarly {
  import opened Wire
  import opened QueueModel
  import opened QueueSafety
  import opened QueueSends

  /** The events do not go back in time. */
  predicate Onward(from: int, events: seq<Event>)
    decreases |events|
  {
    events != [] ==> from <= events[0].at && Onward(events[0].at, events[1..])
  }

  predicate InFlight(s: Queue, id: nat) {
    s.inFlight.Some? && s.inFlight.value.id == id
  }

  /** In how many places a command is: pending, in flight, settled. The first resolve or
      reject settles a promise and any further one is ignored, so settled counts once. */
  function Whereabouts(s: Queue, id: nat): nat {
    Tally(IdOf, s.q, id) + (if InFlight(s, id) then 1 else 0) + (if Settlings(s.settled, id) > 0 then 1 else 0)
  }

  // ---- finished for good -----------------------------------------------------------------------

  /** Settled and in no other place, and what is left of it, a send or a reply timer, cannot
      put it back: there is no retry left or no reply due. */
  predicate Finished(s: Queue, id: nat) {
    && id < |s.allowed| && Settlings(s.settled, id) > 0
    && Tally(IdOf, s.q, id) == 0 && !InFlight(s, id)
    && (forall e :: e in s.sends && e.id == id ==> e.noReply || e.retries == 0)
    && (forall e :: e in s.timers && e.id == id ==> e.retries == 0)
  }

  /** A step leaves it finished and does not transmit it. */
  predicate StaysFinished(s: Queue, t: Queue, id: nat) {
    Finished(t, id) && Times(t.sent, id) == Times(s.sent, id)
  }

  lemma OneSettling(settled: seq<(nat, Ending)>, other: nat, end: Ending, id: nat)
    ensures Settlings(settled + [(other, end)], id) == Settlings(settled, id) + (if other == id then 1 else 0)
  {
    assert (settled + [(other, end)])[..|settled|] == settled;
  }

  lemma PumpFinished(minSpacingMs: int, s: Queue, now: int, id: nat)
    requires Finished(s, id)
    ensures StaysFinished(s, Pump(minSpacingMs, s, now), id)
  {
    var t := Pump(minSpacingMs, s, now);
    if t.inFlight != s.inFlight {
      var e, rest := s.q[0], s.q[1..];
      assert s.q == [e] + rest;
      TallyHead(IdOf, e, rest, id);
      assert t.sent[..|s.sent|] == s.sent;
    }
  }

  lemma CallFinished(minSpacingMs: int, s: Queue, r: Request, now: int, id: nat)
    requires Finished(s, id)
    ensures StaysFinished(s, Enqueue(minSpacingMs, s, r, now), id)
  {
    if !KeyIsLive(s, r.key) {
      var e := Entry(|s.allowed|, r.text, r.key, r.priority, r.retries, r.noReply);
      SortIsStable(IdOf, s.q + [e], id, 0);
      TallyOne(IdOf, s.q, e, id);
      PumpFinished(minSpacingMs, Admit(s, e), now, id);
    }
  }

  lemma SendSettledFinished(minSpacingMs: int, s: Queue, i: nat, ok: bool, now: int, id: nat)
    requires Finished(s, id) && i < |s.sends|
    ensures StaysFinished(s, if ok then SendOk(minSpacingMs, s, i, now) else SendFailed(minSpacingMs, s, i, now), id)
  {
    var e := s.sends[i];
    var t := s.(sends := Without(s.sends, i));
    assert forall f :: f in t.sends ==> f in s.sends;
    if ok && !e.noReply {
      assert e in s.sends;
    } else {
      var end := if ok then Resolved else Rejected;
      OneSettling(s.settled, e.id, end, id);
      PumpFinished(minSpacingMs, t.(inFlight := None, settled := s.settled + [(e.id, end)]), now, id);
    }
  }

  lemma TimedOutFinished(minSpacingMs: int, s: Queue, i: nat, now: int, id: nat)
    requires Finished(s, id) && i < |s.timers|
    ensures StaysFinished(s, TimedOut(minSpacingMs, s, i, now), id)
  {
    var e := s.timers[i];
    var t := s.(timers := Without(s.timers, i), inFlight := None);
    assert forall f :: f in t.timers ==> f in s.timers;
    assert e in s.timers;
    if e.retries > 0 {
      var again := e.(retries := e.retries - 1);
      TallyHead(IdOf, again, t.q, id);
      PumpFinished(minSpacingMs, t.(q := [again] + t.q), now, id);
    } else {
      OneSettling(s.settled, e.id, Rejected, id);
      PumpFinished(minSpacingMs, t.(settled := t.settled + [(e.id, Rejected)]), now, id);
    }
  }

  lemma ReplyFinished(minSpacingMs: int, s: Queue, matches: bool, now: int, id: nat)
    requires Finished(s, id)
    ensures StaysFinished(s, OnReply(minSpacingMs, s, matches, now), id)
  {
    if s.inFlight.Some? && matches {
      var gone := s.inFlight.value.id;
      FewerTimers(s.timers, gone, id);
      OneSettling(s.settled, gone, Resolved, id);
      PumpFinished(minSpacingMs, s.(timers := WithoutTimerOf(s.timers, gone), inFlight := None,
                                    settled := s.settled + [(gone, Resolved)]), now, id);
    }
  }

  lemma StepFinished(minSpacingMs: int, s: Queue, e: Event, id: nat)
    requires Finished(s, id)
    ensures StaysFinished(s, Step(minSpacingMs, s, e), id)
  {
    match e
    case Call(r, at) => CallFinished(minSpacingMs, s, r, at, id);
    case SendSettled(i, ok, at) => if i < |s.sends| { SendSettledFinished(minSpacingMs, s, i, ok, at, id); }
    case ReplyTimer(i, at) => if i < |s.timers| { TimedOutFinished(minSpacingMs, s, i, at, id); }
    case Reply(matches, at) => ReplyFinished(minSpacingMs, s, matches, at, id);
    case PumpTimer(at) =>
      if s.pumpTimers > 0 {
        PumpFinished(minSpacingMs, s.(pumpTimer := false, pumpTimers := s.pumpTimers - 1), at, id);
      }
  }

  /** Over every run, other replies that overtake their sends included. */
  lemma {:induction false} RunFinished(minSpacingMs: int, s: Queue, events: seq<Event>, id: nat)
    requires Finished(s, id)
    ensures StaysFinished(s, Run(minSpacingMs, s, events), id)
    decreases |events|
  {
    if events != [] {
      StepFinished(minSpacingMs, s, events[0], id);
      RunFinished(minSpacingMs, Step(minSpacingMs, s, events[0]), events[1..], id);
    }
  }

  // ---- what the reply leaves --------------------------------------------------------------------

  /** The entry in flight can come back after a reply: its send is awaited, it waits for a
      reply, and it has a retry left. */
  predicate CanComeBack(s: Queue, e: Entry) {
    s.sends != [] && e.retries > 0 && !e.noReply
  }

  lemma ReplyFinishes(minSpacingMs: int, s: Queue, e: Entry, now: int, key: string)
    requires Orderly(s, e.id, key) && s.inFlight == Some(e) && !CanComeBack(s, e)
    ensures StaysFinished(s, OnReply(minSpacingMs, s, true, now), e.id)
  {
    var u := s.(timers := WithoutTimerOf(s.timers, e.id), inFlight := None, settled := s.settled + [(e.id, Resolved)]);
    OneSettling(s.settled, e.id, Resolved, e.id);
    assert WithoutTimerOf(s.timers, e.id) == [];
    assert Finished(u, e.id);
    PumpFinished(minSpacingMs, u, now, e.id);
  }

  /** When the next transmission may be. */
  function Free(minSpacingMs: int, s: Queue, now: int): int {
    Max(now, s.lastSentAt + minSpacingMs)
  }

  lemma RunOfTwo(minSpacingMs: int, t: Queue, e: Event, f: Event)
    ensures Run(minSpacingMs, t, [e, f]) == Step(minSpacingMs, Step(minSpacingMs, t, e), f)
    ensures e.at <= f.at ==> Onward(e.at, [e, f])
    ensures !e.Reply? && !f.Reply? ==> RepliesWait(minSpacingMs, t, [e, f])
  {
    var u := Step(minSpacingMs, t, e);
    assert [e, f][1..] == [f] && [f][1..] == [];
    assert Run(minSpacingMs, t, [e, f]) == Run(minSpacingMs, u, [f]);
  }

  /** The send returns after the command was settled. */
  lemma LateSend(minSpacingMs: int, s: Queue, t: Queue, e: Entry, now: int)
    requires s.inFlight == Some(e) && s.sends == [e] && s.timers == [] && t == OnReply(minSpacingMs, s, true, now)
    requires !e.noReply
    ensures var u := Step(minSpacingMs, t, SendSettled(0, true, now));
            u.timers == [e] && u.sent == t.sent && u.settled == t.settled && Settlings(t.settled, e.id) > 0
  {
    OneSettling(s.settled, e.id, Resolved, e.id);
    assert WithoutTimerOf([], e.id) == [] && t.sends[0] == e && [] + [e] == [e];
  }

  /** And then its reply timer fires. */
  lemma TimerSends(minSpacingMs: int, u: Queue, e: Entry, at: int)
    requires u.timers == [e] && e.retries > 0 && at >= u.lastSentAt + minSpacingMs
    ensures var v := Step(minSpacingMs, u, ReplyTimer(0, at));
            v.sent == u.sent + [(e.id, at)] && InFlight(v, e.id) && v.settled == u.settled
  {
  }

  lemma OneMoreTime(sent: seq<(nat, int)>, id: nat, at: int)
    ensures Times(sent + [(id, at)], id) == Times(sent, id) + 1
  {
    assert (sent + [(id, at)])[..|sent|] == sent;
  }

  lemma ComesBack(minSpacingMs: int, s: Queue, t: Queue, e: Entry, now: int) returns (more: seq<Event>)
    requires OneTurn(s) && s.inFlight == Some(e) && CanComeBack(s, e) && t == OnReply(minSpacingMs, s, true, now)
    ensures Onward(now, more) && RepliesWait(minSpacingMs, t, more)
    ensures var v := Run(minSpacingMs, t, more);
            Times(v.sent, e.id) > Times(t.sent, e.id) && Whereabouts(v, e.id) >= 2
  {
    var back := SendSettled(0, true, now);
    LateSend(minSpacingMs, s, t, e, now);
    var u := Step(minSpacingMs, t, back);
    var fired := ReplyTimer(0, Free(minSpacingMs, u, now));
    TimerSends(minSpacingMs, u, e, fired.at);
    OneMoreTime(u.sent, e.id, fired.at);
    RunOfTwo(minSpacingMs, t, back, fired);
    more := [back, fired];
  }

  /** A matching reply settles the command in flight. It is in exactly one place in every
      continuation - settled - if and only if its send had returned, or it has no retry left,
      or it needs no reply; and also if further replies wait for their sends. */
  lemma SettledOnceIff(minSpacingMs: int, s: Queue, e: Entry, now: int, key: string)
    requires Orderly(s, e.id, key) && s.inFlight == Some(e)
    ensures var t := OnReply(minSpacingMs, s, true, now);
            && ((forall more :: Whereabouts(Run(minSpacingMs, t, more), e.id) == 1)
                <==> s.sends == [] || e.retries == 0 || e.noReply)
            && ((forall more :: Onward(now, more) && RepliesWait(minSpacingMs, t, more) ==>
                   Whereabouts(Run(minSpacingMs, t, more), e.id) == 1)
                <==> s.sends == [] || e.retries == 0 || e.noReply)
  {
    var t := OnReply(minSpacingMs, s, true, now);
    if CanComeBack(s, e) {
      var more := ComesBack(minSpacingMs, s, t, e, now);
      assert Whereabouts(Run(minSpacingMs, t, more), e.id) != 1;
    } else {
      ReplyFinishes(minSpacingMs, s, e, now, key);
      forall more ensures Whereabouts(Run(minSpacingMs, t, more), e.id) == 1 {
        RunFinished(minSpacingMs, t, more, e.id);
      }
    }
  }

  /** Exactly which settled commands are sent again. Take any run in which replies have waited
      for their sends so far. After a matching reply to the command in flight, some continuation
      transmits that command again if and only if its send is still awaited, it had a retry left
      and it was waiting for a reply. Any matching reply does it, also one that answers an
      earlier command. */
  lemma EarlyReplyRepeatsIff(minSpacingMs: int, events: seq<Event>, now: int)
    requires RepliesWait(minSpacingMs, EMPTY, events) && Run(minSpacingMs, EMPTY, events).inFlight.Some?
    ensures var s := Run(minSpacingMs, EMPTY, events);
            var e, t := s.inFlight.value, OnReply(minSpacingMs, s, true, now);
            (exists more :: Onward(now, more) && Times(Run(minSpacingMs, t, more).sent, e.id) > Times(t.sent, e.id))
            <==> s.sends != [] && e.retries > 0 && !e.noReply
  {
    var s := Run(minSpacingMs, EMPTY, events);
    var e, t := s.inFlight.value, OnReply(minSpacingMs, s, true, now);
    RunOrderly(minSpacingMs, EMPTY, events, e.id, "");
    if CanComeBack(s, e) {
      var more := ComesBack(minSpacingMs, s, t, e, now);
    } else {
      ReplyFinishes(minSpacingMs, s, e, now, "");
      forall more ensures Times(Run(minSpacingMs, t, more).sent, e.id) == Times(t.sent, e.id) {
        RunFinished(minSpacingMs, t, more, e.id);
      }
    }
  }
}
