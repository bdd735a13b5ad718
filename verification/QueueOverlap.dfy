/** What a reply that overtakes the return of its send does to the commands around it
    (clients/node/lib/queue.js): two of them outstanding at a time, and one that is lost
    track of, because the late return or timer of the settled command ends its flight. */
module QueueOverlap {
  import opened Wire
  import opened QueueModel
  import opened QueueSafety
  import opened QueueSends
  import opened QueueEarly

  /** Two commands are outstanding: each has a send awaited or a reply timer armed. */
  predicate TwoOut(s: Queue) {
    exists a, b :: a in s.sends + s.timers && b in s.sends + s.timers && a.id != b.id
  }

  /** The command is nowhere: not pending, not in flight, not settled. */
  predicate Lost(s: Queue, id: nat) {
    id < |s.allowed| && Whereabouts(s, id) == 0
  }

  /** No command is added. */
  predicate Uncalled(events: seq<Event>) {
    forall i :: 0 <= i < |events| ==> !events[i].Call?
  }

  /** Time passes, and no further reply overtakes its send. */
  predicate Fair(minSpacingMs: int, s: Queue, now: int, events: seq<Event>) {
    Onward(now, events) && RepliesWait(minSpacingMs, s, events)
  }

  predicate Overlaps(minSpacingMs: int, s: Queue, now: int, events: seq<Event>) {
    Fair(minSpacingMs, s, now, events) && TwoOut(Run(minSpacingMs, s, events))
  }

  predicate Loses(minSpacingMs: int, s: Queue, now: int, events: seq<Event>, id: nat) {
    Fair(minSpacingMs, s, now, events) && Lost(Run(minSpacingMs, s, events), id)
  }

  /** Some fair continuation has two commands outstanding, and some loses a command. */
  ghost predicate CanOverlap(minSpacingMs: int, s: Queue, now: int) {
    exists more :: Overlaps(minSpacingMs, s, now, more)
  }

  ghost predicate CanLose(minSpacingMs: int, s: Queue, now: int) {
    exists more, id :: Loses(minSpacingMs, s, now, more, id)
  }

  /** The same with nothing but what the queue already has to do. */
  ghost predicate CanOverlapUncalled(minSpacingMs: int, s: Queue, now: int) {
    exists more :: Uncalled(more) && Overlaps(minSpacingMs, s, now, more)
  }

  ghost predicate CanLoseUncalled(minSpacingMs: int, s: Queue, now: int) {
    exists more, id :: Uncalled(more) && Loses(minSpacingMs, s, now, more, id)
  }

  // ---- how it comes about ----------------------------------------------------------------------

  /** Another command is in flight while the send of the settled one is awaited. */
  predicate Overtaken(s: Queue, e: Entry, f: Entry) {
    && s.inFlight == Some(f) && s.sends == [e, f] && e.id != f.id
    && f.id < |s.allowed| && Tally(IdOf, s.q, f.id) == 0 && Settlings(s.settled, f.id) == 0
  }

  /** The send of the settled command fails and ends the flight of the other. */
  lemma FailureLoses(minSpacingMs: int, s: Queue, e: Entry, f: Entry, at: int)
    requires Overtaken(s, e, f)
    ensures Lost(Step(minSpacingMs, s, SendSettled(0, false, at)), f.id)
  {
    assert Without(s.sends, 0) == [f];
    var u := s.(sends := [f], inFlight := None, settled := s.settled + [(e.id, Rejected)]);
    OneSettling(s.settled, e.id, Rejected, f.id);
    var t := Pump(minSpacingMs, u, at);
    if t.inFlight != u.inFlight {
      var g, rest := s.q[0], s.q[1..];
      assert s.q == [g] + rest;
      TallyHead(IdOf, g, rest, f.id);
    }
  }

  lemma OvertakenIsTwo(s: Queue, e: Entry, f: Entry)
    requires Overtaken(s, e, f)
    ensures TwoOut(s)
  {
    assert e in s.sends + s.timers && f in s.sends + s.timers;
  }

  /** The queue between the reply and the pump that follows it. */
  function Replied(s: Queue, e: Entry): Queue {
    s.(timers := [], inFlight := None, settled := s.settled + [(e.id, Resolved)])
  }

  lemma ReplyIs(minSpacingMs: int, s: Queue, e: Entry, now: int)
    requires s.inFlight == Some(e) && s.sends == [e] && s.timers == []
    ensures OnReply(minSpacingMs, s, true, now) == Pump(minSpacingMs, Replied(s, e), now)
  {
    assert WithoutTimerOf([], e.id) == [];
  }

  lemma LaunchOvertakes(minSpacingMs: int, u: Queue, e: Entry, f: Entry, rest: seq<Entry>, at: int)
    requires u.inFlight.None? && u.q == [f] + rest && u.sends == [e] && at >= u.lastSentAt + minSpacingMs
    requires e.id != f.id && f.id < |u.allowed| && Settlings(u.settled, f.id) == 0 && Tally(IdOf, u.q, f.id) <= 1
    ensures Overtaken(Pump(minSpacingMs, u, at), e, f)
  {
    TallyHead(IdOf, f, rest, f.id);
    assert u.q[1..] == rest && [e] + [f] == [e, f];
  }

  /** Something is pending: it is launched at once, or when the pump timer fires. */
  lemma PendingOvertakes(minSpacingMs: int, s: Queue, t: Queue, e: Entry, f: Entry, rest: seq<Entry>, now: int)
    returns (launch: Event)
    requires Orderly(s, f.id, "") && s.inFlight == Some(e) && s.sends == [e] && s.q == [f] + rest
    requires t == OnReply(minSpacingMs, s, true, now) && Paced(minSpacingMs, t)
    ensures launch.PumpTimer? && launch.at >= now && Overtaken(Step(minSpacingMs, t, launch), e, f)
  {
    var u := Replied(s, e);
    ReplyIs(minSpacingMs, s, e, now);
    TallyHead(IdOf, f, rest, f.id);
    OneSettling(s.settled, e.id, Resolved, f.id);
    launch := PumpTimer(Free(minSpacingMs, u, now));
    if t.inFlight.Some? {
      LaunchOvertakes(minSpacingMs, u, e, f, rest, now);
    } else {
      LaunchOvertakes(minSpacingMs, u.(pumpTimer := false, pumpTimers := 0), e, f, rest, launch.at);
    }
  }

  /** Nothing is pending: the next call is launched. */
  lemma CallOvertakes(minSpacingMs: int, s: Queue, t: Queue, e: Entry, now: int) returns (launch: Event)
    requires s.inFlight == Some(e) && s.sends == [e] && s.timers == [] && s.q == []
    requires e.id < |s.allowed| && Settlings(s.settled, |s.allowed|) == 0 && t == OnReply(minSpacingMs, s, true, now)
    ensures launch.Call? && launch.at >= now
    ensures exists f :: Overtaken(Step(minSpacingMs, t, launch), e, f)
  {
    var r := Request("", "", 0, 0, false);
    var f := Entry(|s.allowed|, "", "", 0, 0, false);
    ReplyIs(minSpacingMs, s, e, now);
    assert t == Replied(s, e);
    assert t.q + [f] == [f] && [f] == [f] + [];
    SortOfOne(f);
    TallyHead(IdOf, f, [], f.id);
    OneSettling(s.settled, e.id, Resolved, f.id);
    launch := Call(r, Free(minSpacingMs, t, now));
    LaunchOvertakes(minSpacingMs, Admit(t, f), e, f, [], launch.at);
    assert Overtaken(Step(minSpacingMs, t, launch), e, f);
  }

  lemma RunOfOne(minSpacingMs: int, t: Queue, e: Event, now: int)
    requires !e.Reply? && e.at >= now
    ensures Run(minSpacingMs, t, [e]) == Step(minSpacingMs, t, e) && Fair(minSpacingMs, t, now, [e])
  {
    assert [e][1..] == [];
  }

  /** One launch makes two outstanding. */
  lemma LaunchOverlaps(minSpacingMs: int, t: Queue, e: Entry, f: Entry, now: int, launch: Event)
    returns (more: seq<Event>)
    requires Overtaken(Step(minSpacingMs, t, launch), e, f) && !launch.Reply? && launch.at >= now
    ensures Overlaps(minSpacingMs, t, now, more) && (!launch.Call? ==> Uncalled(more))
  {
    OvertakenIsTwo(Step(minSpacingMs, t, launch), e, f);
    RunOfOne(minSpacingMs, t, launch, now);
    more := [launch];
  }

  /** And a failed send after it loses one. */
  lemma LaunchLoses(minSpacingMs: int, t: Queue, e: Entry, f: Entry, now: int, launch: Event) returns (more: seq<Event>)
    requires Overtaken(Step(minSpacingMs, t, launch), e, f) && !launch.Reply? && launch.at >= now
    ensures Loses(minSpacingMs, t, now, more, f.id) && (!launch.Call? ==> Uncalled(more))
  {
    var failed := SendSettled(0, false, launch.at);
    FailureLoses(minSpacingMs, Step(minSpacingMs, t, launch), e, f, launch.at);
    RunOfTwo(minSpacingMs, t, launch, failed);
    more := [launch, failed];
  }

  // ---- how it cannot ---------------------------------------------------------------------------

  function Load(s: Queue): nat { |s.q| + |s.sends| + |s.timers| }

  /** Without calls, no event adds to what the queue has to do, and what is settled stays so. */
  predicate NoMore(s: Queue, t: Queue, id: nat) {
    Load(t) <= Load(s) && t.allowed == s.allowed && Settlings(t.settled, id) >= Settlings(s.settled, id)
  }

  lemma {:induction false} FewerTimersLeft(timers: seq<Entry>, gone: nat)
    ensures |WithoutTimerOf(timers, gone)| <= |timers|
    decreases |timers|
  {
    if timers != [] {
      FewerTimersLeft(timers[1..], gone);
    }
  }

  lemma PumpNoMore(minSpacingMs: int, s: Queue, u: Queue, now: int, id: nat)
    requires NoMore(s, u, id)
    ensures NoMore(s, Pump(minSpacingMs, u, now), id)
  {
  }

  lemma SendSettledNoMore(minSpacingMs: int, s: Queue, i: nat, ok: bool, now: int, id: nat)
    requires i < |s.sends|
    ensures NoMore(s, if ok then SendOk(minSpacingMs, s, i, now) else SendFailed(minSpacingMs, s, i, now), id)
  {
    var e := s.sends[i];
    var t := s.(sends := Without(s.sends, i));
    if !(ok && !e.noReply) {
      var end := if ok then Resolved else Rejected;
      OneSettling(s.settled, e.id, end, id);
      PumpNoMore(minSpacingMs, s, t.(inFlight := None, settled := s.settled + [(e.id, end)]), now, id);
    }
  }

  lemma TimedOutNoMore(minSpacingMs: int, s: Queue, i: nat, now: int, id: nat)
    requires i < |s.timers|
    ensures NoMore(s, TimedOut(minSpacingMs, s, i, now), id)
  {
    var e := s.timers[i];
    var t := s.(timers := Without(s.timers, i), inFlight := None);
    if e.retries > 0 {
      PumpNoMore(minSpacingMs, s, t.(q := [e.(retries := e.retries - 1)] + t.q), now, id);
    } else {
      OneSettling(s.settled, e.id, Rejected, id);
      PumpNoMore(minSpacingMs, s, t.(settled := t.settled + [(e.id, Rejected)]), now, id);
    }
  }

  lemma ReplyNoMore(minSpacingMs: int, s: Queue, matches: bool, now: int, id: nat)
    ensures NoMore(s, OnReply(minSpacingMs, s, matches, now), id)
  {
    if s.inFlight.Some? && matches {
      var gone := s.inFlight.value.id;
      FewerTimersLeft(s.timers, gone);
      OneSettling(s.settled, gone, Resolved, id);
      PumpNoMore(minSpacingMs, s, s.(timers := WithoutTimerOf(s.timers, gone), inFlight := None,
                                     settled := s.settled + [(gone, Resolved)]), now, id);
    }
  }

  lemma StepNoMore(minSpacingMs: int, s: Queue, e: Event, id: nat)
    requires !e.Call?
    ensures NoMore(s, Step(minSpacingMs, s, e), id)
  {
    match e
    case SendSettled(i, ok, at) => if i < |s.sends| { SendSettledNoMore(minSpacingMs, s, i, ok, at, id); }
    case ReplyTimer(i, at) => if i < |s.timers| { TimedOutNoMore(minSpacingMs, s, i, at, id); }
    case Reply(matches, at) => ReplyNoMore(minSpacingMs, s, matches, at, id);
    case PumpTimer(at) =>
      if s.pumpTimers > 0 {
        PumpNoMore(minSpacingMs, s, s.(pumpTimer := false, pumpTimers := s.pumpTimers - 1), at, id);
      }
  }

  lemma {:induction false} RunNoMore(minSpacingMs: int, s: Queue, events: seq<Event>, id: nat)
    requires Uncalled(events)
    ensures NoMore(s, Run(minSpacingMs, s, events), id)
    decreases |events|
  {
    if events != [] {
      StepNoMore(minSpacingMs, s, events[0], id);
      RunNoMore(minSpacingMs, Step(minSpacingMs, s, events[0]), events[1..], id);
    }
  }

  lemma OneAtMost(s: Queue)
    requires |s.sends| + |s.timers| <= 1
    ensures !TwoOut(s)
  {
    forall a, b | a in s.sends + s.timers && b in s.sends + s.timers ensures a.id == b.id {
      assert |s.sends + s.timers| == 1;
    }
  }

  /** With nothing pending and no call, all others are settled already. */
  lemma AloneKeepsTurn(minSpacingMs: int, s: Queue, e: Entry, now: int, more: seq<Event>, id: nat)
    requires Orderly(s, id, "") && s.inFlight == Some(e) && s.q == [] && Uncalled(more)
    ensures var v := Run(minSpacingMs, OnReply(minSpacingMs, s, true, now), more);
            !TwoOut(v) && !Lost(v, id)
  {
    var t := OnReply(minSpacingMs, s, true, now);
    StepNoMore(minSpacingMs, s, Reply(true, now), id);
    OneSettling(s.settled, e.id, Resolved, id);
    RunNoMore(minSpacingMs, t, more, id);
    OneAtMost(Run(minSpacingMs, t, more));
  }

  /** With the send back, the queue stays in turn. */
  lemma ReturnedKeepsTurn(minSpacingMs: int, s: Queue, now: int, more: seq<Event>, id: nat)
    requires Orderly(s, id, "") && s.inFlight.Some? && s.sends == []
    requires RepliesWait(minSpacingMs, OnReply(minSpacingMs, s, true, now), more)
    ensures var v := Run(minSpacingMs, OnReply(minSpacingMs, s, true, now), more);
            !TwoOut(v) && !Lost(v, id)
  {
    var t := OnReply(minSpacingMs, s, true, now);
    ReplyOrderly(minSpacingMs, s, true, now, id, "");
    RunOrderly(minSpacingMs, t, more, id, "");
    OneAtMost(Run(minSpacingMs, t, more));
  }

  // ---- exactly when ------------------------------------------------------------------------------

  lemma PendingBreaks(minSpacingMs: int, s: Queue, t: Queue, e: Entry, now: int)
    requires s.inFlight == Some(e) && s.sends == [e] && s.q != [] && Orderly(s, s.q[0].id, "")
    requires t == OnReply(minSpacingMs, s, true, now) && Paced(minSpacingMs, t)
    ensures CanOverlap(minSpacingMs, t, now) && CanLose(minSpacingMs, t, now)
    ensures CanOverlapUncalled(minSpacingMs, t, now) && CanLoseUncalled(minSpacingMs, t, now)
  {
    var f, rest := s.q[0], s.q[1..];
    assert s.q == [f] + rest;
    var launch := PendingOvertakes(minSpacingMs, s, t, e, f, rest, now);
    var overlap := LaunchOverlaps(minSpacingMs, t, e, f, now, launch);
    var loss := LaunchLoses(minSpacingMs, t, e, f, now, launch);
  }

  lemma CallBreaks(minSpacingMs: int, s: Queue, t: Queue, e: Entry, now: int)
    requires s.inFlight == Some(e) && s.sends == [e] && s.q == []
    requires Orderly(s, e.id, "") && Orderly(s, |s.allowed|, "") && t == OnReply(minSpacingMs, s, true, now)
    ensures CanOverlap(minSpacingMs, t, now) && CanLose(minSpacingMs, t, now)
  {
    var launch := CallOvertakes(minSpacingMs, s, t, e, now);
    var f :| Overtaken(Step(minSpacingMs, t, launch), e, f);
    var overlap := LaunchOverlaps(minSpacingMs, t, e, f, now, launch);
    var loss := LaunchLoses(minSpacingMs, t, e, f, now, launch);
  }

  /** The queue has kept its turn so far, about every command. */
  ghost predicate InTurn(s: Queue) {
    forall id: nat :: Orderly(s, id, "")
  }

  lemma AloneCannot(minSpacingMs: int, s: Queue, t: Queue, e: Entry, now: int)
    requires InTurn(s) && s.inFlight == Some(e) && s.q == [] && t == OnReply(minSpacingMs, s, true, now)
    ensures !CanOverlapUncalled(minSpacingMs, t, now) && !CanLoseUncalled(minSpacingMs, t, now)
  {
    forall more | Uncalled(more) ensures !Overlaps(minSpacingMs, t, now, more) {
      assert Orderly(s, e.id, "");
      AloneKeepsTurn(minSpacingMs, s, e, now, more, e.id);
    }
    forall more, id | Uncalled(more) ensures !Loses(minSpacingMs, t, now, more, id) {
      assert Orderly(s, id, "");
      AloneKeepsTurn(minSpacingMs, s, e, now, more, id);
    }
  }

  lemma ReturnedCannot(minSpacingMs: int, s: Queue, t: Queue, e: Entry, now: int)
    requires InTurn(s) && s.inFlight == Some(e) && s.sends == [] && t == OnReply(minSpacingMs, s, true, now)
    ensures !CanOverlap(minSpacingMs, t, now) && !CanLose(minSpacingMs, t, now)
    ensures !CanOverlapUncalled(minSpacingMs, t, now) && !CanLoseUncalled(minSpacingMs, t, now)
  {
    forall more | Fair(minSpacingMs, t, now, more) ensures !Overlaps(minSpacingMs, t, now, more) {
      assert Orderly(s, e.id, "");
      ReturnedKeepsTurn(minSpacingMs, s, now, more, e.id);
    }
    forall more, id | Fair(minSpacingMs, t, now, more) ensures !Loses(minSpacingMs, t, now, more, id) {
      assert Orderly(s, id, "");
      ReturnedKeepsTurn(minSpacingMs, s, now, more, id);
    }
  }

  /** Exactly when an early reply breaks "one command in flight". Take any run in which replies
      have waited for their sends so far. After a matching reply to the command in flight, a
      continuation in which they wait again can have two commands outstanding, and can lose
      track of a command, if and only if the send of the answered one is still awaited. And it
      can without any new call if and only if a command is pending as well. */
  lemma OverlapIff(minSpacingMs: int, events: seq<Event>, now: int)
    requires RepliesWait(minSpacingMs, EMPTY, events) && Run(minSpacingMs, EMPTY, events).inFlight.Some?
    ensures var s := Run(minSpacingMs, EMPTY, events);
            var t := OnReply(minSpacingMs, s, true, now);
            && (CanOverlap(minSpacingMs, t, now) <==> s.sends != [])
            && (CanLose(minSpacingMs, t, now) <==> s.sends != [])
            && (CanOverlapUncalled(minSpacingMs, t, now) <==> s.sends != [] && s.q != [])
            && (CanLoseUncalled(minSpacingMs, t, now) <==> s.sends != [] && s.q != [])
  {
    var s := Run(minSpacingMs, EMPTY, events);
    var e, t := s.inFlight.value, OnReply(minSpacingMs, s, true, now);
    forall id: nat ensures Orderly(s, id, "") {
      RunOrderly(minSpacingMs, EMPTY, events, id, "");
    }
    assert Orderly(s, e.id, "") && Orderly(s, |s.allowed|, "");
    if s.sends == [] {
      ReturnedCannot(minSpacingMs, s, t, e, now);
    } else if s.q == [] {
      CallBreaks(minSpacingMs, s, t, e, now);
      AloneCannot(minSpacingMs, s, t, e, now);
    } else {
      assert Orderly(s, s.q[0].id, "");
      RunKeeps(minSpacingMs, EMPTY, events, e.id);
      ReplyPaces(minSpacingMs, s, true, now);
      PendingBreaks(minSpacingMs, s, t, e, now);
    }
  }
}
