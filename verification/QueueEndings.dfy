/** How every command of the queue ends (clients/node/lib/queue.js:51-103), from the events:
    answered, sent where no reply is due, failed to send, or timed out. */
module QueueEndings {
  import opened Wire
  import opened QueueModel
  import opened QueueSafety
  import opened QueueSends

  /** The event answers the command: a matching reply while it is in flight, or the return of
      its send if it needs no reply. */
  predicate Answers(s: Queue, e: Event, id: nat) {
    match e
    case Reply(matches, _) => matches && s.inFlight.Some? && s.inFlight.value.id == id
    case SendSettled(i, ok, _) => i < |s.sends| && ok && s.sends[i].id == id && s.sends[i].noReply
    case _ => false
  }

  /** The event fails it: its send fails, or its reply timer fires with no retry left. */
  predicate Fails(s: Queue, e: Event, id: nat) {
    match e
    case SendSettled(i, ok, _) => i < |s.sends| && !ok && s.sends[i].id == id
    case ReplyTimer(i, _) => i < |s.timers| && s.timers[i].id == id && s.timers[i].retries == 0
    case _ => false
  }

  /** What the event does to the promise of the command. */
  function EndedBy(s: Queue, e: Event, id: nat): seq<Ending> {
    if Answers(s, e, id) then [Resolved] else if Fails(s, e, id) then [Rejected] else []
  }

  /** How the promise of a command is ended in a run, in order. */
  function Endings(minSpacingMs: int, s: Queue, events: seq<Event>, id: nat): seq<Ending>
    decreases |events|
  {
    if events == [] then []
    else
      EndedBy(s, events[0], id) + Endings(minSpacingMs, Step(minSpacingMs, s, events[0]), events[1..], id)
  }

  /** The endings on record for a command. */
  function EndingsOf(settled: seq<(nat, Ending)>, id: nat): seq<Ending> {
    if settled == [] then []
    else EndingsOf(settled[..|settled| - 1], id)
         + (if settled[|settled| - 1].0 == id then [settled[|settled| - 1].1] else [])
  }

  lemma OneEnding(settled: seq<(nat, Ending)>, other: nat, end: Ending, id: nat)
    ensures EndingsOf(settled + [(other, end)], id) == EndingsOf(settled, id) + (if other == id then [end] else [])
  {
    assert (settled + [(other, end)])[..|settled|] == settled;
  }

  /** The command that an event settles, if it settles one. */
  function Settles(s: Queue, e: Event): seq<(nat, Ending)> {
    match e
    case SendSettled(i, ok, _) =>
      if i >= |s.sends| then []
      else if !ok then [(s.sends[i].id, Rejected)]
      else if s.sends[i].noReply then [(s.sends[i].id, Resolved)] else []
    case ReplyTimer(i, _) =>
      if i < |s.timers| && s.timers[i].retries == 0 then [(s.timers[i].id, Rejected)] else []
    case Reply(matches, _) => if matches && s.inFlight.Some? then [(s.inFlight.value.id, Resolved)] else []
    case _ => []
  }

  lemma StepSettles(minSpacingMs: int, s: Queue, e: Event)
    ensures Step(minSpacingMs, s, e).settled == s.settled + Settles(s, e)
  {
  }

  lemma StepEnds(s: Queue, e: Event, settled: seq<(nat, Ending)>, id: nat)
    requires settled == s.settled + Settles(s, e)
    ensures EndingsOf(settled, id) == EndingsOf(s.settled, id) + EndedBy(s, e, id)
  {
    var more := Settles(s, e);
    if more == [] {
      assert settled == s.settled && EndedBy(s, e, id) == [];
      assert EndingsOf(s.settled, id) + [] == EndingsOf(s.settled, id);
    } else {
      OneEnding(s.settled, more[0].0, more[0].1, id);
      assert more == [(more[0].0, more[0].1)];
      assert EndedBy(s, e, id) == if more[0].0 == id then [more[0].1] else [];
    }
  }

  lemma Reassociate(before: seq<Ending>, now: seq<Ending>, later: seq<Ending>, all: seq<Ending>)
    requires all == (before + now) + later
    ensures all == before + (now + later)
  {
  }

  lemma {:induction false} RunEnds(minSpacingMs: int, s: Queue, events: seq<Event>, id: nat)
    ensures EndingsOf(Run(minSpacingMs, s, events).settled, id)
            == EndingsOf(s.settled, id) + Endings(minSpacingMs, s, events, id)
    decreases |events|
  {
    if events == [] {
      assert EndingsOf(s.settled, id) + [] == EndingsOf(s.settled, id);
    } else {
      var t, rest := Step(minSpacingMs, s, events[0]), events[1..];
      StepSettles(minSpacingMs, s, events[0]);
      StepEnds(s, events[0], t.settled, id);
      RunEnds(minSpacingMs, t, rest, id);
      Reassociate(EndingsOf(s.settled, id), EndedBy(s, events[0], id), Endings(minSpacingMs, t, rest, id),
                  EndingsOf(Run(minSpacingMs, t, rest).settled, id));
    }
  }

  /** Over every run, in every interleaving: a command is resolved by each matching reply that
      arrives while it is in flight and by each return of its send if it needs no reply, rejected
      by each failure of its send and each timeout with no retry left, and by nothing else. */
  lemma EndsAsItHappened(minSpacingMs: int, events: seq<Event>, id: nat)
    ensures EndingsOf(Run(minSpacingMs, EMPTY, events).settled, id) == Endings(minSpacingMs, EMPTY, events, id)
  {
    RunEnds(minSpacingMs, EMPTY, events, id);
    assert EndingsOf([], id) + Endings(minSpacingMs, EMPTY, events, id) == Endings(minSpacingMs, EMPTY, events, id);
  }

  /** So a promise that has resolved was answered. */
  lemma {:induction false} ResolvedWasAnswered(minSpacingMs: int, s: Queue, events: seq<Event>, id: nat) returns (k: nat)
    requires Resolved in Endings(minSpacingMs, s, events, id)
    ensures k < |events| && Answers(Run(minSpacingMs, s, events[..k]), events[k], id)
    decreases |events|
  {
    if Answers(s, events[0], id) {
      k := 0;
    } else {
      var j := ResolvedWasAnswered(minSpacingMs, Step(minSpacingMs, s, events[0]), events[1..], id);
      k := j + 1;
      assert events[..k][1..] == events[1..][..j] && events[..k][0] == events[0];
    }
  }

  lemma {:induction false} InEndings(settled: seq<(nat, Ending)>, id: nat, end: Ending)
    ensures (id, end) in settled <==> end in EndingsOf(settled, id)
    decreases |settled|
  {
    if settled != [] {
      var n := |settled| - 1;
      InEndings(settled[..n], id, end);
      assert settled == settled[..n] + [settled[n]];
    }
  }

  /** A promise resolves only if a matching reply arrived while its command was in flight, or
      the send of a command that needs no reply returned. */
  lemma ResolvedOnlyIfAnswered(minSpacingMs: int, events: seq<Event>, id: nat) returns (k: nat)
    requires (id, Resolved) in Run(minSpacingMs, EMPTY, events).settled
    ensures k < |events| && Answers(Run(minSpacingMs, EMPTY, events[..k]), events[k], id)
  {
    InEndings(Run(minSpacingMs, EMPTY, events).settled, id, Resolved);
    EndsAsItHappened(minSpacingMs, events, id);
    k := ResolvedWasAnswered(minSpacingMs, EMPTY, events, id);
  }

  /** A command whose send fails, or whose reply timer fires with no retry left, is recorded as
      rejected at that event; with a retry left nothing is recorded. */
  lemma FailureRejects(minSpacingMs: int, s: Queue, e: Event, id: nat)
    ensures Fails(s, e, id) ==> Step(minSpacingMs, s, e).settled == s.settled + [(id, Rejected)]
    ensures e.ReplyTimer? && e.i < |s.timers| && s.timers[e.i].retries > 0 ==>
              Step(minSpacingMs, s, e).settled == s.settled
  {
  }
}
