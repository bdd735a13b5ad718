/** What the command queue guarantees in every interleaving, replies that overtake
    their sends included: how often a command is transmitted, how far apart
    transmissions are, and that a waiting queue has one pump timer. */
module QueueSends {
  import opened Wire
  import opened QueueModel
  import opened QueueSafety

  /** How often a command has been transmitted. */
  function Times(sent: seq<(nat, int)>, id: nat): nat {
    if sent == [] then 0
    else Times(sent[..|sent| - 1], id) + (if sent[|sent| - 1].0 == id then 1 else 0)
  }

  /** An unfinished command is one token: pending, in a send, or in a reply timer. */
  function Tokens(s: Queue, id: nat): nat {
    Tally(IdOf, s.q, id) + Tally(IdOf, s.sends, id) + Tally(IdOf, s.timers, id)
  }

  /** Transmissions made and retries left add up to what the command was given. */
  predicate Budgeted(s: Queue, id: nat) {
    && Tokens(s, id) <= 1
    && (id >= |s.allowed| ==> Tokens(s, id) == 0 && Times(s.sent, id) == 0)
    && (id < |s.allowed| ==>
          && Times(s.sent, id) <= 1 + s.allowed[id]
          && (forall e :: e in s.q && e.id == id ==> Times(s.sent, id) + e.retries == s.allowed[id])
          && (forall e :: e in s.sends + s.timers && e.id == id ==>
                Times(s.sent, id) + e.retries == 1 + s.allowed[id]))
  }

  lemma NoneLeft(q: seq<Entry>, id: nat)
    requires Tally(IdOf, q, id) == 0
    ensures forall e :: e in q ==> e.id != id
  {
    TallyZeroIff(IdOf, q, id);
  }

  lemma LaunchBudgeted(s: Queue, e: Entry, rest: seq<Entry>, t: Queue, now: int, id: nat)
    requires Budgeted(s, id) && s.q == [e] + rest
    requires t.q == rest && t.sends == s.sends + [e] && t.timers == s.timers
    requires t.sent == s.sent + [(e.id, now)] && t.allowed == s.allowed
    ensures Budgeted(t, id)
  {
    TallyHead(IdOf, e, rest, id);
    TallyOne(IdOf, s.sends, e, id);
    assert t.sent[..|s.sent|] == s.sent;
    if e.id == id {
      assert e in s.q;
      NoneLeft(rest, id);
      NoneLeft(s.sends, id);
      NoneLeft(s.timers, id);
    }
  }

  lemma PumpBudgeted(minSpacingMs: int, s: Queue, now: int, id: nat)
    requires Budgeted(s, id)
    ensures Budgeted(Pump(minSpacingMs, s, now), id)
  {
    var t := Pump(minSpacingMs, s, now);
    if t.inFlight != s.inFlight {
      LaunchBudgeted(s, s.q[0], s.q[1..], t, now, id);
    }
  }

  lemma CallBudgeted(minSpacingMs: int, s: Queue, r: Request, now: int, id: nat)
    requires Budgeted(s, id)
    ensures Budgeted(Enqueue(minSpacingMs, s, r, now), id)
  {
    if !KeyIsLive(s, r.key) {
      var e := Entry(|s.allowed|, r.text, r.key, r.priority, r.retries, r.noReply);
      var t := s.(q := SortByPriority(s.q + [e]), allowed := s.allowed + [r.retries]);
      SortIsStable(IdOf, s.q + [e], id, 0);
      TallyOne(IdOf, s.q, e, id);
      if e.id == id {
        NoneLeft(s.q, id);
        NoneLeft(s.sends, id);
        NoneLeft(s.timers, id);
      }
      PumpBudgeted(minSpacingMs, t, now, id);
    }
  }

  /** Dropping a token, or the whole entry, keeps every other budget. */
  lemma DropBudgeted(s: Queue, t: Queue, id: nat)
    requires Budgeted(s, id) && Tokens(t, id) <= Tokens(s, id)
    requires t.sent == s.sent && t.allowed == s.allowed
    requires t.q == s.q && (forall e :: e in t.sends ==> e in s.sends)
    requires forall e :: e in t.timers ==> e in s.timers || e in s.sends
    ensures Budgeted(t, id)
  {
  }

  lemma SendSettledBudgeted(minSpacingMs: int, s: Queue, i: nat, ok: bool, now: int, id: nat)
    requires Budgeted(s, id) && i < |s.sends|
    ensures Budgeted(if ok then SendOk(minSpacingMs, s, i, now) else SendFailed(minSpacingMs, s, i, now), id)
  {
    var e := s.sends[i];
    var t := s.(sends := Without(s.sends, i));
    TallyWithout(IdOf, s.sends, i, id);
    if ok && !e.noReply {
      TallyOne(IdOf, s.timers, e, id);
      DropBudgeted(s, t.(timers := t.timers + [e]), id);
    } else {
      var u := t.(inFlight := None, settled := s.settled + [(e.id, if ok then Resolved else Rejected)]);
      DropBudgeted(s, u, id);
      PumpBudgeted(minSpacingMs, u, now, id);
    }
  }

  lemma TimedOutBudgeted(minSpacingMs: int, s: Queue, i: nat, now: int, id: nat)
    requires Budgeted(s, id) && i < |s.timers|
    ensures Budgeted(TimedOut(minSpacingMs, s, i, now), id)
  {
    var e := s.timers[i];
    var t := s.(timers := Without(s.timers, i), inFlight := None);
    TallyWithout(IdOf, s.timers, i, id);
    DropBudgeted(s, t, id);
    if e.retries > 0 {
      var again := e.(retries := e.retries - 1);
      var u := t.(q := [again] + t.q);
      TallyHead(IdOf, again, t.q, id);
      if e.id == id {
        assert e in s.timers;
        NoneLeft(t.q, id);
        NoneLeft(t.sends, id);
        NoneLeft(t.timers, id);
      }
      PumpBudgeted(minSpacingMs, u, now, id);
    } else {
      PumpBudgeted(minSpacingMs, t.(settled := t.settled + [(e.id, Rejected)]), now, id);
    }
  }

  lemma {:induction false} FewerTimers(timers: seq<Entry>, gone: nat, id: nat)
    ensures Tally(IdOf, WithoutTimerOf(timers, gone), id) <= Tally(IdOf, timers, id)
    ensures forall e :: e in WithoutTimerOf(timers, gone) ==> e in timers
    decreases |timers|
  {
    if timers != [] {
      var head, rest := timers[0], timers[1..];
      assert timers == [head] + rest;
      FewerTimers(rest, gone, id);
      TallyHead(IdOf, head, rest, id);
      TallyHead(IdOf, head, WithoutTimerOf(rest, gone), id);
    }
  }

  lemma StepBudgeted(minSpacingMs: int, s: Queue, e: Event, id: nat)
    requires Budgeted(s, id)
    ensures Budgeted(Step(minSpacingMs, s, e), id)
  {
    match e
    case Call(r, at) => CallBudgeted(minSpacingMs, s, r, at, id);
    case SendSettled(i, ok, at) => if i < |s.sends| { SendSettledBudgeted(minSpacingMs, s, i, ok, at, id); }
    case ReplyTimer(i, at) => if i < |s.timers| { TimedOutBudgeted(minSpacingMs, s, i, at, id); }
    case Reply(matches, at) =>
      if s.inFlight.Some? && matches {
        var gone := s.inFlight.value.id;
        var t := s.(timers := WithoutTimerOf(s.timers, gone), inFlight := None,
                    settled := s.settled + [(gone, Resolved)]);
        FewerTimers(s.timers, gone, id);
        DropBudgeted(s, t, id);
        PumpBudgeted(minSpacingMs, t, at, id);
      }
    case PumpTimer(at) =>
      if s.pumpTimers > 0 {
        PumpBudgeted(minSpacingMs, s.(pumpTimer := false, pumpTimers := s.pumpTimers - 1), at, id);
      }
  }

  // ---- spacing and the pump timer ---------------------------------------------------------

  predicate Spaced(minSpacingMs: int, s: Queue) {
    && (forall k :: 0 < k < |s.sent| ==> s.sent[k].1 - s.sent[k - 1].1 >= minSpacingMs)
    && (s.sent != [] ==> s.sent[|s.sent| - 1].1 == s.lastSentAt)
  }

  /** There is a pump timer or there is none, and the field knows which. */
  predicate OnePumpTimer(s: Queue) {
    s.pumpTimers == if s.pumpTimer then 1 else 0
  }

  /** A queue that waits with nothing in flight will be woken. */
  predicate WillBePumped(s: Queue) {
    s.q != [] && s.inFlight.None? ==> s.pumpTimers == 1
  }

  lemma PumpPaces(minSpacingMs: int, s: Queue, now: int)
    requires Spaced(minSpacingMs, s) && OnePumpTimer(s)
    ensures Paced(minSpacingMs, Pump(minSpacingMs, s, now))
  {
  }

  predicate Paced(minSpacingMs: int, s: Queue) {
    Spaced(minSpacingMs, s) && OnePumpTimer(s) && WillBePumped(s)
  }

  lemma CallPaces(minSpacingMs: int, s: Queue, r: Request, at: int)
    requires Paced(minSpacingMs, s)
    ensures Paced(minSpacingMs, Enqueue(minSpacingMs, s, r, at))
  {
    if !KeyIsLive(s, r.key) {
      var e := Entry(|s.allowed|, r.text, r.key, r.priority, r.retries, r.noReply);
      PumpPaces(minSpacingMs, s.(q := SortByPriority(s.q + [e]), allowed := s.allowed + [r.retries]), at);
    }
  }

  lemma SendSettledPaces(minSpacingMs: int, s: Queue, i: nat, ok: bool, at: int)
    requires Paced(minSpacingMs, s) && i < |s.sends|
    ensures Paced(minSpacingMs, if ok then SendOk(minSpacingMs, s, i, at) else SendFailed(minSpacingMs, s, i, at))
  {
    var t := s.(sends := Without(s.sends, i));
    if ok && !s.sends[i].noReply {
      assert Paced(minSpacingMs, t.(timers := t.timers + [s.sends[i]]));
    } else {
      var end := if ok then Resolved else Rejected;
      PumpPaces(minSpacingMs, t.(inFlight := None, settled := t.settled + [(s.sends[i].id, end)]), at);
    }
  }

  lemma TimedOutPaces(minSpacingMs: int, s: Queue, i: nat, at: int)
    requires Paced(minSpacingMs, s) && i < |s.timers|
    ensures Paced(minSpacingMs, TimedOut(minSpacingMs, s, i, at))
  {
    var e := s.timers[i];
    var t := s.(timers := Without(s.timers, i), inFlight := None);
    PumpPaces(minSpacingMs,
              if e.retries > 0 then t.(q := [e.(retries := e.retries - 1)] + t.q)
              else t.(settled := t.settled + [(e.id, Rejected)]), at);
  }

  lemma ReplyPaces(minSpacingMs: int, s: Queue, matches: bool, at: int)
    requires Paced(minSpacingMs, s)
    ensures Paced(minSpacingMs, OnReply(minSpacingMs, s, matches, at))
  {
    if s.inFlight.Some? && matches {
      var gone := s.inFlight.value.id;
      PumpPaces(minSpacingMs, s.(timers := WithoutTimerOf(s.timers, gone), inFlight := None,
                                 settled := s.settled + [(gone, Resolved)]), at);
    }
  }

  lemma StepPaces(minSpacingMs: int, s: Queue, e: Event)
    requires Paced(minSpacingMs, s)
    ensures Paced(minSpacingMs, Step(minSpacingMs, s, e))
  {
    match e
    case Call(r, at) => CallPaces(minSpacingMs, s, r, at);
    case SendSettled(i, ok, at) => if i < |s.sends| { SendSettledPaces(minSpacingMs, s, i, ok, at); }
    case ReplyTimer(i, at) => if i < |s.timers| { TimedOutPaces(minSpacingMs, s, i, at); }
    case Reply(matches, at) => ReplyPaces(minSpacingMs, s, matches, at);
    case PumpTimer(at) =>
      if s.pumpTimers > 0 {
        PumpPaces(minSpacingMs, s.(pumpTimer := false, pumpTimers := s.pumpTimers - 1), at);
      }
  }

  // ---- every run ------------------------------------------------------------------------------

  lemma {:induction false} RunKeeps(minSpacingMs: int, s: Queue, events: seq<Event>, id: nat)
    requires Budgeted(s, id) && Paced(minSpacingMs, s)
    ensures var t := Run(minSpacingMs, s, events);
            Budgeted(t, id) && Paced(minSpacingMs, t)
    decreases |events|
  {
    if events != [] {
      StepBudgeted(minSpacingMs, s, events[0], id);
      StepPaces(minSpacingMs, s, events[0]);
      RunKeeps(minSpacingMs, Step(minSpacingMs, s, events[0]), events[1..], id);
    }
  }

  /** Send guarantees, in every interleaving whatsoever: a command is transmitted at
      most once more than the retries it was enqueued with; consecutive transmissions
      are at least the minimum spacing apart; there is never more than one pump
      timer, and exactly one whenever commands wait with nothing in flight. */
  lemma SendGuarantees(minSpacingMs: int, events: seq<Event>, id: nat)
    ensures var s := Run(minSpacingMs, EMPTY, events);
            && Times(s.sent, id) <= (if id < |s.allowed| then 1 + s.allowed[id] else 0)
            && (forall k :: 0 < k < |s.sent| ==> s.sent[k].1 - s.sent[k - 1].1 >= minSpacingMs)
            && s.pumpTimers <= 1
            && (s.q != [] && s.inFlight.None? ==> s.pumpTimers == 1)
  {
    RunKeeps(minSpacingMs, EMPTY, events, id);
  }

  /** What a command was enqueued with stays on record. */
  lemma {:induction false} AllowedIsHistory(minSpacingMs: int, s: Queue, events: seq<Event>)
    ensures s.allowed <= Run(minSpacingMs, s, events).allowed
    decreases |events|
  {
    if events != [] {
      AllowedIsHistory(minSpacingMs, Step(minSpacingMs, s, events[0]), events[1..]);
    }
  }

  /** A command that must not be repeated is transmitted at most once, whatever comes
      before it and after it; any other at most twice. */
  lemma UnsafeIsSentOnce(minSpacingMs: int, before: seq<Event>, verb: string, text: string, at: int,
                         after: seq<Event>)
    ensures var s := Run(minSpacingMs, EMPTY, before);
            var t := Run(minSpacingMs, EMPTY, before + [Call(Command(verb, text), at)] + after);
            !KeyIsLive(s, text) ==>
              Times(t.sent, |s.allowed|) <= if verb in UNSAFE_TO_RETRY then 1 else 2
  {
    var s := Run(minSpacingMs, EMPTY, before);
    var call := Call(Command(verb, text), at);
    var u := Step(minSpacingMs, s, call);
    var all := before + [call] + after;
    var t := Run(minSpacingMs, EMPTY, all);
    RunSplits(minSpacingMs, EMPTY, before, call, after);
    if !KeyIsLive(s, text) {
      AllowedIsHistory(minSpacingMs, u, after);
      assert u.allowed == s.allowed + [Command(verb, text).retries];
      SendGuarantees(minSpacingMs, all, |s.allowed|);
      assert t.allowed[|s.allowed|] == u.allowed[|s.allowed|];
    }
  }

  lemma {:induction false} RunSplits(minSpacingMs: int, s: Queue, before: seq<Event>, e: Event, after: seq<Event>)
    ensures Run(minSpacingMs, s, before + [e] + after)
            == Run(minSpacingMs, Step(minSpacingMs, Run(minSpacingMs, s, before), e), after)
    decreases |before|
  {
    var all := before + [e] + after;
    if before == [] {
      assert all[1..] == after;
    } else {
      assert all[1..] == before[1..] + [e] + after;
      RunSplits(minSpacingMs, Step(minSpacingMs, s, before[0]), before[1..], e, after);
    }
  }

  // ---- giving up -----------------------------------------------------------------------------

  /** A rejected command is finished, and had all its transmissions. */
  predicate SpentIfRejected(s: Queue, id: nat) {
    (id, Rejected) in s.settled ==>
      id < |s.allowed| && Tokens(s, id) == 0 && Times(s.sent, id) == 1 + s.allowed[id]
  }

  lemma PumpSpent(minSpacingMs: int, s: Queue, now: int, id: nat)
    requires SpentIfRejected(s, id)
    ensures SpentIfRejected(Pump(minSpacingMs, s, now), id)
  {
    var t := Pump(minSpacingMs, s, now);
    if t.inFlight != s.inFlight {
      var e, rest := s.q[0], s.q[1..];
      assert s.q == [e] + rest;
      TallyHead(IdOf, e, rest, id);
      TallyOne(IdOf, s.sends, e, id);
      assert t.sent[..|s.sent|] == s.sent;
    }
  }

  lemma CallSpent(minSpacingMs: int, s: Queue, r: Request, now: int, id: nat)
    requires Budgeted(s, id) && SpentIfRejected(s, id)
    ensures SpentIfRejected(Enqueue(minSpacingMs, s, r, now), id)
  {
    if !KeyIsLive(s, r.key) {
      var e := Entry(|s.allowed|, r.text, r.key, r.priority, r.retries, r.noReply);
      SortIsStable(IdOf, s.q + [e], id, 0);
      TallyOne(IdOf, s.q, e, id);
      PumpSpent(minSpacingMs, Admit(s, e), now, id);
    }
  }

  lemma SendOkSpent(minSpacingMs: int, s: Queue, i: nat, now: int, id: nat)
    requires SpentIfRejected(s, id) && i < |s.sends|
    ensures SpentIfRejected(SendOk(minSpacingMs, s, i, now), id)
  {
    var e := s.sends[i];
    var t := s.(sends := Without(s.sends, i));
    TallyWithout(IdOf, s.sends, i, id);
    if e.noReply {
      PumpSpent(minSpacingMs, t.(inFlight := None, settled := t.settled + [(e.id, Resolved)]), now, id);
    } else {
      TallyOne(IdOf, s.timers, e, id);
    }
  }

  lemma RetrySpent(s: Queue, i: nat, u: Queue, id: nat)
    requires SpentIfRejected(s, id) && i < |s.timers|
    requires u.q != []
    requires u == s.(timers := Without(s.timers, i), inFlight := None,
                     q := [s.timers[i].(retries := u.q[0].retries)] + s.q)
    ensures SpentIfRejected(u, id)
  {
    TallyWithout(IdOf, s.timers, i, id);
    TallyHead(IdOf, u.q[0], s.q, id);
  }

  lemma GiveUpSpent(s: Queue, i: nat, u: Queue, id: nat)
    requires Budgeted(s, id) && SpentIfRejected(s, id) && i < |s.timers| && s.timers[i].retries == 0
    requires u == s.(timers := Without(s.timers, i), inFlight := None,
                     settled := s.settled + [(s.timers[i].id, Rejected)])
    ensures SpentIfRejected(u, id)
  {
    TallyWithout(IdOf, s.timers, i, id);
    if s.timers[i].id == id {
      assert s.timers[i] in s.sends + s.timers;
    }
  }

  lemma TimedOutSpent(minSpacingMs: int, s: Queue, i: nat, now: int, id: nat)
    requires Budgeted(s, id) && SpentIfRejected(s, id) && i < |s.timers|
    ensures SpentIfRejected(TimedOut(minSpacingMs, s, i, now), id)
  {
    var e := s.timers[i];
    var t := s.(timers := Without(s.timers, i), inFlight := None);
    if e.retries > 0 {
      var u := t.(q := [e.(retries := e.retries - 1)] + t.q);
      RetrySpent(s, i, u, id);
      PumpSpent(minSpacingMs, u, now, id);
    } else {
      var u := t.(settled := t.settled + [(e.id, Rejected)]);
      GiveUpSpent(s, i, u, id);
      PumpSpent(minSpacingMs, u, now, id);
    }
  }

  lemma ReplySpent(minSpacingMs: int, s: Queue, matches: bool, now: int, id: nat)
    requires SpentIfRejected(s, id)
    ensures SpentIfRejected(OnReply(minSpacingMs, s, matches, now), id)
  {
    if s.inFlight.Some? && matches {
      var gone := s.inFlight.value.id;
      FewerTimers(s.timers, gone, id);
      PumpSpent(minSpacingMs, s.(timers := WithoutTimerOf(s.timers, gone), inFlight := None,
                                 settled := s.settled + [(gone, Resolved)]), now, id);
    }
  }

  lemma OtherSendFailedSpent(minSpacingMs: int, s: Queue, i: nat, now: int, id: nat)
    requires SpentIfRejected(s, id) && i < |s.sends| && s.sends[i].id != id
    ensures SpentIfRejected(SendFailed(minSpacingMs, s, i, now), id)
  {
    TallyWithout(IdOf, s.sends, i, id);
    PumpSpent(minSpacingMs, s.(sends := Without(s.sends, i), inFlight := None,
                               settled := s.settled + [(s.sends[i].id, Rejected)]), now, id);
  }

  /** No send of this command fails; those of others may. */
  predicate SendsOfSucceed(minSpacingMs: int, s: Queue, events: seq<Event>, id: nat)
    decreases |events|
  {
    events != [] ==>
      var e := events[0];
      && (e.SendSettled? && e.i < |s.sends| && s.sends[e.i].id == id ==> e.ok)
      && SendsOfSucceed(minSpacingMs, Step(minSpacingMs, s, e), events[1..], id)
  }

  lemma {:induction false} RunSpent(minSpacingMs: int, s: Queue, events: seq<Event>, id: nat)
    requires Budgeted(s, id) && SpentIfRejected(s, id) && SendsOfSucceed(minSpacingMs, s, events, id)
    ensures SpentIfRejected(Run(minSpacingMs, s, events), id)
    decreases |events|
  {
    if events != [] {
      var t := Step(minSpacingMs, s, events[0]);
      StepBudgeted(minSpacingMs, s, events[0], id);
      match events[0] {
        case Call(r, at) => CallSpent(minSpacingMs, s, r, at, id);
        case SendSettled(i, ok, at) =>
          if i < |s.sends| {
            if ok { SendOkSpent(minSpacingMs, s, i, at, id); } else { OtherSendFailedSpent(minSpacingMs, s, i, at, id); }
          }
        case ReplyTimer(i, at) => if i < |s.timers| { TimedOutSpent(minSpacingMs, s, i, at, id); }
        case Reply(matches, at) => ReplySpent(minSpacingMs, s, matches, at, id);
        case PumpTimer(at) =>
          if s.pumpTimers > 0 {
            PumpSpent(minSpacingMs, s.(pumpTimer := false, pumpTimers := s.pumpTimers - 1), at, id);
          }
      }
      RunSpent(minSpacingMs, t, events[1..], id);
    }
  }

  /** No command is given up early: unless one of its own sends fails, a command is rejected
      only after every transmission it was entitled to, in every interleaving and whatever
      becomes of others. */
  lemma RejectedOnlyWhenSpent(minSpacingMs: int, events: seq<Event>, id: nat)
    requires SendsOfSucceed(minSpacingMs, EMPTY, events, id)
    ensures var s := Run(minSpacingMs, EMPTY, events);
            (id, Rejected) in s.settled ==> id < |s.allowed| && Times(s.sent, id) == 1 + s.allowed[id]
  {
    RunSpent(minSpacingMs, EMPTY, events, id);
  }
}
