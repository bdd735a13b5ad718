/** Which command the queue sends, and when (clients/node/lib/queue.js:29-83): what was called,
    by priority and then in the order of the calls, as soon as the spacing allows. */
module QueueOrder {
  import opened Wire
  import opened QueueModel
  import opened QueueSafety
  import opened QueueSends

  // ---- what was called -----------------------------------------------------------------------

  /** A call is admitted if no command with its key is pending or in flight. */
  predicate Admits(s: Queue, e: Event) {
    e.Call? && LiveWithKey(s, e.r.key) == 0
  }

  /** The calls admitted in a run, in order: the identifier of a command is its place here. */
  function Admitted(minSpacingMs: int, s: Queue, events: seq<Event>, before: seq<Request>): seq<Request>
    decreases |events|
  {
    if events == [] then before
    else Admitted(minSpacingMs, Step(minSpacingMs, s, events[0]), events[1..],
                  if Admits(s, events[0]) then before + [events[0].r] else before)
  }

  /** An entry is what was called, with as many retries left as it was given or fewer. */
  predicate IsCalled(e: Entry, calls: seq<Request>) {
    e.id < |calls| && var r := calls[e.id];
      e.text == r.text && e.key == r.key && e.priority == r.priority && e.noReply == r.noReply && e.retries <= r.retries
  }

  predicate AllCalled(q: seq<Entry>, calls: seq<Request>) {
    forall e :: e in q ==> IsCalled(e, calls)
  }

  predicate TrueTo(s: Queue, calls: seq<Request>) {
    && |s.allowed| == |calls| && (forall i :: 0 <= i < |calls| ==> s.allowed[i] == calls[i].retries)
    && AllCalled(s.q, calls) && AllCalled(s.sends, calls) && AllCalled(s.timers, calls)
    && (s.inFlight.Some? ==> IsCalled(s.inFlight.value, calls))
  }

  lemma PumpTrue(minSpacingMs: int, s: Queue, now: int, calls: seq<Request>)
    requires TrueTo(s, calls)
    ensures TrueTo(Pump(minSpacingMs, s, now), calls)
  {
  }

  lemma LiveIs(s: Queue, key: string)
    ensures KeyIsLive(s, key) <==> LiveWithKey(s, key) > 0
  {
    TallyZeroIff(KeyOf, s.q, key);
  }

  lemma OneMoreCall(q: seq<Entry>, calls: seq<Request>, r: Request)
    requires AllCalled(q, calls)
    ensures AllCalled(q, calls + [r])
  {
    forall e | e in q ensures IsCalled(e, calls + [r]) {
      assert IsCalled(e, calls);
    }
  }

  lemma SortKeepsCalled(q: seq<Entry>, calls: seq<Request>)
    requires AllCalled(q, calls)
    ensures AllCalled(SortByPriority(q), calls)
  {
    SortIsStable(IdOf, q, 0, 0);
  }

  lemma AdmitTrue(s: Queue, r: Request, e: Entry, calls: seq<Request>)
    requires TrueTo(s, calls) && e == Entry(|calls|, r.text, r.key, r.priority, r.retries, r.noReply)
    ensures TrueTo(Admit(s, e), calls + [r])
  {
    OneMoreCall(s.q, calls, r);
    OneMoreCall(s.sends, calls, r);
    OneMoreCall(s.timers, calls, r);
    assert IsCalled(e, calls + [r]);
    SortKeepsCalled(s.q + [e], calls + [r]);
  }

  lemma CallTrue(minSpacingMs: int, s: Queue, r: Request, now: int, calls: seq<Request>)
    requires TrueTo(s, calls)
    ensures TrueTo(Enqueue(minSpacingMs, s, r, now), if LiveWithKey(s, r.key) == 0 then calls + [r] else calls)
  {
    LiveIs(s, r.key);
    if !KeyIsLive(s, r.key) {
      var e := Entry(|s.allowed|, r.text, r.key, r.priority, r.retries, r.noReply);
      AdmitTrue(s, r, e, calls);
      PumpTrue(minSpacingMs, Admit(s, e), now, calls + [r]);
    }
  }

  lemma TimedOutTrue(minSpacingMs: int, s: Queue, i: nat, now: int, calls: seq<Request>)
    requires TrueTo(s, calls) && i < |s.timers|
    ensures TrueTo(TimedOut(minSpacingMs, s, i, now), calls)
  {
    var e := s.timers[i];
    var t := s.(timers := Without(s.timers, i), inFlight := None);
    assert e in s.timers;
    if e.retries > 0 {
      PumpTrue(minSpacingMs, t.(q := [e.(retries := e.retries - 1)] + t.q), now, calls);
    } else {
      PumpTrue(minSpacingMs, t.(settled := t.settled + [(e.id, Rejected)]), now, calls);
    }
  }

  lemma StepTrue(minSpacingMs: int, s: Queue, e: Event, calls: seq<Request>)
    requires TrueTo(s, calls)
    ensures TrueTo(Step(minSpacingMs, s, e), if Admits(s, e) then calls + [e.r] else calls)
  {
    match e
    case Call(r, at) => CallTrue(minSpacingMs, s, r, at, calls);
    case SendSettled(i, ok, at) =>
      if i < |s.sends| {
        var t := s.(sends := Without(s.sends, i));
        if !(ok && !s.sends[i].noReply) {
          PumpTrue(minSpacingMs, t.(inFlight := None,
                                    settled := s.settled + [(s.sends[i].id, if ok then Resolved else Rejected)]), at, calls);
        }
      }
    case ReplyTimer(i, at) => if i < |s.timers| { TimedOutTrue(minSpacingMs, s, i, at, calls); }
    case Reply(matches, at) =>
      if s.inFlight.Some? && matches {
        var gone := s.inFlight.value.id;
        FewerTimers(s.timers, gone, gone);
        PumpTrue(minSpacingMs, s.(timers := WithoutTimerOf(s.timers, gone), inFlight := None,
                                  settled := s.settled + [(gone, Resolved)]), at, calls);
      }
    case PumpTimer(at) =>
      if s.pumpTimers > 0 {
        PumpTrue(minSpacingMs, s.(pumpTimer := false, pumpTimers := s.pumpTimers - 1), at, calls);
      }
  }

  lemma {:induction false} RunTrue(minSpacingMs: int, s: Queue, events: seq<Event>, calls: seq<Request>)
    requires TrueTo(s, calls)
    ensures TrueTo(Run(minSpacingMs, s, events), Admitted(minSpacingMs, s, events, calls))
    decreases |events|
  {
    if events != [] {
      StepTrue(minSpacingMs, s, events[0], calls);
      RunTrue(minSpacingMs, Step(minSpacingMs, s, events[0]), events[1..],
              if Admits(s, events[0]) then calls + [events[0].r] else calls);
    }
  }

  /** Over every run, in every interleaving: a command is added for each call whose key is
      neither pending nor in flight, and for no other; and whatever is pending, in flight, being
      sent or waited for has the text, key, priority and options of its call. */
  lemma CommandsAreCalls(minSpacingMs: int, events: seq<Event>)
    ensures TrueTo(Run(minSpacingMs, EMPTY, events), Admitted(minSpacingMs, EMPTY, events, []))
  {
    RunTrue(minSpacingMs, EMPTY, events, []);
  }

  // ---- when ------------------------------------------------------------------------------------

  /** One transmission: of what is in flight from then on, at the time of the event. */
  predicate Launches(s: Queue, t: Queue, at: int) {
    && t.inFlight.Some? && t.sent == s.sent + [(t.inFlight.value.id, at)] && t.lastSentAt == at
    && t.sends != [] && t.sends[|t.sends| - 1] == t.inFlight.value
  }

  /** The event had no bearing on whether something can be sent. */
  predicate LeavesAlone(s: Queue, t: Queue) {
    t.inFlight == s.inFlight && t.q == s.q && t.sent == s.sent
  }

  /** Something is in flight, nothing is pending, or it is too early after the last transmission. */
  predicate NothingToSend(minSpacingMs: int, t: Queue, now: int) {
    t.inFlight.Some? || t.q == [] || now - t.lastSentAt < minSpacingMs
  }

  /** What a step may do: nothing, or all that can be sent - one command or none. */
  predicate Sends(minSpacingMs: int, s: Queue, t: Queue, now: int) {
    && (LeavesAlone(s, t) || NothingToSend(minSpacingMs, t, now))
    && (t.sent == s.sent || (Launches(s, t, now) && now - s.lastSentAt >= minSpacingMs))
  }

  lemma PumpSends(minSpacingMs: int, s: Queue, u: Queue, now: int)
    requires u.sent == s.sent && u.lastSentAt == s.lastSentAt
    ensures Sends(minSpacingMs, s, Pump(minSpacingMs, u, now), now)
  {
  }

  lemma SendSettledSends(minSpacingMs: int, s: Queue, i: nat, ok: bool, now: int)
    requires i < |s.sends|
    ensures Sends(minSpacingMs, s, if ok then SendOk(minSpacingMs, s, i, now) else SendFailed(minSpacingMs, s, i, now), now)
  {
    var end := if ok then Resolved else Rejected;
    PumpSends(minSpacingMs, s, s.(sends := Without(s.sends, i), inFlight := None,
                                  settled := s.settled + [(s.sends[i].id, end)]), now);
  }

  lemma TimedOutSends(minSpacingMs: int, s: Queue, i: nat, now: int)
    requires i < |s.timers|
    ensures Sends(minSpacingMs, s, TimedOut(minSpacingMs, s, i, now), now)
  {
    var e := s.timers[i];
    var t := s.(timers := Without(s.timers, i), inFlight := None);
    PumpSends(minSpacingMs, s, if e.retries > 0 then t.(q := [e.(retries := e.retries - 1)] + t.q)
                               else t.(settled := t.settled + [(e.id, Rejected)]), now);
  }

  /** Nothing waits in vain: every step leaves the list and the flight as they were, or ends
      with something in flight, or with nothing pending, or too early after the last
      transmission. And a step transmits one command or none, which is then in flight. */
  lemma NothingWaitsInVain(minSpacingMs: int, s: Queue, e: Event)
    ensures Sends(minSpacingMs, s, Step(minSpacingMs, s, e), e.at)
  {
    match e
    case Call(r, at) =>
      var f := Entry(|s.allowed|, r.text, r.key, r.priority, r.retries, r.noReply);
      PumpSends(minSpacingMs, s, Admit(s, f), at);
    case SendSettled(i, ok, at) => if i < |s.sends| { SendSettledSends(minSpacingMs, s, i, ok, at); }
    case ReplyTimer(i, at) => if i < |s.timers| { TimedOutSends(minSpacingMs, s, i, at); }
    case Reply(matches, at) =>
      if s.inFlight.Some? && matches {
        var gone := s.inFlight.value.id;
        PumpSends(minSpacingMs, s, s.(timers := WithoutTimerOf(s.timers, gone), inFlight := None,
                                      settled := s.settled + [(gone, Resolved)]), at);
      }
    case PumpTimer(at) =>
      if s.pumpTimers > 0 {
        PumpSends(minSpacingMs, s, s.(pumpTimer := false, pumpTimers := s.pumpTimers - 1), at);
      }
  }

  // ---- in which order ---------------------------------------------------------------------------

  /** Of equal priority, the earlier call is ahead. */
  predicate InTurn(q: seq<Entry>) {
    forall i, j :: 0 <= i < j < |q| && q[i].priority == q[j].priority ==> q[i].id < q[j].id
  }

  predicate Ahead(f: Entry, q: seq<Entry>) {
    forall g :: g in q && g.priority == f.priority ==> f.id < g.id
  }

  /** And what is in flight is ahead of what is pending. */
  predicate Queued(s: Queue) {
    InTurn(s.q) && (s.inFlight.Some? ==> Ahead(s.inFlight.value, s.q))
  }

  lemma LastInTurn(q: seq<Entry>)
    requires InTurn(q) && q != []
    ensures forall x :: x in q[..|q| - 1] && x.priority == q[|q| - 1].priority ==> x.id < q[|q| - 1].id
  {
  }

  lemma {:induction false} InsertInTurn(sorted: seq<Entry>, e: Entry)
    requires Falling(sorted) && InTurn(sorted) && forall x :: x in sorted && x.priority == e.priority ==> x.id < e.id
    ensures InTurn(Insert(sorted, e))
    decreases |sorted|
  {
    var n := |sorted|;
    if n > 0 && sorted[n - 1].priority < e.priority {
      InsertInTurn(sorted[..n - 1], e);
      InsertFalls(sorted[..n - 1], e);
      LastInTurn(sorted);
    }
  }

  lemma {:induction false} SortInTurn(q: seq<Entry>)
    requires InTurn(q)
    ensures InTurn(SortByPriority(q))
    decreases |q|
  {
    if q != [] {
      var n := |q| - 1;
      SortInTurn(q[..n]);
      SortIsStable(IdOf, q[..n], 0, 0);
      InsertInTurn(SortByPriority(q[..n]), q[n]);
    }
  }

  lemma PumpInTurn(minSpacingMs: int, s: Queue, now: int)
    requires Queued(s)
    ensures Queued(Pump(minSpacingMs, s, now))
  {
    var t := Pump(minSpacingMs, s, now);
    if t.inFlight != s.inFlight {
      forall g | g in s.q[1..] && g.priority == s.q[0].priority ensures s.q[0].id < g.id {
        var j :| 0 <= j < |s.q[1..]| && s.q[1..][j] == g;
        assert s.q[j + 1] == g;
      }
    }
  }

  lemma AdmitInTurn(s: Queue, e: Entry, calls: seq<Request>)
    requires Queued(s) && TrueTo(s, calls) && e.id == |s.allowed|
    ensures Queued(Admit(s, e)) && Falling(Admit(s, e).q)
  {
    assert forall x :: x in s.q ==> x.id < e.id;
    assert InTurn(s.q + [e]);
    SortInTurn(s.q + [e]);
    SortIsStable(IdOf, s.q + [e], 0, 0);
  }

  lemma CallInTurn(minSpacingMs: int, s: Queue, r: Request, now: int, calls: seq<Request>)
    requires Queued(s) && TrueTo(s, calls)
    ensures Queued(Enqueue(minSpacingMs, s, r, now))
  {
    if !KeyIsLive(s, r.key) {
      var e := Entry(|s.allowed|, r.text, r.key, r.priority, r.retries, r.noReply);
      AdmitInTurn(s, e, calls);
      PumpInTurn(minSpacingMs, Admit(s, e), now);
    }
  }

  lemma RetryInTurn(s: Queue, e: Entry, u: Queue)
    requires Queued(s) && s.inFlight == Some(e) && u.inFlight.None?
    requires u.q != [] && u.q == [e.(retries := u.q[0].retries)] + s.q
    ensures Queued(u)
  {
  }

  lemma TimedOutInTurn(minSpacingMs: int, s: Queue, i: nat, now: int)
    requires Queued(s) && OneTurn(s) && i < |s.timers|
    ensures Queued(TimedOut(minSpacingMs, s, i, now))
  {
    var e := s.timers[i];
    var t := s.(timers := Without(s.timers, i), inFlight := None);
    if e.retries > 0 {
      var u := t.(q := [e.(retries := e.retries - 1)] + t.q);
      RetryInTurn(s, e, u);
      PumpInTurn(minSpacingMs, u, now);
    } else {
      PumpInTurn(minSpacingMs, t.(settled := t.settled + [(e.id, Rejected)]), now);
    }
  }

  lemma StepInTurn(minSpacingMs: int, s: Queue, e: Event, calls: seq<Request>)
    requires Queued(s) && OneTurn(s) && TrueTo(s, calls)
    ensures Queued(Step(minSpacingMs, s, e))
  {
    match e
    case Call(r, at) => CallInTurn(minSpacingMs, s, r, at, calls);
    case SendSettled(i, ok, at) =>
      if i < |s.sends| && !(ok && !s.sends[i].noReply) {
        PumpInTurn(minSpacingMs, s.(sends := Without(s.sends, i), inFlight := None,
                                    settled := s.settled + [(s.sends[i].id, if ok then Resolved else Rejected)]), at);
      }
    case ReplyTimer(i, at) => if i < |s.timers| { TimedOutInTurn(minSpacingMs, s, i, at); }
    case Reply(matches, at) =>
      if s.inFlight.Some? && matches {
        var gone := s.inFlight.value.id;
        PumpInTurn(minSpacingMs, s.(timers := WithoutTimerOf(s.timers, gone), inFlight := None,
                                    settled := s.settled + [(gone, Resolved)]), at);
      }
    case PumpTimer(at) =>
      if s.pumpTimers > 0 {
        PumpInTurn(minSpacingMs, s.(pumpTimer := false, pumpTimers := s.pumpTimers - 1), at);
      }
  }

  /** The command was retransmitted, or is ahead of everything pending: of higher priority, or
      of equal priority and called earlier. */
  predicate WasNext(s: Queue, t: Queue)
    requires t.inFlight.Some?
  {
    var f := t.inFlight.value;
    Times(s.sent, f.id) > 0
    || forall g :: g in t.q ==> f.priority > g.priority || (f.priority == g.priority && f.id < g.id)
  }

  /** A list out of order has at its head a command that was sent before. */
  predicate OnlyRetriesJump(s: Queue) {
    s.inFlight.None? && s.q != [] ==> Times(s.sent, s.q[0].id) > 0 || Falling(s.q)
  }

  lemma PumpIsNext(minSpacingMs: int, s: Queue, now: int)
    requires Queued(s) && OnlyRetriesJump(s)
    ensures var t := Pump(minSpacingMs, s, now);
            && OnlyRetriesJump(t) && (t.sent != s.sent ==> t.inFlight.Some? && WasNext(s, t))
  {
    var t := Pump(minSpacingMs, s, now);
    if t.sent != s.sent && Falling(s.q) {
      forall g | g in t.q ensures s.q[0].priority > g.priority || (s.q[0].priority == g.priority && s.q[0].id < g.id) {
        var j :| 0 <= j < |t.q| && t.q[j] == g;
        assert s.q[j + 1] == g;
      }
    }
  }

  /** Whatever is awaited has been transmitted. */
  predicate AllSent(s: Queue) {
    (forall e :: e in s.sends ==> Times(s.sent, e.id) > 0) && (forall e :: e in s.timers ==> Times(s.sent, e.id) > 0)
  }

  lemma OneMoreSent(sent: seq<(nat, int)>, other: nat, at: int, id: nat)
    ensures Times(sent + [(other, at)], id) == Times(sent, id) + (if other == id then 1 else 0)
  {
    assert (sent + [(other, at)])[..|sent|] == sent;
  }

  lemma PumpAllSent(minSpacingMs: int, s: Queue, now: int)
    requires AllSent(s)
    ensures AllSent(Pump(minSpacingMs, s, now))
  {
    var t := Pump(minSpacingMs, s, now);
    if t.sent != s.sent {
      forall e | e in t.sends ensures Times(t.sent, e.id) > 0 {
        OneMoreSent(s.sent, s.q[0].id, now, e.id);
      }
      forall e | e in t.timers ensures Times(t.sent, e.id) > 0 {
        OneMoreSent(s.sent, s.q[0].id, now, e.id);
      }
    }
  }

  /** What a step keeps, and whom it sends. */
  predicate InOrderAfter(s: Queue, t: Queue) {
    AllSent(t) && OnlyRetriesJump(t) && (t.sent != s.sent ==> t.inFlight.Some? && WasNext(s, t))
  }

  lemma PumpInOrder(minSpacingMs: int, s: Queue, u: Queue, now: int)
    requires Queued(u) && OnlyRetriesJump(u) && AllSent(u) && u.sent == s.sent
    ensures InOrderAfter(s, Pump(minSpacingMs, u, now))
  {
    PumpAllSent(minSpacingMs, u, now);
    PumpIsNext(minSpacingMs, u, now);
  }

  lemma CallInOrder(minSpacingMs: int, s: Queue, r: Request, now: int, calls: seq<Request>)
    requires Queued(s) && TrueTo(s, calls) && AllSent(s) && OnlyRetriesJump(s)
    ensures InOrderAfter(s, Enqueue(minSpacingMs, s, r, now))
  {
    if !KeyIsLive(s, r.key) {
      var e := Entry(|s.allowed|, r.text, r.key, r.priority, r.retries, r.noReply);
      AdmitInTurn(s, e, calls);
      PumpInOrder(minSpacingMs, s, Admit(s, e), now);
    }
  }

  /** The queue before the pump, after its only timer has fired. */
  lemma TimerGone(s: Queue, e: Entry, u: Queue)
    requires s.timers == [e] && AllSent(s) && u.sent == s.sent && u.sends == s.sends && u.timers == []
    ensures AllSent(u) && Times(u.sent, e.id) > 0
  {
    assert e in s.timers;
  }

  lemma TimedOutInOrder(minSpacingMs: int, s: Queue, i: nat, now: int)
    requires Queued(s) && OneTurn(s) && InOrder(s) && AllSent(s) && i < |s.timers|
    ensures InOrderAfter(s, TimedOut(minSpacingMs, s, i, now))
  {
    var e := s.timers[i];
    assert s.timers == [e] && Without(s.timers, i) == [];
    if e.retries > 0 {
      var u := s.(timers := [], inFlight := None, q := [e.(retries := e.retries - 1)] + s.q);
      RetryInTurn(s, e, u);
      TimerGone(s, e, u);
      PumpInOrder(minSpacingMs, s, u, now);
    } else {
      var u := s.(timers := [], inFlight := None, settled := s.settled + [(e.id, Rejected)]);
      TimerGone(s, e, u);
      PumpInOrder(minSpacingMs, s, u, now);
    }
  }

  lemma StepInOrder(minSpacingMs: int, s: Queue, e: Event, calls: seq<Request>)
    requires Queued(s) && TrueTo(s, calls) && Orderly(s, 0, "") && AllSent(s) && OnlyRetriesJump(s)
    ensures InOrderAfter(s, Step(minSpacingMs, s, e))
  {
    match e
    case Call(r, at) => CallInOrder(minSpacingMs, s, r, at, calls);
    case SendSettled(i, ok, at) =>
      if i < |s.sends| && !(ok && !s.sends[i].noReply) {
        PumpInOrder(minSpacingMs, s, s.(sends := Without(s.sends, i), inFlight := None,
                                        settled := s.settled + [(s.sends[i].id, if ok then Resolved else Rejected)]), at);
      }
    case ReplyTimer(i, at) => if i < |s.timers| { TimedOutInOrder(minSpacingMs, s, i, at); }
    case Reply(matches, at) =>
      if s.inFlight.Some? && matches {
        var gone := s.inFlight.value.id;
        FewerTimers(s.timers, gone, gone);
        PumpInOrder(minSpacingMs, s, s.(timers := WithoutTimerOf(s.timers, gone), inFlight := None,
                                        settled := s.settled + [(gone, Resolved)]), at);
      }
    case PumpTimer(at) =>
      if s.pumpTimers > 0 {
        PumpInOrder(minSpacingMs, s, s.(pumpTimer := false, pumpTimers := s.pumpTimers - 1), at);
      }
  }

  lemma {:induction false} RunInOrder(minSpacingMs: int, s: Queue, events: seq<Event>, calls: seq<Request>)
    requires Queued(s) && TrueTo(s, calls) && Orderly(s, 0, "") && AllSent(s) && OnlyRetriesJump(s)
    requires RepliesWait(minSpacingMs, s, events)
    ensures var t := Run(minSpacingMs, s, events);
            Queued(t) && AllSent(t) && OnlyRetriesJump(t) && Orderly(t, 0, "")
    decreases |events|
  {
    if events != [] {
      var next := if Admits(s, events[0]) then calls + [events[0].r] else calls;
      StepInTurn(minSpacingMs, s, events[0], calls);
      StepTrue(minSpacingMs, s, events[0], calls);
      StepOrderly(minSpacingMs, s, events[0], 0, "");
      StepInOrder(minSpacingMs, s, events[0], calls);
      RunInOrder(minSpacingMs, Step(minSpacingMs, s, events[0]), events[1..], next);
    }
  }

  /** If a command was transmitted it was next, it is in flight, and it is what was called. */
  predicate SendsNext(s: Queue, t: Queue, at: int, calls: seq<Request>) {
    t.sent != s.sent ==> Launches(s, t, at) && WasNext(s, t) && IsCalled(t.inFlight.value, calls)
  }

  /** What RunInOrder keeps. */
  predicate Prepared(s: Queue, calls: seq<Request>) {
    Queued(s) && TrueTo(s, calls) && Orderly(s, 0, "") && AllSent(s) && OnlyRetriesJump(s)
  }

  lemma StepSendsNext(minSpacingMs: int, s: Queue, e: Event, calls: seq<Request>)
    requires Prepared(s, calls)
    ensures SendsNext(s, Step(minSpacingMs, s, e), e.at, if Admits(s, e) then calls + [e.r] else calls)
  {
    StepInOrder(minSpacingMs, s, e, calls);
    NothingWaitsInVain(minSpacingMs, s, e);
    StepTrue(minSpacingMs, s, e, calls);
  }

  lemma RunPrepared(minSpacingMs: int, events: seq<Event>, s: Queue, calls: seq<Request>)
    requires RepliesWait(minSpacingMs, EMPTY, events)
    requires s == Run(minSpacingMs, EMPTY, events) && calls == Admitted(minSpacingMs, EMPTY, events, [])
    ensures Prepared(s, calls)
  {
    CommandsAreCalls(minSpacingMs, events);
    RunInOrder(minSpacingMs, EMPTY, events, []);
  }

  /** The order of transmissions. In any run in which replies wait for their sends, the command
      that a step transmits is a retransmission or is ahead of all that is pending - of higher
      priority, or of equal priority and called earlier - and it goes out with the text it was
      called with. */
  lemma SendsInOrder(minSpacingMs: int, events: seq<Event>, e: Event)
    requires RepliesWait(minSpacingMs, EMPTY, events)
    ensures var s, calls := Run(minSpacingMs, EMPTY, events), Admitted(minSpacingMs, EMPTY, events, []);
            SendsNext(s, Step(minSpacingMs, s, e), e.at, if Admits(s, e) then calls + [e.r] else calls)
  {
    var s, calls := Run(minSpacingMs, EMPTY, events), Admitted(minSpacingMs, EMPTY, events, []);
    RunPrepared(minSpacingMs, events, s, calls);
    StepSendsNext(minSpacingMs, s, e, calls);
  }
}
