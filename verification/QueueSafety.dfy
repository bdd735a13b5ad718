/** What the command queue keeps: every command in exactly one place, in turn, with
    bounded and spaced transmissions and one pump timer. */
module QueueSafety {
  import opened Wire
  import opened QueueModel

  // ---- how often an identifier or a key occurs -------------------------------------------

  function IdOf(e: Entry): nat { e.id }
  function KeyOf(e: Entry): string { e.key }

  function Tally<K(==)>(f: Entry -> K, q: seq<Entry>, k: K): nat {
    if q == [] then 0 else Tally(f, q[..|q| - 1], k) + (if f(q[|q| - 1]) == k then 1 else 0)
  }

  lemma TallyOne<K>(f: Entry -> K, q: seq<Entry>, e: Entry, k: K)
    ensures Tally(f, q + [e], k) == Tally(f, q, k) + (if f(e) == k then 1 else 0)
  {
    assert (q + [e])[..|q|] == q;
  }

  lemma {:induction false} TallyAppend<K>(f: Entry -> K, a: seq<Entry>, b: seq<Entry>, k: K)
    ensures Tally(f, a + b, k) == Tally(f, a, k) + Tally(f, b, k)
    decreases |b|
  {
    if b == [] {
      assert a + b == a;
    } else {
      var n := |b| - 1;
      TallyAppend(f, a, b[..n], k);
      TallyOne(f, a + b[..n], b[n], k);
      assert a + b == (a + b[..n]) + [b[n]];
    }
  }

  lemma TallyHead<K>(f: Entry -> K, e: Entry, q: seq<Entry>, k: K)
    ensures Tally(f, [e] + q, k) == Tally(f, q, k) + (if f(e) == k then 1 else 0)
  {
    TallyAppend(f, [e], q, k);
    assert [e][..0] == [];
  }

  lemma {:induction false} TallyWithout<K>(f: Entry -> K, q: seq<Entry>, i: nat, k: K)
    requires i < |q|
    ensures Tally(f, q, k) == Tally(f, Without(q, i), k) + (if f(q[i]) == k then 1 else 0)
    decreases |q|
  {
    var n := |q| - 1;
    var front := q[..n];
    if i == n {
      assert Without(q, i) == front;
    } else {
      TallyWithout(f, front, i, k);
      TallyOne(f, Without(front, i), q[n], k);
      assert Without(q, i) == Without(front, i) + [q[n]];
    }
  }

  lemma {:induction false} TallyZeroIff<K>(f: Entry -> K, q: seq<Entry>, k: K)
    ensures Tally(f, q, k) == 0 <==> forall i :: 0 <= i < |q| ==> f(q[i]) != k
    decreases |q|
  {
    if q != [] {
      TallyZeroIff(f, q[..|q| - 1], k);
    }
  }

  // ---- the sort --------------------------------------------------------------------------

  predicate Falling(q: seq<Entry>) {
    forall i, j :: 0 <= i < j < |q| ==> q[i].priority >= q[j].priority
  }

  function OfPriority(q: seq<Entry>, p: int): seq<Entry> {
    if q == [] then []
    else OfPriority(q[..|q| - 1], p) + (if q[|q| - 1].priority == p then [q[|q| - 1]] else [])
  }

  lemma {:induction false} InsertFalls(sorted: seq<Entry>, e: Entry)
    requires Falling(sorted)
    ensures Falling(Insert(sorted, e))
    ensures forall x :: x in Insert(sorted, e) <==> x in sorted || x == e
    decreases |sorted|
  {
    var n := |sorted|;
    if n > 0 && sorted[n - 1].priority < e.priority {
      var rest := sorted[..n - 1];
      InsertFalls(rest, e);
      forall x | x in Insert(rest, e) ensures x.priority >= sorted[n - 1].priority {
        assert x in rest || x == e;
      }
    }
  }

  lemma {:induction false} InsertCounts<K>(f: Entry -> K, sorted: seq<Entry>, e: Entry, k: K)
    ensures Tally(f, Insert(sorted, e), k) == Tally(f, sorted, k) + (if f(e) == k then 1 else 0)
    decreases |sorted|
  {
    var n := |sorted|;
    if n > 0 && sorted[n - 1].priority < e.priority {
      InsertCounts(f, sorted[..n - 1], e, k);
      TallyOne(f, Insert(sorted[..n - 1], e), sorted[n - 1], k);
    } else {
      TallyOne(f, sorted, e, k);
    }
  }

  lemma {:induction false} InsertKeepsOrder(sorted: seq<Entry>, e: Entry, p: int)
    ensures OfPriority(Insert(sorted, e), p) == OfPriority(sorted, p) + (if e.priority == p then [e] else [])
    decreases |sorted|
  {
    var n := |sorted|;
    if n > 0 && sorted[n - 1].priority < e.priority {
      var rest := sorted[..n - 1];
      InsertKeepsOrder(rest, e, p);
      assert Insert(sorted, e)[..n] == Insert(rest, e);
      assert Insert(sorted, e)[n] == sorted[n - 1];
    } else {
      assert (sorted + [e])[..n] == sorted;
    }
  }

  /** Sorting keeps every entry as often as it was, puts priorities in falling order,
      and keeps the order of equal priorities: it is a stable sort. */
  lemma {:induction false} SortIsStable<K>(f: Entry -> K, q: seq<Entry>, k: K, p: int)
    ensures var r := SortByPriority(q);
            && Falling(r)
            && (forall x :: x in r <==> x in q)
            && Tally(f, r, k) == Tally(f, q, k)
            && OfPriority(r, p) == OfPriority(q, p)
    decreases |q|
  {
    if q != [] {
      var n := |q| - 1;
      SortIsStable(f, q[..n], k, p);
      var sorted := SortByPriority(q[..n]);
      InsertFalls(sorted, q[n]);
      InsertCounts(f, sorted, q[n], k);
      InsertKeepsOrder(sorted, q[n], p);
    }
  }

  // ---- in turn ----------------------------------------------------------------------------

  function Settlings(settled: seq<(nat, Ending)>, id: nat): nat {
    if settled == [] then 0
    else Settlings(settled[..|settled| - 1], id) + (if settled[|settled| - 1].0 == id then 1 else 0)
  }

  /** In how many places a command is: pending, in flight, settled. */
  function Places(s: Queue, id: nat): nat {
    Tally(IdOf, s.q, id)
    + (if s.inFlight.Some? && s.inFlight.value.id == id then 1 else 0)
    + Settlings(s.settled, id)
  }

  /** How many live commands - pending or in flight - have this key. */
  function LiveWithKey(s: Queue, key: string): nat {
    Tally(KeyOf, s.q, key) + (if s.inFlight.Some? && s.inFlight.value.key == key then 1 else 0)
  }

  /** The entry in flight is the one whose send is awaited or whose reply timer is
      armed, and there is no other. */
  predicate OneTurn(s: Queue) {
    match s.inFlight
    case None => s.sends == [] && s.timers == []
    case Some(e) => (s.sends == [e] && s.timers == []) || (s.sends == [] && s.timers == [e])
  }

  predicate InOrder(s: Queue) {
    if s.inFlight.Some? then Falling(s.q) else s.q == [] || Falling(s.q[1..])
  }

  /** What every step keeps, about an arbitrary command and an arbitrary key. */
  predicate Orderly(s: Queue, id: nat, key: string) {
    && Places(s, id) == (if id < |s.allowed| then 1 else 0)
    && LiveWithKey(s, key) <= 1
    && OneTurn(s) && InOrder(s)
  }

  /** Putting the head of the list in flight moves it and nothing else. */
  lemma LaunchOrderly(s: Queue, e: Entry, rest: seq<Entry>, t: Queue, id: nat, key: string)
    requires Orderly(s, id, key) && s.inFlight.None? && s.q == [e] + rest
    requires t == s.(q := rest, inFlight := Some(e), lastSentAt := t.lastSentAt, sends := [e], sent := t.sent)
    ensures Orderly(t, id, key)
  {
    TallyHead(IdOf, e, rest, id);
    TallyHead(KeyOf, e, rest, key);
    assert s.q[1..] == rest;
  }

  lemma PumpOrderly(minSpacingMs: int, s: Queue, now: int, id: nat, key: string)
    requires Orderly(s, id, key)
    ensures Orderly(Pump(minSpacingMs, s, now), id, key)
  {
    var t := Pump(minSpacingMs, s, now);
    if t.inFlight != s.inFlight {
      assert s.sends + [s.q[0]] == [s.q[0]];
      LaunchOrderly(s, s.q[0], s.q[1..], t, id, key);
    }
  }

  /** The queue once a new entry is in its list. */
  function Admit(s: Queue, e: Entry): Queue {
    s.(q := SortByPriority(s.q + [e]), allowed := s.allowed + [e.retries])
  }

  lemma AdmitCounts(s: Queue, e: Entry, id: nat, key: string)
    ensures Places(Admit(s, e), id) == Places(s, id) + (if e.id == id then 1 else 0)
    ensures LiveWithKey(Admit(s, e), key) == LiveWithKey(s, key) + (if e.key == key then 1 else 0)
    ensures Falling(Admit(s, e).q)
  {
    SortIsStable(IdOf, s.q + [e], id, 0);
    SortIsStable(KeyOf, s.q + [e], key, 0);
    TallyOne(IdOf, s.q, e, id);
    TallyOne(KeyOf, s.q, e, key);
  }

  lemma CallOrderly(minSpacingMs: int, s: Queue, r: Request, now: int, id: nat, key: string)
    requires Orderly(s, id, key)
    ensures Orderly(Enqueue(minSpacingMs, s, r, now), id, key)
  {
    if !KeyIsLive(s, r.key) {
      var e := Entry(|s.allowed|, r.text, r.key, r.priority, r.retries, r.noReply);
      AdmitCounts(s, e, id, key);
      TallyZeroIff(KeyOf, s.q, r.key);
      assert Orderly(Admit(s, e), id, key);
      PumpOrderly(minSpacingMs, Admit(s, e), now, id, key);
    }
  }

  /** The queue once the entry in flight has been settled. */
  function Retire(s: Queue, end: Ending): Queue
    requires s.inFlight.Some?
  {
    s.(sends := [], timers := [], inFlight := None,
       settled := s.settled + [(s.inFlight.value.id, end)])
  }

  lemma RetireOrderly(minSpacingMs: int, s: Queue, end: Ending, now: int, id: nat, key: string)
    requires Orderly(s, id, key) && s.inFlight.Some?
    ensures Orderly(Pump(minSpacingMs, Retire(s, end), now), id, key)
  {
    var t := Retire(s, end);
    assert t.settled[..|s.settled|] == s.settled;
    PumpOrderly(minSpacingMs, t, now, id, key);
  }

  lemma SendSettledOrderly(minSpacingMs: int, s: Queue, i: nat, ok: bool, now: int, id: nat, key: string)
    requires Orderly(s, id, key) && i < |s.sends|
    ensures Orderly(if ok then SendOk(minSpacingMs, s, i, now) else SendFailed(minSpacingMs, s, i, now), id, key)
  {
    assert i == 0 && Without(s.sends, 0) == [];
    if ok && !s.sends[0].noReply {
      assert s.timers + [s.sends[0]] == [s.sends[0]];
    } else {
      RetireOrderly(minSpacingMs, s, if ok then Resolved else Rejected, now, id, key);
    }
  }

  lemma TimedOutOrderly(minSpacingMs: int, s: Queue, i: nat, now: int, id: nat, key: string)
    requires Orderly(s, id, key) && i < |s.timers|
    ensures Orderly(TimedOut(minSpacingMs, s, i, now), id, key)
  {
    var e := s.timers[0];
    assert i == 0 && Without(s.timers, 0) == [];
    if e.retries > 0 {
      var again := e.(retries := e.retries - 1);
      var t := s.(timers := [], inFlight := None, q := [again] + s.q);
      TallyHead(IdOf, again, s.q, id);
      TallyHead(KeyOf, again, s.q, key);
      assert t.q[1..] == s.q;
      PumpOrderly(minSpacingMs, t, now, id, key);
    } else {
      RetireOrderly(minSpacingMs, s, Rejected, now, id, key);
    }
  }

  lemma ReplyOrderly(minSpacingMs: int, s: Queue, matches: bool, now: int, id: nat, key: string)
    requires Orderly(s, id, key) && (matches ==> s.sends == [])
    ensures Orderly(OnReply(minSpacingMs, s, matches, now), id, key)
  {
    if s.inFlight.Some? && matches {
      var e := s.inFlight.value;
      assert s.timers == [e] && WithoutTimerOf([e], e.id) == [];
      RetireOrderly(minSpacingMs, s, Resolved, now, id, key);
    }
  }

  lemma StepOrderly(minSpacingMs: int, s: Queue, e: Event, id: nat, key: string)
    requires Orderly(s, id, key) && (e.Reply? && e.matches ==> s.sends == [])
    ensures Orderly(Step(minSpacingMs, s, e), id, key)
  {
    match e
    case Call(r, at) => CallOrderly(minSpacingMs, s, r, at, id, key);
    case SendSettled(i, ok, at) => if i < |s.sends| { SendSettledOrderly(minSpacingMs, s, i, ok, at, id, key); }
    case Reply(matches, at) => ReplyOrderly(minSpacingMs, s, matches, at, id, key);
    case ReplyTimer(i, at) => if i < |s.timers| { TimedOutOrderly(minSpacingMs, s, i, at, id, key); }
    case PumpTimer(at) =>
      if s.pumpTimers > 0 {
        var t := s.(pumpTimer := false, pumpTimers := s.pumpTimers - 1);
        PumpOrderly(minSpacingMs, t, at, id, key);
      }
  }

  /** Replies are delivered only after the send has settled. */
  predicate RepliesWait(minSpacingMs: int, s: Queue, events: seq<Event>)
    decreases |events|
  {
    events != [] ==>
      && (events[0].Reply? && events[0].matches ==> s.sends == [])
      && RepliesWait(minSpacingMs, Step(minSpacingMs, s, events[0]), events[1..])
  }

  lemma {:induction false} RunOrderly(minSpacingMs: int, s: Queue, events: seq<Event>, id: nat, key: string)
    requires Orderly(s, id, key) && RepliesWait(minSpacingMs, s, events)
    ensures Orderly(Run(minSpacingMs, s, events), id, key)
    decreases |events|
  {
    if events != [] {
      StepOrderly(minSpacingMs, s, events[0], id, key);
      RunOrderly(minSpacingMs, Step(minSpacingMs, s, events[0]), events[1..], id, key);
    }
  }

  /** Queue conservation, over every run in which replies wait for the send: every
      enqueued command is pending, in flight or settled - exactly one of them, and so
      settled at most once; no two live commands share a key; at most one send or
      reply timer is outstanding, the one of the command in flight; and while one is
      in flight the pending list is in falling priority. */
  lemma QueueConservation(minSpacingMs: int, events: seq<Event>, id: nat, key: string)
    requires RepliesWait(minSpacingMs, EMPTY, events)
    ensures var s := Run(minSpacingMs, EMPTY, events);
            && Places(s, id) == (if id < |s.allowed| then 1 else 0)
            && LiveWithKey(s, key) <= 1
            && OneTurn(s)
            && (s.inFlight.Some? ==> Falling(s.q))
  {
    RunOrderly(minSpacingMs, EMPTY, events, id, key);
  }

  // ---- a reply that overtakes its send -----------------------------------------------------

  /** The harm: the gateway's reply overtakes its HTTP answer, the command is settled,
      and its reply timer - armed after the fact - sends it a second time. */
  lemma EarlyReplyRepeatsCommand()
    ensures var s := Run(3000, EMPTY, [Call(Command("ping", "@336b ping"), 10000), Reply(true, 10100),
                                       SendSettled(0, true, 10200), ReplyTimer(0, 30200)]);
            && s.settled == [(0, Resolved)]
            && s.sent == [(0, 10000), (0, 30200)]
            && s.inFlight.Some? && s.inFlight.value.id == 0
  {
    var r := Command("ping", "@336b ping");
    var e := Entry(0, r.text, r.key, 0, 1, false);
    var s1 := EMPTY.(inFlight := Some(e), lastSentAt := 10000, sends := [e], sent := [(0, 10000)], allowed := [1]);
    FirstCall(r, e);
    var s2 := s1.(inFlight := None, settled := [(0, Resolved)]);
    assert Step(3000, s1, Reply(true, 10100)) == s2;
    var s3 := s2.(sends := [], timers := [e]);
    assert Step(3000, s2, SendSettled(0, true, 10200)) == s3;
    var s4 := Step(3000, s3, ReplyTimer(0, 30200));
    assert s4.sent == [(0, 10000), (0, 30200)];
    RunOfFour(3000, EMPTY, Call(r, 10000), Reply(true, 10100), SendSettled(0, true, 10200), ReplyTimer(0, 30200));
  }

  lemma SortOfOne(e: Entry)
    ensures SortByPriority([e]) == [e]
  {
    assert [e][..0] == [];
    assert SortByPriority([]) == [] && Insert([], e) == [] + [e];
  }

  lemma FirstCall(r: Request, e: Entry)
    requires e == Entry(0, r.text, r.key, r.priority, r.retries, r.noReply)
    ensures Step(3000, EMPTY, Call(r, 10000)) ==
            EMPTY.(inFlight := Some(e), lastSentAt := 10000, sends := [e], sent := [(0, 10000)],
                   allowed := [r.retries])
  {
    var q := EMPTY.q + [e];
    assert q == [e];
    SortOfOne(e);
    assert [e][1..] == [];
    var t := EMPTY.(q := [e], allowed := [r.retries]);
    assert Enqueue(3000, EMPTY, r, 10000) == Pump(3000, t, 10000);
  }

  lemma RunOfFour(minSpacingMs: int, s: Queue, a: Event, b: Event, c: Event, d: Event)
    ensures Run(minSpacingMs, s, [a, b, c, d]) ==
            Step(minSpacingMs, Step(minSpacingMs, Step(minSpacingMs, Step(minSpacingMs, s, a), b), c), d)
  {
    var s1 := Step(minSpacingMs, s, a);
    var s2 := Step(minSpacingMs, s1, b);
    var s3 := Step(minSpacingMs, s2, c);
    assert [a, b, c, d][1..] == [b, c, d] && [b, c, d][1..] == [c, d] && [c, d][1..] == [d] && [d][1..] == [];
    assert Run(minSpacingMs, s, [a, b, c, d]) == Run(minSpacingMs, s1, [b, c, d]);
    assert Run(minSpacingMs, s1, [b, c, d]) == Run(minSpacingMs, s2, [c, d]);
    assert Run(minSpacingMs, s2, [c, d]) == Run(minSpacingMs, s3, [d]);
    assert Run(minSpacingMs, s3, [d]) == Step(minSpacingMs, s3, d);
  }
}
