/** How soon a packet can be delivered twice: dedupe counts the packets accepted, and the
    packet ring may drop some of them on the way. Positions are those of `Queued`, of which
    what was polled is a prefix (RxSafety.PacketsAreFifo). */
module RxRepeats {
  import opened Wire
  import opened RxModel
  import opened RxSafety

  /** How many accepted packets found no room. */
  function Dropped(node: Node, events: seq<Event>): nat {
    if events == [] then 0
    else
      var before, e := events[..|events| - 1], events[|events| - 1];
      var s := Run(node, before);
      Dropped(node, before) + (if NewKey(node, s, e) != [] && NewPacket(node, s, e) == [] then 1 else 0)
  }

  /** For every packet that found room, how many had been dropped before it. */
  function DropsBefore(node: Node, events: seq<Event>): seq<nat> {
    if events == [] then []
    else
      var before, e := events[..|events| - 1], events[|events| - 1];
      DropsBefore(node, before) + (if NewPacket(node, Run(node, before), e) != [] then [Dropped(node, before)] else [])
  }

  /** The k-th packet delivered is the one accepted that many drops later. */
  predicate InStep(keys: seq<u64>, queued: seq<Packet>, drops: seq<nat>, dropped: nat) {
    && |drops| == |queued| && |keys| == |queued| + dropped
    && (forall k :: 0 <= k < |drops| ==> drops[k] <= dropped)
    && (forall j, k :: 0 <= j < k < |drops| ==> drops[j] <= drops[k])
    && (forall k :: 0 <= k < |queued| ==> keys[k + drops[k]] == Key(queued[k].header))
  }

  lemma OneMore(node: Node, s: Rx, e: Event, keys: seq<u64>, queued: seq<Packet>, drops: seq<nat>, dropped: nat)
    requires InStep(keys, queued, drops, dropped)
    ensures var key, packet := NewKey(node, s, e), NewPacket(node, s, e);
            InStep(keys + key, queued + packet, drops + (if packet != [] then [dropped] else []),
                   dropped + (if key != [] && packet == [] then 1 else 0))
  {
  }

  lemma {:induction false} DeliveredInStep(node: Node, events: seq<Event>)
    ensures InStep(AcceptedKeys(node, events), Queued(node, events), DropsBefore(node, events), Dropped(node, events))
    decreases |events|
  {
    if events != [] {
      var before, e := events[..|events| - 1], events[|events| - 1];
      DeliveredInStep(node, before);
      OneMore(node, Run(node, before), e, AcceptedKeys(node, before), Queued(node, before),
              DropsBefore(node, before), Dropped(node, before));
    }
  }

  /** The packet at position i and the one m places later have one key, with d packets
      dropped in between. */
  predicate Repeat(node: Node, events: seq<Event>, i: nat, m: nat, d: nat) {
    var queued, drops := Queued(node, events), DropsBefore(node, events);
    && i + m < |queued| && i + m < |drops|
    && Key(queued[i].header) == Key(queued[i + m].header)
    && drops[i + m] == drops[i] + d
  }

  /** No two with one key are closer than nine, counting the packets dropped in between. */
  predicate FarApart(queued: seq<Packet>, drops: seq<nat>)
    requires |drops| == |queued|
  {
    forall j, k :: 0 <= j < k < |queued| && Key(queued[j].header) == Key(queued[k].header) ==>
      k + drops[k] >= j + drops[j] + 9
  }

  lemma AcceptedApart(keys: seq<u64>, queued: seq<Packet>, drops: seq<nat>, dropped: nat)
    requires InStep(keys, queued, drops, dropped) && Apart(keys)
    ensures FarApart(queued, drops)
  {
    forall j, k | 0 <= j < k < |queued| && Key(queued[j].header) == Key(queued[k].header)
      ensures k + drops[k] >= j + drops[j] + 9
    {
      var a, b := j + drops[j], k + drops[k];
      assert keys[a] == keys[b] && a < b;
    }
  }

  /** What every run keeps about its deliveries. */
  lemma DeliveriesAreApart(node: Node, events: seq<Event>)
    ensures |DropsBefore(node, events)| == |Queued(node, events)|
    ensures FarApart(Queued(node, events), DropsBefore(node, events))
  {
    DeliveredInStep(node, events);
    NineAreDistinct(node, events);
    AcceptedApart(AcceptedKeys(node, events), Queued(node, events), DropsBefore(node, events), Dropped(node, events));
  }

  /** A repeat is never closer than nine, counting the packets dropped in between. */
  lemma RepeatsAreApart(node: Node, events: seq<Event>, i: nat, m: nat, d: nat)
    requires m > 0 && Repeat(node, events, i, m, d)
    ensures m + d >= 9
  {
    DeliveriesAreApart(node, events);
  }

  predicate AllDifferent(queued: seq<Packet>, first: nat, n: nat)
    requires first + n <= |queued|
  {
    forall j, k :: first <= j < k < first + n ==> Key(queued[j].header) != Key(queued[k].header)
  }

  lemma NoDropNoRepeat(queued: seq<Packet>, drops: seq<nat>, first: nat)
    requires |drops| == |queued| >= first + 9 && FarApart(queued, drops)
    requires forall j, k :: 0 <= j < k < |drops| ==> drops[j] <= drops[k]
    requires drops[first] == drops[first + 8]
    ensures AllDifferent(queued, first, 9)
  {
    forall j, k | first <= j < k < first + 9 ensures Key(queued[j].header) != Key(queued[k].header) {
      assert drops[first] <= drops[j] && drops[j] <= drops[k] <= drops[first + 8];
    }
  }

  /** So nine consecutive deliveries with no drop among them are pairwise distinct,
      whatever was dropped before them or after. */
  lemma NineWithoutDropAreDistinct(node: Node, events: seq<Event>, first: nat)
    requires first + 9 <= |Queued(node, events)|
    ensures |DropsBefore(node, events)| == |Queued(node, events)|
    ensures DropsBefore(node, events)[first] == DropsBefore(node, events)[first + 8] ==>
              AllDifferent(Queued(node, events), first, 9)
  {
    DeliveredInStep(node, events);
    DeliveriesAreApart(node, events);
    if DropsBefore(node, events)[first] == DropsBefore(node, events)[first + 8] {
      NoDropNoRepeat(Queued(node, events), DropsBefore(node, events), first);
    }
  }

  // ---- and any drop brings one closer ----------------------------------------------------------

  /** Three packets, then the one to be repeated, then more: no two of any nine alike. */
  function ScriptId(t: nat): u32 {
    if t == 3 then 1 else 10 + (if t < 3 then t else t - 1) % 9
  }

  function ScriptKey(t: nat): u64 {
    Key(Heard(ScriptId(t)).header)
  }

  function ScriptKeys(n: nat): (keys: seq<u64>)
    ensures |keys| == n
  {
    seq(n, t requires 0 <= t < n => ScriptKey(t))
  }

  lemma ScriptApart(s: nat, t: nat)
    requires s < t <= s + 8
    ensures ScriptKey(s) != ScriptKey(t)
  {
  }

  /** A packet none of the last eight accepted keys equals is accepted. */
  lemma IsAccepted(events: seq<Event>, n: nat, id: u32)
    requires AcceptedKeys(LISTENER, events) == ScriptKeys(n)
    requires forall s :: 0 <= s < n <= s + 8 ==> ScriptKey(s) != Key(Heard(id).header)
    ensures Accepts(LISTENER, Run(LISTENER, events), Heard(id))
  {
    var key, all := Key(Heard(id).header), History(LISTENER, events);
    DedupeWindow(LISTENER, events, key);
    forall i | 0 <= i < SEEN_N ensures LastKeys(all)[i] != key {
      var at := |all| - SEEN_N + i;
      assert LastKeys(all)[i] == all[at];
      assert at >= SEEN_N ==> all[at] == ScriptKeys(n)[at - SEEN_N];
    }
  }

  /** Four packets fill the queue; then, for every flag, one more arrives: after a poll, so
      that it finds room, or without one, so that it is dropped. */
  function Pattern(kept: seq<bool>): seq<Event> {
    if kept == [] then Start(4)
    else
      var n := |kept| - 1;
      Pattern(kept[..n]) + (if kept[n] then [DoPoll] else []) + [Arrive(Heard(ScriptId(4 + n)))]
  }

  function Start(n: nat): seq<Event> {
    if n == 0 then [] else Start(n - 1) + [Arrive(Heard(ScriptId(n - 1)))]
  }

  function Count(kept: seq<bool>, which: bool): nat {
    if kept == [] then 0 else Count(kept[..|kept| - 1], which) + (if kept[|kept| - 1] == which then 1 else 0)
  }

  /** What the proofs below need to know about a run of the listener. */
  datatype View = View(keys: seq<u64>, waiting: nat, queued: seq<Packet>, drops: seq<nat>, dropped: nat)

  function ViewOf(events: seq<Event>): View {
    View(AcceptedKeys(LISTENER, events), |Run(LISTENER, events).queue|, Queued(LISTENER, events),
         DropsBefore(LISTENER, events), Dropped(LISTENER, events))
  }

  function Arrived(v: View, id: u32): View {
    var room := v.waiting < RXQ_N;
    View(v.keys + [Key(Heard(id).header)], if room then v.waiting + 1 else v.waiting,
         v.queued + (if room then [Packet(Heard(id).header, [])] else []),
         v.drops + (if room then [v.dropped] else []), if room then v.dropped else v.dropped + 1)
  }

  function AfterPoll(v: View): View {
    v.(waiting := if v.waiting == 0 then 0 else v.waiting - 1)
  }

  /** What one more arrival does to a run that has followed the script so far. */
  lemma Arrival(events: seq<Event>, after: seq<Event>, n: nat, id: u32)
    requires after == events + [Arrive(Heard(id))] && AcceptedKeys(LISTENER, events) == ScriptKeys(n)
    requires forall s :: 0 <= s < n <= s + 8 ==> ScriptKey(s) != Key(Heard(id).header)
    ensures ViewOf(after) == Arrived(ViewOf(events), id)
  {
    IsAccepted(events, n, id);
    Extend(LISTENER, events, Arrive(Heard(id)));
    assert after[..|after| - 1] == events;
  }

  lemma APoll(events: seq<Event>, after: seq<Event>)
    requires after == events + [DoPoll]
    ensures ViewOf(after) == AfterPoll(ViewOf(events))
  {
    Extend(LISTENER, events, DoPoll);
    assert after[..|after| - 1] == events;
  }

  lemma NextInScript(n: nat)
    ensures forall s :: 0 <= s < n <= s + 8 ==> ScriptKey(s) != Key(Heard(ScriptId(n)).header)
    ensures ScriptKeys(n) + [Key(Heard(ScriptId(n)).header)] == ScriptKeys(n + 1)
  {
    forall s | 0 <= s < n <= s + 8 ensures ScriptKey(s) != ScriptKey(n) {
      ScriptApart(s, n);
    }
  }

  /** After the first n packets, four at most. */
  predicate Started(v: View, n: nat) {
    && v.keys == ScriptKeys(n) && v.waiting == n == |v.queued| && v.drops == seq(n, _ => 0) && v.dropped == 0
    && (n == 4 ==> Key(v.queued[3].header) == ScriptKey(3))
  }

  lemma StartStep(events: seq<Event>, after: seq<Event>, n: nat)
    requires n < 4 && Started(ViewOf(events), n) && after == events + [Arrive(Heard(ScriptId(n)))]
    ensures Started(ViewOf(after), n + 1)
  {
    NextInScript(n);
    Arrival(events, after, n, ScriptId(n));
  }

  lemma {:induction false} StartFills(n: nat)
    requires n <= 4
    ensures Started(ViewOf(Start(n)), n)
    decreases n
  {
    if n > 0 {
      StartFills(n - 1);
      StartStep(Start(n - 1), Start(n), n - 1);
    }
  }

  /** After the pattern: the queue is full, and the packet to be repeated is the fourth. */
  predicate Played(v: View, kept: seq<bool>) {
    && v.keys == ScriptKeys(4 + |kept|) && v.waiting == RXQ_N
    && |v.queued| == |v.drops| == 4 + Count(kept, true)
    && Key(v.queued[3].header) == ScriptKey(3)
    && v.drops[3] == 0 && v.dropped == Count(kept, false)
  }

  /** The two cases on views. */
  lemma ViewKeeps(v: View, kept: seq<bool>)
    requires Played(v, kept)
    ensures Played(Arrived(AfterPoll(v), ScriptId(4 + |kept|)), kept + [true])
    ensures Played(Arrived(v, ScriptId(4 + |kept|)), kept + [false])
  {
    NextInScript(4 + |kept|);
    assert (kept + [true])[..|kept|] == kept && (kept + [false])[..|kept|] == kept;
  }

  lemma PatternStep(events: seq<Event>, polled: seq<Event>, after: seq<Event>, kept: seq<bool>, keep: bool)
    requires Played(ViewOf(events), kept) && polled == events + (if keep then [DoPoll] else [])
    requires after == polled + [Arrive(Heard(ScriptId(4 + |kept|)))]
    ensures Played(ViewOf(after), kept + [keep])
  {
    ViewKeeps(ViewOf(events), kept);
    NextInScript(4 + |kept|);
    if keep {
      APoll(events, polled);
    } else {
      assert polled == events;
    }
    Arrival(polled, after, 4 + |kept|, ScriptId(4 + |kept|));
  }

  lemma PatternUnfolds(kept: seq<bool>, front: seq<bool>, keep: bool) returns (polled: seq<Event>)
    requires kept != [] && front == kept[..|kept| - 1] && keep == kept[|kept| - 1]
    ensures polled == Pattern(front) + (if keep then [DoPoll] else [])
    ensures Pattern(kept) == polled + [Arrive(Heard(ScriptId(4 + |front|)))] && kept == front + [keep]
  {
    polled := Pattern(front) + (if keep then [DoPoll] else []);
  }

  lemma {:induction false} PatternPlays(kept: seq<bool>)
    ensures Played(ViewOf(Pattern(kept)), kept)
    decreases |kept|
  {
    if kept == [] {
      StartFills(4);
    } else {
      var front, keep := kept[..|kept| - 1], kept[|kept| - 1];
      var polled := PatternUnfolds(kept, front, keep);
      PatternPlays(front);
      PatternStep(Pattern(front), polled, Pattern(kept), front, keep);
    }
  }

  /** Any pattern of packets kept and dropped, eight or more of them, can come between a
      packet and its repetition: the repetition is delivered as many places later as
      packets were kept, and one. */
  lemma AnyPatternAdmitsRepeat(kept: seq<bool>)
    requires |kept| >= 8
    ensures Repeat(LISTENER, Pattern(kept) + [DoPoll] + [Arrive(Heard(1))], 3, 1 + Count(kept, true), Count(kept, false))
  {
    PatternPlays(kept);
    LastArrival(Pattern(kept), Pattern(kept) + [DoPoll], Pattern(kept) + [DoPoll] + [Arrive(Heard(1))], kept);
  }

  lemma LastArrival(events: seq<Event>, polled: seq<Event>, after: seq<Event>, kept: seq<bool>)
    requires |kept| >= 8 && Played(ViewOf(events), kept)
    requires polled == events + [DoPoll] && after == polled + [Arrive(Heard(1))]
    ensures Repeat(LISTENER, after, 3, 1 + Count(kept, true), Count(kept, false))
  {
    APoll(events, polled);
    forall s | 0 <= s < 4 + |kept| <= s + 8 ensures ScriptKey(s) != Key(Heard(1).header) {
      assert s > 3;
    }
    Arrival(polled, after, 4 + |kept|, 1);
    assert ViewOf(after) == Arrived(AfterPoll(ViewOf(events)), 1);
  }

  function Same(n: nat, b: bool): seq<bool> {
    seq(n, _ => b)
  }

  lemma {:induction false} CountSame(front: seq<bool>, n: nat, b: bool, which: bool)
    ensures Count(front + Same(n, b), which) == Count(front, which) + (if b == which then n else 0)
    decreases n
  {
    if n == 0 {
      assert front + Same(0, b) == front;
    } else {
      CountSame(front, n - 1, b, which);
      assert (front + Same(n, b))[..|front| + n - 1] == front + Same(n - 1, b);
    }
  }

  lemma Kept(m: nat, d: nat) returns (kept: seq<bool>)
    ensures |kept| == m + d && Count(kept, true) == m && Count(kept, false) == d
  {
    kept := Same(m, true) + Same(d, false);
    assert [] + Same(m, true) == Same(m, true);
    forall which: bool ensures Count(kept, which) == if which then m else d {
      CountSame([], m, true, which);
      CountSame(Same(m, true), d, false, which);
    }
  }

  lemma ARepeat(m: nat, d: nat) returns (events: seq<Event>)
    requires m > 0 && m + d >= 9
    ensures Repeat(LISTENER, events, 3, m, d)
  {
    var kept := Kept(m - 1, d);
    events := Pattern(kept) + [DoPoll] + [Arrive(Heard(1))];
    AnyPatternAdmitsRepeat(kept);
  }

  /** Exactly how soon a packet can be delivered again: m places later with d packets
      dropped in between, on some node in some run, if and only if m + d is nine or more. */
  lemma RepeatIff(m: nat, d: nat)
    requires m > 0
    ensures (exists node, events, i: nat :: Repeat(node, events, i, m, d)) <==> m + d >= 9
  {
    if m + d >= 9 {
      var events := ARepeat(m, d);
    } else {
      forall node, events, i: nat | Repeat(node, events, i, m, d) ensures false {
        RepeatsAreApart(node, events, i, m, d);
      }
    }
  }

  // ---- a dropped packet that is sent again ---------------------------------------------------

  lemma {:induction false} AcceptedGrows(node: Node, events: seq<Event>, more: seq<Event>)
    ensures AcceptedKeys(node, events) <= AcceptedKeys(node, events + more)
    decreases |more|
  {
    if more == [] {
      assert events + more == events;
    } else {
      var front, last := more[..|more| - 1], more[|more| - 1];
      AcceptedGrows(node, events, front);
      assert events + more == (events + front) + [last];
      Extend(node, events + front, last);
    }
  }

  lemma AcceptedFirst(node: Node, events: seq<Event>, raw: Raw, after: seq<Event>, more: seq<Event>)
    requires Accepts(node, Run(node, events), raw) && after == events + [Arrive(raw)]
    ensures AcceptedKeys(node, events) + [Key(raw.header)] <= AcceptedKeys(node, after + more)
  {
    Extend(node, events, Arrive(raw));
    AcceptedGrows(node, after, more);
  }

  /** What was accepted after a packet. */
  function Since(node: Node, events: seq<Event>, raw: Raw, more: seq<Event>): (keys: seq<u64>)
    requires Accepts(node, Run(node, events), raw)
  {
    AcceptedFirst(node, events, raw, events + [Arrive(raw)], more);
    AcceptedKeys(node, events + [Arrive(raw)] + more)[|AcceptedKeys(node, events)| + 1..]
  }

  lemma LastEight(earlier: seq<u64>, key: u64, since: seq<u64>)
    requires |earlier| >= SEEN_N
    ensures key in LastKeys(earlier + [key] + since) <==> |since| < SEEN_N || key in since[|since| - SEEN_N..]
  {
    var keys := earlier + [key] + since;
    if |since| >= SEEN_N {
      assert LastKeys(keys) == since[|since| - SEEN_N..];
    } else {
      assert LastKeys(keys)[SEEN_N - 1 - |since|] == key;
    }
  }

  lemma CutAfter(zeros: seq<u64>, before: seq<u64>, key: u64, all: seq<u64>)
    requires before + [key] <= all
    ensures zeros + all == (zeros + before) + [key] + all[|before| + 1..]
  {
    assert all == before + [key] + all[|before| + 1..];
  }

  /** Exactly when the retransmission of a packet is let in, whether the packet found room or
      was dropped: when eight others have been accepted since, and it is not among the last
      eight. Polling alone never brings that about. */
  lemma RetryIsAcceptedIff(node: Node, events: seq<Event>, raw: Raw, more: seq<Event>)
    requires Accepts(node, Run(node, events), raw)
    ensures var since := Since(node, events, raw, more);
            Accepts(node, Run(node, events + [Arrive(raw)] + more), raw) <==>
              |since| >= SEEN_N && Key(raw.header) !in since[|since| - SEEN_N..]
  {
    DedupeWindow(node, events + [Arrive(raw)] + more, Key(raw.header));
    AcceptedFirst(node, events, raw, events + [Arrive(raw)], more);
    CutAfter(NoKeys(), AcceptedKeys(node, events), Key(raw.header), AcceptedKeys(node, events + [Arrive(raw)] + more));
    LastEight(History(node, events), Key(raw.header), Since(node, events, raw, more));
  }
}
