/** The repair rounds of a push transfer: how many there can be, what each one asks
    for, and how fast they converge. */
module PushRepair {
  import opened Wire
  import opened IdSets
  import Codec = PushCodec
  import opened PushModel

  function Repairs(sent: seq<Codec.Message>): nat {
    if sent == [] then 0 else (if sent[0].Repair? then 1 else 0) + Repairs(sent[1..])
  }

  // ---- the effort is bounded -----------------------------------------------------------

  /** Every chunk that arrives carries an identifier of `ids`, and every announced
      count stays within it. Bodies, lengths and checksums are arbitrary. */
  predicate Within(cfg: Config, ids: set<u16>, e: Event) {
    e.Arrival? && Ours(cfg, e.frame) ==>
      match e.frame.value
      case Chunk(_, index, _) => index in ids
      case Manifest(_, _, _, count, _) => Below(count) <= ids
      case _ => true
  }

  predicate Counted(cfg: Config, ids: set<u16>, s: Receiver) {
    && s.chunks.Keys <= ids
    && (s.manifest.Some? ==> Below(s.manifest.value.count) <= ids)
    && -1 <= s.heldAtLastRepair <= |s.chunks|
    && s.heldAtLastRepair < |ids|
    && (s.heldAtLastRepair >= 0 && s.failed.None? ==> s.staleRounds < cfg.maxStale)
  }

  /** Repairs that can still be sent: maxStale for each size the held set may yet
      grow to, and what is left of the current stale streak. */
  function Budget(cfg: Config, ids: set<u16>, s: Receiver): int {
    if s.failed.Some? then 0
    else (|ids| - 1 - s.heldAtLastRepair) * cfg.maxStale
         + (if s.heldAtLastRepair < 0 then 0 else cfg.maxStale - 1 - s.staleRounds)
  }

  lemma BudgetIsNat(cfg: Config, ids: set<u16>, s: Receiver)
    requires Counted(cfg, ids, s)
    ensures Budget(cfg, ids, s) >= 0
  {
    if s.failed.None? && |ids| - 1 - s.heldAtLastRepair >= 0 {
      MulMonotone(0, |ids| - 1 - s.heldAtLastRepair, cfg.maxStale);
    }
  }

  /** With a gap left, the held set is a proper part of `ids`. */
  lemma GapLeavesRoom(ids: set<u16>, s: Receiver)
    requires s.chunks.Keys <= ids && s.manifest.Some? && Below(s.manifest.value.count) <= ids
    requires Missing(s) != []
    ensures |s.chunks| < |ids|
  {
    FirstMissing(s);
    var gap := Missing(s)[0];
    assert IsBelow(gap, s.manifest.value.count) && gap in Below(s.manifest.value.count);
    assert |s.chunks| == |s.chunks.Keys|;
    SubsetSmaller(s.chunks.Keys, ids - {gap});
  }

  lemma RepairSpendsBudget(cfg: Config, ids: set<u16>, s: Receiver)
    requires Counted(cfg, ids, s) && s.manifest.Some? && Missing(s) != [] && s.failed.None?
    ensures var a := AskRepair(cfg, s, Missing(s));
            && Counted(cfg, ids, a.next)
            && Budget(cfg, ids, a.next) + (if a.out.Some? then 1 else 0) <= Budget(cfg, ids, s)
  {
    GapLeavesRoom(ids, s);
    BudgetIsNat(cfg, ids, s);
    var a := AskRepair(cfg, s, Missing(s));
    if a.out.Some? && NextStale(s) == 0 && |s.chunks| > s.heldAtLastRepair {
      MulMonotone(|ids| - 1 - |s.chunks|, |ids| - 2 - s.heldAtLastRepair, cfg.maxStale);
      assert (|ids| - 1 - s.heldAtLastRepair) * cfg.maxStale
          == (|ids| - 2 - s.heldAtLastRepair) * cfg.maxStale + cfg.maxStale;
    }
  }

  lemma TickSpendsBudget(cfg: Config, ids: set<u16>, s: Receiver, at: int)
    requires Counted(cfg, ids, s)
    ensures var a := Tick(cfg, s, at);
            && Counted(cfg, ids, a.next)
            && Budget(cfg, ids, a.next) + (if a.out.Some? && a.out.value.Repair? then 1 else 0)
               <= Budget(cfg, ids, s)
  {
    if PassesGate(cfg, s, at) {
      var t := s.(lastTxMs := Some(at));
      if t.manifest.Some? && Missing(t) != [] && t.progressDone {
        RepairSpendsBudget(cfg, ids, t);
      } else {
        BudgetIsNat(cfg, ids, s);
        OtherwiseNoRepair(cfg, t);
      }
    }
  }

  lemma OtherwiseNoRepair(cfg: Config, s: Receiver)
    requires !(s.manifest.Some? && Missing(s) != [] && s.progressDone)
    ensures var t := Act(cfg, s).next;
            && t.heldAtLastRepair == s.heldAtLastRepair && t.staleRounds == s.staleRounds
            && t.chunks == s.chunks && t.manifest == s.manifest
            && (t.failed.None? ==> s.failed.None?)
  {
  }

  lemma StepSpendsBudget(cfg: Config, ids: set<u16>, s: Receiver, e: Event)
    requires Counted(cfg, ids, s) && Within(cfg, ids, e)
    ensures var a := Step(cfg, s, e);
            && Counted(cfg, ids, a.next)
            && Budget(cfg, ids, a.next) + (if a.out.Some? && a.out.value.Repair? then 1 else 0)
               <= Budget(cfg, ids, s)
  {
    match e
    case Arrival(frame, at) => ArrivalKeepsCount(cfg, ids, s, frame, at);
    case Clock(at) => TickSpendsBudget(cfg, ids, s, at);
  }

  lemma ArrivalKeepsCount(cfg: Config, ids: set<u16>, s: Receiver, frame: Option<Codec.Message>, at: int)
    requires Counted(cfg, ids, s) && Within(cfg, ids, Arrival(frame, at))
    ensures Counted(cfg, ids, OnFrame(cfg, s, frame, at))
    ensures Budget(cfg, ids, OnFrame(cfg, s, frame, at)) == Budget(cfg, ids, s)
  {
    var t := OnFrame(cfg, s, frame, at);
    SubsetSmaller(s.chunks.Keys, t.chunks.Keys);
    assert |s.chunks| == |s.chunks.Keys| && |t.chunks| == |t.chunks.Keys|;
  }

  lemma {:induction false} RunSpendsBudget(cfg: Config, ids: set<u16>, s: Receiver, events: seq<Event>)
    requires Counted(cfg, ids, s)
    requires forall k :: 0 <= k < |events| ==> Within(cfg, ids, events[k])
    ensures Repairs(Sent(cfg, s, events)) <= Budget(cfg, ids, s)
    decreases |events|
  {
    BudgetIsNat(cfg, ids, s);
    if events != [] {
      var a := Step(cfg, s, events[0]);
      StepSpendsBudget(cfg, ids, s, events[0]);
      RunSpendsBudget(cfg, ids, a.next, events[1..]);
      var rest := Sent(cfg, a.next, events[1..]);
      if a.out.Some? {
        assert ([a.out.value] + rest)[1..] == rest;
      } else {
        assert [] + rest == rest;
      }
    }
  }

  /** Repair effort is bounded: when every arriving identifier lies in `ids`, no run
      sends more than maxStale * |ids| repair requests. */
  lemma RepairEffort(cfg: Config, ids: set<u16>, events: seq<Event>)
    requires forall k :: 0 <= k < |events| ==> Within(cfg, ids, events[k])
    ensures Repairs(Sent(cfg, FRESH, events)) <= cfg.maxStale * |ids|
  {
    RunSpendsBudget(cfg, ids, FRESH, events);
  }

  /** An honest device of `count` windows: at most maxStale * count repairs. With no
      assumption on the frames at all, at most maxStale * 65536. */
  lemma RepairEffortInCounts(cfg: Config, count: u16, events: seq<Event>)
    ensures (forall k :: 0 <= k < |events| ==> Within(cfg, Below(count), events[k]))
              ==> Repairs(Sent(cfg, FRESH, events)) <= cfg.maxStale * count
    ensures Repairs(Sent(cfg, FRESH, events)) <= cfg.maxStale * 0x1_0000
  {
    BelowSize(count);
    BelowSize(0x1_0000);
    if forall k :: 0 <= k < |events| ==> Within(cfg, Below(count), events[k]) {
      RepairEffort(cfg, Below(count), events);
    }
    assert forall i: u16 :: i in Below(0x1_0000);
    RepairEffort(cfg, Below(0x1_0000), events);
  }

  // ---- the rounds converge -----------------------------------------------------------------

  /** `after` holds what `before` held and, from `from` on, what `filled` lists. */
  predicate Filled(before: map<u16, bytes>, after: map<u16, bytes>, from: nat, filled: seq<u16>) {
    forall i: u16 :: i >= from ==> (i in after <==> i in before || i in filled)
  }

  lemma {:induction false} SameGaps(before: map<u16, bytes>, after: map<u16, bytes>, from: nat, count: u16)
    requires from <= count && Filled(before, after, from, [])
    ensures MissingFrom(after, from, count) == MissingFrom(before, from, count)
    decreases count - from
  {
    if from < count {
      SameGaps(before, after, from + 1, count);
    }
  }

  lemma DropOfCons(x: u16, rest: seq<u16>, n: nat)
    requires 0 < n <= |rest| + 1
    ensures ([x] + rest)[..n] == [x] + rest[..n - 1]
    ensures ([x] + rest)[n..] == rest[n - 1..]
  {
  }

  lemma FillOne(before: map<u16, bytes>, after: map<u16, bytes>, from: u16, filled: seq<u16>)
    requires Filled(before, after, from, [from] + filled)
    ensures from in after && Filled(before, after, from + 1, filled)
  {
    assert from in [from] + filled;
    forall i: u16 | i >= from + 1 ensures i in after <==> i in before || i in filled {
      assert i in [from] + filled <==> i in filled;
    }
  }

  /** Filling the first n gaps leaves exactly the others. */
  lemma {:induction false} FillFirstGaps(before: map<u16, bytes>, after: map<u16, bytes>,
                                         from: nat, count: u16, n: nat)
    requires from <= count && n <= |MissingFrom(before, from, count)|
    requires Filled(before, after, from, MissingFrom(before, from, count)[..n])
    ensures MissingFrom(after, from, count) == MissingFrom(before, from, count)[n..]
    decreases count - from
  {
    var miss := MissingFrom(before, from, count);
    if n == 0 {
      assert miss[..0] == [];
      SameGaps(before, after, from, count);
    } else if from in before {
      assert miss == MissingFrom(before, from + 1, count);
      FillFirstGaps(before, after, from + 1, count, n);
    } else {
      var rest := MissingFrom(before, from + 1, count);
      DropOfCons(from, rest, n);
      FillOne(before, after, from, rest[..n - 1]);
      FillFirstGaps(before, after, from + 1, count, n - 1);
    }
  }

  /** The identifiers of the chunks that reach the receiver in a burst. */
  function ArrivingIds(cfg: Config, events: seq<Event>): set<u16>
    decreases |events|
  {
    if events == [] then {}
    else
      var e := events[0];
      (if e.Arrival? && Ours(cfg, e.frame) && e.frame.value.Chunk? then
         {e.frame.value.index} else {})
      + ArrivingIds(cfg, events[1..])
  }

  predicate OnlyArrivals(events: seq<Event>) {
    forall e :: e in events ==> e.Arrival?
  }

  lemma {:induction false} BurstFills(cfg: Config, s: Receiver, burst: seq<Event>)
    requires OnlyArrivals(burst) && s.manifest.Some? && s.phase != START
    ensures var t := Run(cfg, s, burst);
            && t.chunks.Keys == s.chunks.Keys + ArrivingIds(cfg, burst)
            && t.manifest == s.manifest && t.phase == s.phase && t.failed == s.failed
            && t.heldAtLastRepair == s.heldAtLastRepair && t.staleRounds == s.staleRounds
    decreases |burst|
  {
    if burst != [] {
      BurstFills(cfg, Step(cfg, s, burst[0]).next, burst[1..]);
    }
  }

  /** One repair round: the receiver asks, then a burst of frames arrives. */
  datatype Round = Round(askAt: int, burst: seq<Event>)

  function Batch(s: Receiver): seq<u16>
    requires s.manifest.Some?
  {
    FirstIds(Missing(s))
  }

  function Play(cfg: Config, s: Receiver, r: Round): Receiver {
    Run(cfg, Tick(cfg, s, r.askAt).next, r.burst)
  }

  /** The round is answered: the tick is not early, exactly the requested chunks
      arrive - in any order and number, among any other frames - and the device then
      says it finished the pass. */
  predicate Answered(cfg: Config, s: Receiver, r: Round)
    requires s.manifest.Some?
  {
    && PassesGate(cfg, s, r.askAt)
    && OnlyArrivals(r.burst)
    && (forall i: u16 :: i in ArrivingIds(cfg, r.burst) <==> i in Batch(s))
    && Play(cfg, s, r).progressDone
  }

  /** About to ask for a repair that will not be refused as stale. */
  predicate ReadyToRepair(cfg: Config, s: Receiver) {
    !Terminal(s) && s.manifest.Some? && s.progressDone && NextStale(s) < cfg.maxStale
  }

  lemma AskingBatch(cfg: Config, s: Receiver, askAt: int)
    requires ReadyToRepair(cfg, s) && Missing(s) != [] && PassesGate(cfg, s, askAt)
    ensures var a := Tick(cfg, s, askAt);
            && a.out == Some(Codec.Repair(cfg.pid, Batch(s)))
            && a.next.chunks == s.chunks && a.next.manifest == s.manifest
            && a.next.phase == REPAIRING && a.next.failed.None?
            && a.next.heldAtLastRepair == |s.chunks|
  {
  }

  lemma BatchGrows(s: Receiver, t: Receiver)
    requires s.manifest.Some? && Missing(s) != []
    requires s.chunks.Keys <= t.chunks.Keys && Batch(s)[0] in t.chunks
    ensures |t.chunks| > |s.chunks|
  {
    FirstMissing(s);
    var first := Missing(s)[0];
    assert first == Batch(s)[0];
    SubsetSmaller(s.chunks.Keys, t.chunks.Keys - {first});
    assert |t.chunks| == |t.chunks.Keys| && |s.chunks| == |s.chunks.Keys|;
  }

  lemma RoundFillsBatch(cfg: Config, s: Receiver, r: Round)
    requires ReadyToRepair(cfg, s) && Missing(s) != [] && Answered(cfg, s, r)
    ensures Tick(cfg, s, r.askAt).out == Some(Codec.Repair(cfg.pid, Batch(s)))
    ensures var t := Play(cfg, s, r);
            && ReadyToRepair(cfg, t) && t.manifest == s.manifest
            && Missing(t) == Missing(s)[|Batch(s)|..]
  {
    var t := Play(cfg, s, r);
    AskingBatch(cfg, s, r.askAt);
    BurstFills(cfg, Tick(cfg, s, r.askAt).next, r.burst);
    assert Batch(s)[0] in Batch(s);
    assert Batch(s)[0] in t.chunks.Keys;
    BatchGrows(s, t);
    FillFirstGaps(s.chunks, t.chunks, 0, s.manifest.value.count, |Batch(s)|);
  }

  /** `t` is where an answered round, started with something missing, leads from `s`. */
  predicate Leads(cfg: Config, s: Receiver, r: Round, t: Receiver) {
    s.manifest.Some? && Missing(s) != [] && Answered(cfg, s, r) && t == Play(cfg, s, r)
  }

  /** A run of answered rounds: each leads from one state of the list to the next. */
  ghost predicate AllAnswered(cfg: Config, states: seq<Receiver>, rounds: seq<Round>) {
    |states| == |rounds| + 1
    && forall k :: 0 <= k < |rounds| ==> Leads(cfg, states[k], rounds[k], states[k + 1])
  }

  lemma DropTwice(miss: seq<u16>, first: nat, second: nat)
    requires first <= |miss|
    ensures miss[first..][Min(second, |miss| - first)..] == miss[Min(first + second, |miss|)..]
  {
  }

  lemma {:induction false} DropsAddUp(misses: seq<seq<u16>>, k: nat)
    requires k < |misses|
    requires forall i :: 0 <= i < |misses| - 1 ==> misses[i + 1] == misses[i][Min(113, |misses[i]|)..]
    ensures misses[k] == misses[0][Min(113 * k, |misses[0]|)..]
    decreases k
  {
    if k > 0 {
      DropsAddUp(misses, k - 1);
      assert misses[k - 1 + 1] == misses[k - 1][Min(113, |misses[k - 1]|)..];
      DropTwice(misses[0], Min(113 * (k - 1), |misses[0]|), 113);
    }
  }

  lemma {:induction false} StillReady(cfg: Config, states: seq<Receiver>, rounds: seq<Round>, k: nat)
    requires AllAnswered(cfg, states, rounds) && k <= |rounds| && ReadyToRepair(cfg, states[0])
    ensures ReadyToRepair(cfg, states[k]) && states[k].manifest == states[0].manifest
    decreases k
  {
    if k > 0 {
      StillReady(cfg, states, rounds, k - 1);
      assert Leads(cfg, states[k - 1], rounds[k - 1], states[k - 1 + 1]);
      RoundFillsBatch(cfg, states[k - 1], rounds[k - 1]);
    }
  }

  lemma OneDrop(cfg: Config, states: seq<Receiver>, rounds: seq<Round>, k: nat)
    requires AllAnswered(cfg, states, rounds) && k < |rounds| && ReadyToRepair(cfg, states[0])
    ensures states[k].manifest.Some? && states[k + 1].manifest.Some?
    ensures |Missing(states[k])| > 0
    ensures Missing(states[k + 1]) == Missing(states[k])[Min(113, |Missing(states[k])|)..]
  {
    StillReady(cfg, states, rounds, k);
    assert Leads(cfg, states[k], rounds[k], states[k + 1]);
    RoundFillsBatch(cfg, states[k], rounds[k]);
  }

  /** Repair converges: k answered rounds fill exactly the first 113*k gaps, so m
      gaps are gone after ceil(m / 113) rounds and not before. */
  lemma RepairConverges(cfg: Config, states: seq<Receiver>, rounds: seq<Round>)
    requires AllAnswered(cfg, states, rounds) && ReadyToRepair(cfg, states[0])
    ensures var m, k, t := |Missing(states[0])|, |rounds|, states[|rounds|];
            && t.manifest == states[0].manifest
            && Missing(t) == Missing(states[0])[Min(113 * k, m)..]
            && (Missing(t) == [] <==> k == WindowCount(m, 113))
  {
    var k := |rounds|;
    forall i | 0 <= i <= k ensures states[i].manifest == states[0].manifest {
      StillReady(cfg, states, rounds, i);
    }
    var misses := seq(k + 1, i requires 0 <= i <= k && states[i].manifest.Some? => Missing(states[i]));
    forall i | 0 <= i < k ensures misses[i + 1] == misses[i][Min(113, |misses[i]|)..] && |misses[i]| > 0 {
      OneDrop(cfg, states, rounds, i);
    }
    DropsAddUp(misses, k);
    if k > 0 {
      DropsAddUp(misses, k - 1);
    }
  }
}
