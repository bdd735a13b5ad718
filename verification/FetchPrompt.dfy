/** An air that answers every pull in full: the exact pull count of a fetch is reached, from
    every held set and for every batch. */
module FetchPrompt {
  import opened Wire
  import opened Ether
  import Codec = PullCodec
  import M = PullModel
  import Safety = PullSafety
  import Count = PullCount
  import opened FetchModel
  import opened FetchCount
  import opened FetchSafety

  /** The chunk frames a device answers with, one after another. */
  function ChunkFrames(payload: bytes, pid: u16, first: nat, end: nat): seq<(bytes, int)>
    requires Safety.Count(payload) < 0x1_0000 && end <= Safety.Count(payload)
    decreases end
  {
    if end <= first then []
    else ChunkFrames(payload, pid, first, end - 1)
         + [(Codec.EncodeChunk(pid, end - 1, Safety.Count(payload), Window(payload, end - 1, M.SIZE)), 0)]
  }

  /** The frames of the answer to one pull. */
  function AnswerFrames(payload: bytes, pull: Codec.Pull): seq<(bytes, int)>
    requires Safety.Count(payload) < 0x1_0000
  {
    ChunkFrames(payload, pull.pid, pull.first, Min(pull.first + pull.count, Safety.Count(payload)))
  }

  function PromptFrames(payload: bytes, c: M.Client, batch: int): seq<(bytes, int)>
    requires Safety.Count(payload) < 0x1_0000
  {
    match M.NextPull(c, batch)
    case None => []
    case Some(pull) => AnswerFrames(payload, pull)
  }

  lemma {:induction false} AnswerGrows(payload: bytes, pid: u16, first: nat, end: nat)
    requires Safety.Count(payload) < 0x1_0000 && first < end <= Safety.Count(payload)
    ensures var last := Codec.Chunk(pid, end - 1, Safety.Count(payload), Window(payload, end - 1, M.SIZE));
            Count.AnswerFrom(payload, pid, first, end)
            == Count.AnswerFrom(payload, pid, first, end - 1) + [M.Arrival(Some(last), 0)]
    decreases end - first
  {
    if first + 1 < end {
      AnswerGrows(payload, pid, first + 1, end);
    } else {
      assert Count.AnswerFrom(payload, pid, first + 1, end) == [];
    }
  }

  lemma ChunkArrives(pid: u16, i: u16, count: u16, data: bytes)
    ensures Codec.Decode(Codec.EncodeChunk(pid, i, count, data)) == Some(Codec.Chunk(pid, i, count, data))
  {
    Codec.DeviceFramesRoundTrip(pid, 0, 0, i, count, 0, data, 0);
  }

  lemma OneMoreArrives(before: seq<(bytes, int)>, f: (bytes, int))
    ensures Arrivals(before + [f]) == Arrivals(before) + [M.Arrival(Codec.Decode(f.0), f.1)]
  {
    assert (before + [f])[..|before|] == before;
  }

  lemma {:induction false} FramesAnswer(payload: bytes, pid: u16, first: nat, end: nat)
    requires Safety.Count(payload) < 0x1_0000 && end <= Safety.Count(payload)
    ensures Arrivals(ChunkFrames(payload, pid, first, end)) == Count.AnswerFrom(payload, pid, first, end)
    decreases end
  {
    if first < end {
      FramesAnswer(payload, pid, first, end - 1);
      AnswerGrows(payload, pid, first, end);
      var data := Window(payload, end - 1, M.SIZE);
      ChunkArrives(pid, end - 1, Safety.Count(payload), data);
      OneMoreArrives(ChunkFrames(payload, pid, first, end - 1),
                     (Codec.EncodeChunk(pid, end - 1, Safety.Count(payload), data), 0));
    }
  }

  /** Every frame of an answer is a chunk of it. */
  predicate IsAnswerFrame(payload: bytes, pid: u16, first: nat, end: nat, a: M.Arrival)
    requires Safety.Count(payload) < 0x1_0000
  {
    && a.frame.Some? && a.frame.value.Chunk?
    && a.frame.value.pid == pid && a.frame.value.count == Safety.Count(payload)
    && first <= a.frame.value.index < end && a.frame.value.index < Safety.Count(payload)
    && a.frame.value.data == Window(payload, a.frame.value.index, M.SIZE)
  }

  lemma {:induction false} AnswerIsChunks(payload: bytes, pid: u16, first: nat, end: nat, a: M.Arrival)
    requires Safety.Count(payload) < 0x1_0000 && end <= Safety.Count(payload)
    requires a in Count.AnswerFrom(payload, pid, first, end)
    ensures IsAnswerFrame(payload, pid, first, end, a)
    decreases end - first
  {
    if first < end && a in Count.AnswerFrom(payload, pid, first + 1, end) {
      AnswerIsChunks(payload, pid, first + 1, end, a);
    }
  }

  lemma {:induction false} AnswerBrings(payload: bytes, pid: u16, first: nat, end: nat, i: u16)
    requires Safety.Count(payload) < 0x1_0000 && end <= Safety.Count(payload) && first <= i < end
    ensures Brings(pid, Safety.Count(payload), Count.AnswerFrom(payload, pid, first, end), i)
    decreases end - first
  {
    var heard := Count.AnswerFrom(payload, pid, first, end);
    if i == first {
      assert IsChunk(pid, Safety.Count(payload), heard[0].frame, i);
    } else {
      AnswerBrings(payload, pid, first + 1, end, i);
      assert heard[1..] == Count.AnswerFrom(payload, pid, first + 1, end);
      BringsMore(pid, Safety.Count(payload), heard, i);
    }
  }

  // ---- one round -----------------------------------------------------------------------------

  lemma AnswersSpan(payload: bytes, c: M.Client, pull: Codec.Pull, end: nat, heard: seq<M.Arrival>)
    requires Safety.Count(payload) == c.count && end == pull.first + pull.count <= c.count
    requires heard == Count.AnswerFrom(payload, c.pid, pull.first, end)
    ensures Answers(c, pull, heard)
  {
    forall i: u16 | pull.first <= i < end ensures Brings(c.pid, c.count, heard, i) {
      AnswerBrings(payload, c.pid, pull.first, end, i);
    }
    forall i: u16 | Brings(c.pid, c.count, heard, i) ensures pull.first <= i < end {
      var k :| 0 <= k < |heard| && IsChunk(c.pid, c.count, heard[k].frame, i);
      AnswerIsChunks(payload, c.pid, pull.first, end, heard[k]);
    }
  }

  lemma PullIsInRange(c: M.Client, batch: int, pull: Codec.Pull)
    requires c.haveManifest && !c.gone && M.NextPull(c, batch) == Some(pull)
    ensures pull.pid == c.pid && pull.first + pull.count <= c.count
  {
    Count.AsksFirstGap(c, batch);
  }

  lemma AnswerFramesArrive(payload: bytes, pull: Codec.Pull, end: nat)
    requires Safety.Count(payload) < 0x1_0000 && end == Min(pull.first + pull.count, Safety.Count(payload))
    ensures Arrivals(AnswerFrames(payload, pull)) == Count.Answer(payload, pull)
  {
    FramesAnswer(payload, pull.pid, pull.first, end);
  }

  lemma PromptFramesArrive(payload: bytes, c: M.Client, batch: int, pull: Codec.Pull, heard: seq<M.Arrival>)
    requires Safety.Count(payload) < 0x1_0000 && M.NextPull(c, batch) == Some(pull)
    requires heard == Count.Answer(payload, pull)
    ensures Arrivals(PromptFrames(payload, c, batch)) == heard && Count.Round(payload, c, batch) == M.Run(c, heard)
  {
    AnswerFramesArrive(payload, pull, Min(pull.first + pull.count, Safety.Count(payload)));
  }

  /** The answer to one pull, as it is heard. */
  lemma SlotAnswers(payloads: map<u16, bytes>, crc32: Checksum, c: M.Client, batch: int, pull: Codec.Pull,
                    heard: seq<M.Arrival>)
    requires Safety.Carriable(payloads) && Fetches(payloads, crc32, c) && M.NextPull(c, batch) == Some(pull)
    requires heard == Count.Answer(payloads[c.pid], pull)
    ensures Arrivals(PromptFrames(payloads[c.pid], c, batch)) == heard && pull.pid == c.pid
    ensures Answers(c, pull, heard)
    ensures M.Run(c, heard) == Count.Round(payloads[c.pid], c, batch)
  {
    PullIsInRange(c, batch, pull);
    PromptFramesArrive(payloads[c.pid], c, batch, pull, heard);
    AnswersSpan(payloads[c.pid], c, pull, pull.first + pull.count, heard);
  }

  lemma AnswerIsReliable(payloads: map<u16, bytes>, crc32: Checksum, c: M.Client, pull: Codec.Pull,
                         heard: seq<M.Arrival>)
    requires Safety.Carriable(payloads) && Fetches(payloads, crc32, c) && pull.pid == c.pid
    requires heard == Count.Answer(payloads[c.pid], pull)
    ensures Reliable(payloads, crc32, c, heard)
  {
    var payload := payloads[c.pid];
    var end := Min(pull.first + pull.count, Safety.Count(payload));
    forall a | a in heard ensures IsAnswerFrame(payload, c.pid, pull.first, end, a) {
      AnswerIsChunks(payload, c.pid, pull.first, end, a);
    }
    forall k | 0 <= k < |heard| ensures Safety.Honest(payloads, crc32, heard[k].frame) && NotGone(heard[k].frame) {
      assert heard[k] in heard;
    }
  }

  /** A client that goes on with the transfer `c` is in. */
  predicate GoesOn(payloads: map<u16, bytes>, crc32: Checksum, c: M.Client, d: M.Client)
    requires Safety.Carriable(payloads)
  {
    && Fetches(payloads, crc32, d) && d.pid == c.pid && d.length == c.length && d.count == c.count
    && d.busyUntil == c.busyUntil
  }

  lemma RoundGoesOn(payloads: map<u16, bytes>, crc32: Checksum, c: M.Client, batch: int)
    requires Safety.Carriable(payloads) && Fetches(payloads, crc32, c)
    ensures GoesOn(payloads, crc32, c, Count.Round(payloads[c.pid], c, batch))
  {
    if M.NextPull(c, batch).Some? {
      var pull := M.NextPull(c, batch).value;
      var heard := Count.Answer(payloads[c.pid], pull);
      SlotAnswers(payloads, crc32, c, batch, pull, heard);
      AnswerIsReliable(payloads, crc32, c, pull, heard);
      HeardFills(payloads, crc32, c, heard);
      SteadyGrows(c, heard);
    }
  }

  // ---- the air ---------------------------------------------------------------------------------

  /** Where the transfer is when a slot begins: about to pull, or waiting out the rest of a
      batch that was shorter than the client hoped for. */
  datatype Phase = Phase(c: M.Client, rest: bool, now: int)

  predicate Rests(c: M.Client, d: M.Client, t: Timing) {
    |d.have| < |c.have| + t.batch && t.batchMs > 0 && !M.Complete(d)
  }

  function NextPhase(payload: bytes, t: Timing, p: Phase): Phase
    requires Safety.Count(payload) < 0x1_0000
  {
    if p.rest then Phase(p.c, false, p.now + Max(1, t.batchMs))
    else
      var d := Count.Round(payload, p.c, t.batch);
      Phase(d, Rests(p.c, d, t), p.now + 1)
  }

  function PhaseAt(payload: bytes, c: M.Client, t: Timing, now: int, k: nat): Phase
    requires Safety.Count(payload) < 0x1_0000
  {
    if k == 0 then Phase(c, false, now) else NextPhase(payload, t, PhaseAt(payload, c, t, now, k - 1))
  }

  /** The answer to each pull in one slot, and an empty slot wherever the client waits on. */
  function PromptAir(payload: bytes, c: M.Client, t: Timing, now: int): Air
    requires Safety.Count(payload) < 0x1_0000
  {
    (k: nat) =>
      var p := PhaseAt(payload, c, t, now, k);
      Slot(if p.rest then [] else PromptFrames(payload, p.c, t.batch), PhaseAt(payload, c, t, now, k + 1).now)
  }

  lemma PromptClock(payload: bytes, c: M.Client, t: Timing, now: int, air: Air)
    requires Safety.Count(payload) < 0x1_0000 && air == PromptAir(payload, c, t, now)
    ensures ClockRuns(air, air(0).now - 1)
  {
    forall k: nat ensures air(k).now < air(k + 1).now {
      assert PhaseAt(payload, c, t, now, k + 1).now < PhaseAt(payload, c, t, now, k + 2).now;
    }
  }

  lemma {:induction false} PhasesGoOn(payloads: map<u16, bytes>, crc32: Checksum, c: M.Client, t: Timing, now: int,
                                      k: nat)
    requires Safety.Carriable(payloads) && Fetches(payloads, crc32, c)
    ensures var p := PhaseAt(payloads[c.pid], c, t, now, k); GoesOn(payloads, crc32, c, p.c) && p.now >= now
    decreases k
  {
    if k > 0 {
      PhasesGoOn(payloads, crc32, c, t, now, k - 1);
      RoundGoesOn(payloads, crc32, PhaseAt(payloads[c.pid], c, t, now, k - 1).c, t.batch);
    }
  }

  // ---- one pull ----------------------------------------------------------------------------------

  /** A wait that is over one sleep later, and one that is over at once. */
  lemma AwaitOnce(crc32: Checksum, air: Air, c: M.Client, m: Moment, until: int, target: int, d: M.Client)
    requires ClockRuns(air, air(0).now - 1) && InTime(air, m)
    requires m.now < until && !Answered(crc32, c, target, m.now)
    requires d == M.Run(c, HeardIn(air, m.slot, m.slot + 1))
    requires air(m.slot).now >= until || Answered(crc32, d, target, air(m.slot).now)
    ensures Await(crc32, air, c, m, until, target) == Later(air, m)
  {
    assert Await(crc32, air, d, Later(air, m), until, target) == Later(air, m);
  }

  lemma AwaitNot(crc32: Checksum, air: Air, c: M.Client, m: Moment, until: int, target: int)
    requires ClockRuns(air, air(0).now - 1) && InTime(air, m)
    requires m.now >= until || Answered(crc32, c, target, m.now)
    ensures Await(crc32, air, c, m, until, target) == m
  {
  }

  /** When the pull is over whose answer is there at `a`. */
  function AfterPull(c: M.Client, d: M.Client, a: Moment, t: Timing): Moment {
    if Rests(c, d, t) then Moment(a.slot + 1, a.now + Max(1, t.batchMs)) else a
  }

  /** The wait for the rest of a batch. */
  lemma PromptBatch(crc32: Checksum, air: Air, before: nat, d: M.Client, a: Moment, started: int, t: Timing, rest: bool)
    requires ClockRuns(air, air(0).now - 1) && InTime(air, a) && a.now - started < t.hardMs
    requires |d.have| > before && d.busyUntil == 0 && (M.Complete(d) ==> M.Verified(crc32, d))
    requires rest == (|d.have| < before + t.batch && t.batchMs > 0 && !M.Complete(d))
    requires rest ==> air(a.slot) == Slot([], a.now + Max(1, t.batchMs))
    ensures BatchEnd(crc32, air, before, d, a, started, t) == (if rest then Later(air, a) else a, Progress)
  {
    if rest {
      HeardOnce(air, a.slot);
      AwaitOnce(crc32, air, d, a, BatchBy(a, started, t), before + t.batch, d);
    } else {
      AwaitNot(crc32, air, d, a, BatchBy(a, started, t), before + t.batch);
    }
  }

  lemma PromptEnd(crc32: Checksum, air: Air, c: M.Client, m: Moment, a: Moment, started: int, t: Timing, d: M.Client)
    requires ClockRuns(air, air(0).now - 1) && InTime(air, m) && t.answerMs > 0 && a.now - started < t.hardMs
    requires M.NextPull(c, t.batch).Some? && !M.Complete(c) && c.busyUntil == 0 && a == Later(air, m)
    requires d == M.Run(c, HeardIn(air, m.slot, m.slot + 1)) && |d.have| > |c.have| && d.busyUntil == 0
    requires M.Complete(d) ==> M.Verified(crc32, d)
    requires Rests(c, d, t) ==> air(a.slot) == Slot([], a.now + Max(1, t.batchMs))
    ensures PullEnd(crc32, air, c, m, started, t) == (AfterPull(c, d, a, t), Progress)
  {
    assert Asking(c) == c;
    AwaitOnce(crc32, air, c, m, AnswerBy(m, started, t), |c.have| + 1, d);
    assert AnswerEnd(crc32, air, c, m, started, t) == a;
    PromptBatch(crc32, air, |c.have|, d, a, started, t, Rests(c, d, t));
  }

  /** What is heard in an empty slot more. */
  lemma RestHearsNothing(air: Air, k: nat)
    requires air(k + 1).frames == []
    ensures HeardIn(air, k, k + 2) == HeardIn(air, k, k + 1)
  {
    assert Arrivals([]) == [];
    assert HeardIn(air, k, k + 1) + [] == HeardIn(air, k, k + 1);
  }

  lemma PromptPull(payloads: map<u16, bytes>, crc32: Checksum, air: Air, c: M.Client, m: Moment, a: Moment,
                   after: Moment, started: int, t: Timing, pull: Codec.Pull, d: M.Client)
    requires Safety.Carriable(payloads) && Fetches(payloads, crc32, c) && c.busyUntil == 0
    requires ClockRuns(air, air(0).now - 1) && InTime(air, m) && t.answerMs > 0 && a.now - started < t.hardMs
    requires M.NextPull(c, t.batch) == Some(pull) && d == Count.Round(payloads[c.pid], c, t.batch)
    requires air(m.slot).frames == PromptFrames(payloads[c.pid], c, t.batch) && a == Later(air, m)
    requires Rests(c, d, t) ==> air(a.slot) == Slot([], a.now + Max(1, t.batchMs))
    requires after == AfterPull(c, d, a, t)
    ensures PullEnd(crc32, air, c, m, started, t) == (after, Progress) && Pulled(air, c, m, after) == d
    ensures Answers(c, pull, HeardIn(air, m.slot, after.slot))
  {
    var heard := Count.Answer(payloads[c.pid], pull);
    SlotAnswers(payloads, crc32, c, t.batch, pull, heard);
    AnswerIsReliable(payloads, crc32, c, pull, heard);
    HeardOnce(air, m.slot);
    HeardFills(payloads, crc32, c, heard);
    AnswerSavesOne(c, t.batch, heard, d.have);
    NeedIsMissing(payloads, crc32, c, t.batch);
    RoundGoesOn(payloads, crc32, c, t.batch);
    Safety.CompleteIsVerified(payloads, crc32, d);
    PromptEnd(crc32, air, c, m, a, started, t, d);
    if Rests(c, d, t) { RestHearsNothing(air, m.slot); }
    assert Asking(c) == c;
  }

  // ---- all pulls ------------------------------------------------------------------------------------

  /** One pull answered, and all that follow. */
  lemma LosslessFrom(crc32: Checksum, air: Air, c: M.Client, m: Moment, started: int, t: Timing, after: Moment,
                     d: M.Client, n: nat)
    requires ClockRuns(air, air(0).now - 1) && InTime(air, m) && m.now - started < t.hardMs && n > 0
    requires after == PullEnd(crc32, air, c, m, started, t).0 && d == Pulled(air, c, m, after)
    requires M.NextPull(c, t.batch).Some?
    requires Answers(c, M.NextPull(c, t.batch).value, HeardIn(air, m.slot, after.slot))
    requires Lossless(crc32, air, d, after, started, t, n - 1)
    ensures Lossless(crc32, air, c, m, started, t, n)
  {
  }

  /** The transfer is about to pull at moment `m`, with `d` the client. */
  ghost predicate AtPull(payload: bytes, air: Air, c: M.Client, t: Timing, now: int, d: M.Client, m: Moment)
    requires Safety.Count(payload) < 0x1_0000
  {
    && air == PromptAir(payload, c, t, now) && now >= 0 && m.now >= 0
    && PhaseAt(payload, c, t, now, m.slot) == Phase(d, false, m.now)
  }

  /** How long a pull may take on this air, and how long `n` of them. */
  function Span(t: Timing): nat {
    1 + Max(1, t.batchMs)
  }

  function Longest(n: nat, t: Timing): nat {
    if n == 0 then 0 else Span(t) + Longest(n - 1, t)
  }

  lemma SlotOf(payload: bytes, air: Air, c: M.Client, t: Timing, now: int, k: nat, p: Phase, q: Phase)
    requires Safety.Count(payload) < 0x1_0000 && air == PromptAir(payload, c, t, now)
    requires p == PhaseAt(payload, c, t, now, k) && q == NextPhase(payload, t, p)
    ensures PhaseAt(payload, c, t, now, k + 1) == q
    ensures air(k) == Slot(if p.rest then [] else PromptFrames(payload, p.c, t.batch), q.now)
  {
  }

  /** The slot of a pull. */
  lemma PullSlot(payload: bytes, air: Air, c: M.Client, t: Timing, now: int, k: nat, d: M.Client, at: int, e: M.Client)
    requires Safety.Count(payload) < 0x1_0000 && air == PromptAir(payload, c, t, now)
    requires PhaseAt(payload, c, t, now, k) == Phase(d, false, at) && e == Count.Round(payload, d, t.batch)
    ensures PhaseAt(payload, c, t, now, k + 1) == Phase(e, Rests(d, e, t), at + 1)
    ensures air(k) == Slot(PromptFrames(payload, d, t.batch), at + 1)
  {
    SlotOf(payload, air, c, t, now, k, Phase(d, false, at), Phase(e, Rests(d, e, t), at + 1));
  }

  /** And an empty one. */
  lemma RestSlot(payload: bytes, air: Air, c: M.Client, t: Timing, now: int, k: nat, d: M.Client, at: int)
    requires Safety.Count(payload) < 0x1_0000 && air == PromptAir(payload, c, t, now)
    requires PhaseAt(payload, c, t, now, k) == Phase(d, true, at)
    ensures PhaseAt(payload, c, t, now, k + 1) == Phase(d, false, at + Max(1, t.batchMs))
    ensures air(k) == Slot([], at + Max(1, t.batchMs))
  {
    SlotOf(payload, air, c, t, now, k, Phase(d, true, at), Phase(d, false, at + Max(1, t.batchMs)));
  }

  /** A pull that is over when its answer is there. */
  lemma NextWithoutRest(payload: bytes, air: Air, c: M.Client, t: Timing, now: int, d: M.Client, m: Moment,
                        e: M.Client, a: Moment)
    requires Safety.Count(payload) < 0x1_0000 && AtPull(payload, air, c, t, now, d, m)
    requires e == Count.Round(payload, d, t.batch) && !Rests(d, e, t) && a == Moment(m.slot + 1, m.now + 1)
    ensures AtPull(payload, air, c, t, now, e, a) && InTime(air, a)
  {
    PullSlot(payload, air, c, t, now, m.slot, d, m.now, e);
    PullSlot(payload, air, c, t, now, a.slot, e, a.now, Count.Round(payload, e, t.batch));
  }

  /** And one that waits on. */
  lemma NextWithRest(payload: bytes, air: Air, c: M.Client, t: Timing, now: int, d: M.Client, m: Moment,
                     e: M.Client, a: Moment, after: Moment)
    requires Safety.Count(payload) < 0x1_0000 && AtPull(payload, air, c, t, now, d, m)
    requires e == Count.Round(payload, d, t.batch) && Rests(d, e, t) && a == Moment(m.slot + 1, m.now + 1)
    requires after == Moment(a.slot + 1, a.now + Max(1, t.batchMs))
    ensures AtPull(payload, air, c, t, now, e, after) && InTime(air, after)
    ensures air(a.slot) == Slot([], after.now)
  {
    PullSlot(payload, air, c, t, now, m.slot, d, m.now, e);
    RestSlot(payload, air, c, t, now, a.slot, e, a.now);
    PullSlot(payload, air, c, t, now, after.slot, e, after.now, Count.Round(payload, e, t.batch));
  }

  lemma NowAtPull(payload: bytes, air: Air, c: M.Client, t: Timing, now: int, d: M.Client, m: Moment)
    requires Safety.Count(payload) < 0x1_0000 && AtPull(payload, air, c, t, now, d, m)
    ensures InTime(air, m) && Later(air, m) == Moment(m.slot + 1, m.now + 1)
    ensures air(m.slot).frames == PromptFrames(payload, d, t.batch)
  {
    PullSlot(payload, air, c, t, now, m.slot, d, m.now, Count.Round(payload, d, t.batch));
  }

  lemma NextAtPull(payload: bytes, air: Air, c: M.Client, t: Timing, now: int, d: M.Client, m: Moment,
                   e: M.Client, a: Moment, after: Moment)
    requires Safety.Count(payload) < 0x1_0000 && AtPull(payload, air, c, t, now, d, m)
    requires e == Count.Round(payload, d, t.batch) && a == Moment(m.slot + 1, m.now + 1)
    requires after == AfterPull(d, e, a, t)
    ensures AtPull(payload, air, c, t, now, e, after) && InTime(air, after) && after.now <= m.now + Span(t)
    ensures Rests(d, e, t) ==> air(a.slot) == Slot([], after.now)
  {
    if Rests(d, e, t) {
      NextWithRest(payload, air, c, t, now, d, m, e, a, after);
    } else {
      NextWithoutRest(payload, air, c, t, now, d, m, e, a);
    }
  }

  lemma RoundNeedsOneLess(payload: bytes, d: M.Client, batch: int, n: nat, e: M.Client)
    requires Count.Fetching(payload, d) && n == Need(d, batch) > 0 && e == Count.Round(payload, d, batch)
    ensures Need(e, batch) == n - 1
  {
    Count.RoundSavesOne(payload, d, batch);
  }

  lemma PromptStep(payloads: map<u16, bytes>, crc32: Checksum, payload: bytes, air: Air, c: M.Client, now: int,
                   started: int, t: Timing, d: M.Client, m: Moment, e: M.Client, after: Moment)
    requires Safety.Carriable(payloads) && GoesOn(payloads, crc32, c, d) && payload == payloads[c.pid]
    requires AtPull(payload, air, c, t, now, d, m) && c.busyUntil == 0 && t.answerMs > 0
    requires ClockRuns(air, air(0).now - 1) && InTime(air, m)
    requires M.NextPull(d, t.batch).Some? && m.now + Span(t) - started < t.hardMs
    requires e == Count.Round(payload, d, t.batch) && after == AfterPull(d, e, Moment(m.slot + 1, m.now + 1), t)
    ensures GoesOn(payloads, crc32, c, e) && AtPull(payload, air, c, t, now, e, after) && InTime(air, after)
    ensures after.now <= m.now + Span(t)
    ensures PullEnd(crc32, air, d, m, started, t).0 == after && Pulled(air, d, m, after) == e
    ensures Answers(d, M.NextPull(d, t.batch).value, HeardIn(air, m.slot, after.slot))
  {
    var a := Moment(m.slot + 1, m.now + 1);
    NowAtPull(payload, air, c, t, now, d, m);
    NextAtPull(payload, air, c, t, now, d, m, e, a, after);
    PromptPull(payloads, crc32, air, d, m, a, after, started, t, M.NextPull(d, t.batch).value, e);
    RoundGoesOn(payloads, crc32, d, t.batch);
  }

  lemma PromptTurn(payloads: map<u16, bytes>, crc32: Checksum, payload: bytes, air: Air, c: M.Client, now: int,
                   started: int, t: Timing, d: M.Client, m: Moment, n: nat)
    returns (e: M.Client, after: Moment)
    requires Safety.Carriable(payloads) && GoesOn(payloads, crc32, c, d) && payload == payloads[c.pid]
    requires AtPull(payload, air, c, t, now, d, m) && c.busyUntil == 0 && t.answerMs > 0
    requires ClockRuns(air, air(0).now - 1) && InTime(air, m)
    requires n == Need(d, t.batch) > 0 && m.now + Span(t) - started < t.hardMs
    ensures GoesOn(payloads, crc32, c, e) && AtPull(payload, air, c, t, now, e, after) && InTime(air, after)
    ensures Need(e, t.batch) == n - 1 && after.now <= m.now + Span(t)
    ensures PullEnd(crc32, air, d, m, started, t).0 == after && Pulled(air, d, m, after) == e
    ensures M.NextPull(d, t.batch).Some?
    ensures Answers(d, M.NextPull(d, t.batch).value, HeardIn(air, m.slot, after.slot))
  {
    e := Count.Round(payload, d, t.batch);
    after := AfterPull(d, e, Moment(m.slot + 1, m.now + 1), t);
    NeedIsMissing(payloads, crc32, d, t.batch);
    PromptStep(payloads, crc32, payload, air, c, now, started, t, d, m, e, after);
    RoundNeedsOneLess(payload, d, t.batch, n, e);
  }

  lemma {:induction false} PromptRun(payloads: map<u16, bytes>, crc32: Checksum, payload: bytes, air: Air, c: M.Client,
                                     now: int, started: int, t: Timing, d: M.Client, m: Moment, n: nat)
    requires Safety.Carriable(payloads) && GoesOn(payloads, crc32, c, d) && payload == payloads[c.pid]
    requires AtPull(payload, air, c, t, now, d, m) && c.busyUntil == 0 && t.answerMs > 0
    requires ClockRuns(air, air(0).now - 1) && InTime(air, m)
    requires n == Need(d, t.batch) && m.now + Longest(n, t) - started < t.hardMs
    ensures Lossless(crc32, air, d, m, started, t, n)
    decreases n
  {
    if n > 0 {
      var e, after := PromptTurn(payloads, crc32, payload, air, c, now, started, t, d, m, n);
      PromptRun(payloads, crc32, payload, air, c, now, started, t, e, after, n - 1);
      LosslessFrom(crc32, air, d, m, started, t, after, e, n);
    }
  }

  lemma {:induction false} FramesArrive(frames: seq<(bytes, int)>, f: (bytes, int)) returns (a: M.Arrival)
    requires f in frames
    ensures a in Arrivals(frames) && a.frame == Codec.Decode(f.0)
    decreases |frames|
  {
    var n := |frames| - 1;
    if f == frames[n] {
      a := M.Arrival(Codec.Decode(f.0), f.1);
    } else {
      a := FramesArrive(frames[..n], f);
    }
  }

  lemma PromptFrameIsReliable(payloads: map<u16, bytes>, crc32: Checksum, c: M.Client, batch: int, f: (bytes, int))
    requires Safety.Carriable(payloads) && Fetches(payloads, crc32, c) && f in PromptFrames(payloads[c.pid], c, batch)
    ensures Safety.Honest(payloads, crc32, Codec.Decode(f.0)) && NotGone(Codec.Decode(f.0))
    ensures SameIdentity(c, Codec.Decode(f.0)) && NotBusy(c, Codec.Decode(f.0))
  {
    var pull := M.NextPull(c, batch).value;
    var heard := Count.Answer(payloads[c.pid], pull);
    SlotAnswers(payloads, crc32, c, batch, pull, heard);
    AnswerIsReliable(payloads, crc32, c, pull, heard);
    var a := FramesArrive(PromptFrames(payloads[c.pid], c, batch), f);
  }

  /** Nothing is on such an air but chunks of the payload. */
  lemma PromptAirIsReliable(payloads: map<u16, bytes>, crc32: Checksum, c: M.Client, t: Timing, now: int, air: Air)
    requires Safety.Carriable(payloads) && Fetches(payloads, crc32, c)
    requires air == PromptAir(payloads[c.pid], c, t, now)
    ensures HonestAir(payloads, crc32, air, 0) && SteadyAir(c, air, 0) && NoGoneAir(air, 0)
  {
    forall k: nat, f | f in air(k).frames
      ensures Safety.Honest(payloads, crc32, Codec.Decode(f.0)) && NotGone(Codec.Decode(f.0))
      ensures SameIdentity(c, Codec.Decode(f.0)) && NotBusy(c, Codec.Decode(f.0))
    {
      PhasesGoOn(payloads, crc32, c, t, now, k);
      PromptFrameIsReliable(payloads, crc32, PhaseAt(payloads[c.pid], c, t, now, k).c, t.batch, f);
    }
  }

  /** The pull count of a fetch is reached: for every transfer in progress, with any timers,
      there is an air that answers each of its pulls in full, each in one slot. */
  lemma LosslessAirExists(payloads: map<u16, bytes>, crc32: Checksum, c: M.Client, m: Moment, t: Timing, air: Air)
    requires Safety.Carriable(payloads) && Fetches(payloads, crc32, c) && c.busyUntil == 0
    requires t.answerMs > 0 && m.slot == 0 && m.now >= 0 && Longest(Need(c, t.batch), t) < t.hardMs
    requires air == PromptAir(payloads[c.pid], c, t, m.now)
    ensures ClockRuns(air, air(0).now - 1) && InTime(air, m)
    ensures LosslessAir(payloads, crc32, air, c, m, m.now, t)
  {
    PromptClock(payloads[c.pid], c, t, m.now, air);
    PromptAirIsReliable(payloads, crc32, c, t, m.now, air);
    assert PhaseAt(payloads[c.pid], c, t, m.now, 1).now == m.now + 1;
    PromptRun(payloads, crc32, payloads[c.pid], air, c, m.now, m.now, t, c, m, Need(c, t.batch));
  }
}
