/** What a pull transfer hears and when (clients/node/index.js, Client.fetch): its waits
    and pulls as functions of the air, and what may be relied on about the air. */
module FetchModel {
  import opened Wire
  import opened Ether
  import opened IdSets
  import Codec = PullCodec
  import M = PullModel
  import Safety = PullSafety

  datatype Timing = Timing(hardMs: int, batch: int, answerMs: int, batchMs: int)

  datatype Outcome =
    | Returned(payload: bytes)
    | NoManifest
    | Gone
    | CrcFailed
    | Stalled
    | TimedOut

  // ---- time ---------------------------------------------------------------------------

  /** Where the program is in the air, and what its clock last read. */
  datatype Moment = Moment(slot: nat, now: int)

  ghost predicate InTime(air: Air, m: Moment) {
    m.now < air(m.slot).now && m.now >= 0
  }

  ghost predicate ClockRuns(air: Air, from: int) {
    from < air(0).now && forall k: nat :: air(k).now < air(k + 1).now
  }

  /** One sleep later. */
  function Later(air: Air, m: Moment): Moment {
    Moment(m.slot + 1, air(m.slot).now)
  }

  // ---- what is heard ----------------------------------------------------------------------

  function Arrivals(frames: seq<(bytes, int)>): seq<M.Arrival> {
    if frames == [] then []
    else var n := |frames| - 1;
         Arrivals(frames[..n]) + [M.Arrival(Codec.Decode(frames[n].0), frames[n].1)]
  }

  /** Everything that arrives in slots from, ..., end - 1, in order. */
  function HeardIn(air: Air, from: nat, end: nat): seq<M.Arrival> {
    if end <= from then [] else HeardIn(air, from, end - 1) + Arrivals(air(end - 1).frames)
  }

  lemma HeardOnce(air: Air, k: nat)
    ensures HeardIn(air, k, k + 1) == Arrivals(air(k).frames)
  {
    assert HeardIn(air, k, k) == [];
  }

  lemma {:induction false} HeardAppend(air: Air, from: nat, mid: nat, end: nat)
    requires from <= mid <= end
    ensures HeardIn(air, from, mid) + HeardIn(air, mid, end) == HeardIn(air, from, end)
    decreases end
  {
    if mid < end {
      HeardAppend(air, from, mid, end - 1);
    }
  }

  /** Hearing on is hearing it all. */
  lemma RunOn(air: Air, c: M.Client, from: nat, mid: nat, end: nat)
    requires from <= mid <= end
    ensures M.Run(M.Run(c, HeardIn(air, from, mid)), HeardIn(air, mid, end)) == M.Run(c, HeardIn(air, from, end))
  {
    HeardAppend(air, from, mid, end);
    M.RunAppend(c, HeardIn(air, from, mid), HeardIn(air, mid, end));
  }

  lemma {:induction false} ArrivalsAreFrames(frames: seq<(bytes, int)>, a: M.Arrival)
    requires a in Arrivals(frames)
    ensures exists f :: f in frames && a.frame == Codec.Decode(f.0)
    decreases |frames|
  {
    var n := |frames| - 1;
    if a in Arrivals(frames[..n]) {
      ArrivalsAreFrames(frames[..n], a);
    } else {
      assert frames[n] in frames;
    }
  }

  /** Every frame of the list came out of the air. */
  ghost predicate FromAir(air: Air, from: nat, heard: seq<M.Arrival>) {
    forall a :: a in heard ==> exists k: nat, f :: k >= from && f in air(k).frames && a.frame == Codec.Decode(f.0)
  }

  lemma {:induction false} HeardIsFromAir(air: Air, from: nat, end: nat)
    ensures FromAir(air, from, HeardIn(air, from, end))
    decreases end
  {
    if from < end {
      HeardIsFromAir(air, from, end - 1);
      forall a | a in Arrivals(air(end - 1).frames)
        ensures exists k: nat, f :: k >= from && f in air(k).frames && a.frame == Codec.Decode(f.0)
      {
        ArrivalsAreFrames(air(end - 1).frames, a);
      }
    }
  }

  // ---- waits and pulls ---------------------------------------------------------------------

  /** What a wait waits for: the payload is verified, `target` chunks are held, or the
      device said BUSY. */
  predicate Answered(crc32: Checksum, c: M.Client, target: int, now: int) {
    M.Verified(crc32, c) || |c.have| >= target || c.busyUntil > now
  }

  /** When a wait ends. */
  ghost function Await(crc32: Checksum, air: Air, c: M.Client, m: Moment, until: int, target: int): (after: Moment)
    requires ClockRuns(air, air(0).now - 1) && InTime(air, m)
    ensures InTime(air, after) && after.slot >= m.slot
    ensures if after.slot == m.slot then after == m else after.now > m.now
    decreases Max(0, until - m.now)
  {
    if m.now >= until || Answered(crc32, c, target, m.now) then m
    else
      var next := Later(air, m);
      Await(crc32, air, M.Run(c, HeardIn(air, m.slot, next.slot)), next, until, target)
  }

  datatype Heard = NothingToAsk | Progress | ToldToWait | Silence

  /** How long a wait may last. */
  function AnswerBy(m: Moment, started: int, t: Timing): int {
    Min(m.now + t.answerMs, started + t.hardMs)
  }

  function BatchBy(a: Moment, started: int, t: Timing): int {
    Min(a.now + t.batchMs, started + t.hardMs)
  }

  /** From the end of the wait for an answer on: after a BUSY, one more sleep; after a chunk,
      the wait for the rest of the batch; otherwise nothing. */
  ghost function BatchEnd(crc32: Checksum, air: Air, before: nat, d: M.Client, a: Moment, started: int, t: Timing)
    : (r: (Moment, Heard))
    requires ClockRuns(air, air(0).now - 1) && InTime(air, a)
    ensures InTime(air, r.0) && r.0.slot >= a.slot && r.0.now >= a.now
  {
    if d.busyUntil > a.now then (Later(air, a), ToldToWait)
    else if |d.have| > before then
      (Await(crc32, air, d, a, BatchBy(a, started, t), before + t.batch), Progress)
    else (a, Silence)
  }

  /** The client when it asks: what an earlier BUSY said is forgotten. */
  function Asking(c: M.Client): M.Client {
    c.(busyUntil := 0)
  }

  /** One moment is no earlier than another, and if it is not the same, the clock shows it. */
  ghost predicate NotBefore(air: Air, m: Moment, a: Moment) {
    InTime(air, a) && a.slot >= m.slot && if a.slot == m.slot then a == m else a.now > m.now
  }

  /** When the wait for the answer ends. */
  ghost function AnswerEnd(crc32: Checksum, air: Air, c: M.Client, m: Moment, started: int, t: Timing): (a: Moment)
    requires ClockRuns(air, air(0).now - 1) && InTime(air, m)
    ensures NotBefore(air, m, a)
  {
    Await(crc32, air, c, m, AnswerBy(m, started, t), |c.have| + 1)
  }

  /** From the moment it asks, if there is anything to ask for; if not, it is one sleep. */
  ghost function AskEnd(crc32: Checksum, air: Air, nothing: bool, c: M.Client, m: Moment, a: Moment, started: int,
                        t: Timing)
    : (r: (Moment, Heard))
    requires ClockRuns(air, air(0).now - 1) && InTime(air, m) && NotBefore(air, m, a)
    ensures InTime(air, r.0) && r.0.slot >= m.slot && r.0.now >= m.now
  {
    if nothing then (Later(air, m), NothingToAsk)
    else BatchEnd(crc32, air, |c.have|, M.Run(c, HeardIn(air, m.slot, a.slot)), a, started, t)
  }

  /** When a pull is over, and what came of it. */
  ghost function PullEnd(crc32: Checksum, air: Air, c: M.Client, m: Moment, started: int, t: Timing)
    : (r: (Moment, Heard))
    requires ClockRuns(air, air(0).now - 1) && InTime(air, m)
    ensures InTime(air, r.0) && r.0.slot >= m.slot && r.0.now >= m.now
  {
    AskEnd(crc32, air, M.NextPull(c, t.batch).None?, Asking(c), m, AnswerEnd(crc32, air, Asking(c), m, started, t),
           started, t)
  }

  /** And what the client is then. */
  function Pulled(air: Air, c: M.Client, m: Moment, after: Moment): M.Client {
    M.Run(Asking(c), HeardIn(air, m.slot, after.slot))
  }

  lemma AsksTheSame(c: M.Client, batch: int)
    ensures M.NextPull(Asking(c), batch) == M.NextPull(c, batch)
  {
  }

  // ---- what may be relied on -----------------------------------------------------------------

  /** From slot `from` on, whatever comes before. */
  ghost predicate HonestAir(payloads: map<u16, bytes>, crc32: Checksum, air: Air, from: nat)
    requires Safety.Carriable(payloads)
  {
    forall k: nat, f :: k >= from && f in air(k).frames ==> Safety.Honest(payloads, crc32, Codec.Decode(f.0))
  }

  /** Every announcement that arrives is the one the client already has. */
  predicate SameIdentity(c: M.Client, frame: Option<Codec.Frame>) {
    frame.Some? && frame.value.Manifest? ==>
      frame.value.pid == c.pid && frame.value.length == c.length && frame.value.count == c.count
  }

  predicate NotBusy(c: M.Client, frame: Option<Codec.Frame>) {
    frame.Some? && frame.value.Busy? ==> frame.value.pid != c.pid
  }

  /** One manifest identity, and no BUSY for its pid. */
  ghost predicate SteadyAir(c: M.Client, air: Air, from: nat) {
    forall k: nat, f :: k >= from && f in air(k).frames ==>
      SameIdentity(c, Codec.Decode(f.0)) && NotBusy(c, Codec.Decode(f.0))
  }

  predicate Steady(c: M.Client, heard: seq<M.Arrival>) {
    forall a :: a in heard ==> SameIdentity(c, a.frame) && NotBusy(c, a.frame)
  }

  predicate Announces(wanted: u16, frame: Option<Codec.Frame>) {
    frame.Some? && frame.value.Manifest? ==> frame.value.pid == wanted
  }

  /** Every announcement carries the pid that was asked for. */
  ghost predicate WantedAir(wanted: u16, air: Air, from: nat) {
    forall k: nat, f :: k >= from && f in air(k).frames ==> Announces(wanted, Codec.Decode(f.0))
  }

  predicate OnWanted(wanted: u16, c: M.Client) {
    c.haveManifest ==> c.pid == wanted
  }

  /** Steady frames only ever add to what is held. */
  lemma {:induction false} SteadyGrows(c: M.Client, heard: seq<M.Arrival>)
    requires c.haveManifest && c.have <= Below(c.count) && Steady(c, heard)
    ensures var t := M.Run(c, heard);
            && t.haveManifest && t.pid == c.pid && t.length == c.length && t.count == c.count
            && t.crc == c.crc && t.busyUntil == c.busyUntil
            && c.have <= t.have <= Below(t.count) && |c.have| <= |t.have| <= t.count
    decreases |heard|
  {
    FullByCounting(c.have, c.count);
    if heard != [] {
      var t := M.OnFrame(c, heard[0].frame, heard[0].at);
      assert heard[0] in heard;
      assert t.have <= Below(t.count) by {
        forall i | i in t.have ensures IsBelow(i, t.count) { assert i in c.have ==> i in Below(c.count); }
      }
      SubsetSmaller(c.have, t.have);
      SteadyGrows(t, heard[1..]);
    }
  }

  lemma {:induction false} WantedStays(wanted: u16, c: M.Client, heard: seq<M.Arrival>)
    requires OnWanted(wanted, c) && forall a :: a in heard ==> Announces(wanted, a.frame)
    ensures OnWanted(wanted, M.Run(c, heard))
    decreases |heard|
  {
    if heard != [] {
      assert heard[0] in heard;
      WantedStays(wanted, M.OnFrame(c, heard[0].frame, heard[0].at), heard[1..]);
    }
  }

  lemma {:induction false} ManifestStays(c: M.Client, heard: seq<M.Arrival>)
    requires c.haveManifest
    ensures M.Run(c, heard).haveManifest
    decreases |heard|
  {
    if heard != [] {
      ManifestStays(M.OnFrame(c, heard[0].frame, heard[0].at), heard[1..]);
    }
  }
}
