/** What every moment of a fetch keeps (clients/node/index.js, Client.fetch): the reassembly
    invariant, the manifest it started with, its budget of pulls, a backed store. */
module FetchSafety {
  import opened Wire
  import opened Ether
  import opened IdSets
  import Codec = PullCodec
  import M = PullModel
  import Safety = PullSafety
  import Files = PartialStore
  import opened FetchModel
  import opened FetchCount

  const MAX_IDLE: nat := 12

  // ---- the setting of a fetch -----------------------------------------------------------

  /** The circumstances of one fetch: the pid asked for, the payloads on the air, the
      checksum in force, the air itself from some slot on, the client as the chunk loop
      found it, and what may be relied on: that devices are honest, that the air is
      steady, that only what was asked for is announced, that the disk is backed, and
      that every pull is answered. */
  datatype Setting = Setting(wanted: u16, payloads: map<u16, bytes>, crc32: Checksum, air: Air, from: nat,
                             c0: M.Client, honest: bool, steady: bool, asked: bool, backed: bool, lossless: bool)

  ghost predicate Sound(x: Setting) {
    && Safety.Carriable(x.payloads) && ClockRuns(x.air, x.air(0).now - 1) && x.c0.haveManifest
    && (x.honest ==> HonestAir(x.payloads, x.crc32, x.air, x.from) && Safety.Inv(x.payloads, x.crc32, x.c0))
    && (x.steady ==> SteadyAir(x.c0, x.air, x.from) && x.c0.count > 0 && x.c0.have <= Below(x.c0.count))
    && (x.asked ==> WantedAir(x.wanted, x.air, x.from) && x.c0.pid == x.wanted)
    && (x.backed ==> x.honest && Distinct(x.payloads, x.crc32))
    && (x.lossless ==> x.honest && x.steady && NoGoneAir(x.air, x.from))
  }

  /** On a steady air the client is still on the manifest it started with. */
  predicate OnCourse(c0: M.Client, c: M.Client) {
    && c.haveManifest && c.pid == c0.pid && c.length == c0.length && c.count == c0.count
    && c.have <= Below(c.count) && |c0.have| <= |c.have| <= c.count
  }

  /** What every moment of the loop keeps. */
  ghost predicate Kept(x: Setting, c: M.Client)
    requires Sound(x)
  {
    && c.haveManifest
    && (x.honest ==> Safety.Inv(x.payloads, x.crc32, c))
    && (x.steady ==> OnCourse(x.c0, c))
    && (x.asked ==> c.pid == x.wanted)
  }

  /** What the air brings keeps it, and on a steady air only adds chunks. */
  lemma AirKeeps(x: Setting, c: M.Client, heard: seq<M.Arrival>)
    requires Sound(x) && Kept(x, c) && FromAir(x.air, x.from, heard)
    ensures var t := M.Run(c, heard);
            Kept(x, t) && (x.steady ==> |c.have| <= |t.have| && t.busyUntil == c.busyUntil)
  {
    ManifestStays(c, heard);
    if x.honest {
      forall i | 0 <= i < |heard| ensures Safety.Honest(x.payloads, x.crc32, heard[i].frame) {
        assert heard[i] in heard;
      }
      Safety.Reassembly(x.payloads, x.crc32, c, heard);
    }
    if x.steady {
      SteadyGrows(c, heard);
    }
    if x.asked {
      WantedStays(x.wanted, c, heard);
    }
  }

  ghost predicate During(x: Setting, air: Air, m: Moment) {
    x.air == air && x.from <= m.slot && InTime(air, m)
  }

  /** What is heard between two moments keeps it. */
  lemma HearingKeeps(x: Setting, c: M.Client, from: nat, end: nat)
    requires Sound(x) && Kept(x, c) && x.from <= from
    ensures var t := M.Run(c, HeardIn(x.air, from, end));
            Kept(x, t) && (x.steady ==> |c.have| <= |t.have| && t.busyUntil == c.busyUntil)
  {
    HeardIsFromAir(x.air, from, end);
    AirKeeps(x, c, HeardIn(x.air, from, end));
  }

  // ---- the manifest ---------------------------------------------------------------------

  /** What may be relied on before there is one. */
  lemma WaitingKeeps(payloads: map<u16, bytes>, crc32: Checksum, wanted: u16, air: Air, c: M.Client, from: nat,
                     end: nat)
    requires Safety.Carriable(payloads)
    ensures var t := M.Run(c, HeardIn(air, from, end));
            && (HonestAir(payloads, crc32, air, from) && Safety.Inv(payloads, crc32, c) ==>
                  Safety.Inv(payloads, crc32, t))
            && (WantedAir(wanted, air, from) && OnWanted(wanted, c) ==> OnWanted(wanted, t))
  {
    var heard := HeardIn(air, from, end);
    HeardIsFromAir(air, from, end);
    if HonestAir(payloads, crc32, air, from) && Safety.Inv(payloads, crc32, c) {
      forall i | 0 <= i < |heard| ensures Safety.Honest(payloads, crc32, heard[i].frame) {
        assert heard[i] in heard;
      }
      Safety.Reassembly(payloads, crc32, c, heard);
    }
    if WantedAir(wanted, air, from) && OnWanted(wanted, c) {
      WantedStays(wanted, c, heard);
    }
  }

  /** There is no manifest before slot `end`. */
  ghost predicate NoManifestBefore(air: Air, c: M.Client, from: nat, end: nat) {
    forall j: nat :: from <= j < end ==> !M.Run(c, HeardIn(air, from, j)).haveManifest
  }

  /** When a slot begins, from moment `m` on. */
  function SlotStart(air: Air, m: Moment, slot: nat): Moment {
    Moment(slot, if slot <= m.slot then m.now else air(slot - 1).now)
  }

  /** What a client has become that waited for a manifest from one moment to another. */
  ghost predicate Expecting(air: Air, c0: M.Client, m: Moment, c: M.Client, at: Moment) {
    && m.slot <= at.slot && at == SlotStart(air, m, at.slot)
    && c == M.Run(c0, HeardIn(air, m.slot, at.slot)) && NoManifestBefore(air, c0, m.slot, at.slot)
  }

  lemma ExpectsOn(air: Air, c0: M.Client, m: Moment, c: M.Client, at: Moment, d: M.Client, next: Moment)
    requires Expecting(air, c0, m, c, at) && !c.haveManifest
    requires next == Later(air, at) && d == M.Run(c, HeardIn(air, at.slot, next.slot))
    ensures Expecting(air, c0, m, d, next)
  {
    RunOn(air, c0, m.slot, at.slot, next.slot);
    NoneYet(air, c0, m.slot, at.slot);
  }

  lemma NoneYet(air: Air, c0: M.Client, from: nat, end: nat)
    requires NoManifestBefore(air, c0, from, end) && !M.Run(c0, HeardIn(air, from, end)).haveManifest
    ensures NoManifestBefore(air, c0, from, end + 1)
  {
  }

  // ---- what is on disk -----------------------------------------------------------------

  /** A saved partial of any of the payloads is backed by that payload's bytes. */
  predicate StoreBacked(payloads: map<u16, bytes>, crc32: Checksum, f: Files.Files) {
    Files.Load(f).Some? ==>
      var p := Files.Load(f).value;
      forall pid :: pid in payloads && p.meta.crc == crc32(payloads[pid])
                    && p.meta.count == Safety.Count(payloads[pid]) && p.meta.length == |payloads[pid]|
                    ==> Safety.Backed(payloads[pid], p.buf, p.meta.have)
  }

  /** The identity a partial is recognised by tells the payloads apart. */
  predicate Distinct(payloads: map<u16, bytes>, crc32: Checksum) {
    forall a, b :: a in payloads && b in payloads && SameShape(payloads[a], payloads[b], crc32) ==>
      payloads[a] == payloads[b]
  }

  predicate SameShape(p: bytes, q: bytes, crc32: Checksum) {
    |p| == |q| && crc32(p) == crc32(q)
  }

  lemma SavedIsBacked(payloads: map<u16, bytes>, crc32: Checksum, wanted: u16, c: M.Client)
    requires Safety.Carriable(payloads) && Safety.Inv(payloads, crc32, c) && c.haveManifest
    requires Distinct(payloads, crc32)
    ensures var meta := Files.MetaOf(wanted, c.crc, c.count, c.length, c.have);
            StoreBacked(payloads, crc32, Files.Files(Some(c.buf), Some(meta)))
  {
    var claims := Files.MetaOf(wanted, c.crc, c.count, c.length, c.have).have;
    forall i: u16 | i in claims && i < c.count ensures Safety.SlotHolds(c.buf, payloads[c.pid], i) {
      assert i in c.have;
    }
  }

  /** A partial that will be seeded has the bytes of what arrived before it: there is none
      of this identity, nothing has arrived, or the two agree. */
  predicate Fits(c: M.Client, f: Files.Files) {
    Files.Load(f).Some? ==>
      var p := Files.Load(f).value;
      p.meta.crc == c.crc && p.meta.count == c.count && p.meta.length == c.length ==>
        Safety.Agrees(c, p.buf, p.meta.have)
  }

  // ---- one pull ------------------------------------------------------------------------

  /** On a steady air a pull ends in progress, one chunk more at least, or in silence. */
  predicate Gains(c: M.Client, d: M.Client, heard: Heard) {
    && |d.have| >= |c.have| + (if heard == Progress then 1 else 0)
    && heard != ToldToWait
    && (heard == Silence ==> |d.have| == |c.have|)
  }

  lemma BatchKeeps(x: Setting, before: nat, d: M.Client, a: Moment, started: int, t: Timing, after: Moment,
                   heard: Heard, e: M.Client)
    requires Sound(x) && Kept(x, d) && During(x, x.air, a)
    requires (after, heard) == BatchEnd(x.crc32, x.air, before, d, a, started, t)
    requires e == M.Run(d, HeardIn(x.air, a.slot, after.slot))
    ensures Kept(x, e) && During(x, x.air, after) && (x.steady ==> |e.have| >= |d.have|)
    ensures heard == Silence ==> e == d
  {
    HearingKeeps(x, d, a.slot, after.slot);
  }

  lemma AnswerKeeps(x: Setting, asked: M.Client, m: Moment, a: Moment, d: M.Client)
    requires Sound(x) && Kept(x, asked) && During(x, x.air, m) && asked.busyUntil == 0
    requires InTime(x.air, a) && a.slot >= m.slot && d == M.Run(asked, HeardIn(x.air, m.slot, a.slot))
    ensures Kept(x, d) && During(x, x.air, a)
    ensures a == m ==> d == asked
    ensures x.steady ==> d.busyUntil <= a.now && |d.have| >= |asked.have|
  {
    HearingKeeps(x, asked, m.slot, a.slot);
  }

  lemma AnsweredKeeps(x: Setting, c: M.Client, m: Moment, a: Moment, b: M.Client, started: int, t: Timing,
                      after: Moment, heard: Heard, d: M.Client)
    requires Sound(x) && Kept(x, c) && During(x, x.air, m) && c.busyUntil == 0
    requires NotBefore(x.air, m, a) && b == M.Run(c, HeardIn(x.air, m.slot, a.slot))
    requires (after, heard) == BatchEnd(x.crc32, x.air, |c.have|, b, a, started, t)
    requires d == M.Run(b, HeardIn(x.air, a.slot, after.slot))
    ensures Kept(x, d) && During(x, x.air, after)
    ensures after.now == m.now ==> heard == Silence
    ensures heard != NothingToAsk && (x.steady ==> Gains(c, d, heard))
  {
    AnswerKeeps(x, c, m, a, b);
    BatchKeeps(x, |c.have|, b, a, started, t, after, heard, d);
  }

  lemma AskKeeps(x: Setting, nothing: bool, c: M.Client, m: Moment, a: Moment, started: int, t: Timing, after: Moment,
                 heard: Heard, d: M.Client)
    requires Sound(x) && Kept(x, c) && During(x, x.air, m) && c.busyUntil == 0 && NotBefore(x.air, m, a)
    requires (after, heard) == AskEnd(x.crc32, x.air, nothing, c, m, a, started, t)
    requires d == M.Run(c, HeardIn(x.air, m.slot, after.slot))
    ensures Kept(x, d) && During(x, x.air, after)
    ensures heard == NothingToAsk <==> nothing
    ensures after.now == m.now ==> heard == Silence
    ensures x.steady && !nothing ==> Gains(c, d, heard)
  {
    if nothing {
      HearingKeeps(x, c, m.slot, after.slot);
    } else {
      RunOn(x.air, c, m.slot, a.slot, after.slot);
      AnsweredKeeps(x, c, m, a, M.Run(c, HeardIn(x.air, m.slot, a.slot)), started, t, after, heard, d);
    }
  }

  /** Whatever the air brings, a pull keeps what the fetch relies on; and on a steady air,
      if it asks for anything, it ends in progress or in silence. */
  lemma PullKeeps(x: Setting, c: M.Client, m: Moment, started: int, t: Timing, after: Moment, heard: Heard, d: M.Client)
    requires Sound(x) && Kept(x, c) && During(x, x.air, m)
    requires (after, heard) == PullEnd(x.crc32, x.air, c, m, started, t) && d == Pulled(x.air, c, m, after)
    ensures Kept(x, d) && During(x, x.air, after)
    ensures heard == NothingToAsk <==> M.NextPull(c, t.batch).None?
    ensures after.now == m.now ==> heard == Silence
    ensures x.steady && heard != NothingToAsk ==> Gains(c, d, heard)
  {
    assert Kept(x, Asking(c));
    AskKeeps(x, M.NextPull(c, t.batch).None?, Asking(c), m, AnswerEnd(x.crc32, x.air, Asking(c), m, started, t),
             started, t, after, heard, d);
  }

  // ---- the budget of pulls ----------------------------------------------------------------

  /** Twelve pulls at most for every chunk gained so far, plus the silent ones since
      the last gain. */
  predicate WithinBudget(c0: M.Client, c: M.Client, pulls: nat, idle: nat) {
    && pulls <= MAX_IDLE * (|c.have| - |c0.have|) + idle
    && (|c.have| == c.count ==> idle == 0)
  }

  lemma NothingToAskIsComplete(c: M.Client, batch: int)
    requires c.haveManifest && !c.gone && c.have <= Below(c.count) && c.count > 0
    ensures M.NextPull(c, batch).None? ==> M.Complete(c)
  {
    if M.FirstGap(c.have, 0, c.count) == c.count {
      M.FirstGapIsGap(c.have, 0, c.count);
      assert c.have == Below(c.count);
      FullByCounting(c.have, c.count);
    }
  }

  /** One payload and nothing but its transfer: honest devices, one identity, neither BUSY nor
      GONE, and every pull that is needed answered in full. */
  ghost predicate LosslessAir(payloads: map<u16, bytes>, crc32: Checksum, air: Air, c: M.Client, m: Moment,
                              started: int, t: Timing)
    requires Safety.Carriable(payloads) && ClockRuns(air, air(0).now - 1) && InTime(air, m)
  {
    && HonestAir(payloads, crc32, air, m.slot) && SteadyAir(c, air, m.slot) && NoGoneAir(air, m.slot)
    && Fetches(payloads, crc32, c)
    && Lossless(crc32, air, c, m, started, t, Need(c, t.batch))
  }

  lemma AirIsReliable(x: Setting, c: M.Client, from: nat, end: nat)
    requires Sound(x) && Kept(x, c) && x.lossless && from >= x.from
    ensures Reliable(x.payloads, x.crc32, c, HeardIn(x.air, from, end))
  {
    var heard := HeardIn(x.air, from, end);
    HeardIsFromAir(x.air, from, end);
    forall k | 0 <= k < |heard|
      ensures Safety.Honest(x.payloads, x.crc32, heard[k].frame) && NotGone(heard[k].frame)
    {
      assert heard[k] in heard;
    }
  }

  /** Where a lossless transfer stands: pulls made and pulls needed add up. */
  ghost predicate OnSchedule(x: Setting, c: M.Client, m: Moment, started: int, t: Timing, pulls: nat)
    requires Sound(x) && During(x, x.air, m)
  {
    && Fetches(x.payloads, x.crc32, c) && pulls + Need(c, t.batch) == Need(x.c0, t.batch)
    && Lossless(x.crc32, x.air, c, m, started, t, Need(c, t.batch))
  }

  /** Each pull moves it on by one. */
  lemma PullOnSchedule(x: Setting, c: M.Client, m: Moment, started: int, t: Timing, pulls: nat,
                       after: Moment, d: M.Client, heard: seq<M.Arrival>, k: nat)
    requires Sound(x) && Kept(x, c) && x.lossless && During(x, x.air, m) && During(x, x.air, after)
    requires Fetches(x.payloads, x.crc32, c) && !M.Complete(c)
    requires k == Need(c, t.batch) && pulls + k == Need(x.c0, t.batch) && Lossless(x.crc32, x.air, c, m, started, t, k)
    requires after == PullEnd(x.crc32, x.air, c, m, started, t).0 && heard == HeardIn(x.air, m.slot, after.slot)
    requires d == Pulled(x.air, c, m, after)
    ensures OnSchedule(x, d, after, started, t, pulls + 1) && |d.have| > |c.have|
  {
    NeedIsMissing(x.payloads, x.crc32, c, t.batch);
    FirstOfLossless(x.crc32, x.air, c, m, started, t, k, after, heard);
    AirIsReliable(x, c, m.slot, after.slot);
    HeardSavesOne(x.payloads, x.crc32, c, t.batch, heard, d);
  }

  lemma BudgetHolds(x: Setting, c: M.Client, pulls: nat, idle: nat)
    requires Sound(x) && Kept(x, c) && x.steady && WithinBudget(x.c0, c, pulls, idle) && idle <= MAX_IDLE
    ensures pulls <= MAX_IDLE * (x.c0.count - |x.c0.have|)
  {
  }

  /** How one pull moves the counters of the loop. */
  function Pulls(pulls: nat, heard: Heard): nat {
    if heard == NothingToAsk then pulls else pulls + 1
  }

  function Idle(idle: nat, heard: Heard): nat {
    if heard == Silence then idle + 1 else if heard == NothingToAsk then idle else 0
  }

  /** On a steady air the budget covers every pull. */
  lemma PullWithinBudget(x: Setting, c: M.Client, t: Timing, pulls: nat, idle: nat, heard: Heard, d: M.Client)
    requires Sound(x) && Kept(x, c) && Kept(x, d) && x.steady && WithinBudget(x.c0, c, pulls, idle)
    requires !c.gone && !M.Complete(c) && idle < MAX_IDLE
    requires heard == NothingToAsk <==> M.NextPull(c, t.batch).None?
    requires heard != NothingToAsk ==> Gains(c, d, heard)
    ensures WithinBudget(x.c0, d, Pulls(pulls, heard), Idle(idle, heard)) && heard != NothingToAsk
  {
    FullByCounting(c.have, c.count);
    NothingToAskIsComplete(c, t.batch);
  }
}
