/** How long a pull waits (clients/node/index.js:404-446), slot by slot: for the answer, and
    after the first chunk for the rest of the batch. */
module FetchWaits {
  import opened Wire
  import opened Ether
  import M = PullModel
  import opened FetchModel
  import opened FetchSafety

  /** A wait that began at `m` has no reason to go on at the start of this slot: the time is up,
      the payload is verified, there are `target` chunks, or a BUSY is in force. */
  ghost predicate OverAt(crc32: Checksum, air: Air, c: M.Client, m: Moment, until: int, target: int, slot: nat) {
    var d, now := M.Run(c, HeardIn(air, m.slot, slot)), SlotStart(air, m, slot).now;
    now >= until || M.Verified(crc32, d) || |d.have| >= target || d.busyUntil > now
  }

  /** The wait ends at the start of the first such slot. */
  ghost predicate EndsFirst(crc32: Checksum, air: Air, c: M.Client, m: Moment, until: int, target: int, after: Moment) {
    && after.slot >= m.slot && after == SlotStart(air, m, after.slot)
    && OverAt(crc32, air, c, m, until, target, after.slot)
    && forall k: nat :: m.slot <= k < after.slot ==> !OverAt(crc32, air, c, m, until, target, k)
  }

  lemma LaterOver(crc32: Checksum, air: Air, c: M.Client, m: Moment, until: int, target: int, d: M.Client,
                  next: Moment, k: nat)
    requires next == Later(air, m) && d == M.Run(c, HeardIn(air, m.slot, next.slot)) && k >= next.slot
    ensures OverAt(crc32, air, d, next, until, target, k) <==> OverAt(crc32, air, c, m, until, target, k)
  {
    RunOn(air, c, m.slot, next.slot, k);
  }

  lemma {:induction false} WaitEnds(crc32: Checksum, air: Air, c: M.Client, m: Moment, until: int, target: int)
    returns (after: Moment)
    requires ClockRuns(air, air(0).now - 1) && InTime(air, m)
    ensures after == Await(crc32, air, c, m, until, target)
    ensures EndsFirst(crc32, air, c, m, until, target, after)
    decreases Max(0, until - m.now)
  {
    assert HeardIn(air, m.slot, m.slot) == [];
    if m.now >= until || Answered(crc32, c, target, m.now) {
      after := m;
    } else {
      var next := Later(air, m);
      var d := M.Run(c, HeardIn(air, m.slot, next.slot));
      after := WaitEnds(crc32, air, d, next, until, target);
      LaterOver(crc32, air, c, m, until, target, d, next, after.slot);
      forall k: nat | m.slot <= k < after.slot ensures !OverAt(crc32, air, c, m, until, target, k) {
        if k > m.slot {
          LaterOver(crc32, air, c, m, until, target, d, next, k);
        }
      }
    }
  }

  /** What a pull that asked at `m` comes to, once its answer has been waited for until `a`:
      a BUSY in force is obeyed for one sleep, and that before anything else; a chunk more than
      there were means progress, and the rest of the batch is waited for, counted from before the
      pull; otherwise it was silence, and no time is lost. */
  ghost predicate Lands(crc32: Checksum, air: Air, before: nat, d: M.Client, a: Moment, started: int, t: Timing,
                        after: Moment, heard: Heard) {
    match heard
    case ToldToWait => d.busyUntil > a.now && after.slot == a.slot + 1 && after.now == air(a.slot).now
    case Progress =>
      && d.busyUntil <= a.now && |d.have| > before
      && EndsFirst(crc32, air, d, a, Min(a.now + t.batchMs, started + t.hardMs), before + t.batch, after)
    case Silence => d.busyUntil <= a.now && |d.have| <= before && after == a
    case NothingToAsk => false
  }

  lemma BatchLands(crc32: Checksum, air: Air, before: nat, d: M.Client, a: Moment, started: int, t: Timing,
                   after: Moment, heard: Heard)
    requires ClockRuns(air, air(0).now - 1) && InTime(air, a)
    requires (after, heard) == BatchEnd(crc32, air, before, d, a, started, t)
    ensures Lands(crc32, air, before, d, a, started, t, after, heard)
  {
    if d.busyUntil <= a.now && |d.have| > before {
      var b := WaitEnds(crc32, air, d, a, BatchBy(a, started, t), before + t.batch);
    }
  }

  /** On any air and from any client: a pull with nothing to ask for is one sleep. Any other first
      waits until the first slot at which answerMs or the whole fetch is over, the payload is
      verified, one more chunk is held than before, or a BUSY later than the request is in force. */
  lemma PullWaits(crc32: Checksum, air: Air, c: M.Client, m: Moment, started: int, t: Timing, after: Moment, heard: Heard)
    returns (a: Moment)
    requires ClockRuns(air, air(0).now - 1) && InTime(air, m)
    requires (after, heard) == PullEnd(crc32, air, c, m, started, t)
    ensures if M.NextPull(c, t.batch).None? then
              heard == NothingToAsk && after.slot == m.slot + 1 && after.now == air(m.slot).now
            else
              var asking := c.(busyUntil := 0);
              && EndsFirst(crc32, air, asking, m, Min(m.now + t.answerMs, started + t.hardMs), |c.have| + 1, a)
              && Lands(crc32, air, |c.have|, M.Run(asking, HeardIn(air, m.slot, a.slot)), a, started, t, after, heard)
  {
    a := m;
    if M.NextPull(c, t.batch).Some? {
      a := WaitEnds(crc32, air, Asking(c), m, AnswerBy(m, started, t), |c.have| + 1);
      assert a == AnswerEnd(crc32, air, Asking(c), m, started, t);
      BatchLands(crc32, air, |c.have|, M.Run(Asking(c), HeardIn(air, m.slot, a.slot)), a, started, t, after, heard);
    }
  }
}
