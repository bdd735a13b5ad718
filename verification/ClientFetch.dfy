/** The loop that drives a pull transfer (clients/node/index.js, Client.fetch): ask,
    wait for the answer, let the batch land, save, give up after twelve silent
    windows. */
module ClientFetch {
  import opened Wire
  import opened Ether
  import opened IdSets
  import Codec = PullCodec
  import M = PullModel
  import Safety = PullSafety
  import C = ChunkClient
  import Files = PartialStore
  import opened FetchModel
  import opened FetchCount
  import opened FetchSafety
  import opened FetchTurns

  // ---- waiting -----------------------------------------------------------------------

  /** Sleep once: the frames of the next slot arrive as they come. */
  method Sleep(c: C.ChunkClient, air: Air, m: Moment) returns (after: Moment)
    requires c.Valid() && ClockRuns(air, air(0).now - 1) && InTime(air, m)
    modifies c, c.buf
    ensures c.Valid() && (c.buf == old(c.buf) || fresh(c.buf))
    ensures after == Later(air, m) && InTime(air, after) && after.now > m.now
    ensures c.State() == M.Run(old(c.State()), HeardIn(air, m.slot, after.slot))
  {
    var frames := air(m.slot).frames;
    for i := 0 to |frames|
      invariant c.Valid() && (c.buf == old(c.buf) || fresh(c.buf))
      invariant c.State() == M.Run(old(c.State()), Arrivals(frames[..i]))
    {
      ghost var a := M.Arrival(Codec.Decode(frames[i].0), frames[i].1);
      c.OnFrame(frames[i].0, frames[i].1);
      M.RunAppend(old(c.State()), Arrivals(frames[..i]), [a]);
      assert [a][1..] == [] && frames[..i + 1][..i] == frames[..i];
    }
    assert frames[..|frames|] == frames;
    HeardOnce(air, m.slot);
    after := Moment(m.slot + 1, air(m.slot).now);
  }

  predicate HasAnswer(c: C.ChunkClient, crc32: Checksum, target: int, now: int)
    requires c.Valid()
    reads c, c.buf
    ensures HasAnswer(c, crc32, target, now) <==> Answered(crc32, c.State(), target, now)
  {
    c.Verified(crc32) || |c.have| >= target || c.busyUntil > now
  }

  /** Part of a wait: the client has heard all slots so far, and the wait ends as it would have. */
  ghost predicate Waiting(crc32: Checksum, air: Air, c0: M.Client, m: Moment, until: int, target: int,
                          c: M.Client, at: Moment)
    requires ClockRuns(air, air(0).now - 1) && InTime(air, m) && InTime(air, at)
  {
    && at.slot >= m.slot && c == M.Run(c0, HeardIn(air, m.slot, at.slot))
    && Await(crc32, air, c, at, until, target) == Await(crc32, air, c0, m, until, target)
  }

  lemma AwaitsOn(crc32: Checksum, air: Air, c: M.Client, at: Moment, until: int, target: int, d: M.Client, next: Moment)
    requires ClockRuns(air, air(0).now - 1) && InTime(air, at) && InTime(air, next)
    requires at.now < until && !Answered(crc32, c, target, at.now)
    requires next == Later(air, at) && d == M.Run(c, HeardIn(air, at.slot, next.slot))
    ensures Await(crc32, air, d, next, until, target) == Await(crc32, air, c, at, until, target)
  {
  }

  lemma WaitsOn(crc32: Checksum, air: Air, c0: M.Client, m: Moment, until: int, target: int, c: M.Client, at: Moment,
                d: M.Client, next: Moment)
    requires ClockRuns(air, air(0).now - 1) && InTime(air, m) && InTime(air, at) && InTime(air, next)
    requires Waiting(crc32, air, c0, m, until, target, c, at)
    requires at.now < until && !Answered(crc32, c, target, at.now)
    requires next == Later(air, at) && d == M.Run(c, HeardIn(air, at.slot, next.slot))
    ensures Waiting(crc32, air, c0, m, until, target, d, next)
  {
    AwaitsOn(crc32, air, c, at, until, target, d, next);
    RunOn(air, c0, m.slot, at.slot, next.slot);
  }

  /** Both waits of the loop: poll until the payload is verified, `target` chunks are
      held, the device said BUSY, or the time is up. */
  method Wait(c: C.ChunkClient, crc32: Checksum, air: Air, m: Moment, until: int, target: int) returns (after: Moment)
    requires c.Valid() && ClockRuns(air, air(0).now - 1) && InTime(air, m)
    modifies c, c.buf
    ensures c.Valid() && (c.buf == old(c.buf) || fresh(c.buf)) && InTime(air, after)
    ensures after == Await(crc32, air, old(c.State()), m, until, target)
    ensures c.State() == M.Run(old(c.State()), HeardIn(air, m.slot, after.slot))
    ensures after.now >= until || Answered(crc32, c.State(), target, after.now)
  {
    ghost var c0 := c.State();
    after := m;
    while after.now < until
      invariant c.Valid() && (c.buf == old(c.buf) || fresh(c.buf)) && InTime(air, after)
      invariant Waiting(crc32, air, c0, m, until, target, c.State(), after)
      decreases until - after.now
    {
      if HasAnswer(c, crc32, target, after.now) {
        return;
      }
      ghost var at, was := after, c.State();
      after := Sleep(c, air, after);
      WaitsOn(crc32, air, c0, m, until, target, was, at, c.State(), after);
    }
  }

  // ---- one pull ------------------------------------------------------------------------

  /** Let the rest of the batch land, and write down what there is. */
  method TakeBatch(wanted: u16, c: C.ChunkClient, store: Files.PartialStore, crc32: Checksum, m: Moment, until: int,
                   target: int, air: Air)
    returns (after: Moment)
    requires c.Valid() && c.haveManifest && ClockRuns(air, air(0).now - 1) && InTime(air, m)
    modifies c, c.buf, store
    ensures c.Valid() && (c.buf == old(c.buf) || fresh(c.buf)) && InTime(air, after)
    ensures after == Await(crc32, air, old(c.State()), m, until, target)
    ensures c.State() == M.Run(old(c.State()), HeardIn(air, m.slot, after.slot))
    ensures WrittenDown(wanted, c.State(), store.State())
  {
    ghost var c0 := c.State();
    after := Wait(c, crc32, air, m, until, target);
    ManifestStays(c0, HeardIn(air, m.slot, after.slot));
    store.SavePartial(Files.MetaOf(wanted, c.crc, c.count, c.length, c.have), c.buf[..]);
  }

  /** See what came of the wait for an answer. */
  method Land(wanted: u16, c: C.ChunkClient, store: Files.PartialStore, crc32: Checksum, a: Moment, before: nat,
              started: int, t: Timing, air: Air)
    returns (after: Moment, heard: Heard)
    requires c.Valid() && c.haveManifest && ClockRuns(air, air(0).now - 1) && InTime(air, a)
    modifies c, c.buf, store
    ensures c.Valid() && (c.buf == old(c.buf) || fresh(c.buf))
    ensures (after, heard) == BatchEnd(crc32, air, before, old(c.State()), a, started, t)
    ensures c.State() == M.Run(old(c.State()), HeardIn(air, a.slot, after.slot))
    ensures if heard == Progress then WrittenDown(wanted, c.State(), store.State())
            else store.State() == old(store.State())
  {
    if c.busyUntil > a.now {
      after := Sleep(c, air, a);
      return after, ToldToWait;
    }
    if |c.have| > before {
      after := TakeBatch(wanted, c, store, crc32, a, BatchBy(a, started, t), before + t.batch, air);
      return after, Progress;
    }
    return a, Silence;
  }

  /** Once something has been asked for: wait for the answer, and let it land. */
  method Pursue(wanted: u16, c: C.ChunkClient, store: Files.PartialStore, crc32: Checksum, m: Moment, started: int,
                t: Timing, air: Air)
    returns (after: Moment, heard: Heard)
    requires c.Valid() && c.haveManifest && ClockRuns(air, air(0).now - 1) && InTime(air, m)
    modifies c, c.buf, store
    ensures c.Valid() && (c.buf == old(c.buf) || fresh(c.buf))
    ensures var a := AnswerEnd(crc32, air, old(c.State()), m, started, t);
            (after, heard) == AskEnd(crc32, air, false, old(c.State()), m, a, started, t)
    ensures c.State() == M.Run(old(c.State()), HeardIn(air, m.slot, after.slot))
    ensures if heard == Progress then WrittenDown(wanted, c.State(), store.State())
            else store.State() == old(store.State())
  {
    var before := |c.have|;
    ghost var c0 := c.State();
    var a := Wait(c, crc32, air, m, AnswerBy(m, started, t), before + 1);
    ManifestStays(c0, HeardIn(air, m.slot, a.slot));
    after, heard := Land(wanted, c, store, crc32, a, before, started, t, air);
    RunOn(air, c0, m.slot, a.slot, after.slot);
  }

  /** One pass of the loop below its checks: ask for the next gap and see what comes of it. */
  method Pull(wanted: u16, c: C.ChunkClient, store: Files.PartialStore, crc32: Checksum, m: Moment, started: int,
              t: Timing, air: Air)
    returns (after: Moment, heard: Heard)
    requires c.Valid() && c.haveManifest && ClockRuns(air, air(0).now - 1) && InTime(air, m)
    modifies c, c.buf, store
    ensures c.Valid() && (c.buf == old(c.buf) || fresh(c.buf))
    ensures (after, heard) == PullEnd(crc32, air, old(c.State()), m, started, t)
    ensures c.State() == Pulled(air, old(c.State()), m, after)
    ensures if heard == Progress then WrittenDown(wanted, c.State(), store.State())
            else store.State() == old(store.State())
  {
    AsksTheSame(c.State(), t.batch);
    c.ClearBusy();
    var pull := c.RequestNext(t.batch);
    if pull.None? {
      after := Sleep(c, air, m);
      heard := NothingToAsk;
    } else {
      after, heard := Pursue(wanted, c, store, crc32, m, started, t, air);
    }
  }

  // ---- the chunk loop -----------------------------------------------------------------

  /** The checks at the head of the loop. */
  method Verdict(c: C.ChunkClient, store: Files.PartialStore, crc32: Checksum) returns (r: Option<Outcome>)
    requires c.Valid()
    modifies store
    ensures match r
            case None => !c.gone && !c.Complete()
            case Some(Gone) => c.gone
            case Some(Returned(payload)) => !c.gone && c.Verified(crc32) && payload == c.State().buf
            case Some(CrcFailed) => !c.gone && c.Complete() && !c.Verified(crc32)
            case _ => false
    ensures store.State() == if r.None? || r.value == CrcFailed then old(store.State()) else Files.NOTHING
  {
    if c.gone {
      store.ClearPartial();
      return Some(Gone);
    }
    if c.Verified(crc32) {
      store.ClearPartial();
      return Some(Returned(c.buf[..]));
    }
    if c.Complete() {
      return Some(CrcFailed);
    }
    return None;
  }

  /** One pass of the loop: the checks, and if they pass, one pull. */
  method Turn(wanted: u16, c: C.ChunkClient, store: Files.PartialStore, crc32: Checksum, m: Moment, started: int,
              t: Timing, air: Air, ghost w: Start, ghost n: nat, ghost pulls: nat, ghost idle: nat,
              ghost f: Files.Files)
    returns (verdict: Option<Outcome>, after: Moment, heard: Heard)
    requires c.Valid() && c.haveManifest && OnTime(w) && InTime(air, m)
    requires w == Start(crc32, air, w.c, w.m, started, t)
    requires Traced(w, n, c.State(), m, pulls, idle) && idle < MAX_IDLE && m.now - started < t.hardMs
    requires store.State() == StoreAfter(w, wanted, f, n)
    modifies c, c.buf, store
    ensures c.Valid() && c.haveManifest && (c.buf == old(c.buf) || fresh(c.buf)) && InTime(air, after)
    ensures verdict.Some? ==>
              && Ends(w, n, verdict.value, c.State(), pulls) && after == m
              && store.State() == StoreAtEnd(w, wanted, f, n, verdict.value)
    ensures verdict.None? ==>
              && Traced(w, n + 1, c.State(), after, Pulls(pulls, heard), Idle(idle, heard))
              && store.State() == StoreAfter(w, wanted, f, n + 1)
              && after.now >= m.now && (after.now == m.now ==> heard == Silence)
  {
    ghost var c0 := c.State();
    after, heard := m, Silence;
    verdict := Verdict(c, store, crc32);
    if verdict.None? {
      after, heard := Pull(wanted, c, store, crc32, m, started, t, air);
      PullTakesTime(crc32, air, c0, m, started, t);
      TraceOn(w, n, c0, m, pulls, idle, after, heard, c.State());
    } else {
      DecidedEnds(w, n, c0, m, pulls, idle, verdict.value);
    }
  }

  /** The same with the count of silent pulls, of which twelve in a row end the loop. */
  method CountedTurn(wanted: u16, c: C.ChunkClient, store: Files.PartialStore, crc32: Checksum, m: Moment, started: int,
                     t: Timing, air: Air, idle: nat, ghost w: Start, ghost n: nat, ghost pulls: nat, ghost f: Files.Files)
    returns (end: Option<Outcome>, after: Moment, silent: nat, ghost turns: nat, ghost made: nat)
    requires c.Valid() && c.haveManifest && OnTime(w) && InTime(air, m)
    requires w == Start(crc32, air, w.c, w.m, started, t)
    requires Traced(w, n, c.State(), m, pulls, idle) && idle < MAX_IDLE && m.now - started < t.hardMs
    requires store.State() == StoreAfter(w, wanted, f, n)
    modifies c, c.buf, store
    ensures c.Valid() && c.haveManifest && (c.buf == old(c.buf) || fresh(c.buf)) && InTime(air, after)
    ensures end.Some? ==>
              Ends(w, turns, end.value, c.State(), made) && store.State() == StoreAtEnd(w, wanted, f, turns, end.value)
    ensures end.None? ==>
              && Traced(w, turns, c.State(), after, made, silent) && silent < MAX_IDLE
              && store.State() == StoreAfter(w, wanted, f, turns)
              && after.now >= m.now && (after.now > m.now || silent > idle)
  {
    var heard;
    end, after, heard := Turn(wanted, c, store, crc32, m, started, t, air, w, n, pulls, idle, f);
    silent, turns, made := idle, n, pulls;
    if end.Some? {
      return;
    }
    turns, made := n + 1, Pulls(pulls, heard);
    if heard == NothingToAsk {
      return;
    }
    if heard == Silence {
      silent := idle + 1;
      if silent >= MAX_IDLE {
        StalledEnds(w, turns, c.State(), after, made, silent);
        end := Some(Stalled);
      }
    } else {
      silent := 0;
    }
  }

  /** The chunk loop: it ends on any air whatsoever, after the turns that FetchTurns gives. */
  method ChunkLoop(wanted: u16, c: C.ChunkClient, store: Files.PartialStore, crc32: Checksum, m: Moment, started: int,
                   t: Timing, air: Air, ghost w: Start)
    returns (r: Outcome, ghost pulls: nat, ghost turns: nat)
    requires c.Valid() && c.haveManifest && OnTime(w) && w == Start(crc32, air, c.State(), m, started, t)
    modifies c, c.buf, store
    ensures c.Valid() && Ends(w, turns, r, c.State(), pulls)
    ensures store.State() == StoreAtEnd(w, wanted, old(store.State()), turns, r)
  {
    var idle: nat, at := 0, m;
    pulls, turns := 0, 0;
    ghost var f := store.State();
    while at.now - started < t.hardMs
      invariant c.Valid() && c.haveManifest && (c.buf == old(c.buf) || fresh(c.buf)) && InTime(air, at)
      invariant Traced(w, turns, c.State(), at, pulls, idle) && idle < MAX_IDLE
      invariant store.State() == StoreAfter(w, wanted, f, turns)
      decreases started + t.hardMs - at.now, MAX_IDLE - idle
    {
      var end;
      end, at, idle, turns, pulls := CountedTurn(wanted, c, store, crc32, at, started, t, air, idle, w, turns, pulls, f);
      if end.Some? {
        return end.value, pulls, turns;
      }
    }
    DecidedEnds(w, turns, c.State(), at, pulls, idle, TimedOut);
    return TimedOut, pulls, turns;
  }

  /** The chunk loop in the world. What it returns matches the
      announced checksum. Honest devices: it is the payload of the pid the client is
      on, a checksum failure cannot happen, and what is left on disk is backed. One
      identity and no BUSY from here on: at most twelve pulls for every chunk that was
      missing. No GONE either, and every pull answered in full while it waits: the
      payload, after exactly the number of pulls that the missing runs need. Only
      announcements of the pid that was asked for: the client is on it. */
  method FetchChunks(wanted: u16, c: C.ChunkClient, store: Files.PartialStore, crc32: Checksum, air: Air,
                     m: Moment, started: int, t: Timing, ghost payloads: map<u16, bytes>)
    returns (r: Outcome, ghost pulls: nat, ghost turns: nat)
    requires c.Valid() && c.haveManifest && Safety.Carriable(payloads)
    requires ClockRuns(air, air(0).now - 1) && InTime(air, m)
    modifies c, c.buf, store
    ensures c.Valid() && c.haveManifest
    ensures var w := Start(crc32, air, old(c.State()), m, started, t);
            && Ends(w, turns, r, c.State(), pulls)
            && store.State() == StoreAtEnd(w, wanted, old(store.State()), turns, r)
    ensures r.Returned? ==> c.buf != null && r.payload == c.buf[..] && crc32(r.payload) == c.crc
    ensures HonestAir(payloads, crc32, air, m.slot) && old(Safety.Inv(payloads, crc32, c.State())) ==>
              && Safety.Inv(payloads, crc32, c.State())
              && r != CrcFailed
              && (r.Returned? ==> c.pid in payloads && r.payload == payloads[c.pid])
              && (Distinct(payloads, crc32) && old(StoreBacked(payloads, crc32, store.State())) ==>
                    StoreBacked(payloads, crc32, store.State()))
    ensures SteadyAir(old(c.State()), air, m.slot) && old(c.count > 0 && c.have <= Below(c.count)) ==>
              && c.pid == old(c.pid)
              && pulls <= MAX_IDLE * (old(c.count) - old(|c.have|))
    ensures LosslessAir(payloads, crc32, air, old(c.State()), m, started, t) ==>
              r == Returned(payloads[old(c.pid)]) && pulls == Need(old(c.State()), t.batch)
    ensures WantedAir(wanted, air, m.slot) && old(c.pid) == wanted ==> c.pid == wanted
    ensures r == Gone || r.Returned? ==> store.State() == Files.NOTHING
  {
    ghost var f := store.State();
    ghost var w := Start(crc32, air, c.State(), m, started, t);
    r, pulls, turns := ChunkLoop(wanted, c, store, crc32, m, started, t, air, w);
    EndsRightInWorld(wanted, payloads, w, turns, r, c.State(), pulls, f, store.State());
  }

  // ---- the whole fetch ---------------------------------------------------------------

  /** The requests go out first at `m`, and again in the first slot that begins 20 s or more
      after the last one had been sent, while no more than `timeoutMs` has passed. */
  ghost predicate AsksOnTime(air: Air, m: Moment, asks: seq<nat>, timeoutMs: int) {
    && (asks != [] ==> asks[0] == m.slot)
    && (forall i :: 0 <= i < |asks| ==> SlotStart(air, m, asks[i]).now - m.now <= timeoutMs)
    && (forall i :: 1 <= i < |asks| ==> NextAsk(air, m, asks[i - 1], asks[i]))
  }

  ghost predicate NextAsk(air: Air, m: Moment, ask: nat, slot: nat) {
    Unanswered(air, m, ask, slot) && SlotStart(air, m, slot).now >= air(ask).now + 20000
  }

  /** Up to this slot the last request was not 20 s old. */
  ghost predicate Unanswered(air: Air, m: Moment, ask: nat, slot: nat) {
    ask < slot && forall k: nat :: ask < k < slot ==> SlotStart(air, m, k).now < air(ask).now + 20000
  }

  /** When the asking is over: before another request is due if there is a manifest, and
      otherwise when one would be. */
  ghost predicate AskedUntil(air: Air, m: Moment, asks: seq<nat>, announced: bool, after: Moment) {
    if asks == [] then after == m
    else if announced then Unanswered(air, m, asks[|asks| - 1], after.slot)
    else NextAsk(air, m, asks[|asks| - 1], after.slot)
  }

  lemma AskOn(air: Air, m: Moment, asks: seq<nat>, at: Moment, timeoutMs: int)
    requires AsksOnTime(air, m, asks, timeoutMs) && AskedUntil(air, m, asks, false, at)
    requires at == SlotStart(air, m, at.slot) && at.now - m.now <= timeoutMs
    ensures AsksOnTime(air, m, asks + [at.slot], timeoutMs)
  {
  }

  /** After a request: poll until there is a manifest or 20 s are over. */
  method Settle(c: C.ChunkClient, air: Air, m: Moment, ask: Moment, ghost c0: M.Client) returns (after: Moment)
    requires c.Valid() && ClockRuns(air, air(0).now - 1) && InTime(air, ask) && !c.haveManifest
    requires Expecting(air, c0, m, c.State(), ask)
    modifies c, c.buf
    ensures c.Valid() && (c.buf == old(c.buf) || fresh(c.buf)) && InTime(air, after) && after.now > ask.now
    ensures Expecting(air, c0, m, c.State(), after)
    ensures Unanswered(air, m, ask.slot, after.slot)
    ensures c.haveManifest || NextAsk(air, m, ask.slot, after.slot)
  {
    ghost var was, at := c.State(), ask;
    after := Sleep(c, air, ask); // the request itself is awaited
    ExpectsOn(air, c0, m, was, at, c.State(), after);
    var asked := after.now;
    while after.now < asked + 20000 && !c.haveManifest
      invariant c.Valid() && (c.buf == old(c.buf) || fresh(c.buf)) && InTime(air, after)
      invariant Expecting(air, c0, m, c.State(), after)
      invariant after.now >= asked && Unanswered(air, m, ask.slot, after.slot)
      decreases asked + 20000 - after.now
    {
      was, at := c.State(), after;
      after := Sleep(c, air, after);
      ExpectsOn(air, c0, m, was, at, c.State(), after);
    }
  }

  /** Ask for the manifest until it is here or the time is up, which is looked at only when
      the next request is due. */
  method AwaitManifest(c: C.ChunkClient, air: Air, m: Moment, timeoutMs: int)
    returns (after: Moment, ghost asks: seq<nat>)
    requires c.Valid() && ClockRuns(air, air(0).now - 1) && InTime(air, m)
    modifies c, c.buf
    ensures c.Valid() && (c.buf == old(c.buf) || fresh(c.buf)) && InTime(air, after)
    ensures Expecting(air, old(c.State()), m, c.State(), after)
    ensures c.haveManifest || after.now - m.now > timeoutMs
    ensures AsksOnTime(air, m, asks, timeoutMs) && AskedUntil(air, m, asks, c.haveManifest, after)
  {
    ghost var c0 := c.State();
    after, asks := m, [];
    while !c.haveManifest && after.now - m.now <= timeoutMs
      invariant c.Valid() && (c.buf == old(c.buf) || fresh(c.buf)) && InTime(air, after)
      invariant Expecting(air, c0, m, c.State(), after)
      invariant AsksOnTime(air, m, asks, timeoutMs) && AskedUntil(air, m, asks, c.haveManifest, after)
      decreases m.now + timeoutMs - after.now
    {
      AskOn(air, m, asks, after, timeoutMs);
      asks := asks + [after.slot];
      after := Settle(c, air, m, after, c0);
    }
  }

  /** Install what an earlier fetch of this exact payload saved; discard the partial
      of another payload. With a backed store this keeps the invariant exactly when the
      partial fits. */
  method Resume(c: C.ChunkClient, store: Files.PartialStore, crc32: Checksum, ghost payloads: map<u16, bytes>)
    requires c.Valid() && c.haveManifest && Safety.Carriable(payloads)
    modifies c, c.buf, store
    ensures c.Valid() && c.haveManifest && c.buf == old(c.buf)
    ensures Resumed(old(c.State()), old(store.State()), c.State())
    ensures store.State() == FilesAfterResume(old(c.State()), old(store.State()))
    ensures old(Safety.Inv(payloads, crc32, c.State()) && StoreBacked(payloads, crc32, store.State())) ==>
              (Safety.Inv(payloads, crc32, c.State()) <==> old(Fits(c.State(), store.State())))
  {
    var prior := store.LoadPartial();
    if prior.Some? {
      var meta := prior.value.meta;
      if meta.crc == c.crc && meta.count == c.count && meta.length == c.length {
        if Safety.Inv(payloads, crc32, c.State()) && StoreBacked(payloads, crc32, store.State()) {
          Safety.SeedKeepsInvIff(payloads, crc32, c.State(), prior.value.buf, meta.have);
        }
        var ok := c.Seed(prior.value.buf, meta.have);
      } else {
        store.ClearPartial();
      }
    }
  }

  /** Nothing heard so far announces a payload. */
  predicate Unannounced(heard: seq<M.Arrival>) {
    forall k :: 0 <= k < |heard| ==> heard[k].frame.Some? ==> !heard[k].frame.value.Manifest?
  }

  lemma {:induction false} AnnouncedOrNot(c: M.Client, heard: seq<M.Arrival>)
    ensures M.Run(c, heard).haveManifest <==> c.haveManifest || !Unannounced(heard)
    decreases |heard|
  {
    if heard != [] {
      AnnouncedOrNot(M.OnFrame(c, heard[0].frame, heard[0].at), heard[1..]);
      assert heard == [heard[0]] + heard[1..];
    }
  }

  lemma HonestFromTheStart(payloads: map<u16, bytes>, crc32: Checksum, wanted: u16, air: Air, slot: nat,
                           before: M.Client)
    requires Safety.Carriable(payloads) && before == M.Run(M.FRESH, HeardIn(air, 0, slot))
    ensures HonestAir(payloads, crc32, air, 0) ==>
              HonestAir(payloads, crc32, air, slot) && Safety.Inv(payloads, crc32, before)
    ensures WantedAir(wanted, air, 0) ==> WantedAir(wanted, air, slot) && OnWanted(wanted, before)
  {
    WaitingKeeps(payloads, crc32, wanted, air, M.FRESH, 0, slot);
  }

  /** What follows for the whole fetch, if `start` is the client at slot `m.slot` with the
      partial of `f0` seeded, and `f` is what the files hold then. */
  lemma FetchIsRight(wanted: u16, payloads: map<u16, bytes>, w: Start, n: nat, r: Outcome, c: M.Client, pulls: nat,
                     before: M.Client, f0: Files.Files, f: Files.Files, g: Files.Files)
    requires Safety.Carriable(payloads) && OnTime(w) && before.haveManifest
    requires w.c == before.(have := w.c.have, buf := w.c.buf)
    requires Ends(w, n, r, c, pulls) && g == StoreAtEnd(w, wanted, f, n, r) && (f == f0 || f == Files.NOTHING)
    requires before == M.Run(M.FRESH, HeardIn(w.air, 0, w.m.slot))
    requires Safety.Inv(payloads, w.crc32, before) && StoreBacked(payloads, w.crc32, f0) && Fits(before, f0) ==>
               Safety.Inv(payloads, w.crc32, w.c)
    ensures r.Returned? ==> M.Verified(w.crc32, c) && r.payload == c.buf
    ensures LosslessAir(payloads, w.crc32, w.air, w.c, w.m, w.started, w.t) ==>
              r == Returned(payloads[w.c.pid]) && pulls == Need(w.c, w.t.batch)
    ensures HonestAir(payloads, w.crc32, w.air, 0) && StoreBacked(payloads, w.crc32, f0) && Fits(before, f0) ==>
              && r != CrcFailed && (r.Returned? ==> c.pid in payloads && r.payload == payloads[c.pid])
              && (Distinct(payloads, w.crc32) ==> StoreBacked(payloads, w.crc32, g))
    ensures WantedAir(wanted, w.air, 0) ==> OnWanted(wanted, c) && (r.Returned? ==> c.pid == wanted)
  {
    HonestFromTheStart(payloads, w.crc32, wanted, w.air, w.m.slot, before);
    EndsRightInWorld(wanted, payloads, w, n, r, c, pulls, f, g);
  }

  /** fetch(): manifest, resume, chunks. It ends on any air: without a manifest only if none
      was heard and the time was up; otherwise after turns of the chunk loop that start from
      all that was heard and all that was saved. Against honest devices,
      with a store whose partial is backed and fits what arrived before it was loaded, it returns
      the payload of the pid the client ended on, or an error that is not CRC, and it
      leaves a store that is backed for the next fetch; on an air that answers every pull, it
      returns it after exactly the pulls that the rest needs. If every announcement on the air
      carries the pid that was asked for, that is the pid. */
  method Fetch(wanted: u16, store: Files.PartialStore, crc32: Checksum, air: Air, t0: int, timeoutMs: int,
               t: Timing, ghost payloads: map<u16, bytes>)
    returns (r: Outcome, c: C.ChunkClient, ghost asks: seq<nat>, ghost slots: nat, ghost start: M.Client,
             ghost pulls: nat, ghost turns: nat)
    requires Safety.Carriable(payloads) && ClockRuns(air, t0) && t0 >= 0
    modifies store
    ensures fresh(c) && c.Valid()
    ensures NoManifestBefore(air, M.FRESH, 0, slots) && InTime(air, SlotStart(air, Moment(0, t0), slots))
    ensures AsksOnTime(air, Moment(0, t0), asks, timeoutMs)
    ensures AskedUntil(air, Moment(0, t0), asks, r != NoManifest, SlotStart(air, Moment(0, t0), slots))
    ensures r == NoManifest <==> Unannounced(HeardIn(air, 0, slots))
    ensures r == NoManifest ==> SlotStart(air, Moment(0, t0), slots).now - t0 > timeoutMs
    ensures r != NoManifest ==>
              var w := Start(crc32, air, start, SlotStart(air, Moment(0, t0), slots), t0, t);
              && Resumed(M.Run(M.FRESH, HeardIn(air, 0, slots)), old(store.State()), start)
              && Ends(w, turns, r, c.State(), pulls)
    ensures var heard := M.Run(M.FRESH, HeardIn(air, 0, slots));
            if r == NoManifest then store.State() == old(store.State())
            else
              var w := Start(crc32, air, start, SlotStart(air, Moment(0, t0), slots), t0, t);
              store.State() == StoreAtEnd(w, wanted, FilesAfterResume(heard, old(store.State())), turns, r)
    ensures r != NoManifest && LosslessAir(payloads, crc32, air, start, SlotStart(air, Moment(0, t0), slots), t0, t) ==>
              r == Returned(payloads[start.pid]) && pulls == Need(start, t.batch)
    ensures r != NoManifest && SteadyAir(start, air, slots) && start.count > 0 && start.have <= Below(start.count) ==>
              c.pid == start.pid && pulls <= MAX_IDLE * (start.count - |start.have|)
    ensures r == Gone || r.Returned? ==> store.State() == Files.NOTHING
    ensures r.Returned? ==> c.buf != null && r.payload == c.buf[..] && crc32(r.payload) == c.crc
    ensures HonestAir(payloads, crc32, air, 0) && old(StoreBacked(payloads, crc32, store.State()))
            && Fits(M.Run(M.FRESH, HeardIn(air, 0, slots)), old(store.State())) ==>
              && r != CrcFailed && (r.Returned? ==> c.pid in payloads && r.payload == payloads[c.pid])
              && (Distinct(payloads, crc32) ==> StoreBacked(payloads, crc32, store.State()))
    ensures WantedAir(wanted, air, 0) ==> OnWanted(wanted, c.State()) && (r.Returned? ==> c.pid == wanted)
  {
    c := new C.ChunkClient();
    var m;
    ghost var f0 := store.State();
    m, asks := AwaitManifest(c, air, Moment(0, t0), timeoutMs);
    ghost var before := c.State();
    HonestFromTheStart(payloads, crc32, wanted, air, m.slot, before);
    AnnouncedOrNot(M.FRESH, HeardIn(air, 0, m.slot));
    slots, start, pulls, turns := m.slot, before, 0, 0;
    if !c.haveManifest {
      r := NoManifest;
      return;
    }
    Resume(c, store, crc32, payloads);
    start := c.State();
    ghost var w, f := Start(crc32, air, start, m, t0, t), store.State();
    r, pulls, turns := FetchChunks(wanted, c, store, crc32, air, m, t0, t, payloads);
    FetchIsRight(wanted, payloads, w, turns, r, c.State(), pulls, before, f0, f, store.State());
  }
}
