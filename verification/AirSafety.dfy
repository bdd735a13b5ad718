/** The bucket rings refine the event log: each live bucket holds exactly its slot's
    airtime, however many slots were skipped and even across a wrap of the clock. */
module AirSafety {
  import opened Wire
  import opened Word32
  import opened AirModel

  /** Airtime booked in a slot. */
  datatype Entry = Entry(slot: nat, ms: nat)

  function LastSlot(log: seq<Entry>): nat {
    if log == [] then 0 else log[|log| - 1].slot
  }

  /** The part of the log the ring stands for: everything since the clock last jumped
      back to an earlier slot. On a clock that does not wrap, that is everything. */
  function Live(log: seq<Entry>): seq<Entry> {
    if log == [] then []
    else
      var n := |log| - 1;
      if log[n].slot < LastSlot(log[..n]) then [log[n]] else Live(log[..n]) + [log[n]]
  }

  function SlotTotal(log: seq<Entry>, slot: int): nat {
    if log == [] then 0
    else SlotTotal(log[..|log| - 1], slot) + (if log[|log| - 1].slot == slot then log[|log| - 1].ms else 0)
  }

  /** All airtime booked in the `n` slots up to and including `last`. */
  function WindowTotal(log: seq<Entry>, last: int, n: nat): nat
    decreases n
  {
    if n == 0 then 0 else WindowTotal(log, last - 1, n - 1) + SlotTotal(log, last)
  }

  predicate NoneAfter(log: seq<Entry>, epoch: int) {
    forall k :: 0 <= k < |log| ==> log[k].slot <= epoch
  }

  /** Each of the last N slots has its total, modulo 2^32, in its bucket. */
  ghost predicate Refines(buckets: seq<u32>, epoch: int, log: seq<Entry>)
    requires |buckets| > 0
  {
    NoneAfter(log, epoch)
    && forall s: int {:trigger SlotTotal(log, s)} :: epoch - |buckets| < s <= epoch ==> buckets[s % |buckets|] == SlotTotal(log, s) % WRAP
  }

  // ---- slots ------------------------------------------------------------------------------

  lemma ModApart(s: int, t: int, n: nat)
    requires n > 0 && s < t < s + n
    ensures s % n != t % n
  {
    if s % n == t % n {
      var p, q := s / n, t / n;
      assert t - s == (q - p) * n;
      if q - p >= 1 {
        MulMonotone(1, q - p, n);
      } else {
        MulMonotone(q - p, 0, n);
      }
    }
  }

  lemma {:induction false} NothingAfter(log: seq<Entry>, slot: int)
    requires forall k :: 0 <= k < |log| ==> log[k].slot != slot
    ensures SlotTotal(log, slot) == 0
    decreases |log|
  {
    if log != [] {
      NothingAfter(log[..|log| - 1], slot);
    }
  }

  // ---- rotating -----------------------------------------------------------------------------

  lemma RotateOne(buckets: seq<u32>, epoch: int, log: seq<Entry>)
    requires |buckets| > 0 && Refines(buckets, epoch, log)
    ensures Refines(buckets[(epoch + 1) % |buckets| := 0], epoch + 1, log)
  {
    var n := |buckets|;
    var after := buckets[(epoch + 1) % n := 0];
    forall s: int | epoch + 1 - n < s <= epoch + 1 ensures after[s % n] == SlotTotal(log, s) % WRAP {
      if s == epoch + 1 {
        NothingAfter(log, s);
      } else {
        ModApart(s, epoch + 1, n);
      }
    }
  }

  lemma {:induction false} RotateSome(buckets: seq<u32>, epoch: nat, k: nat, log: seq<Entry>)
    requires |buckets| > 0 && Refines(buckets, epoch, log)
    ensures Refines(ZeroNext(buckets, epoch, k), epoch + k, log)
    decreases k
  {
    if k > 0 {
      RotateSome(buckets, epoch, k - 1, log);
      RotateOne(ZeroNext(buckets, epoch, k - 1), epoch + k - 1, log);
    }
  }

  lemma ZeroRefines(n: nat, slot: int, log: seq<Entry>)
    requires n > 0 && NoneAfter(log, slot - n)
    ensures Refines(ZeroBuckets(n), slot, log)
  {
    var zeros := ZeroBuckets(n);
    forall s: int | slot - n < s <= slot ensures zeros[s % n] == SlotTotal(log, s) % WRAP {
      NothingAfter(log, s);
    }
  }

  /** Forward to any later slot the log stands; back to an earlier one it starts over. */
  lemma RotateRefines(buckets: seq<u32>, epoch: u32, slot: u32, log: seq<Entry>)
    requires |buckets| > 0 && Refines(buckets, epoch, log)
    requires epoch < WRAP - |buckets|
    ensures Refines(Rotate(buckets, epoch, slot), slot, if slot < epoch then [] else log)
  {
    if slot < epoch {
      assert Sub32(slot, epoch) == slot - epoch + WRAP;
      if Sub32(slot, epoch) >= |buckets| {
        ZeroRefines(|buckets|, slot, []);
      }
    } else if slot > epoch {
      assert Sub32(slot, epoch) == slot - epoch;
      if slot - epoch >= |buckets| {
        ZeroRefines(|buckets|, slot, log);
      } else {
        RotateSome(buckets, epoch, slot - epoch, log);
      }
    }
  }

  lemma AddRefines(buckets: seq<u32>, slot: u32, ms: u32, log: seq<Entry>)
    requires |buckets| > 0 && Refines(buckets, slot, log)
    ensures Refines(AddTo(buckets, slot, ms), slot, log + [Entry(slot, ms)])
  {
    var n := |buckets|;
    var after, log' := AddTo(buckets, slot, ms), log + [Entry(slot, ms)];
    assert log'[..|log|] == log;
    forall s: int | slot - n < s <= slot ensures after[s % n] == SlotTotal(log', s) % WRAP {
      if s == slot {
        ModAdd(SlotTotal(log, s), ms);
      } else {
        ModApart(s, slot, n);
      }
    }
  }

  // ---- the log of a run ----------------------------------------------------------------------

  /** What a sequence of airLog calls books in a ring of slots of `bucketMs`; the
      TX-only ring books nothing for a reception. */
  function Booked(calls: seq<LogCall>, bucketMs: nat, txOnly: bool): (log: seq<Entry>)
    requires bucketMs > 0
    ensures |log| == |calls|
  {
    if calls == [] then []
    else
      var c := calls[|calls| - 1];
      Booked(calls[..|calls| - 1], bucketMs, txOnly)
      + [Entry(c.now / bucketMs, if txOnly && c.kind != AIR_TX then 0 else c.ms)]
  }

  lemma RingStep(buckets: seq<u32>, epoch: u32, c: LogCall, log: seq<Entry>, bucketMs: nat, ms: u32)
    requires |buckets| > 0 && bucketMs > 0 && Refines(buckets, epoch, Live(log)) && epoch == LastSlot(log)
    requires epoch < WRAP - |buckets|
    ensures var slot := c.now / bucketMs;
            Refines(AddTo(Rotate(buckets, epoch, slot), slot, ms), slot, Live(log + [Entry(slot, ms)]))
  {
    var slot := c.now / bucketMs;
    var e := Entry(slot, ms);
    assert (log + [e])[..|log|] == log;
    RotateRefines(buckets, epoch, slot, Live(log));
    AddRefines(Rotate(buckets, epoch, slot), slot, ms, if slot < epoch then [] else Live(log));
    assert [] + [e] == [e];
  }

  /** Adding nothing to a bucket leaves the ring as it is. */
  lemma AddNothing(buckets: seq<u32>, slot: u32)
    requires |buckets| > 0
    ensures AddTo(buckets, slot, 0) == buckets
  {
  }

  ghost predicate ChanRefines(a: Air, calls: seq<LogCall>)
    requires Shaped(a)
  {
    var log := Booked(calls, UTIL_BUCKET_MS, false);
    a.utilEpoch == LastSlot(log) && Refines(a.chan, a.utilEpoch, Live(log))
  }

  ghost predicate TxRefines(a: Air, calls: seq<LogCall>)
    requires Shaped(a)
  {
    var log := Booked(calls, TX_BUCKET_MS, true);
    a.txEpoch == LastSlot(log) && Refines(a.tx, a.txEpoch, Live(log))
  }

  lemma SlotsAreSmall(now: u32)
    ensures now / UTIL_BUCKET_MS <= 429496 && now / TX_BUCKET_MS <= 71582
  {
  }

  lemma BookOne(calls: seq<LogCall>, c: LogCall, bucketMs: nat, txOnly: bool)
    requires bucketMs > 0
    ensures Booked(calls + [c], bucketMs, txOnly)
            == Booked(calls, bucketMs, txOnly)
               + [Entry(c.now / bucketMs, if txOnly && c.kind != AIR_TX then 0 else c.ms)]
  {
    assert (calls + [c])[..|calls|] == calls;
  }

  lemma LogChan(a: Air, calls: seq<LogCall>, c: LogCall)
    requires Shaped(a) && ChanRefines(a, calls) && a.utilEpoch <= 429496
    ensures ChanRefines(Log(a, c), calls + [c])
  {
    BookOne(calls, c, UTIL_BUCKET_MS, false);
    RingStep(a.chan, a.utilEpoch, c, Booked(calls, UTIL_BUCKET_MS, false), UTIL_BUCKET_MS, c.ms);
  }

  lemma LogTx(a: Air, calls: seq<LogCall>, c: LogCall)
    requires Shaped(a) && TxRefines(a, calls) && a.txEpoch <= 71582
    ensures TxRefines(Log(a, c), calls + [c])
  {
    BookOne(calls, c, TX_BUCKET_MS, true);
    RingStep(a.tx, a.txEpoch, c, Booked(calls, TX_BUCKET_MS, true), TX_BUCKET_MS,
             if c.kind == AIR_TX then c.ms else 0);
    AddNothing(Rotate(a.tx, a.txEpoch, c.now / TX_BUCKET_MS), c.now / TX_BUCKET_MS);
  }

  ghost predicate BothRefine(a: Air, calls: seq<LogCall>)
    requires Shaped(a)
  {
    ChanRefines(a, calls) && TxRefines(a, calls) && a.utilEpoch <= 429496 && a.txEpoch <= 71582
  }

  lemma LogBoth(a: Air, calls: seq<LogCall>, c: LogCall, all: seq<LogCall>)
    requires Shaped(a) && BothRefine(a, calls) && all == calls + [c]
    ensures BothRefine(Log(a, c), all)
  {
    LogChan(a, calls, c);
    LogTx(a, calls, c);
    SlotsAreSmall(c.now);
  }

  lemma SilentRefines()
    ensures BothRefine(SILENT, [])
  {
    ZeroRefines(UTIL_BUCKETS, 0, []);
    ZeroRefines(TX_BUCKETS, 0, []);
  }

  /** Airtime rings refine the full event log: after any airLog calls at any times of
      a 32-bit clock, every bucket of both rings holds exactly the airtime booked in
      its slot since the clock last went back. */
  lemma {:induction false} RingsRefineLog(calls: seq<LogCall>)
    ensures BothRefine(LogAll(calls), calls)
    decreases |calls|
  {
    if calls == [] {
      SilentRefines();
    } else {
      var before, c := calls[..|calls| - 1], calls[|calls| - 1];
      RingsRefineLog(before);
      assert calls == before + [c];
      LogBoth(LogAll(before), before, c, calls);
    }
  }

  /** On a clock that does not wrap, nothing of the log is forgotten. */
  lemma {:induction false} NothingForgotten(calls: seq<LogCall>, bucketMs: nat, txOnly: bool)
    requires bucketMs > 0
    requires forall i, j :: 0 <= i < j < |calls| ==> calls[i].now <= calls[j].now
    ensures Live(Booked(calls, bucketMs, txOnly)) == Booked(calls, bucketMs, txOnly)
    decreases |calls|
  {
    if calls != [] {
      var n := |calls| - 1;
      NothingForgotten(calls[..n], bucketMs, txOnly);
      var log := Booked(calls, bucketMs, txOnly);
      assert log[..n] == Booked(calls[..n], bucketMs, txOnly);
      if n > 0 {
        assert calls[..n][n - 1] == calls[n - 1];
        assert LastSlot(log[..n]) == calls[n - 1].now / bucketMs;
        DivMonotone(calls[n - 1].now, calls[n].now, bucketMs);
      }
    }
  }

  lemma DivMonotone(a: nat, b: nat, d: nat)
    requires a <= b && d > 0
    ensures a / d <= b / d
  {
    if a / d > b / d {
      MulMonotone(b / d + 1, a / d, d);
    }
  }

  // ---- the sum of the buckets -----------------------------------------------------------------

  /** The buckets of the n slots up to `last`, walking round the ring. */
  function RingSum(buckets: seq<u32>, last: int, n: nat): nat
    requires |buckets| > 0
    decreases n
  {
    if n == 0 then 0 else RingSum(buckets, last - 1, n - 1) + buckets[last % |buckets|]
  }

  lemma {:induction false} RingSumFromFirst(buckets: seq<u32>, last: int, n: nat)
    requires |buckets| > 0 && n > 0
    ensures RingSum(buckets, last, n) == RingSum(buckets, last, n - 1) + buckets[(last - n + 1) % |buckets|]
    decreases n
  {
    if n > 1 {
      RingSumFromFirst(buckets, last - 1, n - 1);
      assert last - 1 - (n - 1) + 1 == last - n + 1;
    }
  }

  lemma ModPeriod(x: int, n: nat)
    requires n > 0
    ensures (x + n) % n == x % n
  {
    var q, r := x / n, x % n;
    assert (q + 1) * n == q * n + n;
    DivModUnique(x + n, n, q + 1, r);
  }

  /** Once round the ring is the same sum wherever it ends. */
  lemma {:induction false} RingSumAnywhere(buckets: seq<u32>, last: int, k: nat)
    requires |buckets| > 0
    ensures RingSum(buckets, last + k, |buckets|) == RingSum(buckets, last, |buckets|)
    decreases k
  {
    if k > 0 {
      var e := last + k - 1;
      RingSumAnywhere(buckets, last, k - 1);
      RingSumFromFirst(buckets, e, |buckets|);
      ModPeriod(e + 1 - |buckets|, |buckets|);
    }
  }

  lemma SmallMod(x: nat, n: nat)
    requires x < n
    ensures x % n == x
  {
    DivModUnique(x, n, 0, x);
  }

  lemma {:induction false} SumIsRingSum(buckets: seq<u32>, n: nat)
    requires 0 < |buckets| && n <= |buckets|
    ensures Sum32(buckets[..n]) == RingSum(buckets, n - 1, n) % WRAP
    decreases n
  {
    if n > 0 {
      var before := RingSum(buckets, n - 2, n - 1);
      SumIsRingSum(buckets, n - 1);
      SmallMod(n - 1, |buckets|);
      assert RingSum(buckets, n - 1, n) == before + buckets[n - 1];
      assert buckets[..n][..n - 1] == buckets[..n - 1];
      assert Sum32(buckets[..n]) == Add32(before % WRAP, buckets[n - 1]);
      ModAdd(before, buckets[n - 1]);
    }
  }

  lemma {:induction false} RingSumIsWindow(buckets: seq<u32>, epoch: int, log: seq<Entry>, last: int, n: nat)
    requires |buckets| > 0 && Refines(buckets, epoch, log)
    requires epoch - |buckets| < last - n + 1 && last <= epoch
    ensures RingSum(buckets, last, n) % WRAP == WindowTotal(log, last, n) % WRAP
    decreases n
  {
    if n > 0 {
      RingSumIsWindow(buckets, epoch, log, last - 1, n - 1);
      var a, b, t := RingSum(buckets, last - 1, n - 1), WindowTotal(log, last - 1, n - 1), SlotTotal(log, last);
      assert buckets[last % |buckets|] == t % WRAP;
      ModAdd(a, t % WRAP);
      ModAdd(b, t % WRAP);
      ModAdd(t, b);
    }
  }

  /** The sum of all buckets is all airtime booked in the last N slots. */
  lemma SumIsWindow(buckets: seq<u32>, epoch: nat, log: seq<Entry>)
    requires |buckets| > 0 && Refines(buckets, epoch, log)
    ensures Sum32(buckets) == WindowTotal(log, epoch, |buckets|) % WRAP
  {
    var n := |buckets|;
    assert buckets[..n] == buckets;
    SumIsRingSum(buckets, n);
    if epoch >= n - 1 {
      RingSumAnywhere(buckets, n - 1, epoch - (n - 1));
    } else {
      RingSumAnywhere(buckets, epoch, n - 1 - epoch);
    }
    RingSumIsWindow(buckets, epoch, log, epoch, n);
  }

  /** What the two readers add up: all airtime logged in the last 6 slots of 10 s, and
      all transmit airtime logged in the last 60 slots of 1 min, as of the last
      airLog - since the clock last went back, which on a clock that does not wrap is
      since the start. */
  lemma ReadersReadWindows(calls: seq<LogCall>)
    ensures var a := LogAll(calls);
            var chan, tx := Booked(calls, 10000, false), Booked(calls, 60000, true);
            && Sum32(a.chan) == WindowTotal(Live(chan), LastSlot(chan), 6) % WRAP
            && Sum32(a.tx) == WindowTotal(Live(tx), LastSlot(tx), 60) % WRAP
            && ((forall i, j :: 0 <= i < j < |calls| ==> calls[i].now <= calls[j].now) ==>
                  Live(chan) == chan && Live(tx) == tx)
  {
    var a := LogAll(calls);
    var chan, tx := Booked(calls, UTIL_BUCKET_MS, false), Booked(calls, TX_BUCKET_MS, true);
    RingsRefineLog(calls);
    SumIsWindow(a.chan, a.utilEpoch, Live(chan));
    SumIsWindow(a.tx, a.txEpoch, Live(tx));
    if forall i, j :: 0 <= i < j < |calls| ==> calls[i].now <= calls[j].now {
      NothingForgotten(calls, UTIL_BUCKET_MS, false);
      NothingForgotten(calls, TX_BUCKET_MS, true);
    }
  }

  // ---- reading late ----------------------------------------------------------------------------

  lemma {:induction false} WindowSplit(log: seq<Entry>, last: int, n: nat, k: nat)
    requires k <= n
    ensures WindowTotal(log, last, n) == WindowTotal(log, last, k) + WindowTotal(log, last - k, n - k)
    decreases k
  {
    if k > 0 {
      WindowSplit(log, last - 1, n - 1, k - 1);
    }
  }

  lemma {:induction false} WindowAfterIsEmpty(log: seq<Entry>, epoch: int, last: int, n: nat)
    requires NoneAfter(log, epoch) && last - n >= epoch
    ensures WindowTotal(log, last, n) == 0
    decreases n
  {
    if n > 0 {
      WindowAfterIsEmpty(log, epoch, last - 1, n - 1);
      NothingAfter(log, last);
    }
  }

  /** The slots that left the window between the last airLog and `now`. */
  function Expired(log: seq<Entry>, epoch: int, now: int, n: nat): nat
    requires epoch <= now
  {
    var k := Min(n, now - epoch);
    WindowTotal(log, epoch - n + k, k)
  }

  /** The window as of an earlier slot is the window of the moment and what has expired. */
  lemma WindowLag(log: seq<Entry>, epoch: int, now: int, n: nat)
    requires NoneAfter(log, epoch) && epoch <= now
    ensures WindowTotal(log, epoch, n) == WindowTotal(log, now, n) + Expired(log, epoch, now, n)
  {
    var k := Min(n, now - epoch);
    WindowSplit(log, epoch, n, n - k);
    WindowSplit(log, now, n, k);
    WindowAfterIsEmpty(log, epoch, now, k);
    if k == n {
      assert WindowTotal(log, now - k, 0) == 0;
    } else {
      assert now - k == epoch;
    }
  }

  lemma {:induction false} LiveIsPast(log: seq<Entry>)
    ensures NoneAfter(Live(log), LastSlot(log))
    decreases |log|
  {
    if log != [] {
      LiveIsPast(log[..|log| - 1]);
    }
  }

  /** The clock has gone on since the last airLog. */
  predicate Later(calls: seq<LogCall>, now: u32) {
    calls != [] ==> calls[|calls| - 1].now <= now
  }

  lemma LastSlotIsPast(calls: seq<LogCall>, now: u32, bucketMs: nat, txOnly: bool)
    requires Later(calls, now) && bucketMs > 0
    ensures LastSlot(Booked(calls, bucketMs, txOnly)) <= now / bucketMs
  {
    if calls != [] {
      var n := |calls| - 1;
      assert calls == calls[..n] + [calls[n]];
      BookOne(calls[..n], calls[n], bucketMs, txOnly);
      DivMonotone(calls[n].now, now, bucketMs);
    }
  }

  /** All airtime of the last n slots at the moment `now`, and what a ring that was last
      rotated by the last airLog still shows of the slots before them. */
  function TrueWindow(calls: seq<LogCall>, now: u32, bucketMs: nat, n: nat, txOnly: bool): nat
    requires bucketMs > 0
  {
    WindowTotal(Live(Booked(calls, bucketMs, txOnly)), now / bucketMs, n)
  }

  function Stale(calls: seq<LogCall>, now: u32, bucketMs: nat, n: nat, txOnly: bool): nat
    requires Later(calls, now) && bucketMs > 0
  {
    var log := Booked(calls, bucketMs, txOnly);
    LastSlotIsPast(calls, now, bucketMs, txOnly);
    Expired(Live(log), LastSlot(log), now / bucketMs, n)
  }

  /** The sum is the true window and `stale` milliseconds too many, in 32 bits. */
  predicate LagsBy(sum: u32, window: nat, stale: nat) {
    sum == (window + stale) % WRAP
  }

  lemma RingLags(buckets: seq<u32>, epoch: nat, calls: seq<LogCall>, now: u32, bucketMs: nat, n: nat, txOnly: bool)
    requires Later(calls, now) && |buckets| == n > 0 && bucketMs > 0
    requires var log := Booked(calls, bucketMs, txOnly); epoch == LastSlot(log) && Refines(buckets, epoch, Live(log))
    ensures LagsBy(Sum32(buckets), TrueWindow(calls, now, bucketMs, n, txOnly), Stale(calls, now, bucketMs, n, txOnly))
  {
    var log := Booked(calls, bucketMs, txOnly);
    SumIsWindow(buckets, epoch, Live(log));
    LiveIsPast(log);
    LastSlotIsPast(calls, now, bucketMs, txOnly);
    WindowLag(Live(log), LastSlot(log), now / bucketMs, n);
  }

  /** The readers do not rotate. At any later moment they add up the true window of that
      moment and, on top, everything that has expired since the last airLog. */
  lemma ReadersLagBehind(calls: seq<LogCall>, now: u32)
    requires Later(calls, now)
    ensures LagsBy(Sum32(LogAll(calls).chan), TrueWindow(calls, now, 10000, 6, false),
                   Stale(calls, now, 10000, 6, false))
    ensures LagsBy(Sum32(LogAll(calls).tx), TrueWindow(calls, now, 60000, 60, true),
                   Stale(calls, now, 60000, 60, true))
  {
    var a := LogAll(calls);
    RingsRefineLog(calls);
    RingLags(a.chan, a.utilEpoch, calls, now, UTIL_BUCKET_MS, UTIL_BUCKETS, false);
    RingLags(a.tx, a.txEpoch, calls, now, TX_BUCKET_MS, TX_BUCKETS, true);
  }

  /** The cap is where percentages stop telling sums apart. */
  lemma PercentTellsApart(a: nat, b: nat, buckets: nat, bucketMs: nat)
    requires buckets > 0 && bucketMs > 0
    ensures Percent(a, buckets, bucketMs) == Percent(b, buckets, bucketMs) <==>
            a == b || (a >= buckets * bucketMs && b >= buckets * bucketMs)
  {
    PercentCap(a, buckets * bucketMs);
    PercentCap(b, buckets * bucketMs);
    if a < buckets * bucketMs && b < buckets * bucketMs && Percent(a, buckets, bucketMs) == Percent(b, buckets, bucketMs) {
      var whole := (buckets * bucketMs) as real;
      assert 100.0 * a as real / whole * whole == 100.0 * a as real;
      assert 100.0 * b as real / whole * whole == 100.0 * b as real;
    }
  }

  lemma PercentCap(a: nat, whole: nat)
    requires whole > 0
    ensures a >= whole <==> 100.0 * a as real / whole as real >= 100.0
  {
    var pct := 100.0 * a as real / whole as real;
    assert pct * whole as real == 100.0 * a as real;
    if a >= whole {
      if pct < 100.0 {
        Scales(pct, 100.0, whole as real);
      }
    } else if pct >= 100.0 {
      Scales(100.0, pct, whole as real);
    }
  }

  lemma Scales(x: real, y: real, z: real)
    requires x <= y && z > 0.0
    ensures x * z <= y * z && (x < y ==> x * z < y * z)
  {
    assert (y - x) * z >= 0.0;
  }

  /** A percentage is that of t milliseconds exactly when what it was made from, t and `stale`
      more in 32 bits, is t or both reach the cap; which below 2^32 ms means that nothing is
      stale or t alone reaches it. */
  predicate TrueExactlyWhen(pct: real, t: nat, stale: nat, buckets: nat, bucketMs: nat)
    requires buckets > 0 && bucketMs > 0
  {
    var shown, cap := (t + stale) % WRAP, buckets * bucketMs;
    && (pct == Percent(t, buckets, bucketMs) <==> shown == t || (shown >= cap && t >= cap))
    && (t + stale < WRAP ==> (pct == Percent(t, buckets, bucketMs) <==> stale == 0 || t >= cap))
  }

  lemma OnePercentage(sum: u32, t: nat, stale: nat, buckets: nat, bucketMs: nat)
    requires buckets > 0 && bucketMs > 0 && LagsBy(sum, t, stale)
    ensures TrueExactlyWhen(Percent(sum, buckets, bucketMs), t, stale, buckets, bucketMs)
  {
    PercentTellsApart(sum, t, buckets, bucketMs);
    if t + stale < WRAP {
      SmallMod(t + stale, WRAP);
    }
  }

  lemma RingIsTrueIff(buckets: seq<u32>, epoch: nat, calls: seq<LogCall>, now: u32, bucketMs: nat, n: nat, txOnly: bool)
    requires Later(calls, now) && |buckets| == n > 0 && bucketMs > 0
    requires var log := Booked(calls, bucketMs, txOnly); epoch == LastSlot(log) && Refines(buckets, epoch, Live(log))
    ensures TrueExactlyWhen(Percent(Sum32(buckets), n, bucketMs), TrueWindow(calls, now, bucketMs, n, txOnly),
                            Stale(calls, now, bucketMs, n, txOnly), n, bucketMs)
  {
    RingLags(buckets, epoch, calls, now, bucketMs, n, txOnly);
    OnePercentage(Sum32(buckets), TrueWindow(calls, now, bucketMs, n, txOnly), Stale(calls, now, bucketMs, n, txOnly),
                  n, bucketMs);
  }

  /** Exactly when the two readers return the percentage of the moment. */
  lemma ReadersAreTrueIff(calls: seq<LogCall>, now: u32)
    requires Later(calls, now)
    ensures TrueExactlyWhen(ChannelUtilization(LogAll(calls)),
                            TrueWindow(calls, now, 10000, 6, false),
                            Stale(calls, now, 10000, 6, false), 6, 10000)
    ensures TrueExactlyWhen(Percent(Sum32(LogAll(calls).tx), 60, 60000),
                            TrueWindow(calls, now, 60000, 60, true),
                            Stale(calls, now, 60000, 60, true), 60, 60000)
  {
    var a := LogAll(calls);
    RingsRefineLog(calls);
    RingIsTrueIff(a.chan, a.utilEpoch, calls, now, UTIL_BUCKET_MS, UTIL_BUCKETS, false);
    RingIsTrueIff(a.tx, a.txEpoch, calls, now, TX_BUCKET_MS, TX_BUCKETS, true);
  }

  lemma BookedOnce(c: LogCall)
    ensures Booked([c], UTIL_BUCKET_MS, false) == [Entry(c.now / UTIL_BUCKET_MS, c.ms)]
    ensures Live(Booked([c], UTIL_BUCKET_MS, false)) == Booked([c], UTIL_BUCKET_MS, false)
  {
    BookOne([], c, UTIL_BUCKET_MS, false);
    assert [] + [c] == [c];
    NothingForgotten([c], UTIL_BUCKET_MS, false);
  }

  /** One frame, then a quiet hour: the channel reader still reports the frame, and the
      true window has long been empty. */
  lemma QuietRadioStaysBusy(ms: u32)
    ensures var calls := [LogCall(0, AIR_TX, ms)];
            var chan := Booked(calls, UTIL_BUCKET_MS, false);
            && Sum32(LogAll(calls).chan) == ms
            && WindowTotal(Live(chan), 3600000 / UTIL_BUCKET_MS, UTIL_BUCKETS) == 0
  {
    var c := LogCall(0, AIR_TX, ms);
    BookedOnce(c);
    ReadersReadWindows([c]);
    WindowOfOne(Entry(0, ms), UTIL_BUCKETS);
    WindowAfterIsEmpty([Entry(0, ms)], 0, 360, UTIL_BUCKETS);
  }

  lemma WindowOfOne(e: Entry, n: nat)
    requires e.slot == 0 && n > 0
    ensures WindowTotal([e], 0, n) == e.ms
  {
    assert [e][..0] == [];
    WindowSplit([e], 0, n, 1);
    WindowOfPast([e], -1, n - 1);
    assert SlotTotal([e], 0) == e.ms && WindowTotal([e], -1, 0) == 0;
  }

  lemma {:induction false} WindowOfPast(log: seq<Entry>, last: int, n: nat)
    requires last < 0
    ensures WindowTotal(log, last, n) == 0
    decreases n
  {
    if n > 0 {
      WindowOfPast(log, last - 1, n - 1);
      NothingAfter(log, last);
    }
  }

  // ---- the running totals -----------------------------------------------------------------------

  function TotalOf(calls: seq<LogCall>, kind: Kind): nat {
    if calls == [] then 0
    else TotalOf(calls[..|calls| - 1], kind)
         + (if calls[|calls| - 1].kind == kind then calls[|calls| - 1].ms else 0)
  }

  lemma LogCounts(a: Air, c: LogCall)
    requires Shaped(a)
    ensures var t := Log(a, c);
            && t.txMs == (if c.kind == AIR_TX then Add32(a.txMs, c.ms) else a.txMs)
            && t.rxValidMs == (if c.kind == AIR_RX_VALID then Add32(a.rxValidMs, c.ms) else a.rxValidMs)
            && t.rxAllMs == (if c.kind == AIR_TX then a.rxAllMs else Add32(a.rxAllMs, c.ms))
  {
  }

  predicate CountersMatch(a: Air, tx: nat, valid: nat, other: nat) {
    a.txMs == tx % WRAP && a.rxValidMs == valid % WRAP && a.rxAllMs == (valid + other) % WRAP
  }

  lemma CountersStep(a: Air, c: LogCall, tx: nat, valid: nat, other: nat)
    requires Shaped(a) && CountersMatch(a, tx, valid, other)
    ensures CountersMatch(Log(a, c),
                          if c.kind == AIR_TX then tx + c.ms else tx,
                          if c.kind == AIR_RX_VALID then valid + c.ms else valid,
                          if c.kind == AIR_RX_ALL then other + c.ms else other)
  {
    LogCounts(a, c);
    ModAdd(tx, c.ms);
    ModAdd(valid, c.ms);
    ModAdd(valid + other, c.ms);
  }

  lemma {:induction false} CountersAreSums(calls: seq<LogCall>)
    ensures CountersMatch(LogAll(calls), TotalOf(calls, AIR_TX), TotalOf(calls, AIR_RX_VALID),
                          TotalOf(calls, AIR_RX_ALL))
    decreases |calls|
  {
    if calls != [] {
      var before, c := calls[..|calls| - 1], calls[|calls| - 1];
      CountersAreSums(before);
      CountersStep(LogAll(before), c, TotalOf(before, AIR_TX), TotalOf(before, AIR_RX_VALID),
                   TotalOf(before, AIR_RX_ALL));
    }
  }

  lemma WrappedDifference(all: nat, part: nat)
    ensures ((all + part) % WRAP - part % WRAP) % WRAP == all % WRAP
  {
  }

  /** The counters are the totals of their kinds, so rxAll - rxValid is exactly the
      airtime of frames that did not decode. */
  lemma CountersAreTotals(calls: seq<LogCall>)
    ensures var a := LogAll(calls);
            && a.txMs == TotalOf(calls, AIR_TX) % WRAP
            && a.rxValidMs == TotalOf(calls, AIR_RX_VALID) % WRAP
            && Sub32(a.rxAllMs, a.rxValidMs) == TotalOf(calls, AIR_RX_ALL) % WRAP
  {
    CountersAreSums(calls);
    WrappedDifference(TotalOf(calls, AIR_RX_ALL), TotalOf(calls, AIR_RX_VALID));
  }

  // ---- the scheduled delay ------------------------------------------------------------------------

  /** Exactly how the window sizes the backoff: one more doubling for every 12 s of
      airtime in the minute, five at most. */
  lemma ExponentFromAirtime(sum: u32)
    ensures 0.0 <= Percent(sum, UTIL_BUCKETS, UTIL_BUCKET_MS) <= 100.0
    ensures ContentionExponent(Percent(sum, UTIL_BUCKETS, UTIL_BUCKET_MS)) == CWMIN + Min(5, sum / 12000)
  {
    var pct := 100.0 * sum as real / 60000.0;
    if pct <= 100.0 {
      var q := sum / 12000;
      assert pct * 5.0 / 100.0 == sum as real / 12000.0;
      assert q as real <= sum as real / 12000.0 < (q + 1) as real;
      assert sum <= 60000;
    } else {
      assert sum > 60000;
    }
  }

  /** The span the random number is drawn from, by the airtime of the last minute. */
  function Span(sum: u32): nat {
    if sum < 12000 then 8
    else if sum < 24000 then 16
    else if sum < 36000 then 32
    else if sum < 48000 then 64
    else if sum < 60000 then 128
    else 256
  }

  /** The scheduled delay exactly: the random number modulo the span, in slots, on a 32-bit
      word. */
  lemma DelayIsDrawn(sum: u32, random: u32, slotMs: u32)
    ensures var util := Percent(sum, UTIL_BUCKETS, UTIL_BUCKET_MS);
            0.0 <= util <= 100.0 && TxDelay(util, random, slotMs) == random % Span(sum) * slotMs % 0x1_0000_0000
  {
    ExponentFromAirtime(sum);
    assert PowerOfTwo(3) == 8 && PowerOfTwo(4) == 16 && PowerOfTwo(5) == 32;
    assert PowerOfTwo(6) == 64 && PowerOfTwo(7) == 128 && PowerOfTwo(8) == 256;
  }

  /** A scheduled delay is a whole number of slots, fewer than 256 and fewer than 8 on
      an idle channel, and below 256 slots it does not overflow. */
  lemma DelayIsSlots(sum: u32, random: u32, slotMs: u32)
    requires 255 * slotMs < WRAP
    ensures var util := Percent(sum, UTIL_BUCKETS, UTIL_BUCKET_MS);
            && 0.0 <= util <= 100.0
            && var d := TxDelay(util, random, slotMs);
               d <= 255 * slotMs && (sum < 12000 ==> d <= 7 * slotMs) && (slotMs > 0 ==> d % slotMs == 0)
  {
    ExponentFromAirtime(sum);
    var util := Percent(sum, UTIL_BUCKETS, UTIL_BUCKET_MS);
    ExponentRange(util);
    var span := PowerOfTwo(ContentionExponent(util));
    var k := random % span;
    MulMonotone(k, 255, slotMs);
    if sum < 12000 {
      assert sum / 12000 == 0;
      assert PowerOfTwo(3) == 8;
      MulMonotone(k, 7, slotMs);
    }
    if slotMs > 0 {
      MultipleHasNoRest(k, slotMs);
    }
  }

  lemma {:induction false} MultipleHasNoRest(k: nat, d: nat)
    requires d > 0
    ensures k * d % d == 0
    decreases k
  {
    if k > 0 {
      MultipleHasNoRest(k - 1, d);
      assert k * d == (k - 1) * d + d;
      ModPeriod((k - 1) * d, d);
    }
  }
}
