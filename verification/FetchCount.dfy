/** How many pulls the chunk loop of a fetch makes on an air that loses nothing
    (clients/node/index.js, Client.fetch). */
module FetchCount {
  import opened Wire
  import opened Ether
  import opened IdSets
  import Codec = PullCodec
  import M = PullModel
  import Safety = PullSafety
  import Count = PullCount
  import opened FetchModel

  /** The sum over missing runs of ceil(length / batch), for what the client lacks. */
  function Need(c: M.Client, batch: int): nat {
    Count.PullsNeeded(c.have, 0, c.count, Codec.PullCount(batch))
  }

  // ---- an answer in full ----------------------------------------------------------------

  predicate IsChunk(pid: u16, count: u16, frame: Option<Codec.Frame>, i: u16) {
    && frame.Some? && frame.value.Chunk?
    && frame.value.pid == pid && frame.value.count == count && frame.value.index == i
  }

  predicate Brings(pid: u16, count: u16, heard: seq<M.Arrival>, i: u16) {
    exists k :: 0 <= k < |heard| && IsChunk(pid, count, heard[k].frame, i)
  }

  /** Every chunk that was asked for is heard, in any order and number, and no other that
      is missing. */
  predicate Answers(c: M.Client, pull: Codec.Pull, heard: seq<M.Arrival>) {
    && (forall i: u16 :: pull.first <= i < pull.first + pull.count ==> Brings(c.pid, c.count, heard, i))
    && (forall i: u16 :: Brings(c.pid, c.count, heard, i) ==> i in c.have || pull.first <= i < pull.first + pull.count)
  }

  predicate NotGone(frame: Option<Codec.Frame>) {
    frame.Some? && frame.value.Err? ==> frame.value.code != Codec.ERR_GONE
  }

  ghost predicate NoGoneAir(air: Air, from: nat) {
    forall k: nat, f :: k >= from && f in air(k).frames ==> NotGone(Codec.Decode(f.0))
  }

  /** What may be relied on about a list of frames. */
  predicate Reliable(payloads: map<u16, bytes>, crc32: Checksum, c: M.Client, heard: seq<M.Arrival>)
    requires Safety.Carriable(payloads)
  {
    && Steady(c, heard)
    && forall k :: 0 <= k < |heard| ==> Safety.Honest(payloads, crc32, heard[k].frame) && NotGone(heard[k].frame)
  }

  /** A client in the middle of a transfer. */
  predicate Fetches(payloads: map<u16, bytes>, crc32: Checksum, c: M.Client)
    requires Safety.Carriable(payloads)
  {
    Safety.Inv(payloads, crc32, c) && c.haveManifest && !c.gone && c.count > 0
  }

  predicate Filled(c: M.Client, heard: seq<M.Arrival>, have: set<u16>) {
    forall i: u16 :: i in have <==> i in c.have || (i < c.count && Brings(c.pid, c.count, heard, i))
  }

  lemma FrameFills(payloads: map<u16, bytes>, crc32: Checksum, c: M.Client, a: M.Arrival)
    requires Safety.Carriable(payloads) && Fetches(payloads, crc32, c) && Reliable(payloads, crc32, c, [a])
    ensures var t := M.OnFrame(c, a.frame, a.at);
            && Fetches(payloads, crc32, t) && t.pid == c.pid && t.length == c.length && t.count == c.count
            && (forall i: u16 :: i in t.have <==> i in c.have || (i < c.count && IsChunk(c.pid, c.count, a.frame, i)))
  {
    assert [a][0] == a && a in [a];
    Safety.FrameSafe(payloads, crc32, c, a.frame, a.at);
    if a.frame.Some? && a.frame.value.Chunk? && IsChunk(c.pid, c.count, a.frame, a.frame.value.index) {
      if a.frame.value.index < c.count {
        WindowStarts(|payloads[c.pid]|, a.frame.value.index, M.SIZE);
      }
    }
  }

  lemma BringsMore(pid: u16, count: u16, heard: seq<M.Arrival>, i: u16)
    requires heard != []
    ensures Brings(pid, count, heard, i) <==>
              IsChunk(pid, count, heard[0].frame, i) || Brings(pid, count, heard[1..], i)
  {
    if Brings(pid, count, heard[1..], i) {
      var k :| 0 <= k < |heard[1..]| && IsChunk(pid, count, heard[1..][k].frame, i);
      assert IsChunk(pid, count, heard[k + 1].frame, i);
    }
    if Brings(pid, count, heard, i) && !IsChunk(pid, count, heard[0].frame, i) {
      var k :| 0 <= k < |heard| && IsChunk(pid, count, heard[k].frame, i);
      assert IsChunk(pid, count, heard[1..][k - 1].frame, i);
    }
  }

  /** Reliable frames add exactly the chunks among them. */
  lemma {:induction false} HeardFills(payloads: map<u16, bytes>, crc32: Checksum, c: M.Client, heard: seq<M.Arrival>)
    requires Safety.Carriable(payloads) && Fetches(payloads, crc32, c) && Reliable(payloads, crc32, c, heard)
    ensures var t := M.Run(c, heard);
            Fetches(payloads, crc32, t) && t.pid == c.pid && t.count == c.count && Filled(c, heard, t.have)
    decreases |heard|
  {
    if heard != [] {
      assert heard[0] in heard;
      FrameFills(payloads, crc32, c, heard[0]);
      var d := M.OnFrame(c, heard[0].frame, heard[0].at);
      HeardFills(payloads, crc32, d, heard[1..]);
      forall i: u16
        ensures Brings(c.pid, c.count, heard, i) <==>
                  IsChunk(c.pid, c.count, heard[0].frame, i) || Brings(c.pid, c.count, heard[1..], i)
      {
        BringsMore(c.pid, c.count, heard, i);
      }
    }
  }

  // ---- one pull ---------------------------------------------------------------------------

  /** Something is needed exactly while the transfer is not complete, and then asked for. */
  lemma NeedIsMissing(payloads: map<u16, bytes>, crc32: Checksum, c: M.Client, batch: int)
    requires Safety.Carriable(payloads) && Fetches(payloads, crc32, c)
    ensures Need(c, batch) == 0 <==> M.Complete(c)
    ensures Need(c, batch) == 0 <==> M.NextPull(c, batch).None?
  {
    Count.ExactPullCount(payloads[c.pid], c, batch, 0);
    Count.RoundSavesOne(payloads[c.pid], c, batch);
  }

  lemma SpanSavesOne(have: set<u16>, more: set<u16>, first: u16, count: u16, batch: nat)
    requires batch > 0 && M.FirstGap(have, 0, count) == first < count
    requires var n := Min(M.GapLength(have, first, count, count - first), batch);
             forall i: u16 :: i in more <==> i in have || first <= i < first + n
    ensures Count.PullsNeeded(more, 0, count, batch) == Count.PullsNeeded(have, 0, count, batch) - 1
    ensures |more| > |have|
  {
    var n := Min(M.GapLength(have, first, count, count - first), batch);
    M.FirstGapIsGap(have, 0, count);
    Count.GapIsLong(have, first, count);
    Count.SpanAdds(have, more, first, n);
    Count.FillSavesOne(have, Count.Span(more, first, n), first, count, batch);
    SubsetSmaller(have + {first}, more);
  }

  lemma AnswerSavesOne(c: M.Client, batch: int, heard: seq<M.Arrival>, have: set<u16>)
    requires c.haveManifest && !c.gone && M.NextPull(c, batch).Some?
    requires Answers(c, M.NextPull(c, batch).value, heard) && Filled(c, heard, have)
    ensures Count.PullsNeeded(have, 0, c.count, Codec.PullCount(batch)) == Need(c, batch) - 1
    ensures |have| > |c.have|
  {
    Count.AsksFirstGap(c, batch);
    SpanSavesOne(c.have, have, M.FirstGap(c.have, 0, c.count), c.count, Codec.PullCount(batch));
  }

  /** From moment `m` on, each of the next `k` pulls is answered in full while it waits, and
      time is left after the last. */
  ghost predicate Lossless(crc32: Checksum, air: Air, c: M.Client, m: Moment, started: int, t: Timing, k: nat)
    requires ClockRuns(air, air(0).now - 1) && InTime(air, m)
    decreases k
  {
    && m.now - started < t.hardMs
    && (k > 0 ==>
          && M.NextPull(c, t.batch).Some?
          && var after := PullEnd(crc32, air, c, m, started, t).0;
             var heard := HeardIn(air, m.slot, after.slot);
             && Answers(c, M.NextPull(c, t.batch).value, heard)
             && Lossless(crc32, air, Pulled(air, c, m, after), after, started, t, k - 1))
  }

  lemma FirstOfLossless(crc32: Checksum, air: Air, c: M.Client, m: Moment, started: int, t: Timing, k: nat,
                        after: Moment, heard: seq<M.Arrival>)
    requires ClockRuns(air, air(0).now - 1) && InTime(air, m)
    requires k > 0 && Lossless(crc32, air, c, m, started, t, k)
    requires after == PullEnd(crc32, air, c, m, started, t).0 && heard == HeardIn(air, m.slot, after.slot)
    ensures M.NextPull(c, t.batch).Some? && Answers(c, M.NextPull(c, t.batch).value, heard)
    ensures Lossless(crc32, air, Pulled(air, c, m, after), after, started, t, k - 1)
  {
  }

  /** A pull that hears its answer leaves one pull fewer to make. */
  lemma HeardSavesOne(payloads: map<u16, bytes>, crc32: Checksum, c: M.Client, batch: int, heard: seq<M.Arrival>,
                      d: M.Client)
    requires Safety.Carriable(payloads) && Fetches(payloads, crc32, c) && Reliable(payloads, crc32, c, heard)
    requires M.NextPull(c, batch).Some? && Answers(c, M.NextPull(c, batch).value, heard)
    requires d == M.Run(Asking(c), heard)
    ensures Fetches(payloads, crc32, d) && |d.have| > |c.have| && Need(d, batch) == Need(c, batch) - 1
  {
    HeardFills(payloads, crc32, Asking(c), heard);
    AnswerSavesOne(c, batch, heard, d.have);
  }
}
