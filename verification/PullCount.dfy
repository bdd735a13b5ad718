/** How many pulls a transfer takes on a link that loses nothing. */
module PullCount {
  import opened Wire
  import opened IdSets
  import Codec = PullCodec
  import opened PullModel
  import Safety = PullSafety

  /** The sum, over the maximal runs of missing identifiers from `from` on, of the
      run's length divided by the batch, rounded up. */
  function PullsNeeded(have: set<u16>, from: nat, count: u16, batch: nat): nat
    requires from <= count && batch > 0
    decreases count - from
  {
    var first := FirstGap(have, from, count);
    if first == count then 0
    else
      FirstGapIsGap(have, from, count);
      var n := GapLength(have, first, count, count - first);
      WindowCount(n, batch) + PullsNeeded(have, first + n, count, batch)
  }

  // ---- the two scans of requestNext ----------------------------------------------------

  lemma {:induction false} FirstGapSkips(have: set<u16>, from: nat, to: nat, count: u16)
    requires from <= to <= count && forall i: u16 :: from <= i < to ==> i in have
    ensures FirstGap(have, from, count) == FirstGap(have, to, count)
    decreases count - from
  {
    if from < to {
      FirstGapSkips(have, from + 1, to, count);
    }
  }

  /** A limited scan stops at its limit, and nothing in the stretch is held. */
  lemma {:induction false} GapLengthIsGap(have: set<u16>, first: nat, count: u16, limit: nat)
    requires first <= count
    ensures var all := GapLength(have, first, count, count - first);
            && GapLength(have, first, count, limit) == Min(all, limit)
            && (forall i: u16 :: first <= i < first + all ==> i !in have)
    decreases count - first
  {
    if first < count && first !in have {
      GapLengthIsGap(have, first + 1, count, if limit > 0 then limit - 1 else 0);
    }
  }

  /** Further into a gap, the rest of it is still there. */
  lemma {:induction false} GapTail(have: set<u16>, first: nat, count: u16, k: nat)
    requires first <= count && k <= GapLength(have, first, count, count - first)
    ensures GapLength(have, first + k, count, count - (first + k))
            == GapLength(have, first, count, count - first) - k
    decreases k
  {
    if k > 0 {
      GapTail(have, first + 1, count, k - 1);
    }
  }

  predicate SameFrom(a: set<u16>, b: set<u16>, from: nat) {
    forall i: u16 :: i >= from ==> (i in a <==> i in b)
  }

  lemma {:induction false} ScansAreLocal(a: set<u16>, b: set<u16>, from: nat, count: u16)
    requires from <= count && SameFrom(a, b, from)
    ensures FirstGap(a, from, count) == FirstGap(b, from, count)
    ensures GapLength(a, from, count, count - from) == GapLength(b, from, count, count - from)
    decreases count - from
  {
    if from < count {
      ScansAreLocal(a, b, from + 1, count);
    }
  }

  lemma {:induction false} CountIsLocal(a: set<u16>, b: set<u16>, from: nat, count: u16, batch: nat)
    requires from <= count && batch > 0 && SameFrom(a, b, from)
    ensures PullsNeeded(a, from, count, batch) == PullsNeeded(b, from, count, batch)
    decreases count - from
  {
    ScansAreLocal(a, b, from, count);
    var first := FirstGap(a, from, count);
    if first < count {
      FirstGapIsGap(a, from, count);
      ScansAreLocal(a, b, first, count);
      CountIsLocal(a, b, first + GapLength(a, first, count, count - first), count, batch);
    }
  }

  // ---- one pull fewer --------------------------------------------------------------------

  predicate IsSpan(ids: set<u16>, first: nat, n: nat) {
    forall i: u16 :: i in ids <==> first <= i < first + n
  }

  lemma OneRoundOfCeiling(n: nat, batch: nat)
    requires batch > 0 && n > 0
    ensures n <= batch ==> WindowCount(n, batch) == 1
    ensures n > batch ==> WindowCount(n, batch) == 1 + WindowCount(n - batch, batch)
  {
    if n <= batch {
      DivModUnique(n + batch - 1, batch, 1, n - 1);
    } else {
      var q, r := (n - 1) / batch, (n - 1) % batch;
      assert (q + 1) * batch == q * batch + batch;
      DivModUnique(n + batch - 1, batch, q + 1, r);
    }
  }

  lemma SkipHeld(have: set<u16>, to: nat, count: u16, batch: nat)
    requires batch > 0 && to <= count && forall i: u16 :: i < to ==> i in have
    ensures PullsNeeded(have, 0, count, batch) == PullsNeeded(have, to, count, batch)
  {
    FirstGapSkips(have, 0, to, count);
  }

  lemma AtGap(have: set<u16>, first: u16, count: u16, batch: nat)
    requires batch > 0 && first < count && first !in have
    ensures var all := GapLength(have, first, count, count - first);
            PullsNeeded(have, first, count, batch)
            == WindowCount(all, batch) + PullsNeeded(have, first + all, count, batch)
  {
    assert FirstGap(have, first, count) == first;
  }

  /** From inside the first gap: the rest of it, and whatever lies behind. */
  lemma InsideGap(have: set<u16>, first: u16, n: nat, count: u16, batch: nat)
    requires batch > 0 && first < count && first !in have
    requires n < GapLength(have, first, count, count - first)
    ensures var all := GapLength(have, first, count, count - first);
            PullsNeeded(have, first + n, count, batch)
            == WindowCount(all - n, batch) + PullsNeeded(have, first + all, count, batch)
  {
    GapTail(have, first, count, n);
    GapLengthIsGap(have, first, count, 0);
    AtGap(have, first + n, count, batch);
  }

  /** What is left to pull once the first `n` identifiers of the first gap are here. */
  lemma AfterFill(have: set<u16>, after: set<u16>, mid: nat, count: u16, batch: nat)
    requires batch > 0 && mid <= count
    requires SameFrom(have, after, mid) && forall i: u16 :: i < mid ==> i in after
    ensures PullsNeeded(after, 0, count, batch) == PullsNeeded(have, mid, count, batch)
  {
    SkipHeld(after, mid, count, batch);
    CountIsLocal(have, after, mid, count, batch);
  }

  lemma NeededNow(have: set<u16>, first: u16, count: u16, batch: nat)
    requires batch > 0 && FirstGap(have, 0, count) == first < count
    ensures first !in have
    ensures var all := GapLength(have, first, count, count - first);
            PullsNeeded(have, 0, count, batch)
            == WindowCount(all, batch) + PullsNeeded(have, first + all, count, batch)
  {
    FirstGapIsGap(have, 0, count);
    SkipHeld(have, first, count, batch);
    AtGap(have, first, count, batch);
  }

  lemma NeededAfter(have: set<u16>, more: set<u16>, first: u16, n: nat, count: u16, batch: nat)
    requires batch > 0 && FirstGap(have, 0, count) == first < count
    requires n <= GapLength(have, first, count, count - first) && IsSpan(more, first, n)
    ensures PullsNeeded(have + more, 0, count, batch) == PullsNeeded(have, first + n, count, batch)
  {
    FirstGapIsGap(have, 0, count);
    AfterFill(have, have + more, first + n, count, batch);
  }

  /** The first gap is longer than a batch: its front is filled, its tail remains. */
  lemma FillPart(have: set<u16>, more: set<u16>, first: u16, all: nat, count: u16, batch: nat)
    requires batch > 0 && FirstGap(have, 0, count) == first < count && first !in have
    requires all == GapLength(have, first, count, count - first) > batch && IsSpan(more, first, batch)
    ensures PullsNeeded(have + more, 0, count, batch)
            == WindowCount(all - batch, batch) + PullsNeeded(have, first + all, count, batch)
  {
    NeededAfter(have, more, first, batch, count, batch);
    InsideGap(have, first, batch, count, batch);
  }

  /** Filling the front of the first gap, up to a batch, saves exactly one pull. */
  lemma FillSavesOne(have: set<u16>, more: set<u16>, first: u16, count: u16, batch: nat)
    requires batch > 0 && FirstGap(have, 0, count) == first < count
    requires IsSpan(more, first, Min(GapLength(have, first, count, count - first), batch))
    ensures PullsNeeded(have + more, 0, count, batch) == PullsNeeded(have, 0, count, batch) - 1
  {
    var all := GapLength(have, first, count, count - first);
    NeededNow(have, first, count, batch);
    GapIsLong(have, first, count);
    OneRoundOfCeiling(all, batch);
    if batch < all {
      FillPart(have, more, first, all, count, batch);
    } else {
      NeededAfter(have, more, first, all, count, batch);
    }
  }

  lemma GapIsLong(have: set<u16>, first: u16, count: u16)
    requires first < count && first !in have
    ensures GapLength(have, first, count, count - first) > 0
  {
  }

  // ---- the rounds of a transfer -------------------------------------------------------------

  /** The frames a device answers a pull with, one per chunk, in order. */
  function Answer(payload: bytes, pull: Codec.Pull): seq<Arrival>
    requires Safety.Count(payload) < 0x1_0000
  {
    var count := Safety.Count(payload);
    AnswerFrom(payload, pull.pid, pull.first, Min(pull.first + pull.count, count))
  }

  function AnswerFrom(payload: bytes, pid: u16, i: nat, end: int): seq<Arrival>
    requires Safety.Count(payload) < 0x1_0000 && end <= Safety.Count(payload)
    decreases end - i
  {
    if i >= end then []
    else
      [Arrival(Some(Codec.Chunk(pid, i, Safety.Count(payload), Window(payload, i, SIZE))), 0)]
      + AnswerFrom(payload, pid, i + 1, end)
  }

  /** The client is fetching exactly this payload. */
  predicate Fetching(payload: bytes, c: Client) {
    && c.haveManifest && !c.gone && c.have <= Below(c.count)
    && c.count == Safety.Count(payload) && |c.buf| == |payload|
  }

  lemma {:induction false} AnswerFills(payload: bytes, c: Client, i: nat, end: int)
    requires Fetching(payload, c) && end <= c.count
    ensures var t := Run(c, AnswerFrom(payload, c.pid, i, end));
            && Fetching(payload, t) && t.pid == c.pid
            && (forall k: u16 :: k in t.have <==> k in c.have || i <= k < end)
    decreases end - i
  {
    if i < end {
      var w := Window(payload, i, SIZE);
      var rest := AnswerFrom(payload, c.pid, i + 1, end);
      var head := Arrival(Some(Codec.Chunk(c.pid, i, c.count, w)), 0);
      WindowStarts(|payload|, i, SIZE);
      assert IsBelow(i, c.count);
      assert ([head] + rest)[1..] == rest;
      AnswerFills(payload, OnFrame(c, head.frame, 0), i + 1, end);
    }
  }

  /** One lossless round: requestNext asks, the whole answer arrives. */
  function Round(payload: bytes, c: Client, batch: int): Client
    requires Safety.Count(payload) < 0x1_0000
  {
    match NextPull(c, batch)
    case None => c
    case Some(pull) => Run(c, Answer(payload, pull))
  }

  /** requestNext asks for the front of the first gap, up to the clamped batch. */
  lemma AsksFirstGap(c: Client, batch: int)
    requires c.haveManifest && !c.gone
    ensures var first := FirstGap(c.have, 0, c.count);
            NextPull(c, batch) ==
              if first == c.count then None
              else Some(Codec.Pull(c.pid, first, Min(GapLength(c.have, first, c.count, c.count - first),
                                                     Codec.PullCount(batch))))
  {
    var first := FirstGap(c.have, 0, c.count);
    FirstGapIsGap(c.have, 0, c.count);
    GapLengthIsGap(c.have, first, c.count, if batch < 0 then 0 else batch);
  }

  lemma RoundIs(payload: bytes, c: Client, batch: int, first: u16, n: nat)
    requires Fetching(payload, c) && FirstGap(c.have, 0, c.count) == first < c.count
    requires n == Min(GapLength(c.have, first, c.count, c.count - first), Codec.PullCount(batch))
    ensures Round(payload, c, batch) == Run(c, AnswerFrom(payload, c.pid, first, first + n))
  {
    var pull := Codec.Pull(c.pid, first, n);
    assert NextPull(c, batch) == Some(pull) by { AsksFirstGap(c, batch); }
    assert Answer(payload, pull) == AnswerFrom(payload, c.pid, first, first + n);
  }

  /** What one lossless round that has something to ask for adds. */
  lemma RoundFills(payload: bytes, c: Client, batch: int, first: u16) returns (more: set<u16>)
    requires Fetching(payload, c) && FirstGap(c.have, 0, c.count) == first < c.count
    ensures IsSpan(more, first, Min(GapLength(c.have, first, c.count, c.count - first), Codec.PullCount(batch)))
    ensures var t := Round(payload, c, batch);
            Fetching(payload, t) && t.count == c.count && t.have == c.have + more
  {
    var n := Min(GapLength(c.have, first, c.count, c.count - first), Codec.PullCount(batch));
    var t := Round(payload, c, batch);
    RoundIs(payload, c, batch, first, n);
    AnswerFills(payload, c, first, first + n);
    more := Span(t.have, first, n);
    SpanAdds(c.have, t.have, first, n);
  }

  function Span(have: set<u16>, first: nat, n: nat): set<u16> {
    set i: u16 | i in have && first <= i < first + n
  }

  lemma SpanAdds(have: set<u16>, after: set<u16>, first: nat, n: nat)
    requires forall k: u16 :: k in after <==> k in have || first <= k < first + n
    ensures IsSpan(Span(after, first, n), first, n) && after == have + Span(after, first, n)
  {
  }

  lemma NothingNeeded(have: set<u16>, count: u16, batch: nat)
    requires batch > 0
    ensures PullsNeeded(have, 0, count, batch) == 0 <==> FirstGap(have, 0, count) == count
  {
    var first := FirstGap(have, 0, count);
    if first < count {
      FirstGapIsGap(have, 0, count);
      GapIsLong(have, first, count);
      OneRoundOfCeiling(GapLength(have, first, count, count - first), batch);
    }
  }

  lemma RoundSavesOne(payload: bytes, c: Client, batch: int)
    requires Fetching(payload, c)
    ensures var need := PullsNeeded(c.have, 0, c.count, Codec.PullCount(batch));
            var t := Round(payload, c, batch);
            && Fetching(payload, t) && t.count == c.count
            && (NextPull(c, batch).None? <==> need == 0)
            && (need > 0 ==> PullsNeeded(t.have, 0, t.count, Codec.PullCount(batch)) == need - 1)
  {
    var first := FirstGap(c.have, 0, c.count);
    AsksFirstGap(c, batch);
    NothingNeeded(c.have, c.count, Codec.PullCount(batch));
    if first < c.count {
      var more := RoundFills(payload, c, batch, first);
      FillSavesOne(c.have, more, first, c.count, Codec.PullCount(batch));
    }
  }

  function Rounds(payload: bytes, c: Client, batch: int, k: nat): Client
    requires Safety.Count(payload) < 0x1_0000
    decreases k
  {
    if k == 0 then c else Rounds(payload, Round(payload, c, batch), batch, k - 1)
  }

  lemma {:induction false} RoundsCountDown(payload: bytes, c: Client, batch: int, k: nat)
    requires Fetching(payload, c)
    ensures var need := PullsNeeded(c.have, 0, c.count, Codec.PullCount(batch));
            var t := Rounds(payload, c, batch, k);
            && Fetching(payload, t) && t.count == c.count
            && PullsNeeded(t.have, 0, t.count, Codec.PullCount(batch)) == Max(0, need - k)
    decreases k
  {
    if k > 0 {
      RoundSavesOne(payload, c, batch);
      RoundsCountDown(payload, Round(payload, c, batch), batch, k - 1);
    }
  }

  /** Exact pull count: on a lossless link with no BUSY, from any held set and with
      any batch, the transfer is complete - and nothing is left to ask for - after
      exactly the sum over maximal missing runs of ceil(length / batch) pulls, the
      batch being clamped to 1..16 by the encoder. */
  lemma ExactPullCount(payload: bytes, c: Client, batch: int, k: nat)
    requires Fetching(payload, c) && c.count > 0
    ensures var t := Rounds(payload, c, batch, k);
            && (Complete(t) <==> k >= PullsNeeded(c.have, 0, c.count, Codec.PullCount(batch)))
            && (Complete(t) <==> NextPull(t, batch).None?)
  {
    var t := Rounds(payload, c, batch, k);
    RoundsCountDown(payload, c, batch, k);
    RoundSavesOne(payload, t, batch);
    FullByCounting(t.have, t.count);
    FirstGapIsGap(t.have, 0, t.count);
    var first := FirstGap(t.have, 0, t.count);
    if first == t.count {
      assert t.have == Below(t.count);
    } else {
      assert IsBelow(first, t.count) && first in Below(t.count);
    }
  }
}
