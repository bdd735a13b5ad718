/** The chunk loop of a fetch turn by turn (clients/node/index.js:393-447): where it is after
    each, and how it ends. */
module FetchTurns {
  import opened Wire
  import opened Ether
  import opened IdSets
  import Codec = PullCodec
  import M = PullModel
  import Safety = PullSafety
  import Files = PartialStore
  import opened FetchCount
  import opened FetchModel
  import opened FetchSafety

  /** What the loop starts from. */
  datatype Start = Start(crc32: Checksum, air: Air, c: M.Client, m: Moment, started: int, t: Timing)

  ghost predicate OnTime(w: Start) {
    ClockRuns(w.air, w.air(0).now - 1) && InTime(w.air, w.m)
  }

  /** The buffer is as long as the payload. */
  predicate Whole(c: M.Client) {
    |c.buf| == c.length
  }

  lemma {:induction false} RunKeepsSize(c: M.Client, heard: seq<M.Arrival>)
    requires Whole(c)
    ensures Whole(M.Run(c, heard))
    decreases |heard|
  {
    if heard != [] {
      RunKeepsSize(M.OnFrame(c, heard[0].frame, heard[0].at), heard[1..]);
    }
  }

  /** The client and the moment after `n` pulls. */
  ghost function AfterTurns(w: Start, n: nat): (r: (M.Client, Moment))
    requires OnTime(w)
    ensures InTime(w.air, r.1)
    ensures Whole(w.c) ==> Whole(r.0)
  {
    if n == 0 then (w.c, w.m)
    else
      var (c, m) := AfterTurns(w, n - 1);
      var after := PullEnd(w.crc32, w.air, c, m, w.started, w.t).0;
      assert Whole(c) ==> Whole(Pulled(w.air, c, m, after)) by {
        if Whole(c) { RunKeepsSize(Asking(c), HeardIn(w.air, m.slot, after.slot)); }
      }
      (Pulled(w.air, c, m, after), after)
  }

  /** What came of one of them. */
  ghost function HeardInTurn(w: Start, k: nat): Heard
    requires OnTime(w)
  {
    var (c, m) := AfterTurns(w, k);
    PullEnd(w.crc32, w.air, c, m, w.started, w.t).1
  }

  /** How many pulls at the end met with silence, and how many there were in all. A turn that
      finds nothing to ask for is neither. */
  ghost function SilentTurns(w: Start, n: nat): nat
    requires OnTime(w)
  {
    if n == 0 then 0
    else match HeardInTurn(w, n - 1)
      case Silence => SilentTurns(w, n - 1) + 1
      case NothingToAsk => SilentTurns(w, n - 1)
      case _ => 0
  }

  ghost function PullsMade(w: Start, n: nat): nat
    requires OnTime(w)
  {
    if n == 0 then 0 else PullsMade(w, n - 1) + (if HeardInTurn(w, n - 1) == NothingToAsk then 0 else 1)
  }

  /** The loop goes on from here. */
  predicate Undecided(w: Start, c: M.Client, m: Moment) {
    m.now - w.started < w.t.hardMs && !c.gone && !M.Complete(c)
  }

  /** It went on after each turn before the n-th. */
  ghost predicate GoingUpTo(w: Start, n: nat)
    requires OnTime(w)
  {
    n > 0 ==>
      && GoingUpTo(w, n - 1) && SilentTurns(w, n - 1) < 12
      && Undecided(w, AfterTurns(w, n - 1).0, AfterTurns(w, n - 1).1)
  }

  /** The loop ends after `n` turns, and how: after twelve silent pulls in a row, or when the time
      is up, or with what the client has. */
  ghost predicate EndsAfter(w: Start, n: nat, r: Outcome)
    requires OnTime(w)
  {
    var (c, m) := AfterTurns(w, n);
    && GoingUpTo(w, n)
    && match r
       case Stalled => n > 0 && SilentTurns(w, n) >= 12
       case TimedOut => SilentTurns(w, n) < 12 && m.now - w.started >= w.t.hardMs
       case Gone => SilentTurns(w, n) < 12 && m.now - w.started < w.t.hardMs && c.gone
       case Returned(payload) =>
         && SilentTurns(w, n) < 12 && m.now - w.started < w.t.hardMs && !c.gone
         && M.Verified(w.crc32, c) && payload == c.buf
       case CrcFailed =>
         && SilentTurns(w, n) < 12 && m.now - w.started < w.t.hardMs && !c.gone
         && M.Complete(c) && !M.Verified(w.crc32, c)
       case NoManifest => false
  }

  /** And with which client, after how many pulls. */
  ghost predicate Ends(w: Start, n: nat, r: Outcome, c: M.Client, pulls: nat)
    requires OnTime(w)
  {
    EndsAfter(w, n, r) && AfterTurns(w, n).0 == c && PullsMade(w, n) == pulls
  }

  /** Where the loop stands after `n` turns, by its variables. */
  ghost predicate Traced(w: Start, n: nat, c: M.Client, m: Moment, pulls: nat, idle: nat)
    requires OnTime(w)
  {
    AfterTurns(w, n) == (c, m) && SilentTurns(w, n) == idle && PullsMade(w, n) == pulls && GoingUpTo(w, n)
  }

  lemma TraceOn(w: Start, n: nat, c: M.Client, m: Moment, pulls: nat, idle: nat, after: Moment, heard: Heard, d: M.Client)
    requires OnTime(w) && InTime(w.air, m) && Traced(w, n, c, m, pulls, idle) && Undecided(w, c, m) && idle < 12
    requires (after, heard) == PullEnd(w.crc32, w.air, c, m, w.started, w.t) && d == Pulled(w.air, c, m, after)
    ensures Traced(w, n + 1, d, after, Pulls(pulls, heard), Idle(idle, heard))
  {
    assert AfterTurns(w, n + 1) == (d, after);
    assert HeardInTurn(w, n) == heard;
  }

  /** What the checks at the head of the loop decide. */
  ghost predicate Decides(w: Start, c: M.Client, m: Moment, verdict: Option<Outcome>) {
    m.now - w.started < w.t.hardMs ==>
      match verdict
      case None => !c.gone && !M.Complete(c)
      case Some(Gone) => c.gone
      case Some(Returned(payload)) => !c.gone && M.Verified(w.crc32, c) && payload == c.buf
      case Some(CrcFailed) => !c.gone && M.Complete(c) && !M.Verified(w.crc32, c)
      case _ => false
  }

  lemma DecidedEnds(w: Start, n: nat, c: M.Client, m: Moment, pulls: nat, idle: nat, r: Outcome)
    requires OnTime(w) && Traced(w, n, c, m, pulls, idle) && idle < 12
    requires if r == TimedOut then m.now - w.started >= w.t.hardMs
             else m.now - w.started < w.t.hardMs && Decides(w, c, m, Some(r))
    ensures Ends(w, n, r, c, pulls)
  {
  }

  lemma StalledEnds(w: Start, n: nat, c: M.Client, m: Moment, pulls: nat, idle: nat)
    requires OnTime(w) && Traced(w, n, c, m, pulls, idle) && idle >= 12
    ensures Ends(w, n, Stalled, c, pulls)
  {
  }

  // ---- what the turns keep ------------------------------------------------------------------

  /** Only silence takes no time. */
  lemma PullTakesTime(crc32: Checksum, air: Air, c: M.Client, m: Moment, started: int, t: Timing)
    requires ClockRuns(air, air(0).now - 1) && InTime(air, m)
    ensures var (after, heard) := PullEnd(crc32, air, c, m, started, t);
            after.now == m.now ==> heard == Silence
  {
    var a := AnswerEnd(crc32, air, Asking(c), m, started, t);
    if a == m {
      assert M.Run(Asking(c), HeardIn(air, m.slot, a.slot)) == Asking(c);
    }
  }

  /** The turns of the loop in a setting. */
  ghost predicate In(x: Setting, w: Start) {
    && Sound(x) && OnTime(w) && w.air == x.air && w.crc32 == x.crc32 && w.c == x.c0
    && Kept(x, w.c) && During(x, x.air, w.m)
    && (x.lossless ==> OnSchedule(x, w.c, w.m, w.started, w.t, 0))
  }

  lemma OneTurnBack(w: Start, n: nat, c: M.Client, m: Moment, pulls: nat, idle: nat)
    returns (b: M.Client, at: Moment, made: nat, silent: nat, heard: Heard)
    requires OnTime(w) && n > 0 && Traced(w, n, c, m, pulls, idle)
    ensures InTime(w.air, at) && Traced(w, n - 1, b, at, made, silent) && Undecided(w, b, at) && silent < 12
    ensures (m, heard) == PullEnd(w.crc32, w.air, b, at, w.started, w.t) && c == Pulled(w.air, b, at, m)
    ensures pulls == Pulls(made, heard) && idle == Idle(silent, heard)
  {
    b, at := AfterTurns(w, n - 1).0, AfterTurns(w, n - 1).1;
    made, silent, heard := PullsMade(w, n - 1), SilentTurns(w, n - 1), HeardInTurn(w, n - 1);
  }

  /** Every turn keeps what the fetch relies on. */
  lemma {:induction false} TurnsKeep(x: Setting, w: Start, n: nat, c: M.Client, m: Moment)
    requires In(x, w) && GoingUpTo(w, n) && (c, m) == AfterTurns(w, n)
    ensures Kept(x, c) && During(x, x.air, m)
    decreases n
  {
    if n > 0 {
      var b, at := AfterTurns(w, n - 1).0, AfterTurns(w, n - 1).1;
      TurnsKeep(x, w, n - 1, b, at);
      PullKeeps(x, b, at, w.started, w.t, m, HeardInTurn(w, n - 1), c);
    }
  }

  /** On a steady air the pulls stay within their budget. */
  lemma {:induction false} TurnsSpend(x: Setting, w: Start, n: nat, c: M.Client, m: Moment)
    requires In(x, w) && x.steady && GoingUpTo(w, n) && (c, m) == AfterTurns(w, n)
    ensures WithinBudget(x.c0, c, PullsMade(w, n), SilentTurns(w, n))
    decreases n
  {
    if n == 0 {
      FullByCounting(w.c.have, w.c.count);
    } else {
      var b, at := AfterTurns(w, n - 1).0, AfterTurns(w, n - 1).1;
      TurnsKeep(x, w, n - 1, b, at);
      TurnsSpend(x, w, n - 1, b, at);
      PullKeeps(x, b, at, w.started, w.t, m, HeardInTurn(w, n - 1), c);
      PullWithinBudget(x, b, w.t, PullsMade(w, n - 1), SilentTurns(w, n - 1), HeardInTurn(w, n - 1), c);
    }
  }

  lemma TurnOnSchedule(x: Setting, w: Start, b: M.Client, at: Moment, made: nat, m: Moment, heard: Heard, c: M.Client)
    requires Sound(x) && x.lossless && w.air == x.air && w.crc32 == x.crc32 && Kept(x, b) && During(x, x.air, at)
    requires OnSchedule(x, b, at, w.started, w.t, made) && Undecided(w, b, at)
    requires (m, heard) == PullEnd(w.crc32, w.air, b, at, w.started, w.t) && c == Pulled(w.air, b, at, m)
    ensures During(x, x.air, m) && OnSchedule(x, c, m, w.started, w.t, made + 1) && heard == Progress
  {
    PullKeeps(x, b, at, w.started, w.t, m, heard, c);
    NothingToAskIsComplete(b, w.t.batch);
    PullOnSchedule(x, b, at, w.started, w.t, made, m, c, HeardIn(x.air, at.slot, m.slot), Need(b, w.t.batch));
  }

  /** On a lossless air every turn makes progress, one pull nearer the end. */
  lemma {:induction false} TurnsOnSchedule(x: Setting, w: Start, n: nat, c: M.Client, m: Moment)
    requires In(x, w) && x.lossless && GoingUpTo(w, n) && (c, m) == AfterTurns(w, n)
    ensures During(x, x.air, m) && OnSchedule(x, c, m, w.started, w.t, PullsMade(w, n)) && SilentTurns(w, n) == 0
    decreases n
  {
    if n > 0 {
      var b, at, made, silent, heard := OneTurnBack(w, n, c, m, PullsMade(w, n), SilentTurns(w, n));
      TurnsKeep(x, w, n - 1, b, at);
      TurnsOnSchedule(x, w, n - 1, b, at);
      TurnOnSchedule(x, w, b, at, made, m, heard, c);
    }
  }

  lemma SilenceGrows(w: Start, n: nat)
    requires OnTime(w) && GoingUpTo(w, n)
    ensures SilentTurns(w, n) <= 12
  {
  }

  // ---- the files ------------------------------------------------------------------------------

  /** The files on disk say what the client has. */
  ghost predicate WrittenDown(wanted: u16, c: M.Client, f: Files.Files) {
    f == Files.Files(Some(c.buf), Some(Files.MetaOf(wanted, c.crc, c.count, c.length, c.have)))
  }

  /** The client after the last of `n` turns that made progress, if one did. */
  ghost function LastProgress(w: Start, n: nat): (c: Option<M.Client>)
    requires OnTime(w)
    ensures Whole(w.c) && c.Some? ==> Whole(c.value)
  {
    if n == 0 then None
    else if HeardInTurn(w, n - 1) == Progress then Some(AfterTurns(w, n).0)
    else LastProgress(w, n - 1)
  }

  /** What the files hold after `n` turns: what a client that made progress wrote down last. */
  ghost function StoreAfter(w: Start, wanted: u16, f: Files.Files, n: nat): Files.Files
    requires OnTime(w)
  {
    match LastProgress(w, n)
    case None => f
    case Some(c) => Files.Files(Some(c.buf), Some(Files.MetaOf(wanted, c.crc, c.count, c.length, c.have)))
  }

  /** And when the loop has ended: a payload that is here or gone for good leaves none. */
  ghost function StoreAtEnd(w: Start, wanted: u16, f: Files.Files, n: nat, r: Outcome): Files.Files
    requires OnTime(w)
  {
    if r == Gone || r.Returned? then Files.NOTHING else StoreAfter(w, wanted, f, n)
  }

  lemma {:induction false} StoreStaysBacked(x: Setting, w: Start, wanted: u16, f: Files.Files, n: nat)
    requires In(x, w) && GoingUpTo(w, n) && x.backed && StoreBacked(x.payloads, x.crc32, f)
    ensures StoreBacked(x.payloads, x.crc32, StoreAfter(w, wanted, f, n))
    decreases n
  {
    if n > 0 {
      if HeardInTurn(w, n - 1) == Progress {
        var (c, m) := AfterTurns(w, n);
        TurnsKeep(x, w, n, c, m);
        SavedIsBacked(x.payloads, x.crc32, wanted, c);
      } else {
        StoreStaysBacked(x, w, wanted, f, n - 1);
      }
    }
  }

  /** How it ends in a setting, whichever way. */
  lemma EndsRight(x: Setting, w: Start, n: nat, r: Outcome, c: M.Client, pulls: nat, wanted: u16, f: Files.Files,
                  g: Files.Files)
    requires In(x, w) && Ends(w, n, r, c, pulls) && g == StoreAtEnd(w, wanted, f, n, r)
    requires x.backed ==> StoreBacked(x.payloads, x.crc32, f)
    ensures Kept(x, c)
    ensures r.Returned? ==> M.Verified(w.crc32, c) && r.payload == c.buf
    ensures x.honest ==> r != CrcFailed && (r.Returned? ==> c.pid in x.payloads && r.payload == x.payloads[c.pid])
    ensures x.steady ==> pulls <= MAX_IDLE * (x.c0.count - |x.c0.have|)
    ensures x.lossless ==> r.Returned? && pulls == Need(x.c0, w.t.batch)
    ensures x.backed ==> StoreBacked(x.payloads, x.crc32, g)
    ensures r == Gone || r.Returned? ==> g == Files.NOTHING
  {
    var m := AfterTurns(w, n).1;
    TurnsKeep(x, w, n, c, m);
    if x.honest {
      Safety.CompleteIsVerified(x.payloads, x.crc32, c);
    }
    if x.lossless {
      TurnsOnSchedule(x, w, n, c, m);
      NeedIsMissing(x.payloads, x.crc32, c, w.t.batch);
    }
    if x.backed {
      StoreStaysBacked(x, w, wanted, f, n);
    }
    if x.steady {
      TurnsSpend(x, w, n, c, m);
      SilenceGrows(w, n);
      BudgetHolds(x, c, pulls, SilentTurns(w, n));
    }
  }

  /** All that may be relied on from `w` on. */
  ghost function SettingOf(wanted: u16, payloads: map<u16, bytes>, w: Start, f: Files.Files): Setting
    requires Safety.Carriable(payloads) && OnTime(w) && w.c.haveManifest
  {
    var honest := HonestAir(payloads, w.crc32, w.air, w.m.slot) && Safety.Inv(payloads, w.crc32, w.c);
    Setting(wanted, payloads, w.crc32, w.air, w.m.slot, w.c, honest,
            SteadyAir(w.c, w.air, w.m.slot) && w.c.count > 0 && w.c.have <= Below(w.c.count),
            WantedAir(wanted, w.air, w.m.slot) && w.c.pid == wanted,
            honest && Distinct(payloads, w.crc32) && StoreBacked(payloads, w.crc32, f),
            LosslessAir(payloads, w.crc32, w.air, w.c, w.m, w.started, w.t))
  }

  lemma SettingOfIsIn(wanted: u16, payloads: map<u16, bytes>, w: Start, f: Files.Files, x: Setting)
    requires Safety.Carriable(payloads) && OnTime(w) && w.c.haveManifest && x == SettingOf(wanted, payloads, w, f)
    ensures In(x, w)
  {
    if x.steady { FullByCounting(w.c.have, w.c.count); }
  }

  /** What a chunk loop that started from `w` comes to, in the world. */
  lemma EndsRightInWorld(wanted: u16, payloads: map<u16, bytes>, w: Start, n: nat, r: Outcome, c: M.Client, pulls: nat,
                         f: Files.Files, g: Files.Files)
    requires Safety.Carriable(payloads) && OnTime(w) && w.c.haveManifest
    requires Ends(w, n, r, c, pulls) && g == StoreAtEnd(w, wanted, f, n, r)
    ensures r.Returned? ==> M.Verified(w.crc32, c) && r.payload == c.buf
    ensures r == Gone || r.Returned? ==> g == Files.NOTHING
    ensures c.haveManifest
    ensures HonestAir(payloads, w.crc32, w.air, w.m.slot) && Safety.Inv(payloads, w.crc32, w.c) ==>
              && Safety.Inv(payloads, w.crc32, c) && r != CrcFailed
              && (r.Returned? ==> c.pid in payloads && r.payload == payloads[c.pid])
              && (Distinct(payloads, w.crc32) && StoreBacked(payloads, w.crc32, f) ==> StoreBacked(payloads, w.crc32, g))
    ensures SteadyAir(w.c, w.air, w.m.slot) && w.c.count > 0 && w.c.have <= Below(w.c.count) ==>
              c.pid == w.c.pid && pulls <= MAX_IDLE * (w.c.count - |w.c.have|)
    ensures LosslessAir(payloads, w.crc32, w.air, w.c, w.m, w.started, w.t) ==>
              r == Returned(payloads[w.c.pid]) && pulls == Need(w.c, w.t.batch)
    ensures WantedAir(wanted, w.air, w.m.slot) && w.c.pid == wanted ==> c.pid == wanted
  {
    var x := SettingOf(wanted, payloads, w, f);
    SettingOfIsIn(wanted, payloads, w, f, x);
    EndsRight(x, w, n, r, c, pulls, wanted, f, g);
  }

  // ---- the resume ------------------------------------------------------------------------------

  /** What the client is once the partial on disk has been looked at: with one of this very
      identity it holds all that it held and every claim within range, and has the partial's
      bytes; otherwise it is what it was. */
  predicate Resumed(w: M.Client, f: Files.Files, c: M.Client) {
    if f.meta.Some? && f.buf.Some? && |f.buf.value| == f.meta.value.length
       && f.meta.value.crc == w.crc && f.meta.value.count == w.count && f.meta.value.length == w.length then
      && (forall i: u16 :: i in c.have <==> i in w.have || (i in f.meta.value.have && i < w.count))
      && c.buf == f.buf.value && c == w.(have := c.have, buf := c.buf)
    else c == w
  }

  /** And what is on disk then: the partial of another payload is discarded. */
  function FilesAfterResume(w: M.Client, f: Files.Files): Files.Files {
    if f.meta.Some? && f.buf.Some? && |f.buf.value| == f.meta.value.length
       && !(f.meta.value.crc == w.crc && f.meta.value.count == w.count && f.meta.value.length == w.length)
    then Files.Files(None, None) else f
  }

  // ---- from one fetch to the next -----------------------------------------------------------------

  lemma WrittenIsResumed(wanted: u16, c: M.Client, f: Files.Files, d: M.Client, e: M.Client)
    requires Whole(c) && WrittenDown(wanted, c, f) && Resumed(d, f, e)
    requires d.crc == c.crc && d.count == c.count && d.length == c.length
    ensures e.buf == c.buf && forall i: u16 :: i in e.have <==> i in d.have || (i in c.have && i < d.count)
  {
  }

  /** A fetch that stopped after `n` turns, on any air: a later one whose announcement agrees in
      crc, count and length goes on with every byte and every chunk in range that the first
      had after its last progress. */
  lemma NothingSavedIsLost(w: Start, wanted: u16, f: Files.Files, n: nat, c: M.Client, d: M.Client, e: M.Client)
    requires OnTime(w) && Whole(w.c) && LastProgress(w, n) == Some(c)
    requires d.crc == c.crc && d.count == c.count && d.length == c.length
    requires Resumed(d, StoreAfter(w, wanted, f, n), e)
    ensures e.buf == c.buf && forall i: u16 :: i in e.have <==> i in d.have || (i in c.have && i < d.count)
  {
    WrittenIsResumed(wanted, c, StoreAfter(w, wanted, f, n), d, e);
  }
}
