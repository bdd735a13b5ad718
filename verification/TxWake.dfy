/** What wake() does to the time the head frame can stay: it starts the state machine over
    and leaves the frame where it is (src/MeshtasticTransport.cpp). */
module TxWake {
  import opened Wire
  import opened Word32
  import opened TxModel
  import opened TxTiming

  /** As TxTiming.Paced, with wake() allowed. */
  predicate PacedOrWoken(p: int, ops: seq<Op>, x: Pace)
    decreases |ops|
  {
    ops != [] ==>
      if ops[0].DoService? then
        p <= ops[0].at <= p + x.gap && ops[0].r.draw <= 255 * x.slotMs && PacedOrWoken(ops[0].at, ops[1..], x)
      else PacedOrWoken(p, ops[1..], x)
  }

  function Wakes(ops: seq<Op>): nat {
    if ops == [] then 0 else (if ops[0].DoWake? then 1 else 0) + Wakes(ops[1..])
  }

  // ---- every wake costs one bound ------------------------------------------------------------

  /** Wherever a wake finds the head, it is gone one bound later at the latest, or by the
      deadline it had. */
  lemma WakeTracked(s: Tx, p: int, lo: int, hi: int, x: Pace)
    requires Tracked(s, p, lo, hi, x) && hi + Bound(x) - lo < HALF
    ensures Tracked(Wake(s), p, lo, hi + Bound(x), x)
  {
    AttemptsFit(s, x);
  }

  /** What one operation leaves of the frame's time: `late` stays where it is. */
  lemma WakesAddUp(ops: seq<Op>, b: nat, hi: int, late: int)
    requires ops != [] && late == hi + Wakes(ops) * b
    ensures late == (if ops[0].DoWake? then hi + b else hi) + Wakes(ops[1..]) * b
    ensures Wakes(ops[1..]) * b >= 0
  {
    OneMore(Wakes(ops[1..]), b);
    if ops[0].DoWake? {
      assert Wakes(ops) == Wakes(ops[1..]) + 1;
    } else {
      assert Wakes(ops) == Wakes(ops[1..]);
    }
  }

  lemma OneMore(w: nat, b: nat)
    ensures (w + 1) * b == w * b + b && w * b >= 0
  {
    MulMonotone(0, w, b);
  }

  predicate GoneBy(late: int, e: Option<Exit>, last: int, x: Pace) {
    match e
    case Some(e) => e.at <= late && e.deferrals <= MAX_ATTEMPTS
    case None => last + x.gap <= late
  }

  lemma HeadIsLate(s: Tx, p: int, lo: int, hi: int, x: Pace)
    requires Tracked(s, p, lo, hi, x)
    ensures p + x.gap <= hi
  {
    MulMonotone(0, MAX_ATTEMPTS - s.queue[0].attempts, Cycle(x));
  }

  lemma {:induction false} HeadTrackedThroughWakes(s: Tx, p: int, ops: seq<Op>, lo: int, hi: int, late: int, x: Pace,
                                                   before: nat)
    requires Tracked(s, p, lo, hi, x) && PacedOrWoken(p, ops, x) && s.deferrals >= before
    requires late == hi + Wakes(ops) * Bound(x) && late - lo < HALF
    requires s.deferrals - before <= s.queue[0].attempts
    ensures GoneBy(late, FirstExit(s, ops, before), LastService(p, ops), x)
    decreases |ops|
  {
    if ops == [] {
      HeadIsLate(s, p, lo, hi, x);
    } else {
      var o := Step(s, ops[0]);
      StepOk(s, ops[0]);
      DeferralsGrow(s, ops[0]);
      WakesAddUp(ops, Bound(x), hi, late);
      if ops[0].DoService? {
        ServiceTracked(s, p, ops[0].at, ops[0].r, lo, hi, x);
        if o.left == [] {
          HeadTrackedThroughWakes(o.next, ops[0].at, ops[1..], lo, hi, late, x, before);
        }
      } else if ops[0].DoWake? {
        WakeTracked(s, p, lo, hi, x);
        HeadTrackedThroughWakes(o.next, p, ops[1..], lo, hi + Bound(x), late, x, before);
      } else {
        QuietOpTracked(s, p, ops[0], lo, hi, x);
        HeadTrackedThroughWakes(o.next, p, ops[1..], lo, hi, late, x, before);
      }
    }
  }

  /** With w calls of wake() in the run, a due, untried head is gone within w + 1 times the
      bound, still after at most 8 busy scans, whatever the radio answers. */
  lemma HeadLeavesDespiteWakes(s: Tx, p: int, ops: seq<Op>, x: Pace)
    requires Ok(s) && s.queue != [] && !Active(s) && s.queue[0].attempts == 0
    requires s.queue[0].txAfter <= p && PacedOrWoken(p, ops, x)
    requires p + (Wakes(ops) + 1) * Bound(x) - s.queue[0].txAfter < HALF
    ensures match FirstExit(s, ops, s.deferrals)
            case Some(e) => e.at - p <= (Wakes(ops) + 1) * Bound(x) && e.deferrals <= 8
            case None => LastService(p, ops) + x.gap - p <= (Wakes(ops) + 1) * Bound(x)
  {
    assert (Wakes(ops) + 1) * Bound(x) == Wakes(ops) * Bound(x) + Bound(x);
    MulMonotone(0, Wakes(ops), Bound(x));
    HeadTrackedThroughWakes(s, p, ops, s.queue[0].txAfter, p + Bound(x), p + (Wakes(ops) + 1) * Bound(x), x, s.deferrals);
  }

  // ---- and without end to them there is no bound ---------------------------------------------

  /** A scan can be started; then the channel is free and the transmission starts. */
  const SCAN := Radio(false, false, false, false, false, true, true, true, 0)
  const FREE := Radio(true, false, false, true, false, true, true, true, 0)

  predicate Untried(s: Tx) {
    Ok(s) && s.queue != [] && !Active(s) && s.queue[0].attempts == 0
  }

  lemma HalfTurn(s: Tx, at: int, r: Radio)
    requires Ok(s) && s.queue != [] && s.state != TX_SENDING && s.queue[0].attempts == 0
    requires r == SCAN || r == FREE
    ensures var o := Service(s, at, r);
            && Ok(o.next) && o.left == [] && o.next.queue == s.queue && o.next.deferrals == s.deferrals
            && (!Active(s) ==> o.next.state != TX_SENDING)
    requires s.state == TX_SCANNING ==> r == FREE
  {
    InterruptOk(s, at, r);
    DriveOk(OnInterrupt(s, at, r).next, at, r);
    SinceSelf(at);
  }

  lemma SinceSelf(at: int)
    ensures Since(at, at) == 0
  {
  }

  /** t is what a turn at `at` makes of s: nothing left, and nothing in the queue moved. */
  predicate Turned(s: Tx, at: int, t: Tx)
    requires Ok(s) && s.queue != []
  {
    var a := Service(s, at, SCAN);
    && Ok(a.next) && a.left == [] && a.next.queue == s.queue && a.next.deferrals == s.deferrals
    && var b := Service(a.next, at, FREE);
       && Ok(b.next) && b.left == [] && b.next.queue == s.queue && b.next.deferrals == s.deferrals
       && t == Wake(b.next)
       && (0 <= at - s.queue[0].txAfter < HALF ==> b.next.state == TX_SENDING && b.next.frame == s.queue[0].frame)
  }

  /** One turn leaves the frame where it was; and a frame that is due, by less than 2^31 ms,
      has been put on air in it once more. */
  lemma OneTurn(s: Tx, at: int) returns (t: Tx)
    requires Untried(s)
    ensures Turned(s, at, t)
    ensures Untried(t) && t.queue == s.queue && t.deferrals == s.deferrals
  {
    HalfTurn(s, at, SCAN);
    var a := Service(s, at, SCAN);
    HalfTurn(a.next, at, FREE);
    var b := Service(a.next, at, FREE);
    t := Wake(b.next);
    if 0 <= at - s.queue[0].txAfter < HALF {
      SignedIsDifference(at, s.queue[0].txAfter);
    }
  }

  /** The head is still there: what one more operation in front makes of a run that keeps it. */
  predicate Stays(s: Tx, p: int, ops: seq<Op>, x: Pace, before: nat, end: int)
    requires Ok(s) && s.deferrals >= before
  {
    && PacedOrWoken(p, ops, x) && FirstExit(s, ops, before) == None && LastService(p, ops) == end
    && Run(s, ops).queue == s.queue
  }

  lemma StaysLonger(s: Tx, p: int, op: Op, q: int, rest: seq<Op>, x: Pace, before: nat, end: int)
    requires Ok(s) && s.deferrals >= before && Step(s, op).left == []
    requires Ok(Step(s, op).next) && Step(s, op).next.deferrals >= before && Step(s, op).next.queue == s.queue
    requires q == if op.DoService? then op.at else p
    requires op.DoService? ==> p <= op.at <= p + x.gap && op.r.draw <= 255 * x.slotMs
    requires Stays(Step(s, op).next, q, rest, x, before, end)
    ensures Stays(s, p, [op] + rest, x, before, end)
  {
    assert ([op] + rest)[1..] == rest;
  }

  /** Scan, send, and be woken before the transmission is done. */
  lemma TurnStays(s: Tx, p: int, at: int, t: Tx, rest: seq<Op>, x: Pace, before: nat, end: int) returns (ops: seq<Op>)
    requires Untried(s) && s.deferrals >= before && at == p + x.gap
    requires Untried(t) && t.queue == s.queue && t.deferrals == s.deferrals && Turned(s, at, t)
    requires Stays(t, at, rest, x, before, end)
    ensures ops == [DoService(SCAN, at)] + ([DoService(FREE, at)] + ([DoWake] + rest))
    ensures Stays(s, p, ops, x, before, end)
  {
    var a := Service(s, at, SCAN).next;
    var b := Service(a, at, FREE).next;
    StaysLonger(b, at, DoWake, at, rest, x, before, end);
    StaysLonger(a, at, DoService(FREE, at), at, [DoWake] + rest, x, before, end);
    StaysLonger(s, p, DoService(SCAN, at), at, [DoService(FREE, at)] + ([DoWake] + rest), x, before, end);
    ops := [DoService(SCAN, at)] + ([DoService(FREE, at)] + ([DoWake] + rest));
  }

  /** A turn in front of any run that keeps the head gives one that keeps it. */
  lemma TurnInFront(s: Tx, p: int, at: int, x: Pace, before: nat) returns (t: Tx)
    requires Untried(s) && s.deferrals >= before && at == p + x.gap
    ensures Untried(t) && t.deferrals >= before
    ensures forall rest, end :: Stays(t, at, rest, x, before, end) ==>
              Stays(s, p, [DoService(SCAN, at)] + ([DoService(FREE, at)] + ([DoWake] + rest)), x, before, end)
  {
    t := OneTurn(s, at);
    forall rest, end | Stays(t, at, rest, x, before, end)
      ensures Stays(s, p, [DoService(SCAN, at)] + ([DoService(FREE, at)] + ([DoWake] + rest)), x, before, end)
    {
      var ops := TurnStays(s, p, at, t, rest, x, before, end);
    }
  }

  /** n turns, one after the other. */
  lemma {:induction false} TurnsKeepHead(s: Tx, p: int, x: Pace, n: nat, before: nat, end: int) returns (ops: seq<Op>)
    requires Untried(s) && s.deferrals >= before && end == p + n * x.gap
    ensures Stays(s, p, ops, x, before, end)
    decreases n
  {
    if n == 0 {
      ops := [];
    } else {
      var at := p + x.gap;
      var t := TurnInFront(s, p, at, x, before);
      OneMore(n - 1, x.gap);
      var rest := TurnsKeepHead(t, at, x, n - 1, before, end);
      ops := [DoService(SCAN, at)] + ([DoService(FREE, at)] + ([DoWake] + rest));
    }
  }

  /** Without a limit on the wakes there is no bound at all: for any state with an untried
      head, any pace that lets time pass and any B, a paced run keeps it queued for longer
      than B ms. */
  lemma WakesDeferForever(s: Tx, p: int, x: Pace, b: nat) returns (ops: seq<Op>)
    requires Untried(s) && x.gap > 0
    ensures PacedOrWoken(p, ops, x) && FirstExit(s, ops, s.deferrals) == None
    ensures LastService(p, ops) - p > b && Run(s, ops).queue == s.queue
  {
    ops := TurnsKeepHead(s, p, x, b + 1, s.deferrals, p + (b + 1) * x.gap);
    MulMonotone(1, x.gap, b + 1);
    Commutes(b + 1, x.gap);
  }

  lemma Commutes(a: int, b: int)
    ensures a * b == b * a
  {
  }
}
