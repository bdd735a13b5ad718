/** How long the head frame of the transmit queue can stay there. */
module TxTiming {
  import opened Wire
  import opened Word32
  import opened TxModel

  /** service() is called at least every `gap` ms and a contention delay is at most
      255 slots. */
  datatype Pace = Pace(gap: nat, slotMs: nat)

  /** The longest a deferred attempt can take, from one scan to the next. */
  function Cycle(x: Pace): nat {
    2 * x.gap + SCAN_LIMIT_MS + 255 * x.slotMs
  }

  /** What sending takes at most, TX-done or not. */
  function SendTime(x: Pace): nat {
    SEND_LIMIT_MS + x.gap
  }

  /** How long an untried head can take in all, once it is due. */
  function Bound(x: Pace): nat {
    MAX_ATTEMPTS * Cycle(x) + 2 * x.gap + SEND_LIMIT_MS
  }

  /** The attempts the head frame has left, before it is sent without asking. */
  function CyclesLeft(s: Tx, x: Pace): nat
    requires Ok(s) && s.queue != []
  {
    (MAX_ATTEMPTS - s.queue[0].attempts) * Cycle(x)
  }

  /** When the head frame is gone at the latest, if the last service() was at `p`. */
  function Deadline(s: Tx, p: int, x: Pace): int
    requires Ok(s) && s.queue != []
  {
    match s.state
    case TX_SENDING => s.stateMs + SendTime(x)
    case TX_SCANNING => s.stateMs + CyclesLeft(s, x) + SendTime(x)
    case _ => Max(s.queue[0].txAfter, p) + x.gap + CyclesLeft(s, x) + SendTime(x)
  }

  /** A head that has been deferred was given its new time by `p`. */
  predicate Rerolled(s: Tx, p: int, x: Pace)
    requires s.queue != []
  {
    s.queue[0].attempts > 0 ==> s.queue[0].txAfter <= p + 255 * x.slotMs
  }

  /** After a service() at `p` that left the head in place: no timer has run out, the
      deadline is met so far, and everything the firmware compares lies between `lo`
      and `hi`. */
  predicate Tracked(s: Tx, p: int, lo: int, hi: int, x: Pace) {
    && Ok(s) && s.queue != [] && hi - lo < HALF
    && lo <= p && lo <= s.queue[0].txAfter && (Active(s) ==> s.queue[0].txAfter <= s.stateMs <= p)
    && Rerolled(s, p, x)
    && (s.state == TX_SENDING ==> p <= s.stateMs + SEND_LIMIT_MS)
    && (s.state == TX_SCANNING ==> p <= s.stateMs + SCAN_LIMIT_MS)
    && Deadline(s, p, x) <= hi
  }

  /** What may become of head frame `head` in a step that ends at `now`. */
  predicate Outcome(s: Tx, head: Item, o: Out, now: int, lo: int, hi: int, x: Pace) {
    if o.left != [] then
      o.left[0].frame == head.frame && o.next.deferrals - s.deferrals <= MAX_ATTEMPTS - head.attempts
    else
      && Tracked(o.next, now, lo, hi, x)
      && o.next.queue[0].frame == head.frame
      && o.next.deferrals - s.deferrals == o.next.queue[0].attempts - head.attempts
  }

  lemma SinceIs(now: int, past: int)
    requires -HALF < now - past < HALF
    ensures Since(now, past) == now - past
  {
    SignedIsDifference(now, past);
  }

  lemma OneCycle(s: Tx, x: Pace)
    requires Ok(s) && s.queue != [] && s.queue[0].attempts < MAX_ATTEMPTS
    ensures CyclesLeft(s, x) >= Cycle(x)
    ensures CyclesLeft(s, x) == (MAX_ATTEMPTS - (s.queue[0].attempts + 1)) * Cycle(x) + Cycle(x)
  {
    MulMonotone(1, MAX_ATTEMPTS - s.queue[0].attempts, Cycle(x));
  }

  lemma AttemptsFit(s: Tx, x: Pace)
    requires Ok(s) && s.queue != []
    ensures CyclesLeft(s, x) <= MAX_ATTEMPTS * Cycle(x)
    ensures s.queue[0].attempts > 0 ==> CyclesLeft(s, x) + Cycle(x) <= MAX_ATTEMPTS * Cycle(x)
  {
    MulMonotone(MAX_ATTEMPTS - s.queue[0].attempts, MAX_ATTEMPTS, Cycle(x));
    if s.queue[0].attempts > 0 {
      MulStep(MAX_ATTEMPTS - s.queue[0].attempts, MAX_ATTEMPTS, Cycle(x));
    }
  }

  // ---- driveTx, by state --------------------------------------------------------------

  lemma DriveSending(s: Tx, now: int, r: Radio, lo: int, hi: int, x: Pace)
    requires Ok(s) && s.state == TX_SENDING && hi - lo < HALF && Rerolled(s, now, x)
    requires lo <= s.queue[0].txAfter <= s.stateMs <= now <= hi && Deadline(s, now, x) <= hi
    ensures Outcome(s, s.queue[0], DriveTx(s, now, r), now, lo, hi, x)
  {
    SinceIs(now, s.stateMs);
  }

  lemma DriveScanning(s: Tx, now: int, r: Radio, lo: int, hi: int, x: Pace)
    requires Ok(s) && s.state == TX_SCANNING && hi - lo < HALF && Rerolled(s, now, x)
    requires lo <= s.queue[0].txAfter <= s.stateMs <= now <= hi
    requires now <= s.stateMs + SCAN_LIMIT_MS + x.gap && Deadline(s, now, x) <= hi
    ensures Outcome(s, s.queue[0], DriveTx(s, now, r), now, lo, hi, x)
  {
    SinceIs(now, s.stateMs);
    OneCycle(s, x);
  }

  /** What driveTx makes of a head that it finds waiting. */
  lemma DriveIs(s: Tx, now: int, r: Radio)
    requires Ok(s) && s.queue != [] && !Active(s)
    requires -HALF < now - s.queue[0].txAfter < HALF
    ensures var o, t := DriveTx(s, now, r), s.(state := TX_WAITING);
            if now < s.queue[0].txAfter then o == Out(t, [])
            else if s.queue[0].attempts < MAX_ATTEMPTS && r.scanOk then
              o == Out(t.(state := TX_SCANNING, stateMs := now), [])
            else o == StartSending(t, now, r.driveOk)
  {
    SinceIs(now, s.queue[0].txAfter);
  }

  lemma DriveWaiting(s: Tx, p: int, now: int, r: Radio, lo: int, hi: int, x: Pace)
    requires Ok(s) && s.queue != [] && !Active(s) && hi - lo < HALF && Rerolled(s, now, x)
    requires lo <= s.queue[0].txAfter && lo <= p <= now <= p + x.gap && Deadline(s, p, x) <= hi
    ensures Outcome(s, s.queue[0], DriveTx(s, now, r), now, lo, hi, x)
  {
    DriveIs(s, now, r);
    DriveOk(s, now, r);
  }

  // ---- one service() --------------------------------------------------------------------

  /** The scan found the channel busy: one cycle is used up. */
  lemma DeferKeepsDeadline(s: Tx, now: int, draw: u32, x: Pace)
    requires Ok(s) && s.state == TX_SCANNING && draw <= 255 * x.slotMs
    requires s.stateMs <= now <= s.stateMs + SCAN_LIMIT_MS + x.gap
    ensures Ok(Defer(s, now, draw)) && Deadline(Defer(s, now, draw), now, x) <= Deadline(s, now, x)
  {
    OneCycle(s, x);
    var t := Defer(s, now, draw);
    assert t.queue[0].attempts == s.queue[0].attempts + 1;
    assert forall i :: 0 < i < |t.queue| ==> t.queue[i] == s.queue[i];
  }

  lemma Leaves(s: Tx, a: Out, now: int, r: Radio, lo: int, hi: int, x: Pace)
    requires Ok(s) && s.queue != [] && Ok(a.next)
    requires a.left != [] && a.left[0].frame == s.queue[0].frame && a.next.deferrals == s.deferrals
    ensures var b := DriveTx(a.next, now, r);
            Outcome(s, s.queue[0], Out(b.next, a.left + b.left), now, lo, hi, x)
  {
  }

  lemma ServiceScanning(s: Tx, p: int, now: int, r: Radio, lo: int, hi: int, x: Pace)
    requires Tracked(s, p, lo, hi, x) && s.state == TX_SCANNING
    requires p <= now <= p + x.gap && r.draw <= 255 * x.slotMs
    ensures Outcome(s, s.queue[0], Service(s, now, r), now, lo, hi, x)
  {
    OneCycle(s, x);
    InterruptOk(s, now, r);
    var a := OnInterrupt(s, now, r);
    var b := DriveTx(a.next, now, r);
    if a.left != [] {
      Leaves(s, a, now, r, lo, hi, x);
    } else if a.next.state == TX_WAITING {
      DeferKeepsDeadline(s, now, r.draw, x);
      DriveWaiting(a.next, now, now, r, lo, hi, x);
      assert a.left + b.left == b.left;
    } else if a.next.state == TX_SENDING {
      DriveSending(a.next, now, r, lo, hi, x);
      assert a.left + b.left == b.left;
    } else {
      DriveScanning(s, now, r, lo, hi, x);
      assert a.left + b.left == b.left;
    }
  }

  lemma ServiceTracked(s: Tx, p: int, now: int, r: Radio, lo: int, hi: int, x: Pace)
    requires Tracked(s, p, lo, hi, x) && p <= now <= p + x.gap && r.draw <= 255 * x.slotMs
    ensures Outcome(s, s.queue[0], Service(s, now, r), now, lo, hi, x)
    ensures now <= hi
  {
    if s.state == TX_SCANNING {
      OneCycle(s, x);
      ServiceScanning(s, p, now, r, lo, hi, x);
    } else {
      InterruptOk(s, now, r);
      var a := OnInterrupt(s, now, r);
      var b := DriveTx(a.next, now, r);
      if a.left != [] {
        Leaves(s, a, now, r, lo, hi, x);
      } else {
        assert a.next == s && a.left + b.left == b.left;
        if s.state == TX_SENDING {
          DriveSending(s, now, r, lo, hi, x);
        } else {
          DriveWaiting(s, p, now, r, lo, hi, x);
        }
      }
    }
  }

  // ---- a run ----------------------------------------------------------------------------

  /** Anything but wake, with service() often enough and delays in range. */
  predicate Paced(p: int, ops: seq<Op>, x: Pace)
    decreases |ops|
  {
    ops != [] ==>
      if ops[0].DoService? then
        p <= ops[0].at <= p + x.gap && ops[0].r.draw <= 255 * x.slotMs && Paced(ops[0].at, ops[1..], x)
      else !ops[0].DoWake? && Paced(p, ops[1..], x)
  }

  /** The time of the last service() of the run. */
  function LastService(p: int, ops: seq<Op>): int
    decreases |ops|
  {
    if ops == [] then p
    else LastService(if ops[0].DoService? then ops[0].at else p, ops[1..])
  }

  /** The service() in which the first frame leaves: its time, and how many scans were
      found busy up to and including it. */
  datatype Exit = Exit(at: int, deferrals: nat)

  function FirstExit(s: Tx, ops: seq<Op>, before: nat): Option<Exit>
    requires Ok(s) && s.deferrals >= before
    decreases |ops|
  {
    if ops == [] then None
    else
      StepOk(s, ops[0]);
      DeferralsGrow(s, ops[0]);
      var o := Step(s, ops[0]);
      if o.left != [] && ops[0].DoService? then Some(Exit(ops[0].at, o.next.deferrals - before))
      else FirstExit(o.next, ops[1..], before)
  }

  lemma DeferralsGrow(s: Tx, op: Op)
    requires Ok(s)
    ensures Step(s, op).next.deferrals >= s.deferrals
  {
    if op.DoService? {
      InterruptOk(s, op.at, op.r);
      DriveKeepsDeferrals(OnInterrupt(s, op.at, op.r).next, op.at, op.r);
    }
  }

  lemma DriveKeepsDeferrals(s: Tx, now: int, r: Radio)
    requires Ok(s)
    ensures DriveTx(s, now, r).next.deferrals == s.deferrals
  {
  }

  lemma QuietOpTracked(s: Tx, p: int, op: Op, lo: int, hi: int, x: Pace)
    requires Tracked(s, p, lo, hi, x) && !op.DoService? && !op.DoWake?
    ensures var o := Step(s, op);
            && o.left == [] && Tracked(o.next, p, lo, hi, x)
            && o.next.queue[0] == s.queue[0] && o.next.deferrals == s.deferrals
  {
    StepOk(s, op);
  }

  lemma {:induction false} HeadTracked(s: Tx, p: int, ops: seq<Op>, lo: int, hi: int, x: Pace, before: nat)
    requires Tracked(s, p, lo, hi, x) && Paced(p, ops, x) && s.deferrals >= before
    requires s.deferrals - before <= s.queue[0].attempts
    ensures match FirstExit(s, ops, before)
            case Some(e) => e.at <= hi && e.deferrals <= MAX_ATTEMPTS
            case None => LastService(p, ops) + x.gap <= hi
    decreases |ops|
  {
    if ops != [] {
      var o := Step(s, ops[0]);
      StepOk(s, ops[0]);
      DeferralsGrow(s, ops[0]);
      if ops[0].DoService? {
        ServiceTracked(s, p, ops[0].at, ops[0].r, lo, hi, x);
        if o.left == [] {
          HeadTracked(o.next, ops[0].at, ops[1..], lo, hi, x, before);
        }
      } else {
        QuietOpTracked(s, p, ops[0], lo, hi, x);
        HeadTracked(o.next, p, ops[1..], lo, hi, x, before);
      }
    }
  }

  /** Bounded head-of-queue time. A head frame that is due at `p` and has not been
      tried yet is gone at the latest 8*(2g + 200 + 255*slot) + 2g + 5000 ms later,
      after at most 8 busy scans, whatever the radio answers and even if every
      interrupt is lost - in any run without wake() that calls service() at least
      every g ms. The clock may wrap on the way: all that is asked is that less than
      2^31 ms lie between the frame's time and the end of the bound. */
  lemma HeadLeavesInTime(s: Tx, p: int, ops: seq<Op>, x: Pace)
    requires Ok(s) && s.queue != [] && !Active(s) && s.queue[0].attempts == 0
    requires s.queue[0].txAfter <= p && Paced(p, ops, x)
    requires p + MAX_ATTEMPTS * Cycle(x) + 2 * x.gap + SEND_LIMIT_MS - s.queue[0].txAfter < HALF
    ensures var bound := MAX_ATTEMPTS * (2 * x.gap + 200 + 255 * x.slotMs) + 2 * x.gap + 5000;
            match FirstExit(s, ops, s.deferrals)
            case Some(e) => e.at - p <= bound && e.deferrals <= 8
            case None => LastService(p, ops) + x.gap - p <= bound
  {
    HeadTracked(s, p, ops, s.queue[0].txAfter, Deadline(s, p, x), x, s.deferrals);
  }

  /** What happens past that limit: a frame that has been due for 2^31 ms or more, and
      less than 2^32, is taken for one that is not due yet, and waits. */
  lemma OverdueLooksEarly(s: Tx, now: int, r: Radio)
    requires Ok(s) && s.queue != [] && s.state == TX_WAITING
    requires HALF <= now - s.queue[0].txAfter < WRAP
    ensures DriveTx(s, now, r) == Out(s, [])
  {
    SignedIsDifference(now - WRAP, s.queue[0].txAfter);
    assert (now - WRAP) % WRAP == now % WRAP;
  }

  /** The same the other way round: a frame that is due in more than 2^31 ms, and less
      than 2^32, is taken for one that is overdue, and is tried or sent at once. */
  lemma FarAheadLooksDue(s: Tx, now: int, r: Radio)
    requires Ok(s) && s.queue != [] && s.state == TX_WAITING
    requires HALF < s.queue[0].txAfter - now < WRAP
    ensures DriveTx(s, now, r) != Out(s, [])
  {
    HeldBackIff(s, now, r);
    DivModUnique(now - s.queue[0].txAfter, WRAP, -1, now - s.queue[0].txAfter + WRAP);
  }

  lemma SignedIsNegative(a: int, b: int)
    ensures Signed(Sub32(a % WRAP, b % WRAP)) < 0 <==> (a - b) % WRAP >= HALF
  {
    var p, q, d := a / WRAP, b / WRAP, a % WRAP - b % WRAP;
    assert a == p * WRAP + a % WRAP && b == q * WRAP + b % WRAP;
    var r := if d < 0 then d + WRAP else d;
    DivModUnique(a - b, WRAP, if d < 0 then p - q - 1 else p - q, r);
    assert Sub32(a % WRAP, b % WRAP) == r;
  }

  /** Exactly when a waiting frame is held back, for any two moments whatsoever: when the
      time since it was due lies, on a clock of 2^32 ms, in the upper half. */
  lemma HeldBackIff(s: Tx, now: int, r: Radio)
    requires Ok(s) && s.queue != [] && s.state == TX_WAITING
    ensures DriveTx(s, now, r) == Out(s, []) <==> (now - s.queue[0].txAfter) % WRAP >= HALF
  {
    SignedIsNegative(now, s.queue[0].txAfter);
    if Since(now, s.queue[0].txAfter) >= 0 {
      assert DriveTx(s, now, r).next.state != TX_WAITING;
    }
  }
}
