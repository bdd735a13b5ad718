/** The transmit pump keeps its schedule: no frame goes on air before its time, as long
    as no delay exceeds half the range of the clock. */
module TxSchedule {
  import opened Wire
  import opened Word32
  import opened TxModel

  // ---- when a frame is due -------------------------------------------------------------

  /** The delay scheduleNextTxIn asked for, after `op`: it holds for the next frame that
      is accepted and for no other; a refused frame does not use it up. */
  function DelayAsked(asked: Option<u32>, s: Tx, op: Op): Option<u32> {
    if op.DoSchedule? then Some(op.ms)
    else if AcceptedBy(s, op) != [] then None
    else asked
  }

  /** When the frame that `op` adds is due, if it adds one. */
  function DueBy(asked: Option<u32>, s: Tx, op: Op): seq<int> {
    if AcceptedBy(s, op) == [] then []
    else
      match op
      case DoSend(_, draw, at) => [at + (if asked.Some? then asked.value else draw)]
      case DoResend(draw, at) => [at + (if asked.Some? then asked.value else draw)]
      case _ => []
  }

  /** When the accepted frames of a run are due, in order. */
  function DueTimes(asked: Option<u32>, s: Tx, ops: seq<Op>): seq<int>
    requires Ok(s)
    decreases |ops|
  {
    if ops == [] then []
    else
      StepOk(s, ops[0]);
      DueBy(asked, s, ops[0]) + DueTimes(DelayAsked(asked, s, ops[0]), Step(s, ops[0]).next, ops[1..])
  }

  function LeaveBy(s: Tx, op: Op): seq<int>
    requires Ok(s)
  {
    if op.DoService? then seq(|Step(s, op).left|, _ => op.at) else []
  }

  /** When the frames that leave in a run do so, in order. */
  function LeaveTimes(s: Tx, ops: seq<Op>): seq<int>
    requires Ok(s)
    decreases |ops|
  {
    if ops == [] then []
    else
      StepOk(s, ops[0]);
      LeaveBy(s, ops[0]) + LeaveTimes(Step(s, ops[0]).next, ops[1..])
  }

  // ---- what is asked of the caller ---------------------------------------------------------

  function TimeOf(op: Op): Option<int> {
    match op
    case DoSend(_, _, at) => Some(at)
    case DoResend(_, at) => Some(at)
    case DoService(_, at) => Some(at)
    case _ => None
  }

  /** The clock does not run backwards. Its 32-bit reading may wrap at any time. */
  predicate Clocked(prev: int, ops: seq<Op>)
    decreases |ops|
  {
    ops != [] ==>
      match TimeOf(ops[0])
      case Some(at) => prev <= at && Clocked(at, ops[1..])
      case None => Clocked(prev, ops[1..])
  }

  predicate DelayWithin(op: Op, d: u32) {
    match op
    case DoSchedule(ms) => ms <= d
    case DoSend(_, draw, _) => draw <= d
    case DoResend(draw, _) => draw <= d
    case DoService(r, _) => r.draw <= d
    case _ => true
  }

  /** No delay, asked for or drawn, exceeds d. */
  predicate DelaysWithin(ops: seq<Op>, d: u32) {
    forall k :: 0 <= k < |ops| ==> DelayWithin(ops[k], d)
  }

  predicate Admitted(start: int, ops: seq<Op>, d: u32) {
    Clocked(start, ops) && DelaysWithin(ops, d)
  }

  // ---- one step --------------------------------------------------------------------------

  /** `dues` are the due times of the queued frames. None is tried before its own, the
      head, once tried, was due by then, and nothing is due so late that it looks early. */
  predicate OnTime(asked: Option<u32>, s: Tx, dues: seq<int>, prev: int) {
    && Ok(s) && asked == s.nextDelay && (asked.Some? ==> asked.value <= HALF) && |dues| == |s.queue|
    && (forall i :: 0 <= i < |dues| ==> dues[i] <= s.queue[i].txAfter <= prev + HALF)
    && (Active(s) ==> dues[0] <= s.stateMs <= prev)
  }

  /** What leaves at `now` was due, and the rest is on time. */
  predicate LeavesOnTime(asked: Option<u32>, o: Out, dues: seq<int>, now: int) {
    && |o.left| <= |dues|
    && (forall k :: 0 <= k < |o.left| ==> dues[k] <= now)
    && OnTime(asked, o.next, dues[|o.left|..], now)
  }

  lemma InterruptOnTime(asked: Option<u32>, s: Tx, dues: seq<int>, prev: int, now: int, r: Radio)
    requires OnTime(asked, s, dues, prev) && prev <= now && r.draw <= HALF
    ensures LeavesOnTime(asked, OnInterrupt(s, now, r), dues, now)
  {
    InterruptOk(s, now, r);
    assert dues[0..] == dues;
  }

  lemma DriveActiveOnTime(asked: Option<u32>, s: Tx, dues: seq<int>, prev: int, now: int, r: Radio)
    requires OnTime(asked, s, dues, prev) && Active(s) && prev <= now
    ensures LeavesOnTime(asked, DriveTx(s, now, r), dues, now)
  {
    DriveOk(s, now, r);
    assert dues[0..] == dues;
  }

  lemma DriveIdleOnTime(asked: Option<u32>, s: Tx, dues: seq<int>, prev: int, now: int, r: Radio)
    requires OnTime(asked, s, dues, prev) && !Active(s) && s.queue != [] && prev <= now
    ensures LeavesOnTime(asked, DriveTx(s, now, r), dues, now)
  {
    DriveOk(s, now, r);
    assert dues[0..] == dues;
    if now < s.queue[0].txAfter {
      SignedIsDifference(now, s.queue[0].txAfter);
      assert DriveTx(s, now, r) == Out(s.(state := TX_WAITING), []);
    } else {
      assert dues[0] <= now;
    }
  }

  lemma DriveOnTime(asked: Option<u32>, s: Tx, dues: seq<int>, prev: int, now: int, r: Radio)
    requires OnTime(asked, s, dues, prev) && prev <= now
    ensures LeavesOnTime(asked, DriveTx(s, now, r), dues, now)
  {
    if s.queue == [] {
      assert dues[0..] == dues;
    } else if Active(s) {
      DriveActiveOnTime(asked, s, dues, prev, now, r);
    } else {
      DriveIdleOnTime(asked, s, dues, prev, now, r);
    }
  }

  /** The two halves of a service(), one after the other. */
  lemma HalvesOnTime(asked: Option<u32>, a: Out, b: Out, dues: seq<int>, now: int)
    requires LeavesOnTime(asked, a, dues, now) && LeavesOnTime(asked, b, dues[|a.left|..], now)
    ensures LeavesOnTime(asked, Out(b.next, a.left + b.left), dues, now)
  {
    var rest := dues[|a.left|..];
    forall k | 0 <= k < |a.left + b.left| ensures dues[k] <= now {
      assert k >= |a.left| ==> dues[k] == rest[k - |a.left|];
    }
    assert dues[|a.left + b.left|..] == rest[|b.left|..];
  }

  lemma ServiceOnTime(asked: Option<u32>, s: Tx, dues: seq<int>, prev: int, now: int, r: Radio)
    requires OnTime(asked, s, dues, prev) && prev <= now && r.draw <= HALF
    ensures LeavesOnTime(asked, Service(s, now, r), dues, now)
  {
    InterruptOnTime(asked, s, dues, prev, now, r);
    var a := OnInterrupt(s, now, r);
    DriveOnTime(asked, a.next, dues[|a.left|..], now, now, r);
    HalvesOnTime(asked, a, DriveTx(a.next, now, r), dues, now);
  }

  lemma EnqueueOnTime(asked: Option<u32>, s: Tx, dues: seq<int>, prev: int, frame: bytes, draw: u32, now: int)
    requires OnTime(asked, s, dues, prev) && prev <= now && draw <= HALF && Accepts(s, frame)
    ensures var due := now + (if asked.Some? then asked.value else draw);
            OnTime(None, Enqueue(s, frame, draw, now), dues + [due], now)
  {
    var t := Enqueue(s, frame, draw, now);
    assert t.queue[..|s.queue|] == s.queue;
    assert forall i :: 0 <= i < |s.queue| ==> t.queue[i] == s.queue[i];
  }

  lemma LaterOnTime(asked: Option<u32>, s: Tx, dues: seq<int>, prev: int, now: int)
    requires OnTime(asked, s, dues, prev) && prev <= now
    ensures OnTime(asked, s, dues, now) && dues + [] == dues
  {
  }

  lemma SendOnTime(asked: Option<u32>, s: Tx, dues: seq<int>, prev: int, op: Op)
    requires OnTime(asked, s, dues, prev) && op.DoSend? && prev <= op.at && op.draw <= HALF
    ensures OnTime(DelayAsked(asked, s, op), Step(s, op).next, dues + DueBy(asked, s, op), op.at)
  {
    if Accepts(s, op.frame) {
      EnqueueOnTime(asked, s, dues, prev, op.frame, op.draw, op.at);
    } else {
      LaterOnTime(asked, s, dues, prev, op.at);
    }
  }

  lemma ResendOnTime(asked: Option<u32>, s: Tx, dues: seq<int>, prev: int, op: Op)
    requires OnTime(asked, s, dues, prev) && op.DoResend? && prev <= op.at && op.draw <= HALF
    ensures OnTime(DelayAsked(asked, s, op), Step(s, op).next, dues + DueBy(asked, s, op), op.at)
  {
    if Accepts(s, s.frame) {
      EnqueueOnTime(asked, s, dues, prev, s.frame, op.draw, op.at);
    } else {
      LaterOnTime(asked, s, dues, prev, op.at);
    }
  }

  lemma UntimedOnTime(asked: Option<u32>, s: Tx, dues: seq<int>, prev: int, op: Op)
    requires OnTime(asked, s, dues, prev) && TimeOf(op).None? && DelayWithin(op, HALF)
    ensures OnTime(DelayAsked(asked, s, op), Step(s, op).next, dues, prev)
    ensures DueBy(asked, s, op) == []
  {
    StepOk(s, op);
  }

  /** One operation, whichever it is. */
  lemma StepOnTime(asked: Option<u32>, s: Tx, dues: seq<int>, prev: int, op: Op, now: int)
    requires OnTime(asked, s, dues, prev) && DelayWithin(op, HALF)
    requires prev <= now && (if TimeOf(op).Some? then now == TimeOf(op).value else now == prev)
    ensures var first, due := LeaveBy(s, op), dues + DueBy(asked, s, op);
            && |first| <= |due| && (forall k :: 0 <= k < |first| ==> due[k] <= first[k])
            && OnTime(DelayAsked(asked, s, op), Step(s, op).next, due[|first|..], now)
  {
    var due := dues + DueBy(asked, s, op);
    assert due[0..] == due;
    match op
    case DoSend(_, _, _) => SendOnTime(asked, s, dues, prev, op);
    case DoResend(_, _) => ResendOnTime(asked, s, dues, prev, op);
    case DoService(r, at) =>
      ServiceOnTime(asked, s, dues, prev, at, r);
      assert due == dues;
    case _ =>
      UntimedOnTime(asked, s, dues, prev, op);
      assert due == dues;
  }

  // ---- every run ---------------------------------------------------------------------------

  predicate Punctual(dues: seq<int>, left: seq<int>, s: Tx) {
    && |left| + |s.queue| == |dues|
    && (forall k :: 0 <= k < |left| ==> dues[k] <= left[k])
    && (Active(s) && s.queue != [] ==> dues[|left|] <= s.stateMs)
  }

  /** The first step's due times and departures, and those of the rest of the run. */
  lemma Joined(dues: seq<int>, added: seq<int>, later: seq<int>, first: seq<int>, rest: seq<int>, s: Tx)
    requires |first| <= |dues + added| && forall k :: 0 <= k < |first| ==> (dues + added)[k] <= first[k]
    requires Punctual((dues + added)[|first|..] + later, rest, s)
    ensures Punctual(dues + (added + later), first + rest, s)
  {
    var all, tail := dues + (added + later), (dues + added)[|first|..] + later;
    assert all == (dues + added) + later && all[|first|..] == tail;
    forall k | 0 <= k < |first + rest| ensures all[k] <= (first + rest)[k] {
      assert k >= |first| ==> all[k] == tail[k - |first|];
    }
  }

  lemma FirstOp(asked: Option<u32>, s: Tx, ops: seq<Op>)
    requires Ok(s) && ops != []
    ensures Ok(Step(s, ops[0]).next)
    ensures var next, asked' := Step(s, ops[0]).next, DelayAsked(asked, s, ops[0]);
            && DueTimes(asked, s, ops) == DueBy(asked, s, ops[0]) + DueTimes(asked', next, ops[1..])
            && LeaveTimes(s, ops) == LeaveBy(s, ops[0]) + LeaveTimes(next, ops[1..])
            && Run(s, ops) == Run(next, ops[1..])
  {
    StepOk(s, ops[0]);
  }

  lemma {:induction false} RunOnTime(asked: Option<u32>, s: Tx, dues: seq<int>, prev: int, ops: seq<Op>)
    requires OnTime(asked, s, dues, prev) && Clocked(prev, ops) && DelaysWithin(ops, HALF)
    ensures Punctual(dues + DueTimes(asked, s, ops), LeaveTimes(s, ops), Run(s, ops))
    decreases |ops|
  {
    if ops == [] {
      assert dues + [] == dues;
    } else {
      var op := ops[0];
      var now := if TimeOf(op).Some? then TimeOf(op).value else prev;
      FirstOp(asked, s, ops);
      StepOnTime(asked, s, dues, prev, op, now);
      var next, added, first := Step(s, op).next, DueBy(asked, s, op), LeaveBy(s, op);
      RunOnTime(DelayAsked(asked, s, op), next, (dues + added)[|first|..], now, ops[1..]);
      Joined(dues, added, DueTimes(DelayAsked(asked, s, op), next, ops[1..]), first, LeaveTimes(next, ops[1..]), Run(s, ops));
    }
  }

  /** From the start: the k-th frame to leave does so no earlier than the k-th accepted
      frame was due - its acceptance plus the delay asked for it, or the contention delay -
      and a frame being scanned for or on air was started no earlier than it was due. */
  predicate Early(ops: seq<Op>) {
    !Punctual(DueTimes(None, EMPTY, ops), LeaveTimes(EMPTY, ops), Run(EMPTY, ops))
  }

  /** No frame is early, over every run of send, resend, schedule, service, sleep and wake
      on a clock that does not run backwards, if no delay exceeds 2^31 ms. */
  lemma NeverEarly(ops: seq<Op>, start: int)
    requires Clocked(start, ops) && DelaysWithin(ops, HALF)
    ensures var s := Run(EMPTY, ops);
            var dues, left := DueTimes(None, EMPTY, ops), LeaveTimes(EMPTY, ops);
            && |dues| == |left| + |s.queue|
            && (forall k :: 0 <= k < |left| ==> dues[k] <= left[k])
            && (s.state == TX_SCANNING || s.state == TX_SENDING ==> dues[|left|] <= s.stateMs)
    ensures !Early(ops)
  {
    RunOnTime(None, EMPTY, [], start, ops);
    assert [] + DueTimes(None, EMPTY, ops) == DueTimes(None, EMPTY, ops);
  }

  // ---- a delay of more than 2^31 ms ----------------------------------------------------------

  const PROMPT := Radio(false, false, false, false, false, true, false, true, 0)

  /** Ask for a delay of d, send a frame, and call service() in the same instant. */
  function Hasty(d: u32): seq<Op> {
    [DoSchedule(d), DoSend([1], 0, 0), DoService(PROMPT, 0)]
  }

  /** The frame is put on air at once, although it is due in more than 2^31 ms. */
  lemma HastyIsEarly(d: u32)
    requires d > HALF
    ensures Run(EMPTY, Hasty(d)).state == TX_SENDING && Run(EMPTY, Hasty(d)).stateMs == 0
    ensures DueTimes(None, EMPTY, Hasty(d)) == [d as int] && LeaveTimes(EMPTY, Hasty(d)) == []
    ensures Early(Hasty(d))
  {
    var ops := Hasty(d);
    assert ops[1..] == [ops[1], ops[2]] && ops[1..][1..] == [ops[2]] && ops[1..][1..][1..] == [];
    var s1 := EMPTY.(nextDelay := Some(d));
    var s2 := EMPTY.(queue := [Item([1], d, 0)], frame := [1]);
    var s3 := s2.(state := TX_SENDING);
    assert Step(EMPTY, ops[0]) == Out(s1, []);
    assert Step(s1, ops[1]) == Out(s2, []);
    assert Since(0, d) == WRAP - d;
    assert Step(s2, ops[2]) == Out(s3, []);
    assert Run(EMPTY, ops) == Run(s1, ops[1..]) == Run(s2, ops[1..][1..]) == Run(s3, []) == s3;
    DuesOfHasty(d, s1, s2, s3);
  }

  lemma DuesOfHasty(d: u32, s1: Tx, s2: Tx, s3: Tx)
    requires s1 == EMPTY.(nextDelay := Some(d)) && s2 == EMPTY.(queue := [Item([1], d, 0)], frame := [1])
    requires Step(EMPTY, DoSchedule(d)) == Out(s1, []) && Step(s1, DoSend([1], 0, 0)) == Out(s2, [])
    requires Ok(s3) && Step(s2, DoService(PROMPT, 0)) == Out(s3, [])
    ensures DueTimes(None, EMPTY, Hasty(d)) == [d as int] && LeaveTimes(EMPTY, Hasty(d)) == []
  {
    var ops := Hasty(d);
    assert ops[1..] == [ops[1], ops[2]] && ops[1..][1..] == [ops[2]] && ops[1..][1..][1..] == [];
    assert DueTimes(None, s2, [ops[2]]) == [];
    assert DueTimes(Some(d), s1, ops[1..]) == [d as int] + [];
    assert LeaveTimes(s2, [ops[2]]) == [] + [];
    assert LeaveTimes(s1, ops[1..]) == [] + [];
  }

  /** So 2^31 ms is exactly how far ahead a frame can be scheduled: with delays up to d no
      run sends a frame early if and only if d is at most that. */
  lemma NeverEarlyIff(d: u32)
    ensures (forall ops, start :: Admitted(start, ops, d) ==> !Early(ops)) <==> d <= HALF
  {
    if d <= HALF {
      forall ops, start | Admitted(start, ops, d) ensures !Early(ops) {
        NeverEarly(ops, start);
      }
    } else {
      HastyIsEarly(d);
      var ops := Hasty(d);
      assert ops[1..] == [ops[1], ops[2]] && ops[1..][1..] == [ops[2]] && ops[1..][1..][1..] == [];
      assert Clocked(0, [ops[2]]) && Clocked(0, ops[1..]);
      assert Admitted(0, ops, d);
    }
  }
}
