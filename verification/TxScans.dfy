/** What a busy channel does to a frame, and when a frame goes on air
    (src/MeshtasticTransport.cpp:258-447), from what the radio has reported. */
module TxScans {
  import opened Wire
  import opened Word32
  import opened TxModel

  // ---- busy scans, counted -------------------------------------------------------------

  /** A pass of service() that finds a scan outstanding and a preamble reported. */
  predicate BusyScan(s: Tx, op: Op) {
    op.DoService? && s.state == TX_SCANNING && op.r.event && op.r.cadDetected
  }

  /** How many of them there are in a run. */
  function BusyScans(s: Tx, ops: seq<Op>): nat
    requires Ok(s)
    decreases |ops|
  {
    if ops == [] then 0
    else
      StepOk(s, ops[0]);
      (if BusyScan(s, ops[0]) then 1 else 0) + BusyScans(Step(s, ops[0]).next, ops[1..])
  }

  /** And since the last frame left; `before` is their number so far. */
  function HeadScans(s: Tx, ops: seq<Op>, before: nat): nat
    requires Ok(s)
    decreases |ops|
  {
    if ops == [] then before
    else
      StepOk(s, ops[0]);
      var o := Step(s, ops[0]);
      HeadScans(o.next, ops[1..],
                if o.left != [] then 0 else if BusyScan(s, ops[0]) then before + 1 else before)
  }

  /** The head frame has been tried `n` times, and no other has been. */
  predicate Tried(s: Tx, n: nat) {
    if s.queue == [] then n == 0
    else s.queue[0].attempts == n && forall i :: 0 < i < |s.queue| ==> s.queue[i].attempts == 0
  }

  /** One pass: it counts a deferral for a busy scan and for nothing else. */
  predicate Counts(s: Tx, o: Out, busy: bool, n: nat) {
    && o.next.deferrals == s.deferrals + (if busy then 1 else 0)
    && Tried(o.next, if o.left != [] then 0 else if busy then n + 1 else n)
  }

  lemma DropCounts(s: Tx, how: How)
    requires Ok(s) && s.queue != []
    ensures Tried(DropHead(s, how).next, 0) && Ok(DropHead(s, how).next)
  {
    var t := DropHead(s, how).next;
    assert forall i :: 0 <= i < |t.queue| ==> t.queue[i] == s.queue[i + 1];
  }

  lemma StartCounts(s: Tx, now: int, ok: bool, n: nat)
    requires Ok(s) && s.queue != [] && Tried(s, n)
    ensures Counts(s, StartSending(s, now, ok), false, n)
  {
    DropCounts(s.(frame := s.queue[0].frame), StartFailed);
  }

  lemma InterruptCounts(s: Tx, now: int, r: Radio, n: nat)
    requires Ok(s) && Tried(s, n)
    ensures Counts(s, OnInterrupt(s, now, r), BusyScan(s, DoService(r, now)), n)
  {
    if s.state == TX_SENDING {
      DropCounts(s, Sent);
    } else if s.state == TX_SCANNING {
      StartCounts(s, now, r.startOk, n);
    }
  }

  lemma DriveCounts(s: Tx, now: int, r: Radio, n: nat)
    requires Ok(s) && Tried(s, n)
    ensures Counts(s, DriveTx(s, now, r), false, n)
  {
    if s.queue != [] {
      DropCounts(s, NeverFinished);
      StartCounts(s, now, r.driveOk, n);
      StartCounts(s.(state := TX_WAITING), now, r.driveOk, n);
    }
  }

  lemma StepCounts(s: Tx, op: Op, n: nat)
    requires Ok(s) && Tried(s, n)
    ensures Counts(s, Step(s, op), BusyScan(s, op), n)
  {
    if op.DoService? {
      var a := OnInterrupt(s, op.at, op.r);
      InterruptCounts(s, op.at, op.r, n);
      InterruptOk(s, op.at, op.r);
      DriveCounts(a.next, op.at, op.r, if a.left != [] then 0 else if BusyScan(s, op) then n + 1 else n);
    }
  }

  lemma {:induction false} RunCounts(s: Tx, ops: seq<Op>, n: nat)
    requires Ok(s) && Tried(s, n)
    ensures Run(s, ops).deferrals == s.deferrals + BusyScans(s, ops) && Tried(Run(s, ops), HeadScans(s, ops, n))
    decreases |ops|
  {
    if ops != [] {
      var o := Step(s, ops[0]);
      StepOk(s, ops[0]);
      StepCounts(s, ops[0], n);
      RunCounts(o.next, ops[1..], if o.left != [] then 0 else if BusyScan(s, ops[0]) then n + 1 else n);
    }
  }

  /** Over every run, csmaDeferrals is the number of passes that found a scan outstanding
      and a preamble reported; the head frame's attempts are those since the last frame
      left, and no other frame has any. */
  lemma DeferralsAreBusyScans(ops: seq<Op>)
    ensures var s := Run(EMPTY, ops);
            && s.deferrals == BusyScans(EMPTY, ops)
            && (s.queue != [] ==> s.queue[0].attempts == HeadScans(EMPTY, ops, 0))
            && (forall i :: 0 < i < |s.queue| ==> s.queue[i].attempts == 0)
  {
    RunCounts(EMPTY, ops, 0);
  }

  // ---- after a busy scan ------------------------------------------------------------------

  lemma SinceDraw(now: int, draw: u32)
    ensures Since(now, now + draw) < 0 <==> 0 < draw <= HALF
  {
    if draw < HALF {
      SignedIsDifference(now, now + draw);
    } else if draw > HALF {
      SignedIsDifference(now + WRAP, now + draw);
      assert (now + WRAP) % WRAP == now % WRAP;
    } else {
      HalfAhead(now);
    }
  }

  lemma HalfAhead(now: int)
    ensures Since(now, now + HALF) < 0
  {
    var a, b := now % WRAP, (now + HALF) % WRAP;
    if a < HALF {
      DivModUnique(now + HALF, WRAP, now / WRAP, a + HALF);
    } else {
      DivModUnique(now + HALF, WRAP, now / WRAP + 1, a - HALF);
    }
  }

  /** The frame for which the channel was found busy stays the head, with one attempt more
      and due when the newly drawn delay is over; nothing is sent. Only if that is now
      already - no delay, or one that a 32-bit clock takes for a time gone by - the same pass
      tries again. */
  lemma BusyScanDefers(s: Tx, r: Radio, now: int)
    requires Ok(s) && BusyScan(s, DoService(r, now))
    ensures var o := Step(s, DoService(r, now));
            var head := s.queue[0];
            var queue := [Item(head.frame, now + r.draw, head.attempts + 1)] + s.queue[1..];
            && o.next.deferrals == s.deferrals + 1
            && if 0 < r.draw <= 0x8000_0000 then
                 o.left == [] && o.next.queue == queue && o.next.state == TX_WAITING && o.next.frame == s.frame
               else if head.attempts + 1 < 8 && r.scanOk then
                 o.left == [] && o.next.queue == queue && o.next.state == TX_SCANNING && o.next.stateMs == now
               else if r.driveOk then
                 o.left == [] && o.next.queue == queue && o.next.state == TX_SENDING && o.next.stateMs == now
               else o.left == [Left(head.frame, StartFailed)] && o.next.queue == s.queue[1..]
  {
    SinceDraw(now, r.draw);
  }

  // ---- going on air -------------------------------------------------------------------------

  /** The pass ends with a frame on air that was not on air before. */
  predicate GoesOnAir(s: Tx, o: Out) {
    o.next.state == TX_SENDING && (s.state != TX_SENDING || o.left != [])
  }

  /** The radio has reported the outstanding scan done, and no preamble. */
  predicate ClearScan(s: Tx, r: Radio) {
    s.state == TX_SCANNING && r.event && r.cadDone && !r.cadDetected
  }

  /** Nothing has been reported of it for more than 200 ms. */
  predicate LostScan(s: Tx, r: Radio, now: int) {
    s.state == TX_SCANNING && !(r.event && (r.cadDone || r.cadDetected)) && Since(now, s.stateMs) > 200
  }

  /** The head frame is due, and it cannot be scanned for or has been eight times. */
  predicate Unscannable(s: Tx, r: Radio, now: int) {
    && s.queue != [] && (s.state == TX_IDLE || s.state == TX_WAITING)
    && Since(now, s.queue[0].txAfter) >= 0 && (s.queue[0].attempts >= 8 || !r.scanOk)
  }

  /** One of the three, and the radio takes the frame. */
  predicate MustStart(s: Tx, r: Radio, now: int) {
    || (ClearScan(s, r) && r.startOk)
    || (LostScan(s, r, now) && r.driveOk)
    || (Unscannable(s, r, now) && r.driveOk)
  }

  /** The head frame is due and met fewer than eight preambles, and a scan can be started. */
  predicate MustScan(s: Tx, r: Radio, now: int) {
    && s.queue != [] && (s.state == TX_IDLE || s.state == TX_WAITING)
    && Since(now, s.queue[0].txAfter) >= 0 && s.queue[0].attempts < 8 && r.scanOk
  }

  lemma OnAirInPass(s: Tx, r: Radio, now: int)
    requires Ok(s)
    ensures var o := Step(s, DoService(r, now));
            && (GoesOnAir(s, o) ==>
                  && o.next.queue != [] && o.next.stateMs == now && o.next.frame == o.next.queue[0].frame
                  && (|| (ClearScan(s, r) && r.startOk && o.left == [])
                      || (LostScan(s, r, now) && r.driveOk && o.left == [])
                      || (r.driveOk && Since(now, o.next.queue[0].txAfter) >= 0
                          && (o.next.queue[0].attempts >= 8 || !r.scanOk))))
            && (MustStart(s, r, now) ==> GoesOnAir(s, o) && o.left == [] && o.next.queue == s.queue)
  {
    SinceNow(now);
  }

  lemma SinceNow(now: int)
    ensures Since(now, now) == 0
  {
  }

  /** A frame goes on air only when the channel has just been reported clear, or a scan has
      been outstanding for more than 200 ms without a report, or, once it is due, when no
      scan can be started or eight have found the channel busy. And in each of these cases it
      does, if the radio takes it. */
  lemma OnAirOnlyAfter(ops: seq<Op>, r: Radio, now: int)
    ensures var s := Run(EMPTY, ops);
            var o := Step(s, DoService(r, now));
            && (GoesOnAir(s, o) ==>
                  && o.next.queue != []
                  && (|| (ClearScan(s, r) && r.startOk)
                      || (LostScan(s, r, now) && r.driveOk)
                      || (r.driveOk && Since(now, o.next.queue[0].txAfter) >= 0
                          && (!r.scanOk || HeadScans(EMPTY, ops + [DoService(r, now)], 0) >= 8))))
            && (MustStart(s, r, now) ==> GoesOnAir(s, o) && o.left == [] && o.next.queue == s.queue)
  {
    var op := DoService(r, now);
    OnAirInPass(Run(EMPTY, ops), r, now);
    RunSnoc(EMPTY, ops, op);
    DeferralsAreBusyScans(ops + [op]);
  }

  lemma {:induction false} RunSnoc(s: Tx, ops: seq<Op>, op: Op)
    requires Ok(s)
    ensures Run(s, ops + [op]) == Step(Run(s, ops), op).next
    decreases |ops|
  {
    if ops == [] {
      assert ([] + [op])[1..] == [];
    } else {
      StepOk(s, ops[0]);
      assert (ops + [op])[1..] == ops[1..] + [op];
      RunSnoc(Step(s, ops[0]).next, ops[1..], op);
    }
  }

  /** A scan is begun only for a head that is due and has met fewer than eight preambles,
      and it takes the place of sending. */
  lemma ScanOnlyWhenDue(s: Tx, r: Radio, now: int)
    requires Ok(s)
    ensures var o := Step(s, DoService(r, now));
            && (o.next.state == TX_SCANNING && (s.state != TX_SCANNING || o.next.stateMs != s.stateMs) ==>
                  && o.next.queue != [] && o.next.stateMs == now && r.scanOk
                  && Since(now, o.next.queue[0].txAfter) >= 0 && o.next.queue[0].attempts < 8)
            && (MustScan(s, r, now) ==>
                  o.left == [] && o.next.queue == s.queue && o.next.state == TX_SCANNING && o.next.stateMs == now)
  {
  }

  // ---- leaving ------------------------------------------------------------------------------

  /** How a frame leaves: as sent exactly when TX-done is reported while it is on air; as
      never finished exactly when it has been on air for more than 5000 ms without; and as
      not started only where the radio refuses it. */
  lemma LeavesOnlyWhen(s: Tx, r: Radio, now: int)
    requires Ok(s)
    ensures var o := Step(s, DoService(r, now));
            && ((exists i :: 0 <= i < |o.left| && o.left[i].how == Sent)
                <==> s.state == TX_SENDING && r.event && r.txDone)
            && ((exists i :: 0 <= i < |o.left| && o.left[i].how == NeverFinished)
                <==> s.state == TX_SENDING && !(r.event && r.txDone) && Since(now, s.stateMs) > 5000)
            && ((exists i :: 0 <= i < |o.left| && o.left[i].how == StartFailed) ==>
                  (ClearScan(s, r) && !r.startOk) || !r.driveOk)
            && (o.left != [] ==> s.queue != [] && o.left[0].frame == s.queue[0].frame)
  {
    var o := Step(s, DoService(r, now));
    InterruptOk(s, now, r);
    var a := OnInterrupt(s, now, r);
    var b := DriveTx(a.next, now, r);
    assert o.left == a.left + b.left && |a.left| <= 1 && |b.left| <= 1;
    if s.state == TX_SENDING && r.event && r.txDone {
      assert o.left[0] == Left(s.queue[0].frame, Sent);
    } else if s.state == TX_SENDING && Since(now, s.stateMs) > 5000 {
      assert o.left[0] == Left(s.queue[0].frame, NeverFinished);
    }
  }

  // ---- what is queued ---------------------------------------------------------------------------

  /** The one-shot delay in force: that of the last scheduleNextTxIn since a frame was queued. */
  function Override(s: Tx, ops: seq<Op>, before: Option<u32>): Option<u32>
    requires Ok(s)
    decreases |ops|
  {
    if ops == [] then before
    else
      StepOk(s, ops[0]);
      var t := Step(s, ops[0]).next;
      Override(t, ops[1..],
               match ops[0]
               case DoSchedule(ms) => Some(ms)
               case DoSend(frame, _, _) => if 1 <= |frame| <= 253 && |s.queue| < 16 then None else before
               case DoResend(_, _) => if 1 <= |s.frame| <= 253 && |s.queue| < 16 then None else before
               case _ => before)
  }

  lemma ServiceKeepsOverride(s: Tx, r: Radio, now: int)
    requires Ok(s)
    ensures Step(s, DoService(r, now)).next.nextDelay == s.nextDelay
  {
  }

  lemma {:induction false} OverrideIs(s: Tx, ops: seq<Op>)
    requires Ok(s)
    ensures Run(s, ops).nextDelay == Override(s, ops, s.nextDelay)
    decreases |ops|
  {
    if ops != [] {
      StepOk(s, ops[0]);
      if ops[0].DoService? {
        ServiceKeepsOverride(s, ops[0].r, ops[0].at);
      }
      OverrideIs(Step(s, ops[0]).next, ops[1..]);
    }
  }

  /** After any run, a frame of 1 to 253 bytes is queued behind all others, untried and due after
      the one-shot delay in force or else the drawn one, if and only if fewer than sixteen wait;
      it is then the frame kept for resend, and any other call changes nothing. */
  lemma SendQueues(ops: seq<Op>, frame: bytes, draw: u32, now: int)
    ensures var s := Run(EMPTY, ops);
            var t := Step(s, DoSend(frame, draw, now)).next;
            var delay := Override(EMPTY, ops, None);
            if 1 <= |frame| <= 253 && |s.queue| < 16 then
              && t.queue == s.queue + [Item(frame, now + (if delay.Some? then delay.value else draw), 0)]
              && t == s.(queue := t.queue, nextDelay := None, frame := frame)
            else t == s
  {
    OverrideIs(EMPTY, ops);
  }

  /** And resend does the same for the frame kept. */
  lemma ResendQueues(ops: seq<Op>, draw: u32, now: int)
    ensures var s := Run(EMPTY, ops);
            var t := Step(s, DoResend(draw, now)).next;
            var delay := Override(EMPTY, ops, None);
            if 1 <= |s.frame| <= 253 && |s.queue| < 16 then
              && t.queue == s.queue + [Item(s.frame, now + (if delay.Some? then delay.value else draw), 0)]
              && t == s.(queue := t.queue, nextDelay := None)
            else t == s
  {
    OverrideIs(EMPTY, ops);
  }
}
