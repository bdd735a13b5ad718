/** The transmit queue and its state machine (src/MeshtasticTransport.cpp) as
    functions on values. Clock values are kept as true times; every comparison is
    made, as in the firmware, on their 32-bit readings. */
module TxModel {
  import opened Wire
  import opened Word32

  const TXQ_N: nat := 16
  const FRAME_CAP: nat := 16 + 237
  const MAX_ATTEMPTS: nat := 8
  const SCAN_LIMIT_MS: int := 200
  const SEND_LIMIT_MS: int := 5000

  datatype Item = Item(frame: bytes, txAfter: int, attempts: nat)
  datatype TxState = TX_IDLE | TX_WAITING | TX_SCANNING | TX_SENDING

  /** `nextDelay` is the one-shot override; `frame` is the frame built or put on air
      most recently, which resend() repeats. */
  datatype Tx = Tx(queue: seq<Item>, state: TxState, stateMs: int, nextDelay: Option<u32>, frame: bytes,
                   deferrals: nat, failStreak: nat, dropped: nat)

  const EMPTY := Tx([], TX_IDLE, 0, None, [], 0, 0, 0)

  datatype How = Sent | StartFailed | NeverFinished
  datatype Left = Left(frame: bytes, how: How)

  /** The new state, and the frames that left the queue. */
  datatype Out = Out(next: Tx, left: seq<Left>)

  /** The head frame is being scanned for or is on air. */
  predicate Active(s: Tx) {
    s.state == TX_SENDING || s.state == TX_SCANNING
  }

  predicate Ok(s: Tx) {
    && |s.queue| <= TXQ_N
    && (s.state != TX_IDLE ==> s.queue != [])
    && (s.state == TX_SCANNING ==> s.queue[0].attempts < MAX_ATTEMPTS)
    && (forall i :: 0 <= i < |s.queue| ==> s.queue[i].attempts <= if i == 0 then MAX_ATTEMPTS else 0)
  }

  // ---- comparisons ----------------------------------------------------------------

  /** (int32_t)(now - then) on the 32-bit readings. */
  function Since(now: int, past: int): int {
    Signed(Sub32(now % WRAP, past % WRAP))
  }

  // ---- enqueueing -----------------------------------------------------------------

  predicate Accepts(s: Tx, frame: bytes) {
    0 < |frame| <= FRAME_CAP && |s.queue| < TXQ_N
  }

  /** enqueueFrame: `draw` is the contention delay, used unless an override is set. */
  function Enqueue(s: Tx, frame: bytes, draw: u32, now: int): Tx {
    if !Accepts(s, frame) then s
    else
      var after := if s.nextDelay.Some? then s.nextDelay.value else draw;
      s.(nextDelay := None, queue := s.queue + [Item(frame, now + after, 0)])
  }

  /** The end of send(): the frame is queued and becomes the one last built. */
  function Send(s: Tx, frame: bytes, draw: u32, now: int): Tx {
    if !Accepts(s, frame) then s else Enqueue(s, frame, draw, now).(frame := frame)
  }

  function Resend(s: Tx, draw: u32, now: int): Tx {
    Enqueue(s, s.frame, draw, now)
  }

  // ---- the pump -------------------------------------------------------------------

  /** What the radio answers during one service() pass: whether DIO1 fired and what
      the flags say, whether a scan starts, whether a transmission starts (after a
      free scan, and in driveTx), and the contention delay drawn. */
  datatype Radio = Radio(event: bool, rxDone: bool, txDone: bool, cadDone: bool, cadDetected: bool,
                         startOk: bool, scanOk: bool, driveOk: bool, draw: u32)

  function DropHead(s: Tx, how: How): Out
    requires s.queue != []
  {
    Out(s.(queue := s.queue[1..], state := TX_IDLE,
           failStreak := if how == Sent then 0 else s.failStreak + 1,
           dropped := if how == Sent then s.dropped else s.dropped + 1),
        [Left(s.queue[0].frame, how)])
  }

  function StartSending(s: Tx, now: int, ok: bool): Out
    requires s.queue != []
  {
    var t := s.(frame := s.queue[0].frame);
    if !ok then DropHead(t, StartFailed) else Out(t.(state := TX_SENDING, stateMs := now), [])
  }

  /** A busy scan: listen, count the attempt, re-roll the window. */
  function Defer(s: Tx, now: int, draw: u32): Tx
    requires s.queue != []
  {
    var head := s.queue[0];
    s.(deferrals := s.deferrals + 1, state := TX_WAITING,
       queue := [head.(attempts := head.attempts + 1, txAfter := now + draw)] + s.queue[1..])
  }

  function OnInterrupt(s: Tx, now: int, r: Radio): Out
    requires Ok(s)
  {
    if !r.event then Out(s, [])
    else if s.state == TX_SENDING && r.txDone then DropHead(s, Sent)
    else if s.state == TX_SCANNING && (r.cadDone || r.cadDetected) then
      if r.cadDetected then Out(Defer(s, now, r.draw), []) else StartSending(s, now, r.startOk)
    else Out(s, [])
  }

  function DriveTx(s: Tx, now: int, r: Radio): Out
    requires Ok(s)
  {
    if s.queue == [] then Out(s, [])
    else match s.state
      case TX_SCANNING =>
        if Since(now, s.stateMs) > SCAN_LIMIT_MS then StartSending(s, now, r.driveOk) else Out(s, [])
      case TX_SENDING =>
        if Since(now, s.stateMs) > SEND_LIMIT_MS then DropHead(s, NeverFinished) else Out(s, [])
      case _ =>
        var t := s.(state := TX_WAITING);
        if Since(now, t.queue[0].txAfter) < 0 then Out(t, [])
        else if t.queue[0].attempts >= MAX_ATTEMPTS then StartSending(t, now, r.driveOk)
        else if r.scanOk then Out(t.(state := TX_SCANNING, stateMs := now), [])
        else StartSending(t, now, r.driveOk)
  }

  lemma InterruptOk(s: Tx, now: int, r: Radio)
    requires Ok(s)
    ensures Ok(OnInterrupt(s, now, r).next)
  {
    var t := OnInterrupt(s, now, r).next;
    if |t.queue| < |s.queue| {
      assert forall i :: 0 <= i < |t.queue| ==> t.queue[i] == s.queue[i + 1];
    }
  }

  lemma DriveOk(s: Tx, now: int, r: Radio)
    requires Ok(s)
    ensures Ok(DriveTx(s, now, r).next)
  {
    var t := DriveTx(s, now, r).next;
    if |t.queue| < |s.queue| {
      assert forall i :: 0 <= i < |t.queue| ==> t.queue[i] == s.queue[i + 1];
    }
  }

  function Service(s: Tx, now: int, r: Radio): Out
    requires Ok(s)
  {
    InterruptOk(s, now, r);
    var a := OnInterrupt(s, now, r);
    var b := DriveTx(a.next, now, r);
    Out(b.next, a.left + b.left)
  }

  /** wake() restarts the state machine; the head frame stays where it is. */
  function Wake(s: Tx): Tx {
    s.(state := TX_IDLE)
  }

  // ---- runs -----------------------------------------------------------------------

  datatype Op =
    | DoSend(frame: bytes, draw: u32, at: int)
    | DoResend(draw: u32, at: int)
    | DoSchedule(ms: u32)
    | DoService(r: Radio, at: int)
    | DoSleep
    | DoWake

  /** sleep() only clears the receive flag, which is not part of this state. */
  function Step(s: Tx, op: Op): Out
    requires Ok(s)
  {
    match op
    case DoSend(frame, draw, at) => Out(Send(s, frame, draw, at), [])
    case DoResend(draw, at) => Out(Resend(s, draw, at), [])
    case DoSchedule(ms) => Out(s.(nextDelay := Some(ms)), [])
    case DoService(r, at) => Service(s, at, r)
    case DoSleep => Out(s, [])
    case DoWake => Out(Wake(s), [])
  }

  lemma StepOk(s: Tx, op: Op)
    requires Ok(s)
    ensures Ok(Step(s, op).next)
  {
    if op.DoService? {
      InterruptOk(s, op.at, op.r);
      DriveOk(OnInterrupt(s, op.at, op.r).next, op.at, op.r);
    }
  }

  /** The frame an operation puts into the queue, if it does. */
  function AcceptedBy(s: Tx, op: Op): seq<bytes> {
    match op
    case DoSend(frame, _, _) => if Accepts(s, frame) then [frame] else []
    case DoResend(_, _) => if Accepts(s, s.frame) then [s.frame] else []
    case _ => []
  }

  function Run(s: Tx, ops: seq<Op>): (t: Tx)
    requires Ok(s)
    ensures Ok(t)
    decreases |ops|
  {
    if ops == [] then s
    else
      StepOk(s, ops[0]);
      Run(Step(s, ops[0]).next, ops[1..])
  }

  function Accepted(s: Tx, ops: seq<Op>): seq<bytes>
    requires Ok(s)
    decreases |ops|
  {
    if ops == [] then []
    else
      StepOk(s, ops[0]);
      AcceptedBy(s, ops[0]) + Accepted(Step(s, ops[0]).next, ops[1..])
  }

  function Gone(s: Tx, ops: seq<Op>): seq<Left>
    requires Ok(s)
    decreases |ops|
  {
    if ops == [] then []
    else
      StepOk(s, ops[0]);
      Step(s, ops[0]).left + Gone(Step(s, ops[0]).next, ops[1..])
  }
}
