/** Which frame resend() repeats: the code keeps one buffer, and both building a frame
    and putting one on air write it. */
module TxResend {
  import opened Wire
  import opened TxModel

  /** The two ways a frame gets into the buffer. */
  datatype Put = Built(frame: bytes) | Started(frame: bytes)

  /** The frame whose transmission was begun in one half of a service(), seen from
      outside: the head is on air that was not, or the radio refused to start it. */
  function StartedIn(s: Tx, o: Out): seq<Put> {
    if s.queue != [] && s.state != TX_SENDING
       && (o.next.state == TX_SENDING || (o.left != [] && o.left[0].how == StartFailed))
    then [Started(s.queue[0].frame)] else []
  }

  function StartedBy(s: Tx, now: int, r: Radio): seq<Put>
    requires Ok(s)
  {
    InterruptOk(s, now, r);
    var a := OnInterrupt(s, now, r);
    StartedIn(s, a) + StartedIn(a.next, DriveTx(a.next, now, r))
  }

  function PutsBy(s: Tx, op: Op): seq<Put>
    requires Ok(s)
  {
    match op
    case DoSend(frame, _, _) => if Accepts(s, frame) then [Built(frame)] else []
    case DoService(r, at) => StartedBy(s, at, r)
    case _ => []
  }

  /** What was built and what was started in a run, in order. */
  function Puts(s: Tx, ops: seq<Op>): seq<Put>
    requires Ok(s)
    decreases |ops|
  {
    if ops == [] then []
    else
      StepOk(s, ops[0]);
      PutsBy(s, ops[0]) + Puts(Step(s, ops[0]).next, ops[1..])
  }

  function LastPut(puts: seq<Put>, before: bytes): bytes {
    if puts == [] then before else puts[|puts| - 1].frame
  }

  /** The frame built last, that is, the last one send() accepted. */
  function LastBuilt(puts: seq<Put>): Option<bytes> {
    if puts == [] then None
    else if puts[|puts| - 1].Built? then Some(puts[|puts| - 1].frame)
    else LastBuilt(puts[..|puts| - 1])
  }

  /** The frame whose transmission was begun last. */
  function LastStarted(puts: seq<Put>): Option<bytes> {
    if puts == [] then None
    else if puts[|puts| - 1].Started? then Some(puts[|puts| - 1].frame)
    else LastStarted(puts[..|puts| - 1])
  }

  /** The frames started since one was built, and those built since one was started. */
  function StartedSince(puts: seq<Put>): seq<bytes> {
    if puts == [] || puts[|puts| - 1].Built? then []
    else StartedSince(puts[..|puts| - 1]) + [puts[|puts| - 1].frame]
  }

  function BuiltSince(puts: seq<Put>): seq<bytes> {
    if puts == [] || puts[|puts| - 1].Started? then []
    else BuiltSince(puts[..|puts| - 1]) + [puts[|puts| - 1].frame]
  }

  // ---- the buffer ------------------------------------------------------------------------

  lemma InterruptPuts(s: Tx, now: int, r: Radio)
    requires Ok(s)
    ensures OnInterrupt(s, now, r).next.frame == LastPut(StartedIn(s, OnInterrupt(s, now, r)), s.frame)
  {
  }

  lemma DrivePuts(s: Tx, now: int, r: Radio)
    requires Ok(s)
    ensures DriveTx(s, now, r).next.frame == LastPut(StartedIn(s, DriveTx(s, now, r)), s.frame)
  {
  }

  lemma PutsChain(a: seq<Put>, b: seq<Put>, before: bytes)
    ensures LastPut(a + b, before) == LastPut(b, LastPut(a, before))
  {
  }

  lemma StepPuts(s: Tx, op: Op)
    requires Ok(s)
    ensures Step(s, op).next.frame == LastPut(PutsBy(s, op), s.frame)
  {
    if op.DoService? {
      var a := OnInterrupt(s, op.at, op.r);
      InterruptOk(s, op.at, op.r);
      InterruptPuts(s, op.at, op.r);
      DrivePuts(a.next, op.at, op.r);
      PutsChain(StartedIn(s, a), StartedIn(a.next, DriveTx(a.next, op.at, op.r)), s.frame);
    }
  }

  lemma {:induction false} FrameIsLastPut(s: Tx, ops: seq<Op>)
    requires Ok(s)
    ensures Run(s, ops).frame == LastPut(Puts(s, ops), s.frame)
    decreases |ops|
  {
    if ops != [] {
      var next := Step(s, ops[0]).next;
      StepOk(s, ops[0]);
      StepPuts(s, ops[0]);
      FrameIsLastPut(next, ops[1..]);
      PutsChain(PutsBy(s, ops[0]), Puts(next, ops[1..]), s.frame);
    }
  }

  /** What a resend() after a run puts into the queue, if there is room: the frame that
      was built or started last, whichever was later. */
  lemma ResendRepeatsLastPut(ops: seq<Op>, draw: u32, at: int)
    ensures var s, puts := Run(EMPTY, ops), Puts(EMPTY, ops);
            && s.frame == LastPut(puts, [])
            && AcceptedBy(s, DoResend(draw, at))
               == if |s.queue| < TXQ_N && 0 < |LastPut(puts, [])| <= FRAME_CAP then [LastPut(puts, [])] else []
  {
    FrameIsLastPut(EMPTY, ops);
  }

  lemma {:induction false} LastOfEach(puts: seq<Put>)
    requires puts != []
    ensures StartedSince(puts) == [] <==> puts[|puts| - 1].Built?
    ensures BuiltSince(puts) == [] <==> puts[|puts| - 1].Started?
    ensures LastBuilt(puts).None? ==> forall k :: 0 <= k < |puts| ==> puts[k].Started?
    ensures LastStarted(puts).None? ==> forall k :: 0 <= k < |puts| ==> puts[k].Built?
    decreases |puts|
  {
    if |puts| > 1 {
      LastOfEach(puts[..|puts| - 1]);
    }
  }

  /** Exactly when resend() repeats the frame built last: when none was started since, or
      the last one started since carries the same bytes. */
  lemma RepeatsLastBuiltIff(ops: seq<Op>)
    ensures var puts := Puts(EMPTY, ops);
            LastBuilt(puts).Some? ==>
              (Run(EMPTY, ops).frame == LastBuilt(puts).value <==>
                 var since := StartedSince(puts); since == [] || since[|since| - 1] == LastBuilt(puts).value)
  {
    FrameIsLastPut(EMPTY, ops);
    if Puts(EMPTY, ops) != [] {
      LastOfEach(Puts(EMPTY, ops));
    }
  }

  /** Exactly when it repeats the frame transmitted last: when none was built since, or
      the last one built since carries the same bytes. */
  lemma RepeatsLastStartedIff(ops: seq<Op>)
    ensures var puts := Puts(EMPTY, ops);
            LastStarted(puts).Some? ==>
              (Run(EMPTY, ops).frame == LastStarted(puts).value <==>
                 var since := BuiltSince(puts); since == [] || since[|since| - 1] == LastStarted(puts).value)
  {
    FrameIsLastPut(EMPTY, ops);
    if Puts(EMPTY, ops) != [] {
      LastOfEach(Puts(EMPTY, ops));
    }
  }

  // ---- an input for each wording -------------------------------------------------------------

  const CLEAR := Radio(false, false, false, false, false, true, false, true, 0)

  lemma FirstPuts(s: Tx, op: Op, rest: seq<Op>)
    requires Ok(s)
    ensures Ok(Step(s, op).next)
    ensures Puts(s, [op] + rest) == PutsBy(s, op) + Puts(Step(s, op).next, rest)
    ensures Run(s, [op] + rest) == Run(Step(s, op).next, rest)
  {
    StepOk(s, op);
    assert ([op] + rest)[1..] == rest;
  }

  lemma LastOfThree(a: Put, b: Put, c: Put)
    requires b.Started? && c.Built?
    ensures LastStarted([a, b, c]) == Some(b.frame)
  {
    assert [a, b, c][..2] == [a, b];
  }

  /** Send [1], put it on air, send [2]: the last transmitted frame is [1], and resend()
      repeats [2], which has never been on air. */
  lemma ResendMayRepeatUnsent()
    ensures var ops := [DoSend([1], 0, 0)] + ([DoService(CLEAR, 0)] + ([DoSend([2], 0, 0)] + []));
            && Puts(EMPTY, ops) == [Built([1]), Started([1]), Built([2])]
            && LastStarted(Puts(EMPTY, ops)) == Some([1])
            && AcceptedBy(Run(EMPTY, ops), DoResend(0, 0)) == [[2]]
  {
    var last := [DoSend([2], 0, 0)] + [];
    var s1 := EMPTY.(queue := [Item([1], 0, 0)], frame := [1]);
    assert Step(EMPTY, DoSend([1], 0, 0)).next == s1;
    FirstPuts(EMPTY, DoSend([1], 0, 0), [DoService(CLEAR, 0)] + last);
    var s2 := s1.(state := TX_SENDING);
    assert Step(s1, DoService(CLEAR, 0)).next == s2 && PutsBy(s1, DoService(CLEAR, 0)) == [Started([1])];
    FirstPuts(s1, DoService(CLEAR, 0), last);
    var s3 := s2.(queue := [Item([1], 0, 0), Item([2], 0, 0)], frame := [2]);
    assert Step(s2, DoSend([2], 0, 0)).next == s3;
    FirstPuts(s2, DoSend([2], 0, 0), []);
    LastOfThree(Built([1]), Started([1]), Built([2]));
  }
}
