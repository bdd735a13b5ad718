/** What every run of the transmit pump keeps: the queue is a FIFO that loses nothing
    silently, and the head frame is never stuck. */
module TxSafety {
  import opened Wire
  import opened Word32
  import opened TxModel

  function Frames(queue: seq<Item>): seq<bytes> {
    if queue == [] then [] else [queue[0].frame] + Frames(queue[1..])
  }

  function FramesGone(gone: seq<Left>): seq<bytes> {
    if gone == [] then [] else [gone[0].frame] + FramesGone(gone[1..])
  }

  function CountHow(gone: seq<Left>, how: How): nat {
    if gone == [] then 0 else (if gone[0].how == how then 1 else 0) + CountHow(gone[1..], how)
  }

  lemma {:induction false} FramesAppend(a: seq<Item>, b: seq<Item>)
    ensures Frames(a + b) == Frames(a) + Frames(b)
    decreases |a|
  {
    if a == [] {
      assert a + b == b;
    } else {
      assert (a + b)[1..] == a[1..] + b;
      FramesAppend(a[1..], b);
    }
  }

  lemma {:induction false} GoneAppend(a: seq<Left>, b: seq<Left>, how: How)
    ensures FramesGone(a + b) == FramesGone(a) + FramesGone(b)
    ensures CountHow(a + b, how) == CountHow(a, how) + CountHow(b, how)
    decreases |a|
  {
    if a == [] {
      assert a + b == b;
    } else {
      assert (a + b)[1..] == a[1..] + b;
      GoneAppend(a[1..], b, how);
    }
  }

  /** What leaves is the front of the queue, what was accepted is at its back. */
  predicate Moves(s: Tx, o: Out, accepted: seq<bytes>) {
    && FramesGone(o.left) + Frames(o.next.queue) == Frames(s.queue) + accepted
    && o.next.dropped == s.dropped + CountHow(o.left, StartFailed) + CountHow(o.left, NeverFinished)
  }

  lemma DropMoves(s: Tx, how: How)
    requires s.queue != []
    ensures Moves(s, DropHead(s, how), [])
  {
    var o := DropHead(s, how);
    assert o.left[1..] == [];
    assert [s.queue[0].frame] + Frames(s.queue[1..]) == Frames(s.queue);
  }

  lemma InterruptMoves(s: Tx, now: int, r: Radio)
    requires Ok(s)
    ensures Moves(s, OnInterrupt(s, now, r), [])
  {
    if s.queue != [] {
      DropMoves(s, Sent);
      DropMoves(s.(frame := s.queue[0].frame), StartFailed);
      if s.state == TX_SCANNING && r.event && r.cadDetected {
        var t := Defer(s, now, r.draw);
        assert t.queue[1..] == s.queue[1..];
      }
    }
  }

  lemma DriveMoves(s: Tx, now: int, r: Radio)
    requires Ok(s)
    ensures Moves(s, DriveTx(s, now, r), [])
  {
    if s.queue != [] {
      DropMoves(s, NeverFinished);
      DropMoves(s.(frame := s.queue[0].frame), StartFailed);
      DropMoves(s.(frame := s.queue[0].frame, state := TX_WAITING), StartFailed);
    }
  }

  lemma StepMoves(s: Tx, op: Op)
    requires Ok(s)
    ensures Moves(s, Step(s, op), AcceptedBy(s, op))
  {
    match op
    case DoSend(frame, draw, at) =>
      if Accepts(s, frame) {
        EnqueueMoves(s, frame, draw, at);
      }
    case DoResend(draw, at) =>
      if Accepts(s, s.frame) {
        EnqueueMoves(s, s.frame, draw, at);
      }
    case DoService(r, at) => ServiceMoves(s, at, r);
    case _ =>
  }

  lemma ServiceMoves(s: Tx, now: int, r: Radio)
    requires Ok(s)
    ensures Moves(s, Service(s, now, r), [])
  {
    InterruptOk(s, now, r);
    var a := OnInterrupt(s, now, r);
    var b := DriveTx(a.next, now, r);
    InterruptMoves(s, now, r);
    DriveMoves(a.next, now, r);
    GoneAppend(a.left, b.left, StartFailed);
    GoneAppend(a.left, b.left, NeverFinished);
    assert Service(s, now, r) == Out(b.next, a.left + b.left);
  }

  lemma EnqueueMoves(s: Tx, frame: bytes, draw: u32, now: int)
    requires Accepts(s, frame)
    ensures Frames(Enqueue(s, frame, draw, now).queue) == Frames(s.queue) + [frame]
  {
    var added := Enqueue(s, frame, draw, now).queue[|s.queue|];
    FramesAppend(s.queue, [added]);
    assert [added][1..] == [];
  }

  lemma {:induction false} RunMoves(s: Tx, ops: seq<Op>)
    requires Ok(s)
    ensures FramesGone(Gone(s, ops)) + Frames(Run(s, ops).queue) == Frames(s.queue) + Accepted(s, ops)
    ensures Run(s, ops).dropped
            == s.dropped + CountHow(Gone(s, ops), StartFailed) + CountHow(Gone(s, ops), NeverFinished)
    decreases |ops|
  {
    if ops != [] {
      var o := Step(s, ops[0]);
      StepOk(s, ops[0]);
      StepMoves(s, ops[0]);
      RunMoves(o.next, ops[1..]);
      var rest := Gone(o.next, ops[1..]);
      GoneAppend(o.left, rest, StartFailed);
      GoneAppend(o.left, rest, NeverFinished);
      Reassociate(FramesGone(o.left), FramesGone(rest), Frames(Run(s, ops).queue), Frames(o.next.queue),
                  Frames(s.queue), AcceptedBy(s, ops[0]), Accepted(o.next, ops[1..]));
    }
  }

  lemma Reassociate(left: seq<bytes>, rest: seq<bytes>, end: seq<bytes>, mid: seq<bytes>,
                    start: seq<bytes>, now: seq<bytes>, later: seq<bytes>)
    requires left + mid == start + now && rest + end == mid + later
    ensures (left + rest) + end == start + (now + later)
  {
    assert (left + rest) + end == left + (mid + later) == (left + mid) + later;
  }

  lemma {:induction false} HowAddsUp(gone: seq<Left>)
    ensures |FramesGone(gone)| == |gone|
    ensures |gone| == CountHow(gone, Sent) + CountHow(gone, StartFailed) + CountHow(gone, NeverFinished)
    decreases |gone|
  {
    if gone != [] {
      HowAddsUp(gone[1..]);
    }
  }

  lemma {:induction false} FramesCount(queue: seq<Item>)
    ensures |Frames(queue)| == |queue|
    decreases |queue|
  {
    if queue != [] {
      FramesCount(queue[1..]);
    }
  }

  /** The ring is a FIFO and conserves frames, over every run of send, resend,
      schedule, service, sleep and wake: the frames that left, followed by the frames
      queued, are the frames accepted, in order; and every accepted frame was
      transmitted, counted as dropped, or is still queued. A state machine that is
      not idle has a frame to work on. */
  lemma QueueIsFifo(ops: seq<Op>)
    ensures var s := Run(EMPTY, ops);
            var gone := Gone(EMPTY, ops);
            && FramesGone(gone) + Frames(s.queue) == Accepted(EMPTY, ops)
            && |Accepted(EMPTY, ops)| == CountHow(gone, Sent) + s.dropped + |s.queue|
            && (s.state != TX_IDLE ==> s.queue != [])
            && |s.queue| <= TXQ_N
  {
    RunMoves(EMPTY, ops);
    HowAddsUp(Gone(EMPTY, ops));
    FramesCount(Run(EMPTY, ops).queue);
    assert Frames(EMPTY.queue) + Accepted(EMPTY, ops) == Accepted(EMPTY, ops);
  }

  // ---- the failure streak ------------------------------------------------------------------

  /** How many frames at the end of the list did not go out. */
  function FailuresAtEnd(gone: seq<Left>): nat {
    if gone == [] || gone[|gone| - 1].how == Sent then 0 else 1 + FailuresAtEnd(gone[..|gone| - 1])
  }

  lemma {:induction false} StreakAppend(a: seq<Left>, b: seq<Left>)
    ensures FailuresAtEnd(a + b) == FailuresAtEnd(b) + (if FailuresAtEnd(b) == |b| then FailuresAtEnd(a) else 0)
    ensures FailuresAtEnd(b) <= |b|
    decreases |b|
  {
    if b == [] {
      assert a + b == a;
    } else {
      var n := |b| - 1;
      StreakAppend(a, b[..n]);
      assert (a + b)[..|a + b| - 1] == a + b[..n];
    }
  }

  predicate StreakMoves(s: Tx, o: Out) {
    o.next.failStreak == FailuresAtEnd(o.left) + (if FailuresAtEnd(o.left) == |o.left| then s.failStreak else 0)
  }

  lemma StreaksChain(s: Tx, a: Out, b: Out)
    requires StreakMoves(s, a) && StreakMoves(a.next, b)
    ensures StreakMoves(s, Out(b.next, a.left + b.left))
  {
    StreakAppend(a.left, b.left);
    StreakAppend([], a.left);
  }

  lemma ServiceStreak(s: Tx, now: int, r: Radio)
    requires Ok(s)
    ensures StreakMoves(s, Service(s, now, r))
  {
    InterruptOk(s, now, r);
    var a := OnInterrupt(s, now, r);
    var b := DriveTx(a.next, now, r);
    OneStreak(s, a);
    OneStreak(a.next, b);
    StreaksChain(s, a, b);
  }

  /** At most one frame leaves in each half of a service(). */
  lemma OneStreak(s: Tx, o: Out)
    requires |o.left| <= 1
    requires o.next.failStreak == if o.left == [] then s.failStreak
                                  else if o.left[0].how == Sent then 0 else s.failStreak + 1
    ensures StreakMoves(s, o)
  {
    if o.left != [] {
      assert o.left[..|o.left| - 1] == [];
    }
  }

  lemma {:induction false} RunStreak(s: Tx, ops: seq<Op>)
    requires Ok(s)
    ensures StreakMoves(s, Out(Run(s, ops), Gone(s, ops)))
    decreases |ops|
  {
    if ops != [] {
      var o := Step(s, ops[0]);
      StepOk(s, ops[0]);
      if ops[0].DoService? {
        ServiceStreak(s, ops[0].at, ops[0].r);
      }
      RunStreak(o.next, ops[1..]);
      StreaksChain(s, o, Out(Run(o.next, ops[1..]), Gone(o.next, ops[1..])));
    }
  }

  /** txFailStreak is the number of frames lost in a row since the last one that went
      out: one success clears it, and nothing else changes it. */
  lemma StreakIsTail(ops: seq<Op>)
    ensures Run(EMPTY, ops).failStreak == FailuresAtEnd(Gone(EMPTY, ops))
  {
    RunStreak(EMPTY, ops);
    StreakAppend([], Gone(EMPTY, ops));
  }

  // ---- resend --------------------------------------------------------------------------------

  lemma AcceptedFirst(s: Tx, op: Op, rest: seq<Op>)
    requires Ok(s)
    ensures Ok(Step(s, op).next)
    ensures Accepted(s, [op] + rest) == AcceptedBy(s, op) + Accepted(Step(s, op).next, rest)
  {
    StepOk(s, op);
    assert ([op] + rest)[1..] == rest;
  }

  /** ... but it need not be the last frame built: when an older one goes on air in
      between, resend() repeats that one. Two frames are sent, the first is started,
      and a resend queues the first again. */
  lemma ResendMayRepeatOlder()
    ensures var r := Radio(false, false, false, false, false, true, false, true, 0);
            Accepted(EMPTY, [DoSend([1], 0, 0)] + ([DoSend([2], 0, 0)] + ([DoService(r, 0)] + ([DoResend(0, 0)] + []))))
            == [[1], [2], [1]]
  {
    var r := Radio(false, false, false, false, false, true, false, true, 0);
    var last := [DoResend(0, 0)] + [];
    var s1 := EMPTY.(queue := [Item([1], 0, 0)], frame := [1]);
    assert Step(EMPTY, DoSend([1], 0, 0)).next == s1;
    AcceptedFirst(EMPTY, DoSend([1], 0, 0), [DoSend([2], 0, 0)] + ([DoService(r, 0)] + last));
    var s2 := s1.(queue := [Item([1], 0, 0), Item([2], 0, 0)], frame := [2]);
    assert Step(s1, DoSend([2], 0, 0)).next == s2;
    AcceptedFirst(s1, DoSend([2], 0, 0), [DoService(r, 0)] + last);
    var s3 := s2.(frame := [1], state := TX_SENDING);
    assert Step(s2, DoService(r, 0)).next == s3;
    AcceptedFirst(s2, DoService(r, 0), last);
    AcceptedFirst(s3, DoResend(0, 0), []);
  }
}
