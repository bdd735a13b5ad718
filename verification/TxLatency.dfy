/** How long every frame can take, from the moment it is due: the queue holds sixteen, and
    each of them leaves within the bound of TxTiming once it is due and in front. */
module TxLatency {
  import opened Wire
  import opened Word32
  import opened TxModel
  import opened TxTiming
  import opened TxSchedule

  /** The latest of some times. */
  function MaxOf(times: seq<int>): int
    requires times != []
  {
    if |times| == 1 then times[0] else Max(MaxOf(times[..|times| - 1]), times[|times| - 1])
  }

  lemma {:induction false} MaxOfIs(times: seq<int>)
    requires times != []
    ensures MaxOf(times) in times && forall t :: t in times ==> t <= MaxOf(times)
    decreases |times|
  {
    var n := |times| - 1;
    if n > 0 {
      MaxOfIs(times[..n]);
      assert times == times[..n] + [times[n]];
    }
  }

  /** When the i-th queued frame is gone at the latest, if the head is by e. */
  function Estimate(queue: seq<Item>, e: int, b: nat, i: nat): (r: int)
    requires i < |queue|
    ensures r >= e
    decreases i
  {
    if i == 0 then e else Max(queue[i].txAfter, Estimate(queue, e, b, i - 1)) + b
  }

  // ---- estimates ---------------------------------------------------------------------------

  lemma {:induction false} EstimateShrinks(q: seq<Item>, e: int, r: seq<Item>, f: int, b: nat, i: nat)
    requires i < |q| == |r| && e <= f && q[1..] == r[1..]
    ensures Estimate(q, e, b, i) <= Estimate(r, f, b, i)
    decreases i
  {
    if i > 0 {
      EstimateShrinks(q, e, r, f, b, i - 1);
      assert q[i] == q[1..][i - 1] == r[i];
    }
  }

  lemma {:induction false} EstimateShifts(q: seq<Item>, e: int, f: int, b: nat, i: nat)
    requires i + 1 < |q| && e <= Max(q[1].txAfter, f) + b
    ensures Estimate(q[1..], e, b, i) <= Estimate(q, f, b, i + 1)
    decreases i
  {
    if i == 0 {
      assert Estimate(q, f, b, 0) == f;
    } else {
      EstimateShifts(q, e, f, b, i - 1);
      assert q[1..][i] == q[i + 1];
    }
  }

  lemma {:induction false} EstimatePrefix(q: seq<Item>, more: seq<Item>, e: int, b: nat, i: nat)
    requires i < |q|
    ensures Estimate(q + more, e, b, i) == Estimate(q, e, b, i)
    decreases i
  {
    if i > 0 {
      EstimatePrefix(q, more, e, b, i - 1);
    }
  }

  lemma {:induction false} EstimateBounded(q: seq<Item>, e: int, b: nat, m: int, i: nat)
    requires i < |q| && e <= m + b && forall j :: 0 < j < |q| ==> q[j].txAfter <= m
    ensures Estimate(q, e, b, i) <= m + (i + 1) * b
    decreases i
  {
    if i > 0 {
      EstimateBounded(q, e, b, m, i - 1);
      assert (i + 1) * b == i * b + b;
      MulMonotone(0, i, b);
    }
  }

  // ---- the invariant -------------------------------------------------------------------------

  /** A head as a service() at `p` leaves it: no timer has run out. */
  predicate HeadOk(s: Tx, p: int, x: Pace)
    requires s.queue != []
  {
    && Rerolled(s, p, x)
    && (Active(s) ==> s.queue[0].txAfter <= s.stateMs <= p)
    && (s.state == TX_SENDING ==> p <= s.stateMs + SEND_LIMIT_MS)
    && (s.state == TX_SCANNING ==> p <= s.stateMs + SCAN_LIMIT_MS)
  }

  /** All frames accepted so far: when each was accepted, when it was due, and by when it is
      to be gone. */
  datatype Book = Book(dues: seq<int>, accs: seq<int>, goals: seq<int>)

  predicate Sound(k: Book, clock: int, l: nat, b: nat) {
    && |k.dues| == |k.accs| == |k.goals|
    && forall j :: 0 <= j < |k.accs| ==>
         k.accs[j] <= clock && k.accs[j] <= k.dues[j] <= k.accs[j] + l && k.goals[j] <= k.accs[j] + l + 16 * b
  }

  /** The queue holds the last of them, with their times, unless re-rolled. */
  predicate Queued(queue: seq<Item>, k: Book, gone: nat) {
    && |k.dues| == |k.accs| == gone + |queue|
    && forall i :: 0 <= i < |queue| ==>
         k.accs[gone + i] <= queue[i].txAfter && (queue[i].attempts == 0 ==> queue[i].txAfter == k.dues[gone + i])
  }

  predicate OnGoal(queue: seq<Item>, e: int, goals: seq<int>, gone: nat, b: nat)
    requires |goals| == gone + |queue|
  {
    forall i :: 0 <= i < |queue| ==> Estimate(queue, e, b, i) <= goals[gone + i]
  }

  /** `gone` frames have left, the last service() was at `p`, the clock reads `clock`. */
  predicate Course(s: Tx, k: Book, gone: nat, p: int, clock: int, x: Pace, l: nat) {
    && Ok(s) && p <= clock && Sound(k, clock, l, Bound(x)) && Queued(s.queue, k, gone)
    && (s.queue != [] ==> HeadOk(s, p, x) && OnGoal(s.queue, Deadline(s, p, x), k.goals, gone, Bound(x)))
  }

  /** Everything compared lies within less than 2^31 ms. */
  predicate Near(x: Pace, l: nat) {
    l + 16 * Bound(x) + x.gap < HALF
  }

  // ---- the head ------------------------------------------------------------------------------

  lemma DeadlineBounds(s: Tx, p: int, x: Pace)
    requires Ok(s) && s.queue != [] && HeadOk(s, p, x)
    ensures p + x.gap <= Deadline(s, p, x)
    ensures Deadline(s, p, x) <= (if s.queue[0].attempts == 0 then Max(s.queue[0].txAfter, p) else p) + Bound(x)
  {
    AttemptsFit(s, x);
    MulMonotone(0, MAX_ATTEMPTS - s.queue[0].attempts, Cycle(x));
  }

  lemma CourseIsTracked(s: Tx, k: Book, gone: nat, p: int, clock: int, x: Pace, l: nat, now: int)
    requires Course(s, k, gone, p, clock, x, l) && s.queue != [] && Near(x, l)
    requires clock <= now <= p + x.gap
    ensures Tracked(s, p, k.accs[gone] - x.gap, Deadline(s, p, x), x)
    ensures Deadline(s, p, x) <= k.goals[gone]
  {
    assert Estimate(s.queue, Deadline(s, p, x), Bound(x), 0) == Deadline(s, p, x);
  }

  // ---- a service() ---------------------------------------------------------------------------

  /** The head stays. */
  lemma KeepCourse(s: Tx, t: Tx, k: Book, gone: nat, p: int, clock: int, x: Pace, l: nat, now: int)
    requires Course(s, k, gone, p, clock, x, l) && s.queue != [] && clock <= now
    requires Ok(t) && |t.queue| == |s.queue| && t.queue[1..] == s.queue[1..] && HeadOk(t, now, x)
    requires t.queue[0] == s.queue[0] || (t.queue[0].attempts > 0 && t.queue[0].txAfter >= now)
    requires Deadline(t, now, x) <= Deadline(s, p, x)
    ensures Course(t, k, gone, now, now, x, l)
  {
    forall i | 0 <= i < |t.queue|
      ensures k.accs[gone + i] <= t.queue[i].txAfter && (t.queue[i].attempts == 0 ==> t.queue[i].txAfter == k.dues[gone + i])
      ensures Estimate(t.queue, Deadline(t, now, x), Bound(x), i) <= k.goals[gone + i]
    {
      EstimateShrinks(t.queue, Deadline(t, now, x), s.queue, Deadline(s, p, x), Bound(x), i);
      if i > 0 {
        assert t.queue[i] == t.queue[1..][i - 1] == s.queue[i];
      }
    }
  }

  /** The head leaves. */
  lemma PopCourse(s: Tx, t: Tx, k: Book, gone: nat, p: int, clock: int, x: Pace, l: nat, now: int)
    requires Course(s, k, gone, p, clock, x, l) && s.queue != []
    requires clock <= now <= Deadline(s, p, x)
    requires Ok(t) && t.state == TX_IDLE && t.queue == s.queue[1..]
    ensures Course(t, k, gone + 1, now, now, x, l)
  {
    if t.queue != [] {
      var b, e := Bound(x), Deadline(t, now, x);
      assert t.queue[0] == s.queue[1] && s.queue[1].attempts == 0;
      forall i | 0 <= i < |t.queue|
        ensures k.accs[gone + 1 + i] <= t.queue[i].txAfter
        ensures t.queue[i].attempts == 0 ==> t.queue[i].txAfter == k.dues[gone + 1 + i]
        ensures Estimate(t.queue, e, b, i) <= k.goals[gone + 1 + i]
      {
        assert t.queue[i] == s.queue[i + 1];
        EstimateShifts(s.queue, e, Deadline(s, p, x), b, i);
      }
    }
  }

  /** What leaves at `now` is in time, and the rest on course. */
  predicate Leaving(o: Out, k: Book, gone: nat, now: int, x: Pace, l: nat) {
    && gone + |o.left| <= |k.goals|
    && (forall j :: gone <= j < gone + |o.left| ==> now <= k.goals[j])
    && Course(o.next, k, gone + |o.left|, now, now, x, l)
  }

  /** What one half of a service() does to the queue. */
  lemma InterruptShape(s: Tx, now: int, r: Radio)
    requires Ok(s) && s.queue != []
    ensures var o := OnInterrupt(s, now, r);
            && Ok(o.next)
            && (o.left != [] ==> |o.left| == 1 && o.next.state == TX_IDLE && o.next.queue == s.queue[1..])
            && (o.left == [] ==> |o.next.queue| == |s.queue| && o.next.queue[1..] == s.queue[1..]
                                 && (o.next.queue[0] == s.queue[0]
                                     || (o.next.queue[0].attempts > 0 && o.next.queue[0].txAfter == now + r.draw)))
  {
    InterruptOk(s, now, r);
  }

  lemma DriveShape(s: Tx, now: int, r: Radio)
    requires Ok(s)
    ensures var o := DriveTx(s, now, r);
            && Ok(o.next)
            && (o.left != [] ==> s.queue != [] && |o.left| == 1 && o.next.state == TX_IDLE && o.next.queue == s.queue[1..])
            && (o.left == [] ==> o.next.queue == s.queue)
  {
    DriveOk(s, now, r);
  }

  /** The head stays or leaves, whatever made it so. */
  lemma HeadStaysOrLeaves(s: Tx, o: Out, k: Book, gone: nat, p: int, clock: int, x: Pace, l: nat,
                          now: int)
    requires Course(s, k, gone, p, clock, x, l) && s.queue != []
    requires clock <= now <= Deadline(s, p, x) <= k.goals[gone] && Ok(o.next)
    requires o.left == [] ==>
               && |o.next.queue| == |s.queue| && o.next.queue[1..] == s.queue[1..] && HeadOk(o.next, now, x)
               && (o.next.queue[0] == s.queue[0] || (o.next.queue[0].attempts > 0 && o.next.queue[0].txAfter >= now))
               && Deadline(o.next, now, x) <= Deadline(s, p, x)
    requires o.left != [] ==> |o.left| == 1 && o.next.state == TX_IDLE && o.next.queue == s.queue[1..]
    ensures Leaving(o, k, gone, now, x, l)
  {
    if o.left == [] {
      KeepCourse(s, o.next, k, gone, p, clock, x, l, now);
    } else {
      PopCourse(s, o.next, k, gone, p, clock, x, l, now);
    }
  }

  lemma TwoHalves(a: Out, b: Out, k: Book, gone: nat, now: int, x: Pace, l: nat)
    requires Leaving(a, k, gone, now, x, l) && Leaving(b, k, gone + |a.left|, now, x, l)
    ensures Leaving(Out(b.next, a.left + b.left), k, gone, now, x, l)
  {
    var mid := gone + |a.left|;
    assert gone + |a.left + b.left| == mid + |b.left|;
    forall j | gone <= j < gone + |a.left + b.left| ensures now <= k.goals[j] {
      assert j < mid || mid <= j < mid + |b.left|;
    }
  }

  lemma DriveCourse(s: Tx, k: Book, gone: nat, now: int, r: Radio, x: Pace, l: nat)
    requires Course(s, k, gone, now, now, x, l) && s.state == TX_IDLE && s.queue != [] && Near(x, l)
    ensures Leaving(DriveTx(s, now, r), k, gone, now, x, l)
  {
    var o := DriveTx(s, now, r);
    DriveShape(s, now, r);
    DeadlineBounds(s, now, x);
    CourseIsTracked(s, k, gone, now, now, x, l, now);
    DriveWaiting(s, now, now, r, k.accs[gone] - x.gap, Deadline(s, now, x), x);
    HeadStaysOrLeaves(s, o, k, gone, now, now, x, l, now);
  }

  lemma IdleDrive(s: Tx, k: Book, gone: nat, now: int, r: Radio, x: Pace, l: nat)
    requires Course(s, k, gone, now, now, x, l) && s.queue == []
    ensures Leaving(DriveTx(s, now, r), k, gone, now, x, l)
  {
  }

  lemma ServiceOfEmpty(s: Tx, k: Book, gone: nat, p: int, clock: int, now: int, r: Radio, x: Pace,
                       l: nat)
    requires Course(s, k, gone, p, clock, x, l) && clock <= now && s.queue == []
    ensures Leaving(Service(s, now, r), k, gone, now, x, l)
  {
    assert Service(s, now, r) == Out(s, []);
  }

  /** The interrupt takes the head off; what is in front then is driven in the same pass. */
  lemma LeavingByInterrupt(s: Tx, k: Book, gone: nat, p: int, clock: int, now: int, r: Radio,
                           x: Pace, l: nat)
    requires Course(s, k, gone, p, clock, x, l) && Near(x, l) && s.queue != []
    requires clock <= now <= Deadline(s, p, x) <= k.goals[gone] && OnInterrupt(s, now, r).left != []
    ensures Leaving(Service(s, now, r), k, gone, now, x, l)
  {
    InterruptOk(s, now, r);
    InterruptShape(s, now, r);
    var a := OnInterrupt(s, now, r);
    var b := DriveTx(a.next, now, r);
    HeadStaysOrLeaves(s, a, k, gone, p, clock, x, l, now);
    if a.next.queue == [] {
      IdleDrive(a.next, k, gone + 1, now, r, x, l);
    } else {
      DriveCourse(a.next, k, gone + 1, now, r, x, l);
    }
    TwoHalves(a, b, k, gone, now, x, l);
  }

  lemma ServiceShape(s: Tx, now: int, r: Radio)
    requires Ok(s) && s.queue != [] && OnInterrupt(s, now, r).left == []
    ensures var o := Service(s, now, r);
            && Ok(o.next)
            && (o.left != [] ==> |o.left| == 1 && o.next.state == TX_IDLE && o.next.queue == s.queue[1..])
            && (o.left == [] ==> |o.next.queue| == |s.queue| && o.next.queue[1..] == s.queue[1..]
                                 && (o.next.queue[0] == s.queue[0]
                                     || (o.next.queue[0].attempts > 0 && o.next.queue[0].txAfter == now + r.draw)))
  {
    InterruptShape(s, now, r);
    DriveShape(OnInterrupt(s, now, r).next, now, r);
    var b := DriveTx(OnInterrupt(s, now, r).next, now, r);
    assert [] + b.left == b.left;
  }

  lemma ServiceCourse(s: Tx, k: Book, gone: nat, p: int, clock: int, now: int, r: Radio, x: Pace,
                      l: nat)
    requires Course(s, k, gone, p, clock, x, l) && Near(x, l)
    requires clock <= now <= p + x.gap && r.draw <= 255 * x.slotMs
    ensures Leaving(Service(s, now, r), k, gone, now, x, l)
  {
    if s.queue == [] {
      ServiceOfEmpty(s, k, gone, p, clock, now, r, x, l);
    } else {
      CourseIsTracked(s, k, gone, p, clock, x, l, now);
      ServiceTracked(s, p, now, r, k.accs[gone] - x.gap, Deadline(s, p, x), x);
      if OnInterrupt(s, now, r).left != [] {
        LeavingByInterrupt(s, k, gone, p, clock, now, r, x, l);
      } else {
        ServiceShape(s, now, r);
        HeadStaysOrLeaves(s, Service(s, now, r), k, gone, p, clock, x, l, now);
      }
    }
  }

  // ---- a frame is accepted -------------------------------------------------------------------

  predicate AtMost(dues: seq<int>, m: int) {
    forall d :: d in dues ==> d <= m
  }

  /** The new frame is at most the sixteenth. */
  lemma LastEstimate(s: Tx, k: Book, gone: nat, p: int, clock: int, x: Pace, l: nat, item: Item, m: int)
    requires Course(s, k, gone, p, clock, x, l) && 0 < |s.queue| < TXQ_N
    requires p <= m && item.txAfter <= m && AtMost(k.dues, m)
    ensures Estimate(s.queue + [item], Deadline(s, p, x), Bound(x), |s.queue|) <= m + 16 * Bound(x)
  {
    var q, e, b := s.queue + [item], Deadline(s, p, x), Bound(x);
    DeadlineBounds(s, p, x);
    assert k.dues[gone] in k.dues;
    forall j | 0 < j < |q| ensures q[j].txAfter <= m {
      if j < |s.queue| {
        assert q[j] == s.queue[j] && k.dues[gone + j] in k.dues;
      }
    }
    EstimateBounded(q, e, b, m, |s.queue|);
    MulMonotone(|s.queue| + 1, 16, b);
  }

  function More(k: Book, due: int, at: int, m: int, b: nat): Book {
    Book(k.dues + [due], k.accs + [at], k.goals + [m + 16 * b])
  }

  lemma MoreQueued(queue: seq<Item>, k: Book, gone: nat, item: Item, at: int, m: int, b: nat)
    requires Queued(queue, k, gone) && at <= item.txAfter
    ensures Queued(queue + [item], More(k, item.txAfter, at, m, b), gone)
  {
  }

  lemma MoreSound(k: Book, clock: int, l: nat, due: int, at: int, m: int, b: nat)
    requires Sound(k, clock, l, b) && clock <= at <= due <= at + l && m <= at + l
    ensures Sound(More(k, due, at, m, b), at, l, b)
  {
  }

  /** The frames that were there keep their estimates, the new one meets its goal. */
  lemma MoreOnGoal(queue: seq<Item>, e: int, goals: seq<int>, gone: nat, b: nat, item: Item, goal: int)
    requires |goals| == gone + |queue| && OnGoal(queue, e, goals, gone, b)
    requires Estimate(queue + [item], e, b, |queue|) <= goal
    ensures OnGoal(queue + [item], e, goals + [goal], gone, b)
  {
    forall i | 0 <= i < |queue| ensures Estimate(queue + [item], e, b, i) <= (goals + [goal])[gone + i] {
      EstimatePrefix(queue, [item], e, b, i);
      assert (goals + [goal])[gone + i] == goals[gone + i];
    }
  }

  lemma FirstCourse(s: Tx, t: Tx, k: Book, gone: nat, p: int, clock: int, x: Pace, l: nat, item: Item, at: int, m: int)
    requires Course(s, k, gone, p, clock, x, l) && s.queue == [] && Ok(t) && t.queue == [item] && !Active(t)
    requires item.attempts == 0 && clock <= at <= item.txAfter <= at + l && item.txAfter <= m <= at + l
    ensures Course(t, More(k, item.txAfter, at, m, Bound(x)), gone, p, at, x, l)
  {
    MoreQueued(s.queue, k, gone, item, at, m, Bound(x));
    MoreSound(k, clock, l, item.txAfter, at, m, Bound(x));
    DeadlineBounds(t, p, x);
    MulMonotone(1, 16, Bound(x));
  }

  lemma NextOnGoal(s: Tx, k: Book, gone: nat, p: int, clock: int, x: Pace, l: nat, item: Item, m: int)
    requires Course(s, k, gone, p, clock, x, l) && 0 < |s.queue| < TXQ_N && p <= m && item.txAfter <= m
    requires AtMost(k.dues, m)
    ensures OnGoal(s.queue + [item], Deadline(s, p, x), k.goals + [m + 16 * Bound(x)], gone, Bound(x))
  {
    LastEstimate(s, k, gone, p, clock, x, l, item, m);
    MoreOnGoal(s.queue, Deadline(s, p, x), k.goals, gone, Bound(x), item, m + 16 * Bound(x));
  }

  lemma SameHead(s: Tx, t: Tx, p: int, x: Pace)
    requires Ok(s) && Ok(t) && s.queue != [] && t.queue != [] && t.queue[0] == s.queue[0]
    requires t.state == s.state && t.stateMs == s.stateMs
    ensures HeadOk(t, p, x) == HeadOk(s, p, x) && Deadline(t, p, x) == Deadline(s, p, x)
  {
  }

  lemma NextCourse(s: Tx, t: Tx, k: Book, gone: nat, p: int, clock: int, x: Pace, l: nat, item: Item, at: int, m: int)
    requires Course(s, k, gone, p, clock, x, l) && 0 < |s.queue| < TXQ_N && Ok(t) && t.queue == s.queue + [item]
    requires t.state == s.state && t.stateMs == s.stateMs
    requires item.attempts == 0 && clock <= at <= item.txAfter <= at + l && item.txAfter <= m <= at + l
    requires AtMost(k.dues, m)
    ensures Course(t, More(k, item.txAfter, at, m, Bound(x)), gone, p, at, x, l)
  {
    NextOnGoal(s, k, gone, p, clock, x, l, item, m);
    SameHead(s, t, p, x);
    MoreQueued(s.queue, k, gone, item, at, m, Bound(x));
    MoreSound(k, clock, l, item.txAfter, at, m, Bound(x));
  }

  lemma EnqueueCourse(s: Tx, k: Book, gone: nat, p: int, clock: int, x: Pace, l: nat, frame: bytes, draw: u32, at: int,
                      due: int, m: int)
    requires Course(s, k, gone, p, clock, x, l) && Accepts(s, frame) && clock <= at
    requires due == at + (if s.nextDelay.Some? then s.nextDelay.value else draw)
    requires due <= m <= at + l && AtMost(k.dues, m)
    ensures Course(Enqueue(s, frame, draw, at), More(k, due, at, m, Bound(x)), gone, p, at, x, l)
  {
    var t, item := Enqueue(s, frame, draw, at), Item(frame, due, 0);
    if s.queue == [] {
      FirstCourse(s, t, k, gone, p, clock, x, l, item, at, m);
    } else {
      NextCourse(s, t, k, gone, p, clock, x, l, item, at, m);
    }
  }

  // ---- every run -------------------------------------------------------------------------------

  /** The goals of frames accepted one after the other, m being the latest due time before. */
  function Goals(m: int, dues: seq<int>, b: nat): (goals: seq<int>)
    ensures |goals| == |dues|
    decreases |dues|
  {
    if dues == [] then [] else [Max(m, dues[0]) + 16 * b] + Goals(Max(m, dues[0]), dues[1..], b)
  }

  /** The frames so far, how many have left, the times of the last service() and clock, and
      the latest due time. */
  datatype Standing = Standing(k: Book, gone: nat, p: int, clock: int, m: int)

  predicate Stands(s: Tx, asked: Option<u32>, h: Standing, x: Pace, l: nat) {
    && Course(s, h.k, h.gone, h.p, h.clock, x, l) && AtMost(h.k.dues, h.m) && h.m <= h.clock + l
    && asked == s.nextDelay && (asked.Some? ==> asked.value <= l)
  }

  /** The standing with one more frame. */
  function Taking(h: Standing, due: int, at: int, b: nat): Standing {
    Standing(More(h.k, due, at, Max(h.m, due), b), h.gone, h.p, at, Max(h.m, due))
  }

  lemma MoreAtMost(dues: seq<int>, m: int, due: int)
    requires AtMost(dues, m)
    ensures AtMost(dues + [due], Max(m, due))
  {
  }

  lemma AcceptStands(s: Tx, asked: Option<u32>, h: Standing, x: Pace, l: nat, frame: bytes, draw: u32, at: int, due: int)
    requires Stands(s, asked, h, x, l) && Accepts(s, frame) && draw <= l && h.clock <= at
    requires due == at + (if asked.Some? then asked.value else draw)
    ensures Stands(Enqueue(s, frame, draw, at), None, Taking(h, due, at, Bound(x)), x, l)
  {
    MoreAtMost(h.k.dues, h.m, due);
    assert AtMost(h.k.dues, Max(h.m, due));
    EnqueueCourse(s, h.k, h.gone, h.p, h.clock, x, l, frame, draw, at, due, Max(h.m, due));
  }

  lemma ServiceStands(s: Tx, asked: Option<u32>, h: Standing, x: Pace, l: nat, r: Radio, at: int) returns (g: Standing)
    requires Stands(s, asked, h, x, l) && Near(x, l) && h.clock <= at <= h.p + x.gap && r.draw <= 255 * x.slotMs
    ensures Stands(Service(s, at, r).next, asked, g, x, l)
    ensures g == Standing(h.k, h.gone + |Service(s, at, r).left|, at, at, h.m)
    ensures forall j :: h.gone <= j < g.gone ==> j < |h.k.goals| && at <= h.k.goals[j]
  {
    var o := Service(s, at, r);
    ServiceCourse(s, h.k, h.gone, h.p, h.clock, at, r, x, l);
    ServiceKeepsDelay(s, at, r);
    g := Standing(h.k, h.gone + |o.left|, at, at, h.m);
  }

  lemma ServiceKeepsDelay(s: Tx, now: int, r: Radio)
    requires Ok(s)
    ensures Service(s, now, r).next.nextDelay == s.nextDelay
  {
    InterruptOk(s, now, r);
  }

  /** Nothing that matters here has changed but the delay asked for and the clock. */
  lemma LaterStands(s: Tx, t: Tx, asked: Option<u32>, later: Option<u32>, h: Standing, x: Pace, l: nat, clock: int)
    requires Stands(s, asked, h, x, l) && h.clock <= clock && Ok(t)
    requires t.queue == s.queue && t.state == s.state && t.stateMs == s.stateMs && t.nextDelay == later
    requires later.Some? ==> later.value <= l
    ensures Stands(t, later, h.(clock := clock), x, l)
  {
    if s.queue != [] {
      SameHead(s, t, h.p, x);
    }
  }

  /** A delay asked for or drawn is at most l. */
  predicate DelayIs(op: Op, l: nat) {
    match op
    case DoSchedule(ms) => ms <= l
    case DoSend(_, draw, _) => draw <= l
    case DoResend(draw, _) => draw <= l
    case _ => true
  }

  predicate DelaysAre(ops: seq<Op>, l: nat) {
    forall k :: 0 <= k < |ops| ==> DelayIs(ops[k], l)
  }

  /** `g` is where `op` leads from `h`. */
  predicate Led(s: Tx, asked: Option<u32>, h: Standing, op: Op, g: Standing, x: Pace, l: nat)
    requires Ok(s)
  {
    && Ok(Step(s, op).next) && Stands(Step(s, op).next, DelayAsked(asked, s, op), g, x, l)
    && Follows(h, DueBy(asked, s, op), LeaveBy(s, op), g, Bound(x))
    && g.p == (if op.DoService? then op.at else h.p)
    && g.clock == (if TimeOf(op).Some? then TimeOf(op).value else h.clock)
  }

  function Latest(m: int, dues: seq<int>): int
    decreases |dues|
  {
    if dues == [] then m else Latest(Max(m, dues[0]), dues[1..])
  }

  /** Frames due at these times came, frames left at those, in time. */
  predicate Follows(h: Standing, dues: seq<int>, left: seq<int>, g: Standing, b: nat) {
    && g.m == Latest(h.m, dues) && g.k.goals == h.k.goals + Goals(h.m, dues, b)
    && g.gone == h.gone + |left| <= |g.k.goals|
    && forall j :: 0 <= j < |left| ==> left[j] <= g.k.goals[h.gone + j]
  }

  lemma NothingFollows(h: Standing, g: Standing, b: nat)
    requires g.k == h.k && g.gone == h.gone && g.m == h.m && h.gone <= |h.k.goals|
    ensures Follows(h, [], [], g, b)
  {
    assert h.k.goals + [] == h.k.goals;
  }

  lemma OneFollows(h: Standing, due: int, at: int, b: nat)
    requires h.gone <= |h.k.goals|
    ensures Follows(h, [due], [], Taking(h, due, at, b), b)
  {
    assert [due][1..] == [];
    assert Goals(h.m, [due], b) == [Max(h.m, due) + 16 * b] + [];
  }

  lemma Taken(s: Tx, asked: Option<u32>, h: Standing, op: Op, t: Tx, due: int, at: int, x: Pace, l: nat)
    requires Ok(s) && Ok(t) && t == Step(s, op).next && DelayAsked(asked, s, op).None?
    requires DueBy(asked, s, op) == [due] && LeaveBy(s, op) == [] && !op.DoService? && TimeOf(op) == Some(at)
    requires Stands(t, None, Taking(h, due, at, Bound(x)), x, l) && h.gone <= |h.k.goals|
    ensures Led(s, asked, h, op, Taking(h, due, at, Bound(x)), x, l)
  {
    OneFollows(h, due, at, Bound(x));
  }

  lemma Refused(s: Tx, asked: Option<u32>, h: Standing, op: Op, at: int, x: Pace, l: nat)
    requires Ok(s) && Step(s, op).next == s && DelayAsked(asked, s, op) == asked
    requires DueBy(asked, s, op) == [] && LeaveBy(s, op) == [] && !op.DoService? && TimeOf(op) == Some(at)
    requires Stands(s, asked, h, x, l) && h.clock <= at
    ensures Led(s, asked, h, op, h.(clock := at), x, l)
  {
    LaterStands(s, s, asked, asked, h, x, l, at);
    NothingFollows(h, h.(clock := at), Bound(x));
  }

  /** The end of send(): the buffer is written, which the queue does not care about. */
  lemma BuiltStands(e: Tx, frame: bytes, g: Standing, x: Pace, l: nat)
    requires Stands(e, None, g, x, l)
    ensures Ok(e.(frame := frame)) && Stands(e.(frame := frame), None, g, x, l)
  {
    LaterStands(e, e.(frame := frame), None, None, g, x, l, g.clock);
  }

  lemma SendTaken(s: Tx, asked: Option<u32>, h: Standing, op: Op, due: int, x: Pace, l: nat)
    requires Stands(s, asked, h, x, l) && op.DoSend? && op.draw <= l && h.clock <= op.at && Accepts(s, op.frame)
    requires due == op.at + (if asked.Some? then asked.value else op.draw)
    ensures Led(s, asked, h, op, Taking(h, due, op.at, Bound(x)), x, l)
  {
    AcceptStands(s, asked, h, x, l, op.frame, op.draw, op.at, due);
    BuiltStands(Enqueue(s, op.frame, op.draw, op.at), op.frame, Taking(h, due, op.at, Bound(x)), x, l);
    Taken(s, asked, h, op, Enqueue(s, op.frame, op.draw, op.at).(frame := op.frame), due, op.at, x, l);
  }

  lemma SendLed(s: Tx, asked: Option<u32>, h: Standing, op: Op, x: Pace, l: nat) returns (g: Standing)
    requires Stands(s, asked, h, x, l) && op.DoSend? && op.draw <= l && h.clock <= op.at
    ensures Led(s, asked, h, op, g, x, l)
  {
    if Accepts(s, op.frame) {
      var due := op.at + (if asked.Some? then asked.value else op.draw);
      SendTaken(s, asked, h, op, due, x, l);
      g := Taking(h, due, op.at, Bound(x));
    } else {
      Refused(s, asked, h, op, op.at, x, l);
      g := h.(clock := op.at);
    }
  }

  lemma ResendTaken(s: Tx, asked: Option<u32>, h: Standing, op: Op, due: int, x: Pace, l: nat)
    requires Stands(s, asked, h, x, l) && op.DoResend? && op.draw <= l && h.clock <= op.at && Accepts(s, s.frame)
    requires due == op.at + (if asked.Some? then asked.value else op.draw)
    ensures Led(s, asked, h, op, Taking(h, due, op.at, Bound(x)), x, l)
  {
    StepOk(s, op);
    AcceptStands(s, asked, h, x, l, s.frame, op.draw, op.at, due);
    Taken(s, asked, h, op, Step(s, op).next, due, op.at, x, l);
  }

  lemma ResendLed(s: Tx, asked: Option<u32>, h: Standing, op: Op, x: Pace, l: nat) returns (g: Standing)
    requires Stands(s, asked, h, x, l) && op.DoResend? && op.draw <= l && h.clock <= op.at
    ensures Led(s, asked, h, op, g, x, l)
  {
    if Accepts(s, s.frame) {
      var due := op.at + (if asked.Some? then asked.value else op.draw);
      ResendTaken(s, asked, h, op, due, x, l);
      g := Taking(h, due, op.at, Bound(x));
    } else {
      Refused(s, asked, h, op, op.at, x, l);
      g := h.(clock := op.at);
    }
  }

  lemma ServiceLed(s: Tx, asked: Option<u32>, h: Standing, op: Op, x: Pace, l: nat) returns (g: Standing)
    requires Stands(s, asked, h, x, l) && Near(x, l) && op.DoService?
    requires h.clock <= op.at <= h.p + x.gap && op.r.draw <= 255 * x.slotMs
    ensures Led(s, asked, h, op, g, x, l)
  {
    StepOk(s, op);
    g := ServiceStands(s, asked, h, x, l, op.r, op.at);
    assert h.k.goals + [] == h.k.goals;
  }

  lemma OtherLed(s: Tx, asked: Option<u32>, h: Standing, op: Op, x: Pace, l: nat) returns (g: Standing)
    requires Stands(s, asked, h, x, l) && (op.DoSchedule? || op.DoSleep?) && DelayIs(op, l)
    ensures Led(s, asked, h, op, g, x, l)
  {
    StepOk(s, op);
    LaterStands(s, Step(s, op).next, asked, DelayAsked(asked, s, op), h, x, l, h.clock);
    g := h;
    NothingFollows(h, g, Bound(x));
  }

  /** One operation, whichever it is but wake(). */
  lemma StepLed(s: Tx, asked: Option<u32>, h: Standing, op: Op, x: Pace, l: nat) returns (g: Standing)
    requires Stands(s, asked, h, x, l) && Near(x, l) && DelayIs(op, l) && !op.DoWake?
    requires TimeOf(op).Some? ==> h.clock <= TimeOf(op).value
    requires op.DoService? ==> op.at <= h.p + x.gap && op.r.draw <= 255 * x.slotMs
    ensures Led(s, asked, h, op, g, x, l)
  {
    match op
    case DoSend(_, _, _) => g := SendLed(s, asked, h, op, x, l);
    case DoResend(_, _) => g := ResendLed(s, asked, h, op, x, l);
    case DoService(_, _) => g := ServiceLed(s, asked, h, op, x, l);
    case _ => g := OtherLed(s, asked, h, op, x, l);
  }

  /** Where a whole run leads: what is left has until its goal. */
  predicate Ends(h: Standing, dues: seq<int>, left: seq<int>, last: int, g: Standing, b: nat) {
    && Follows(h, dues, left, g, b)
    && forall j :: g.gone <= j < |g.k.goals| ==> last <= g.k.goals[j]
  }

  lemma NothingMore(s: Tx, asked: Option<u32>, h: Standing, x: Pace, l: nat)
    requires Stands(s, asked, h, x, l)
    ensures Ends(h, [], [], h.p + x.gap, h, Bound(x))
  {
    NothingFollows(h, h, Bound(x));
    if s.queue != [] {
      DeadlineBounds(s, h.p, x);
      AllLater(s.queue, Deadline(s, h.p, x), h.k.goals, h.gone, Bound(x), h.p + x.gap);
    }
  }

  lemma AllLater(queue: seq<Item>, e: int, goals: seq<int>, gone: nat, b: nat, last: int)
    requires |goals| == gone + |queue| && OnGoal(queue, e, goals, gone, b) && last <= e
    ensures forall j :: gone <= j < |goals| ==> last <= goals[j]
  {
    forall j | gone <= j < |goals| ensures last <= goals[j] {
      assert Estimate(queue, e, b, j - gone) <= goals[gone + (j - gone)];
    }
  }

  lemma {:induction false} GoalsJoin(m: int, first: seq<int>, rest: seq<int>, b: nat)
    ensures Goals(m, first + rest, b) == Goals(m, first, b) + Goals(Latest(m, first), rest, b)
    ensures Latest(m, first + rest) == Latest(Latest(m, first), rest)
    decreases |first|
  {
    if first == [] {
      assert first + rest == rest;
    } else {
      assert (first + rest)[1..] == first[1..] + rest;
      GoalsJoin(Max(m, first[0]), first[1..], rest, b);
    }
  }

  lemma FollowsJoin(h: Standing, dues: seq<int>, left: seq<int>, f: Standing, more: seq<int>, gone: seq<int>,
                    g: Standing, b: nat)
    requires Follows(h, dues, left, f, b) && Follows(f, more, gone, g, b)
    ensures Follows(h, dues + more, left + gone, g, b)
  {
    GoalsJoin(h.m, dues, more, b);
    forall j | 0 <= j < |left + gone| ensures (left + gone)[j] <= g.k.goals[h.gone + j] {
      if j < |left| {
        assert f.k.goals[h.gone + j] == g.k.goals[h.gone + j];
      } else {
        assert gone[j - |left|] <= g.k.goals[f.gone + (j - |left|)];
      }
    }
  }

  lemma {:induction false} RunEnds(s: Tx, asked: Option<u32>, h: Standing, ops: seq<Op>, x: Pace, l: nat)
    returns (g: Standing)
    requires Stands(s, asked, h, x, l) && Near(x, l)
    requires Paced(h.p, ops, x) && Clocked(h.clock, ops) && DelaysAre(ops, l)
    ensures Ends(h, DueTimes(asked, s, ops), LeaveTimes(s, ops), LastService(h.p, ops) + x.gap, g, Bound(x))
    decreases |ops|
  {
    if ops == [] {
      NothingMore(s, asked, h, x, l);
      g := h;
    } else {
      var f := StepLed(s, asked, h, ops[0], x, l);
      var next, after := Step(s, ops[0]).next, DelayAsked(asked, s, ops[0]);
      g := RunEnds(next, after, f, ops[1..], x, l);
      FirstOp(asked, s, ops);
      FollowsJoin(h, DueBy(asked, s, ops[0]), LeaveBy(s, ops[0]), f, DueTimes(after, next, ops[1..]),
                  LeaveTimes(next, ops[1..]), g, Bound(x));
    }
  }

  // ---- and none is before its turn ---------------------------------------------------------------

  predicate Rising(times: seq<int>, from: int) {
    && (forall k :: 0 <= k < |times| ==> from <= times[k])
    && (forall j, k :: 0 <= j < k < |times| ==> times[j] <= times[k])
  }

  lemma {:induction false} LeaveTimesRise(s: Tx, prev: int, ops: seq<Op>)
    requires Ok(s) && Clocked(prev, ops)
    ensures Rising(LeaveTimes(s, ops), prev)
    decreases |ops|
  {
    if ops != [] {
      FirstOp(None, s, ops);
      LeaveTimesRise(Step(s, ops[0]).next, if TimeOf(ops[0]).Some? then TimeOf(ops[0]).value else prev, ops[1..]);
    }
  }

  /** The k-th time lies between the moment the k-th frame and all before it are due, and `late`
      after that. */
  predicate Between(dues: seq<int>, left: seq<int>, k: nat, late: nat)
    requires k < |left| <= |dues|
  {
    MaxOf(dues[..k + 1]) <= left[k] <= MaxOf(dues[..k + 1]) + late
  }

  predicate StillInTime(dues: seq<int>, k: nat, last: int, late: nat)
    requires k < |dues|
  {
    last <= MaxOf(dues[..k + 1]) + late
  }

  lemma InTurn(dues: seq<int>, left: seq<int>, from: int, k: nat)
    requires Rising(left, from) && k < |left| <= |dues| && forall j :: 0 <= j < |left| ==> dues[j] <= left[j]
    ensures MaxOf(dues[..k + 1]) <= left[k]
  {
    var m := MaxOf(dues[..k + 1]);
    MaxOfIs(dues[..k + 1]);
    var j :| 0 <= j <= k && dues[..k + 1][j] == m;
    assert dues[j] <= left[j] && left[j] <= left[k];
  }

  lemma FreshStands(start: int, x: Pace, l: nat)
    ensures Stands(EMPTY, None, Standing(Book([], [], []), 0, start, start, start), x, l)
  {
  }

  lemma {:induction false} GoalsAt(m: int, dues: seq<int>, b: nat, k: nat)
    requires k < |dues|
    ensures Goals(m, dues, b)[k] == Max(m, MaxOf(dues[..k + 1])) + 16 * b
    decreases |dues|
  {
    if k == 0 {
      assert dues[..1] == [dues[0]];
    } else {
      GoalsAt(Max(m, dues[0]), dues[1..], b, k - 1);
      assert dues[..k + 1] == [dues[0]] + dues[1..][..k];
      MaxOfCons(dues[0], dues[1..][..k]);
    }
  }

  lemma {:induction false} MaxOfCons(t: int, times: seq<int>)
    requires times != []
    ensures MaxOf([t] + times) == Max(t, MaxOf(times))
    decreases |times|
  {
    var n := |times| - 1;
    assert ([t] + times)[..n + 1] == [t] + times[..n];
    if n > 0 {
      MaxOfCons(t, times[..n]);
    } else {
      assert [t] + times[..0] == [t];
    }
  }

  lemma {:induction false} DuesAfter(asked: Option<u32>, s: Tx, prev: int, ops: seq<Op>)
    requires Ok(s) && Clocked(prev, ops)
    ensures forall d :: d in DueTimes(asked, s, ops) ==> prev <= d
    decreases |ops|
  {
    if ops != [] {
      FirstOp(asked, s, ops);
      DuesAfter(DelayAsked(asked, s, ops[0]), Step(s, ops[0]).next,
                if TimeOf(ops[0]).Some? then TimeOf(ops[0]).value else prev, ops[1..]);
    }
  }

  predicate AllBetween(dues: seq<int>, left: seq<int>, last: int, late: nat) {
    && |left| <= |dues|
    && (forall k: nat :: k < |left| ==> Between(dues, left, k, late))
    && (forall k: nat :: |left| <= k < |dues| ==> StillInTime(dues, k, last, late))
  }

  lemma GoalIs(start: int, dues: seq<int>, b: nat, k: nat)
    requires k < |dues| && forall d :: d in dues ==> start <= d
    ensures Goals(start, dues, b)[k] == MaxOf(dues[..k + 1]) + 16 * b
  {
    GoalsAt(start, dues, b, k);
    MaxOfIs(dues[..k + 1]);
    assert dues[..k + 1][0] == dues[0] && dues[0] in dues && dues[0] in dues[..k + 1];
  }

  /** In turn, and none before it is due. */
  predicate InOrder(dues: seq<int>, left: seq<int>, start: int) {
    && Rising(left, start) && |left| <= |dues| && (forall d :: d in dues ==> start <= d)
    && (forall j :: 0 <= j < |left| ==> dues[j] <= left[j])
  }

  lemma RunInOrder(ops: seq<Op>, start: int)
    requires Clocked(start, ops) && DelaysWithin(ops, HALF)
    ensures InOrder(DueTimes(None, EMPTY, ops), LeaveTimes(EMPTY, ops), start)
    ensures |DueTimes(None, EMPTY, ops)| == |LeaveTimes(EMPTY, ops)| + |Run(EMPTY, ops).queue|
  {
    NeverEarly(ops, start);
    LeaveTimesRise(EMPTY, start, ops);
    DuesAfter(None, EMPTY, start, ops);
  }

  /** What has left did so by its goal, and what has not can still make it. */
  predicate ByGoals(goals: seq<int>, left: seq<int>, last: int) {
    && |left| <= |goals|
    && (forall j :: 0 <= j < |left| ==> left[j] <= goals[j])
    && (forall j :: |left| <= j < |goals| ==> last <= goals[j])
  }

  /** The two sides put together. */
  lemma BothSides(dues: seq<int>, left: seq<int>, start: int, last: int, goals: seq<int>, b: nat)
    requires goals == Goals(start, dues, b) && InOrder(dues, left, start) && ByGoals(goals, left, last)
    ensures AllBetween(dues, left, last, 16 * b)
  {
    forall k: nat | k < |left| ensures Between(dues, left, k, 16 * b) {
      GoalIs(start, dues, b, k);
      InTurn(dues, left, start, k);
      assert left[k] <= goals[k];
    }
    forall k: nat | |left| <= k < |dues| ensures StillInTime(dues, k, last, 16 * b) {
      GoalIs(start, dues, b, k);
      assert last <= goals[k];
    }
  }

  lemma FromFresh(dues: seq<int>, left: seq<int>, start: int, last: int, h: Standing, g: Standing, b: nat)
    requires h.k.goals == [] && h.gone == 0 && h.m == start && Ends(h, dues, left, last, g, b)
    ensures ByGoals(Goals(start, dues, b), left, last)
  {
    var goals := g.k.goals;
    assert goals == Goals(start, dues, b);
    forall j | 0 <= j < |left| ensures left[j] <= goals[j] {
      assert left[j] <= goals[h.gone + j];
    }
  }

  lemma RunByGoals(ops: seq<Op>, start: int, x: Pace, l: nat)
    requires Paced(start, ops, x) && Clocked(start, ops) && DelaysAre(ops, l) && Near(x, l)
    ensures ByGoals(Goals(start, DueTimes(None, EMPTY, ops), Bound(x)), LeaveTimes(EMPTY, ops),
                    LastService(start, ops) + x.gap)
  {
    var h := Standing(Book([], [], []), 0, start, start, start);
    FreshStands(start, x, l);
    var g := RunEnds(EMPTY, None, h, ops, x, l);
    FromFresh(DueTimes(None, EMPTY, ops), LeaveTimes(EMPTY, ops), start, LastService(start, ops) + x.gap, h, g, Bound(x));
  }

  /** Every frame in time. Take any run from the start without wake(), with service() at least
      every g ms, on a clock that does not run backwards, with delays up to l, as long as
      l + 16 bounds + g is below 2^31 ms. The k-th frame to leave does so no earlier than it
      and all accepted before it are due, and no later than 16 bounds after that; and for a
      frame that has not left, that time is not yet over. */
  lemma EveryFrameInTime(ops: seq<Op>, start: int, x: Pace, l: nat)
    requires Paced(start, ops, x) && Clocked(start, ops) && DelaysAre(ops, l) && Near(x, l)
    ensures |DueTimes(None, EMPTY, ops)| == |LeaveTimes(EMPTY, ops)| + |Run(EMPTY, ops).queue|
    ensures AllBetween(DueTimes(None, EMPTY, ops), LeaveTimes(EMPTY, ops), LastService(start, ops) + x.gap, 16 * Bound(x))
  {
    var dues, left, last := DueTimes(None, EMPTY, ops), LeaveTimes(EMPTY, ops), LastService(start, ops) + x.gap;
    assert InOrder(dues, left, start) && |dues| == |left| + |Run(EMPTY, ops).queue| by {
      DelaysAreWithin(start, ops, x, l);
      RunInOrder(ops, start);
    }
    assert ByGoals(Goals(start, dues, Bound(x)), left, last) by {
      RunByGoals(ops, start, x, l);
    }
    BothSides(dues, left, start, last, Goals(start, dues, Bound(x)), Bound(x));
  }

  lemma {:induction false} DelaysAreWithin(p: int, ops: seq<Op>, x: Pace, l: nat)
    requires Paced(p, ops, x) && DelaysAre(ops, l) && Near(x, l)
    ensures DelaysWithin(ops, HALF)
    decreases |ops|
  {
    if ops != [] {
      DelaysAreWithin(if ops[0].DoService? then ops[0].at else p, ops[1..], x, l);
      forall k | 0 <= k < |ops| ensures DelayWithin(ops[k], HALF) {
        assert k > 0 ==> ops[k] == ops[1..][k - 1];
      }
    }
  }
}
