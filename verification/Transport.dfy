/** The transmit side of the radio driver with its fields updated in place
    (src/MeshtasticTransport.cpp, src/MeshtasticTransport.h): a ring of sixteen
    frames, a state machine, and 32-bit clock values. `model` is the same state on
    values, with true times; every method is proved to keep the two in step. */
module Transport {
  import opened Wire
  import opened Word32
  import M = TxModel

  /** One slot of the ring. */
  datatype TxItem = TxItem(frame: bytes, txAfter: u32, attempts: byte)

  // ---- a ring that stands for a queue ---------------------------------------------

  /** A ring slot holds a queue item, its time cut to 32 bits. */
  predicate Holds(slot: TxItem, item: M.Item) {
    slot.frame == item.frame && slot.txAfter == item.txAfter % WRAP && slot.attempts == item.attempts
  }

  /** The ring slot `i` places behind the head. */
  function At(head: nat, i: nat): nat {
    (head + i) % M.TXQ_N
  }

  /** From `head` on, round the ring, lie the items of the queue. */
  predicate Mirrors(ring: seq<TxItem>, head: nat, queue: seq<M.Item>) {
    && |ring| == M.TXQ_N && head < M.TXQ_N && |queue| <= M.TXQ_N
    && forall i :: 0 <= i < |queue| ==> Holds(ring[At(head, i)], queue[i])
  }

  /** Writing behind the last item adds one and touches none in use. */
  lemma MirrorAdd(ring: seq<TxItem>, head: nat, queue: seq<M.Item>, slot: TxItem, item: M.Item)
    requires Mirrors(ring, head, queue) && |queue| < M.TXQ_N && Holds(slot, item)
    ensures Mirrors(ring[At(head, |queue|) := slot], head, queue + [item])
    ensures forall i :: 0 <= i < |queue| ==> At(head, i) != At(head, |queue|)
  {
    forall i | 0 <= i < |queue| ensures At(head, i) != At(head, |queue|) {
    }
    var after := queue + [item];
    forall i | 0 <= i < |after|
      ensures Holds(ring[At(head, |queue|) := slot][At(head, i)], after[i])
    {
      assert i < |queue| ==> after[i] == queue[i] && At(head, i) != At(head, |queue|);
    }
  }

  lemma MirrorDrop(ring: seq<TxItem>, head: nat, queue: seq<M.Item>)
    requires Mirrors(ring, head, queue) && queue != []
    ensures Mirrors(ring, At(head, 1), queue[1..])
  {
    forall i | 0 <= i < |queue| - 1 ensures Holds(ring[At(At(head, 1), i)], queue[1..][i]) {
      assert At(At(head, 1), i) == At(head, i + 1);
    }
  }

  lemma MirrorHead(ring: seq<TxItem>, head: nat, queue: seq<M.Item>, slot: TxItem, item: M.Item)
    requires Mirrors(ring, head, queue) && queue != [] && Holds(slot, item)
    ensures Mirrors(ring[head := slot], head, [item] + queue[1..])
  {
    var after := [item] + queue[1..];
    forall i | 0 <= i < |after| ensures Holds(ring[head := slot][At(head, i)], after[i]) {
      if i > 0 {
        assert At(head, i) != head;
      }
    }
  }

  class MeshtasticTransport {
    const txq: array<TxItem>
    var txHead: nat
    var txCount: nat
    var txState: M.TxState
    var txStateMs: u32
    var nextTxDelay: u32
    var nextTxDelaySet: bool
    var frame: bytes
    var csmaDeferrals: u32
    var txFailStreak: u32
    var txDropped: u32

    ghost var model: M.Tx

    ghost predicate Scalars()
      reads this
    {
      && txCount == |model.queue|
      && txState == model.state
      && txStateMs == model.stateMs % WRAP
      && (nextTxDelaySet <==> model.nextDelay.Some?)
      && (nextTxDelaySet ==> nextTxDelay == model.nextDelay.value)
      && frame == model.frame
      && csmaDeferrals == model.deferrals % WRAP
      && txFailStreak == model.failStreak % WRAP
      && txDropped == model.dropped % WRAP
    }

    ghost predicate Valid()
      reads this, txq
    {
      Mirrors(txq[..], txHead, model.queue) && Scalars() && M.Ok(model)
    }

    constructor ()
      ensures Valid() && model == M.EMPTY && fresh(txq)
    {
      txq := new TxItem[M.TXQ_N](_ => TxItem([], 0, 0));
      txHead, txCount, txState, txStateMs := 0, 0, M.TX_IDLE, 0;
      nextTxDelay, nextTxDelaySet, frame := 0, false, [];
      csmaDeferrals, txFailStreak, txDropped := 0, 0, 0;
      model := M.EMPTY;
    }

    method ScheduleNextTxIn(ms: u32)
      requires Valid()
      modifies this
      ensures Valid() && model == old(model).(nextDelay := Some(ms))
    {
      nextTxDelay, nextTxDelaySet := ms, true;
      model := model.(nextDelay := Some(ms));
    }

    /** Copies a frame in behind the last one. No slot in use is touched. */
    method EnqueueFrame(f: bytes, draw: u32, millis: u32, ghost now: int) returns (ok: bool)
      requires Valid() && millis == now % WRAP
      modifies this, txq
      ensures Valid() && ok == M.Accepts(old(model), f)
      ensures model == M.Enqueue(old(model), f, draw, now)
      ensures txHead == old(txHead)
      ensures forall i :: 0 <= i < old(txCount) ==> txq[At(txHead, i)] == old(txq[At(txHead, i)])
    {
      if |f| == 0 || |f| > M.FRAME_CAP || txCount >= M.TXQ_N {
        return false;
      }
      var after := if nextTxDelaySet then nextTxDelay else draw;
      nextTxDelaySet := false;
      var tail := At(txHead, txCount);
      Put(tail, TxItem(f, Add32(millis, after), 0), M.Item(f, now + after, 0), after, now);
      return true;
    }

    /** Fills the slot behind the last item. */
    method Put(tail: nat, slot: TxItem, ghost item: M.Item, ghost after: u32, ghost now: int)
      requires Mirrors(txq[..], txHead, model.queue) && M.Ok(model) && txCount == |model.queue| < M.TXQ_N
      requires tail == At(txHead, txCount) && item == M.Item(slot.frame, now + after, 0)
      requires slot == TxItem(slot.frame, (now % WRAP + after) % WRAP, 0)
      modifies txq, this`txCount, this`model
      ensures Mirrors(txq[..], txHead, model.queue) && M.Ok(model) && txCount == |model.queue|
      ensures model == old(model).(nextDelay := None, queue := old(model).queue + [item])
      ensures forall i :: 0 <= i < old(txCount) ==> txq[At(txHead, i)] == old(txq[At(txHead, i)])
    {
      ModAdd(now, after);
      MirrorAdd(txq[..], txHead, model.queue, slot, item);
      txq[tail] := slot;
      txCount := txCount + 1;
      model := model.(nextDelay := None, queue := model.queue + [item]);
      assert txq[..] == old(txq[..])[tail := slot];
    }

    /** The end of send(): the finished frame goes into the ring. */
    method Send(f: bytes, draw: u32, millis: u32, ghost now: int) returns (ok: bool)
      requires Valid() && millis == now % WRAP
      modifies this, txq
      ensures Valid() && ok == M.Accepts(old(model), f) && model == M.Send(old(model), f, draw, now)
    {
      ok := EnqueueFrame(f, draw, millis, now);
      if ok {
        frame := f;
        model := model.(frame := f);
      }
    }

    method Resend(draw: u32, millis: u32, ghost now: int) returns (ok: bool)
      requires Valid() && millis == now % WRAP
      modifies this, txq
      ensures Valid() && ok == M.Accepts(old(model), old(model).frame)
      ensures model == M.Resend(old(model), draw, now)
    {
      if |frame| == 0 {
        return false;
      }
      ok := EnqueueFrame(frame, draw, millis, now);
    }

    /** The head frame goes: sent, or given up and counted. */
    method DropHead(sent: bool, ghost how: M.How)
      requires Valid() && txCount > 0 && sent == (how == M.Sent)
      modifies this
      ensures Valid() && model == M.DropHead(old(model), how).next
    {
      CountEnd(sent);
      MirrorDrop(txq[..], txHead, model.queue);
      DropOk(old(model), how);
      txCount := txCount - 1;
      txHead := At(txHead, 1);
      txState := M.TX_IDLE;
      model := model.(queue := model.queue[1..], state := M.TX_IDLE);
    }

    method CountEnd(sent: bool)
      requires Valid()
      modifies this`txFailStreak, this`txDropped, this`model
      ensures Valid()
      ensures model == if sent then old(model).(failStreak := 0)
                       else old(model).(failStreak := old(model).failStreak + 1,
                                        dropped := old(model).dropped + 1)
    {
      if sent {
        txFailStreak := 0;
        model := model.(failStreak := 0);
      } else {
        ModAdd(model.failStreak, 1);
        ModAdd(model.dropped, 1);
        txFailStreak := Add32(txFailStreak, 1);
        txDropped := Add32(txDropped, 1);
        model := model.(failStreak := model.failStreak + 1, dropped := model.dropped + 1);
      }
    }

    method StartSending(millis: u32, ghost now: int, startOk: bool)
      requires Valid() && txCount > 0 && millis == now % WRAP
      modifies this
      ensures Valid() && model == M.StartSending(old(model), now, startOk).next
    {
      frame := txq[txHead].frame;
      model := model.(frame := model.queue[0].frame);
      if !startOk {
        DropHead(false, M.StartFailed);
        return;
      }
      txState := M.TX_SENDING;
      txStateMs := millis;
      model := model.(state := M.TX_SENDING, stateMs := now);
    }

    /** The interrupt half of service(). */
    method OnInterrupt(millis: u32, ghost now: int, r: M.Radio)
      requires Valid() && millis == now % WRAP
      modifies this, txq
      ensures Valid() && model == M.OnInterrupt(old(model), now, r).next
    {
      if r.event {
        if txState == M.TX_SENDING && r.txDone {
          DropHead(true, M.Sent);
        } else if txState == M.TX_SCANNING && (r.cadDone || r.cadDetected) {
          if r.cadDetected {
            Defer(millis, now, r.draw);
          } else {
            StartSending(millis, now, r.startOk);
          }
        }
      }
    }

    /** Channel busy: count the attempt and wait for a new slot. */
    method Defer(millis: u32, ghost now: int, draw: u32)
      requires Valid() && txState == M.TX_SCANNING && millis == now % WRAP
      modifies this, txq
      ensures Valid() && model == M.Defer(old(model), now, draw)
    {
      ModAdd(model.deferrals, 1);
      ModAdd(now, draw);
      csmaDeferrals := Add32(csmaDeferrals, 1);
      var head := txq[txHead];
      var slot := head.(attempts := head.attempts + 1, txAfter := Add32(millis, draw));
      MirrorHead(txq[..], txHead, model.queue, slot, M.Defer(model, now, draw).queue[0]);
      DeferOk(model, now, draw);
      txq[txHead] := slot;
      txState := M.TX_WAITING;
      model := M.Defer(model, now, draw);
      assert txq[..] == old(txq[..])[txHead := slot];
    }

    method DriveTx(millis: u32, ghost now: int, r: M.Radio)
      requires Valid() && millis == now % WRAP
      modifies this
      ensures Valid() && model == M.DriveTx(old(model), now, r).next
    {
      if txState == M.TX_IDLE && txCount > 0 {
        txState := M.TX_WAITING;
        model := model.(state := M.TX_WAITING);
      }
      match txState
      case TX_WAITING =>
        var it := txq[txHead];
        if Signed(Sub32(millis, it.txAfter)) < 0 {
          return;
        }
        if it.attempts >= M.MAX_ATTEMPTS {
          StartSending(millis, now, r.driveOk);
        } else if r.scanOk {
          txState := M.TX_SCANNING;
          txStateMs := millis;
          model := model.(state := M.TX_SCANNING, stateMs := now);
        } else {
          StartSending(millis, now, r.driveOk);
        }
      case TX_SCANNING =>
        if Signed(Sub32(millis, txStateMs)) > M.SCAN_LIMIT_MS {
          StartSending(millis, now, r.driveOk);
        }
      case TX_SENDING =>
        if Signed(Sub32(millis, txStateMs)) > M.SEND_LIMIT_MS {
          DropHead(false, M.NeverFinished);
        }
      case TX_IDLE =>
    }

    /** The pump: at most one interrupt, then the state machine. */
    method Service(millis: u32, ghost now: int, r: M.Radio)
      requires Valid() && millis == now % WRAP
      modifies this, txq
      ensures Valid() && model == M.Service(old(model), now, r).next
    {
      OnInterrupt(millis, now, r);
      DriveTx(millis, now, r);
    }

    /** The state machine starts over; the queue is left as it is. */
    method Wake()
      requires Valid()
      modifies this
      ensures Valid() && model == M.Wake(old(model))
    {
      txState := M.TX_IDLE;
      model := model.(state := M.TX_IDLE);
    }
  }

  lemma DropOk(s: M.Tx, how: M.How)
    requires M.Ok(s) && s.queue != []
    ensures M.Ok(M.DropHead(s, how).next)
  {
    var t := M.DropHead(s, how).next;
    assert forall i :: 0 <= i < |t.queue| ==> t.queue[i] == s.queue[i + 1];
  }

  lemma DeferOk(s: M.Tx, now: int, draw: u32)
    requires M.Ok(s) && s.state == M.TX_SCANNING
    ensures M.Ok(M.Defer(s, now, draw))
  {
    var t := M.Defer(s, now, draw);
    assert forall i :: 0 < i < |t.queue| ==> t.queue[i] == s.queue[i];
  }
}
