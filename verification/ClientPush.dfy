/** The loop that drives a push transfer (clients/node/index.js, Client.push). */
module ClientPush {
  import opened Wire
  import opened Ether
  import Codec = PushCodec
  import M = PushModel
  import R = PushReceiver
  import Safety = PushSafety

  datatype Outcome = Returned(payload: bytes) | Failed(why: M.Failure) | CrcFailed | Deadline

  ghost predicate HonestAir(cfg: M.Config, payload: bytes, air: Air)
    requires Safety.Carriable(payload)
  {
    forall k: nat, f :: f in air(k).frames ==> Safety.Honest(cfg, payload, M.Arrival(Codec.Decode(f.0), f.1))
  }

  /** The clock when slot `k` begins. */
  function ClockAt(air: Air, t0: int, k: nat): int {
    if k == 0 then t0 else air(k - 1).now
  }

  function Arrivals(frames: seq<(bytes, int)>): (heard: seq<M.Event>)
    ensures |heard| == |frames|
  {
    seq(|frames|, i requires 0 <= i < |frames| => M.Arrival(Codec.Decode(frames[i].0), frames[i].1))
  }

  /** What happens to the receiver in the first `k` slots: in each, the frames in order, and
      then a tick. */
  function PushEvents(air: Air, k: nat): seq<M.Event> {
    if k == 0 then [] else PushEvents(air, k - 1) + (Arrivals(air(k - 1).frames) + [M.Clock(air(k - 1).now)])
  }

  /** The transfer goes on when `k` slots are over. */
  predicate GoesOn(cfg: M.Config, air: Air, t0: int, deadline: int, k: nat) {
    !M.Terminal(M.Run(cfg, M.FRESH, PushEvents(air, k))) && ClockAt(air, t0, k) < deadline
  }

  /** How it ends, by what the receiver has become. */
  predicate EndsAs(cfg: M.Config, s: M.Receiver, r: Outcome) {
    match r
    case Failed(why) => s.failed == Some(why)
    case Returned(payload) => s.failed.None? && s.phase == M.DONE && M.Assemble(cfg, s) == Some(payload)
    case CrcFailed => s.failed.None? && s.phase == M.DONE && M.Assemble(cfg, s) == None
    case Deadline => !M.Terminal(s)
  }

  /** Whatever the air does, the transfer ends; it does so after the first slot in which the
      receiver ends, or when the deadline has passed, and not before; it never returns bytes that do not
      match the announced length and checksum; and against an honest device it
      returns the payload or times out or gives the device up, nothing else. */
  method Push(rx: R.PushReceiver, air: Air, t0: int, deadline: int, ghost payload: bytes)
    returns (r: Outcome, ghost slots: nat)
    requires rx.State() == M.FRESH && Safety.Carriable(payload)
    requires t0 < air(0).now && forall k: nat :: air(k).now < air(k + 1).now
    modifies rx
    ensures rx.State() == M.Run(rx.cfg, M.FRESH, PushEvents(air, slots)) && EndsAs(rx.cfg, rx.State(), r)
    ensures forall k :: 0 <= k < slots ==> GoesOn(rx.cfg, air, t0, deadline, k)
    ensures r == Deadline ==> ClockAt(air, t0, slots) >= deadline
    ensures HonestAir(rx.cfg, payload, air) ==>
              && (r.Returned? ==> r.payload == payload)
              && r != CrcFailed && r != Failed(M.CrcMismatch)
  {
    var now, k: nat := t0, 0;
    while now < deadline
      invariant now == ClockAt(air, t0, k) < air(k).now
      invariant rx.State() == M.Run(rx.cfg, M.FRESH, PushEvents(air, k)) && !M.Terminal(rx.State())
      invariant forall j :: 0 <= j < k ==> GoesOn(rx.cfg, air, t0, deadline, j)
      decreases deadline - now
    {
      assert GoesOn(rx.cfg, air, t0, deadline, k);
      var end := LiveThrough(rx, air, k);
      now, k := air(k).now, k + 1;
      if end.Some? {
        HonestEnds(rx.cfg, payload, air, k, end.value);
        return end.value, k;
      }
    }
    return Deadline, k;
  }

  /** One pass of the loop: the frames of the slot, a tick, and a look at what has become of the
      receiver. */
  method LiveThrough(rx: R.PushReceiver, air: Air, k: nat) returns (end: Option<Outcome>)
    requires rx.State() == M.Run(rx.cfg, M.FRESH, PushEvents(air, k))
    modifies rx
    ensures rx.State() == M.Run(rx.cfg, M.FRESH, PushEvents(air, k + 1))
    ensures if end.Some? then EndsAs(rx.cfg, rx.State(), end.value) && end.value != Deadline
            else !M.Terminal(rx.State())
  {
    var slot := air(k);
    ghost var heard := Deliver(rx, slot.frames);
    var out := rx.Tick(slot.now);
    SlotAfter(rx.cfg, air, k, heard);
    if rx.failed.Some? {
      return Some(Failed(rx.failed.value));
    }
    if rx.phase == M.DONE {
      var buf := rx.Assemble();
      return Some(if buf.None? then CrcFailed else Returned(buf.value));
    }
    return None;
  }

  lemma SlotAfter(cfg: M.Config, air: Air, k: nat, heard: seq<M.Event>)
    requires heard == Arrivals(air(k).frames)
    ensures M.Run(cfg, M.FRESH, PushEvents(air, k + 1))
            == M.Tick(cfg, M.Run(cfg, M.Run(cfg, M.FRESH, PushEvents(air, k)), heard), air(k).now).next
  {
    TickAfter(cfg, M.Run(cfg, M.FRESH, PushEvents(air, k)), heard, air(k).now);
    M.RunAppend(cfg, M.FRESH, PushEvents(air, k), heard + [M.Clock(air(k).now)]);
  }

  /** What the air of an honest device rules out. */
  lemma HonestEnds(cfg: M.Config, payload: bytes, air: Air, k: nat, r: Outcome)
    requires Safety.Carriable(payload) && EndsAs(cfg, M.Run(cfg, M.FRESH, PushEvents(air, k)), r)
    ensures HonestAir(cfg, payload, air) ==>
              && (r.Returned? ==> r.payload == payload)
              && r != CrcFailed && r != Failed(M.CrcMismatch)
  {
    if HonestAir(cfg, payload, air) {
      EventsAreHonest(cfg, payload, air, k);
      Safety.PushSafety(cfg, payload, PushEvents(air, k));
    }
  }

  lemma {:induction false} EventsAreHonest(cfg: M.Config, payload: bytes, air: Air, k: nat)
    requires Safety.Carriable(payload) && HonestAir(cfg, payload, air)
    ensures Safety.AllHonest(cfg, payload, PushEvents(air, k))
    decreases k
  {
    if k > 0 {
      EventsAreHonest(cfg, payload, air, k - 1);
      var heard := Arrivals(air(k - 1).frames);
      forall i | 0 <= i < |heard| ensures Safety.Honest(cfg, payload, heard[i]) {
        assert air(k - 1).frames[i] in air(k - 1).frames;
      }
    }
  }

  lemma TickAfter(cfg: M.Config, s: M.Receiver, heard: seq<M.Event>, now: int)
    ensures M.Run(cfg, s, heard + [M.Clock(now)]) == M.Tick(cfg, M.Run(cfg, s, heard), now).next
  {
    M.RunAppend(cfg, s, heard, [M.Clock(now)]);
    assert [M.Clock(now)][1..] == [];
  }

  /** _onChunk: every arriving frame goes to the receiver as it comes. */
  method Deliver(rx: R.PushReceiver, frames: seq<(bytes, int)>) returns (ghost heard: seq<M.Event>)
    modifies rx
    ensures heard == Arrivals(frames)
    ensures rx.State() == M.Run(rx.cfg, old(rx.State()), heard)
  {
    heard := [];
    for i := 0 to |frames|
      invariant heard == Arrivals(frames)[..i]
      invariant rx.State() == M.Run(rx.cfg, old(rx.State()), heard)
    {
      var used := rx.OnFrame(frames[i].0, frames[i].1);
      ghost var e := M.Arrival(Codec.Decode(frames[i].0), frames[i].1);
      M.RunAppend(rx.cfg, old(rx.State()), heard, [e]);
      assert [e][1..] == [];
      heard := heard + [e];
    }
  }
}
