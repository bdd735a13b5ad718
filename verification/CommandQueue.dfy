/** The command queue with its fields updated in place (clients/node/lib/queue.js).
    Each continuation - after the awaited send, in either timer - is a method, and
    is proved to make the step that QueueModel gives for it. */
module CommandQueue {
  import opened Wire
  import M = QueueModel

  class CommandQueue {
    const minSpacingMs: int
    var q: seq<M.Entry>
    var inFlight: Option<M.Entry>
    var lastSentAt: int
    var pumpTimer: bool
    var nextId: nat

    ghost var sends: seq<M.Entry>
    ghost var timers: seq<M.Entry>
    ghost var pumpTimers: nat
    ghost var sent: seq<(nat, int)>
    ghost var settled: seq<(nat, M.Ending)>
    ghost var allowed: seq<nat>

    ghost predicate Valid()
      reads this
    {
      nextId == |allowed|
    }

    ghost function State(): M.Queue
      reads this
    {
      M.Queue(q, inFlight, lastSentAt, pumpTimer, sends, timers, pumpTimers, sent, settled, allowed)
    }

    constructor (minSpacingMs: int)
      ensures Valid() && this.minSpacingMs == minSpacingMs && State() == M.EMPTY
    {
      this.minSpacingMs := minSpacingMs;
      q, inFlight, lastSentAt, pumpTimer, nextId := [], None, 0, false, 0;
      sends, timers, pumpTimers, sent, settled, allowed := [], [], 0, [], [], [];
    }

    /** `added` is None when a live entry already has the key; its promise is shared. */
    method Enqueue(r: M.Request, now: int) returns (added: Option<nat>)
      requires Valid()
      modifies this
      ensures Valid() && State() == M.Enqueue(minSpacingMs, old(State()), r, now)
      ensures added.None? <==> M.KeyIsLive(old(State()), r.key)
      ensures added.Some? ==> added.value == |old(allowed)|
    {
      if inFlight.Some? && inFlight.value.key == r.key {
        return None;
      }
      var i := 0;
      while i < |q|
        invariant i <= |q| && forall j :: 0 <= j < i ==> q[j].key != r.key
      {
        if q[i].key == r.key {
          return None;
        }
        i := i + 1;
      }
      var e := M.Entry(nextId, r.text, r.key, r.priority, r.retries, r.noReply);
      q := M.SortByPriority(q + [e]);
      nextId := nextId + 1;
      allowed := allowed + [r.retries];
      Pump(now);
      return Some(e.id);
    }

    method OnReply(matches: bool, now: int) returns (used: bool)
      requires Valid()
      modifies this
      ensures Valid() && State() == M.OnReply(minSpacingMs, old(State()), matches, now)
      ensures used <==> old(inFlight).Some? && matches
    {
      if inFlight.None? {
        return false;
      }
      if !matches {
        return false;
      }
      timers := M.WithoutTimerOf(timers, inFlight.value.id);
      settled := settled + [(inFlight.value.id, M.Resolved)];
      inFlight := None;
      Pump(now);
      return true;
    }

    /** _pump up to its first await. */
    method Pump(now: int)
      requires Valid()
      modifies this
      ensures Valid() && State() == M.Pump(minSpacingMs, old(State()), now)
      ensures nextId == old(nextId)
    {
      if inFlight.Some? || |q| == 0 {
        return;
      }
      var wait := Max(0, minSpacingMs - (now - lastSentAt));
      if wait != 0 {
        if !pumpTimer {
          pumpTimer := true;
          pumpTimers := pumpTimers + 1;
        }
        return;
      }
      var e := q[0];
      q := q[1..];
      inFlight := Some(e);
      lastSentAt := now;
      sends := sends + [e];
      sent := sent + [(e.id, now)];
    }

    /** _pump after the await: the i-th outstanding send, of entry e, came back. */
    method SendSettled(e: M.Entry, ghost i: nat, ok: bool, now: int)
      requires Valid() && i < |sends| && sends[i] == e
      modifies this
      ensures Valid()
      ensures State() == if ok then M.SendOk(minSpacingMs, old(State()), i, now)
                         else M.SendFailed(minSpacingMs, old(State()), i, now)
    {
      sends := M.Without(sends, i);
      if !ok {
        inFlight := None;
        settled := settled + [(e.id, M.Rejected)];
        Pump(now);
        return;
      }
      if e.noReply {
        inFlight := None;
        settled := settled + [(e.id, M.Resolved)];
        Pump(now);
        return;
      }
      timers := timers + [e];
    }

    /** The reply timer of entry e, the i-th of those armed. */
    method ReplyTimerFired(e: M.Entry, ghost i: nat, now: int)
      requires Valid() && i < |timers| && timers[i] == e
      modifies this
      ensures Valid() && State() == M.TimedOut(minSpacingMs, old(State()), i, now)
    {
      timers := M.Without(timers, i);
      inFlight := None;
      if e.retries > 0 {
        q := [e.(retries := e.retries - 1)] + q;
      } else {
        settled := settled + [(e.id, M.Rejected)];
      }
      Pump(now);
    }

    method PumpTimerFired(now: int)
      requires Valid() && pumpTimers > 0
      modifies this
      ensures Valid() && State() == M.PumpTimerFired(minSpacingMs, old(State()), now)
    {
      pumpTimer := false;
      pumpTimers := pumpTimers - 1;
      Pump(now);
    }
  }
}
