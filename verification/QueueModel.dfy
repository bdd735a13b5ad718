/** The outbound command queue (clients/node/lib/queue.js) as a state machine over
    the events that reach it: calls, settled sends, replies and two kinds of timer,
    in whatever order the event loop delivers them. */
module QueueModel {
  import opened Wire

  datatype Entry = Entry(id: nat, text: string, key: string, priority: int, retries: nat, noReply: bool)

  datatype Ending = Resolved | Rejected

  /** `sends`, `timers` and `pumpTimers` are what the event loop still owes the queue:
      sends that have not settled, reply timers and pump timers that are armed.
      `sent`, `settled` and `allowed` are history: every transmission with its time,
      every call of resolve or reject, and the retries each entry was enqueued with. */
  datatype Queue = Queue(
    q: seq<Entry>,
    inFlight: Option<Entry>,
    lastSentAt: int,
    pumpTimer: bool,
    sends: seq<Entry>,
    timers: seq<Entry>,
    pumpTimers: nat,
    sent: seq<(nat, int)>,
    settled: seq<(nat, Ending)>,
    allowed: seq<nat>)

  const EMPTY := Queue([], None, 0, false, [], [], 0, [], [], [])

  // ---- the stable sort -------------------------------------------------------------

  function Insert(sorted: seq<Entry>, e: Entry): (r: seq<Entry>)
    ensures |r| == |sorted| + 1
  {
    var n := |sorted|;
    if n == 0 || sorted[n - 1].priority >= e.priority then sorted + [e]
    else Insert(sorted[..n - 1], e) + [sorted[n - 1]]
  }

  /** Array.prototype.sort by falling priority; it is stable. */
  function SortByPriority(q: seq<Entry>): (r: seq<Entry>)
    ensures |r| == |q|
  {
    if q == [] then [] else Insert(SortByPriority(q[..|q| - 1]), q[|q| - 1])
  }

  // ---- the steps --------------------------------------------------------------------

  function Pump(minSpacingMs: int, s: Queue, now: int): Queue {
    if s.inFlight.Some? || s.q == [] then s
    else if Max(0, minSpacingMs - (now - s.lastSentAt)) > 0 then
      if s.pumpTimer then s else s.(pumpTimer := true, pumpTimers := s.pumpTimers + 1)
    else
      var e := s.q[0];
      s.(q := s.q[1..], inFlight := Some(e), lastSentAt := now, sends := s.sends + [e],
         sent := s.sent + [(e.id, now)])
  }

  predicate KeyIsLive(s: Queue, key: string) {
    (s.inFlight.Some? && s.inFlight.value.key == key) || exists i :: 0 <= i < |s.q| && s.q[i].key == key
  }

  datatype Request = Request(text: string, key: string, priority: int, retries: nat, noReply: bool)

  function Enqueue(minSpacingMs: int, s: Queue, r: Request, now: int): Queue {
    if KeyIsLive(s, r.key) then s
    else
      var e := Entry(|s.allowed|, r.text, r.key, r.priority, r.retries, r.noReply);
      Pump(minSpacingMs, s.(q := SortByPriority(s.q + [e]), allowed := s.allowed + [r.retries]), now)
  }

  function Without(entries: seq<Entry>, i: nat): seq<Entry>
    requires i < |entries|
  {
    entries[..i] + entries[i + 1..]
  }

  /** The awaited send came back: arm the reply timer, or be done if no reply is due. */
  function SendOk(minSpacingMs: int, s: Queue, i: nat, now: int): Queue
    requires i < |s.sends|
  {
    var e := s.sends[i];
    var t := s.(sends := Without(s.sends, i));
    if e.noReply then
      Pump(minSpacingMs, t.(inFlight := None, settled := t.settled + [(e.id, Resolved)]), now)
    else t.(timers := t.timers + [e])
  }

  function SendFailed(minSpacingMs: int, s: Queue, i: nat, now: int): Queue
    requires i < |s.sends|
  {
    var e := s.sends[i];
    Pump(minSpacingMs, s.(sends := Without(s.sends, i), inFlight := None,
                          settled := s.settled + [(e.id, Rejected)]), now)
  }

  function TimedOut(minSpacingMs: int, s: Queue, i: nat, now: int): Queue
    requires i < |s.timers|
  {
    var e := s.timers[i];
    var t := s.(timers := Without(s.timers, i), inFlight := None);
    Pump(minSpacingMs,
         if e.retries > 0 then t.(q := [e.(retries := e.retries - 1)] + t.q)
         else t.(settled := t.settled + [(e.id, Rejected)]), now)
  }

  /** clearTimeout on the entry in flight: its reply timer goes, if it is armed. */
  function WithoutTimerOf(timers: seq<Entry>, id: nat): seq<Entry> {
    if timers == [] then []
    else if timers[0].id == id then timers[1..]
    else [timers[0]] + WithoutTimerOf(timers[1..], id)
  }

  function OnReply(minSpacingMs: int, s: Queue, matches: bool, now: int): Queue {
    if s.inFlight.None? || !matches then s
    else
      var id := s.inFlight.value.id;
      Pump(minSpacingMs, s.(timers := WithoutTimerOf(s.timers, id), inFlight := None,
                            settled := s.settled + [(id, Resolved)]), now)
  }

  function PumpTimerFired(minSpacingMs: int, s: Queue, now: int): Queue {
    if s.pumpTimers == 0 then s
    else Pump(minSpacingMs, s.(pumpTimer := false, pumpTimers := s.pumpTimers - 1), now)
  }

  datatype Event =
    | Call(r: Request, at: int)
    | SendSettled(i: nat, ok: bool, at: int)
    | Reply(matches: bool, at: int)
    | ReplyTimer(i: nat, at: int)
    | PumpTimer(at: int)

  /** An event the loop does not owe changes nothing. */
  function Step(minSpacingMs: int, s: Queue, e: Event): Queue {
    match e
    case Call(r, at) => Enqueue(minSpacingMs, s, r, at)
    case SendSettled(i, ok, at) =>
      if i >= |s.sends| then s
      else if ok then SendOk(minSpacingMs, s, i, at) else SendFailed(minSpacingMs, s, i, at)
    case Reply(matches, at) => OnReply(minSpacingMs, s, matches, at)
    case ReplyTimer(i, at) => if i >= |s.timers| then s else TimedOut(minSpacingMs, s, i, at)
    case PumpTimer(at) => PumpTimerFired(minSpacingMs, s, at)
  }

  function Run(minSpacingMs: int, s: Queue, events: seq<Event>): Queue
    decreases |events|
  {
    if events == [] then s else Run(minSpacingMs, Step(minSpacingMs, s, events[0]), events[1..])
  }

  // ---- what the client asks for (clients/node/index.js, lib/commands.js) -----------------

  const UNSAFE_TO_RETRY: set<string> := {"reboot", "name", "lname", "interval", "detect"}

  /** Client.command: one retry, unless repeating the command would do harm. */
  function Command(verb: string, text: string): Request {
    Request(text, text, 0, if verb in UNSAFE_TO_RETRY then 0 else 1, false)
  }
}
