/** What one frame or one tick does to a push receiver, as a function on its whole
    state (clients/node/lib/push-receiver.js). The class in PushReceiver.dfy is
    proved to make exactly these steps; the lemmas about runs are about them. */
module PushModel {
  import opened Wire
  import Codec = PushCodec

  /** Constructor arguments, and the checksum the codec exports. */
  datatype Config = Config(pid: u16, idleMs: int, actMs: int, maxStale: nat, maxUnanswered: nat,
                           crc32: Checksum)

  datatype Manifest = Manifest(length: u32, count: u16, crc: u32)
  datatype Phase = START | RECEIVING | REPAIRING | DONE
  datatype Failure = CrcMismatch | Stuck | Unresponsive

  /** `lastRxMs` and `lastTxMs` are None where the program starts at minus infinity. */
  datatype Receiver = Receiver(
    chunks: map<u16, bytes>,
    manifest: Option<Manifest>,
    phase: Phase,
    rounds: nat,
    staleRounds: nat,
    heldAtLastRepair: int,
    lastRxMs: Option<int>,
    lastTxMs: Option<int>,
    awaitingProgress: bool,
    progressDone: bool,
    unanswered: nat,
    failed: Option<Failure>)

  const FRESH := Receiver(map[], None, START, 0, 0, -1, None, None, false, false, 0, None)

  predicate Terminal(s: Receiver) {
    s.phase == DONE || s.failed.Some?
  }

  // ---- what is missing, what is assembled -------------------------------------

  predicate HasFirst(chunks: map<u16, bytes>, n: nat) {
    forall i: u16 :: i < n ==> i in chunks
  }

  /** The identifiers from..count-1 that are not held, in increasing order. */
  function MissingFrom(chunks: map<u16, bytes>, from: nat, count: u16): seq<u16>
    requires from <= count
    decreases count - from
  {
    if from == count then []
    else (if from in chunks then [] else [from]) + MissingFrom(chunks, from + 1, count)
  }

  function Missing(s: Receiver): seq<u16>
    requires s.manifest.Some?
  {
    MissingFrom(s.chunks, 0, s.manifest.value.count)
  }

  function Concat(chunks: map<u16, bytes>, n: nat): bytes
    requires n <= 0x1_0000 && HasFirst(chunks, n)
  {
    if n == 0 then [] else Concat(chunks, n - 1) + chunks[n - 1]
  }

  function Assemble(cfg: Config, s: Receiver): Option<bytes> {
    if s.manifest.None? || !HasFirst(s.chunks, s.manifest.value.count) then None
    else
      var payload := Concat(s.chunks, s.manifest.value.count);
      if |payload| != s.manifest.value.length || cfg.crc32(payload) != s.manifest.value.crc then None
      else Some(payload)
  }

  // ---- a frame arrives ----------------------------------------------------------

  /** What the decoder made of the frame (None is a rejected one) is for our pid. */
  predicate Ours(cfg: Config, frame: Option<Codec.Message>) {
    frame.Some? && frame.value.pid == cfg.pid
  }

  function Absorb(s: Receiver, m: Codec.Message): Receiver {
    match m
    case Chunk(_, index, data) =>
      s.(chunks := s.chunks[index := data], phase := if s.phase == START then RECEIVING else s.phase)
    case Manifest(_, _, length, count, crc) =>
      s.(manifest := if s.manifest.None? then Some(Manifest(length, count, crc)) else s.manifest,
         phase := if s.phase == START then RECEIVING else s.phase)
    case Progress(_, _, done) => s.(awaitingProgress := false, progressDone := done)
    case _ => s
  }

  function OnFrame(cfg: Config, s: Receiver, frame: Option<Codec.Message>, now: int): Receiver {
    if !Ours(cfg, frame) then s
    else Absorb(s.(lastRxMs := Some(now), unanswered := 0), frame.value)
  }

  // ---- a tick -------------------------------------------------------------------

  predicate Elapsed(now: int, since: Option<int>, gate: int) {
    since.None? || now - since.value >= gate
  }

  /** The device said it finished its pass, or everything is here: the long timer
      no longer applies. */
  function Gate(cfg: Config, s: Receiver): int {
    if s.manifest.Some? && (s.progressDone || Missing(s) == []) then cfg.actMs else cfg.idleMs
  }

  predicate PassesGate(cfg: Config, s: Receiver, now: int) {
    !Terminal(s) && Elapsed(now, s.lastRxMs, Gate(cfg, s)) && Elapsed(now, s.lastTxMs, Gate(cfg, s))
  }

  /** The new state, and the one message a tick may send. */
  datatype Acted = Acted(next: Receiver, out: Option<Codec.Message>)

  function Query(cfg: Config, s: Receiver): Acted {
    var unanswered := if s.awaitingProgress then s.unanswered + 1 else 0;
    if unanswered >= cfg.maxUnanswered then
      Acted(s.(unanswered := unanswered, failed := Some(Unresponsive)), None)
    else
      Acted(s.(unanswered := unanswered, awaitingProgress := true),
            Some(Codec.ProgressQ(cfg.pid)))
  }

  function NextStale(s: Receiver): nat {
    if |s.chunks| > s.heldAtLastRepair then 0 else s.staleRounds + 1
  }

  /** As many identifiers as one request can carry. */
  function FirstIds(miss: seq<u16>): seq<u16> {
    miss[..Min(|miss|, Codec.REPAIR_IDS_MAX)]
  }

  function CountRound(s: Receiver): Receiver {
    s.(staleRounds := NextStale(s), heldAtLastRepair := |s.chunks|, rounds := s.rounds + 1)
  }

  function AskRepair(cfg: Config, s: Receiver, miss: seq<u16>): Acted {
    var counted := CountRound(s);
    if NextStale(s) >= cfg.maxStale then Acted(counted.(failed := Some(Stuck)), None)
    else Acted(counted.(phase := REPAIRING, progressDone := false),
               Some(Codec.Repair(cfg.pid, FirstIds(miss))))
  }

  /** What a tick does once it is past the timers. */
  function Act(cfg: Config, s: Receiver): Acted {
    if s.manifest.None? && |s.chunks| == 0 then Acted(s, Some(Codec.Start(cfg.pid)))
    else if s.manifest.None? then Query(cfg, s)
    else if Missing(s) == [] then
      if Assemble(cfg, s).None? then Acted(s.(failed := Some(CrcMismatch)), None)
      else Acted(s.(phase := DONE), Some(Codec.Complete(cfg.pid, s.manifest.value.crc)))
    else if !s.progressDone then Query(cfg, s)
    else AskRepair(cfg, s, Missing(s))
  }

  function Tick(cfg: Config, s: Receiver, now: int): Acted {
    if PassesGate(cfg, s, now) then Act(cfg, s.(lastTxMs := Some(now))) else Acted(s, None)
  }

  /** A tick only asks and counts: what has been received stays as it is. */
  lemma TickKeepsReceived(cfg: Config, s: Receiver, now: int)
    ensures var t := Tick(cfg, s, now).next;
            && t.chunks == s.chunks && t.manifest == s.manifest && t.lastRxMs == s.lastRxMs
            && (s.phase == DONE ==> t == s)
            && (s.failed.Some? ==> t == s)
  {
  }

  // ---- runs -----------------------------------------------------------------------

  /** The radio may lose, repeat and reorder frames, so a run is any list of these. */
  datatype Event = Arrival(frame: Option<Codec.Message>, at: int) | Clock(at: int)

  function Step(cfg: Config, s: Receiver, e: Event): Acted {
    match e
    case Arrival(frame, at) => Acted(OnFrame(cfg, s, frame, at), None)
    case Clock(at) => Tick(cfg, s, at)
  }

  function Run(cfg: Config, s: Receiver, events: seq<Event>): Receiver
    decreases |events|
  {
    if events == [] then s else Run(cfg, Step(cfg, s, events[0]).next, events[1..])
  }

  /** The messages a run sends, in order. */
  function Sent(cfg: Config, s: Receiver, events: seq<Event>): seq<Codec.Message>
    decreases |events|
  {
    if events == [] then []
    else
      var a := Step(cfg, s, events[0]);
      (if a.out.Some? then [a.out.value] else []) + Sent(cfg, a.next, events[1..])
  }

  lemma {:induction false} RunAppend(cfg: Config, s: Receiver, events: seq<Event>, more: seq<Event>)
    ensures Run(cfg, s, events + more) == Run(cfg, Run(cfg, s, events), more)
    ensures Sent(cfg, s, events + more) == Sent(cfg, s, events) + Sent(cfg, Run(cfg, s, events), more)
    decreases |events|
  {
    if events == [] {
      assert events + more == more;
    } else {
      assert (events + more)[1..] == events[1..] + more;
      RunAppend(cfg, Step(cfg, s, events[0]).next, events[1..], more);
    }
  }

  lemma RunSnoc(cfg: Config, s: Receiver, events: seq<Event>)
    requires events != []
    ensures var n := |events| - 1;
            Run(cfg, s, events) == Step(cfg, Run(cfg, s, events[..n]), events[n]).next
  {
    var n := |events| - 1;
    assert events == events[..n] + [events[n]];
    RunAppend(cfg, s, events[..n], [events[n]]);
    assert [events[n]][1..] == [];
  }

  // ---- facts about missing() --------------------------------------------------------

  predicate OnlyGaps(miss: seq<u16>, chunks: map<u16, bytes>, from: nat, count: u16) {
    forall k :: 0 <= k < |miss| ==> from <= miss[k] < count && miss[k] !in chunks
  }

  predicate Increasing(miss: seq<u16>) {
    forall j, k :: 0 <= j < k < |miss| ==> miss[j] < miss[k]
  }

  predicate AllGaps(miss: seq<u16>, chunks: map<u16, bytes>, from: nat, count: u16) {
    forall i: u16 :: from <= i < count && i !in chunks ==> i in miss
  }

  /** missing() is the increasing list of exactly the identifiers below the count
      that are not held. */
  lemma {:induction false} MissingExact(chunks: map<u16, bytes>, from: nat, count: u16)
    requires from <= count
    ensures OnlyGaps(MissingFrom(chunks, from, count), chunks, from, count)
    ensures Increasing(MissingFrom(chunks, from, count))
    ensures AllGaps(MissingFrom(chunks, from, count), chunks, from, count)
    decreases count - from
  {
    if from == count {
      assert MissingFrom(chunks, from, count) == [];
    } else {
      var rest := MissingFrom(chunks, from + 1, count);
      MissingExact(chunks, from + 1, count);
      if from in chunks {
        assert MissingFrom(chunks, from, count) == rest;
        NoGapMore(rest, chunks, from, count);
      } else {
        assert MissingFrom(chunks, from, count) == [from] + rest;
        OneMoreGap(rest, chunks, from, count);
      }
    }
  }

  lemma NoGapMore(rest: seq<u16>, chunks: map<u16, bytes>, from: u16, count: u16)
    requires from < count && from in chunks
    requires OnlyGaps(rest, chunks, from + 1, count) && AllGaps(rest, chunks, from + 1, count)
    ensures OnlyGaps(rest, chunks, from, count) && AllGaps(rest, chunks, from, count)
  {
    forall i: u16 | from <= i < count && i !in chunks ensures i in rest {
      assert i != from;
    }
  }

  lemma OneMoreGap(rest: seq<u16>, chunks: map<u16, bytes>, from: u16, count: u16)
    requires from < count && from !in chunks
    requires OnlyGaps(rest, chunks, from + 1, count) && Increasing(rest)
    requires AllGaps(rest, chunks, from + 1, count)
    ensures OnlyGaps([from] + rest, chunks, from, count) && Increasing([from] + rest)
    ensures AllGaps([from] + rest, chunks, from, count)
  {
    forall i: u16 | from <= i < count && i !in chunks ensures i in [from] + rest {
      if i != from {
        assert i in rest;
      }
    }
  }

  lemma FirstMissing(s: Receiver)
    requires s.manifest.Some? && Missing(s) != []
    ensures Missing(s)[0] < s.manifest.value.count && Missing(s)[0] !in s.chunks
  {
    MissingExact(s.chunks, 0, s.manifest.value.count);
  }

  lemma NothingMissing(s: Receiver)
    requires s.manifest.Some?
    ensures Missing(s) == [] <==> HasFirst(s.chunks, s.manifest.value.count)
  {
    var miss, count := Missing(s), s.manifest.value.count;
    MissingExact(s.chunks, 0, count);
    if miss == [] {
      forall i: u16 | i < count ensures i in s.chunks {
        assert i !in s.chunks ==> i in miss;
      }
    } else {
      FirstMissing(s);
    }
  }

  /** A tick sends nothing but the four request messages, each under its own
      condition, and on the wire each fits a radio frame and decodes to itself. */
  lemma TickSends(cfg: Config, s: Receiver, now: int)
    requires Tick(cfg, s, now).out.Some?
    ensures var m := Tick(cfg, s, now).out.value;
            && (m == Codec.Start(cfg.pid) <==> s.manifest.None? && |s.chunks| == 0)
            && (m.Complete? <==> Tick(cfg, s, now).next.phase == DONE)
            && (m.Repair? <==> s.manifest.Some? && Missing(s) != [] && s.progressDone)
            && (m.Repair? ==> m == Codec.Repair(cfg.pid, FirstIds(Missing(s))))
            && (m.Start? || m == Codec.ProgressQ(cfg.pid) || m.Repair? || m.Complete?)
  {
  }

  lemma SentFramesDecode(cfg: Config, s: Receiver, now: int)
    requires Tick(cfg, s, now).out.Some?
    ensures var m := Tick(cfg, s, now).out.value;
            var b := Codec.Encode(m);
            && b.Some? && |b.value| <= Codec.MESH_PAYLOAD_MAX && Codec.Decode(b.value) == Some(m)
            && m.pid == cfg.pid
  {
    TickSends(cfg, s, now);
    var m := Tick(cfg, s, now).out.value;
    if m.Repair? {
      Codec.RepairRoundTrip(cfg.pid, m.ids);
    } else {
      Codec.FixedFrameRoundTrip(m);
    }
  }
}
