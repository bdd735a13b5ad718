/** What every run of a push transfer keeps: the payload is delivered or it is not,
    it is never delivered wrong, and neither order nor duplication matters. */
module PushSafety {
  import opened Wire
  import Codec = PushCodec
  import opened PushModel

  const SIZE: nat := Codec.CHUNK_DATA_MAX

  function Count(payload: bytes): nat {
    WindowCount(|payload|, SIZE)
  }

  /** A payload whose length and window count fit the manifest's fields. */
  predicate Carriable(payload: bytes) {
    |payload| < 0x1_0000_0000 && Count(payload) < 0x1_0000
  }

  function ManifestOf(cfg: Config, payload: bytes): Manifest
    requires Carriable(payload)
  {
    Manifest(|payload|, Count(payload), cfg.crc32(payload))
  }

  /** A device holding `payload` under our pid announces that payload and sends
      windows of it. Every other frame - progress replies at any time and with any
      content, other pids, other protocols, noise - is left unconstrained. */
  predicate Honest(cfg: Config, payload: bytes, e: Event)
    requires Carriable(payload)
  {
    e.Arrival? && Ours(cfg, e.frame) ==>
      match e.frame.value
      case Chunk(_, index, data) => index < Count(payload) && data == Window(payload, index, SIZE)
      case Manifest(_, _, length, count, crc) => Manifest(length, count, crc) == ManifestOf(cfg, payload)
      case _ => true
  }

  predicate AllHonest(cfg: Config, payload: bytes, events: seq<Event>)
    requires Carriable(payload)
  {
    forall k :: 0 <= k < |events| ==> Honest(cfg, payload, events[k])
  }

  // ---- reassembly ---------------------------------------------------------------

  predicate HoldsWindows(chunks: map<u16, bytes>, payload: bytes) {
    forall i: u16 :: i in chunks ==> i < Count(payload) && chunks[i] == Window(payload, i, SIZE)
  }

  lemma {:induction false} ConcatIsPrefix(chunks: map<u16, bytes>, payload: bytes, n: nat)
    requires Carriable(payload) && HoldsWindows(chunks, payload)
    requires n <= Count(payload) && HasFirst(chunks, n)
    ensures Concat(chunks, n) == payload[..Min(n * SIZE, |payload|)]
    decreases n
  {
    if n > 0 {
      ConcatIsPrefix(chunks, payload, n - 1);
      WindowStarts(|payload|, n - 1, SIZE);
      var cut := (n - 1) * SIZE;
      var end := Min(n * SIZE, |payload|);
      assert payload[..cut] + payload[cut..end] == payload[..end];
    }
  }

  /** A full set of honest chunks assembles to the payload, checksum included. */
  lemma FullSetAssembles(cfg: Config, s: Receiver, payload: bytes)
    requires Carriable(payload) && HoldsWindows(s.chunks, payload)
    requires s.manifest == Some(ManifestOf(cfg, payload))
    requires HasFirst(s.chunks, Count(payload))
    ensures Assemble(cfg, s) == Some(payload)
  {
    var n := Count(payload);
    ConcatIsPrefix(s.chunks, payload, n);
    if n > 0 {
      WindowStarts(|payload|, n - 1, SIZE);
    } else {
      assert payload == [];
    }
    assert payload[..|payload|] == payload;
  }

  // ---- the invariant ---------------------------------------------------------------

  predicate Inv(cfg: Config, payload: bytes, s: Receiver)
    requires Carriable(payload)
  {
    && HoldsWindows(s.chunks, payload)
    && (s.manifest.Some? ==> s.manifest.value == ManifestOf(cfg, payload))
    && (s.phase == DONE ==> s.manifest.Some? && HasFirst(s.chunks, Count(payload)) && s.failed.None?)
    && s.failed != Some(CrcMismatch)
  }

  function Completes(sent: seq<Codec.Message>): nat {
    if sent == [] then 0 else (if sent[0].Complete? then 1 else 0) + Completes(sent[1..])
  }

  /** Every COMPLETE in the list names the payload's checksum. */
  predicate CompletesName(cfg: Config, payload: bytes, sent: seq<Codec.Message>) {
    forall m :: m in sent && m.Complete? ==> m == Codec.Complete(cfg.pid, cfg.crc32(payload))
  }

  lemma ArrivalSafe(cfg: Config, payload: bytes, s: Receiver, frame: Option<Codec.Message>, at: int)
    requires Carriable(payload) && Inv(cfg, payload, s) && Honest(cfg, payload, Arrival(frame, at))
    ensures Inv(cfg, payload, OnFrame(cfg, s, frame, at))
    ensures OnFrame(cfg, s, frame, at).phase == DONE <==> s.phase == DONE
  {
    if Ours(cfg, frame) {
      var t := OnFrame(cfg, s, frame, at);
      assert forall i: u16 :: i in s.chunks ==> i in t.chunks;
      assert HoldsWindows(t.chunks, payload);
    }
  }

  lemma TickSafe(cfg: Config, payload: bytes, s: Receiver, at: int)
    requires Carriable(payload) && Inv(cfg, payload, s)
    ensures var a := Tick(cfg, s, at);
            && Inv(cfg, payload, a.next)
            && (s.phase != DONE && a.next.phase == DONE <==> a.out.Some? && a.out.value.Complete?)
            && (a.out.Some? ==> CompletesName(cfg, payload, [a.out.value]))
  {
    var a := Tick(cfg, s, at);
    TickKeepsReceived(cfg, s, at);
    if PassesGate(cfg, s, at) && s.manifest.Some? && Missing(s) == [] {
      NothingMissing(s);
      var t := s.(lastTxMs := Some(at));
      FullSetAssembles(cfg, t, payload);
      assert a == Acted(t.(phase := DONE), Some(Codec.Complete(cfg.pid, cfg.crc32(payload))));
    } else {
      assert a.next.phase == DONE <==> s.phase == DONE;
    }
  }

  lemma {:induction false} RunSafe(cfg: Config, payload: bytes, s: Receiver, events: seq<Event>)
    requires Carriable(payload) && Inv(cfg, payload, s) && AllHonest(cfg, payload, events)
    ensures Inv(cfg, payload, Run(cfg, s, events))
    ensures s.phase == DONE ==> Run(cfg, s, events).phase == DONE
    ensures Completes(Sent(cfg, s, events))
            == if Run(cfg, s, events).phase == DONE && s.phase != DONE then 1 else 0
    ensures CompletesName(cfg, payload, Sent(cfg, s, events))
    decreases |events|
  {
    if events != [] {
      var a := Step(cfg, s, events[0]);
      match events[0] {
        case Arrival(frame, at) => ArrivalSafe(cfg, payload, s, frame, at);
        case Clock(at) => TickSafe(cfg, payload, s, at); TickKeepsReceived(cfg, s, at);
      }
      RunSafe(cfg, payload, a.next, events[1..]);
      var rest := Sent(cfg, a.next, events[1..]);
      if a.out.Some? {
        assert ([a.out.value] + rest)[1..] == rest;
        assert a.out.value in [a.out.value];
      } else {
        assert [] + rest == rest;
      }
    }
  }

  /** Safety over every run from a fresh receiver, whatever is lost, repeated,
      reordered or interleaved with ticks: DONE means the payload is assembled
      byte for byte and exactly one COMPLETE went out, carrying its checksum;
      before that none did; and a checksum failure cannot happen. */
  lemma PushSafety(cfg: Config, payload: bytes, events: seq<Event>)
    requires Carriable(payload) && AllHonest(cfg, payload, events)
    ensures var s := Run(cfg, FRESH, events);
            var sent := Sent(cfg, FRESH, events);
            && (s.phase == DONE ==> Assemble(cfg, s) == Some(payload))
            && Completes(sent) == (if s.phase == DONE then 1 else 0)
            && CompletesName(cfg, payload, sent)
            && s.failed != Some(CrcMismatch)
            && !(s.phase == DONE && s.failed.Some?)
  {
    RunSafe(cfg, payload, FRESH, events);
    var s := Run(cfg, FRESH, events);
    if s.phase == DONE {
      FullSetAssembles(cfg, s, payload);
    }
  }

  // ---- what is kept of what arrives ---------------------------------------------------

  /** The first announcement that reaches a receiver that knows `known`. */
  function FirstAnnounced(cfg: Config, known: Option<Manifest>, events: seq<Event>): Option<Manifest>
    decreases |events|
  {
    if known.Some? || events == [] then known
    else
      var e := events[0];
      FirstAnnounced(cfg, if e.Arrival? && Ours(cfg, e.frame) && e.frame.value.Manifest? then
                            Some(Manifest(e.frame.value.length, e.frame.value.count, e.frame.value.crc))
                          else None, events[1..])
  }

  /** The last body that arrives for identifier i, or `held` if none does. */
  function LatestBody(cfg: Config, held: Option<bytes>, i: u16, events: seq<Event>): Option<bytes> {
    if events == [] then held
    else
      var e := events[|events| - 1];
      if BringsChunk(cfg, e, i) then Some(e.frame.value.data)
      else LatestBody(cfg, held, i, events[..|events| - 1])
  }

  function Held(s: Receiver, i: u16): Option<bytes> {
    if i in s.chunks then Some(s.chunks[i]) else None
  }

  /** With no assumption on the frames at all: the first manifest stays ... */
  lemma {:induction false} KeepsFirstManifest(cfg: Config, s: Receiver, events: seq<Event>)
    ensures Run(cfg, s, events).manifest == FirstAnnounced(cfg, s.manifest, events)
    decreases |events|
  {
    if events != [] {
      if events[0].Clock? {
        TickKeepsReceived(cfg, s, events[0].at);
      }
      KeepsFirstManifest(cfg, Step(cfg, s, events[0]).next, events[1..]);
    }
  }

  predicate BringsChunk(cfg: Config, e: Event, i: u16) {
    e.Arrival? && Ours(cfg, e.frame) && e.frame.value.Chunk? && e.frame.value.index == i
  }

  lemma StepHolds(cfg: Config, s: Receiver, e: Event, i: u16)
    ensures Held(Step(cfg, s, e).next, i)
            == if BringsChunk(cfg, e, i) then Some(e.frame.value.data) else Held(s, i)
  {
    if e.Clock? {
      TickKeepsReceived(cfg, s, e.at);
    }
  }

  /** ... and of every chunk the latest body. */
  lemma {:induction false} KeepsLatestBodies(cfg: Config, s: Receiver, events: seq<Event>, i: u16)
    ensures Held(Run(cfg, s, events), i) == LatestBody(cfg, Held(s, i), i, events)
    decreases |events|
  {
    if events != [] {
      var n := |events| - 1;
      KeepsLatestBodies(cfg, s, events[..n], i);
      RunSnoc(cfg, s, events);
      StepHolds(cfg, Run(cfg, s, events[..n]), events[n], i);
    }
  }

  // ---- order and duplication ----------------------------------------------------------

  /** The (id, body) pairs and the announcements that reach the receiver in a run. */
  function ChunksIn(cfg: Config, events: seq<Event>): set<(u16, bytes)>
    decreases |events|
  {
    if events == [] then {}
    else
      var e := events[0];
      (if e.Arrival? && Ours(cfg, e.frame) && e.frame.value.Chunk? then
         {(e.frame.value.index, e.frame.value.data)} else {})
      + ChunksIn(cfg, events[1..])
  }

  function ManifestsIn(cfg: Config, events: seq<Event>): set<Manifest>
    decreases |events|
  {
    if events == [] then {}
    else
      var e := events[0];
      (if e.Arrival? && Ours(cfg, e.frame) && e.frame.value.Manifest? then
         {Manifest(e.frame.value.length, e.frame.value.count,
                   e.frame.value.crc)} else {})
      + ManifestsIn(cfg, events[1..])
  }

  /** Mutually consistent: no identifier arrives with two bodies, and there is one
      announcement at most. */
  predicate Agree(chunks: set<(u16, bytes)>, manifests: set<Manifest>) {
    && (forall c, d :: c in chunks && d in chunks && c.0 == d.0 ==> c == d)
    && (forall m, n :: m in manifests && n in manifests ==> m == n)
  }

  predicate Stores(chunks: map<u16, bytes>, pairs: set<(u16, bytes)>) {
    && (forall p :: p in pairs ==> p.0 in chunks && chunks[p.0] == p.1)
    && (forall i: u16 :: i in chunks ==> (i, chunks[i]) in pairs)
  }

  predicate Announced(manifest: Option<Manifest>, manifests: set<Manifest>) {
    && (manifest.None? <==> manifests == {})
    && (manifest.Some? ==> manifest.value in manifests)
  }

  lemma StepStores(cfg: Config, s: Receiver, e: Event, pairs: set<(u16, bytes)>, manifests: set<Manifest>)
    requires Stores(s.chunks, pairs) && Announced(s.manifest, manifests)
    requires Agree(pairs + ChunksIn(cfg, [e]), manifests + ManifestsIn(cfg, [e]))
    ensures Stores(Step(cfg, s, e).next.chunks, pairs + ChunksIn(cfg, [e]))
    ensures Announced(Step(cfg, s, e).next.manifest, manifests + ManifestsIn(cfg, [e]))
  {
    assert [e][1..] == [];
    var t := Step(cfg, s, e).next;
    if e.Clock? {
      TickKeepsReceived(cfg, s, e.at);
      assert pairs + {} == pairs && manifests + {} == manifests;
    } else if Ours(cfg, e.frame) && e.frame.value.Chunk? {
      var m := e.frame.value;
      StoreOne(s.chunks, pairs, m.index, m.data);
      assert ChunksIn(cfg, [e]) == {(m.index, m.data)};
      assert manifests + {} == manifests;
    } else {
      assert pairs + {} == pairs;
      assert t.chunks == s.chunks;
    }
  }

  lemma StoreOne(chunks: map<u16, bytes>, pairs: set<(u16, bytes)>, i: u16, data: bytes)
    requires Stores(chunks, pairs) && Agree(pairs + {(i, data)}, {})
    ensures Stores(chunks[i := data], pairs + {(i, data)})
  {
    var all := pairs + {(i, data)};
    forall p | p in all ensures p.0 in chunks[i := data] && chunks[i := data][p.0] == p.1 {
      assert (i, data) in all;
    }
  }

  /** From any state, a run of agreeing frames stores exactly what it started with
      and what arrived; ticks in between change nothing of it. */
  lemma {:induction false} RunStores(cfg: Config, s: Receiver, events: seq<Event>,
                                     pairs: set<(u16, bytes)>, manifests: set<Manifest>)
    requires Stores(s.chunks, pairs) && Announced(s.manifest, manifests)
    requires Agree(pairs + ChunksIn(cfg, events), manifests + ManifestsIn(cfg, events))
    ensures Stores(Run(cfg, s, events).chunks, pairs + ChunksIn(cfg, events))
    ensures Announced(Run(cfg, s, events).manifest, manifests + ManifestsIn(cfg, events))
    decreases |events|
  {
    if events == [] {
      assert pairs + {} == pairs && manifests + {} == manifests;
    } else {
      var e := events[0];
      assert [e][1..] == [];
      var pairs1, manifests1 := pairs + ChunksIn(cfg, [e]), manifests + ManifestsIn(cfg, [e]);
      assert ChunksIn(cfg, events) == ChunksIn(cfg, [e]) + ChunksIn(cfg, events[1..]);
      assert ManifestsIn(cfg, events) == ManifestsIn(cfg, [e]) + ManifestsIn(cfg, events[1..]);
      assert pairs + ChunksIn(cfg, events) == pairs1 + ChunksIn(cfg, events[1..]);
      assert manifests + ManifestsIn(cfg, events) == manifests1 + ManifestsIn(cfg, events[1..]);
      StepStores(cfg, s, e, pairs, manifests);
      RunStores(cfg, Step(cfg, s, e).next, events[1..], pairs1, manifests1);
    }
  }

  lemma StoresDetermine(a: map<u16, bytes>, b: map<u16, bytes>, pairs: set<(u16, bytes)>)
    requires Stores(a, pairs) && Stores(b, pairs)
    ensures a == b
  {
    forall i: u16 ensures i in a <==> i in b {
      if i in a { assert (i, a[i]) in pairs; }
      if i in b { assert (i, b[i]) in pairs; }
    }
    forall i: u16 | i in a ensures a[i] == b[i] {
      assert (i, a[i]) in pairs;
    }
  }

  /** Order and duplication are non-events: two runs in which the same agreeing
      frames arrive - in any order, any number of times, with any ticks and any
      other frames between - leave the same chunks, the same manifest, the same
      missing list and the same assembled result. */
  lemma OrderAndDuplicationAreNonEvents(cfg: Config, left: seq<Event>, right: seq<Event>)
    requires ChunksIn(cfg, left) == ChunksIn(cfg, right)
    requires ManifestsIn(cfg, left) == ManifestsIn(cfg, right)
    requires Agree(ChunksIn(cfg, left), ManifestsIn(cfg, left))
    ensures var l, r := Run(cfg, FRESH, left), Run(cfg, FRESH, right);
            && l.chunks == r.chunks && l.manifest == r.manifest
            && (l.manifest.Some? ==> Missing(l) == Missing(r))
            && Assemble(cfg, l) == Assemble(cfg, r)
  {
    var pairs, manifests := ChunksIn(cfg, left), ManifestsIn(cfg, left);
    assert {} + pairs == pairs && {} + manifests == manifests;
    RunStores(cfg, FRESH, left, {}, {});
    RunStores(cfg, FRESH, right, {}, {});
    var l, r := Run(cfg, FRESH, left), Run(cfg, FRESH, right);
    StoresDetermine(l.chunks, r.chunks, pairs);
    if l.manifest.Some? {
      assert l.manifest.value in manifests && r.manifest.value in manifests;
    }
  }
}
