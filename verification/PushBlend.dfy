/** Several payloads under one pid (clients/node/lib/push-receiver.js): a chunk carries its
    identifier and nothing else of the payload, and the first manifest stays. Exactly when
    a receiver can end with the wrong bytes, or fail its checksum on a complete set. */
module PushBlend {
  import opened Wire
  import opened IdSets
  import Codec = PushCodec
  import opened PushModel
  import opened PushSafety

  predicate AllCarriable(offers: set<bytes>) {
    forall p :: p in offers ==> Carriable(p)
  }

  predicate IsWindow(offers: set<bytes>, i: u16, data: bytes) {
    exists q :: q in offers && i < Count(q) && data == Window(q, i, SIZE)
  }

  predicate IsManifest(cfg: Config, offers: set<bytes>, m: Manifest)
    requires AllCarriable(offers)
  {
    exists p :: p in offers && m == ManifestOf(cfg, p)
  }

  /** Devices announce payloads of the set and send windows of them. Every other frame is
      left unconstrained. */
  predicate Offered(cfg: Config, offers: set<bytes>, e: Event)
    requires AllCarriable(offers)
  {
    e.Arrival? && Ours(cfg, e.frame) ==>
      match e.frame.value
      case Chunk(_, index, data) => IsWindow(offers, index, data)
      case Manifest(_, _, length, count, crc) => IsManifest(cfg, offers, Manifest(length, count, crc))
      case _ => true
  }

  predicate AllOffered(cfg: Config, offers: set<bytes>, events: seq<Event>)
    requires AllCarriable(offers)
  {
    forall k :: 0 <= k < |events| ==> Offered(cfg, offers, events[k])
  }

  // ---- mixtures --------------------------------------------------------------------------

  /** For every identifier, a payload that has such a window. */
  predicate Choice(offers: set<bytes>, choice: seq<bytes>) {
    forall i :: 0 <= i < |choice| ==> choice[i] in offers && i < Count(choice[i])
  }

  predicate HaveWindows(choice: seq<bytes>) {
    forall i :: 0 <= i < |choice| ==> i < Count(choice[i])
  }

  function Mixture(choice: seq<bytes>): bytes
    requires HaveWindows(choice)
  {
    if choice == [] then []
    else
      var n := |choice| - 1;
      Mixture(choice[..n]) + Window(choice[n], n, SIZE)
  }

  /** A mixture of as many windows as p has, that does not pass for p. */
  predicate Fails(cfg: Config, offers: set<bytes>, p: bytes, choice: seq<bytes>) {
    && p in offers && |choice| == Count(p) && Choice(offers, choice)
    && !(|Mixture(choice)| == |p| && cfg.crc32(Mixture(choice)) == cfg.crc32(p))
  }

  predicate Holds(offers: set<bytes>, chunks: map<u16, bytes>) {
    forall i: u16 :: i in chunks ==> IsWindow(offers, i, chunks[i])
  }

  /** What a receiver has assembled is a mixture. */
  lemma {:induction false} ConcatIsMixture(offers: set<bytes>, chunks: map<u16, bytes>, n: nat) returns (choice: seq<bytes>)
    requires n <= 0x1_0000 && Holds(offers, chunks) && HasFirst(chunks, n)
    ensures |choice| == n && Choice(offers, choice) && Concat(chunks, n) == Mixture(choice)
    decreases n
  {
    if n == 0 {
      choice := [];
    } else {
      var front := ConcatIsMixture(offers, chunks, n - 1);
      var i: u16 := n - 1;
      assert IsWindow(offers, i, chunks[i]);
      var q :| q in offers && i < Count(q) && chunks[i] == Window(q, i, SIZE);
      choice := front + [q];
      assert choice[..n - 1] == front;
    }
  }

  // ---- what every run keeps ----------------------------------------------------------------

  ghost predicate SomeFails(cfg: Config, offers: set<bytes>) {
    exists p, choice :: Fails(cfg, offers, p, choice)
  }

  ghost predicate Kept(cfg: Config, offers: set<bytes>, s: Receiver)
    requires AllCarriable(offers)
  {
    && Holds(offers, s.chunks)
    && (s.manifest.Some? ==> IsManifest(cfg, offers, s.manifest.value))
    && (s.phase == DONE ==> s.manifest.Some? && HasFirst(s.chunks, s.manifest.value.count))
    && (s.failed == Some(CrcMismatch) ==> SomeFails(cfg, offers))
  }

  lemma ArrivalKeeps(cfg: Config, offers: set<bytes>, s: Receiver, frame: Option<Codec.Message>, at: int)
    requires AllCarriable(offers) && Kept(cfg, offers, s) && Offered(cfg, offers, Arrival(frame, at))
    ensures Kept(cfg, offers, OnFrame(cfg, s, frame, at))
  {
    if Ours(cfg, frame) {
      var t := OnFrame(cfg, s, frame, at);
      assert forall i: u16 :: i in s.chunks ==> i in t.chunks;
      assert Holds(offers, t.chunks);
    }
  }

  /** A checksum failure on a complete set comes from a mixture that does not pass. */
  lemma MismatchIsMixture(cfg: Config, offers: set<bytes>, s: Receiver)
    requires AllCarriable(offers) && Kept(cfg, offers, s) && s.manifest.Some?
    requires HasFirst(s.chunks, s.manifest.value.count) && Assemble(cfg, s).None?
    ensures SomeFails(cfg, offers)
  {
    var p :| p in offers && s.manifest.value == ManifestOf(cfg, p);
    var choice := ConcatIsMixture(offers, s.chunks, s.manifest.value.count);
    assert Fails(cfg, offers, p, choice);
  }

  lemma TickKeeps(cfg: Config, offers: set<bytes>, s: Receiver, at: int)
    requires AllCarriable(offers) && Kept(cfg, offers, s)
    ensures Kept(cfg, offers, Tick(cfg, s, at).next)
  {
    TickKeepsReceived(cfg, s, at);
    if s.manifest.Some? {
      NothingMissing(s);
      if HasFirst(s.chunks, s.manifest.value.count) && Assemble(cfg, s).None? {
        MismatchIsMixture(cfg, offers, s);
      }
    }
    TickEnds(cfg, s, at);
  }

  lemma TickEnds(cfg: Config, s: Receiver, at: int)
    ensures var t := Tick(cfg, s, at).next;
            && (t.phase == DONE && s.phase != DONE ==> s.manifest.Some? && Missing(s) == [])
            && (t.failed == Some(CrcMismatch) && s.failed != Some(CrcMismatch) ==>
                  s.manifest.Some? && Missing(s) == [] && Assemble(cfg, s).None?)
  {
  }

  lemma {:induction false} RunKeeps(cfg: Config, offers: set<bytes>, s: Receiver, events: seq<Event>)
    requires AllCarriable(offers) && Kept(cfg, offers, s) && AllOffered(cfg, offers, events)
    ensures Kept(cfg, offers, Run(cfg, s, events))
    decreases |events|
  {
    if events != [] {
      match events[0] {
        case Arrival(frame, at) => ArrivalKeeps(cfg, offers, s, frame, at);
        case Clock(at) => TickKeeps(cfg, offers, s, at);
      }
      RunKeeps(cfg, offers, Step(cfg, s, events[0]).next, events[1..]);
    }
  }

  // ---- the run that shows a mixture ----------------------------------------------------------

  function Body(cfg: Config, choice: seq<bytes>, i: nat): Event
    requires HaveWindows(choice) && i < |choice| <= 0xFFFF
  {
    Arrival(Some(Codec.Chunk(cfg.pid, i, Window(choice[i], i, SIZE))), 0)
  }

  /** The state after the announcement of p and the first n windows of the choice. */
  predicate Filled(cfg: Config, s: Receiver, p: bytes, choice: seq<bytes>, n: nat)
    requires Carriable(p) && HaveWindows(choice) && n <= |choice| <= 0xFFFF
  {
    && s.manifest == Some(ManifestOf(cfg, p)) && s.failed.None? && s.phase == RECEIVING
    && s.lastRxMs == Some(0) && s.lastTxMs == None
    && (forall i: u16 :: i in s.chunks <==> i < n)
    && (forall i: u16 :: i in s.chunks ==> s.chunks[i] == Window(choice[i], i, SIZE))
  }

  lemma {:induction false} BodiesFill(cfg: Config, offers: set<bytes>, s: Receiver, p: bytes, choice: seq<bytes>, n: nat)
    returns (events: seq<Event>, t: Receiver)
    requires AllCarriable(offers) && Choice(offers, choice) && Carriable(p) && n <= |choice| <= 0xFFFF
    requires Filled(cfg, s, p, choice, n)
    ensures AllOffered(cfg, offers, events) && t == Run(cfg, s, events) && Filled(cfg, t, p, choice, |choice|)
    decreases |choice| - n
  {
    if n == |choice| {
      events, t := [], s;
    } else {
      var e := Body(cfg, choice, n);
      var rest;
      var u := Step(cfg, s, e).next;
      assert Filled(cfg, u, p, choice, n + 1);
      rest, t := BodiesFill(cfg, offers, u, p, choice, n + 1);
      events := [e] + rest;
      assert events[1..] == rest;
      assert IsWindow(offers, n, Window(choice[n], n, SIZE));
      assert Offered(cfg, offers, e);
    }
  }

  lemma {:induction false} FilledConcat(cfg: Config, s: Receiver, p: bytes, choice: seq<bytes>, n: nat)
    requires Carriable(p) && HaveWindows(choice) && n <= |choice| <= 0xFFFF && Filled(cfg, s, p, choice, |choice|)
    ensures HasFirst(s.chunks, n) && Concat(s.chunks, n) == Mixture(choice[..n])
    decreases n
  {
    if n > 0 {
      FilledConcat(cfg, s, p, choice, n - 1);
      assert choice[..n][..n - 1] == choice[..n - 1];
    }
  }

  /** The tick that finds the set complete. */
  lemma CompleteTick(cfg: Config, s: Receiver, p: bytes, choice: seq<bytes>)
    requires Carriable(p) && HaveWindows(choice) && |choice| == Count(p) && Filled(cfg, s, p, choice, |choice|)
    ensures var t, passes := Tick(cfg, s, cfg.actMs).next,
                             |Mixture(choice)| == |p| && cfg.crc32(Mixture(choice)) == cfg.crc32(p);
            && t.manifest == Some(ManifestOf(cfg, p))
            && (passes ==> t.phase == DONE && Assemble(cfg, t) == Some(Mixture(choice)))
            && (!passes ==> t.failed == Some(CrcMismatch))
  {
    FilledConcat(cfg, s, p, choice, |choice|);
    assert choice[..|choice|] == choice;
    NothingMissing(s);
    TickKeepsReceived(cfg, s, cfg.actMs);
    assert PassesGate(cfg, s, cfg.actMs);
  }

  /** Announce p, deliver the windows of the choice, and tick. */
  lemma MixtureEnds(cfg: Config, offers: set<bytes>, p: bytes, choice: seq<bytes>) returns (events: seq<Event>, t: Receiver)
    requires AllCarriable(offers) && p in offers && |choice| == Count(p) && Choice(offers, choice)
    ensures AllOffered(cfg, offers, events) && t == Run(cfg, FRESH, events)
    ensures t.manifest == Some(ManifestOf(cfg, p))
    ensures var passes := |Mixture(choice)| == |p| && cfg.crc32(Mixture(choice)) == cfg.crc32(p);
            && (passes ==> t.phase == DONE && Assemble(cfg, t) == Some(Mixture(choice)))
            && (!passes ==> t.failed == Some(CrcMismatch))
  {
    var m := ManifestOf(cfg, p);
    var first := Arrival(Some(Codec.Manifest(cfg.pid, 2, m.length, m.count, m.crc)), 0);
    var s := Step(cfg, FRESH, first).next;
    var bodies, u := BodiesFill(cfg, offers, s, p, choice, 0);
    CompleteTick(cfg, u, p, choice);
    t := Tick(cfg, u, cfg.actMs).next;
    events := [first] + (bodies + [Clock(cfg.actMs)]);
    assert events[1..] == bodies + [Clock(cfg.actMs)];
    RunAppend(cfg, s, bodies, [Clock(cfg.actMs)]);
    assert [Clock(cfg.actMs)][1..] == [];
    assert IsManifest(cfg, offers, m);
    assert Offered(cfg, offers, first);
  }

  /** Exactly when "CRC mismatch on a complete set" can happen, over every run of
      announcements and chunks of the payloads, in any order and number and among any other
      frames: when some mixture of their windows, as many as an announced payload has, differs
      from that payload in length or checksum. */
  lemma MismatchIff(cfg: Config, offers: set<bytes>)
    requires AllCarriable(offers)
    ensures (exists events :: AllOffered(cfg, offers, events) && Run(cfg, FRESH, events).failed == Some(CrcMismatch))
            <==> (exists p, choice :: Fails(cfg, offers, p, choice))
  {
    if p, choice :| Fails(cfg, offers, p, choice) {
      var events, t := MixtureEnds(cfg, offers, p, choice);
      assert Run(cfg, FRESH, events).failed == Some(CrcMismatch);
    } else {
      forall events | AllOffered(cfg, offers, events) ensures Run(cfg, FRESH, events).failed != Some(CrcMismatch) {
        RunKeeps(cfg, offers, FRESH, events);
      }
    }
  }

  // ---- which payloads go together -------------------------------------------------------------

  /** Payloads have the same bytes wherever both have a window. */
  predicate Agree(offers: set<bytes>) {
    forall p, q :: p in offers && q in offers ==> SameWindows(p, q)
  }

  predicate SameWindows(p: bytes, q: bytes) {
    forall i: nat :: i < Count(p) && i < Count(q) ==> Window(p, i, SIZE) == Window(q, i, SIZE)
  }

  /** No checksum failure on a complete set, and DONE means the payload that was announced. */
  predicate Right(cfg: Config, offers: set<bytes>, s: Receiver)
    requires AllCarriable(offers)
  {
    && s.failed != Some(CrcMismatch)
    && (s.phase == DONE ==>
          forall p :: p in offers && s.manifest == Some(ManifestOf(cfg, p)) ==> Assemble(cfg, s) == Some(p))
  }

  lemma {:induction false} AgreeingMixture(offers: set<bytes>, p: bytes, choice: seq<bytes>)
    requires AllCarriable(offers) && Agree(offers) && p in offers && |choice| <= Count(p) && Choice(offers, choice)
    ensures Mixture(choice) == p[..Min(|choice| * SIZE, |p|)]
    decreases |choice|
  {
    if choice != [] {
      var n := |choice| - 1;
      AgreeingMixture(offers, p, choice[..n]);
      assert SameWindows(choice[n], p);
      WindowStarts(|p|, n, SIZE);
      assert p[..n * SIZE] + p[n * SIZE..Min((n + 1) * SIZE, |p|)] == p[..Min((n + 1) * SIZE, |p|)];
    }
  }

  lemma WholeMixture(offers: set<bytes>, p: bytes, choice: seq<bytes>)
    requires AllCarriable(offers) && Agree(offers) && p in offers && |choice| == Count(p) && Choice(offers, choice)
    ensures Mixture(choice) == p
  {
    AgreeingMixture(offers, p, choice);
    if |choice| > 0 {
      WindowStarts(|p|, |choice| - 1, SIZE);
    }
    assert p[..|p|] == p;
  }

  lemma AgreeingIsRight(cfg: Config, offers: set<bytes>, s: Receiver)
    requires AllCarriable(offers) && Agree(offers) && Kept(cfg, offers, s)
    ensures Right(cfg, offers, s)
  {
    if s.failed == Some(CrcMismatch) {
      var p, choice :| Fails(cfg, offers, p, choice);
      WholeMixture(offers, p, choice);
      assert false;
    }
    if s.phase == DONE {
      forall p | p in offers && s.manifest == Some(ManifestOf(cfg, p)) ensures Assemble(cfg, s) == Some(p) {
        var choice := ConcatIsMixture(offers, s.chunks, s.manifest.value.count);
        WholeMixture(offers, p, choice);
      }
    }
  }

  /** p with its i-th window from q. */
  function Swapped(p: bytes, q: bytes, i: nat): (choice: seq<bytes>)
    requires i < Count(p) && i < Count(q)
    ensures |choice| == Count(p) && HaveWindows(choice)
  {
    seq(Count(p), j requires 0 <= j < Count(p) => if j == i then q else p)
  }

  lemma {:induction false} SwappedMixture(p: bytes, q: bytes, i: nat, k: nat)
    requires i < Count(p) && i < Count(q) && k <= Count(p)
    ensures i * SIZE <= |p| && HaveWindows(Swapped(p, q, i)[..k])
    ensures Mixture(Swapped(p, q, i)[..k]) ==
            if k <= i then p[..Min(k * SIZE, |p|)]
            else p[..i * SIZE] + Window(q, i, SIZE) + p[Min((i + 1) * SIZE, |p|)..Max(Min((i + 1) * SIZE, |p|), Min(k * SIZE, |p|))]
    decreases k
  {
    WindowStarts(|p|, i, SIZE);
    if k > 0 {
      var choice := Swapped(p, q, i);
      SwappedMixture(p, q, i, k - 1);
      WindowStarts(|p|, k - 1, SIZE);
      assert choice[..k][..k - 1] == choice[..k - 1];
      OneMoreWindow(p, q, i, k);
    }
  }

  /** The sequence step of SwappedMixture. */
  lemma OneMoreWindow(p: bytes, q: bytes, i: nat, k: nat)
    requires i < Count(p) && i < Count(q) && 0 < k <= Count(p)
    requires i * SIZE <= |p| && (k - 1) * SIZE < |p| && (k - 1) * SIZE + SIZE == k * SIZE
    requires (i + 1) * SIZE == i * SIZE + SIZE
    ensures var cut := Min((i + 1) * SIZE, |p|);
            var before := if k - 1 <= i then p[..Min((k - 1) * SIZE, |p|)]
                          else p[..i * SIZE] + Window(q, i, SIZE) + p[cut..Max(cut, Min((k - 1) * SIZE, |p|))];
            before + Window(if k - 1 == i then q else p, k - 1, SIZE) ==
            if k <= i then p[..Min(k * SIZE, |p|)]
            else p[..i * SIZE] + Window(q, i, SIZE) + p[cut..Max(cut, Min(k * SIZE, |p|))]
  {
    var cut, from, to := Min((i + 1) * SIZE, |p|), (k - 1) * SIZE, Min(k * SIZE, |p|);
    if k - 1 < i {
      MulMonotone(k, i, SIZE);
      assert p[..from] + p[from..to] == p[..to];
    } else if k - 1 == i {
      assert p[cut..cut] == [];
    } else {
      MulMonotone(i + 1, k - 1, SIZE);
      assert p[cut..from] + p[from..to] == p[cut..to];
    }
  }

  lemma SwappedDiffers(p: bytes, q: bytes, i: nat)
    requires i < Count(p) && i < Count(q) && Window(p, i, SIZE) != Window(q, i, SIZE)
    ensures Mixture(Swapped(p, q, i)) != p
  {
    var n, choice := Count(p), Swapped(p, q, i);
    SwappedMixture(p, q, i, n);
    WindowStarts(|p|, i, SIZE);
    WindowStarts(|p|, n - 1, SIZE);
    assert choice[..n] == choice;
    var cut := Min((i + 1) * SIZE, |p|);
    var mix, w := Mixture(choice), Window(q, i, SIZE);
    assert mix == p[..i * SIZE] + w + p[cut..|p|];
    assert mix[i * SIZE..i * SIZE + |w|] == w;
  }

  /** Exactly when a receiver is right whatever arrives: when the payloads have the same bytes
      wherever two of them have a window. */
  lemma RightIff(cfg: Config, offers: set<bytes>)
    requires AllCarriable(offers)
    ensures (forall events :: AllOffered(cfg, offers, events) ==> Right(cfg, offers, Run(cfg, FRESH, events)))
            <==> Agree(offers)
  {
    if Agree(offers) {
      forall events | AllOffered(cfg, offers, events) ensures Right(cfg, offers, Run(cfg, FRESH, events)) {
        RunKeeps(cfg, offers, FRESH, events);
        AgreeingIsRight(cfg, offers, Run(cfg, FRESH, events));
      }
    } else {
      var events := WrongRun(cfg, offers);
    }
  }

  lemma WrongRun(cfg: Config, offers: set<bytes>) returns (events: seq<Event>)
    requires AllCarriable(offers) && !Agree(offers)
    ensures AllOffered(cfg, offers, events) && !Right(cfg, offers, Run(cfg, FRESH, events))
  {
    var p, q :| p in offers && q in offers && !SameWindows(p, q);
    var i: nat :| i < Count(p) && i < Count(q) && Window(p, i, SIZE) != Window(q, i, SIZE);
    SwappedDiffers(p, q, i);
    var t;
    events, t := MixtureEnds(cfg, offers, p, Swapped(p, q, i));
  }
}
