/** Several payloads on the air, also under one pid: exactly when a pull client that
    follows the announcements never mixes them (clients/node/lib/chunk.js). A chunk is
    accepted by pid and count alone, an announcement recognised by pid, length and
    count; neither names the bytes. */
module PullBlend {
  import opened Wire
  import opened IdSets
  import Codec = PullCodec
  import opened PullModel
  import Safety = PullSafety

  /** A payload as some device offers it. */
  datatype Offer = Offer(pid: u16, payload: bytes)

  predicate Carriable(o: Offer) {
    |o.payload| < 0x1_0000_0000 && Safety.Count(o.payload) < 0x1_0000
  }

  /** What the air can bring: an announcement or a chunk of an offer, or anything that is
      neither. */
  datatype Event =
    | Announce(o: Offer, ptype: byte, at: int)
    | Body(o: Offer, index: u16, at: int)
    | Noise(frame: Option<Codec.Frame>, at: int)

  /** Not an announcement, and not a chunk that could be taken for one of an offer. */
  predicate IsNoise(offers: set<Offer>, frame: Option<Codec.Frame>) {
    frame.Some? ==>
      && !frame.value.Manifest?
      && (frame.value.Chunk? ==> forall o :: o in offers ==>
            !(o.pid == frame.value.pid && Safety.Count(o.payload) == frame.value.count
              && frame.value.index < frame.value.count))
  }

  predicate Possible(offers: set<Offer>, e: Event) {
    match e
    case Announce(o, _, _) => o in offers && Carriable(o)
    case Body(o, index, _) => o in offers && Carriable(o) && index < Safety.Count(o.payload)
    case Noise(frame, _) => IsNoise(offers, frame)
  }

  function FrameOf(crc32: Checksum, offers: set<Offer>, e: Event): Option<Codec.Frame>
    requires Possible(offers, e)
  {
    match e
    case Announce(o, ptype, _) =>
      Some(Codec.Manifest(o.pid, ptype, |o.payload|, Safety.Count(o.payload), crc32(o.payload)))
    case Body(o, index, _) =>
      Some(Codec.Chunk(o.pid, index, Safety.Count(o.payload), Window(o.payload, index, SIZE)))
    case Noise(frame, _) => frame
  }

  predicate AllPossible(offers: set<Offer>, events: seq<Event>) {
    forall k :: 0 <= k < |events| ==> Possible(offers, events[k])
  }

  /** A client, and the offer it is on: the one whose announcement it last adopted. */
  datatype Follower = Follower(c: Client, on: Option<Offer>)

  const NEW := Follower(FRESH, None)

  function Follow(crc32: Checksum, offers: set<Offer>, w: Follower, e: Event): Follower
    requires Possible(offers, e)
  {
    var frame := FrameOf(crc32, offers, e);
    Follower(OnFrame(w.c, frame, e.at),
             if e.Announce? && Safety.IsNews(w.c, frame) then Some(e.o) else w.on)
  }

  function Run(crc32: Checksum, offers: set<Offer>, w: Follower, events: seq<Event>): Follower
    requires AllPossible(offers, events)
    decreases |events|
  {
    if events == [] then w
    else
      assert AllPossible(offers, events[1..]);
      Run(crc32, offers, Follow(crc32, offers, w, events[0]), events[1..])
  }

  // ---- which payloads go together -----------------------------------------------------------

  /** The one is the other followed by zeros. */
  predicate Pads(short: bytes, long: bytes) {
    |short| <= |long| && long == short + Zeros(|long| - |short|)
  }

  /** They differ in their number of chunks, or in trailing zeros at most. */
  predicate Compatible(p: bytes, q: bytes) {
    Safety.Count(p) != Safety.Count(q) || p == q
    || (|p| != |q| && (Pads(p, q) || Pads(q, p)))
  }

  predicate AllCompatible(offers: set<Offer>) {
    forall a, b :: a in offers && b in offers && a.pid == b.pid ==> Compatible(a.payload, b.payload)
  }

  // ---- compatible payloads are never mixed ----------------------------------------------------

  /** The client is on this offer: its fields are the offer's, every held slot has the
      offer's bytes, and no byte of the buffer is anything but the offer's or zero. */
  predicate On(crc32: Checksum, w: Follower) {
    if w.on.None? then !w.c.haveManifest && w.c.have == {} && w.c.count == 0
    else
      var o, c := w.on.value, w.c;
      && c.haveManifest && c.pid == o.pid && c.length == |o.payload| == |c.buf|
      && c.count == Safety.Count(o.payload) && c.crc == crc32(o.payload) && c.have <= Below(c.count)
      && BufferOf(c, o.payload)
  }

  predicate BufferOf(c: Client, p: bytes)
    requires |c.buf| == |p|
  {
    && (forall x :: 0 <= x < |p| ==> c.buf[x] == p[x] || c.buf[x] == 0)
    && (forall x, i: u16 :: i in c.have && i * SIZE <= x < (i + 1) * SIZE && x < |p| ==> c.buf[x] == p[x])
  }

  /** A chunk of a compatible payload that fits writes nothing but the payload's bytes,
      and all of its slot that is not zero. */
  lemma BodyFits(p: bytes, q: bytes, i: u16)
    requires Safety.Count(p) == Safety.Count(q) && Compatible(p, q) && i < Safety.Count(q)
    requires i * SIZE + |Window(q, i, SIZE)| <= |p|
    ensures var n := |Window(q, i, SIZE)|;
            && i * SIZE + n <= |q|
            && Window(q, i, SIZE) == p[i * SIZE..i * SIZE + n]
            && (forall x :: i * SIZE + n <= x < (i + 1) * SIZE && x < |p| ==> p[x] == 0)
  {
    WindowStarts(|q|, i, SIZE);
    WindowStarts(|p|, i, SIZE);
    var n := |Window(q, i, SIZE)|;
    if p != q {
      if Pads(p, q) {
        assert forall x :: 0 <= x < |p| ==> q[x] == p[x];
      } else {
        assert forall x :: 0 <= x < |q| ==> p[x] == q[x];
        assert forall x :: |q| <= x < |p| ==> p[x] == 0;
      }
    }
    assert Window(q, i, SIZE) == q[i * SIZE..i * SIZE + n];
  }

  lemma OverlayAt(buf: bytes, at: nat, data: bytes, x: nat)
    requires at + |data| <= |buf| && x < |buf|
    ensures Overlay(buf, at, data)[x] == if at <= x < at + |data| then data[x - at] else buf[x]
  {
  }

  lemma WritingKeepsBuffer(c: Client, p: bytes, q: bytes, i: u16)
    requires |c.buf| == |p| && BufferOf(c, p) && Safety.Count(p) == Safety.Count(q) && Compatible(p, q)
    requires i < Safety.Count(q) && i * SIZE + |Window(q, i, SIZE)| <= |p|
    ensures BufferOf(c.(buf := Overlay(c.buf, i * SIZE, Window(q, i, SIZE)), have := c.have + {i}), p)
  {
    var w := Window(q, i, SIZE);
    var t := c.(buf := Overlay(c.buf, i * SIZE, w), have := c.have + {i});
    BodyFits(p, q, i);
    forall x | 0 <= x < |p| ensures t.buf[x] == if i * SIZE <= x < i * SIZE + |w| then p[x] else c.buf[x] {
      OverlayAt(c.buf, i * SIZE, w, x);
      if i * SIZE <= x < i * SIZE + |w| {
        assert p[i * SIZE..i * SIZE + |w|][x - i * SIZE] == p[x];
      }
    }
    forall x, j: u16 | j in t.have && j * SIZE <= x < (j + 1) * SIZE && x < |p| ensures t.buf[x] == p[x] {
      if j == i && x >= i * SIZE + |w| {
        assert p[x] == 0 && t.buf[x] == c.buf[x];
      } else if j in c.have {
        assert c.buf[x] == p[x];
      }
    }
  }

  /** The client takes the body. */
  predicate Takes(c: Client, e: Event)
    requires e.Body? && Carriable(e.o) && e.index < Safety.Count(e.o.payload)
  {
    c.haveManifest && e.o.pid == c.pid && Safety.Count(e.o.payload) == c.count
    && e.index * SIZE + |Window(e.o.payload, e.index, SIZE)| <= |c.buf|
  }

  lemma BodyEffect(crc32: Checksum, offers: set<Offer>, w: Follower, e: Event)
    requires e.Body? && Possible(offers, e)
    ensures Follow(crc32, offers, w, e) ==
            if !Takes(w.c, e) then w
            else w.(c := w.c.(buf := Overlay(w.c.buf, e.index * SIZE, Window(e.o.payload, e.index, SIZE)),
                              have := w.c.have + {e.index}))
  {
  }

  lemma BodyKeepsOn(crc32: Checksum, offers: set<Offer>, w: Follower, e: Event)
    requires AllCompatible(offers) && On(crc32, w) && e.Body? && Possible(offers, e)
    requires w.on.Some? ==> w.on.value in offers && Carriable(w.on.value)
    ensures On(crc32, Follow(crc32, offers, w, e))
  {
    BodyEffect(crc32, offers, w, e);
    if Takes(w.c, e) {
      assert Compatible(w.on.value.payload, e.o.payload);
      WritingKeepsBuffer(w.c, w.on.value.payload, e.o.payload, e.index);
      assert IsBelow(e.index, w.c.count);
    }
  }

  /** An announcement starts the client over, or is one of the shape it has. */
  lemma AnnounceKeepsOn(crc32: Checksum, offers: set<Offer>, w: Follower, e: Event)
    requires On(crc32, w) && e.Announce? && Possible(offers, e)
    ensures On(crc32, Follow(crc32, offers, w, e))
  {
    var t := Follow(crc32, offers, w, e);
    if t.on != w.on {
      assert t.c.buf == Zeros(|e.o.payload|) && t.c.have == {};
    }
  }

  lemma FollowKeepsOn(crc32: Checksum, offers: set<Offer>, w: Follower, e: Event)
    requires AllCompatible(offers) && On(crc32, w) && Possible(offers, e)
    requires w.on.Some? ==> w.on.value in offers && Carriable(w.on.value)
    ensures var t := Follow(crc32, offers, w, e);
            On(crc32, t) && (t.on.Some? ==> t.on.value in offers && Carriable(t.on.value))
  {
    match e
    case Announce(_, _, _) => AnnounceKeepsOn(crc32, offers, w, e);
    case Body(_, _, _) => BodyKeepsOn(crc32, offers, w, e);
    case Noise(frame, at) =>
      if w.on.Some? && frame.Some? && frame.value.Chunk? {
        assert OnFrame(w.c, frame, at) == w.c;
      }
  }

  lemma {:induction false} RunKeepsOn(crc32: Checksum, offers: set<Offer>, w: Follower, events: seq<Event>)
    requires AllCompatible(offers) && On(crc32, w) && AllPossible(offers, events)
    requires w.on.Some? ==> w.on.value in offers && Carriable(w.on.value)
    ensures On(crc32, Run(crc32, offers, w, events))
    decreases |events|
  {
    if events != [] {
      assert AllPossible(offers, events[1..]);
      FollowKeepsOn(crc32, offers, w, events[0]);
      RunKeepsOn(crc32, offers, Follow(crc32, offers, w, events[0]), events[1..]);
    }
  }

  // ---- what a follower may claim -------------------------------------------------------------

  /** Held slots have the bytes of the offer the client is on, and complete means all of
      them. */
  predicate Right(w: Follower) {
    w.c.haveManifest ==>
      && w.on.Some?
      && (forall i :: i in w.c.have ==> Safety.SlotHolds(w.c.buf, w.on.value.payload, i))
      && (Complete(w.c) ==> w.c.buf == w.on.value.payload)
  }

  lemma OnIsRight(crc32: Checksum, w: Follower)
    requires On(crc32, w)
    ensures Right(w)
  {
    if w.on.Some? {
      var c, p := w.c, w.on.value.payload;
      forall i | i in c.have ensures Safety.SlotHolds(c.buf, p, i) {
        assert i in Below(c.count);
        WindowStarts(|p|, i, SIZE);
      }
      FullByCounting(c.have, c.count);
      if Complete(c) {
        Safety.FullBufferIsPayload(c.buf, p, c.count);
      }
    }
  }

  // ---- incompatible payloads are mixed ---------------------------------------------------------

  /** All chunks of `o`, in order, from the i-th on. */
  function Bodies(o: Offer, i: nat): seq<Event>
    requires Carriable(o) && i <= Safety.Count(o.payload)
    decreases Safety.Count(o.payload) - i
  {
    if i == Safety.Count(o.payload) then [] else [Body(o, i, 0)] + Bodies(o, i + 1)
  }

  lemma {:induction false} BodiesPossible(offers: set<Offer>, o: Offer, i: nat)
    requires o in offers && Carriable(o) && i <= Safety.Count(o.payload)
    ensures AllPossible(offers, Bodies(o, i))
    decreases Safety.Count(o.payload) - i
  {
    if i < Safety.Count(o.payload) {
      BodiesPossible(offers, o, i + 1);
    }
  }

  /** The client is on `long` and has just the first i chunks of `short`. */
  predicate Halfway(w: Follower, short: Offer, long: Offer, i: nat) {
    && w.on == Some(long) && w.c.haveManifest && w.c.pid == short.pid && w.c.count == Safety.Count(short.payload)
    && |short.payload| <= |long.payload| == |w.c.buf|
    && (forall k: u16 :: k in w.c.have <==> k < i)
    && w.c.buf == Prefix(short.payload, i) + Zeros(|long.payload| - |Prefix(short.payload, i)|)
  }

  function Prefix(p: bytes, i: nat): (r: bytes)
    ensures |r| <= |p|
  {
    p[..Min(i * SIZE, |p|)]
  }

  lemma OneMoreBody(crc32: Checksum, offers: set<Offer>, w: Follower, short: Offer, long: Offer, i: nat)
    requires Carriable(short) && short in offers && Halfway(w, short, long, i) && i < Safety.Count(short.payload)
    ensures Halfway(Follow(crc32, offers, w, Body(short, i, 0)), short, long, i + 1)
  {
    var p := short.payload;
    WindowStarts(|p|, i, SIZE);
    var data := Window(p, i, SIZE);
    var rest := Zeros(|long.payload| - |Prefix(p, i + 1)|);
    assert Prefix(p, i) + data == Prefix(p, i + 1);
    assert w.c.buf[..i * SIZE] == Prefix(p, i) && w.c.buf[i * SIZE + |data|..] == rest;
    assert Overlay(w.c.buf, i * SIZE, data) == Prefix(p, i + 1) + rest;
  }

  lemma {:induction false} BodiesArrive(crc32: Checksum, offers: set<Offer>, w: Follower, short: Offer, long: Offer, i: nat)
    requires Carriable(short) && short in offers && i <= Safety.Count(short.payload)
    requires Halfway(w, short, long, i)
    ensures AllPossible(offers, Bodies(short, i))
    ensures Halfway(Run(crc32, offers, w, Bodies(short, i)), short, long, Safety.Count(short.payload))
    decreases Safety.Count(short.payload) - i
  {
    BodiesPossible(offers, short, i);
    if i < Safety.Count(short.payload) {
      var t := Follow(crc32, offers, w, Body(short, i, 0));
      OneMoreBody(crc32, offers, w, short, long, i);
      BodiesArrive(crc32, offers, t, short, long, i + 1);
      assert Bodies(short, i)[1..] == Bodies(short, i + 1);
    }
  }

  /** Announce the longer, deliver the shorter. */
  function Mixed(short: Offer, long: Offer): seq<Event>
    requires Carriable(short)
  {
    [Announce(long, 2, 0)] + Bodies(short, 0)
  }

  /** The client is complete with the shorter payload and zeros. */
  lemma MixedCompletes(crc32: Checksum, offers: set<Offer>, short: Offer, long: Offer)
    requires short in offers && long in offers && Carriable(short) && Carriable(long)
    requires short.pid == long.pid && Safety.Count(short.payload) == Safety.Count(long.payload) > 0
    requires |short.payload| <= |long.payload|
    ensures AllPossible(offers, Mixed(short, long))
    ensures var w := Run(crc32, offers, NEW, Mixed(short, long));
            && w.on == Some(long) && Complete(w.c)
            && w.c.buf == short.payload + Zeros(|long.payload| - |short.payload|)
  {
    var n := Safety.Count(short.payload);
    var w := Follow(crc32, offers, NEW, Announce(long, 2, 0));
    BodiesArrive(crc32, offers, w, short, long, 0);
    assert Mixed(short, long)[1..] == Bodies(short, 0);
    var t := Run(crc32, offers, NEW, Mixed(short, long));
    WindowStarts(|short.payload|, n - 1, SIZE);
    assert Prefix(short.payload, n) == short.payload;
    assert t.c.have == Below(n) by {
      assert forall k: u16 :: k in t.c.have <==> IsBelow(k, n);
    }
    BelowSize(n);
  }

  lemma IncompatibleIsMixed(crc32: Checksum, offers: set<Offer>, a: Offer, b: Offer) returns (events: seq<Event>)
    requires a in offers && b in offers && Carriable(a) && Carriable(b)
    requires a.pid == b.pid && !Compatible(a.payload, b.payload)
    ensures AllPossible(offers, events)
    ensures var w := Run(crc32, offers, NEW, events);
            w.on.Some? && Complete(w.c) && w.c.buf != w.on.value.payload
  {
    var short, long := if |a.payload| <= |b.payload| then a else b, if |a.payload| <= |b.payload| then b else a;
    if Safety.Count(short.payload) == 0 {
      NoChunksIsEmpty(short.payload);
      NoChunksIsEmpty(long.payload);
      assert false;
    }
    MixedCompletes(crc32, offers, short, long);
    events := Mixed(short, long);
    if |short.payload| == |long.payload| {
      assert short.payload + Zeros(0) == short.payload;
    }
  }

  lemma NoChunksIsEmpty(p: bytes)
    requires Safety.Count(p) == 0
    ensures p == []
  {
  }

  /** Exactly when payloads are never mixed, over every run of announcements and chunks of
      any of them, in any order and number, among any other frames: when any two under one
      pid differ in their number of chunks, or in trailing zeros at most. */
  lemma NeverMixedIff(crc32: Checksum, offers: set<Offer>)
    requires forall o :: o in offers ==> Carriable(o)
    ensures (forall events :: AllPossible(offers, events) ==> Right(Run(crc32, offers, NEW, events)))
            <==> AllCompatible(offers)
  {
    if AllCompatible(offers) {
      forall events | AllPossible(offers, events) ensures Right(Run(crc32, offers, NEW, events)) {
        RunKeepsOn(crc32, offers, NEW, events);
        OnIsRight(crc32, Run(crc32, offers, NEW, events));
      }
    } else {
      var a, b :| a in offers && b in offers && a.pid == b.pid && !Compatible(a.payload, b.payload);
      var events := IncompatibleIsMixed(crc32, offers, a, b);
      assert !Right(Run(crc32, offers, NEW, events));
    }
  }
}
