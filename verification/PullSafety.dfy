/** Reassembly in place: what every run of a pull transfer keeps, when seeding a
    saved partial is safe, and which payload the client ends up with. */
module PullSafety {
  import opened Wire
  import opened IdSets
  import Codec = PullCodec
  import opened PullModel

  function Count(payload: bytes): nat {
    WindowCount(|payload|, SIZE)
  }

  /** Payloads, by pid, whose length and chunk count fit the manifest's fields. */
  predicate Carriable(payloads: map<u16, bytes>) {
    forall pid :: pid in payloads ==> |payloads[pid]| < 0x1_0000_0000 && Count(payloads[pid]) < 0x1_0000
  }

  /** Devices that hold one payload per pid announce those payloads and serve
      windows of them. Chunks of an unknown pid, with a wrong count or out of range,
      errors, busy answers and noise are unconstrained. */
  predicate Honest(payloads: map<u16, bytes>, crc32: Checksum, frame: Option<Codec.Frame>)
    requires Carriable(payloads)
  {
    frame.Some? ==>
      match frame.value
      case Manifest(pid, _, length, count, crc) =>
        pid in payloads && length == |payloads[pid]| && count == Count(payloads[pid])
        && crc == crc32(payloads[pid])
      case Chunk(pid, index, count, data) =>
        pid in payloads && count == Count(payloads[pid]) && index < count ==>
          data == Window(payloads[pid], index, SIZE)
      case _ => true
  }

  predicate AllHonest(payloads: map<u16, bytes>, crc32: Checksum, arrivals: seq<Arrival>)
    requires Carriable(payloads)
  {
    forall k :: 0 <= k < |arrivals| ==> Honest(payloads, crc32, arrivals[k].frame)
  }

  // ---- slots of the buffer -----------------------------------------------------------

  /** Slot i of `buf` holds the payload's bytes. */
  predicate SlotHolds(buf: bytes, payload: bytes, i: u16) {
    && |buf| == |payload| && i < Count(payload)
    && buf[i * SIZE..Min((i + 1) * SIZE, |buf|)] == Window(payload, i, SIZE)
  }

  predicate SlotsHold(buf: bytes, payload: bytes, have: set<u16>) {
    forall i :: i in have ==> SlotHolds(buf, payload, i)
  }

  /** An overlay changes nothing outside the stretch it covers. */
  lemma OverlayElsewhere(buf: bytes, at: nat, data: bytes, lo: nat, hi: nat)
    requires at + |data| <= |buf| && lo <= hi <= |buf|
    requires hi <= at || at + |data| <= lo
    ensures Overlay(buf, at, data)[lo..hi] == buf[lo..hi]
    ensures Overlay(buf, at, data)[at..at + |data|] == data
  {
  }

  /** Writing one window fills its slot and disturbs no other. */
  lemma OverlaySlot(buf: bytes, payload: bytes, i: u16, j: u16)
    requires |buf| == |payload| && i < Count(payload)
    ensures i * SIZE + |Window(payload, i, SIZE)| <= |buf|
    ensures var after := Overlay(buf, i * SIZE, Window(payload, i, SIZE));
            && SlotHolds(after, payload, i)
            && (SlotHolds(buf, payload, j) ==> SlotHolds(after, payload, j))
  {
    WindowStarts(|payload|, i, SIZE);
    var w := Window(payload, i, SIZE);
    OverlayElsewhere(buf, i * SIZE, w, 0, 0);
    if SlotHolds(buf, payload, j) && j != i {
      WindowStarts(|payload|, j, SIZE);
      OverlayElsewhere(buf, i * SIZE, w, j * SIZE, Min((j + 1) * SIZE, |buf|));
    }
  }

  lemma SameSlice(a: bytes, b: bytes, lo: nat, hi: nat, x: nat)
    requires lo <= x < hi <= |a| && hi <= |b| && a[lo..hi] == b[lo..hi]
    ensures a[x] == b[x]
  {
    assert a[lo..hi][x - lo] == b[lo..hi][x - lo];
  }

  lemma SlotAt(buf: bytes, payload: bytes, count: u16, x: nat)
    requires |buf| == |payload| && count == Count(payload) && x < |buf|
    requires SlotsHold(buf, payload, Below(count))
    ensures buf[x] == payload[x]
  {
    var i := x / SIZE;
    assert i * SIZE <= x < (i + 1) * SIZE && i < count;
    assert IsBelow(i, count) && i in Below(count);
    assert SlotHolds(buf, payload, i);
    SameSlice(buf, payload, i * SIZE, Min((i + 1) * SIZE, |buf|), x);
  }

  lemma FullBufferIsPayload(buf: bytes, payload: bytes, count: u16)
    requires |buf| == |payload| && count == Count(payload)
    requires SlotsHold(buf, payload, Below(count))
    ensures buf == payload
  {
    forall x: nat | x < |buf| ensures buf[x] == payload[x] {
      SlotAt(buf, payload, count, x);
    }
  }

  // ---- the invariant ----------------------------------------------------------------------

  predicate Inv(payloads: map<u16, bytes>, crc32: Checksum, c: Client)
    requires Carriable(payloads)
  {
    if !c.haveManifest then c.have == {} && c.count == 0
    else
      && c.pid in payloads
      && var p := payloads[c.pid];
         && c.length == |p| == |c.buf| && c.count == Count(p) && c.crc == crc32(p)
         && c.have <= Below(c.count)
         && SlotsHold(c.buf, p, c.have)
  }

  lemma FrameSafe(payloads: map<u16, bytes>, crc32: Checksum, c: Client,
                  frame: Option<Codec.Frame>, at: int)
    requires Carriable(payloads) && Inv(payloads, crc32, c) && Honest(payloads, crc32, frame)
    ensures Inv(payloads, crc32, OnFrame(c, frame, at))
  {
    if frame.Some? && frame.value.Chunk? && c.haveManifest {
      var f, p := frame.value, payloads[c.pid];
      if f.pid == c.pid && f.count == c.count && f.index < c.count {
        OverlaySlot(c.buf, p, f.index, f.index);
        var after := Overlay(c.buf, f.index * SIZE, f.data);
        forall j | j in c.have + {f.index} ensures SlotHolds(after, p, j) {
          OverlaySlot(c.buf, p, f.index, j);
        }
        assert IsBelow(f.index, c.count);
      }
    }
  }

  /** Reassembly in place: whatever is lost, repeated, reordered or announced again -
      even when several payloads are on the air - every held slot of the buffer
      carries the bytes of the payload whose pid the client is on. */
  lemma {:induction false} Reassembly(payloads: map<u16, bytes>, crc32: Checksum, c: Client,
                                      arrivals: seq<Arrival>)
    requires Carriable(payloads) && Inv(payloads, crc32, c) && AllHonest(payloads, crc32, arrivals)
    ensures Inv(payloads, crc32, Run(c, arrivals))
    decreases |arrivals|
  {
    if arrivals != [] {
      FrameSafe(payloads, crc32, c, arrivals[0].frame, arrivals[0].at);
      Reassembly(payloads, crc32, OnFrame(c, arrivals[0].frame, arrivals[0].at), arrivals[1..]);
    }
  }

  /** Under the invariant, complete implies correct: the buffer is the payload and
      the checksum agrees, so a complete but unverified client cannot occur. */
  lemma CompleteIsVerified(payloads: map<u16, bytes>, crc32: Checksum, c: Client)
    requires Carriable(payloads) && Inv(payloads, crc32, c)
    ensures Complete(c) ==> c.buf == payloads[c.pid] && Verified(crc32, c)
    ensures c.haveManifest && c.count > 0 ==> (Complete(c) <==> c.have == Below(c.count))
  {
    if c.haveManifest {
      FullByCounting(c.have, c.count);
      if c.have == Below(c.count) {
        FullBufferIsPayload(c.buf, payloads[c.pid], c.count);
      }
    }
  }

  // ---- seeding -------------------------------------------------------------------------------

  /** A saved partial of `payload` whose every claim is backed by its bytes. */
  predicate Backed(payload: bytes, saved: bytes, claims: set<nat>) {
    |saved| == |payload|
    && forall i: u16 :: i in claims && i < Count(payload) ==> SlotHolds(saved, payload, i)
  }

  function Slot(buf: bytes, i: u16): bytes
    requires i * SIZE <= |buf|
  {
    buf[i * SIZE..Min((i + 1) * SIZE, |buf|)]
  }

  /** A partial has the bytes of every chunk that is held and that it does not claim. */
  predicate Agrees(c: Client, saved: bytes, claims: set<nat>) {
    forall i :: i in c.have && i !in claims ==>
      i * SIZE <= |saved| && i * SIZE <= |c.buf| && Slot(saved, i) == Slot(c.buf, i)
  }

  /** Seeding a backed partial keeps the invariant exactly when the partial agrees with
      what is held: in particular when nothing has arrived yet, or only what it claims,
      and not when a chunk has that it lacks. */
  lemma SeedKeepsInvIff(payloads: map<u16, bytes>, crc32: Checksum, c: Client, saved: bytes, claims: set<nat>)
    requires Carriable(payloads) && Inv(payloads, crc32, c) && c.haveManifest
    requires Backed(payloads[c.pid], saved, claims)
    ensures Inv(payloads, crc32, Seed(c, saved, claims)) <==> Agrees(c, saved, claims)
    ensures c.have == {} ==> Inv(payloads, crc32, Seed(c, saved, claims))
  {
    var p, s := payloads[c.pid], Seed(c, saved, claims);
    forall i | i in c.have ensures i * SIZE <= |c.buf| {
      assert SlotHolds(c.buf, p, i);
      WindowStarts(|p|, i, SIZE);
    }
    assert s.have <= Below(c.count) by {
      forall i | i in s.have ensures i in Below(c.count) {
        assert IsBelow(i, c.count);
      }
    }
    assert s.buf == saved;
    if Agrees(c, saved, claims) {
      forall i | i in s.have ensures SlotHolds(saved, p, i) {
        if i !in claims {
          assert SlotHolds(c.buf, p, i) && Slot(saved, i) == Slot(c.buf, i);
        }
      }
    }
    if Inv(payloads, crc32, s) {
      forall i | i in c.have && i !in claims ensures Slot(saved, i) == Slot(c.buf, i) {
        assert i in s.have && SlotHolds(saved, p, i) && SlotHolds(c.buf, p, i);
      }
    }
  }

  /** A chunk that arrives between the manifest and the seed is lost and still
      counted: here the one-byte payload [1] arrives, the client is then seeded with
      a partial that claims nothing, and is complete with the wrong byte. */
  lemma SeedAfterChunkCorrupts(crc32: Checksum)
    ensures var c := Run(FRESH, [Arrival(Some(Codec.Manifest(9, 2, 1, 1, crc32([1]))), 0),
                                 Arrival(Some(Codec.Chunk(9, 0, 1, [1])), 0)]);
            && Verified(crc32, c) && c.buf == [1]
            && Backed([1], [0], {})
            && Complete(Seed(c, [0], {})) && Seed(c, [0], {}).buf == [0]
  {
    var m := OnFrame(FRESH, Some(Codec.Manifest(9, 2, 1, 1, crc32([1]))), 0);
    var two := [Arrival(Some(Codec.Manifest(9, 2, 1, 1, crc32([1]))), 0),
                Arrival(Some(Codec.Chunk(9, 0, 1, [1])), 0)];
    assert two[1..] == [two[1]] && two[1..][1..] == [];
    assert Zeros(1) == [0];
    var c := OnFrame(m, Some(Codec.Chunk(9, 0, 1, [1])), 0);
    assert Run(FRESH, two) == Run(m, two[1..]) == Run(c, []) == c;
    assert c.buf == [1] && c.have == {0};
    assert Seed(c, [0], {}).have == {0};
  }

  // ---- which payload ---------------------------------------------------------------------------

  /** The pid of the last manifest in the list, or `pid` if there is none. */
  function LastAnnounced(pid: u16, arrivals: seq<Arrival>): u16 {
    if arrivals == [] then pid
    else
      var last := arrivals[|arrivals| - 1].frame;
      if last.Some? && last.value.Manifest? then last.value.pid
      else LastAnnounced(pid, arrivals[..|arrivals| - 1])
  }

  lemma RunSnoc(c: Client, arrivals: seq<Arrival>)
    requires arrivals != []
    ensures var n := |arrivals| - 1;
            Run(c, arrivals) == OnFrame(Run(c, arrivals[..n]), arrivals[n].frame, arrivals[n].at)
  {
    var n := |arrivals| - 1;
    RunAppend(c, arrivals[..n], [arrivals[n]]);
    assert arrivals == arrivals[..n] + [arrivals[n]];
    assert [arrivals[n]][1..] == [];
  }

  /** The client follows whatever is announced: after any run at all it is on the
      pid of the last manifest that arrived. */
  lemma {:induction false} FollowsLastManifest(c: Client, arrivals: seq<Arrival>)
    ensures Run(c, arrivals).pid == LastAnnounced(c.pid, arrivals)
    decreases |arrivals|
  {
    if arrivals != [] {
      var n := |arrivals| - 1;
      FollowsLastManifest(c, arrivals[..n]);
      RunSnoc(c, arrivals);
    }
  }

  /** An instance: a client fetching pid 1 hears a manifest of pid 2, and is on pid 2, with
      nothing of what it held. */
  lemma ForeignManifestIsAdopted(crc32: Checksum)
    ensures var mine, foreign := Arrival(Some(Codec.Manifest(1, 2, 1, 1, crc32([5]))), 0),
                                 Arrival(Some(Codec.Manifest(2, 2, 1, 1, crc32([6]))), 0);
            var c := Run(FRESH, [mine, Arrival(Some(Codec.Chunk(1, 0, 1, [5])), 0), foreign]);
            c.pid == 2 && c.have == {} && !Complete(c)
  {
    var mine, foreign := Arrival(Some(Codec.Manifest(1, 2, 1, 1, crc32([5]))), 0),
                         Arrival(Some(Codec.Manifest(2, 2, 1, 1, crc32([6]))), 0);
    var all := [mine, Arrival(Some(Codec.Chunk(1, 0, 1, [5])), 0), foreign];
    FollowsLastManifest(FRESH, all);
    RunSnoc(FRESH, all);
    assert OnFrame(Run(FRESH, all[..2]), foreign.frame, 0).have == {} by {
      FollowsLastManifest(FRESH, all[..2]);
      assert LastAnnounced(0, all[..2]) == 1 by {
        assert all[..2][..1] == [mine];
      }
    }
  }

  /** A manifest is recognised by pid, length and count alone. When the device
      replaces a payload by another of the same shape under the same pid, the new
      announcement is ignored and the two are blended: complete, and neither. The shape
      need not even be the same; PullBlend says exactly which payloads can be mixed. */
  lemma SameShapeReplacementBlends(crc32: Checksum)
    ensures var former: bytes, latter: bytes := seq(225, _ => 1), seq(225, _ => 2);
            var c := Run(FRESH, [Arrival(Some(Codec.Manifest(9, 2, 225, 2, crc32(former))), 0),
                                 Arrival(Some(Codec.Chunk(9, 0, 2, former[..224])), 0),
                                 Arrival(Some(Codec.Manifest(9, 2, 225, 2, crc32(latter))), 0),
                                 Arrival(Some(Codec.Chunk(9, 1, 2, latter[224..])), 0)]);
            Complete(c) && c.buf != former && c.buf != latter && c.crc == crc32(former)
  {
    var former: bytes, latter: bytes := seq(225, _ => 1), seq(225, _ => 2);
    var m1, k0 := Some(Codec.Manifest(9, 2, 225, 2, crc32(former))), Some(Codec.Chunk(9, 0, 2, former[..224]));
    var m2, k1 := Some(Codec.Manifest(9, 2, 225, 2, crc32(latter))), Some(Codec.Chunk(9, 1, 2, latter[224..]));
    var all := [Arrival(m1, 0), Arrival(k0, 0), Arrival(m2, 0), Arrival(k1, 0)];
    assert all[1..] == [Arrival(k0, 0), Arrival(m2, 0), Arrival(k1, 0)];
    assert all[1..][1..] == [Arrival(m2, 0), Arrival(k1, 0)];
    assert all[1..][1..][1..] == [Arrival(k1, 0)];
    assert all[1..][1..][1..][1..] == [];
    var a := OnFrame(FRESH, m1, 0);
    var b := OnFrame(a, k0, 0);
    var c := OnFrame(OnFrame(b, m2, 0), k1, 0);
    assert OnFrame(b, m2, 0) == b;
    assert Run(FRESH, all) == Run(a, all[1..]) == Run(b, all[1..][1..]) == Run(b, all[1..][1..][1..]) == c;
    assert c.buf[0] == 1 && c.buf[224] == 2;
    assert c.have == {0, 1};
  }

  // ---- what else the device said -----------------------------------------------------------------

  /** Until when the last BUSY for the payload announced by then asks to wait. */
  function LastBusy(pid: u16, until: int, arrivals: seq<Arrival>): int {
    if arrivals == [] then until
    else
      var before, last := arrivals[..|arrivals| - 1], arrivals[|arrivals| - 1];
      if last.frame.Some? && last.frame.value.Busy? && last.frame.value.pid == LastAnnounced(pid, before)
      then last.at + last.frame.value.retryAfterMs
      else LastBusy(pid, until, before)
  }

  /** The wait a client remembers is that of the last BUSY for its own payload, whatever
      else arrived: chunks, manifests, and BUSY for other payloads. */
  lemma {:induction false} RemembersLastBusy(c: Client, arrivals: seq<Arrival>)
    ensures Run(c, arrivals).busyUntil == LastBusy(c.pid, c.busyUntil, arrivals)
    decreases |arrivals|
  {
    if arrivals != [] {
      var n := |arrivals| - 1;
      RemembersLastBusy(c, arrivals[..n]);
      FollowsLastManifest(c, arrivals[..n]);
      RunSnoc(c, arrivals);
    }
  }

  predicate SaysGone(frame: Option<Codec.Frame>) {
    frame.Some? && frame.value.Err? && frame.value.code == Codec.ERR_GONE
  }

  predicate IsNews(c: Client, frame: Option<Codec.Frame>) {
    frame.Some? && frame.value.Manifest?
    && !(c.haveManifest && frame.value.pid == c.pid && frame.value.length == c.length && frame.value.count == c.count)
  }

  /** A GONE, of whatever pid, arrived after the last manifest that was news. */
  function GoneSaid(c: Client, arrivals: seq<Arrival>): bool {
    if arrivals == [] then c.gone
    else
      var before, last := arrivals[..|arrivals| - 1], arrivals[|arrivals| - 1].frame;
      SaysGone(last) || (!IsNews(Run(c, before), last) && GoneSaid(c, before))
  }

  /** Unlike BUSY, GONE is not guarded by the pid: a client that knows its payload and
      lacks some of it stops asking exactly when any payload was called gone since its own
      was announced. */
  lemma {:induction false} GoneOfAnyPidStops(c: Client, arrivals: seq<Arrival>, batch: int)
    ensures Run(c, arrivals).gone == GoneSaid(c, arrivals)
    ensures var t := Run(c, arrivals);
            NextPull(t, batch).None? <==>
              !t.haveManifest || GoneSaid(c, arrivals) || forall i: u16 :: i < t.count ==> i in t.have
    decreases |arrivals|
  {
    if arrivals != [] {
      var n := |arrivals| - 1;
      GoneOfAnyPidStops(c, arrivals[..n], batch);
      RunSnoc(c, arrivals);
    }
    FirstGapIsGap(Run(c, arrivals).have, 0, Run(c, arrivals).count);
  }

  /** An instance: a client that is on pid 9 and lacks its one chunk hears that pid 7 is gone,
      and asks for nothing more. */
  lemma ForeignGoneStops(crc32: Checksum, batch: int)
    ensures var c := Run(FRESH, [Arrival(Some(Codec.Manifest(9, 2, 1, 1, crc32([5]))), 0),
                                 Arrival(Some(Codec.Err(7, Codec.ERR_GONE)), 0)]);
            c.haveManifest && c.pid == 9 && 0 !in c.have && c.count == 1 && NextPull(c, batch).None?
  {
    var all := [Arrival(Some(Codec.Manifest(9, 2, 1, 1, crc32([5]))), 0), Arrival(Some(Codec.Err(7, Codec.ERR_GONE)), 0)];
    GoneOfAnyPidStops(FRESH, all, batch);
    RunSnoc(FRESH, all);
    RunSnoc(FRESH, all[..1]);
    assert all[..1][..0] == [] && Run(FRESH, []) == FRESH;
  }
}
