/** What a pull client is after any list of frames (clients/node/lib/chunk.js:97-218), read off
    the list: the announcement in force, the chunks taken since, every byte of the buffer. */
module PullHistory {
  import opened Wire
  import opened IdSets
  import Codec = PullCodec
  import opened PullModel
  import opened PullSafety

  datatype Announcement = Announcement(pid: u16, ptype: byte, length: u32, count: u16, crc: u32)

  /** The announcement that the frame makes, if it makes one. */
  function Announces(a: Arrival): Option<Announcement> {
    if a.frame.None? then None
    else match a.frame.value
      case Manifest(pid, ptype, length, count, crc) => Some(Announcement(pid, ptype, length, count, crc))
      case _ => None
  }

  /** An announcement replaces the one in force unless it agrees in pid, length and count. */
  predicate Replaces(inForce: Option<Announcement>, a: Arrival) {
    Announces(a).Some? &&
      (inForce.None? || inForce.value.pid != Announces(a).value.pid
       || inForce.value.length != Announces(a).value.length || inForce.value.count != Announces(a).value.count)
  }

  function InForce(arrivals: seq<Arrival>): Option<Announcement> {
    if arrivals == [] then None
    else
      var before, a := InForce(arrivals[..|arrivals| - 1]), arrivals[|arrivals| - 1];
      if Replaces(before, a) then Announces(a) else before
  }

  /** A chunk is taken if it is of the payload in force and lies within it: 224 bytes a slot. */
  predicate Takes(inForce: Option<Announcement>, a: Arrival) {
    && inForce.Some? && a.frame.Some? && a.frame.value.Chunk?
    && a.frame.value.pid == inForce.value.pid && a.frame.value.count == inForce.value.count
    && a.frame.value.index < inForce.value.count
    && 224 * a.frame.value.index + |a.frame.value.data| <= inForce.value.length
  }

  /** The chunks taken since the announcement in force. */
  function Held(arrivals: seq<Arrival>): set<u16> {
    if arrivals == [] then {}
    else
      var before, a := arrivals[..|arrivals| - 1], arrivals[|arrivals| - 1];
      if Replaces(InForce(before), a) then {}
      else if Takes(InForce(before), a) then Held(before) + {a.frame.value.index}
      else Held(before)
  }

  /** The byte at `p` once the frame has come, if it was `was` before. */
  function NextByte(inForce: Option<Announcement>, a: Arrival, p: nat, was: byte): byte {
    if Replaces(inForce, a) then 0
    else if Takes(inForce, a)
            && 224 * a.frame.value.index <= p < 224 * a.frame.value.index + |a.frame.value.data| then
      a.frame.value.data[p - 224 * a.frame.value.index]
    else was
  }

  /** The byte at a position: of the last chunk taken that covers it, or zero. */
  function ByteAt(arrivals: seq<Arrival>, p: nat): byte {
    if arrivals == [] then 0
    else
      var before, a := arrivals[..|arrivals| - 1], arrivals[|arrivals| - 1];
      NextByte(InForce(before), a, p, ByteAt(before, p))
  }

  /** An error frame of code 1 has come since, whatever pid it is about. */
  predicate CalledGone(arrivals: seq<Arrival>) {
    arrivals != [] &&
      var before, a := arrivals[..|arrivals| - 1], arrivals[|arrivals| - 1];
      !Replaces(InForce(before), a)
      && ((a.frame.Some? && a.frame.value.Err? && a.frame.value.code == 1) || CalledGone(before))
  }

  predicate Reads(c: Client, m: Announcement) {
    c.pid == m.pid && c.ptype == m.ptype && c.length == m.length && c.count == m.count && c.crc == m.crc
  }

  predicate IsAfter(c: Client, arrivals: seq<Arrival>) {
    var m := InForce(arrivals);
    && (c.haveManifest <==> m.Some?)
    && (if m.Some? then Reads(c, m.value) && |c.buf| == m.value.length else c.buf == [])
    && c.have == Held(arrivals)
    && (forall p :: 0 <= p < |c.buf| ==> c.buf[p] == ByteAt(arrivals, p))
    && (c.gone <==> CalledGone(arrivals))
  }

  lemma ByteOfFrame(c: Client, inForce: Option<Announcement>, a: Arrival, t: Client, p: nat)
    requires if inForce.Some? then Reads(c, inForce.value) && |c.buf| == inForce.value.length else c.buf == []
    requires (c.haveManifest <==> inForce.Some?) && t == OnFrame(c, a.frame, a.at) && p < |t.buf|
    ensures t.buf[p] == NextByte(inForce, a, p, if p < |c.buf| then c.buf[p] else 0)
  {
  }

  lemma ByteSnoc(before: seq<Arrival>, a: Arrival, arrivals: seq<Arrival>, p: nat)
    requires arrivals == before + [a]
    ensures ByteAt(arrivals, p) == NextByte(InForce(before), a, p, ByteAt(before, p))
  {
    assert arrivals[..|arrivals| - 1] == before;
  }

  lemma BytesAreAfter(c: Client, before: seq<Arrival>, a: Arrival, arrivals: seq<Arrival>, t: Client, p: nat)
    requires IsAfter(c, before) && arrivals == before + [a] && t == OnFrame(c, a.frame, a.at) && p < |t.buf|
    ensures t.buf[p] == ByteAt(arrivals, p)
  {
    ByteOfFrame(c, InForce(before), a, t, p);
    ByteSnoc(before, a, arrivals, p);
    assert p >= |c.buf| ==> Replaces(InForce(before), a);
  }

  lemma HeldIsAfter(c: Client, before: seq<Arrival>, a: Arrival, arrivals: seq<Arrival>, t: Client)
    requires IsAfter(c, before) && arrivals == before + [a] && t == OnFrame(c, a.frame, a.at)
    ensures t.have == Held(arrivals)
  {
    assert arrivals[..|arrivals| - 1] == before;
  }

  lemma GoneIsAfter(c: Client, before: seq<Arrival>, a: Arrival, arrivals: seq<Arrival>, t: Client)
    requires IsAfter(c, before) && arrivals == before + [a] && t == OnFrame(c, a.frame, a.at)
    ensures t.gone <==> CalledGone(arrivals)
  {
    assert arrivals[..|arrivals| - 1] == before;
  }

  lemma ManifestIsAfter(c: Client, before: seq<Arrival>, a: Arrival, arrivals: seq<Arrival>, t: Client)
    requires IsAfter(c, before) && arrivals == before + [a] && t == OnFrame(c, a.frame, a.at)
    ensures var m := InForce(arrivals);
            && (t.haveManifest <==> m.Some?)
            && (if m.Some? then Reads(t, m.value) && |t.buf| == m.value.length else t.buf == [])
  {
    assert arrivals[..|arrivals| - 1] == before;
  }

  lemma FrameIsAfter(c: Client, before: seq<Arrival>, a: Arrival, arrivals: seq<Arrival>, t: Client)
    requires IsAfter(c, before) && arrivals == before + [a] && t == OnFrame(c, a.frame, a.at)
    ensures IsAfter(t, arrivals)
  {
    ManifestIsAfter(c, before, a, arrivals, t);
    HeldIsAfter(c, before, a, arrivals, t);
    GoneIsAfter(c, before, a, arrivals, t);
    forall p | 0 <= p < |t.buf| ensures t.buf[p] == ByteAt(arrivals, p) {
      BytesAreAfter(c, before, a, arrivals, t, p);
    }
  }

  lemma {:induction false} RunIsAfter(arrivals: seq<Arrival>)
    ensures IsAfter(Run(FRESH, arrivals), arrivals)
    decreases |arrivals|
  {
    if arrivals != [] {
      var n := |arrivals| - 1;
      RunIsAfter(arrivals[..n]);
      RunSnoc(FRESH, arrivals);
      FrameIsAfter(Run(FRESH, arrivals[..n]), arrivals[..n], arrivals[n], arrivals, Run(FRESH, arrivals));
    }
  }

  /** Over every list of frames whatsoever: the manifest fields are those of the announcement in
      force, the chunks held are those taken since, every byte of the buffer is that of the last
      of them to cover it or zero, and the client is called gone exactly by an error of code 1
      since. */
  lemma ClientIsHistory(arrivals: seq<Arrival>)
    ensures var c, m := Run(FRESH, arrivals), InForce(arrivals);
            && (c.haveManifest <==> m.Some?)
            && (m.Some? ==> Reads(c, m.value) && |c.buf| == m.value.length)
            && c.have == Held(arrivals)
            && (forall p :: 0 <= p < |c.buf| ==> c.buf[p] == ByteAt(arrivals, p))
            && (c.gone <==> CalledGone(arrivals))
  {
    RunIsAfter(arrivals);
  }

  lemma {:induction false} HeldInRange(arrivals: seq<Arrival>)
    ensures InForce(arrivals).Some? ==> Held(arrivals) <= Below(InForce(arrivals).value.count)
    ensures InForce(arrivals).None? ==> Held(arrivals) == {}
    decreases |arrivals|
  {
    if arrivals != [] {
      var before, a := arrivals[..|arrivals| - 1], arrivals[|arrivals| - 1];
      HeldInRange(before);
      if Takes(InForce(before), a) {
        assert IsBelow(a.frame.value.index, InForce(before).value.count);
      }
    }
  }

  /** So a client is complete exactly when a payload of at least one chunk is in force and every
      one of its chunks has been taken since. */
  lemma CompleteIff(arrivals: seq<Arrival>)
    ensures var m := InForce(arrivals);
            Complete(Run(FRESH, arrivals)) <==>
              m.Some? && m.value.count > 0 && forall i: u16 :: i < m.value.count ==> i in Held(arrivals)
  {
    var m := InForce(arrivals);
    RunIsAfter(arrivals);
    HeldInRange(arrivals);
    if m.Some? {
      FullByCounting(Held(arrivals), m.value.count);
      if forall i: u16 :: i < m.value.count ==> i in Held(arrivals) {
        assert Held(arrivals) == Below(m.value.count);
      } else {
        var i: u16 :| i < m.value.count && i !in Held(arrivals);
        assert IsBelow(i, m.value.count) && i in Below(m.value.count);
      }
    }
  }
}
