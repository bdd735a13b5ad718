/** What the dedupe ring and the packet ring guarantee over every run. */
module RxSafety {
  import opened Wire
  import opened RxModel

  /** Eight zero keys, then every key accepted so far: what the ring has seen. */
  function History(node: Node, events: seq<Event>): seq<u64> {
    NoKeys() + AcceptedKeys(node, events)
  }

  function LastKeys(keys: seq<u64>): seq<u64>
    requires |keys| >= SEEN_N
  {
    keys[|keys| - SEEN_N..]
  }

  /** From its index on, the ring holds the last eight keys, oldest first. */
  predicate RingHolds(seen: seq<u64>, idx: nat, keys: seq<u64>) {
    && |seen| == SEEN_N && idx < SEEN_N && |keys| >= SEEN_N
    && seen[idx..] + seen[..idx] == LastKeys(keys)
  }

  lemma RingTurns(seen: seq<u64>, idx: nat, keys: seq<u64>, key: u64)
    requires RingHolds(seen, idx, keys)
    ensures RingHolds(seen[idx := key], (idx + 1) % SEEN_N, keys + [key])
  {
    var after, next := seen[idx := key], (idx + 1) % SEEN_N;
    assert LastKeys(keys + [key]) == LastKeys(keys)[1..] + [key];
    assert (seen[idx..] + seen[..idx])[1..] == seen[idx + 1..] + seen[..idx];
    if idx + 1 < SEEN_N {
      assert after[next..] + after[..next] == seen[idx + 1..] + seen[..idx] + [key];
    } else {
      assert after[next..] + after[..next] == seen[..idx] + [key];
    }
  }

  lemma RingStep(node: Node, s: Rx, e: Event, keys: seq<u64>)
    requires Shaped(s) && RingHolds(s.seen, s.seenIdx, keys)
    ensures var t := Step(node, s, e);
            RingHolds(t.seen, t.seenIdx, keys + NewKey(node, s, e))
  {
    if NewKey(node, s, e) != [] {
      RingTurns(s.seen, s.seenIdx, keys, Key(e.raw.header));
    } else {
      assert keys + [] == keys;
    }
  }

  lemma {:induction false} RingIsHistory(node: Node, events: seq<Event>)
    ensures RingHolds(Run(node, events).seen, Run(node, events).seenIdx, History(node, events))
    decreases |events|
  {
    if events == [] {
      assert NoKeys()[0..] + NoKeys()[..0] == LastKeys(NoKeys() + []);
    } else {
      var before, e := events[..|events| - 1], events[|events| - 1];
      RingIsHistory(node, before);
      RingStep(node, Run(node, before), e, History(node, before));
      assert History(node, events) == History(node, before) + NewKey(node, Run(node, before), e);
    }
  }

  /** What one more event adds to a run. */
  lemma Extend(node: Node, events: seq<Event>, e: Event)
    ensures Run(node, events + [e]) == Step(node, Run(node, events), e)
    ensures AcceptedKeys(node, events + [e]) == AcceptedKeys(node, events) + NewKey(node, Run(node, events), e)
    ensures Queued(node, events + [e]) == Queued(node, events) + NewPacket(node, Run(node, events), e)
  {
    assert (events + [e])[..|events|] == events;
  }

  /** Dedupe window: over any arrivals, a key is taken for a duplicate exactly when it
      is one of the last eight accepted - counting eight zeros before the first, so
      that the key 0 is refused until eight others have come. */
  lemma DedupeWindow(node: Node, events: seq<Event>, key: u64)
    ensures key in Run(node, events).seen <==> key in LastKeys(History(node, events))
  {
    var s := Run(node, events);
    RingIsHistory(node, events);
    assert key in s.seen <==> key in s.seen[s.seenIdx..] + s.seen[..s.seenIdx] by {
      assert s.seen == s.seen[..s.seenIdx] + s.seen[s.seenIdx..];
    }
  }

  predicate Apart(keys: seq<u64>) {
    forall i, j :: 0 <= i < j < |keys| && j - i <= SEEN_N ==> keys[i] != keys[j]
  }

  /** So any nine consecutive accepted keys are pairwise distinct. */
  lemma {:induction false} NineAreDistinct(node: Node, events: seq<Event>)
    ensures Apart(AcceptedKeys(node, events))
    decreases |events|
  {
    if events != [] {
      var before, e := events[..|events| - 1], events[|events| - 1];
      var keys := AcceptedKeys(node, before);
      NineAreDistinct(node, before);
      if e.Arrive? && Accepts(node, Run(node, before), e.raw) {
        var key := Key(e.raw.header);
        var all := History(node, before);
        DedupeWindow(node, before, key);
        forall i | 0 <= i < |keys| && |keys| - i <= SEEN_N ensures keys[i] != key {
          assert all[SEEN_N + i] == keys[i];
          assert LastKeys(all)[SEEN_N + i - |keys|] == keys[i];
        }
      }
    }
  }

  // ---- delivery -------------------------------------------------------------------------

  lemma FifoStep(node: Node, s: Rx, e: Event)
    requires Shaped(s)
    ensures NewPoll(s, e) + Step(node, s, e).queue == s.queue + NewPacket(node, s, e)
  {
    if e.DoPoll? && s.queue != [] {
      assert s.queue == [s.queue[0]] + s.queue[1..];
    }
  }

  lemma Chain(polled: seq<Packet>, poll: seq<Packet>, after: seq<Packet>, waiting: seq<Packet>,
              queued: seq<Packet>, packet: seq<Packet>)
    requires polled + waiting == queued && poll + after == waiting + packet
    ensures (polled + poll) + after == queued + packet
  {
    assert (polled + poll) + after == polled + (waiting + packet) == (polled + waiting) + packet;
  }

  /** The packet ring is a FIFO: what has been polled, followed by what waits, is what
      found room, in order; and it never holds more than four. */
  lemma {:induction false} PacketsAreFifo(node: Node, events: seq<Event>)
    ensures Polled(node, events) + Run(node, events).queue == Queued(node, events)
    ensures |Run(node, events).queue| <= RXQ_N
    decreases |events|
  {
    if events != [] {
      var before, e := events[..|events| - 1], events[|events| - 1];
      var s := Run(node, before);
      PacketsAreFifo(node, before);
      FifoStep(node, s, e);
      Chain(Polled(node, before), NewPoll(s, e), Run(node, events).queue, s.queue, Queued(node, before),
            NewPacket(node, s, e));
    }
  }

  function Keys(packets: seq<Packet>): seq<u64> {
    if packets == [] then []
    else Keys(packets[..|packets| - 1]) + [Key(packets[|packets| - 1].header)]
  }

  /** Everything delivered passed the filters: it is on our channel, from someone else,
      to us or to everyone. */
  lemma {:induction false} DeliveredIsForUs(node: Node, events: seq<Event>)
    ensures forall k :: 0 <= k < |Queued(node, events)| ==>
              var h := Queued(node, events)[k].header;
              h.channel == node.channelHash && h.from != node.num && (h.to == node.num || h.to == 0xFFFF_FFFF)
    decreases |events|
  {
    if events != [] {
      DeliveredIsForUs(node, events[..|events| - 1]);
    }
  }

  // ---- a packet dropped for want of room ------------------------------------------------------

  function Polls(n: nat): seq<Event> {
    seq(n, _ => DoPoll)
  }

  lemma {:induction false} PollsForgetNothing(node: Node, events: seq<Event>, n: nat)
    ensures Run(node, events + Polls(n)).seen == Run(node, events).seen
    decreases n
  {
    if n > 0 {
      PollsForgetNothing(node, events, n - 1);
      assert (events + Polls(n))[..|events| + n - 1] == events + Polls(n - 1);
    } else {
      assert events + Polls(0) == events;
    }
  }

  /** A packet that meets a full queue is dropped, yet its key is remembered: its
      retransmission is refused as a duplicate, even when the application has made
      room by then. */
  lemma DroppedIsNotRetried(node: Node, events: seq<Event>, raw: Raw, n: nat)
    requires Accepts(node, Run(node, events), raw) && |Run(node, events).queue| == RXQ_N
    ensures var after := events + [Arrive(raw)];
            && Run(node, after).queue == Run(node, events).queue
            && !Accepts(node, Run(node, after + Polls(n)), raw)
  {
    var after := events + [Arrive(raw)];
    var s := Run(node, events);
    Extend(node, events, Arrive(raw));
    assert Run(node, after).seen[s.seenIdx] == Key(raw.header);
    PollsForgetNothing(node, after, n);
  }

  // ---- nine in a row is a property of acceptance, not of delivery ------------------------

  function Heard(id: u32): Raw {
    Raw(Header(BROADCAST, 1, id, 7), Some([]))
  }

  /** Packets 1..n from one sender. */
  function Burst(n: nat): (events: seq<Event>)
    requires n < 100
    ensures |events| == n
  {
    seq(n, i requires 0 <= i < n => Arrive(Heard(i + 1)))
  }

  const LISTENER := Node(2, 7)

  function BurstKeys(n: nat): (keys: seq<u64>)
    requires n < 100
    ensures |keys| == n
  {
    seq(n, i requires 0 <= i < n => Key(Heard(i + 1).header))
  }

  function BurstPackets(n: nat): (packets: seq<Packet>)
    requires n < 100
    ensures |packets| == n
  {
    seq(n, i requires 0 <= i < n => Packet(Heard(i + 1).header, []))
  }

  lemma NextIsNew(n: nat)
    requires 0 < n < 100 && AcceptedKeys(LISTENER, Burst(n - 1)) == BurstKeys(n - 1)
    ensures Accepts(LISTENER, Run(LISTENER, Burst(n - 1)), Heard(n))
  {
    var key := Key(Heard(n).header);
    DedupeWindow(LISTENER, Burst(n - 1), key);
    assert key !in NoKeys() && key !in BurstKeys(n - 1);
    var all := History(LISTENER, Burst(n - 1));
    forall i | 0 <= i < |all| ensures all[i] != key {
      assert i >= SEEN_N ==> all[i] == BurstKeys(n - 1)[i - SEEN_N];
    }
  }

  lemma BurstGrows(n: nat)
    requires 0 < n < 100
    ensures Burst(n) == Burst(n - 1) + [Arrive(Heard(n))]
    ensures BurstKeys(n) == BurstKeys(n - 1) + [Key(Heard(n).header)]
    ensures BurstPackets(n) == BurstPackets(n - 1) + [Packet(Heard(n).header, [])]
  {
  }

  lemma {:induction false} BurstIsAccepted(n: nat)
    requires n < 100
    ensures AcceptedKeys(LISTENER, Burst(n)) == BurstKeys(n)
    ensures |Run(LISTENER, Burst(n)).queue| == Min(n, RXQ_N)
    ensures Queued(LISTENER, Burst(n)) == BurstPackets(Min(n, RXQ_N))
    decreases n
  {
    if n > 0 {
      BurstIsAccepted(n - 1);
      NextIsNew(n);
      BurstGrows(n);
      Extend(LISTENER, Burst(n - 1), Arrive(Heard(n)));
    }
  }

  /** Nine packets arrive while nobody polls: four are queued and five dropped. One is
      polled, and the first packet is heard again. Its key has left the window, so it
      is delivered twice, with three others in between. */
  lemma DeliveryMayRepeatSooner()
    ensures var events := Burst(9) + [DoPoll] + [Arrive(Heard(1))];
            var keys := Keys(Queued(LISTENER, events));
            |keys| == 5 && keys[0] == keys[4]
  {
    var burst := Burst(9);
    var after := burst + [DoPoll];
    BurstIsAccepted(9);
    Extend(LISTENER, burst, DoPoll);
    Extend(LISTENER, after, Arrive(Heard(1)));
    DedupeWindow(LISTENER, after, Key(Heard(1).header));
    var last := LastKeys(NoKeys() + BurstKeys(9));
    assert forall i :: 0 <= i < 8 ==> last[i] == Key(Heard(i + 2).header);
    assert Accepts(LISTENER, Run(LISTENER, after), Heard(1));
    var queued := Queued(LISTENER, after + [Arrive(Heard(1))]);
    assert queued == BurstPackets(4) + [Packet(Heard(1).header, [])];
    KeysAt(queued);
  }

  lemma {:induction false} KeysAt(packets: seq<Packet>)
    ensures |Keys(packets)| == |packets|
    ensures forall k :: 0 <= k < |packets| ==> Keys(packets)[k] == Key(packets[k].header)
    decreases |packets|
  {
    if packets != [] {
      KeysAt(packets[..|packets| - 1]);
    }
  }
}
