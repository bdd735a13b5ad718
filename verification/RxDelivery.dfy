/** Exactly which packets reach the application (src/MeshtasticTransport.cpp:335-470), from
    the arrivals and polls alone: no ring, no packed keys. */
module RxDelivery {
  import opened Wire
  import opened RxModel
  import opened RxSafety

  /** Sender and packet identifier. */
  type Pair = (u32, u32)

  /** On our channel, from another node, to us or to all, and readable. */
  predicate Wanted(node: Node, raw: Raw) {
    && raw.header.channel == node.channelHash
    && raw.header.from != node.num
    && (raw.header.to == node.num || raw.header.to == 0xFFFF_FFFF)
    && raw.payload.Some?
  }

  /** Not the pair of one of the last eight packets taken, nor 0 of node 0 while fewer than
      eight have been. */
  predicate Unseen(taken: seq<Pair>, p: Pair) {
    && (forall i :: 0 <= i < |taken| && |taken| - i <= 8 ==> taken[i] != p)
    && (|taken| < 8 ==> p != (0, 0))
  }

  predicate Takes(node: Node, taken: seq<Pair>, raw: Raw) {
    Wanted(node, raw) && Unseen(taken, (raw.header.from, raw.header.id))
  }

  /** The packets taken in a run, in order, whether or not there was room for them. */
  function Taken(node: Node, events: seq<Event>): seq<Pair> {
    if events == [] then []
    else
      var e, taken := events[|events| - 1], Taken(node, events[..|events| - 1]);
      if e.Arrive? && Takes(node, taken, e.raw) then taken + [(e.raw.header.from, e.raw.header.id)] else taken
  }

  /** The packets that wait after a run: a poll takes the oldest, and a packet taken waits if
      fewer than four do. */
  function Waiting(node: Node, events: seq<Event>): seq<Packet> {
    if events == [] then []
    else
      var before, e := events[..|events| - 1], events[|events| - 1];
      var q := Waiting(node, before);
      match e
      case DoPoll => if q == [] then [] else q[1..]
      case Arrive(raw) =>
        if Takes(node, Taken(node, before), raw) && |q| < 4 then q + [Packet(raw.header, raw.payload.value)] else q
  }

  // ---- pairs and packed keys ----------------------------------------------------------------

  function Packed(p: Pair): u64 {
    p.0 as int * 0x1_0000_0000 + p.1
  }

  function AllPacked(pairs: seq<Pair>): (keys: seq<u64>)
    ensures |keys| == |pairs|
    ensures forall i :: 0 <= i < |keys| ==> keys[i] == Packed(pairs[i])
  {
    seq(|pairs|, i requires 0 <= i < |pairs| => Packed(pairs[i]))
  }

  lemma PackedIsInjective(p: Pair, q: Pair)
    ensures Packed(p) == Packed(q) <==> p == q
  {
    DivModUnique(Packed(p), 0x1_0000_0000, p.0, p.1);
    DivModUnique(Packed(q), 0x1_0000_0000, q.0, q.1);
  }

  lemma UnseenIs(taken: seq<Pair>, p: Pair)
    ensures Unseen(taken, p) <==> Packed(p) !in LastKeys(NoKeys() + AllPacked(taken))
  {
    var all, key := NoKeys() + AllPacked(taken), Packed(p);
    var last := LastKeys(all);
    PackedIsInjective(p, (0, 0));
    forall i | 0 <= i < |taken| ensures AllPacked(taken)[i] == key <==> taken[i] == p {
      PackedIsInjective(taken[i], p);
    }
    if key in last {
      var j :| 0 <= j < 8 && last[j] == key;
      assert all[|all| - 8 + j] == key;
      if |taken| + j >= 8 {
        assert AllPacked(taken)[|taken| - 8 + j] == key;
      }
    }
    if !Unseen(taken, p) {
      if i :| 0 <= i < |taken| && |taken| - i <= 8 && taken[i] == p {
        assert last[8 + i - |taken|] == all[8 + i] == key;
      } else {
        assert last[0] == all[|taken|] == key;
      }
    }
  }

  lemma StepTakes(node: Node, s: Rx, taken: seq<Pair>, e: Event)
    requires Shaped(s) && forall key :: key in s.seen <==> key in LastKeys(NoKeys() + AllPacked(taken))
    ensures e.Arrive? ==> (Accepts(node, s, e.raw) <==> Takes(node, taken, e.raw))
  {
    if e.Arrive? {
      UnseenIs(taken, (e.raw.header.from, e.raw.header.id));
    }
  }

  lemma TakenGrows(taken: seq<Pair>, p: Pair)
    ensures AllPacked(taken + [p]) == AllPacked(taken) + [Packed(p)]
  {
  }

  lemma {:induction false} RunDelivers(node: Node, events: seq<Event>)
    ensures AcceptedKeys(node, events) == AllPacked(Taken(node, events))
    ensures Run(node, events).queue == Waiting(node, events)
    decreases |events|
  {
    if events != [] {
      var before, e := events[..|events| - 1], events[|events| - 1];
      var s, taken := Run(node, before), Taken(node, before);
      RunDelivers(node, before);
      forall key ensures key in s.seen <==> key in LastKeys(NoKeys() + AllPacked(taken)) {
        DedupeWindow(node, before, key);
      }
      StepTakes(node, s, taken, e);
      if e.Arrive? {
        TakenGrows(taken, (e.raw.header.from, e.raw.header.id));
      }
    }
  }

  /** Exactly what waits for the application after any run, and what one more arrival does: it
      is taken if and only if it is on our channel, from another node, addressed to us or to
      all, decoded, and not the pair of one of the last eight taken - pair (0, 0) counting as
      seen until eight have been. It is then appended to the packets waiting if and only if
      fewer than four wait, and nothing else changes them. */
  lemma DeliversExactly(node: Node, events: seq<Event>, raw: Raw)
    ensures var q, after := Run(node, events).queue, Run(node, events + [Arrive(raw)]).queue;
            && q == Waiting(node, events)
            && after == if Takes(node, Taken(node, events), raw) && |q| < 4
                        then q + [Packet(raw.header, raw.payload.value)] else q
  {
    RunDelivers(node, events);
    RunDelivers(node, events + [Arrive(raw)]);
    assert (events + [Arrive(raw)])[..|events|] == events;
  }
}
