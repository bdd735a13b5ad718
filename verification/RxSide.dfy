/** The receive side with its two rings updated in place
    (src/MeshtasticTransport.cpp). */
module RxSide {
  import opened Wire
  import M = RxModel

  /** A ring read from `head` on. */
  function Unrolled(ring: seq<M.Packet>, head: nat): seq<M.Packet>
    requires head <= |ring|
  {
    ring[head..] + ring[..head]
  }

  lemma UnrolledAdd(ring: seq<M.Packet>, head: nat, n: nat, p: M.Packet)
    requires |ring| == M.RXQ_N && head < M.RXQ_N && n < M.RXQ_N
    ensures Unrolled(ring[(head + n) % M.RXQ_N := p], head)[..n + 1] == Unrolled(ring, head)[..n] + [p]
  {
    var after := Unrolled(ring[(head + n) % M.RXQ_N := p], head);
    forall i | 0 <= i < n ensures after[i] == Unrolled(ring, head)[i] {
    }
    assert after[n] == p;
  }

  lemma UnrolledDrop(ring: seq<M.Packet>, head: nat, n: nat)
    requires |ring| == M.RXQ_N && head < M.RXQ_N && 0 < n <= M.RXQ_N
    ensures Unrolled(ring, (head + 1) % M.RXQ_N)[..n - 1] == Unrolled(ring, head)[..n][1..]
    ensures Unrolled(ring, head)[0] == ring[head]
  {
    assert Unrolled(ring, (head + 1) % M.RXQ_N) == Unrolled(ring, head)[1..] + [ring[head]];
  }

  class RxSide {
    const node: M.Node
    const seen: array<M.u64>
    var seenIdx: nat
    const rxq: array<M.Packet>
    var rxqHead: nat
    var rxqCount: nat

    ghost predicate Valid()
      reads this
    {
      && seen.Length == M.SEEN_N && seenIdx < M.SEEN_N
      && rxq.Length == M.RXQ_N && rxqHead < M.RXQ_N && rxqCount <= M.RXQ_N
    }

    /** The packets waiting, oldest first. */
    ghost function Waiting(n: nat): (q: seq<M.Packet>)
      requires Valid() && n <= M.RXQ_N
      reads this, rxq
      ensures |q| == n
    {
      Unrolled(rxq[..], rxqHead)[..n]
    }

    ghost function State(): M.Rx
      requires Valid()
      reads this, seen, rxq
    {
      M.Rx(seen[..], seenIdx, Waiting(rxqCount))
    }

    constructor (node: M.Node)
      ensures Valid() && State() == M.Initial() && this.node == node && fresh(seen) && fresh(rxq)
    {
      this.node := node;
      seen := new M.u64[M.SEEN_N](_ => 0);
      rxq := new M.Packet[M.RXQ_N](_ => M.Packet(M.Header(0, 0, 0, 0), []));
      seenIdx, rxqHead, rxqCount := 0, 0, 0;
      new;
      assert seen[..] == M.NoKeys();
    }

    method IsDuplicate(key: M.u64) returns (dup: bool)
      requires Valid()
      modifies this`seenIdx, seen
      ensures Valid() && dup == (key in old(seen[..]))
      ensures State() == if dup then old(State()) else M.Remember(old(State()), key)
    {
      for i := 0 to seen.Length
        invariant key !in seen[..i]
      {
        if seen[i] == key {
          return true;
        }
      }
      assert seen[..seen.Length] == seen[..];
      seen[seenIdx] := key;
      seenIdx := (seenIdx + 1) % M.SEEN_N;
      return false;
    }

    method PushRx(p: M.Packet) returns (ok: bool)
      requires Valid()
      modifies this`rxqCount, rxq
      ensures Valid() && ok == (old(rxqCount) < M.RXQ_N)
      ensures State() == M.Push(old(State()), p)
    {
      if rxqCount >= M.RXQ_N {
        return false;
      }
      var tail := (rxqHead + rxqCount) % M.RXQ_N;
      UnrolledAdd(rxq[..], rxqHead, rxqCount, p);
      rxq[tail] := p;
      assert rxq[..] == old(rxq[..])[tail := p];
      rxqCount := rxqCount + 1;
      return true;
    }

    method HandleRxDone(raw: M.Raw)
      requires Valid()
      modifies this, seen, rxq
      ensures Valid() && State() == M.Receive(node, old(State()), raw)
    {
      var h := raw.header;
      if h.channel != node.channelHash {
        return;
      }
      if h.from == node.num {
        return;
      }
      if h.to != node.num && h.to != M.BROADCAST {
        return;
      }
      if raw.payload.None? {
        return;
      }
      var dup := IsDuplicate(M.Key(h));
      if dup {
        return;
      }
      var ok := PushRx(M.Packet(h, raw.payload.value));
    }

    method Poll() returns (out: Option<M.Packet>)
      requires Valid()
      modifies this`rxqHead, this`rxqCount
      ensures Valid() && State() == M.Poll(old(State()))
      ensures out == if old(State()).queue == [] then None else Some(old(State()).queue[0])
    {
      if rxqCount == 0 {
        return None;
      }
      UnrolledDrop(rxq[..], rxqHead, rxqCount);
      out := Some(rxq[rxqHead]);
      rxqHead := (rxqHead + 1) % M.RXQ_N;
      rxqCount := rxqCount - 1;
    }
  }
}
