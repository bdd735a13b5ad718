/** The receive side of the radio driver (src/MeshtasticTransport.cpp): the filters,
    the dedupe ring of eight keys and the ring of four packets the application polls. */
module RxModel {
  import opened Wire

  const SEEN_N: nat := 8
  const RXQ_N: nat := 4
  const BROADCAST: u32 := 0xFFFF_FFFF

  type u64 = x: int | 0 <= x < 0x1_0000_0000_0000_0000

  datatype Node = Node(num: u32, channelHash: byte)
  datatype Header = Header(to: u32, from: u32, id: u32, channel: byte)
  datatype Packet = Packet(header: Header, payload: bytes)

  /** A received frame once it is off the radio: `payload` is None if the decryption
      or the protobuf decoder rejected it. */
  datatype Raw = Raw(header: Header, payload: Option<bytes>)

  datatype Rx = Rx(seen: seq<u64>, seenIdx: nat, queue: seq<Packet>)

  function NoKeys(): seq<u64> {
    seq(SEEN_N, _ => 0)
  }

  function Initial(): Rx {
    Rx(NoKeys(), 0, [])
  }

  function Key(h: Header): u64 {
    h.from as int * 0x1_0000_0000 + h.id
  }

  predicate Shaped(s: Rx) {
    |s.seen| == SEEN_N && s.seenIdx < SEEN_N && |s.queue| <= RXQ_N
  }

  predicate ForUs(node: Node, h: Header) {
    h.channel == node.channelHash && h.from != node.num && (h.to == node.num || h.to == BROADCAST)
  }

  /** The frame passes every filter and is not in the dedupe ring. */
  predicate Accepts(node: Node, s: Rx, raw: Raw) {
    ForUs(node, raw.header) && raw.payload.Some? && Key(raw.header) !in s.seen
  }

  function Remember(s: Rx, key: u64): Rx
    requires Shaped(s)
  {
    s.(seen := s.seen[s.seenIdx := key], seenIdx := (s.seenIdx + 1) % SEEN_N)
  }

  /** A full queue drops the new packet, not an older one. */
  function Push(s: Rx, p: Packet): Rx {
    if |s.queue| >= RXQ_N then s else s.(queue := s.queue + [p])
  }

  function Receive(node: Node, s: Rx, raw: Raw): Rx
    requires Shaped(s)
  {
    if !Accepts(node, s, raw) then s
    else Push(Remember(s, Key(raw.header)), Packet(raw.header, raw.payload.value))
  }

  function Poll(s: Rx): Rx {
    if s.queue == [] then s else s.(queue := s.queue[1..])
  }

  // ---- runs -------------------------------------------------------------------------

  datatype Event = Arrive(raw: Raw) | DoPoll

  function Step(node: Node, s: Rx, e: Event): (t: Rx)
    requires Shaped(s)
    ensures Shaped(t)
  {
    match e
    case Arrive(raw) => Receive(node, s, raw)
    case DoPoll => Poll(s)
  }

  function Run(node: Node, events: seq<Event>): (s: Rx)
    ensures Shaped(s)
  {
    if events == [] then Initial()
    else Step(node, Run(node, events[..|events| - 1]), events[|events| - 1])
  }

  /** The key an event adds to those accepted, if any. */
  function NewKey(node: Node, s: Rx, e: Event): seq<u64> {
    if e.Arrive? && Accepts(node, s, e.raw) then [Key(e.raw.header)] else []
  }

  /** The packet an event puts into the queue, if there is one and there is room. */
  function NewPacket(node: Node, s: Rx, e: Event): seq<Packet> {
    if e.Arrive? && Accepts(node, s, e.raw) && |s.queue| < RXQ_N
    then [Packet(e.raw.header, e.raw.payload.value)] else []
  }

  /** The packet an event hands to the application, if any. */
  function NewPoll(s: Rx, e: Event): seq<Packet> {
    if e.DoPoll? && s.queue != [] then [s.queue[0]] else []
  }

  /** The keys accepted in a run, in order. */
  function AcceptedKeys(node: Node, events: seq<Event>): seq<u64> {
    if events == [] then []
    else
      var before, e := events[..|events| - 1], events[|events| - 1];
      AcceptedKeys(node, before) + NewKey(node, Run(node, before), e)
  }

  /** The packets that found room in the queue, in order. */
  function Queued(node: Node, events: seq<Event>): seq<Packet> {
    if events == [] then []
    else
      var before, e := events[..|events| - 1], events[|events| - 1];
      Queued(node, before) + NewPacket(node, Run(node, before), e)
  }

  /** The packets polled in a run, in order. */
  function Polled(node: Node, events: seq<Event>): seq<Packet> {
    if events == [] then []
    else
      var before, e := events[..|events| - 1], events[|events| - 1];
      Polled(node, before) + NewPoll(Run(node, before), e)
  }
}
