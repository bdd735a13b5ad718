/** What one frame, a seed or a request does to a pull client, as functions on its
    whole state (clients/node/lib/chunk.js). */
module PullModel {
  import opened Wire
  import opened IdSets
  import Codec = PullCodec

  const SIZE: nat := Codec.CHUNK_DATA_MAX

  /** `buf` and `have` are empty where the program has null. */
  datatype Client = Client(
    pid: u16, length: u32, count: u16, crc: u32, ptype: byte,
    haveManifest: bool, gone: bool, buf: bytes, have: set<u16>, busyUntil: int)

  const FRESH := Client(0, 0, 0, 0, 0, false, false, [], {}, 0)

  predicate Complete(c: Client) {
    c.haveManifest && c.count > 0 && |c.have| == c.count
  }

  predicate Verified(crc32: Checksum, c: Client) {
    Complete(c) && crc32(c.buf) == c.crc
  }

  function Zeros(n: nat): bytes {
    seq(n, _ => 0)
  }

  /** `buf` with `data` copied over it from `at` on. */
  function Overlay(buf: bytes, at: nat, data: bytes): bytes
    requires at + |data| <= |buf|
  {
    buf[..at] + data + buf[at + |data|..]
  }

  lemma OverlayGrows(buf: bytes, at: nat, data: bytes, k: nat)
    requires at + |data| <= |buf| && k < |data|
    ensures Overlay(buf, at, data[..k])[at + k := data[k]] == Overlay(buf, at, data[..k + 1])
  {
  }

  function OnFrame(c: Client, frame: Option<Codec.Frame>, now: int): Client {
    if frame.None? then c
    else match frame.value
      case Busy(pid, retryAfterMs) => if pid == c.pid then c.(busyUntil := now + retryAfterMs) else c
      case Manifest(pid, ptype, length, count, crc) =>
        if c.haveManifest && pid == c.pid && length == c.length && count == c.count then c
        else Client(pid, length, count, crc, ptype, true, false, Zeros(length), {}, c.busyUntil)
      case Chunk(pid, index, count, data) =>
        if !c.haveManifest || pid != c.pid || count != c.count || index >= c.count then c
        else if index * SIZE + |data| > |c.buf| then c
        else c.(buf := Overlay(c.buf, index * SIZE, data), have := c.have + {index})
      case Err(_, code) => if code == Codec.ERR_GONE then c.(gone := true) else c
      case Other(_) => c
  }

  /** Installing a saved partial: its bytes replace the whole buffer, its claims are
      added. */
  function Seed(c: Client, buf: bytes, have: set<nat>): Client {
    c.(buf := if |buf| == |c.buf| then buf else c.buf,
       have := c.have + set i: u16 | i in have && i < c.count)
  }

  // ---- asking for the next run ----------------------------------------------------

  /** The first identifier from `from` on that is not held, or `count`. */
  function FirstGap(have: set<u16>, from: nat, count: u16): (first: nat)
    requires from <= count
    ensures from <= first <= count
    decreases count - from
  {
    if from == count || from !in have then from else FirstGap(have, from + 1, count)
  }

  lemma {:induction false} FirstGapIsGap(have: set<u16>, from: nat, count: u16)
    requires from <= count
    ensures var first := FirstGap(have, from, count);
            && (first < count ==> first !in have)
            && (forall i: u16 :: from <= i < first ==> i in have)
    decreases count - from
  {
    if from < count && from in have {
      FirstGapIsGap(have, from + 1, count);
    }
  }

  /** How many identifiers in a row are missing from `first` on, counting no further
      than `limit`. */
  function GapLength(have: set<u16>, first: nat, count: u16, limit: int): (n: nat)
    requires first <= count
    ensures first + n <= count && (limit >= 0 ==> n <= limit)
    decreases count - first
  {
    if first == count || limit <= 0 || first in have then 0
    else 1 + GapLength(have, first + 1, count, limit - 1)
  }

  /** The pull that requestNext sends, if anything is outstanding. */
  function NextPull(c: Client, batch: int): Option<Codec.Pull> {
    var first := FirstGap(c.have, 0, c.count);
    if !c.haveManifest || c.gone || first == c.count then None
    else
      var n := GapLength(c.have, first, c.count, batch);
      Some(Codec.ReadPull(Codec.EncodePull(c.pid, first, n)))
  }

  // ---- runs -----------------------------------------------------------------------

  /** Anything the radio can deliver, at any time. */
  datatype Arrival = Arrival(frame: Option<Codec.Frame>, at: int)

  function Run(c: Client, arrivals: seq<Arrival>): Client
    decreases |arrivals|
  {
    if arrivals == [] then c else Run(OnFrame(c, arrivals[0].frame, arrivals[0].at), arrivals[1..])
  }

  lemma {:induction false} RunAppend(c: Client, arrivals: seq<Arrival>, more: seq<Arrival>)
    ensures Run(c, arrivals + more) == Run(Run(c, arrivals), more)
    decreases |arrivals|
  {
    if arrivals == [] {
      assert arrivals + more == more;
    } else {
      assert (arrivals + more)[1..] == arrivals[1..] + more;
      RunAppend(OnFrame(c, arrivals[0].frame, arrivals[0].at), arrivals[1..], more);
    }
  }
}
