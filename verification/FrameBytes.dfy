/** The frames of both protocols byte by byte, as the wire formats at the head of
    clients/node/lib/chunk-push.js and clients/node/lib/chunk.js give them: big-endian, the
    type first. */
module FrameBytes {
  import opened Wire
  import Push = PushCodec
  import Pull = PullCodec

  // ---- what the push encoders write ----------------------------------------------------------

  /** The frame of every push message, spelled out. */
  function PushFrame(m: Push.Message): seq<int> {
    match m
    case Start(pid) => [0x10, pid / 256, pid % 256]
    case Manifest(pid, ptype, length, count, crc) =>
      [0x11, pid / 256, pid % 256, ptype,
       length / 16777216, length / 65536 % 256, length / 256 % 256, length % 256,
       count / 256, count % 256,
       crc / 16777216, crc / 65536 % 256, crc / 256 % 256, crc % 256]
    case Chunk(pid, index, data) => [0x12, pid / 256, pid % 256, index / 256, index % 256] + data
    case ProgressQ(pid) => [0x13, pid / 256, pid % 256]
    case Progress(pid, cursor, done) =>
      [0x14, pid / 256, pid % 256, cursor / 256, cursor % 256, if done then 1 else 0]
    case Repair(pid, ids) => [0x15, pid / 256, pid % 256, |ids|] + Pairs(ids)
    case Complete(pid, crc) =>
      [0x16, pid / 256, pid % 256, crc / 16777216, crc / 65536 % 256, crc / 256 % 256, crc % 256]
  }

  /** High byte, low byte, one identifier after the other. */
  function Pairs(ids: seq<u16>): (b: seq<int>)
    ensures |b| == 2 * |ids|
    ensures forall k :: 0 <= k < |ids| ==> b[2 * k] == ids[k] / 256 && b[2 * k + 1] == ids[k] % 256
  {
    if ids == [] then [] else Pairs(ids[..|ids| - 1]) + [ids[|ids| - 1] / 256, ids[|ids| - 1] % 256]
  }

  lemma FourBytes(x: u32)
    ensures Put32(x) == [x / 16777216, x / 65536 % 256, x / 256 % 256, x % 256]
  {
    var hi, lo := x / 65536, x % 65536;
    assert x == hi * 65536 + lo;
    DivModUnique(x, 16777216, hi / 256, hi % 256 * 65536 + lo);
    DivModUnique(x, 256, hi * 256 + lo / 256, lo % 256);
    DivModUnique(hi * 256 + lo / 256, 256, hi, lo / 256);
  }

  lemma {:induction false} IdBytes(ids: seq<u16>)
    ensures Push.EncodeIds(ids) == Pairs(ids)
    decreases |ids|
  {
    if ids != [] {
      IdBytes(ids[..|ids| - 1]);
    }
  }

  lemma RepairBytes(pid: u16, ids: seq<u16>)
    ensures var e := Push.Encode(Push.Repair(pid, ids));
            && (e.Some? <==> 1 <= |ids| <= 113)
            && (e.Some? ==> e.value == PushFrame(Push.Repair(pid, ids)))
  {
    IdBytes(ids);
  }

  lemma PushManifestBytes(m: Push.Message)
    requires m.Manifest?
    ensures Push.Encode(m).Some? && Push.Encode(m).value == PushFrame(m)
  {
    FourBytes(m.length);
    FourBytes(m.crc);
  }

  /** The encoders write exactly these bytes. They refuse a chunk of more than 226 bytes and a
      repair list that is empty or longer than 113, and nothing else. */
  lemma PushEncodes(m: Push.Message)
    ensures Push.Encode(m).Some? <==> (m.Chunk? ==> |m.data| <= 226) && (m.Repair? ==> 1 <= |m.ids| <= 113)
    ensures Push.Encode(m).Some? ==> Push.Encode(m).value == PushFrame(m)
  {
    match m
    case Manifest(_, _, _, _, _) => PushManifestBytes(m);
    case Complete(_, crc) => FourBytes(crc);
    case Repair(pid, ids) => RepairBytes(pid, ids);
    case _ =>
  }

  // ---- what the push decoder accepts -----------------------------------------------------------

  /** By type and length; of a repair frame also by its count. */
  predicate PushAccepts(b: bytes) {
    && |b| >= 1
    && match b[0]
       case 0x10 => |b| >= 3
       case 0x11 => |b| >= 14
       case 0x12 => 6 <= |b| <= 231
       case 0x13 => |b| >= 3
       case 0x14 => |b| >= 6
       case 0x15 => |b| >= 4 && 1 <= b[3] <= 113 && |b| >= 4 + 2 * b[3]
       case 0x16 => |b| >= 7
       case _ => false
  }

  /** The decoder accepts exactly these, and the message it returns has these bytes at the
      front, except for the reserved bits of a progress reply. */
  lemma PushDecodes(b: bytes)
    ensures Push.Decode(b).Some? <==> PushAccepts(b)
    ensures Push.Decode(b).Some? ==>
              var m := Push.Decode(b).value;
              if m.Progress? then PushFrame(m) == b[..5] + [b[5] % 2] else PushFrame(m) <= b
  {
    if Push.Decode(b).Some? {
      Push.Canonical(b);
      PushEncodes(Push.Decode(b).value);
      if b[0] == 0x14 {
        Push.CanonicalProgress(b);
      }
    }
  }

  // ---- the pull protocol ----------------------------------------------------------------------

  function Two(b: bytes, at: nat): int
    requires at + 2 <= |b|
  {
    b[at] as int * 256 + b[at + 1]
  }

  function Four(b: bytes, at: nat): int
    requires at + 4 <= |b|
  {
    b[at] as int * 16777216 + b[at + 1] as int * 65536 + b[at + 2] as int * 256 + b[at + 3]
  }

  /** The pull decoder, field by field: a type it does not know is passed on as such, and only
      a frame that is too short for its type is refused. */
  lemma PullDecodes(b: bytes)
    ensures Pull.Decode(b) ==
            if |b| < 1 then None
            else match b[0]
              case 3 => if |b| < 14 then None
                        else Some(Pull.Manifest(Two(b, 1), b[3], Four(b, 4), Two(b, 8), Four(b, 10)))
              case 1 => if |b| < 7 then None else Some(Pull.Chunk(Two(b, 1), Two(b, 3), Two(b, 5), b[7..]))
              case 4 => if |b| < 4 then None else Some(Pull.Err(Two(b, 1), b[3]))
              case 6 => if |b| < 5 then None else Some(Pull.Busy(Two(b, 1), Two(b, 3)))
              case _ => Some(Pull.Other(b[0]))
  {
  }

  function PullBytes(pid: u16, first: u16, count: int): seq<int> {
    [2, pid / 256, pid % 256, first / 256, first % 256, Max(1, Min(16, count))]
  }

  function ManifestBytes(pid: u16, ptype: byte, length: u32, count: u16, crc: u32): seq<int> {
    [3, pid / 256, pid % 256, ptype,
     length / 16777216, length / 65536 % 256, length / 256 % 256, length % 256,
     count / 256, count % 256,
     crc / 16777216, crc / 65536 % 256, crc / 256 % 256, crc % 256]
  }

  function ChunkBytes(pid: u16, index: u16, count: u16, data: bytes): seq<int> {
    [1, pid / 256, pid % 256, index / 256, index % 256, count / 256, count % 256] + data
  }

  /** And the frames that are sent: the pull with its count clamped to 1..16, and those of the
      device. */
  lemma PullEncodes(pid: u16, ptype: byte, length: u32, index: u16, count: u16, crc: u32, data: bytes, ms: u16,
                    batch: int)
    ensures Pull.EncodePull(pid, index, batch) == PullBytes(pid, index, batch)
    ensures Pull.EncodeManifest(pid, ptype, length, count, crc) == ManifestBytes(pid, ptype, length, count, crc)
    ensures Pull.EncodeChunk(pid, index, count, data) == ChunkBytes(pid, index, count, data)
    ensures Pull.EncodeBusy(pid, ms) == [6, pid / 256, pid % 256, ms / 256, ms % 256]
  {
    FourBytes(length);
    FourBytes(crc);
  }
}
