/** The pull protocol's frames (clients/node/lib/chunk.js), and the frames a device
    answers with, as clients/node/test/offline-fetch.js builds them. */
module PullCodec {
  import opened Wire

  const CHUNK_HEADER_LEN: nat := 7
  const CHUNK_DATA_MAX: nat := 231 - CHUNK_HEADER_LEN
  const PULL_BATCH_MAX: nat := 16

  const MSG_CHUNK: byte := 0x01
  const MSG_PULL: byte := 0x02
  const MSG_MANIFEST: byte := 0x03
  const MSG_ERR: byte := 0x04
  const MSG_BUSY: byte := 0x06
  const ERR_GONE: byte := 1

  datatype Frame =
    | Manifest(pid: u16, ptype: byte, length: u32, count: u16, crc: u32)
    | Chunk(pid: u16, index: u16, count: u16, data: bytes)
    | Err(pid: u16, code: byte)
    | Busy(pid: u16, retryAfterMs: u16)
    | Other(kind: byte)

  function Decode(b: bytes): Option<Frame> {
    if |b| < 1 then None
    else if b[0] == MSG_MANIFEST then
      if |b| < 14 then None
      else Some(Manifest(Get16(b, 1), b[3], Get32(b, 4), Get16(b, 8), Get32(b, 10)))
    else if b[0] == MSG_CHUNK then
      if |b| < CHUNK_HEADER_LEN then None
      else Some(Chunk(Get16(b, 1), Get16(b, 3), Get16(b, 5), b[CHUNK_HEADER_LEN..]))
    else if b[0] == MSG_ERR then
      if |b| < 4 then None else Some(Err(Get16(b, 1), b[3]))
    else if b[0] == MSG_BUSY then
      if |b| < 5 then None else Some(Busy(Get16(b, 1), Get16(b, 3)))
    else Some(Other(b[0]))
  }

  /** How many chunks a pull really asks for: encodePull clamps to 1..16. */
  function PullCount(count: int): (n: byte) {
    if count < 1 then 1 else if count > PULL_BATCH_MAX then PULL_BATCH_MAX else count
  }

  function EncodePull(pid: u16, first: u16, count: int): bytes {
    [MSG_PULL] + Put16(pid) + Put16(first) + [PullCount(count)]
  }

  /** What the fetch loop reads back out of a pull frame to phrase the command. */
  datatype Pull = Pull(pid: u16, first: u16, count: byte)

  function ReadPull(b: bytes): Pull
    requires |b| == 6
  {
    Pull(Get16(b, 1), Get16(b, 3), b[5])
  }

  /** The command carries the pull unchanged, except that the count is clamped. */
  lemma PullRoundTrip(pid: u16, first: u16, count: int)
    ensures |EncodePull(pid, first, count)| == 6
    ensures ReadPull(EncodePull(pid, first, count)) == Pull(pid, first, PullCount(count))
    ensures PullCount(count) == count <==> 1 <= count <= PULL_BATCH_MAX
  {
  }

  // ---- the device's frames ------------------------------------------------------

  function EncodeManifest(pid: u16, ptype: byte, length: u32, count: u16, crc: u32): bytes {
    [MSG_MANIFEST] + Put16(pid) + [ptype] + Put32(length) + Put16(count) + Put32(crc)
  }

  function EncodeChunk(pid: u16, index: u16, count: u16, data: bytes): bytes {
    [MSG_CHUNK] + Put16(pid) + Put16(index) + Put16(count) + data
  }

  function EncodeBusy(pid: u16, retryAfterMs: u16): bytes {
    [MSG_BUSY] + Put16(pid) + Put16(retryAfterMs)
  }

  /** Everything a device sends is read back as it was meant. */
  lemma DeviceFramesRoundTrip(pid: u16, ptype: byte, length: u32, index: u16, count: u16, crc: u32,
                              data: bytes, retryAfterMs: u16)
    ensures Decode(EncodeManifest(pid, ptype, length, count, crc))
            == Some(Manifest(pid, ptype, length, count, crc))
    ensures Decode(EncodeChunk(pid, index, count, data)) == Some(Chunk(pid, index, count, data))
    ensures Decode(EncodeBusy(pid, retryAfterMs)) == Some(Busy(pid, retryAfterMs))
  {
    var m := EncodeManifest(pid, ptype, length, count, crc);
    assert m[4..8] == Put32(length) && m[10..14] == Put32(crc);
    Get32OfPut32(m, 4, length);
    Get32OfPut32(m, 10, crc);
    assert EncodeChunk(pid, index, count, data)[CHUNK_HEADER_LEN..] == data;
  }
}
