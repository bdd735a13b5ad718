/** The push protocol's seven frames (clients/node/lib/chunk-push.js): what each
    encoder writes and what the decoder accepts. */
module PushCodec {
  import opened Wire

  const MESH_PAYLOAD_MAX: nat := 231
  const PUSH_CHUNK_HEADER_LEN: nat := 5
  const CHUNK_DATA_MAX: nat := MESH_PAYLOAD_MAX - PUSH_CHUNK_HEADER_LEN
  const REPAIR_HEADER_LEN: nat := 4
  const REPAIR_IDS_MAX: nat := (MESH_PAYLOAD_MAX - REPAIR_HEADER_LEN) / 2

  const MSG_START: byte := 0x10
  const MSG_MANIFEST: byte := 0x11
  const MSG_CHUNK: byte := 0x12
  const MSG_PROGRESS_Q: byte := 0x13
  const MSG_PROGRESS: byte := 0x14
  const MSG_REPAIR: byte := 0x15
  const MSG_COMPLETE: byte := 0x16

  datatype Message =
    | Start(pid: u16)
    | Manifest(pid: u16, ptype: byte, length: u32, count: u16, crc: u32)
    | Chunk(pid: u16, index: u16, data: bytes)
    | ProgressQ(pid: u16)
    | Progress(pid: u16, cursor: u16, done: bool)
    | Repair(pid: u16, ids: seq<u16>)
    | Complete(pid: u16, crc: u32)

  function EncodeIds(ids: seq<u16>): (b: bytes)
    ensures |b| == 2 * |ids|
  {
    if ids == [] then [] else EncodeIds(ids[..|ids| - 1]) + Put16(ids[|ids| - 1])
  }

  /** None is an encoder's refusal: an over-long chunk body, or a repair list that
      is empty or over-long. */
  function Encode(m: Message): Option<bytes> {
    match m
    case Start(pid) => Some([MSG_START] + Put16(pid))
    case Manifest(pid, ptype, length, count, crc) =>
      Some([MSG_MANIFEST] + Put16(pid) + [ptype] + Put32(length) + Put16(count) + Put32(crc))
    case Chunk(pid, index, data) =>
      if |data| > CHUNK_DATA_MAX then None
      else Some([MSG_CHUNK] + Put16(pid) + Put16(index) + data)
    case ProgressQ(pid) => Some([MSG_PROGRESS_Q] + Put16(pid))
    case Progress(pid, cursor, done) =>
      Some([MSG_PROGRESS] + Put16(pid) + Put16(cursor) + [if done then 1 else 0])
    case Repair(pid, ids) =>
      if |ids| == 0 || |ids| > REPAIR_IDS_MAX then None
      else Some([MSG_REPAIR] + Put16(pid) + [|ids|] + EncodeIds(ids))
    case Complete(pid, crc) => Some([MSG_COMPLETE] + Put16(pid) + Put32(crc))
  }

  /** The first n identifiers of a repair body. */
  function DecodeIds(b: bytes, n: nat): (ids: seq<u16>)
    requires REPAIR_HEADER_LEN + 2 * n <= |b|
    ensures |ids| == n
  {
    if n == 0 then [] else DecodeIds(b, n - 1) + [Get16(b, REPAIR_HEADER_LEN + 2 * (n - 1))]
  }

  function Decode(b: bytes): Option<Message> {
    if |b| < 1 then None
    else if b[0] == MSG_START then
      if |b| < 3 then None else Some(Start(Get16(b, 1)))
    else if b[0] == MSG_PROGRESS_Q then
      if |b| < 3 then None else Some(ProgressQ(Get16(b, 1)))
    else if b[0] == MSG_MANIFEST then
      if |b| < 14 then None
      else Some(Manifest(Get16(b, 1), b[3], Get32(b, 4), Get16(b, 8), Get32(b, 10)))
    else if b[0] == MSG_CHUNK then
      if |b| <= PUSH_CHUNK_HEADER_LEN || |b| - PUSH_CHUNK_HEADER_LEN > CHUNK_DATA_MAX then None
      else Some(Chunk(Get16(b, 1), Get16(b, 3), b[PUSH_CHUNK_HEADER_LEN..]))
    else if b[0] == MSG_PROGRESS then
      if |b| < 6 then None else Some(Progress(Get16(b, 1), Get16(b, 3), b[5] % 2 != 0))
    else if b[0] == MSG_REPAIR then
      if |b| < REPAIR_HEADER_LEN || b[3] == 0 || b[3] > REPAIR_IDS_MAX
         || |b| < REPAIR_HEADER_LEN + 2 * b[3] then None
      else Some(Repair(Get16(b, 1), DecodeIds(b, b[3])))
    else if b[0] == MSG_COMPLETE then
      if |b| < 7 then None else Some(Complete(Get16(b, 1), Get32(b, 3)))
    else None
  }

  // ---- decoding an encoding ---------------------------------------------------

  lemma {:induction false} DecodeOfEncodedIds(b: bytes, ids: seq<u16>)
    requires REPAIR_HEADER_LEN + 2 * |ids| <= |b|
    requires b[REPAIR_HEADER_LEN..REPAIR_HEADER_LEN + 2 * |ids|] == EncodeIds(ids)
    ensures DecodeIds(b, |ids|) == ids
  {
    if ids != [] {
      var n := |ids| - 1;
      var body := b[REPAIR_HEADER_LEN..REPAIR_HEADER_LEN + 2 * |ids|];
      assert b[REPAIR_HEADER_LEN..REPAIR_HEADER_LEN + 2 * n] == body[..2 * n] == EncodeIds(ids[..n]);
      DecodeOfEncodedIds(b, ids[..n]);
      assert b[REPAIR_HEADER_LEN + 2 * n] == body[2 * n] == Put16(ids[n])[0];
      assert b[REPAIR_HEADER_LEN + 2 * n + 1] == body[2 * n + 1] == Put16(ids[n])[1];
    }
  }

  lemma FixedFrameRoundTrip(m: Message)
    requires m.Start? || m.ProgressQ? || m.Progress? || m.Complete?
    ensures Encode(m).Some? && |Encode(m).value| <= 7 && Decode(Encode(m).value) == Some(m)
  {
    if m.Complete? {
      var b := Encode(m).value;
      assert b[3..7] == Put32(m.crc);
      Get32OfPut32(b, 3, m.crc);
    }
  }

  lemma ManifestRoundTrip(m: Message)
    requires m.Manifest?
    ensures Encode(m).Some? && |Encode(m).value| == 14 && Decode(Encode(m).value) == Some(m)
  {
    var b := Encode(m).value;
    assert b[4..8] == Put32(m.length) && b[10..14] == Put32(m.crc);
    Get32OfPut32(b, 4, m.length);
    Get32OfPut32(b, 10, m.crc);
  }

  lemma ChunkRoundTrip(m: Message)
    requires m.Chunk? && Encode(m).Some?
    ensures |Encode(m).value| == PUSH_CHUNK_HEADER_LEN + |m.data|
    ensures Decode(Encode(m).value) == if m.data == [] then None else Some(m)
  {
    var b := Encode(m).value;
    assert b[PUSH_CHUNK_HEADER_LEN..] == m.data;
  }

  lemma RepairRoundTrip(pid: u16, ids: seq<u16>)
    requires 0 < |ids| <= REPAIR_IDS_MAX
    ensures var e := Encode(Repair(pid, ids));
            e.Some? && |e.value| <= MESH_PAYLOAD_MAX && Decode(e.value) == Some(Repair(pid, ids))
  {
    var b := Encode(Repair(pid, ids)).value;
    assert b[REPAIR_HEADER_LEN..REPAIR_HEADER_LEN + 2 * |ids|] == EncodeIds(ids);
    DecodeOfEncodedIds(b, ids);
    assert b[3] == |ids|;
  }

  /** Every message an encoder accepts fits the radio frame and comes back
      unchanged, except a chunk with an empty body: it is encoded, and the decoder
      then takes it for a truncation. */
  lemma RoundTrip(m: Message)
    requires Encode(m).Some?
    ensures |Encode(m).value| <= MESH_PAYLOAD_MAX
    ensures Decode(Encode(m).value) == if m.Chunk? && m.data == [] then None else Some(m)
  {
    match m
    case Manifest(_, _, _, _, _) => ManifestRoundTrip(m);
    case Chunk(_, _, _) => ChunkRoundTrip(m);
    case Repair(pid, ids) => RepairRoundTrip(pid, ids);
    case _ => FixedFrameRoundTrip(m);
  }

  // ---- encoding a decoding ----------------------------------------------------

  lemma {:induction false} EncodeOfDecodedIds(b: bytes, n: nat)
    requires REPAIR_HEADER_LEN + 2 * n <= |b|
    ensures EncodeIds(DecodeIds(b, n)) == b[REPAIR_HEADER_LEN..REPAIR_HEADER_LEN + 2 * n]
  {
    if n > 0 {
      var at := REPAIR_HEADER_LEN + 2 * (n - 1);
      EncodeOfDecodedIds(b, n - 1);
      Put16OfGet16(b, at);
      assert DecodeIds(b, n)[..n - 1] == DecodeIds(b, n - 1);
      assert b[REPAIR_HEADER_LEN..at] + b[at..at + 2] == b[REPAIR_HEADER_LEN..at + 2];
    }
  }

  /** What the header of a re-encoded frame starts with. */
  lemma HeaderKept(b: bytes)
    requires |b| >= 3
    ensures [b[0]] + Put16(Get16(b, 1)) == b[..3]
  {
    Put16OfGet16(b, 1);
    assert b[..3] == [b[0]] + b[1..3];
  }

  lemma CanonicalChunk(b: bytes)
    requires Decode(b).Some? && b[0] == MSG_CHUNK
    ensures Encode(Decode(b).value) == Some(b)
  {
    HeaderKept(b);
    Put16OfGet16(b, 3);
    assert b == b[..3] + b[3..5] + b[5..];
  }

  lemma CanonicalManifest(b: bytes)
    requires Decode(b).Some? && b[0] == MSG_MANIFEST
    ensures Encode(Decode(b).value) == Some(b[..14])
  {
    HeaderKept(b);
    Put32OfGet32(b, 4);
    Put16OfGet16(b, 8);
    Put32OfGet32(b, 10);
    assert b[..14] == b[..3] + [b[3]] + b[4..8] + b[8..10] + b[10..14];
  }

  lemma CanonicalProgress(b: bytes)
    requires Decode(b).Some? && b[0] == MSG_PROGRESS
    ensures Encode(Decode(b).value) == Some(b[..5] + [b[5] % 2])
  {
    HeaderKept(b);
    Put16OfGet16(b, 3);
    assert b[..5] == b[..3] + b[3..5];
  }

  lemma CanonicalRepair(b: bytes)
    requires Decode(b).Some? && b[0] == MSG_REPAIR
    ensures Encode(Decode(b).value) == Some(b[..4 + 2 * b[3]])
  {
    var n := b[3];
    HeaderKept(b);
    EncodeOfDecodedIds(b, n);
    assert b[..4 + 2 * n] == b[..3] + [b[3]] + b[4..4 + 2 * n];
  }

  lemma CanonicalShort(b: bytes)
    requires Decode(b).Some? && b[0] in {MSG_START, MSG_PROGRESS_Q, MSG_COMPLETE}
    ensures Encode(Decode(b).value) == Some(b[..if b[0] == MSG_COMPLETE then 7 else 3])
  {
    HeaderKept(b);
    if b[0] == MSG_COMPLETE {
      Put32OfGet32(b, 3);
      assert b[..7] == b[..3] + b[3..7];
    }
  }

  /** Whatever the decoder accepts, re-encoding the result gives a prefix of the
      buffer: all of it for a chunk, and for a progress reply exactly when its
      reserved bits are zero. Nothing outside the push block of types decodes. */
  lemma Canonical(b: bytes)
    requires Decode(b).Some?
    ensures MSG_START <= b[0] <= MSG_COMPLETE
    ensures Encode(Decode(b).value).Some?
    ensures Encode(Decode(b).value).value <= b <==> (b[0] == MSG_PROGRESS ==> b[5] <= 1)
    ensures b[0] == MSG_CHUNK ==> Encode(Decode(b).value).value == b
  {
    if b[0] == MSG_CHUNK {
      CanonicalChunk(b);
    } else if b[0] == MSG_MANIFEST {
      CanonicalManifest(b);
    } else if b[0] == MSG_REPAIR {
      CanonicalRepair(b);
    } else if b[0] == MSG_PROGRESS {
      CanonicalProgress(b);
      var e := b[..5] + [b[5] % 2];
      assert b[5] <= 1 ==> e == b[..6];
      assert b[5] > 1 ==> e[5] != b[5];
    } else {
      CanonicalShort(b);
    }
  }

  // ---- the two loops of the codec ---------------------------------------------

  /** encodeRepair fills a fresh buffer, two bytes an identifier. */
  method EncodeRepair(pid: u16, ids: seq<u16>) returns (r: Option<bytes>)
    ensures r == Encode(Repair(pid, ids))
  {
    if |ids| == 0 || |ids| > REPAIR_IDS_MAX {
      return None;
    }
    var b := new byte[REPAIR_HEADER_LEN + 2 * |ids|];
    b[0], b[1], b[2], b[3] := MSG_REPAIR, pid / 0x100, pid % 0x100, |ids|;
    for i := 0 to |ids|
      invariant b[..REPAIR_HEADER_LEN] == [MSG_REPAIR] + Put16(pid) + [|ids|]
      invariant b[REPAIR_HEADER_LEN..REPAIR_HEADER_LEN + 2 * i] == EncodeIds(ids[..i])
    {
      var at := REPAIR_HEADER_LEN + 2 * i;
      b[at], b[at + 1] := ids[i] / 0x100, ids[i] % 0x100;
      assert ids[..i + 1][..i] == ids[..i];
      assert b[REPAIR_HEADER_LEN..at + 2] == b[REPAIR_HEADER_LEN..at] + [b[at], b[at + 1]];
    }
    assert ids[..|ids|] == ids;
    assert b[..] == b[..REPAIR_HEADER_LEN] + b[REPAIR_HEADER_LEN..REPAIR_HEADER_LEN + 2 * |ids|];
    r := Some(b[..]);
  }

  /** The REPAIR case of decodeFrame collects identifiers one by one. */
  method ReadRepairIds(b: bytes) returns (ids: seq<u16>)
    requires Decode(b).Some? && b[0] == MSG_REPAIR
    ensures Decode(b) == Some(Repair(Get16(b, 1), ids))
  {
    ids := [];
    for i := 0 to b[3]
      invariant ids == DecodeIds(b, i)
    {
      ids := ids + [Get16(b, REPAIR_HEADER_LEN + 2 * i)];
    }
  }
}
