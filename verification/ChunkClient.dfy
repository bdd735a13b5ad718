/** The pull client (clients/node/lib/chunk.js): a reassembly buffer written in
    place, a set of held identifiers, and the manifest fields. Every method is
    proved to make the step that PullModel gives for it. */
module ChunkClient {
  import opened Wire
  import Codec = PullCodec
  import M = PullModel

  class ChunkClient {
    var pid: u16
    var length: u32
    var count: u16
    var crc: u32
    var ptype: byte
    var haveManifest: bool
    var gone: bool
    var buf: array?<byte>
    var have: set<u16>
    var busyUntil: int

    ghost predicate Valid()
      reads this
    {
      && (haveManifest <==> buf != null)
      && (buf != null ==> buf.Length == length)
    }

    ghost function State(): M.Client
      reads this, buf
    {
      M.Client(pid, length, count, crc, ptype, haveManifest, gone,
               if buf == null then [] else buf[..], have, busyUntil)
    }

    constructor ()
      ensures Valid() && State() == M.FRESH
    {
      pid, length, count, crc, ptype := 0, 0, 0, 0, 0;
      haveManifest, gone, buf, have, busyUntil := false, false, null, {}, 0;
    }

    method ClearBusy()
      requires Valid()
      modifies this`busyUntil
      ensures Valid() && State() == old(State()).(busyUntil := 0)
    {
      busyUntil := 0;
    }

    method OnFrame(raw: bytes, now: int)
      requires Valid()
      modifies this, buf
      ensures Valid() && (buf == old(buf) || fresh(buf))
      ensures State() == M.OnFrame(old(State()), Codec.Decode(raw), now)
    {
      var f := Codec.Decode(raw);
      if f.None? {
        return;
      }
      match f.value
      case Busy(p, retryAfterMs) =>
        if p == pid {
          busyUntil := now + retryAfterMs;
        }
      case Manifest(p, pt, len, n, sum) =>
        if haveManifest && p == pid && len == length && n == count {
          return;
        }
        Adopt(p, pt, len, n, sum);
      case Chunk(p, index, n, data) =>
        if !haveManifest {
          return;
        }
        if p != pid || n != count || index >= count {
          return;
        }
        var off := index * Codec.CHUNK_DATA_MAX;
        if off + |data| > buf.Length {
          return;
        }
        CopyInto(off, data);
        have := have + {index};
      case Err(_, code) =>
        if code == Codec.ERR_GONE {
          gone := true;
        }
      case Other(_) =>
    }

    /** Starts over on a new manifest, with a zeroed buffer. */
    method Adopt(p: u16, pt: byte, len: u32, n: u16, sum: u32)
      requires Valid()
      modifies this
      ensures Valid() && fresh(buf)
      ensures State() == M.Client(p, len, n, sum, pt, true, false, M.Zeros(len), {}, old(busyUntil))
    {
      pid, length, count, crc, ptype := p, len, n, sum, pt;
      buf := new byte[len](_ => 0);
      have := {};
      haveManifest, gone := true, false;
      assert buf[..] == M.Zeros(len);
    }

    /** Buffer.copy into the reassembly buffer, in place. */
    method CopyInto(off: nat, data: bytes)
      requires Valid() && buf != null && off + |data| <= buf.Length
      modifies buf
      ensures buf[..] == M.Overlay(old(buf[..]), off, data)
    {
      for k := 0 to |data|
        invariant buf[..] == M.Overlay(old(buf[..]), off, data[..k])
      {
        M.OverlayGrows(old(buf[..]), off, data, k);
        buf[off + k] := data[k];
      }
      assert data[..|data|] == data;
    }

    /** Copies a saved partial over the buffer and adopts its claims. False is the
        program's exception: there is no manifest yet. */
    method Seed(saved: bytes, claims: set<nat>) returns (ok: bool)
      requires Valid()
      modifies this`have, buf
      ensures Valid() && ok == old(haveManifest)
      ensures State() == if ok then M.Seed(old(State()), saved, claims) else old(State())
    {
      if !haveManifest {
        return false;
      }
      if |saved| == buf.Length {
        CopyInto(0, saved);
        assert M.Overlay(old(buf[..]), 0, saved) == saved;
      }
      have := have + set i: u16 | i in claims && i < count;
      return true;
    }

    /** The pull that goes out for the next contiguous run we lack, if any. */
    method RequestNext(batch: int) returns (pull: Option<Codec.Pull>)
      requires Valid()
      ensures pull == M.NextPull(State(), batch)
    {
      if !haveManifest || gone {
        return None;
      }
      var first := 0;
      while first < count && first in have
        invariant first <= count
        invariant M.FirstGap(have, first, count) == M.FirstGap(have, 0, count)
      {
        first := first + 1;
      }
      if first == count {
        return None;
      }
      var run, i := 0, first;
      while i < count && run < batch && i !in have
        invariant i == first + run && i <= count
        invariant run + M.GapLength(have, i, count, batch - run) == M.GapLength(have, first, count, batch)
      {
        run, i := run + 1, i + 1;
      }
      var frame := Codec.EncodePull(pid, first, run);
      return Some(Codec.ReadPull(frame));
    }

    predicate Complete()
      reads this
      ensures Complete() <==> M.Complete(State())
    {
      haveManifest && count > 0 && |have| == count
    }

    predicate Verified(crc32: Checksum)
      requires Valid()
      reads this, buf
      ensures Verified(crc32) <==> M.Verified(crc32, State())
    {
      Complete() && crc32(buf[..]) == crc
    }
  }
}
