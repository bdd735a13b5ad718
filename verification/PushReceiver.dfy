/** The passive receiver of a push transfer (clients/node/lib/push-receiver.js),
    with its fields updated in place. Every method is proved to make the step that
    PushModel gives for it. */
module PushReceiver {
  import opened Wire
  import Codec = PushCodec
  import M = PushModel

  class PushReceiver {
    const cfg: M.Config
    var chunks: map<u16, bytes>
    var manifest: Option<M.Manifest>
    var phase: M.Phase
    var rounds: nat
    var staleRounds: nat
    var heldAtLastRepair: int
    var lastRxMs: Option<int>
    var lastTxMs: Option<int>
    var awaitingProgress: bool
    var progressDone: bool
    var unanswered: nat
    var failed: Option<M.Failure>

    ghost function State(): M.Receiver
      reads this
    {
      M.Receiver(chunks, manifest, phase, rounds, staleRounds, heldAtLastRepair, lastRxMs, lastTxMs,
                 awaitingProgress, progressDone, unanswered, failed)
    }

    /** The state now, and the frame `out` read as the message it encodes. */
    ghost predicate Did(out: Option<bytes>, a: M.Acted)
      reads this
    {
      && State() == a.next
      && out == if a.out.None? then None else Codec.Encode(a.out.value)
    }

    constructor (cfg: M.Config)
      ensures this.cfg == cfg && State() == M.FRESH
    {
      this.cfg := cfg;
      chunks, manifest, phase := map[], None, M.START;
      rounds, staleRounds, heldAtLastRepair := 0, 0, -1;
      lastRxMs, lastTxMs := None, None;
      awaitingProgress, progressDone, unanswered, failed := false, false, 0, None;
    }

    method OnFrame(buf: bytes, nowMs: int) returns (used: bool)
      modifies this
      ensures State() == M.OnFrame(cfg, old(State()), Codec.Decode(buf), nowMs)
      ensures used <==> M.Ours(cfg, Codec.Decode(buf)) &&
                        var m := Codec.Decode(buf).value; m.Chunk? || m.Manifest? || m.Progress?
    {
      var f := Codec.Decode(buf);
      if f.None? || f.value.pid != cfg.pid {
        return false;
      }
      lastRxMs := Some(nowMs);
      unanswered := 0;
      match f.value
      case Chunk(_, index, data) =>
        chunks := chunks[index := data];
        if phase == M.START { phase := M.RECEIVING; }
        return true;
      case Manifest(_, _, length, count, crc) =>
        if manifest.None? { manifest := Some(M.Manifest(length, count, crc)); }
        if phase == M.START { phase := M.RECEIVING; }
        return true;
      case Progress(_, _, done) =>
        awaitingProgress := false;
        progressDone := done;
        return true;
      case _ =>
        return false;
    }

    method Missing() returns (out: Option<seq<u16>>)
      ensures out == if manifest.None? then None else Some(M.Missing(State()))
    {
      if manifest.None? {
        return None;
      }
      var ids: seq<u16> := [];
      var count := manifest.value.count;
      for i := 0 to count
        invariant ids + M.MissingFrom(chunks, i, count) == M.MissingFrom(chunks, 0, count)
      {
        ghost var rest := M.MissingFrom(chunks, i + 1, count);
        if i !in chunks {
          assert (ids + [i]) + rest == ids + ([i] + rest);
          ids := ids + [i];
        } else {
          assert [] + rest == rest;
        }
      }
      assert ids + [] == ids;
      out := Some(ids);
    }

    method Assemble() returns (out: Option<bytes>)
      ensures out == M.Assemble(cfg, State())
    {
      if manifest.None? {
        return None;
      }
      var buf: bytes := [];
      for i := 0 to manifest.value.count
        invariant M.HasFirst(chunks, i) && buf == M.Concat(chunks, i)
      {
        if i !in chunks {
          return None;
        }
        buf := buf + chunks[i];
      }
      if |buf| != manifest.value.length {
        return None;
      }
      if cfg.crc32(buf) != manifest.value.crc {
        return None;
      }
      return Some(buf);
    }

    method Tick(nowMs: int) returns (out: Option<bytes>)
      modifies this
      ensures Did(out, M.Tick(cfg, old(State()), nowMs))
    {
      if phase == M.DONE || failed.Some? {
        return None;
      }
      var lacking := Missing();
      var known := manifest.Some? && (progressDone || lacking == Some([]));
      var gate := if known then cfg.actMs else cfg.idleMs;
      if lastRxMs.Some? && nowMs - lastRxMs.value < gate {
        return None;
      }
      if lastTxMs.Some? && nowMs - lastTxMs.value < gate {
        return None;
      }
      lastTxMs := Some(nowMs);
      out := Act();
    }

    /** The rest of tick(), once it is past the timers. */
    method Act() returns (out: Option<bytes>)
      modifies this
      ensures Did(out, M.Act(cfg, old(State())))
    {
      if manifest.None? && |chunks| == 0 {
        return Codec.Encode(Codec.Start(cfg.pid));
      }
      if manifest.None? {
        out := Query();
        return;
      }
      var miss := Missing();
      if miss.value == [] {
        var asm := Assemble();
        if asm.None? {
          failed := Some(M.CrcMismatch);
          return None;
        }
        phase := M.DONE;
        return Codec.Encode(Codec.Complete(cfg.pid, manifest.value.crc));
      }
      if !progressDone {
        out := Query();
        return;
      }
      out := AskRepair(miss.value);
    }

    method Query() returns (out: Option<bytes>)
      modifies this
      ensures Did(out, M.Query(cfg, old(State())))
    {
      if awaitingProgress {
        unanswered := unanswered + 1;
      } else {
        unanswered := 0;
      }
      if unanswered >= cfg.maxUnanswered {
        failed := Some(M.Unresponsive);
        return None;
      }
      awaitingProgress := true;
      return Codec.Encode(Codec.ProgressQ(cfg.pid));
    }

    /** The tail of tick(): the device finished its pass and there are still gaps. */
    method AskRepair(miss: seq<u16>) returns (out: Option<bytes>)
      modifies this
      ensures Did(out, M.AskRepair(cfg, old(State()), miss))
    {
      CountRound();
      if staleRounds >= cfg.maxStale {
        failed := Some(M.Stuck);
        return None;
      }
      phase := M.REPAIRING;
      progressDone := false;
      out := Codec.EncodeRepair(cfg.pid, M.FirstIds(miss));
    }

    method CountRound()
      modifies this
      ensures State() == M.CountRound(old(State()))
    {
      if |chunks| > heldAtLastRepair {
        staleRounds := 0;
      } else {
        staleRounds := staleRounds + 1;
      }
      heldAtLastRepair := |chunks|;
      rounds := rounds + 1;
    }
  }
}
