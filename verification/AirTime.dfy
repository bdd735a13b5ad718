/** The airtime account with its bucket rings updated in place
    (src/MeshtasticTransport.cpp). */
module AirTime {
  import opened Wire
  import opened Word32
  import M = AirModel
  import Safety = AirSafety

  class AirTime {
    const chanUtil: array<u32>
    const txUtil: array<u32>
    var utilEpoch: u32
    var txEpoch: u32
    var txMs: u32
    var rxValidMs: u32
    var rxAllMs: u32

    ghost predicate Valid()
      reads this
    {
      && chanUtil != txUtil && chanUtil.Length == M.UTIL_BUCKETS && txUtil.Length == M.TX_BUCKETS
      && utilEpoch <= WRAP / M.UTIL_BUCKET_MS && txEpoch <= WRAP / M.TX_BUCKET_MS
    }

    ghost function State(): (a: M.Air)
      reads this, chanUtil, txUtil
    {
      M.Air(chanUtil[..], txUtil[..], utilEpoch, txEpoch, txMs, rxValidMs, rxAllMs)
    }

    constructor ()
      ensures Valid() && State() == M.SILENT && fresh(chanUtil) && fresh(txUtil)
    {
      chanUtil := new u32[M.UTIL_BUCKETS](_ => 0);
      txUtil := new u32[M.TX_BUCKETS](_ => 0);
      utilEpoch, txEpoch, txMs, rxValidMs, rxAllMs := 0, 0, 0, 0, 0;
      new;
      assert chanUtil[..] == M.SILENT.chan && txUtil[..] == M.SILENT.tx;
    }

    /** One of the two blocks of airRotate: the buckets of every slot passed over are
        zeroed, all of them if a whole window has gone by. */
    static method RotateRing(ring: array<u32>, epoch: u32, slot: u32)
      requires ring.Length > 0 && epoch + ring.Length < WRAP
      modifies ring
      ensures ring[..] == M.Rotate(old(ring[..]), epoch, slot)
    {
      if slot == epoch {
        return;
      }
      var skipped := Sub32(slot, epoch);
      if skipped >= ring.Length {
        for i := 0 to ring.Length
          invariant forall j :: 0 <= j < i ==> ring[j] == 0
        {
          ring[i] := 0;
        }
        assert ring[..] == M.ZeroBuckets(ring.Length);
      } else {
        var s := 1;
        while s <= skipped
          invariant 1 <= s <= skipped + 1
          invariant ring[..] == M.ZeroNext(old(ring[..]), epoch, s - 1)
        {
          ring[(epoch + s) % ring.Length] := 0;
          s := s + 1;
        }
      }
    }

    method AirRotate(now: u32)
      requires Valid()
      modifies this, chanUtil, txUtil
      ensures Valid() && State() == M.RotateAll(old(State()), now)
    {
      RotateRing(chanUtil, utilEpoch, now / M.UTIL_BUCKET_MS);
      utilEpoch := now / M.UTIL_BUCKET_MS;
      RotateRing(txUtil, txEpoch, now / M.TX_BUCKET_MS);
      txEpoch := now / M.TX_BUCKET_MS;
    }

    method AirLog(now: u32, kind: M.Kind, ms: u32)
      requires Valid()
      modifies this, chanUtil, txUtil
      ensures Valid() && State() == M.Log(old(State()), M.LogCall(now, kind, ms))
    {
      AirRotate(now);
      var u := utilEpoch % M.UTIL_BUCKETS;
      chanUtil[u] := Add32(chanUtil[u], ms);
      if kind == M.AIR_TX {
        var x := txEpoch % M.TX_BUCKETS;
        txUtil[x] := Add32(txUtil[x], ms);
        txMs := Add32(txMs, ms);
      } else {
        rxAllMs := Add32(rxAllMs, ms);
        if kind == M.AIR_RX_VALID {
          rxValidMs := Add32(rxValidMs, ms);
        }
      }
    }

    /** The readers add up the buckets as they stand; they do not rotate. */
    method ChannelUtilizationPercent() returns (pct: real)
      requires Valid()
      ensures pct == M.ChannelUtilization(State())
      ensures var p := 100.0 * M.Sum32(State().chan) as real / 60000.0; pct == if p > 100.0 then 100.0 else p
    {
      var sum: u32 := 0;
      for i := 0 to M.UTIL_BUCKETS
        invariant sum == M.Sum32(chanUtil[..i])
      {
        sum := Add32(sum, chanUtil[i]);
        assert chanUtil[..i + 1][..i] == chanUtil[..i];
      }
      assert chanUtil[..M.UTIL_BUCKETS] == chanUtil[..];
      pct := 100.0 * sum as real / (M.UTIL_BUCKETS * M.UTIL_BUCKET_MS) as real;
      if pct > 100.0 {
        pct := 100.0;
      }
    }

    method UtilizationTxPercent() returns (pct: real)
      requires Valid()
      ensures var p := 100.0 * M.Sum32(State().tx) as real / 3600000.0; pct == if p > 100.0 then 100.0 else p
    {
      var sum: u32 := 0;
      for i := 0 to M.TX_BUCKETS
        invariant sum == M.Sum32(txUtil[..i])
      {
        sum := Add32(sum, txUtil[i]);
        assert txUtil[..i + 1][..i] == txUtil[..i];
      }
      assert txUtil[..M.TX_BUCKETS] == txUtil[..];
      pct := 100.0 * sum as real / (M.TX_BUCKETS * M.TX_BUCKET_MS) as real;
      if pct > 100.0 {
        pct := 100.0;
      }
    }

    /** getTxDelayMsec, for a draw of the random source. */
    method GetTxDelayMsec(random: u32, slotMs: u32) returns (ms: u32)
      requires Valid()
      ensures ms == random % Safety.Span(M.Sum32(State().chan)) * slotMs % WRAP
    {
      var util := ChannelUtilizationPercent();
      Safety.ExponentFromAirtime(M.Sum32(chanUtil[..]));
      M.ExponentRange(util);
      var cw := M.CWMIN + (util * (M.CWMAX - M.CWMIN) as real / 100.0).Floor;
      Safety.DelayIsDrawn(M.Sum32(chanUtil[..]), random, slotMs);
      ms := (random % M.PowerOfTwo(cw) * slotMs) % WRAP;
    }
  }
}
