/** Rolling airtime windows as rings of buckets (src/MeshtasticTransport.cpp), and
    the event log they stand for. */
module AirModel {
  import opened Wire
  import opened Word32

  const UTIL_BUCKETS: nat := 6
  const UTIL_BUCKET_MS: nat := 10000
  const TX_BUCKETS: nat := 60
  const TX_BUCKET_MS: nat := 60000

  // ---- one ring -----------------------------------------------------------------------

  function ZeroBuckets(n: nat): seq<u32> {
    seq(n, _ => 0)
  }

  /** Zeroes the buckets of the k slots after `epoch`. */
  function ZeroNext(buckets: seq<u32>, epoch: nat, k: nat): (r: seq<u32>)
    requires |buckets| > 0
    ensures |r| == |buckets|
  {
    if k == 0 then buckets else ZeroNext(buckets, epoch, k - 1)[(epoch + k) % |buckets| := 0]
  }

  function Rotate(buckets: seq<u32>, epoch: u32, slot: u32): (r: seq<u32>)
    requires |buckets| > 0
    ensures |r| == |buckets|
  {
    if slot == epoch then buckets
    else if Sub32(slot, epoch) >= |buckets| then ZeroBuckets(|buckets|)
    else ZeroNext(buckets, epoch, Sub32(slot, epoch))
  }

  function AddTo(buckets: seq<u32>, slot: u32, ms: u32): (r: seq<u32>)
    requires |buckets| > 0
    ensures |r| == |buckets|
  {
    buckets[slot % |buckets| := Add32(buckets[slot % |buckets|], ms)]
  }

  function Sum32(buckets: seq<u32>): u32 {
    if buckets == [] then 0 else Add32(Sum32(buckets[..|buckets| - 1]), buckets[|buckets| - 1])
  }

  // ---- the whole account -----------------------------------------------------------------

  datatype Kind = AIR_TX | AIR_RX_VALID | AIR_RX_ALL
  datatype LogCall = LogCall(now: u32, kind: Kind, ms: u32)

  datatype Air = Air(chan: seq<u32>, tx: seq<u32>, utilEpoch: u32, txEpoch: u32,
                     txMs: u32, rxValidMs: u32, rxAllMs: u32)

  const SILENT := Air(ZeroBuckets(UTIL_BUCKETS), ZeroBuckets(TX_BUCKETS), 0, 0, 0, 0, 0)

  predicate Shaped(a: Air) {
    |a.chan| == UTIL_BUCKETS && |a.tx| == TX_BUCKETS
  }

  function RotateAll(a: Air, now: u32): Air
    requires Shaped(a)
  {
    a.(chan := Rotate(a.chan, a.utilEpoch, now / UTIL_BUCKET_MS), utilEpoch := now / UTIL_BUCKET_MS,
       tx := Rotate(a.tx, a.txEpoch, now / TX_BUCKET_MS), txEpoch := now / TX_BUCKET_MS)
  }

  /** airLog: channel occupancy counts every frame once; a valid reception is also
      one of all receptions. */
  function Log(a: Air, c: LogCall): (r: Air)
    requires Shaped(a)
    ensures Shaped(r)
  {
    var b := RotateAll(a, c.now);
    var d := b.(chan := AddTo(b.chan, b.utilEpoch, c.ms));
    match c.kind
    case AIR_TX => d.(tx := AddTo(d.tx, d.txEpoch, c.ms), txMs := Add32(d.txMs, c.ms))
    case AIR_RX_VALID => d.(rxAllMs := Add32(d.rxAllMs, c.ms), rxValidMs := Add32(d.rxValidMs, c.ms))
    case AIR_RX_ALL => d.(rxAllMs := Add32(d.rxAllMs, c.ms))
  }

  function LogAll(calls: seq<LogCall>): (a: Air)
    ensures Shaped(a)
  {
    if calls == [] then SILENT else Log(LogAll(calls[..|calls| - 1]), calls[|calls| - 1])
  }

  // ---- reading ------------------------------------------------------------------------------

  /** Milliseconds in the window as a percentage, capped. */
  function Percent(sum: nat, buckets: nat, bucketMs: nat): real
    requires buckets > 0 && bucketMs > 0
  {
    var pct := 100.0 * sum as real / (buckets * bucketMs) as real;
    if pct > 100.0 then 100.0 else pct
  }

  function ChannelUtilization(a: Air): real {
    Percent(Sum32(a.chan), UTIL_BUCKETS, UTIL_BUCKET_MS)
  }

  const CWMIN: nat := 3
  const CWMAX: nat := 8

  /** The contention window exponent: utilisation 0..100 mapped onto CWMIN..CWMAX. */
  function ContentionExponent(util: real): int {
    CWMIN + (util * (CWMAX - CWMIN) as real / 100.0).Floor
  }

  function PowerOfTwo(n: nat): nat {
    if n == 0 then 1 else 2 * PowerOfTwo(n - 1)
  }

  /** The scheduled delay of a transmission, for a random draw. */
  function TxDelay(util: real, random: u32, slotMs: u32): u32
    requires 0.0 <= util <= 100.0
  {
    ExponentRange(util);
    (random % PowerOfTwo(ContentionExponent(util)) * slotMs) % WRAP
  }

  lemma ExponentRange(util: real)
    requires 0.0 <= util <= 100.0
    ensures CWMIN <= ContentionExponent(util) <= CWMAX
    ensures 8 <= PowerOfTwo(ContentionExponent(util)) <= 256
  {
    var x := util * 5.0 / 100.0;
    assert 0.0 <= x <= 5.0;
    var cw := ContentionExponent(util);
    assert PowerOfTwo(3) == 8 && PowerOfTwo(4) == 16 && PowerOfTwo(5) == 32;
    assert PowerOfTwo(6) == 64 && PowerOfTwo(7) == 128 && PowerOfTwo(8) == 256;
  }
}
