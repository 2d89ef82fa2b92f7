/** Snowflake ids and the weekly bucket they fall into (packages/common-rust/src/snowflake.rs). */
module Snowflake {
  const SONYFLAKE_EPOCH_MS: int := 1_409_529_600_000
  const BUCKET_INTERVAL_SECS: int := 7 * 24 * 3600

  const TWO_16: int := 0x1_0000
  const TWO_24: int := 0x100_0000
  const TWO_31: int := 0x8000_0000
  const TWO_32: int := 0x1_0000_0000
  const TWO_39: int := 0x80_0000_0000
  const TWO_63: int := 0x8000_0000_0000_0000
  const TWO_64: int := 0x1_0000_0000_0000_0000

  /** The 63-bit ids that the generator produces. */
  predicate IsId(id: int) {
    0 <= id < TWO_63
  }

  // ── The machine arithmetic ──

  function TruncatingDiv(a: int, b: int): int
    requires b > 0
  {
    if a >= 0 then a / b else -(-a / b)
  }

  function AsU64(x: int): int {
    x % TWO_64
  }

  function AsI32(x: int): int {
    var low := x % TWO_32;
    if low < TWO_31 then low else low - TWO_32
  }

  /** For every i64: an arithmetic shift, a truncating division and two casts. */
  function BucketFromId(id: int): int {
    var time10ms := id / TWO_24;
    var unixMs := SONYFLAKE_EPOCH_MS + time10ms * 10;
    var unixSecs := AsU64(TruncatingDiv(unixMs, 1000));
    AsI32(unixSecs / BUCKET_INTERVAL_SECS)
  }

  /** `current_bucket` at a given Unix time. */
  function CurrentBucket(unixMs: int): int
    requires unixMs >= 0
  {
    AsI32(unixMs / 1000 / BUCKET_INTERVAL_SECS)
  }

  /** The id minted at a given Unix time: 39 bits of 10 ms units, 8 of sequence, 16 of machine. */
  function Mint(unixMs: int, sequence: int, machine: int): int {
    (unixMs - SONYFLAKE_EPOCH_MS) / 10 * TWO_24 + sequence * TWO_16 + machine
  }

  predicate Mintable(unixMs: int, sequence: int, machine: int) {
    0 <= (unixMs - SONYFLAKE_EPOCH_MS) / 10 < TWO_39 && 0 <= sequence < 256 && 0 <= machine < TWO_16
  }

  // ── Results ──

  /** On real ids no intermediate value leaves its machine type, so no cast changes anything. */
  lemma NothingWraps(id: int)
    requires IsId(id)
    ensures var unixMs := SONYFLAKE_EPOCH_MS + id / TWO_24 * 10;
            && 0 <= unixMs < TWO_63
            && BucketFromId(id) == unixMs / 1000 / BUCKET_INTERVAL_SECS
            && 0 <= BucketFromId(id) < TWO_31
    ensures BucketFromId(id) == (1_409_529_600_000 + id / 16_777_216 * 10) / 1000 / 604_800
  {
    assert 0 <= id / TWO_24 < TWO_39;
  }

  lemma BucketIsMonotone(a: int, b: int)
    requires IsId(a) && IsId(b) && a <= b
    ensures BucketFromId(a) <= BucketFromId(b)
  {
    NothingWraps(a);
    NothingWraps(b);
    TicksAreMonotone(a, b);
    WeeksAreMonotone(SONYFLAKE_EPOCH_MS + a / TWO_24 * 10, SONYFLAKE_EPOCH_MS + b / TWO_24 * 10);
  }

  lemma TicksAreMonotone(a: int, b: int)
    requires a <= b
    ensures a / 0x100_0000 <= b / 0x100_0000
  {
  }

  lemma WeeksAreMonotone(a: int, b: int)
    requires 0 <= a <= b
    ensures a / 1000 / 604_800 <= b / 1000 / 604_800
  {
  }

  lemma TicksOf(ticks: int, low: int)
    requires 0 <= low < 0x100_0000
    ensures (ticks * 0x100_0000 + low) / 0x100_0000 == ticks
  {
  }

  /** Cutting a time off at 10 ms does not change its second. */
  lemma SameSecond(elapsed: int)
    requires elapsed >= 0
    ensures (1_409_529_600_000 + elapsed / 10 * 10) / 1000 == (1_409_529_600_000 + elapsed) / 1000
  {
    var seconds, rest := elapsed / 1000, elapsed % 1000;
    assert elapsed / 10 == seconds * 100 + rest / 10;
    SecondOf(1_409_529_600 + seconds, rest);
    SecondOf(1_409_529_600 + seconds, rest / 10 * 10);
  }

  lemma SecondOf(seconds: int, rest: int)
    requires 0 <= rest < 1000
    ensures (seconds * 1000 + rest) / 1000 == seconds
  {
  }

  /** The bucket read back from an id is the one its clock reading gives. */
  lemma MintedBucket(unixMs: int, sequence: int, machine: int)
    requires Mintable(unixMs, sequence, machine)
    ensures IsId(Mint(unixMs, sequence, machine))
    ensures unixMs >= 0 && BucketFromId(Mint(unixMs, sequence, machine)) == CurrentBucket(unixMs)
  {
    var elapsed := unixMs - SONYFLAKE_EPOCH_MS;
    var id := Mint(unixMs, sequence, machine);
    TicksOf(elapsed / 10, sequence * TWO_16 + machine);
    assert id / TWO_24 == elapsed / 10;
    SameSecond(elapsed);
    NothingWraps(id);
  }

  lemma WeekOf(seconds: int, week: int)
    requires week == seconds / 604_800
    ensures forall s :: s >= seconds ==> s / 604_800 >= week && (s / 604_800 == week <==> s < (week + 1) * 604_800)
  {
  }

  lemma ClockDoesNotWrap(unixMs: int)
    requires 0 <= unixMs < TWO_31 * 604_800_000
    ensures CurrentBucket(unixMs) == unixMs / 1000 / 604_800
  {
  }

  /**
   * A write mints the id first and reads the clock again for the partition. The two agree
   * exactly when the second reading still falls into the id's own week.
   */
  lemma WriteBucketAgrees(mintedMs: int, sequence: int, machine: int, bucketMs: int)
    requires Mintable(mintedMs, sequence, machine) && mintedMs <= bucketMs < TWO_31 * 604_800_000
    ensures var own := BucketFromId(Mint(mintedMs, sequence, machine));
            && own <= CurrentBucket(bucketMs)
            && (own == CurrentBucket(bucketMs) <==> bucketMs / 1000 < (own + 1) * BUCKET_INTERVAL_SECS)
  {
    MintedBucket(mintedMs, sequence, machine);
    ClockDoesNotWrap(mintedMs);
    ClockDoesNotWrap(bucketMs);
    WeekOf(mintedMs / 1000, mintedMs / 1000 / 604_800);
    assert bucketMs / 1000 >= mintedMs / 1000;
  }
}
