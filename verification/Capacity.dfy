/** The capacity recommender of internal/capacityplan/model.go: what each plan
    recommends, and what planning again with the recommendation says. Rates are
    reals; counts are positive, as the configuration defaults make them. */
module Capacity {
  import opened Bits
  import opened Ordering
  import opened Reals

  lemma CeilLe(x: real, n: int)
    ensures Ceil(x) <= n <==> x <= n as real
  {}

  // -------------------------------------------------------- ClickHouse writes

  datatype WriteConfig = WriteConfig(rows: real, shards: nat, batch: nat, maxBatch: nat) {
    predicate Valid() { shards > 0 && batch > 0 && maxBatch > 0 }
  }

  function InsertsPerShard(c: WriteConfig): real
    requires c.Valid()
  {
    c.rows / c.shards as real / c.batch as real
  }

  // The configuration with the recommended shards and batch size.
  function RecommendWrite(c: WriteConfig): (r: WriteConfig)
    requires c.Valid()
    ensures r.Valid() && r.rows == c.rows && r.maxBatch == c.maxBatch
  {
    if InsertsPerShard(c) <= 1.0 then c
    else
      RecommendationPositive(c);
      var needed := Ceil(c.rows / c.shards as real);
      if needed <= c.maxBatch then c.(batch := needed)
      else c.(batch := c.maxBatch, shards := Ceil(c.rows / c.maxBatch as real))
  }

  // Rows per second that shards take at one insert of a full batch each.
  ghost function Rows(batch: nat, shards: nat): real { batch as real * shards as real }

  lemma CeilDivLe(rows: real, per: nat, n: nat)
    requires per > 0
    ensures Ceil(rows / per as real) <= n <==> rows <= Rows(n, per)
    ensures Rows(n, per) == Rows(per, n)
  {
    DivLe(rows, per as real, n as real);
    CeilLe(rows / per as real, n);
  }

  // Writes keep up at one insert per second and shard.
  lemma KeepsUp(c: WriteConfig)
    requires c.Valid()
    ensures InsertsPerShard(c) <= 1.0 <==> c.rows <= Rows(c.batch, c.shards)
    ensures InsertsPerShard(c) <= 1.0 <==> c.rows <= c.batch as real * c.shards as real
  {
    DivLe(c.rows / c.shards as real, c.batch as real, 1.0);
    DivLe(c.rows, c.shards as real, c.batch as real);
  }

  lemma RecommendationPositive(c: WriteConfig)
    requires c.Valid() && InsertsPerShard(c) > 1.0
    ensures Ceil(c.rows / c.shards as real) > c.batch
    ensures Ceil(c.rows / c.shards as real) > c.maxBatch ==> Ceil(c.rows / c.maxBatch as real) > c.shards
  {
    hide InsertsPerShard, Rows, Ceil;
    KeepsUp(c);
    CeilDivLe(c.rows, c.shards, c.batch);
    CeilDivLe(c.rows, c.shards, c.maxBatch);
    CeilDivLe(c.rows, c.maxBatch, c.shards);
  }

  lemma WriteCases(c: WriteConfig)
    requires c.Valid() && InsertsPerShard(c) > 1.0
    ensures var r := RecommendWrite(c);
            && InsertsPerShard(r) <= 1.0
            && ((r.shards == c.shards && c.batch < r.batch <= c.maxBatch) || (r.batch == c.maxBatch && r.shards > c.shards))
  {
    hide InsertsPerShard, Rows, Ceil;
    RecommendationPositive(c);
    var r := RecommendWrite(c);
    KeepsUp(r);
    CeilDivLe(c.rows, c.shards, r.batch);
    CeilDivLe(c.rows, c.maxBatch, r.shards);
  }

  /** The recommendation meets the ceiling, planning with it recommends it
      again, and neither shards nor, at the same shards, the batch is lowered
      below what the load needs. */
  lemma WriteSoundAndStable(c: WriteConfig)
    requires c.Valid()
    ensures var r := RecommendWrite(c);
            InsertsPerShard(r) <= 1.0 && RecommendWrite(r) == r && r.shards >= c.shards
    ensures InsertsPerShard(c) > 1.0 ==>
              var r := RecommendWrite(c); r.shards > c.shards || c.batch < r.batch <= c.maxBatch
  {
    if InsertsPerShard(c) > 1.0 { WriteCases(c); }
  }

  /** Least change: shards grow only if no allowed batch suffices at the present
      shards, no smaller batch or shard count than the recommended one keeps up. */
  lemma WriteMinimal(c: WriteConfig, other: WriteConfig)
    requires c.Valid() && other.Valid() && other.rows == c.rows && other.maxBatch == c.maxBatch
    requires InsertsPerShard(c) > 1.0
    requires other.batch <= c.maxBatch && InsertsPerShard(other) <= 1.0
    ensures var r := RecommendWrite(c);
            && (r.shards > c.shards ==> other.shards >= r.shards)
            && (other.shards <= c.shards ==> r.shards == c.shards && other.batch >= r.batch)
  {
    hide InsertsPerShard, Rows, Ceil;
    RecommendationPositive(c);
    KeepsUp(other);
    CeilDivLe(c.rows, c.maxBatch, other.shards);
    RowsMono(other.batch, c.maxBatch, other.shards, other.shards);
    if other.shards <= c.shards {
      RowsMono(other.batch, other.batch, other.shards, c.shards);
      CeilDivLe(c.rows, c.shards, other.batch);
    }
  }

  lemma RowsMono(b: nat, b': nat, s: nat, s': nat)
    requires b <= b' && s <= s'
    ensures Rows(b, s) <= Rows(b', s')
  {
    if s > 0 { ProductLe(b as real, b' as real, s as real); }
    if b' > 0 { ProductLe(s as real, s' as real, b' as real); }
  }

  // ------------------------------------------------------------ AI inference pool

  const HEALTHY: real := 0.7

  function RecommendSlots(offered: real, slots: nat): (r: nat)
    requires slots > 0
    ensures r >= slots
  {
    if offered / slots as real > HEALTHY then SlotsGrow(offered, slots); Ceil(offered / HEALTHY) else slots
  }

  lemma SlotsGrow(offered: real, slots: nat)
    requires slots > 0 && offered / slots as real > 0.7
    ensures Ceil(offered / 0.7) > slots
  {
    DivLe(offered, slots as real, HEALTHY);
    DivLe(offered, HEALTHY, slots as real);
    CeilLe(offered / HEALTHY, slots);
  }

  /** The recommended pool is healthy, recommends itself, and is the smallest
      healthy pool when it differs from the configured one. */
  lemma SlotsSoundStableMinimal(offered: real, slots: nat, other: nat)
    requires slots > 0 && other > 0
    ensures var r := RecommendSlots(offered, slots);
            && offered / r as real <= 0.7
            && RecommendSlots(offered, r) == r
            && (r != slots && offered / other as real <= 0.7 ==> other >= r)
  {
    var r := RecommendSlots(offered, slots);
    if offered / slots as real > HEALTHY {
      DivLe(offered, r as real, HEALTHY);
      DivLe(offered, HEALTHY, r as real);
      CeilLe(offered / HEALTHY, r);
      DivLe(offered, other as real, HEALTHY);
      DivLe(offered, HEALTHY, other as real);
      CeilLe(offered / HEALTHY, other);
    }
  }

  // ------------------------------------------------------------- NATS partitions

  const SKEW: real := 1.15
  const SUBJECT_CEILING: nat := 5000
  const PARTITION_LIMIT: nat := 256

  // The least power of two that is at least n, or 256 past that.
  function LeastPow2(n: int): (p: nat)
    ensures 1 <= p <= PARTITION_LIMIT
    ensures n <= PARTITION_LIMIT ==> p >= n && (p == 1 || p < 2 * n)
    ensures n > PARTITION_LIMIT ==> p == PARTITION_LIMIT
  {
    if n <= 1 then 1
    else if n <= 2 then 2
    else if n <= 4 then 4
    else if n <= 8 then 8
    else if n <= 16 then 16
    else if n <= 32 then 32
    else if n <= 64 then 64
    else if n <= 128 then 128
    else 256
  }

  method NextPow2(n: int) returns (p: int)
    ensures p == LeastPow2(n)
  {
    if n < 1 { return 1; }
    p := 1;
    while p < n && p < 256
      invariant p in {1, 2, 4, 8, 16, 32, 64, 128, 256}
      invariant p == 1 || p < 2 * n
    {
      p := 2 * p;
    }
    if p > 256 { p := 256; }
  }

  /** The result is a power of two, and no smaller power of two that partitions
      may have is at least n. */
  lemma LeastPow2IsLeast(n: int, j: nat) returns (k: nat)
    ensures LeastPow2(n) == Pow2(k)
    ensures n <= Pow2(j) ==> LeastPow2(n) <= Pow2(j)
  {
    assert Pow2(1) == 2 && Pow2(2) == 4 && Pow2(3) == 8;
    assert Pow2(4) == 16 && Pow2(5) == 32 && Pow2(6) == 64;
    assert Pow2(7) == 128 && Pow2(8) == 256;
    var p := LeastPow2(n);
    k := if p == 1 then 0 else if p == 2 then 1 else if p == 4 then 2 else if p == 8 then 3 else if p == 16 then 4
      else if p == 32 then 5 else if p == 64 then 6 else if p == 128 then 7 else 8;
    if j < k { Pow2Monotone(j, k); }
    if k <= j { Pow2Monotone(k, j); }
  }

  // Subjects on the busiest partition.
  function BusiestPartition(distinct: nat, partitions: nat): int
    requires partitions > 0
  {
    if partitions <= 1 then distinct else Ceil(distinct as real / partitions as real * SKEW)
  }

  function RecommendPartitions(distinct: nat, partitions: nat): (r: nat)
    requires partitions > 0
    ensures r > 0
  {
    if BusiestPartition(distinct, partitions) > SUBJECT_CEILING
    then LeastPow2(Ceil(distinct as real * SKEW / SUBJECT_CEILING as real))
    else partitions
  }

  /** The busiest partition: all subjects on a single one, else the least whole
      number that is at least 15 percent above the mean. */
  lemma BusiestExact(distinct: nat, partitions: nat)
    requires partitions > 0
    ensures var b := BusiestPartition(distinct, partitions) as real;
            && (partitions == 1 ==> b == distinct as real)
            && (partitions > 1 ==> (b - 1.0) * partitions as real < distinct as real * 1.15 <= b * partitions as real)
  {
    if partitions > 1 {
      var d, p := distinct as real, partitions as real;
      var n := BusiestPartition(distinct, partitions);
      ScaledQuotient(d / p, p, d, SKEW);
      CeilLe(d / p * SKEW, n);
      CeilLe(d / p * SKEW, n - 1);
      DivLe(d * SKEW, p, n as real);
      DivLe(d * SKEW, p, (n - 1) as real);
    }
  }

  lemma Spread(distinct: nat, partitions: nat)
    requires partitions > 1
    ensures BusiestPartition(distinct, partitions) <= 5000 <==>
            distinct as real * 1.15 <= 5000.0 * partitions as real
  {
    var d, p := distinct as real, partitions as real;
    CeilLe(d / p * SKEW, SUBJECT_CEILING);
    ScaledQuotient(d / p, p, d, SKEW);
    DivLe(d * SKEW, p, SUBJECT_CEILING as real);
  }

  lemma Needed(distinct: nat, n: int)
    ensures Ceil(distinct as real * 1.15 / 5000.0) <= n <==>
            distinct as real * 1.15 <= 5000.0 * n as real
  {
    CeilLe(distinct as real * SKEW / SUBJECT_CEILING as real, n);
    DivLe(distinct as real * SKEW, SUBJECT_CEILING as real, n as real);
  }

  lemma NeededAbove(distinct: nat, partitions: nat)
    requires partitions > 0 && BusiestPartition(distinct, partitions) > 5000
    ensures Ceil(distinct as real * 1.15 / 5000.0) > partitions
  {
    Needed(distinct, partitions);
    if partitions > 1 { Spread(distinct, partitions); }
  }

  /** Planning again with the recommendation always recommends it again; it
      meets the ceiling exactly when the current layout already does, or the
      skewed load fits 256 partitions. */
  lemma PartitionsStable(distinct: nat, partitions: nat)
    requires partitions > 0
    ensures var r := RecommendPartitions(distinct, partitions);
            && RecommendPartitions(distinct, r) == r
            && (BusiestPartition(distinct, r) <= 5000 <==>
                BusiestPartition(distinct, partitions) <= 5000 ||
                distinct as real * 1.15 <= 5000.0 * 256.0)
  {
    if BusiestPartition(distinct, partitions) > SUBJECT_CEILING {
      var n := Ceil(distinct as real * SKEW / SUBJECT_CEILING as real);
      var r := LeastPow2(n);
      NeededAbove(distinct, partitions);
      Needed(distinct, PARTITION_LIMIT);
      Needed(distinct, r);
      Spread(distinct, r);
    }
  }

  /** Partitions are never taken away from a configuration that has at most 256;
      above that, exactly the overloaded ones are cut back to 256. */
  lemma PartitionsNeverShrinkIff(distinct: nat, partitions: nat)
    requires partitions > 0
    ensures RecommendPartitions(distinct, partitions) >= partitions <==>
            (partitions <= 256 || BusiestPartition(distinct, partitions) <= 5000)
  {
    if BusiestPartition(distinct, partitions) > SUBJECT_CEILING { NeededAbove(distinct, partitions); }
  }

  /** No smaller power of two meets the ceiling. */
  lemma {:induction false} PartitionsMinimal(distinct: nat, partitions: nat, k: nat)
    requires partitions > 0 && BusiestPartition(distinct, partitions) > 5000
    requires BusiestPartition(distinct, Pow2(k)) <= 5000
    ensures Pow2(k) >= RecommendPartitions(distinct, partitions)
  {
    hide Ceil;
    var n := Ceil(distinct as real * SKEW / SUBJECT_CEILING as real);
    var _ := LeastPow2IsLeast(n, k);
    if Pow2(k) > 1 {
      Spread(distinct, Pow2(k));
      Needed(distinct, Pow2(k));
    } else {
      SinglePartition(distinct, partitions);
    }
  }

  // A load that one partition holds is never found too much for more of them.
  lemma SinglePartition(distinct: nat, partitions: nat)
    requires partitions > 0 && distinct <= 5000
    ensures BusiestPartition(distinct, partitions) <= 5000
  {
    if partitions > 1 {
      Spread(distinct, partitions);
      ProductLe(2.0, partitions as real, SUBJECT_CEILING as real);
    }
  }

  // ------------------------------------------------------------- Postgres pool

  const HEADROOM: real := 1.5

  function RecommendPool(peak: real, replicas: nat): int
    requires replicas > 0
  {
    Ceil(peak * HEADROOM / replicas as real)
  }

  function BackendConns(peak: real, replicas: nat, poolSize: nat, pgbouncer: bool): int {
    if pgbouncer then Ceil(peak * HEADROOM) else poolSize * replicas
  }

  /** The recommended pool is the least one whose connections over all replicas
      cover the peak with headroom; adopting it without multiplexing never needs
      fewer backend connections than with. */
  lemma PoolCoversPeak(peak: real, replicas: nat, poolSize: nat)
    requires replicas > 0
    ensures poolSize >= RecommendPool(peak, replicas) <==> peak * 1.5 <= poolSize as real * replicas as real
    ensures poolSize >= RecommendPool(peak, replicas) <==>
            BackendConns(peak, replicas, poolSize, true) <= BackendConns(peak, replicas, poolSize, false)
  {
    CeilLe(peak * HEADROOM / replicas as real, poolSize);
    DivLe(peak * HEADROOM, replicas as real, poolSize as real);
    CeilLe(peak * HEADROOM, poolSize * replicas);
    assert (poolSize * replicas) as real == poolSize as real * replicas as real;
  }
}
