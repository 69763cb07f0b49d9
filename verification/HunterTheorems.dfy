/** Whole-run guarantees of the liquidity hunter: what each trade is, how pools are
    consumed over any number of runs, how far apart trades lie, and how the short rules
    mirror the long ones. */
module HunterTheorems {
  import opened Market
  import opened Decimal
  import opened Ordering
  import opened LiquidityPools
  import opened LiquidityPoolTheorems
  import opened HunterWalk
  import opened HunterWalkTheorems
  import opened LiquidityHunter

  // ------------------------------------------------------------ run invariant

  function Gap(config: HunterConfig): int { MaxInt(1, config.cooldownBars) }

  /** Trade k was opened on bar bars[k] against pool backing[k], as the rules say. */
  ghost predicate TradeStands(candles: seq<Candle>, pools: seq<LiquidityPool>, config: HunterConfig, pool: LiquidityPool, bar: int, trade: SfpTrade) {
    && pool in pools && 50 <= bar < |candles| - 50 && Eligible(pool.originIndex, bar)
    && AttemptAt(candles, bar, pool.Data(), config) == Taken(trade)
  }

  ghost predicate RunInvariant(candles: seq<Candle>, pools: seq<LiquidityPool>, config: HunterConfig, swept: set<LiquidityPool>, n: nat, st: HunterState) {
    && |st.trades| == |st.backing| == |st.bars|
    && swept <= st.swept && (forall p :: p in st.swept ==> p in swept || p in pools)
    && (forall k :: 0 <= k < |st.trades| ==>
          && TradeStands(candles, pools, config, st.backing[k], st.bars[k], st.trades[k])
          && st.bars[k] < n && st.backing[k] in st.swept && st.backing[k] !in swept)
    && AllDistinct(st.backing)
    && Spaced(st.bars, Gap(config))
    && st.cooldownUntilIndex == (if st.bars == [] then 0 else st.bars[|st.bars| - 1] + config.cooldownBars)
  }

  lemma {:induction false} ScanFacts(candles: seq<Candle>, i: nat, active: seq<LiquidityPool>, config: HunterConfig)
    requires i < |candles|
    ensures var scan := ScanPools(candles, i, active, config);
      && (forall p :: p in scan.swept ==> p in active)
      && (scan.hit.Some? ==>
            && scan.hit.value.0 in active && scan.hit.value.0 in scan.swept
            && AttemptAt(candles, i, scan.hit.value.0.Data(), config) == Taken(scan.hit.value.1))
  {
    if active != [] {
      ScanFacts(candles, i, active[1..], config);
    }
  }

  lemma {:induction false} BarKeepsInvariant(
    candles: seq<Candle>, pools: seq<LiquidityPool>, config: HunterConfig, swept: set<LiquidityPool>, i: nat, st: HunterState)
    requires 50 <= i < |candles| - 50 && RunInvariant(candles, pools, config, swept, i, st)
    ensures RunInvariant(candles, pools, config, swept, i + 1, ScanBar(candles, pools, config, i, st))
  {
    hide AttemptAt, VolumeOk, ActivePools, ScanPools;
    var active := ActivePools(pools, i, st.swept);
    ActiveArePools(pools, i, st.swept);
    ScanFacts(candles, i, active, config);
    var scan := ScanPools(candles, i, active, config);
    if i >= st.cooldownUntilIndex && scan.hit.Some? {
      var (pool, trade) := scan.hit.value;
      assert TradeStands(candles, pools, config, pool, i, trade);
      assert forall k :: 0 <= k < |st.backing| ==> st.backing[k] != pool;
      forall k | 0 <= k < |st.bars| ensures st.bars[k] + Gap(config) <= i {
        var last := |st.bars| - 1;
        assert st.bars[k] <= st.bars[last];
        assert st.bars[last] + config.cooldownBars <= i;
      }
    }
  }

  lemma {:induction false} RunKeepsInvariant(
    candles: seq<Candle>, pools: seq<LiquidityPool>, config: HunterConfig, swept: set<LiquidityPool>, n: nat)
    requires n <= MaxInt(0, |candles| - 50)
    ensures RunInvariant(candles, pools, config, swept, n, RunTo(candles, pools, config, swept, n))
  {
    hide ScanBar, AttemptAt;
    if n > 50 {
      RunKeepsInvariant(candles, pools, config, swept, n - 1);
      BarKeepsInvariant(candles, pools, config, swept, n - 1, RunTo(candles, pools, config, swept, n - 1));
    }
  }

  // --------------------------------------------------------- pool consumption

  lemma {:induction false} DistinctInSet(s: seq<LiquidityPool>, within: set<LiquidityPool>)
    requires AllDistinct(s) && forall p :: p in s ==> p in within
    ensures |s| <= |within|
  {
    if s != [] {
      assert AllDistinct(s[1..]);
      forall p | p in s[1..] ensures p in within - {s[0]} {
      }
      DistinctInSet(s[1..], within - {s[0]});
    }
  }

  lemma {:induction false} DistinctConcat(a: seq<LiquidityPool>, b: seq<LiquidityPool>)
    requires AllDistinct(a) && AllDistinct(b) && forall p :: p in a ==> p !in b
    ensures AllDistinct(a + b)
  {
    forall i, j | 0 <= i < j < |a + b| ensures (a + b)[i] != (a + b)[j] {
      if i < |a| <= j {
        assert a[i] in a && b[j - |a|] in b;
      }
    }
  }

  /** Sweeping is never undone, every trade uses up a pool of its own that was unswept
      before, and so there are at most as many trades as newly swept pools. */
  lemma {:induction false} PoolsAreConsumed(
    candles: seq<Candle>, pools: seq<LiquidityPool>, config: HunterConfig, swept: set<LiquidityPool>)
    ensures var end := Run(candles, pools, config, swept);
      && swept <= end.swept
      && |end.trades| == |end.backing| && AllDistinct(end.backing)
      && (forall p :: p in end.backing ==> p in pools && p in end.swept && p !in swept)
      && |end.trades| <= |end.swept - swept|
  {
    RunKeepsInvariant(candles, pools, config, swept, MaxInt(0, |candles| - 50));
    var end := Run(candles, pools, config, swept);
    forall p | p in end.backing ensures p in pools && p in end.swept - swept {
      var k :| 0 <= k < |end.backing| && end.backing[k] == p;
      assert TradeStands(candles, pools, config, end.backing[k], end.bars[k], end.trades[k]);
    }
    DistinctInSet(end.backing, end.swept - swept);
  }

  /** One simulation of a series of them over the same pool array. */
  datatype Job = Job(candles: seq<Candle>, config: HunterConfig)

  /** The pools traded by all jobs in turn, and the pools swept in the end. */
  function Lifetime(jobs: seq<Job>, pools: seq<LiquidityPool>, swept: set<LiquidityPool>): (seq<LiquidityPool>, set<LiquidityPool>) {
    if jobs == [] then ([], swept)
    else
      var end := Run(jobs[0].candles, pools, jobs[0].config, swept);
      var (later, final) := Lifetime(jobs[1..], pools, end.swept);
      (end.backing + later, final)
  }

  /** Over any series of runs on one pool array, each pool backs at most one trade ever. */
  lemma {:induction false} OneTradePerPoolEver(jobs: seq<Job>, pools: seq<LiquidityPool>, swept: set<LiquidityPool>)
    ensures var (backing, final) := Lifetime(jobs, pools, swept);
      && AllDistinct(backing) && swept <= final
      && (forall p :: p in backing ==> p in pools && p in final && p !in swept)
      && |backing| <= |final - swept|
  {
    if jobs != [] {
      var end := Run(jobs[0].candles, pools, jobs[0].config, swept);
      PoolsAreConsumed(jobs[0].candles, pools, jobs[0].config, swept);
      OneTradePerPoolEver(jobs[1..], pools, end.swept);
      DistinctConcat(end.backing, Lifetime(jobs[1..], pools, end.swept).0);
    }
    var (backing, final) := Lifetime(jobs, pools, swept);
    DistinctInSet(backing, final - swept);
  }

  /** Two tests run one after the other on the same pool array, as `main` does: the
      second can only trade what the first left unswept. */
  method RunTwice(candles: seq<Candle>, pools: seq<LiquidityPool>, first: HunterConfig, second: HunterConfig)
    returns (trades: seq<SfpTrade>, later: seq<SfpTrade>, ghost backing: seq<LiquidityPool>, ghost laterBacking: seq<LiquidityPool>)
    modifies pools
    ensures |trades| == |backing| && |later| == |laterBacking|
    ensures AllDistinct(backing + laterBacking)
    ensures forall p :: p in backing + laterBacking ==> p in pools && p.isSwept && !old(p.isSwept)
    ensures forall p :: p in pools && old(p.isSwept) ==> p.isSwept
  {
    ghost var before := SweptOf(pools);
    ghost var bars;
    trades, backing, bars := RunLiquidityHunterSimulation(candles, pools, first);
    PoolsAreConsumed(candles, pools, first, before);
    ghost var middle := SweptOf(pools);
    assert forall p :: p in backing ==> p in middle;
    later, laterBacking, bars := RunLiquidityHunterSimulation(candles, pools, second);
    PoolsAreConsumed(candles, pools, second, middle);
    DistinctConcat(backing, laterBacking);
    forall p | p in backing + laterBacking ensures p in pools && p.isSwept && !old(p.isSwept) {
      assert p in pools && p in SweptOf(pools) && p !in before;
    }
    forall p | p in pools && old(p.isSwept) ensures p.isSwept {
      assert p in before && p in SweptOf(pools);
    }
  }

  // ------------------------------------------------------------------- spacing

  /** Consecutive trades are at least max(1, cooldown) bars apart, so n candles give at
      most floor((n - 101) / max(1, cooldown)) + 1 of them. */
  lemma {:induction false} TradesAreSpaced(
    candles: seq<Candle>, pools: seq<LiquidityPool>, config: HunterConfig, swept: set<LiquidityPool>)
    ensures var end := Run(candles, pools, config, swept);
      && |end.bars| == |end.trades| && Spaced(end.bars, Gap(config))
      && |end.trades| <= MaxCount(|candles| - 101, Gap(config))
  {
    RunKeepsInvariant(candles, pools, config, swept, MaxInt(0, |candles| - 50));
    var end := Run(candles, pools, config, swept);
    forall k | 0 <= k < |end.bars| ensures 50 <= end.bars[k] <= 50 + (|candles| - 101) {
      assert TradeStands(candles, pools, config, end.backing[k], end.bars[k], end.trades[k]);
    }
    SpacedCount(end.bars, Gap(config), 50, |candles| - 101);
  }

  // ----------------------------------------------------------- a single trade

  lemma {:induction false} TakenTrade(candles: seq<Candle>, i: nat, pool: PoolData, config: HunterConfig)
    requires i + 1 < |candles| && Chronological(candles) && AttemptAt(candles, i, pool, config).Taken?
    ensures var t := AttemptAt(candles, i, pool, config).trade;
      && t.anchor == pool.id && t.anchorPrice == pool.price && t.direction == DirectionOf(pool.kind)
      && t.entryTime == candles[i].t < t.exitTime && 1 <= t.barsHeld <= 99
      && !t.outcome.Pending? && (t.outcome.StoppedOut? ==> t.realizedR == -1.0)
  {
    hide FeeR;
    var dir := DirectionOf(pool.kind);
    var c, shelf := Oriented(candles[i], dir), OrientedPrice(pool.price, dir);
    var fillPrice, p := OrientedPrice(EntryPrice(c, shelf, config), dir), PlanOf(Risk(c, shelf, config), config);
    ExitTiming(candles, i, fillPrice, dir, p);
    ExitInRange(Forward(candles, i, fillPrice, dir), p);
  }

  /** Every trade of every run is filled on its own signal bar, belongs to an eligible
      pool, leaves strictly later, and books a full loss unless it reached its first target. */
  lemma {:induction false} EveryTrade(
    candles: seq<Candle>, pools: seq<LiquidityPool>, config: HunterConfig, swept: set<LiquidityPool>, k: nat)
    requires Chronological(candles) && k < |Run(candles, pools, config, swept).trades|
    ensures var end := Run(candles, pools, config, swept);
      && k < |end.bars| && k < |end.backing| && 50 <= end.bars[k] < |candles| - 50
      && var t, pool := end.trades[k], end.backing[k];
         && Eligible(pool.originIndex, end.bars[k])
         && t.anchor == pool.id && t.anchorPrice == pool.price && t.direction == DirectionOf(pool.kind)
         && t.entryTime == candles[end.bars[k]].t < t.exitTime && 1 <= t.barsHeld <= 99
         && !t.outcome.Pending? && (t.outcome.StoppedOut? ==> t.realizedR == -1.0)
  {
    hide AttemptAt;
    RunKeepsInvariant(candles, pools, config, swept, MaxInt(0, |candles| - 50));
    var end := Run(candles, pools, config, swept);
    assert TradeStands(candles, pools, config, end.backing[k], end.bars[k], end.trades[k]);
    TakenTrade(candles, end.bars[k], end.backing[k].Data(), config);
  }

  // ---------------------------------------------------------- mirror symmetry

  function MirrorPool(d: PoolData): PoolData {
    d.(kind := if d.kind.BSL? then SSL else BSL, price := -d.price)
  }

  /** The risk of an attempt, the same seen from either side. */
  function RiskAt(candles: seq<Candle>, i: nat, pool: PoolData, config: HunterConfig): real
    requires i < |candles|
  {
    var dir := DirectionOf(pool.kind);
    Risk(Oriented(candles[i], dir), OrientedPrice(pool.price, dir), config)
  }

  lemma {:induction false} OrientedMirror(candles: seq<Candle>, i: nat, pool: PoolData)
    requires i < |candles|
    ensures var dir, dir' := DirectionOf(pool.kind), DirectionOf(MirrorPool(pool).kind);
      && dir' == Flip(dir)
      && Oriented(MirrorCandles(candles)[i], dir') == Oriented(candles[i], dir)
      && OrientedPrice(MirrorPool(pool).price, dir') == OrientedPrice(pool.price, dir)
  {
    assert MirrorCandles(candles)[i] == MirrorCandle(candles[i]);
  }

  /** Mirrored prices sweep mirrored pools alike. Whether the sweep is traded differs
      exactly when its risk lies between the two cut-offs, 0.50 for shorts and 0.80 for longs. */
  lemma {:induction false} AttemptMirror(candles: seq<Candle>, i: nat, pool: PoolData, config: HunterConfig)
    requires i < |candles|
    ensures var here, there := AttemptAt(candles, i, pool, config), AttemptAt(MirrorCandles(candles), i, MirrorPool(pool), config);
      var risk := RiskAt(candles, i, pool, config);
      && (there.NoSweep? <==> here.NoSweep?)
      && (!here.NoSweep? ==>
            && (here.Taken? <==> MinRisk(DirectionOf(pool.kind)) < risk <= config.maxWickDistance)
            && (there.Taken? <==> MinRisk(Flip(DirectionOf(pool.kind))) < risk <= config.maxWickDistance))
      && (here.Taken? != there.Taken? <==> !here.NoSweep? && 0.50 < risk <= 0.80 && risk <= config.maxWickDistance)
  {
    hide TradeAt;
    OrientedMirror(candles, i, pool);
  }

  lemma {:induction false} FeeMirror(outcome: TradeOutcome, fillPrice: real, riskUsd: real, config: HunterConfig)
    requires riskUsd > 0.0
    ensures FeeR(outcome, -fillPrice, riskUsd, config) == -FeeR(outcome, fillPrice, riskUsd, config)
  {
    assert -fillPrice / riskUsd == -(fillPrice / riskUsd);
  }

  lemma {:induction false} Fixed3Odd(x: real)
    ensures Fixed3(-x) == -Fixed3(x)
  {
  }

  /** A trade taken on both sides has the same outcome, timing, risk and gross R, and
      negated prices; its fees change sign with the price they are charged on. */
  lemma {:induction false} TradeMirror(candles: seq<Candle>, i: nat, pool: PoolData, config: HunterConfig)
    requires i < |candles| && RiskAt(candles, i, pool, config) > 0.0
    requires RiskAt(MirrorCandles(candles), i, MirrorPool(pool), config) > 0.0
    ensures var t, t' := TradeAt(candles, i, pool, config), TradeAt(MirrorCandles(candles), i, MirrorPool(pool), config);
      && t'.direction == Flip(t.direction) && t'.outcome == t.outcome && t'.realizedR == t.realizedR && t'.riskUsd == t.riskUsd
      && t'.entryTime == t.entryTime && t'.exitTime == t.exitTime && t'.barsHeld == t.barsHeld
      && t'.entryPrice == -t.entryPrice && t'.stopLoss == -t.stopLoss && t'.sweepPrice == -t.sweepPrice
      && t'.target1 == -t.target1 && t'.target2 == -t.target2 && t'.exitPrice == -t.exitPrice
      && t'.feeR == -t.feeR
  {
    hide Fixed2, Fixed3, FeeR, Walked;
    OrientedMirror(candles, i, pool);
    var dir := DirectionOf(pool.kind);
    var c, shelf := Oriented(candles[i], dir), OrientedPrice(pool.price, dir);
    var riskUsd := Risk(c, shelf, config);
    var fillPrice, p := OrientedPrice(EntryPrice(c, shelf, config), dir), PlanOf(riskUsd, config);
    assert OrientedPrice(EntryPrice(c, shelf, config), Flip(dir)) == -fillPrice;
    var walked := Walked(candles, i, fillPrice, dir, p);
    WalkMirror(candles, i, fillPrice, dir, p);
    FeeMirror(walked.outcome, fillPrice, riskUsd, config);
    Fixed3Odd(FeeR(walked.outcome, fillPrice, riskUsd, config));
    Fixed2Odd(walked.exitPrice);
    Fixed2Odd(FromFrame(fillPrice, dir, p.target1));
    Fixed2Odd(FromFrame(fillPrice, dir, p.target2));
    assert FromFrame(-fillPrice, Flip(dir), p.target1) == -FromFrame(fillPrice, dir, p.target1);
    assert FromFrame(-fillPrice, Flip(dir), p.target2) == -FromFrame(fillPrice, dir, p.target2);
  }
}
