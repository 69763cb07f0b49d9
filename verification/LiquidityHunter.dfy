/** `runLiquidityHunterSimulation` of scripts/run_1m_3m_liquidity_hunter.ts: a scan that
    consumes shared pools, holds a cooldown and opens one trade per bar at most.

    The methods keep the code's long and short halves. The specification states the
    long rules once and applies them to a short through the mirrored candle. */
module LiquidityHunter {
  import opened Market
  import opened Decimal
  import opened LiquidityPools
  import opened HunterWalk

  datatype EntryMode = ShelfRetest | ImmediateClose

  datatype HunterConfig = HunterConfig(
    timeframe: string,
    entryMode: EntryMode,
    minSweepPips: real,
    maxWickDistance: real,
    minVolumeRatio: Option<real>,
    tp1Ratio: real,
    tp2Ratio: real,
    tp1Multiple: real,
    tp2Multiple: real,
    cooldownBars: int,
    makerFeePct: real,
    takerFeePct: real
  )

  datatype SfpTrade = SfpTrade(
    timeframe: string,
    direction: Direction,
    anchor: PoolId,
    anchorPrice: real,
    sweepPrice: real,
    entryPrice: real,
    entryTime: int,
    stopLoss: real,
    riskUsd: real,
    target1: real,
    target2: real,
    outcome: TradeOutcome,
    realizedR: real,
    netRealizedR: real,
    feeR: real,
    exitPrice: real,
    exitTime: int,
    barsHeld: nat
  )

  // ------------------------------------------------------------------- volume

  function VolumeSum(candles: seq<Candle>, from: nat, to: nat): real
    requires from <= to <= |candles|
  {
    if from == to then 0.0 else VolumeSum(candles, from, to - 1) + candles[to - 1].v
  }

  /** Mean volume of the 20 bars before i, zero where there are fewer. */
  function VolumeSma(candles: seq<Candle>, i: nat): real
    requires i < |candles|
  {
    if i < 20 then 0.0 else VolumeSum(candles, i - 20, i) / 20.0
  }

  method PrecomputeVolumeSma(candles: seq<Candle>) returns (volSma: array<real>)
    ensures fresh(volSma) && volSma.Length == |candles|
    ensures forall i :: 0 <= i < |candles| ==> volSma[i] == VolumeSma(candles, i)
  {
    volSma := new real[|candles|](_ => 0.0);
    var i := 20;
    while i < |candles|
      invariant 20 <= i
      invariant forall k :: 0 <= k < |candles| ==> volSma[k] == if k < i then VolumeSma(candles, k) else 0.0
    {
      var sum := 0.0;
      for j := i - 20 to i
        invariant sum == VolumeSum(candles, i - 20, j)
      {
        sum := sum + candles[j].v;
      }
      volSma[i] := sum / 20.0;
      i := i + 1;
    }
  }

  /** The optional volume filter; a zero ratio or a zero average switches nothing on. */
  predicate VolumeOk(candles: seq<Candle>, i: nat, config: HunterConfig)
    requires i < |candles|
  {
    var avgVol := if VolumeSma(candles, i) == 0.0 then 1.0 else VolumeSma(candles, i);
    config.minVolumeRatio.Some? && config.minVolumeRatio.value != 0.0 ==>
      candles[i].v / avgVol >= config.minVolumeRatio.value
  }

  // -------------------------------------------------- meaning of one attempt

  /** A pool on the sell side is traded long, one on the buy side short. */
  function DirectionOf(kind: PoolKind): Direction { if kind.SSL? then LONG else SHORT }

  /** The candle and a price as the long rules see them. */
  function Oriented(c: Candle, dir: Direction): Candle { if dir.LONG? then c else MirrorCandle(c) }

  function OrientedPrice(x: real, dir: Direction): real { if dir.LONG? then x else -x }

  /** The cut-off below which a trade's risk is too small: not the same on both sides. */
  function MinRisk(dir: Direction): real { if dir.LONG? then 0.80 else 0.50 }

  /** The wick runs through the shelf and the bar recovers it, by its close or by its wick. */
  predicate Sweeps(c: Candle, shelf: real, config: HunterConfig) {
    && c.l < shelf
    && shelf - c.l >= config.minSweepPips
    && (  || (c.c > shelf && c.c > c.o)
          || (c.h > c.l && (Min(c.o, c.c) - c.l) / (c.h - c.l) >= 0.40 && c.c >= shelf - 0.50))
  }

  function EntryPrice(c: Candle, shelf: real, config: HunterConfig): real {
    if config.entryMode.ShelfRetest? then shelf else c.c
  }

  function Risk(c: Candle, shelf: real, config: HunterConfig): real {
    EntryPrice(c, shelf, config) - (c.l - 0.20)
  }

  datatype Attempt = NoSweep | SweptOnly | Taken(trade: SfpTrade)

  function GrossR(outcome: TradeOutcome, config: HunterConfig): real {
    match outcome
    case WinFull => config.tp1Ratio * config.tp1Multiple + config.tp2Ratio * config.tp2Multiple
    case WinTp1Scratch => config.tp1Ratio * config.tp1Multiple
    case _ => -1.0
  }

  /** The taker fee on entry, and again on a stop-out, in multiples of the risk. */
  function FeeR(outcome: TradeOutcome, fillPrice: real, riskUsd: real, config: HunterConfig): real
    requires riskUsd > 0.0
  {
    var oneSide := fillPrice / riskUsd * (config.takerFeePct / 100.0);
    if outcome.StoppedOut? then oneSide + oneSide else oneSide
  }

  function PlanOf(riskUsd: real, config: HunterConfig): Plan {
    Plan(-riskUsd, config.tp1Multiple * riskUsd, config.tp2Multiple * riskUsd)
  }

  /** The trade opened on bar i against a pool, filled on that same bar. */
  function TradeAt(candles: seq<Candle>, i: nat, pool: PoolData, config: HunterConfig): SfpTrade
    requires i < |candles|
    requires var dir := DirectionOf(pool.kind);
      Risk(Oriented(candles[i], dir), OrientedPrice(pool.price, dir), config) > 0.0
  {
    var dir := DirectionOf(pool.kind);
    var c, shelf := Oriented(candles[i], dir), OrientedPrice(pool.price, dir);
    var riskUsd := Risk(c, shelf, config);
    var fillPrice := OrientedPrice(EntryPrice(c, shelf, config), dir);
    var p := PlanOf(riskUsd, config);
    var walked := Walked(candles, i, fillPrice, dir, p);
    var grossR, feeR := GrossR(walked.outcome, config), FeeR(walked.outcome, fillPrice, riskUsd, config);
    SfpTrade(
      config.timeframe, dir, pool.id, pool.price, OrientedPrice(c.l, dir), fillPrice, candles[i].t,
      FromFrame(fillPrice, dir, p.stop), Fixed2(riskUsd),
      Fixed2(FromFrame(fillPrice, dir, p.target1)), Fixed2(FromFrame(fillPrice, dir, p.target2)),
      walked.outcome, Fixed2(grossR), Fixed2(grossR - feeR), Fixed3(feeR),
      Fixed2(walked.exitPrice), walked.exitTime, walked.barsHeld)
  }

  /** What bar i does with one pool. */
  function AttemptAt(candles: seq<Candle>, i: nat, pool: PoolData, config: HunterConfig): Attempt
    requires i < |candles|
  {
    var dir := DirectionOf(pool.kind);
    var c, shelf := Oriented(candles[i], dir), OrientedPrice(pool.price, dir);
    if !Sweeps(c, shelf, config) then NoSweep
    else if MinRisk(dir) < Risk(c, shelf, config) <= config.maxWickDistance then Taken(TradeAt(candles, i, pool, config))
    else SweptOnly
  }

  // ------------------------------------------------ the two hand-written halves

  /** Waits up to five bars for a dip to the shelf; it ends on the first one there is. */
  method AwaitDip(candles: seq<Candle>, i: nat, shelf: real) returns (filled: bool, fillIndex: nat)
    requires i < |candles|
    ensures i <= fillIndex < |candles|
    ensures filled <==> exists f :: i <= f <= MinInt(|candles| - 1, i + 5) && candles[f].l <= shelf
    ensures filled ==> candles[fillIndex].l <= shelf && forall f :: i <= f < fillIndex ==> candles[f].l > shelf
  {
    filled, fillIndex := false, i;
    var f := i;
    while f <= MinInt(|candles| - 1, i + 5)
      invariant i <= f
      invariant forall k :: i <= k < f && k < |candles| ==> candles[k].l > shelf
    {
      if candles[f].l <= shelf {
        return true, f;
      }
      f := f + 1;
    }
  }

  method AwaitRally(candles: seq<Candle>, i: nat, shelf: real) returns (filled: bool, fillIndex: nat)
    requires i < |candles|
    ensures i <= fillIndex < |candles|
    ensures filled <==> exists f :: i <= f <= MinInt(|candles| - 1, i + 5) && candles[f].h >= shelf
    ensures filled ==> candles[fillIndex].h >= shelf && forall f :: i <= f < fillIndex ==> candles[f].h < shelf
  {
    filled, fillIndex := false, i;
    var f := i;
    while f <= MinInt(|candles| - 1, i + 5)
      invariant i <= f
      invariant forall k :: i <= k < f && k < |candles| ==> candles[k].h < shelf
    {
      if candles[f].h >= shelf {
        return true, f;
      }
      f := f + 1;
    }
  }

  lemma {:induction false} FeeFromNotional(fillPrice: real, riskUsd: real)
    requires riskUsd > 0.0 && fillPrice != 0.0
    ensures riskUsd / fillPrice != 0.0
    ensures 1.0 / (riskUsd / fillPrice) == fillPrice / riskUsd
  {
    var q := riskUsd / fillPrice;
    assert q * fillPrice == riskUsd;
    assert q != 0.0;
    assert (1.0 / q) * riskUsd == (1.0 / q) * q * fillPrice == fillPrice;
  }

  /** Fees and returns of a finished walk: gross, net and fee R. Dividing the risk by a
      zero price gives an infinity, whose reciprocal is zero. */
  method Book(outcome: TradeOutcome, fillPrice: real, riskUsd: real, config: HunterConfig)
    returns (grossR: real, netR: real, feeR: real)
    requires riskUsd > 0.0
    ensures grossR == GrossR(outcome, config) && feeR == FeeR(outcome, fillPrice, riskUsd, config)
    ensures netR == grossR - feeR
  {
    grossR := 0.0;
    if outcome.WinFull? {
      grossR := config.tp1Ratio * config.tp1Multiple + config.tp2Ratio * config.tp2Multiple;
    } else if outcome.WinTp1Scratch? {
      grossR := config.tp1Ratio * config.tp1Multiple;
    } else {
      grossR := -1.0;
    }
    var notionalMultiplier := 0.0;
    if fillPrice != 0.0 {
      FeeFromNotional(fillPrice, riskUsd);
      notionalMultiplier := 1.0 / (riskUsd / fillPrice);
    }
    assert notionalMultiplier == fillPrice / riskUsd;
    var entryFeeR := notionalMultiplier * (config.takerFeePct / 100.0);
    var exitFeeR := if outcome.StoppedOut? then notionalMultiplier * (config.takerFeePct / 100.0) else 0.0;
    feeR := entryFeeR + exitFeeR;
    netR := grossR - feeR;
  }

  /** Whether the bar is a bullish swing failure of the shelf. */
  method IsBullishSfp(c: Candle, shelf: real, config: HunterConfig) returns (sweeps: bool)
    ensures sweeps == Sweeps(c, shelf, config)
  {
    var swept := c.l < shelf;
    var sweepDepth := shelf - c.l;
    if !(swept && sweepDepth >= config.minSweepPips) { return false; }
    var isSfpClose := c.c > shelf && c.c > c.o;
    var lowerWick := Min(c.o, c.c) - c.l;
    var totalRange := c.h - c.l;
    var isRejectionWick := totalRange > 0.0 && lowerWick / totalRange >= 0.40;
    return isSfpClose || (isRejectionWick && c.c >= shelf - 0.50);
  }

  method IsBearishSfp(c: Candle, shelf: real, config: HunterConfig) returns (sweeps: bool)
    ensures sweeps == Sweeps(MirrorCandle(c), -shelf, config)
  {
    var swept := c.h > shelf;
    var sweepDepth := c.h - shelf;
    if !(swept && sweepDepth >= config.minSweepPips) { return false; }
    var isSfpClose := c.c < shelf && c.c < c.o;
    var upperWick := c.h - Max(c.o, c.c);
    var totalRange := c.h - c.l;
    var isRejectionWick := totalRange > 0.0 && upperWick / totalRange >= 0.40;
    assert upperWick == Min(-c.o, -c.c) - -c.h;
    return isSfpClose || (isRejectionWick && c.c <= shelf + 0.50);
  }

  method TryLong(candles: seq<Candle>, i: nat, pool: LiquidityPool, config: HunterConfig) returns (r: Attempt)
    requires i < |candles| && pool.kind.SSL?
    ensures r == AttemptAt(candles, i, pool.Data(), config)
  {
    hide Sweeps, GrossR, FeeR, Walked, Fixed2, Fixed3, Cents;
    var currentCandle := candles[i];
    var sweeps := IsBullishSfp(currentCandle, pool.price, config);
    if !sweeps { return NoSweep; }
    var sweepPrice := currentCandle.l;
    var stopLoss := sweepPrice - 0.20;
    var entryPrice := if config.entryMode.ShelfRetest? then pool.price else currentCandle.c;
    var riskUsd := entryPrice - stopLoss;
    if riskUsd <= 0.80 || riskUsd > config.maxWickDistance { return SweptOnly; }

    var filled, fillIndex, fillPrice := false, i, entryPrice;
    if config.entryMode.ImmediateClose? {
      filled, fillIndex, fillPrice := true, i, currentCandle.c;
    } else {
      filled, fillIndex := AwaitDip(candles, i, pool.price);
      fillPrice := pool.price;
    }
    assert filled && fillIndex == i;

    var tp1Price := fillPrice + config.tp1Multiple * riskUsd;
    var tp2Price := fillPrice + config.tp2Multiple * riskUsd;
    var walked := WalkLong(candles, fillIndex, fillPrice, stopLoss, tp1Price, tp2Price);
    assert Plan(stopLoss - fillPrice, tp1Price - fillPrice, tp2Price - fillPrice) == PlanOf(riskUsd, config);
    var grossR, netR, feeR := Book(walked.outcome, fillPrice, riskUsd, config);
    r := Taken(SfpTrade(
      config.timeframe, LONG, pool.id, pool.price, sweepPrice, fillPrice, candles[fillIndex].t, stopLoss,
      Fixed2(riskUsd), Fixed2(tp1Price), Fixed2(tp2Price), walked.outcome,
      Fixed2(grossR), Fixed2(netR), Fixed3(feeR), Fixed2(walked.exitPrice), walked.exitTime, walked.barsHeld));
  }

  method TryShort(candles: seq<Candle>, i: nat, pool: LiquidityPool, config: HunterConfig) returns (r: Attempt)
    requires i < |candles| && pool.kind.BSL?
    ensures r == AttemptAt(candles, i, pool.Data(), config)
  {
    hide Sweeps, GrossR, FeeR, Walked, Fixed2, Fixed3, Cents;
    var currentCandle := candles[i];
    var sweeps := IsBearishSfp(currentCandle, pool.price, config);
    if !sweeps { return NoSweep; }
    var sweepPrice := currentCandle.h;
    var stopLoss := sweepPrice + 0.20;
    var entryPrice := if config.entryMode.ShelfRetest? then pool.price else currentCandle.c;
    var riskUsd := stopLoss - entryPrice;
    if riskUsd <= 0.50 || riskUsd > config.maxWickDistance { return SweptOnly; }

    var filled, fillIndex, fillPrice := false, i, entryPrice;
    if config.entryMode.ImmediateClose? {
      filled, fillIndex, fillPrice := true, i, currentCandle.c;
    } else {
      filled, fillIndex := AwaitRally(candles, i, pool.price);
      fillPrice := pool.price;
    }
    assert filled && fillIndex == i;

    var tp1Price := fillPrice - config.tp1Multiple * riskUsd;
    var tp2Price := fillPrice - config.tp2Multiple * riskUsd;
    var walked := WalkShort(candles, fillIndex, fillPrice, stopLoss, tp1Price, tp2Price);
    assert Plan(fillPrice - stopLoss, fillPrice - tp1Price, fillPrice - tp2Price) == PlanOf(riskUsd, config);
    var grossR, netR, feeR := Book(walked.outcome, fillPrice, riskUsd, config);
    r := Taken(SfpTrade(
      config.timeframe, SHORT, pool.id, pool.price, sweepPrice, fillPrice, candles[fillIndex].t, stopLoss,
      Fixed2(riskUsd), Fixed2(tp1Price), Fixed2(tp2Price), walked.outcome,
      Fixed2(grossR), Fixed2(netR), Fixed3(feeR), Fixed2(walked.exitPrice), walked.exitTime, walked.barsHeld));
  }

  // ------------------------------------------------------- the scan as a run

  /** The pools a bar considers, in order: unswept, and between 6 and 299 bars old. */
  function ActivePools(pools: seq<LiquidityPool>, i: int, swept: set<LiquidityPool>): seq<LiquidityPool> {
    if pools == [] then []
    else
      var rest := ActivePools(pools[1..], i, swept);
      var p := pools[0];
      if p !in swept && p.originIndex < i - 5 && i - p.originIndex < 300 then [p] + rest else rest
  }

  datatype Scan = Scan(swept: set<LiquidityPool>, hit: Option<(LiquidityPool, SfpTrade)>)

  /** The pools of one bar, tried in order until one of them is traded. */
  function ScanPools(candles: seq<Candle>, i: nat, active: seq<LiquidityPool>, config: HunterConfig): Scan
    requires i < |candles|
  {
    if active == [] then Scan({}, None)
    else
      match AttemptAt(candles, i, active[0].Data(), config)
      case NoSweep => ScanPools(candles, i, active[1..], config)
      case SweptOnly =>
        var rest := ScanPools(candles, i, active[1..], config);
        rest.(swept := rest.swept + {active[0]})
      case Taken(trade) => Scan({active[0]}, Some((active[0], trade)))
  }

  /** The scan's state, with the bar and the pool of each trade recorded beside it. */
  datatype HunterState = HunterState(
    swept: set<LiquidityPool>,
    cooldownUntilIndex: int,
    trades: seq<SfpTrade>,
    backing: seq<LiquidityPool>,
    bars: seq<int>
  )

  function ScanBar(candles: seq<Candle>, pools: seq<LiquidityPool>, config: HunterConfig, i: nat, st: HunterState): HunterState
    requires i < |candles|
  {
    if i < st.cooldownUntilIndex || !VolumeOk(candles, i, config) then st
    else
      var scan := ScanPools(candles, i, ActivePools(pools, i, st.swept), config);
      match scan.hit
      case None => st.(swept := st.swept + scan.swept)
      case Some((pool, trade)) =>
        HunterState(st.swept + scan.swept, i + config.cooldownBars, st.trades + [trade], st.backing + [pool], st.bars + [i])
  }

  /** The state after the bars 50, ..., n - 1, starting from the pools already swept. */
  function RunTo(candles: seq<Candle>, pools: seq<LiquidityPool>, config: HunterConfig, swept: set<LiquidityPool>, n: nat): HunterState
    requires n <= |candles|
  {
    if n <= 50 then HunterState(swept, 0, [], [], [])
    else ScanBar(candles, pools, config, n - 1, RunTo(candles, pools, config, swept, n - 1))
  }

  function Run(candles: seq<Candle>, pools: seq<LiquidityPool>, config: HunterConfig, swept: set<LiquidityPool>): HunterState {
    RunTo(candles, pools, config, swept, MaxInt(0, |candles| - 50))
  }

  ghost function SweptOf(pools: seq<LiquidityPool>): set<LiquidityPool>
    reads pools
  {
    set p | p in pools && p.isSwept
  }

  lemma {:induction false} ActiveArePools(pools: seq<LiquidityPool>, i: int, swept: set<LiquidityPool>)
    ensures forall p :: p in ActivePools(pools, i, swept) ==>
      p in pools && p !in swept && p.originIndex < i - 5 && i - p.originIndex < 300
  {
    if pools != [] {
      ActiveArePools(pools[1..], i, swept);
    }
  }

  method FilterActive(pools: seq<LiquidityPool>, i: nat) returns (active: seq<LiquidityPool>)
    ensures active == ActivePools(pools, i, SweptOf(pools))
  {
    active := [];
    ghost var swept := SweptOf(pools);
    var k := |pools|;
    while k > 0
      invariant 0 <= k <= |pools| && active == ActivePools(pools[k..], i, swept)
    {
      k := k - 1;
      var p := pools[k];
      assert pools[k..][1..] == pools[k + 1..];
      assert p in pools;
      if !p.isSwept && p.originIndex < i - 5 && i - p.originIndex < 300 {
        active := [p] + active;
      }
    }
  }

  method MarkSwept(pools: seq<LiquidityPool>, pool: LiquidityPool)
    requires pool in pools
    modifies pool
    ensures SweptOf(pools) == old(SweptOf(pools)) + {pool}
  {
    pool.isSwept := true;
    assert forall p :: p in pools && p != pool ==> p.isSwept == old(p.isSwept);
  }

  /** Tries the active pools in order, marking each pool it sweeps, until one is traded. */
  method TryPools(candles: seq<Candle>, i: nat, pools: seq<LiquidityPool>, active: seq<LiquidityPool>, config: HunterConfig)
    returns (hit: Option<(LiquidityPool, SfpTrade)>)
    requires i < |candles| && forall p :: p in active ==> p in pools
    modifies pools
    ensures var scan := ScanPools(candles, i, active, config);
      hit == scan.hit && SweptOf(pools) == old(SweptOf(pools)) + scan.swept
  {
    hide AttemptAt;
    hit := None;
    ghost var before := SweptOf(pools);
    ghost var marked: set<LiquidityPool> := {};
    ghost var scan := ScanPools(candles, i, active, config);
    var k := 0;
    while k < |active|
      invariant 0 <= k <= |active| && hit == None
      invariant var rest := ScanPools(candles, i, active[k..], config);
        scan == Scan(marked + rest.swept, rest.hit)
      invariant SweptOf(pools) == before + marked
    {
      var pool := active[k];
      assert pool in active && pool in pools;
      assert active[k..][0] == pool && active[k..][1..] == active[k + 1..];
      var r;
      if pool.kind.SSL? {
        r := TryLong(candles, i, pool, config);
      } else {
        r := TryShort(candles, i, pool, config);
      }
      if !r.NoSweep? {
        MarkSwept(pools, pool);
        marked := marked + {pool};
      }
      if r.Taken? {
        hit := Some((pool, r.trade));
        return;
      }
      k := k + 1;
    }
  }

  /** The scan over the bars that have 50 bars on either side. `backing` and `bars` name
      the pool and the signal bar of each trade. */
  method RunLiquidityHunterSimulation(candles: seq<Candle>, pools: seq<LiquidityPool>, config: HunterConfig)
    returns (trades: seq<SfpTrade>, ghost backing: seq<LiquidityPool>, ghost bars: seq<int>)
    modifies pools
    ensures var end := Run(candles, pools, config, old(SweptOf(pools)));
      trades == end.trades && SweptOf(pools) == end.swept && backing == end.backing && bars == end.bars
  {
    trades, backing, bars := [], [], [];
    var cooldownUntilIndex := 0;
    ghost var before := SweptOf(pools);
    var volSma := PrecomputeVolumeSma(candles);
    var i := 50;
    while i < |candles| - 50
      invariant 50 <= i && (i == 50 || i <= |candles| - 50)
      invariant forall k :: 0 <= k < |candles| ==> volSma[k] == VolumeSma(candles, k)
      invariant i <= |candles| ==>
        RunTo(candles, pools, config, before, i) == HunterState(SweptOf(pools), cooldownUntilIndex, trades, backing, bars)
      invariant i == 50 ==> trades == [] && backing == [] && bars == [] && SweptOf(pools) == before
    {
      i := i + 1;
      var bar := i - 1;
      if bar < cooldownUntilIndex { continue; }
      var avgVol := if volSma[bar] == 0.0 then 1.0 else volSma[bar];
      var volRatio := candles[bar].v / avgVol;
      if config.minVolumeRatio.Some? && config.minVolumeRatio.value != 0.0 && volRatio < config.minVolumeRatio.value { continue; }
      var active := FilterActive(pools, bar);
      ActiveArePools(pools, bar, SweptOf(pools));
      var hit := TryPools(candles, bar, pools, active, config);
      if hit.Some? {
        trades := trades + [hit.value.1];
        backing, bars := backing + [hit.value.0], bars + [bar];
        cooldownUntilIndex := bar + config.cooldownBars;
      }
    }
  }
}
