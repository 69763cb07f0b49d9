/** Mirror symmetry of whole hunter runs: on negated prices and mirrored pools the scan
    sweeps and trades the twin pools on the same bars, exactly as long as no attempt it
    makes has a risk between the two cut-offs. */
module HunterMirror {
  import opened Market
  import opened LiquidityPools
  import opened HunterWalkTheorems
  import opened LiquidityHunter
  import opened HunterTheorems

  type Twins = map<LiquidityPool, LiquidityPool>

  /** A pairing of pools with their mirror images. */
  ghost predicate Pairing(m: Twins) {
    && (forall p :: p in m ==> m[p].Data() == MirrorPool(p.Data()))
    && (forall p, q :: p in m && q in m && p != q ==> m[p] != m[q])
  }

  ghost predicate Covers(m: Twins, pools: seq<LiquidityPool>) { forall p :: p in pools ==> p in m }

  ghost function Image(m: Twins, pools: seq<LiquidityPool>): (r: seq<LiquidityPool>)
    requires Covers(m, pools)
    ensures |r| == |pools| && forall k :: 0 <= k < |pools| ==> r[k] == m[pools[k]]
  {
    seq(|pools|, k requires 0 <= k < |pools| => m[pools[k]])
  }

  /** A pool is swept exactly when its twin is. */
  ghost predicate SweptAlike(m: Twins, swept: set<LiquidityPool>, swept': set<LiquidityPool>) {
    forall p :: p in m ==> (p in swept <==> m[p] in swept')
  }

  lemma {:induction false} ActiveTwins(m: Twins, pools: seq<LiquidityPool>, i: int, swept: set<LiquidityPool>, swept': set<LiquidityPool>)
    requires Pairing(m) && Covers(m, pools) && SweptAlike(m, swept, swept')
    ensures Covers(m, ActivePools(pools, i, swept))
    ensures ActivePools(Image(m, pools), i, swept') == Image(m, ActivePools(pools, i, swept))
  {
    if pools != [] {
      var p := pools[0];
      ActiveTwins(m, pools[1..], i, swept, swept');
      assert Image(m, pools)[1..] == Image(m, pools[1..]);
      assert p in m && m[p].Data() == MirrorPool(p.Data());
      assert m[p].originIndex == m[p].Data().originIndex && p.originIndex == p.Data().originIndex;
    }
  }

  /** The attempt sweeps with a risk that only the short cut-off lets through. */
  ghost predicate FallsBetween(candles: seq<Candle>, i: nat, pool: PoolData, config: HunterConfig)
    requires i < |candles|
  {
    var risk := RiskAt(candles, i, pool, config);
    !AttemptAt(candles, i, pool, config).NoSweep? && 0.50 < risk <= 0.80 && risk <= config.maxWickDistance
  }

  /** None of the attempts of one scan, the last of which may be traded, falls between. */
  ghost predicate ScanAgrees(candles: seq<Candle>, i: nat, active: seq<LiquidityPool>, config: HunterConfig)
    requires i < |candles|
  {
    active == []
    || (&& !FallsBetween(candles, i, active[0].Data(), config)
        && (AttemptAt(candles, i, active[0].Data(), config).Taken? || ScanAgrees(candles, i, active[1..], config)))
  }

  /** The bar is skipped, or none of its attempts falls between. */
  ghost predicate BarAgrees(candles: seq<Candle>, pools: seq<LiquidityPool>, config: HunterConfig, i: nat, st: HunterState)
    requires i < |candles|
  {
    i < st.cooldownUntilIndex || !VolumeOk(candles, i, config) || ScanAgrees(candles, i, ActivePools(pools, i, st.swept), config)
  }

  /** No attempt that the run makes before bar n falls between. */
  ghost predicate RunAgrees(candles: seq<Candle>, pools: seq<LiquidityPool>, config: HunterConfig, swept: set<LiquidityPool>, n: nat)
    requires n <= |candles|
  {
    forall i: nat :: 50 <= i < n ==> BarAgrees(candles, pools, config, i, RunTo(candles, pools, config, swept, i))
  }

  /** The same trade seen in the mirror. */
  ghost predicate MirrorsTrade(t: SfpTrade, t': SfpTrade) {
    && t'.direction == Flip(t.direction) && t'.outcome == t.outcome && t'.realizedR == t.realizedR && t'.riskUsd == t.riskUsd
    && t'.entryTime == t.entryTime && t'.exitTime == t.exitTime && t'.barsHeld == t.barsHeld
    && t'.entryPrice == -t.entryPrice && t'.stopLoss == -t.stopLoss && t'.exitPrice == -t.exitPrice
    && t'.target1 == -t.target1 && t'.target2 == -t.target2 && t'.feeR == -t.feeR
  }

  ghost predicate MirrorsAttempt(a: Attempt, a': Attempt) {
    match a
    case NoSweep => a'.NoSweep?
    case SweptOnly => a'.SweptOnly?
    case Taken(t) => a'.Taken? && MirrorsTrade(t, a'.trade)
  }

  lemma {:induction false} AttemptTwins(candles: seq<Candle>, i: nat, pool: PoolData, config: HunterConfig)
    requires i < |candles|
    ensures var here, there := AttemptAt(candles, i, pool, config), AttemptAt(MirrorCandles(candles), i, MirrorPool(pool), config);
      && (if FallsBetween(candles, i, pool, config) then here.Taken? != there.Taken? else MirrorsAttempt(here, there))
      && (here.NoSweep? <==> there.NoSweep?)
  {
    hide TradeAt, Sweeps;
    AttemptMirror(candles, i, pool, config);
    var a := AttemptAt(candles, i, pool, config);
    if a.Taken? && !FallsBetween(candles, i, pool, config) {
      OrientedMirror(candles, i, pool);
      TradeMirror(candles, i, pool, config);
    }
  }

  ghost predicate MirrorsScan(m: Twins, scan: Scan, scan': Scan) {
    && (forall p :: p in scan.swept ==> p in m) && SweptAlike(m, scan.swept, scan'.swept)
    && match scan.hit
       case None => scan'.hit.None?
       case Some((pool, trade)) =>
         pool in m && scan'.hit.Some? && scan'.hit.value.0 == m[pool] && MirrorsTrade(trade, scan'.hit.value.1)
  }

  lemma {:induction false} ScanTwins(m: Twins, candles: seq<Candle>, i: nat, active: seq<LiquidityPool>, config: HunterConfig)
    requires Pairing(m) && Covers(m, active) && i < |candles| && ScanAgrees(candles, i, active, config)
    ensures MirrorsScan(m, ScanPools(candles, i, active, config), ScanPools(MirrorCandles(candles), i, Image(m, active), config))
  {
    hide AttemptAt, FallsBetween, MirrorsTrade, MirrorPool;
    if active != [] {
      var p := active[0];
      assert p in m && Image(m, active)[1..] == Image(m, active[1..]);
      AttemptTwins(candles, i, p.Data(), config);
      if !AttemptAt(candles, i, p.Data(), config).Taken? {
        ScanTwins(m, candles, i, active[1..], config);
      }
    }
  }

  /** The scans trade twin pools, or none. */
  ghost predicate HitsAlike(m: Twins, scan: Scan, scan': Scan) {
    match scan.hit
    case None => scan'.hit.None?
    case Some((pool, _)) => pool in m && scan'.hit.Some? && scan'.hit.value.0 == m[pool]
  }

  /** An attempt that falls between is traded on one side only, so the scans part. */
  lemma {:induction false} ScansPart(m: Twins, candles: seq<Candle>, i: nat, active: seq<LiquidityPool>, config: HunterConfig)
    requires Pairing(m) && Covers(m, active) && i < |candles| && !ScanAgrees(candles, i, active, config)
    ensures !HitsAlike(m, ScanPools(candles, i, active, config), ScanPools(MirrorCandles(candles), i, Image(m, active), config))
  {
    hide AttemptAt, FallsBetween, MirrorsTrade, MirrorPool;
    var p := active[0];
    assert p in m && Image(m, active)[1..] == Image(m, active[1..]);
    AttemptTwins(candles, i, p.Data(), config);
    ScanFacts(candles, i, active[1..], config);
    ScanFacts(MirrorCandles(candles), i, Image(m, active[1..]), config);
    if !FallsBetween(candles, i, p.Data(), config) {
      ScansPart(m, candles, i, active[1..], config);
    }
  }

  /** The two runs in step: same bars and cooldown, twin pools, mirrored trades. */
  ghost predicate MirrorsState(m: Twins, st: HunterState, st': HunterState) {
    && SweptAlike(m, st.swept, st'.swept) && Covers(m, st.backing)
    && st'.bars == st.bars && st'.cooldownUntilIndex == st.cooldownUntilIndex
    && st'.backing == Image(m, st.backing) && |st.backing| == |st.bars|
    && |st'.trades| == |st.trades| && forall k :: 0 <= k < |st.trades| ==> MirrorsTrade(st.trades[k], st'.trades[k])
  }

  lemma {:induction false} VolumeTwins(candles: seq<Candle>, from: nat, to: nat)
    requires from <= to <= |candles|
    ensures VolumeSum(MirrorCandles(candles), from, to) == VolumeSum(candles, from, to)
  {
    if from < to {
      VolumeTwins(candles, from, to - 1);
    }
  }

  lemma {:induction false} VolumeOkTwins(candles: seq<Candle>, i: nat, config: HunterConfig)
    requires i < |candles|
    ensures VolumeOk(MirrorCandles(candles), i, config) <==> VolumeOk(candles, i, config)
  {
    if i >= 20 {
      VolumeTwins(candles, i - 20, i);
    }
    assert VolumeSma(MirrorCandles(candles), i) == VolumeSma(candles, i);
  }

  lemma {:induction false} BarTwins(m: Twins, candles: seq<Candle>, pools: seq<LiquidityPool>, config: HunterConfig, i: nat, st: HunterState, st': HunterState)
    requires Pairing(m) && Covers(m, pools) && i < |candles| && BarAgrees(candles, pools, config, i, st)
    requires MirrorsState(m, st, st')
    ensures MirrorsState(m, ScanBar(candles, pools, config, i, st), ScanBar(MirrorCandles(candles), Image(m, pools), config, i, st'))
  {
    hide ScanPools, ActivePools, VolumeOk, MirrorsTrade, MirrorPool, ScanAgrees;
    VolumeOkTwins(candles, i, config);
    ActiveTwins(m, pools, i, st.swept, st'.swept);
    if i >= st.cooldownUntilIndex && VolumeOk(candles, i, config) {
      ScanTwins(m, candles, i, ActivePools(pools, i, st.swept), config);
    }
  }

  lemma {:induction false} RunTwins(
    m: Twins, candles: seq<Candle>, pools: seq<LiquidityPool>, config: HunterConfig, swept: set<LiquidityPool>, swept': set<LiquidityPool>, n: nat)
    requires Pairing(m) && Covers(m, pools) && SweptAlike(m, swept, swept') && n <= |candles|
    requires RunAgrees(candles, pools, config, swept, n)
    ensures MirrorsState(m, RunTo(candles, pools, config, swept, n), RunTo(MirrorCandles(candles), Image(m, pools), config, swept', n))
  {
    hide ScanBar, MirrorsTrade, BarAgrees, Pairing;
    if n > 50 {
      RunTwins(m, candles, pools, config, swept, swept', n - 1);
      BarTwins(m, candles, pools, config, n - 1, RunTo(candles, pools, config, swept, n - 1),
               RunTo(MirrorCandles(candles), Image(m, pools), config, swept', n - 1));
    }
  }

  // -------------------------------------------------- runs that part stay apart

  /** The k-th trades of two runs are not twins, and bars from i on cannot mend it. */
  ghost predicate PartAt(m: Twins, st: HunterState, st': HunterState, i: nat, k: nat) {
    && |st.backing| == |st.bars| && |st'.backing| == |st'.bars|
    && if k < |st.bars| && k < |st'.bars| then
         st.bars[k] != st'.bars[k] || st.backing[k] !in m || st'.backing[k] != m[st.backing[k]]
       else if k < |st.bars| then |st'.bars| == k && st.bars[k] < i
       else k < |st'.bars| && |st.bars| == k && st'.bars[k] < i
  }

  lemma {:induction false} BarLogs(candles: seq<Candle>, pools: seq<LiquidityPool>, config: HunterConfig, i: nat, st: HunterState)
    requires i < |candles| && |st.backing| == |st.bars|
    ensures var next := ScanBar(candles, pools, config, i, st);
      || (next.bars == st.bars && next.backing == st.backing)
      || (next.bars == st.bars + [i] && |next.backing| == |next.bars| && next.backing[..|st.bars|] == st.backing)
  {
    hide ScanPools, ActivePools, VolumeOk;
  }

  lemma {:induction false} StaysApart(m: Twins, candles: seq<Candle>, pools: seq<LiquidityPool>, config: HunterConfig, i: nat, k: nat, st: HunterState, st': HunterState)
    requires Covers(m, pools) && i < |candles| && PartAt(m, st, st', i, k)
    ensures PartAt(m, ScanBar(candles, pools, config, i, st), ScanBar(MirrorCandles(candles), Image(m, pools), config, i, st'), i + 1, k)
  {
    hide ScanBar;
    BarLogs(candles, pools, config, i, st);
    BarLogs(MirrorCandles(candles), Image(m, pools), config, i, st');
    var next, next' := ScanBar(candles, pools, config, i, st), ScanBar(MirrorCandles(candles), Image(m, pools), config, i, st');
    assert k < |st.bars| ==> next.backing[k] == next.backing[..|st.bars|][k] == st.backing[k];
    assert k < |st'.bars| ==> next'.backing[k] == next'.backing[..|st'.bars|][k] == st'.backing[k];
  }

  lemma {:induction false} BarParts(m: Twins, candles: seq<Candle>, pools: seq<LiquidityPool>, config: HunterConfig, i: nat, st: HunterState, st': HunterState)
    requires Pairing(m) && Covers(m, pools) && i < |candles| && !BarAgrees(candles, pools, config, i, st)
    requires MirrorsState(m, st, st')
    ensures PartAt(m, ScanBar(candles, pools, config, i, st), ScanBar(MirrorCandles(candles), Image(m, pools), config, i, st'), i + 1, |st.bars|)
  {
    hide ScanPools, ActivePools, VolumeOk, MirrorsTrade, MirrorPool, ScanAgrees;
    VolumeOkTwins(candles, i, config);
    ActiveTwins(m, pools, i, st.swept, st'.swept);
    ScansPart(m, candles, i, ActivePools(pools, i, st.swept), config);
  }

  lemma {:induction false} RunsPart(
    m: Twins, candles: seq<Candle>, pools: seq<LiquidityPool>, config: HunterConfig, swept: set<LiquidityPool>, swept': set<LiquidityPool>, n: nat)
    returns (k: nat)
    requires Pairing(m) && Covers(m, pools) && SweptAlike(m, swept, swept') && n <= |candles|
    requires !RunAgrees(candles, pools, config, swept, n)
    ensures PartAt(m, RunTo(candles, pools, config, swept, n), RunTo(MirrorCandles(candles), Image(m, pools), config, swept', n), n, k)
  {
    hide ScanBar, BarAgrees, Pairing, PartAt, MirrorsState;
    var st, st' := RunTo(candles, pools, config, swept, n - 1), RunTo(MirrorCandles(candles), Image(m, pools), config, swept', n - 1);
    if RunAgrees(candles, pools, config, swept, n - 1) {
      RunTwins(m, candles, pools, config, swept, swept', n - 1);
      BarParts(m, candles, pools, config, n - 1, st, st');
      k := |st.bars|;
    } else {
      k := RunsPart(m, candles, pools, config, swept, swept', n - 1);
      StaysApart(m, candles, pools, config, n - 1, k, st, st');
    }
  }

  /** A whole run on mirrored prices and pools is the mirror image of the run exactly when
      none of the attempts it makes is a sweep with a risk in (0.50, 0.80] within the wick limit. */
  lemma {:induction false} RunMirror(
    m: Twins, candles: seq<Candle>, pools: seq<LiquidityPool>, config: HunterConfig, swept: set<LiquidityPool>, swept': set<LiquidityPool>, n: nat)
    requires Pairing(m) && Covers(m, pools) && SweptAlike(m, swept, swept') && n <= |candles|
    ensures MirrorsState(m, RunTo(candles, pools, config, swept, n), RunTo(MirrorCandles(candles), Image(m, pools), config, swept', n))
            <==> RunAgrees(candles, pools, config, swept, n)
  {
    hide RunTo, RunAgrees, MirrorsTrade, Pairing;
    if RunAgrees(candles, pools, config, swept, n) {
      RunTwins(m, candles, pools, config, swept, swept', n);
    } else {
      var k := RunsPart(m, candles, pools, config, swept, swept', n);
    }
  }
}
