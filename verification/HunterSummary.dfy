/** The performance summary at the end of `runLiquidityHunterSimulation`: outcome counts
    and a compounded account that starts with 1000 and risks 2% a trade. */
module HunterSummary {
  import opened Market
  import opened HunterWalk
  import opened LiquidityHunter
  import opened LiquidityPools
  import opened HunterTheorems
  import Performance

  function NetRs(trades: seq<SfpTrade>): (rs: seq<real>)
    ensures |rs| == |trades|
  {
    seq(|trades|, i requires 0 <= i < |trades| => trades[i].netRealizedR)
  }

  function CountOutcome(trades: seq<SfpTrade>, outcome: TradeOutcome): nat {
    if trades == [] then 0
    else CountOutcome(trades[..|trades| - 1], outcome) + if trades[|trades| - 1].outcome == outcome then 1 else 0
  }

  lemma {:induction false} OutcomesPartition(trades: seq<SfpTrade>)
    requires forall t :: t in trades ==> !t.outcome.Pending?
    ensures CountOutcome(trades, WinFull) + CountOutcome(trades, WinTp1Scratch) + CountOutcome(trades, StoppedOut) == |trades|
  {
    if trades != [] {
      OutcomesPartition(trades[..|trades| - 1]);
      assert trades[|trades| - 1] in trades;
    }
  }

  ghost function Ending(trades: seq<SfpTrade>, n: nat, outcome: TradeOutcome): set<int>
    requires n <= |trades|
  {
    set i | 0 <= i < n && trades[i].outcome == outcome
  }

  /** Each count is the number of trades with that outcome. */
  lemma {:induction false} CountIsCardinality(trades: seq<SfpTrade>, n: nat, outcome: TradeOutcome)
    requires n <= |trades|
    ensures CountOutcome(trades[..n], outcome) == |Ending(trades, n, outcome)|
  {
    if n > 0 {
      CountIsCardinality(trades, n - 1, outcome);
      assert trades[..n][..n - 1] == trades[..n - 1];
      var before := Ending(trades, n - 1, outcome);
      assert Ending(trades, n, outcome) == if trades[n - 1].outcome == outcome then before + {n - 1} else before;
    } else {
      assert Ending(trades, 0, outcome) == {};
    }
  }

  datatype Summary = Summary(totalTrades: nat, wins: nat, tp1Wins: nat, losses: nat, finalEquity: real, maxDdPct: real)

  /** A tenth of the account falls by the same percentage. */
  lemma {:induction false} SamePercentage(peak: real, equity: real, peak10: real, equity10: real)
    requires peak > 0.0 && peak10 == 10.0 * peak && equity10 == 10.0 * equity
    ensures (peak - equity) / peak * 100.0 == (peak10 - equity10) / peak10 * 100.0
  {
    var q := (peak - equity) / peak;
    assert q * peak == peak - equity;
    assert q * peak10 == peak10 - equity10;
    assert (peak10 - equity10) / peak10 == q;
  }

  /** The summary's account is a tenth of the 10000 account of the study script, with
      the same greatest percentage drawdown. */
  method Summarize(trades: seq<SfpTrade>) returns (s: Summary)
    ensures s.totalTrades == |trades|
    ensures s.wins == CountOutcome(trades, WinFull) && s.tp1Wins == CountOutcome(trades, WinTp1Scratch)
    ensures s.losses == CountOutcome(trades, StoppedOut)
    ensures s.finalEquity == 1000.0 * Performance.Growth(NetRs(trades))
    ensures Performance.IsMaxPctDrawdown(NetRs(trades), |trades|, s.maxDdPct)
  {
    hide Performance.AccountHolds, Performance.IsMaxPctDrawdown, Performance.Growth;
    var wins, tp1Wins, losses := 0, 0, 0;
    var equity, peakEquity, maxDdPct := 1000.0, 1000.0, 0.0;
    ghost var rs := NetRs(trades);
    ghost var scaled := Performance.Account(10000.0, 10000.0, 0.0);
    AccountStart(rs);
    for i := 0 to |trades|
      invariant wins == CountOutcome(trades[..i], WinFull) && tp1Wins == CountOutcome(trades[..i], WinTp1Scratch)
      invariant losses == CountOutcome(trades[..i], StoppedOut)
      invariant Performance.AccountHolds(scaled, rs, i) && peakEquity > 0.0
      invariant scaled == Performance.Account(10.0 * equity, 10.0 * peakEquity, maxDdPct)
    {
      var t := trades[i];
      assert trades[..i + 1][..i] == trades[..i];
      wins := wins + if t.outcome.WinFull? then 1 else 0;
      tp1Wins := tp1Wins + if t.outcome.WinTp1Scratch? then 1 else 0;
      losses := losses + if t.outcome.StoppedOut? then 1 else 0;
      equity, peakEquity, maxDdPct, scaled := WalkEquity(equity, peakEquity, maxDdPct, t.netRealizedR, scaled, rs, i);
    }
    assert trades[..|trades|] == trades;
    AccountEnd(scaled, rs);
    s := Summary(|trades|, wins, tp1Wins, losses, equity, maxDdPct);
  }

  /** One step of the equity walk, beside the same step of an account ten times as large. */
  method WalkEquity(equity: real, peakEquity: real, maxDdPct: real, r: real, ghost scaled: Performance.Account, ghost rs: seq<real>, ghost n: nat)
    returns (e: real, p: real, dd: real, ghost next: Performance.Account)
    requires n < |rs| && rs[n] == r && Performance.AccountHolds(scaled, rs, n) && peakEquity > 0.0
    requires scaled == Performance.Account(10.0 * equity, 10.0 * peakEquity, maxDdPct)
    ensures Performance.AccountHolds(next, rs, n + 1) && p > 0.0 && next == Performance.Account(10.0 * e, 10.0 * p, dd)
  {
    hide Performance.IsMaxPctDrawdown, Performance.IsEquityPeak, Performance.Equity;
    Performance.CompoundStep(rs, n);
    Performance.EquityPeakStep(rs, n, scaled.peakEquity);
    var riskUsd := equity * 0.02;
    var pnl := r * riskUsd;
    e := equity + pnl;
    assert 10.0 * e == 10.0 * equity + 10.0 * equity * 0.02 * r;
    p := peakEquity;
    if e > p {
      p := e;
    }
    Performance.PctDrawdownStep(rs, n, 10.0 * p, maxDdPct);
    SamePercentage(p, e, 10.0 * p, 10.0 * e);
    var ddUsd := p - e;
    var ddPct := ddUsd / p * 100.0;
    dd := maxDdPct;
    if ddPct > dd {
      dd := ddPct;
    }
    next := Performance.Account(10.0 * e, 10.0 * p, dd);
  }

  lemma {:induction false} AccountStart(rs: seq<real>)
    ensures Performance.AccountHolds(Performance.Account(10000.0, 10000.0, 0.0), rs, 0)
  {
    Performance.CompoundStart(rs);
  }

  lemma {:induction false} AccountEnd(a: Performance.Account, rs: seq<real>)
    requires Performance.AccountHolds(a, rs, |rs|)
    ensures a.equity == 10000.0 * Performance.Growth(rs) && Performance.IsMaxPctDrawdown(rs, |rs|, a.maxDdPct)
  {
    assert rs[..|rs|] == rs;
  }

  lemma {:induction false} NeverPending(candles: seq<Candle>, i: nat, pool: PoolData, config: HunterConfig)
    requires i < |candles| && AttemptAt(candles, i, pool, config).Taken?
    ensures !AttemptAt(candles, i, pool, config).trade.outcome.Pending?
  {
    hide FeeR, GrossR;
    var dir := DirectionOf(pool.kind);
    var c, shelf := Oriented(candles[i], dir), OrientedPrice(pool.price, dir);
    ExitInRange(Forward(candles, i, OrientedPrice(EntryPrice(c, shelf, config), dir), dir), PlanOf(Risk(c, shelf, config), config));
  }

  /** Of the trades of any run, every one is a full win, a first-target win or a stop-out. */
  lemma {:induction false} RunOutcomesPartition(
    candles: seq<Candle>, pools: seq<LiquidityPool>, config: HunterConfig, swept: set<LiquidityPool>)
    ensures var trades := Run(candles, pools, config, swept).trades;
      CountOutcome(trades, WinFull) + CountOutcome(trades, WinTp1Scratch) + CountOutcome(trades, StoppedOut) == |trades|
  {
    hide AttemptAt;
    RunKeepsInvariant(candles, pools, config, swept, MaxInt(0, |candles| - 50));
    var end := Run(candles, pools, config, swept);
    forall t | t in end.trades ensures !t.outcome.Pending? {
      var k: nat :| k < |end.trades| && end.trades[k] == t;
      assert TradeStands(candles, pools, config, end.backing[k], end.bars[k], end.trades[k]);
      NeverPending(candles, end.bars[k], end.backing[k].Data(), config);
    }
    OutcomesPartition(end.trades);
  }
}
