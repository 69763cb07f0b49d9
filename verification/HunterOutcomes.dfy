/** The hunter in candle prices alone: what a sweep is, which trade it opens, which bar ends
    that trade and at what price, and which pools a bar consumes. */
module HunterOutcomes {
  import opened Market
  import opened Decimal
  import opened Ordering
  import opened LiquidityPools
  import opened HunterWalk
  import opened LiquidityHunter
  import opened HunterTheorems

  // ------------------------------------------------------------- the forward walk

  /** A filled trade and its price levels. */
  datatype Trip = Trip(candles: seq<Candle>, fill: nat, price: real, stop: real, target1: real, target2: real, dir: Direction) {

    ghost predicate Valid() { fill < |candles| }

    /** The bars walked: at most 99 after the fill. */
    ghost predicate Held(k: int) { fill < k < |candles| && k < fill + 100 }

    ghost predicate AtStop(k: int) { Held(k) && if dir == LONG then candles[k].l <= stop else candles[k].h >= stop }

    ghost predicate At1(k: int) { Held(k) && if dir == LONG then candles[k].h >= target1 else candles[k].l <= target1 }

    ghost predicate At2(k: int) { Held(k) && if dir == LONG then candles[k].h >= target2 else candles[k].l <= target2 }

    /** The stop after the first target lies ten cents beyond the fill. */
    ghost function Even(): real { if dir == LONG then price + 0.10 else price - 0.10 }

    ghost predicate AtEven(k: int) { Held(k) && if dir == LONG then candles[k].l <= Even() else candles[k].h >= Even() }

    ghost predicate Fresh(k: int) { forall j :: fill < j < k ==> !AtStop(j) && !At1(j) }

    /** The stop is checked before the target. */
    ghost predicate Loses(k: int) { Fresh(k) && AtStop(k) }

    ghost predicate Banks(k: int) { Fresh(k) && At1(k) && !AtStop(k) }

    /** Banked on bar p, the trade met neither the moved stop nor the second target before bar k. */
    ghost predicate Runs(p: int, k: int) {
      p < k && Banks(p) && !At2(p) && forall j :: p < j < k ==> !AtEven(j) && !At2(j)
    }

    ghost predicate Wins(k: int) { At2(k) && (Banks(k) || (!AtEven(k) && exists p :: Runs(p, k))) }

    ghost predicate Evens(k: int) { AtEven(k) && exists p :: Runs(p, k) }

    ghost predicate Ends(k: int) { Loses(k) || Wins(k) || Evens(k) }

    ghost function PlanFor(): Plan {
      if dir == LONG then Plan(stop - price, target1 - price, target2 - price) else Plan(price - stop, price - target1, price - target2)
    }

    ghost function Legs(): seq<Leg>
      requires Valid()
    {
      Forward(candles, fill, price, dir)
    }

    ghost function Result(): WalkResult
      requires Valid()
    {
      Walked(candles, fill, price, dir, PlanFor())
    }
  }

  lemma {:induction false} Frame(t: Trip, k: int)
    requires t.Valid() && t.Held(k)
    ensures var legs, p, i := t.Legs(), t.PlanFor(), k - t.fill - 1;
      && 0 <= i < |legs|
      && (t.AtStop(k) <==> StopAt(legs, p, i)) && (t.At1(k) <==> Tp1At(legs, p, i)) && (t.At2(k) <==> Tp2At(legs, p, i))
      && (t.AtEven(k) <==> BreakevenAt(legs, i))
  {
    assert t.Legs()[k - t.fill - 1] == ToLeg(t.candles[k], t.price, t.dir.LONG?);
  }

  lemma {:induction false} NotHeld(t: Trip, k: int)
    requires !t.Held(k)
    ensures !t.AtStop(k) && !t.At1(k) && !t.At2(k) && !t.AtEven(k)
  {
  }

  lemma {:induction false} LegsAreHeld(t: Trip)
    requires t.Valid()
    ensures forall k :: t.Held(k) <==> 0 <= k - t.fill - 1 < |t.Legs()|
    ensures t.fill + |t.Legs()| + 1 == if t.fill + 100 < |t.candles| then t.fill + 100 else |t.candles|
  {
  }

  lemma {:induction false} FreshIs(t: Trip, k: int)
    requires t.Valid() && t.fill < k <= t.fill + 1 + |t.Legs()|
    ensures t.Fresh(k) <==> k - t.fill - 1 <= FirstEvent(t.Legs(), t.PlanFor(), 0)
  {
    hide StopAt, Tp1At, Forward, Trip.AtStop, Trip.At1, Trip.PlanFor;
    LegsAreHeld(t);
    var legs, p := t.Legs(), t.PlanFor();
    forall j | t.fill < j < k ensures !t.AtStop(j) && !t.At1(j) <==> !StopAt(legs, p, j - t.fill - 1) && !Tp1At(legs, p, j - t.fill - 1) {
      Frame(t, j);
    }
    var s := FirstEvent(legs, p, 0);
    if s < k - t.fill - 1 {
      assert !(!t.AtStop(t.fill + 1 + s) && !t.At1(t.fill + 1 + s));
    }
  }

  /** The bar of the first target, as an offset; none if it is the walk's length. */
  ghost function Bank(t: Trip): nat
    requires t.Valid()
  {
    var legs, p := t.Legs(), t.PlanFor();
    var s := FirstEvent(legs, p, 0);
    if s < |legs| && StopAt(legs, p, s) then |legs| else s
  }

  lemma {:induction false} BankIs(t: Trip, k: int)
    requires t.Valid()
    ensures t.Banks(k) <==> k == t.fill + 1 + Bank(t) && Bank(t) < |t.Legs()|
    ensures t.Loses(k) <==>
      var s := FirstEvent(t.Legs(), t.PlanFor(), 0);
      k == t.fill + 1 + s && s < |t.Legs()| && StopAt(t.Legs(), t.PlanFor(), s)
  {
    hide StopAt, Tp1At, Forward, Trip.AtStop, Trip.At1, Trip.PlanFor, Trip.Fresh;
    LegsAreHeld(t);
    if t.Held(k) {
      Frame(t, k);
      FreshIs(t, k);
    } else {
      NotHeld(t, k);
    }
  }

  lemma {:induction false} RunsIs(t: Trip, p: int, k: int)
    requires t.Valid() && t.fill < k <= t.fill + 1 + |t.Legs()|
    ensures t.Runs(p, k) <==>
      && Bank(t) < |t.Legs()| && p == t.fill + 1 + Bank(t) < k && !Tp2At(t.Legs(), t.PlanFor(), Bank(t))
      && k - t.fill - 1 <= FirstRunnerEvent(t.Legs(), t.PlanFor(), Bank(t) + 1)
  {
    hide Tp2At, BreakevenAt, Forward, Trip.At2, Trip.AtEven, Trip.PlanFor, Trip.Banks, Bank;
    LegsAreHeld(t);
    BankIs(t, p);
    var legs, plan := t.Legs(), t.PlanFor();
    if t.Banks(p) && p < k {
      Frame(t, p);
      forall j | p < j < k
        ensures !t.AtEven(j) && !t.At2(j) <==> !BreakevenAt(legs, j - t.fill - 1) && !Tp2At(legs, plan, j - t.fill - 1)
      {
        Frame(t, j);
      }
      var e := FirstRunnerEvent(legs, plan, Bank(t) + 1);
      if e < k - t.fill - 1 {
        assert !(!t.AtEven(t.fill + 1 + e) && !t.At2(t.fill + 1 + e));
      }
    }
  }

  /** The walk leaves on bar k at frame price `price`. */
  ghost predicate Leaves(t: Trip, outcome: TradeOutcome, price: real, k: int)
    requires t.Valid()
  {
    var e := TradeExit(t.Legs(), t.PlanFor());
    e.Closed? && e.outcome == outcome && e.price == price && t.fill + 1 + e.bar == k
  }

  lemma {:induction false} EndingIs(t: Trip, k: int)
    requires t.Valid()
    ensures t.Loses(k) ==> Leaves(t, StoppedOut, t.PlanFor().stop, k)
    ensures t.Wins(k) ==> Leaves(t, WinFull, t.PlanFor().target2, k)
    ensures t.Evens(k) ==> Leaves(t, WinTp1Scratch, 0.10, k)
  {
    hide StopAt, Tp1At, Tp2At, BreakevenAt, Forward, Trip.AtStop, Trip.At1, Trip.At2, Trip.AtEven, Trip.PlanFor, Trip.Loses, Trip.Banks, Trip.Runs;
    LegsAreHeld(t);
    BankIs(t, k);
    if t.Held(k) {
      Frame(t, k);
      forall p ensures t.Runs(p, k) ==>
        && Bank(t) < |t.Legs()| && p == t.fill + 1 + Bank(t) < k && !Tp2At(t.Legs(), t.PlanFor(), Bank(t))
        && k - t.fill - 1 <= FirstRunnerEvent(t.Legs(), t.PlanFor(), Bank(t) + 1)
      {
        RunsIs(t, p, k);
      }
    } else {
      NotHeld(t, k);
    }
  }

  lemma {:induction false} ClosedEnds(t: Trip)
    requires t.Valid()
    ensures var e := TradeExit(t.Legs(), t.PlanFor());
      && (e.Closed? ==> t.Ends(t.fill + 1 + e.bar))
      && (e.TimedOut? ==> e.outcome == if Bank(t) < |t.Legs()| then WinTp1Scratch else StoppedOut)
  {
    hide StopAt, Tp1At, Tp2At, BreakevenAt, Forward, Trip.AtStop, Trip.At1, Trip.At2, Trip.AtEven, Trip.PlanFor, Trip.Loses, Trip.Banks, Trip.Runs;
    LegsAreHeld(t);
    ExitInRange(t.Legs(), t.PlanFor());
    var e := TradeExit(t.Legs(), t.PlanFor());
    if e.Closed? {
      var k := t.fill + 1 + e.bar;
      Frame(t, k);
      BankIs(t, k);
      RunsIs(t, t.fill + 1 + Bank(t), k);
    }
  }

  /** For every candle series, fill and levels, long or short: the event that ends the trade
      decides its outcome, exit price, exit time and bars held. If none happens, the trade
      is closed at the close of bar fill + 100, or of the last candle. */
  lemma {:induction false} WalkByPrices(t: Trip)
    requires t.Valid()
    ensures var res := t.Result();
      && (forall k :: t.Loses(k) ==> 0 <= k < |t.candles| && res == WalkResult(StoppedOut, t.stop, t.candles[k].t, k - t.fill))
      && (forall k :: t.Wins(k) ==> 0 <= k < |t.candles| && res == WalkResult(WinFull, t.target2, t.candles[k].t, k - t.fill))
      && (forall k :: t.Evens(k) ==> 0 <= k < |t.candles| && res == WalkResult(WinTp1Scratch, t.Even(), t.candles[k].t, k - t.fill))
      && ((forall k :: !t.Ends(k)) ==>
            var last := t.candles[if t.fill + 100 < |t.candles| then t.fill + 100 else |t.candles| - 1];
            var walked := if t.fill + 100 < |t.candles| then 99 else |t.candles| - t.fill - 1;
            res == WalkResult(if exists p :: t.Banks(p) then WinTp1Scratch else StoppedOut, last.c, last.t, walked))
  {
    hide TradeExit, Forward, Bank, Trip.Loses, Trip.Wins, Trip.Evens, Trip.Banks;
    LegsAreHeld(t);
    ExitInRange(t.Legs(), t.PlanFor());
    forall k
      ensures && (t.Loses(k) ==> Leaves(t, StoppedOut, t.PlanFor().stop, k)) && (t.Wins(k) ==> Leaves(t, WinFull, t.PlanFor().target2, k))
              && (t.Evens(k) ==> Leaves(t, WinTp1Scratch, 0.10, k))
    {
      EndingIs(t, k);
    }
    ClosedEnds(t);
    BankIs(t, t.fill + 1 + Bank(t));
    forall p ensures t.Banks(p) ==> Bank(t) < |t.Legs()| {
      BankIs(t, p);
    }
  }

  // ---------------------------------------------------------------- one attempt

  /** The wick runs through the pool by at least the minimum depth. */
  ghost predicate Pierces(c: Candle, pool: PoolData, config: HunterConfig) {
    if pool.kind == SSL then c.l < pool.price && pool.price - c.l >= config.minSweepPips
    else c.h > pool.price && c.h - pool.price >= config.minSweepPips
  }

  /** The bar closes back on its own side of the pool, by its body or by its wick. */
  ghost predicate Snaps(c: Candle, pool: PoolData) {
    var range, top, bottom := c.h - c.l, if c.o < c.c then c.c else c.o, if c.o < c.c then c.o else c.c;
    if pool.kind == SSL then
      (c.c > pool.price && c.c > c.o) || (range > 0.0 && bottom - c.l >= 0.40 * range && c.c >= pool.price - 0.50)
    else
      (c.c < pool.price && c.c < c.o) || (range > 0.0 && c.h - top >= 0.40 * range && c.c <= pool.price + 0.50)
  }

  ghost function Entry(c: Candle, pool: PoolData, config: HunterConfig): real {
    if config.entryMode == ShelfRetest then pool.price else c.c
  }

  /** Twenty cents behind the tip of the wick. */
  ghost function StopBehind(c: Candle, pool: PoolData): real { if pool.kind == SSL then c.l - 0.20 else c.h + 0.20 }

  ghost function Stake(c: Candle, pool: PoolData, config: HunterConfig): real {
    if pool.kind == SSL then Entry(c, pool, config) - StopBehind(c, pool) else StopBehind(c, pool) - Entry(c, pool, config)
  }

  /** The sweep is worth a trade: its risk is above 0.80 for a long, 0.50 for a short, and within the limit. */
  ghost predicate Trades(c: Candle, pool: PoolData, config: HunterConfig) {
    && Pierces(c, pool, config) && Snaps(c, pool)
    && (if pool.kind == SSL then 0.80 else 0.50) < Stake(c, pool, config) <= config.maxWickDistance
  }

  lemma {:induction false} WickShare(wick: real, range: real)
    requires range > 0.0
    ensures wick / range >= 0.40 <==> wick >= 0.40 * range
  {
    var q := wick / range;
    assert q * range == wick;
    assert (q - 0.40) * range == wick - 0.40 * range;
  }

  lemma {:induction false} SweepIsPierceAndSnap(c: Candle, pool: PoolData, config: HunterConfig)
    ensures var dir := DirectionOf(pool.kind);
      Sweeps(Oriented(c, dir), OrientedPrice(pool.price, dir), config) <==> Pierces(c, pool, config) && Snaps(c, pool)
  {
    if c.h > c.l {
      WickShare(Min(c.o, c.c) - c.l, c.h - c.l);
      WickShare(Min(-c.o, -c.c) + c.h, c.h - c.l);
    }
  }

  /** What a bar does with a pool, on the fields of both. */
  lemma {:induction false} AttemptByPrices(candles: seq<Candle>, i: nat, pool: PoolData, config: HunterConfig)
    requires i < |candles|
    ensures var a, c := AttemptAt(candles, i, pool, config), candles[i];
      && (a.NoSweep? <==> !(Pierces(c, pool, config) && Snaps(c, pool)))
      && (a.Taken? <==> Trades(c, pool, config))
  {
    hide Sweeps, Snaps, TradeAt;
    SweepIsPierceAndSnap(candles[i], pool, config);
  }

  /** The trade's levels: targets at multiples of the risk from the entry. */
  ghost function TripOf(candles: seq<Candle>, i: nat, pool: PoolData, config: HunterConfig): Trip
    requires i < |candles|
  {
    var c := candles[i];
    var entry, risk := Entry(c, pool, config), Stake(c, pool, config);
    if pool.kind == SSL then
      Trip(candles, i, entry, StopBehind(c, pool), entry + config.tp1Multiple * risk, entry + config.tp2Multiple * risk, LONG)
    else
      Trip(candles, i, entry, StopBehind(c, pool), entry - config.tp1Multiple * risk, entry - config.tp2Multiple * risk, SHORT)
  }

  /** Gross R: the closed shares at their multiples, or a full loss. */
  ghost function Gross(outcome: TradeOutcome, config: HunterConfig): real {
    if outcome == WinFull then config.tp1Ratio * config.tp1Multiple + config.tp2Ratio * config.tp2Multiple
    else if outcome == WinTp1Scratch then config.tp1Ratio * config.tp1Multiple
    else -1.0
  }

  /** The taker fee on the notional, in multiples of the risk: on entry, and once more on a stop-out. */
  ghost function Fee(outcome: TradeOutcome, price: real, risk: real, config: HunterConfig): real
    requires risk > 0.0
  {
    var oneSide := price / risk * (config.takerFeePct / 100.0);
    if outcome == StoppedOut then 2.0 * oneSide else oneSide
  }

  lemma {:induction false} PlanMatches(candles: seq<Candle>, i: nat, pool: PoolData, config: HunterConfig)
    requires i < |candles|
    ensures var dir := DirectionOf(pool.kind);
      var c, shelf := Oriented(candles[i], dir), OrientedPrice(pool.price, dir);
      var t, risk := TripOf(candles, i, pool, config), Stake(candles[i], pool, config);
      && Risk(c, shelf, config) == risk && OrientedPrice(EntryPrice(c, shelf, config), dir) == t.price
      && t.PlanFor() == PlanOf(risk, config) && t.dir == dir
      && FromFrame(t.price, dir, -risk) == t.stop
      && FromFrame(t.price, dir, config.tp1Multiple * risk) == t.target1
      && FromFrame(t.price, dir, config.tp2Multiple * risk) == t.target2
  {
  }

  /** A trade that is taken is filled on its own bar; every field of its record is fixed by the
      bar, the pool, the configuration and the walk. */
  lemma {:induction false} TradeByPrices(candles: seq<Candle>, i: nat, pool: PoolData, config: HunterConfig)
    requires i < |candles| && Trades(candles[i], pool, config)
    ensures var c, t, risk := candles[i], TripOf(candles, i, pool, config), Stake(candles[i], pool, config);
      && risk > 0.0 && t.Valid()
      && var res := t.Result();
         var gross, fee := Gross(res.outcome, config), Fee(res.outcome, t.price, risk, config);
         AttemptAt(candles, i, pool, config) == Taken(SfpTrade(
           config.timeframe, if pool.kind == SSL then LONG else SHORT, pool.id, pool.price,
           if pool.kind == SSL then c.l else c.h, t.price, c.t, t.stop, Fixed2(risk), Fixed2(t.target1), Fixed2(t.target2),
           res.outcome, Fixed2(gross), Fixed2(gross - fee), Fixed3(fee), Fixed2(res.exitPrice), res.exitTime, res.barsHeld))
  {
    hide Sweeps, Fixed2, Fixed3, Walked, Pierces, Snaps;
    AttemptByPrices(candles, i, pool, config);
    PlanMatches(candles, i, pool, config);
    var t, risk := TripOf(candles, i, pool, config), Stake(candles[i], pool, config);
    assert FeeR(t.Result().outcome, t.price, risk, config) == Fee(t.Result().outcome, t.price, risk, config);
    assert TradeAt(candles, i, pool, config).stopLoss == t.stop;
  }

  // -------------------------------------------------------------------- one bar

  /** The pool is considered on bar i: unswept, and from 6 to 299 bars old. */
  ghost predicate Considered(p: LiquidityPool, i: int, swept: set<LiquidityPool>) {
    p !in swept && 6 <= i - p.originIndex <= 299
  }

  ghost predicate OpensOn(candles: seq<Candle>, i: nat, p: LiquidityPool, config: HunterConfig, swept: set<LiquidityPool>)
    requires i < |candles|
  {
    Considered(p, i, swept) && Trades(candles[i], p.Data(), config)
  }

  ghost predicate ConsumedOn(candles: seq<Candle>, i: nat, p: LiquidityPool, config: HunterConfig, swept: set<LiquidityPool>)
    requires i < |candles|
  {
    Considered(p, i, swept) && Pierces(candles[i], p.Data(), config) && Snaps(candles[i], p.Data())
  }

  /** Pool k is the first of the list that the bar trades; none is if k is the list's length. */
  ghost predicate FirstTraded(candles: seq<Candle>, i: nat, pools: seq<LiquidityPool>, config: HunterConfig, swept: set<LiquidityPool>, k: int)
    requires i < |candles|
  {
    && 0 <= k <= |pools| && (k < |pools| ==> OpensOn(candles, i, pools[k], config, swept))
    && forall j :: 0 <= j < k ==> !OpensOn(candles, i, pools[j], config, swept)
  }

  lemma {:induction false} ScanByPrices(candles: seq<Candle>, i: nat, pools: seq<LiquidityPool>, config: HunterConfig, swept: set<LiquidityPool>)
    returns (k: int)
    requires i < |candles|
    ensures FirstTraded(candles, i, pools, config, swept, k)
    ensures var scan := ScanPools(candles, i, ActivePools(pools, i, swept), config);
      && (forall p :: p in scan.swept <==>
            exists j :: 0 <= j <= k && j < |pools| && pools[j] == p && ConsumedOn(candles, i, pools[j], config, swept))
      && (if k == |pools| then scan.hit.None?
          else scan.hit.Some? && scan.hit.value.0 == pools[k] && AttemptAt(candles, i, pools[k].Data(), config) == Taken(scan.hit.value.1))
  {
    hide AttemptAt, Pierces, Snaps, Trades;
    if pools == [] {
      k := 0;
    } else {
      var p, rest := pools[0], pools[1..];
      AttemptByPrices(candles, i, p.Data(), config);
      TradesConsume(candles[i], p.Data(), config);
      if OpensOn(candles, i, p, config, swept) {
        k := 0;
      } else {
        var later := ScanByPrices(candles, i, rest, config, swept);
        k := later + 1;
        var mine, theirs := ScanPools(candles, i, ActivePools(pools, i, swept), config), ScanPools(candles, i, ActivePools(rest, i, swept), config);
        assert mine.hit == theirs.hit && mine.swept == theirs.swept + if ConsumedOn(candles, i, p, config, swept) then {p} else {};
        forall q ensures q in mine.swept <==>
          exists j :: 0 <= j <= k && j < |pools| && pools[j] == q && ConsumedOn(candles, i, pools[j], config, swept)
        {
          assert forall j :: 1 <= j < |pools| ==> pools[j] == rest[j - 1];
          if q in theirs.swept {
            var j :| 0 <= j <= later && j < |rest| && rest[j] == q && ConsumedOn(candles, i, rest[j], config, swept);
            assert pools[j + 1] == q;
          }
        }
      }
    }
  }

  lemma {:induction false} TradesConsume(c: Candle, pool: PoolData, config: HunterConfig)
    ensures Trades(c, pool, config) ==> Pierces(c, pool, config) && Snaps(c, pool)
  {
  }

  // ------------------------------------------------------------ volume, whole runs

  /** Sums of volumes are additive and start from single bars. */
  lemma {:induction false} VolumeSumSplits(candles: seq<Candle>, a: nat, b: nat, c: nat)
    requires a <= b <= c <= |candles|
    ensures VolumeSum(candles, a, c) == VolumeSum(candles, a, b) + VolumeSum(candles, b, c)
    ensures a < |candles| ==> VolumeSum(candles, a, a + 1) == candles[a].v
  {
    if b < c {
      VolumeSumSplits(candles, a, b, c - 1);
    }
  }

  /** A ratio of zero or none filters nothing; a mean of zero, as before bar 20, counts as one. */
  ghost predicate LoudEnough(candles: seq<Candle>, i: nat, config: HunterConfig)
    requires i < |candles|
  {
    match config.minVolumeRatio
    case None => true
    case Some(ratio) =>
      var mean := if i < 20 then 0.0 else VolumeSum(candles, i - 20, i) / 20.0;
      ratio == 0.0 || candles[i].v / (if mean == 0.0 then 1.0 else mean) >= ratio
  }

  /** What bar i does to the run: nothing in the cooldown or when it is too quiet; else it
      consumes the pools it sweeps, up to and including the first one worth a trade, which
      it trades. */
  lemma {:induction false} BarByPrices(candles: seq<Candle>, pools: seq<LiquidityPool>, config: HunterConfig, i: nat, st: HunterState)
    returns (k: int)
    requires i < |candles|
    ensures FirstTraded(candles, i, pools, config, st.swept, k)
    ensures var next := ScanBar(candles, pools, config, i, st);
      if i < st.cooldownUntilIndex || !LoudEnough(candles, i, config) then next == st
      else
        && (forall p :: p in next.swept <==>
              (|| p in st.swept
               || exists j :: 0 <= j <= k && j < |pools| && pools[j] == p && ConsumedOn(candles, i, pools[j], config, st.swept)))
        && (if k == |pools| then
              && next.trades == st.trades && next.backing == st.backing && next.bars == st.bars
              && next.cooldownUntilIndex == st.cooldownUntilIndex
            else
              && AttemptAt(candles, i, pools[k].Data(), config).Taken?
              && next.trades == st.trades + [AttemptAt(candles, i, pools[k].Data(), config).trade]
              && next.backing == st.backing + [pools[k]] && next.bars == st.bars + [i]
              && next.cooldownUntilIndex == i + config.cooldownBars)
  {
    hide AttemptAt, ScanPools, ActivePools, FirstTraded, ConsumedOn;
    k := ScanByPrices(candles, i, pools, config, st.swept);
    assert VolumeOk(candles, i, config) <==> LoudEnough(candles, i, config);
    InRangeK(candles, i, pools, config, st.swept, k);
  }

  lemma {:induction false} InRangeK(candles: seq<Candle>, i: nat, pools: seq<LiquidityPool>, config: HunterConfig, swept: set<LiquidityPool>, k: int)
    requires i < |candles| && FirstTraded(candles, i, pools, config, swept, k)
    ensures 0 <= k <= |pools|
  {
  }

  /** Later bars only add to what a run has swept and traded. */
  lemma {:induction false} RunGrows(candles: seq<Candle>, pools: seq<LiquidityPool>, config: HunterConfig, swept: set<LiquidityPool>, m: nat, n: nat)
    requires m <= n <= |candles|
    ensures var early, late := RunTo(candles, pools, config, swept, m), RunTo(candles, pools, config, swept, n);
      && early.swept <= late.swept && early.trades <= late.trades && early.backing <= late.backing && early.bars <= late.bars
  {
    hide ScanPools, ActivePools, VolumeOk;
    if m < n {
      RunGrows(candles, pools, config, swept, m, n - 1);
    }
  }

  /** A pool is only consumed by a bar that sweeps it: for every pool swept during a run
      there is a scanned bar on which it was of age, and whose wick ran through it by the
      minimum depth and snapped back. */
  lemma {:induction false} ConsumedPoolWasSwept(
    candles: seq<Candle>, pools: seq<LiquidityPool>, config: HunterConfig, swept: set<LiquidityPool>, n: nat, p: LiquidityPool)
    returns (i: nat)
    requires n <= |candles| && p in RunTo(candles, pools, config, swept, n).swept && p !in swept
    ensures p in pools && 50 <= i < n && 6 <= i - p.originIndex <= 299
    ensures Pierces(candles[i], p.Data(), config) && Snaps(candles[i], p.Data())
  {
    hide ScanBar, Pierces, Snaps;
    if p in RunTo(candles, pools, config, swept, n - 1).swept {
      i := ConsumedPoolWasSwept(candles, pools, config, swept, n - 1, p);
    } else {
      i := n - 1;
      var k := BarByPrices(candles, pools, config, i, RunTo(candles, pools, config, swept, i));
    }
  }

  /** The bar is scanned with pool j at hand: outside the cooldown, loud enough, the pool
      unswept and of age, and no pool before it worth a trade. */
  ghost predicate Scanned(candles: seq<Candle>, pools: seq<LiquidityPool>, config: HunterConfig, swept: set<LiquidityPool>, i: nat, j: nat)
    requires i < |candles| && j < |pools|
  {
    var st := RunTo(candles, pools, config, swept, i);
    && 50 <= i < |candles| - 50 && i >= st.cooldownUntilIndex && LoudEnough(candles, i, config)
    && Considered(pools[j], i, st.swept)
    && forall l :: 0 <= l < j ==> !OpensOn(candles, i, pools[l], config, st.swept)
  }

  /** Conversely, a scanned pool that the bar sweeps is swept in the end; and if the sweep is
      worth a trade, the run records that trade, on that bar and against that pool. */
  lemma {:induction false} SweptPoolIsConsumed(
    candles: seq<Candle>, pools: seq<LiquidityPool>, config: HunterConfig, swept: set<LiquidityPool>, i: nat, j: nat)
    requires i < |candles| && j < |pools| && Scanned(candles, pools, config, swept, i, j)
    requires Pierces(candles[i], pools[j].Data(), config) && Snaps(candles[i], pools[j].Data())
    ensures var end := Run(candles, pools, config, swept);
      && pools[j] in end.swept
      && (Trades(candles[i], pools[j].Data(), config) ==>
            exists m :: && 0 <= m < |end.bars| && m < |end.backing| && m < |end.trades|
                        && end.bars[m] == i && end.backing[m] == pools[j]
                        && AttemptAt(candles, i, pools[j].Data(), config) == Taken(end.trades[m]))
  {
    hide ScanBar, Pierces, Snaps, Trades, AttemptAt, LoudEnough;
    var st, n := RunTo(candles, pools, config, swept, i), MaxInt(0, |candles| - 50);
    var k := BarByPrices(candles, pools, config, i, st);
    RunGrows(candles, pools, config, swept, i + 1, n);
    RunKeepsInvariant(candles, pools, config, swept, i);
    assert ConsumedOn(candles, i, pools[j], config, st.swept);
    if Trades(candles[i], pools[j].Data(), config) {
      assert OpensOn(candles, i, pools[j], config, st.swept);
      assert k == j;
      var next, end, m := RunTo(candles, pools, config, swept, i + 1), Run(candles, pools, config, swept), |st.bars|;
      assert next.bars[m] == i && next.backing[m] == pools[j];
      assert end.bars[m] == i && end.backing[m] == pools[j] && end.trades[m] == next.trades[m];
    }
  }
}
