/** The forward walk of a trade in scripts/run_1m_3m_liquidity_hunter.ts: a first-passage
    problem with a stop that moves once. */
module HunterWalk {
  import opened Market

  datatype Direction = LONG | SHORT

  datatype TradeOutcome = WinFull | WinTp1Scratch | StoppedOut | Pending

  /** Levels in the trade's frame: distances from the fill in the trade's direction. */
  datatype Plan = Plan(stop: real, target1: real, target2: real)

  /** The stop after the first target, in the same frame. */
  const BREAKEVEN := 0.10

  const MAX_WALK: nat := 100

  // -------------------------------------------------- meaning: first passages

  predicate StopAt(legs: seq<Leg>, p: Plan, k: nat) { k < |legs| && legs[k].worst <= p.stop }

  predicate Tp1At(legs: seq<Leg>, p: Plan, k: nat) { k < |legs| && legs[k].best >= p.target1 }

  predicate Tp2At(legs: seq<Leg>, p: Plan, k: nat) { k < |legs| && legs[k].best >= p.target2 }

  predicate BreakevenAt(legs: seq<Leg>, k: nat) { k < |legs| && legs[k].worst <= BREAKEVEN }

  function FirstEvent(legs: seq<Leg>, p: Plan, from: nat): (s: nat)
    requires from <= |legs|
    ensures from <= s <= |legs| && (s < |legs| ==> StopAt(legs, p, s) || Tp1At(legs, p, s))
    ensures forall j: nat :: from <= j < s ==> !StopAt(legs, p, j) && !Tp1At(legs, p, j)
    decreases |legs| - from
  {
    if from == |legs| || StopAt(legs, p, from) || Tp1At(legs, p, from) then from else FirstEvent(legs, p, from + 1)
  }

  function FirstRunnerEvent(legs: seq<Leg>, p: Plan, from: nat): (e: nat)
    requires from <= |legs|
    ensures from <= e <= |legs| && (e < |legs| ==> BreakevenAt(legs, e) || Tp2At(legs, p, e))
    ensures forall j: nat :: from <= j < e ==> !BreakevenAt(legs, j) && !Tp2At(legs, p, j)
    decreases |legs| - from
  {
    if from == |legs| || BreakevenAt(legs, from) || Tp2At(legs, p, from) then from
    else FirstRunnerEvent(legs, p, from + 1)
  }

  /** How a walk ends: on bar `bar` at frame price `price`, or not at all. */
  datatype WalkExit = Closed(outcome: TradeOutcome, price: real, bar: nat) | TimedOut(outcome: TradeOutcome)

  /** After the first target; the new stop wins a tie with the second target. */
  function RunnerExit(legs: seq<Leg>, p: Plan, from: nat): WalkExit
    requires from <= |legs|
  {
    var e := FirstRunnerEvent(legs, p, from);
    if e == |legs| then TimedOut(WinTp1Scratch)
    else if BreakevenAt(legs, e) then Closed(WinTp1Scratch, BREAKEVEN, e)
    else Closed(WinFull, p.target2, e)
  }

  /** A quiet trade from bar `from` on; the stop wins a tie with the first target. */
  function ExitFrom(legs: seq<Leg>, p: Plan, from: nat): WalkExit
    requires from <= |legs|
  {
    var s := FirstEvent(legs, p, from);
    if s == |legs| then TimedOut(StoppedOut)
    else if StopAt(legs, p, s) then Closed(StoppedOut, p.stop, s)
    else if Tp2At(legs, p, s) then Closed(WinFull, p.target2, s)
    else RunnerExit(legs, p, s + 1)
  }

  function TradeExit(legs: seq<Leg>, p: Plan): WalkExit { ExitFrom(legs, p, 0) }

  // ------------------------------------------------------- the candles walked

  /** The bars after the fill that the walk looks at: at most 99 of them. */
  function Forward(candles: seq<Candle>, fillIndex: nat, fillPrice: real, dir: Direction): (legs: seq<Leg>)
    requires fillIndex < |candles|
    ensures |legs| == MinInt(|candles|, fillIndex + MAX_WALK) - fillIndex - 1
    ensures forall j {:trigger legs[j]} :: 0 <= j < |legs| ==>
      legs[j] == ToLeg(candles[fillIndex + 1 + j], fillPrice, dir.LONG?)
  {
    seq(MinInt(|candles|, fillIndex + MAX_WALK) - fillIndex - 1,
        j requires 0 <= j && fillIndex + 1 + j < |candles| => ToLeg(candles[fillIndex + 1 + j], fillPrice, dir.LONG?))
  }

  datatype WalkResult = WalkResult(outcome: TradeOutcome, exitPrice: real, exitTime: int, barsHeld: nat)

  function FromFrame(fillPrice: real, dir: Direction, x: real): real {
    if dir.LONG? then fillPrice + x else fillPrice - x
  }

  /** What is recorded: a walk that does not end is priced and timed by bar fill + 100,
      one past the last bar walked, or by the last candle. */
  function WalkedTo(candles: seq<Candle>, fillIndex: nat, fillPrice: real, dir: Direction, legs: seq<Leg>, e: WalkExit): WalkResult
    requires fillIndex < |candles| && (e.Closed? ==> fillIndex + 1 + e.bar < |candles|)
  {
    match e
    case Closed(outcome, price, bar) =>
      WalkResult(outcome, FromFrame(fillPrice, dir, price), candles[fillIndex + 1 + bar].t, bar + 1)
    case TimedOut(outcome) =>
      var c := candles[MinInt(|candles| - 1, fillIndex + MAX_WALK)];
      WalkResult(outcome, c.c, c.t, |legs|)
  }

  lemma {:induction false} ExitInRange(legs: seq<Leg>, p: Plan)
    ensures TradeExit(legs, p).Closed? ==> TradeExit(legs, p).bar < |legs|
    ensures !TradeExit(legs, p).outcome.Pending?
  {
  }

  function Walked(candles: seq<Candle>, fillIndex: nat, fillPrice: real, dir: Direction, p: Plan): WalkResult
    requires fillIndex < |candles|
  {
    var legs := Forward(candles, fillIndex, fillPrice, dir);
    ExitInRange(legs, p);
    WalkedTo(candles, fillIndex, fillPrice, dir, legs, TradeExit(legs, p))
  }

  // ------------------------------------------------------ the loop's own walk

  datatype Step = Leave(exit: WalkExit) | Stay(isTp1Hit: bool)

  ghost function Turn(legs: seq<Leg>, p: Plan, k: nat, isTp1Hit: bool): (step: Step)
    requires k < |legs|
    ensures step.Leave? ==> step.exit.Closed? && step.exit.bar == k
  {
    var hit := isTp1Hit || Tp1At(legs, p, k);
    if isTp1Hit && BreakevenAt(legs, k) then Leave(Closed(WinTp1Scratch, BREAKEVEN, k))
    else if !isTp1Hit && StopAt(legs, p, k) then Leave(Closed(StoppedOut, p.stop, k))
    else if hit && Tp2At(legs, p, k) then Leave(Closed(WinFull, p.target2, k))
    else Stay(hit)
  }

  ghost function Walk(legs: seq<Leg>, p: Plan, k: nat, isTp1Hit: bool): WalkExit
    requires k <= |legs|
    decreases |legs| - k
  {
    if k == |legs| then TimedOut(if isTp1Hit then WinTp1Scratch else StoppedOut)
    else
      match Turn(legs, p, k, isTp1Hit)
      case Leave(e) => e
      case Stay(next) => Walk(legs, p, k + 1, next)
  }

  lemma {:induction false} WalkHitIsRunner(legs: seq<Leg>, p: Plan, k: nat)
    requires k <= |legs|
    ensures Walk(legs, p, k, true) == RunnerExit(legs, p, k)
    decreases |legs| - k
  {
    if k < |legs| {
      WalkHitIsRunner(legs, p, k + 1);
    }
  }

  lemma {:induction false} WalkIsFirstPassage(legs: seq<Leg>, p: Plan, k: nat)
    requires k <= |legs|
    ensures Walk(legs, p, k, false) == ExitFrom(legs, p, k)
    decreases |legs| - k
  {
    if k < |legs| {
      WalkIsFirstPassage(legs, p, k + 1);
      WalkHitIsRunner(legs, p, k + 1);
    }
  }

  // ------------------------------------------------- the two hand-written halves

  method WalkLong(candles: seq<Candle>, fillIndex: nat, fillPrice: real, stopLoss: real, tp1Price: real, tp2Price: real)
    returns (res: WalkResult)
    requires fillIndex < |candles|
    ensures res == Walked(candles, fillIndex, fillPrice, LONG,
                          Plan(stopLoss - fillPrice, tp1Price - fillPrice, tp2Price - fillPrice))
  {
    var tradeOutcome, exitPrice, exitTime, barsHeld := Pending, fillPrice, candles[fillIndex].t, 0;
    var isTp1Hit, trailingSl := false, stopLoss;
    ghost var legs := Forward(candles, fillIndex, fillPrice, LONG);
    ghost var p := Plan(stopLoss - fillPrice, tp1Price - fillPrice, tp2Price - fillPrice);
    WalkIsFirstPassage(legs, p, 0);
    ExitInRange(legs, p);
    ghost var e := TradeExit(legs, p);

    var k := fillIndex + 1;
    while k < MinInt(|candles|, fillIndex + 100)
      invariant k == fillIndex + 1 + barsHeld && barsHeld <= |legs|
      invariant trailingSl == if isTp1Hit then fillPrice + 0.10 else stopLoss
      invariant tradeOutcome == Pending && Walk(legs, p, barsHeld, isTp1Hit) == e
    {
      var bar := candles[k];
      assert legs[barsHeld] == ToLeg(bar, fillPrice, true);
      barsHeld := barsHeld + 1;
      if bar.l <= trailingSl {
        tradeOutcome := if isTp1Hit then WinTp1Scratch else StoppedOut;
        exitPrice := trailingSl;
        exitTime := bar.t;
        break;
      }
      if !isTp1Hit && bar.h >= tp1Price {
        isTp1Hit := true;
        trailingSl := fillPrice + 0.10;
      }
      if isTp1Hit && bar.h >= tp2Price {
        tradeOutcome := WinFull;
        exitPrice := tp2Price;
        exitTime := bar.t;
        break;
      }
      k := k + 1;
    }
    if tradeOutcome.Pending? {
      tradeOutcome := if isTp1Hit then WinTp1Scratch else StoppedOut;
      exitPrice := candles[MinInt(|candles| - 1, fillIndex + 100)].c;
      exitTime := candles[MinInt(|candles| - 1, fillIndex + 100)].t;
    }
    res := WalkResult(tradeOutcome, exitPrice, exitTime, barsHeld);
  }

  method WalkShort(candles: seq<Candle>, fillIndex: nat, fillPrice: real, stopLoss: real, tp1Price: real, tp2Price: real)
    returns (res: WalkResult)
    requires fillIndex < |candles|
    ensures res == Walked(candles, fillIndex, fillPrice, SHORT,
                          Plan(fillPrice - stopLoss, fillPrice - tp1Price, fillPrice - tp2Price))
  {
    var tradeOutcome, exitPrice, exitTime, barsHeld := Pending, fillPrice, candles[fillIndex].t, 0;
    var isTp1Hit, trailingSl := false, stopLoss;
    ghost var legs := Forward(candles, fillIndex, fillPrice, SHORT);
    ghost var p := Plan(fillPrice - stopLoss, fillPrice - tp1Price, fillPrice - tp2Price);
    WalkIsFirstPassage(legs, p, 0);
    ExitInRange(legs, p);
    ghost var e := TradeExit(legs, p);

    var k := fillIndex + 1;
    while k < MinInt(|candles|, fillIndex + 100)
      invariant k == fillIndex + 1 + barsHeld && barsHeld <= |legs|
      invariant trailingSl == if isTp1Hit then fillPrice - 0.10 else stopLoss
      invariant tradeOutcome == Pending && Walk(legs, p, barsHeld, isTp1Hit) == e
    {
      var bar := candles[k];
      assert legs[barsHeld] == ToLeg(bar, fillPrice, false);
      barsHeld := barsHeld + 1;
      if bar.h >= trailingSl {
        tradeOutcome := if isTp1Hit then WinTp1Scratch else StoppedOut;
        exitPrice := trailingSl;
        exitTime := bar.t;
        break;
      }
      if !isTp1Hit && bar.l <= tp1Price {
        isTp1Hit := true;
        trailingSl := fillPrice - 0.10;
      }
      if isTp1Hit && bar.l <= tp2Price {
        tradeOutcome := WinFull;
        exitPrice := tp2Price;
        exitTime := bar.t;
        break;
      }
      k := k + 1;
    }
    if tradeOutcome.Pending? {
      tradeOutcome := if isTp1Hit then WinTp1Scratch else StoppedOut;
      exitPrice := candles[MinInt(|candles| - 1, fillIndex + 100)].c;
      exitTime := candles[MinInt(|candles| - 1, fillIndex + 100)].t;
    }
    res := WalkResult(tradeOutcome, exitPrice, exitTime, barsHeld);
  }
}
