/** The second copy of the simulator, scripts/audit_combos.ts, and exactly where it
    departs from the first. It always protects the ratchet bar, keeps no adverse
    excursion, writes its verdict into the setup, and books any expiry as a scratch. */
module ComboPath {
  import opened Market
  import opened CandlePath

  /** The setup as this copy hands it back for a trade that leaves as `e` says. */
  function Closed(s: Setup, e: Exit, exitTime: int): Setup {
    if e.expired then
      s.(simulatedOutcome := BeScratchWin, realizedRr := Some(0.0), exitTime := Some(exitTime))
    else
      match e.outcome
      case FullTp2Win =>
        s.(simulatedOutcome := FullTp2Win, realizedRr := Some(1.2), exitTime := Some(exitTime),
           isStage1Filled := true, isStage2Filled := true)
      case Stage1Scratch =>
        s.(simulatedOutcome := Stage1Scratch, realizedRr := Some(0.5), exitTime := Some(exitTime), isStage1Filled := true)
      case BeScratch =>
        s.(simulatedOutcome := BeScratchWin, realizedRr := Some(0.0), exitTime := Some(exitTime), isBeScratch := true)
      case _ =>
        s.(simulatedOutcome := StoppedOut, realizedRr := Some(-1.0), exitTime := Some(exitTime))
  }

  ghost function WalkedSetup(candles: seq<Candle>, at: nat, s: Setup, threshold: real): Setup
    requires at < |candles|
  {
    var legs, r := Window(candles, at, s), RulesOf(s, threshold, true);
    ExitInRange(legs, r);
    Closed(s, TradeExit(legs, r), candles[at + TradeExit(legs, r).bar].t)
  }

  ghost function ComboResult(candles: seq<Candle>, s: Setup, threshold: real): Setup {
    IndexMapIsLastIndex(candles, |candles|, s.retestTime);
    if s.retestTime in IndexMap(candles, |candles|)
    then WalkedSetup(candles, IndexMap(candles, |candles|)[s.retestTime], s, threshold)
    else s
  }

  /** This copy's checks of one bar agree with the shared meaning of a bar. */
  ghost predicate Answers(step: Step, s: Setup, time: int, exit: Option<Setup>,
                          activeSL: real, isEarlyBeActive: bool, isStage1Hit: bool) {
    match step
    case Leave(e) => exit == Some(Closed(s, e, time))
    case Stay(next) =>
      && exit.None? && Flags(next, isEarlyBeActive, isStage1Hit)
      && activeSL == if next.Initial? then s.stopLoss else s.entryPrice
  }

  method CheckLongBar(c: Candle, setup: Setup, tp1: real, tp2: real, risk: real, peak: Excursion, earlyBeThreshold: real,
                      stop: real, early: bool, stage1: bool,
                      ghost legs: seq<Leg>, ghost r: Rules, ghost k: nat, ghost phase: Phase)
    returns (exit: Option<Setup>, maxMfe: Excursion, activeSL: real, isEarlyBeActive: bool, isStage1Hit: bool)
    requires IsLong(setup) && k < |legs| && legs[k] == ToLeg(c, setup.entryPrice, true)
    requires r == RulesOf(setup, earlyBeThreshold, true) && risk == r.risk && peak == Mfe(legs, k, risk)
    requires tp1 == setup.entryPrice + 1.0 * risk && tp2 == setup.entryPrice + 1.4 * risk
    requires Flags(phase, early, stage1) && stop == if phase.Initial? then setup.stopLoss else setup.entryPrice
    ensures maxMfe == Mfe(legs, k + 1, risk)
    ensures Answers(Turn(legs, r, k, phase), setup, c.t, exit, activeSL, isEarlyBeActive, isStage1Hit)
  {
    activeSL, isEarlyBeActive, isStage1Hit := stop, early, stage1;
    maxMfe := Raise(peak, c.h - setup.entryPrice, risk);
    if !isStage1Hit && c.h >= tp1 {
      isStage1Hit := true;
      activeSL := setup.entryPrice;
      isEarlyBeActive := true;
    }
    exit := None;
    if isStage1Hit && c.h >= tp2 {
      exit := Some(setup.(simulatedOutcome := FullTp2Win, realizedRr := Some(1.2), exitTime := Some(c.t),
                          isStage1Filled := true, isStage2Filled := true));
      return;
    }
    var beRatchetedThisBar := false;
    if !isStage1Hit && !isEarlyBeActive && Reaches(maxMfe, earlyBeThreshold) {
      isEarlyBeActive := true;
      activeSL := setup.entryPrice;
      beRatchetedThisBar := true;
    }
    var effectiveSL := if beRatchetedThisBar then setup.stopLoss else activeSL;
    if c.l <= effectiveSL {
      exit := Some(StopVerdict(setup, c.t, isEarlyBeActive, isStage1Hit));
    }
  }

  method CheckShortBar(c: Candle, setup: Setup, tp1: real, tp2: real, risk: real, peak: Excursion, earlyBeThreshold: real,
                       stop: real, early: bool, stage1: bool,
                       ghost legs: seq<Leg>, ghost r: Rules, ghost k: nat, ghost phase: Phase)
    returns (exit: Option<Setup>, maxMfe: Excursion, activeSL: real, isEarlyBeActive: bool, isStage1Hit: bool)
    requires !IsLong(setup) && k < |legs| && legs[k] == ToLeg(c, setup.entryPrice, false)
    requires r == RulesOf(setup, earlyBeThreshold, true) && risk == r.risk && peak == Mfe(legs, k, risk)
    requires tp1 == setup.entryPrice - 1.0 * risk && tp2 == setup.entryPrice - 1.4 * risk
    requires Flags(phase, early, stage1) && stop == if phase.Initial? then setup.stopLoss else setup.entryPrice
    ensures maxMfe == Mfe(legs, k + 1, risk)
    ensures Answers(Turn(legs, r, k, phase), setup, c.t, exit, activeSL, isEarlyBeActive, isStage1Hit)
  {
    activeSL, isEarlyBeActive, isStage1Hit := stop, early, stage1;
    maxMfe := Raise(peak, setup.entryPrice - c.l, risk);
    if !isStage1Hit && c.l <= tp1 {
      isStage1Hit := true;
      activeSL := setup.entryPrice;
      isEarlyBeActive := true;
    }
    exit := None;
    if isStage1Hit && c.l <= tp2 {
      exit := Some(setup.(simulatedOutcome := FullTp2Win, realizedRr := Some(1.2), exitTime := Some(c.t),
                          isStage1Filled := true, isStage2Filled := true));
      return;
    }
    var beRatchetedThisBar := false;
    if !isStage1Hit && !isEarlyBeActive && Reaches(maxMfe, earlyBeThreshold) {
      isEarlyBeActive := true;
      activeSL := setup.entryPrice;
      beRatchetedThisBar := true;
    }
    var effectiveSL := if beRatchetedThisBar then setup.stopLoss else activeSL;
    if c.h >= effectiveSL {
      exit := Some(StopVerdict(setup, c.t, isEarlyBeActive, isStage1Hit));
    }
  }

  /** The three returns taken when the stop in force is touched. */
  function StopVerdict(s: Setup, time: int, isEarlyBeActive: bool, isStage1Hit: bool): Setup {
    if isStage1Hit then
      s.(simulatedOutcome := Stage1Scratch, realizedRr := Some(0.5), exitTime := Some(time), isStage1Filled := true)
    else if isEarlyBeActive then
      s.(simulatedOutcome := BeScratchWin, realizedRr := Some(0.0), exitTime := Some(time), isBeScratch := true)
    else
      s.(simulatedOutcome := StoppedOut, realizedRr := Some(-1.0), exitTime := Some(time))
  }

  method WalkBars(candles: seq<Candle>, entryIdx: nat, endIdx: nat, setup: Setup, risk: real,
                  earlyBeThreshold: real, ghost legs: seq<Leg>, ghost r: Rules)
    returns (res: Setup)
    requires entryIdx <= endIdx < |candles| && |legs| == endIdx - entryIdx + 1
    requires forall j {:trigger legs[j]} :: 0 <= j < |legs| ==>
      legs[j] == ToLeg(candles[entryIdx + j], setup.entryPrice, IsLong(setup))
    requires r == RulesOf(setup, earlyBeThreshold, true) && r.risk == risk
    ensures var e := Walk(legs, r, 0, Initial);
      e.bar < |legs| && res == Closed(setup, e, candles[entryIdx + e.bar].t)
  {
    var isLong := IsLong(setup);
    var entry := setup.entryPrice;
    var tp1 := if isLong then entry + 1.0 * risk else entry - 1.0 * risk;
    var tp2 := if isLong then entry + 1.4 * risk else entry - 1.4 * risk;
    var activeSL, isEarlyBeActive, isStage1Hit := setup.stopLoss, false, false;
    var maxMfe := Finite(0.0);
    ghost var phase, k := Initial, 0;

    var i := entryIdx;
    while i <= endIdx
      invariant i == entryIdx + k && k <= |legs|
      invariant Flags(phase, isEarlyBeActive, isStage1Hit)
      invariant activeSL == if phase.Initial? then setup.stopLoss else entry
      invariant maxMfe == Mfe(legs, k, risk)
      invariant Walk(legs, r, k, phase) == Walk(legs, r, 0, Initial)
    {
      var c := candles[i];
      var exit;
      if isLong {
        exit, maxMfe, activeSL, isEarlyBeActive, isStage1Hit := CheckLongBar(
          c, setup, tp1, tp2, risk, maxMfe, earlyBeThreshold,
          activeSL, isEarlyBeActive, isStage1Hit, legs, r, k, phase);
      } else {
        exit, maxMfe, activeSL, isEarlyBeActive, isStage1Hit := CheckShortBar(
          c, setup, tp1, tp2, risk, maxMfe, earlyBeThreshold,
          activeSL, isEarlyBeActive, isStage1Hit, legs, r, k, phase);
      }
      if exit.Some? {
        return exit.value;
      }
      phase := Turn(legs, r, k, phase).phase;
      i, k := i + 1, k + 1;
    }
    return setup.(simulatedOutcome := BeScratchWin, realizedRr := Some(0.0), exitTime := Some(candles[endIdx].t));
  }

  lemma {:induction false} WalkIsComboResult(candles: seq<Candle>, s: Setup, threshold: real, at: nat)
    requires s.retestTime in IndexMap(candles, |candles|) && at == IndexMap(candles, |candles|)[s.retestTime]
    requires at < |candles|
    ensures var e := Walk(Window(candles, at, s), RulesOf(s, threshold, true), 0, Initial);
      && at + e.bar < |candles|
      && ComboResult(candles, s, threshold) == Closed(s, e, candles[at + e.bar].t)
  {
    var legs, r := Window(candles, at, s), RulesOf(s, threshold, true);
    WalkIsFirstPassage(legs, r, 0);
    ExitInRange(legs, r);
  }

  method SimulateExactCandlePath(candles: seq<Candle>, candleMap: map<int, nat>, setup: Setup, earlyBeThreshold: real)
    returns (res: Setup)
    requires candleMap == IndexMap(candles, |candles|)
    ensures res == ComboResult(candles, setup, earlyBeThreshold)
  {
    IndexMapIsLastIndex(candles, |candles|, setup.retestTime);
    if setup.retestTime !in candleMap {
      return setup;
    }
    var entryIdx := candleMap[setup.retestTime];
    var risk := Abs(setup.entryPrice - setup.stopLoss);
    var endIdx := MinInt(|candles| - 1, entryIdx + 288);
    ghost var legs, r := Window(candles, entryIdx, setup), RulesOf(setup, earlyBeThreshold, true);
    WalkIsComboResult(candles, setup, earlyBeThreshold, entryIdx);
    res := WalkBars(candles, entryIdx, endIdx, setup, risk, earlyBeThreshold, legs, r);
  }

  // ----------------------------------------------------------- the exception

  /** A trade that is never closed has banked its first target exactly when some bar reached it. */
  lemma {:induction false} ExpiredStage1Iff(legs: seq<Leg>, r: Rules)
    requires legs != [] && r.risk >= 0.0 && TradeExit(legs, r).expired
    ensures TradeExit(legs, r).outcome == Stage1Scratch <==> exists k: nat :: Tp1At(legs, r, k)
    ensures TradeExit(legs, r).realizedR == if exists k: nat :: Tp1At(legs, r, k) then 0.5 else 0.0
  {
    var d := FirstDecisive(legs, r, 0);
    if d < |legs| && !Tp1At(legs, r, d) {
      var e := FirstBreakevenEvent(legs, r, d + 1);
      forall k: nat | Tp1At(legs, r, k) ensures e < |legs| && Tp1At(legs, r, e) {
        assert DecisiveAt(legs, r, k);
      }
    } else if d == |legs| {
      forall k: nat | k < |legs| ensures !Tp1At(legs, r, k) {
        assert !DecisiveAt(legs, r, k);
      }
    }
  }

  /** Each outcome books one amount. */
  lemma {:induction false} OutcomeBooks(legs: seq<Leg>, r: Rules)
    requires legs != [] && r.risk >= 0.0
    ensures var e := TradeExit(legs, r);
      match e.outcome
      case FullTp2Win => e.realizedR == 1.2 && !e.expired
      case Stage1Scratch => e.realizedR == 0.5
      case BeScratch => e.realizedR == 0.0
      case StoppedOut => e.realizedR == -1.0 && !e.expired
      case _ => false
  {
  }

  /** The hold window ran out on a trade whose first target had been reached. */
  ghost predicate ExpiredAfterTp1(candles: seq<Candle>, at: nat, s: Setup, threshold: real)
    requires at < |candles|
  {
    var legs, r := Window(candles, at, s), RulesOf(s, threshold, true);
    TradeExit(legs, r).expired && exists k: nat :: Tp1At(legs, r, k)
  }

  lemma {:induction false} ClosedBooks(s: Setup, e: Exit, time: int)
    requires match e.outcome
             case FullTp2Win => e.realizedR == 1.2 && !e.expired
             case Stage1Scratch => e.realizedR == 0.5
             case BeScratch => e.realizedR == 0.0
             case StoppedOut => e.realizedR == -1.0 && !e.expired
             case _ => false
    ensures Closed(s, e, time).exitTime == Some(time)
    ensures Closed(s, e, time).realizedRr == Some(if e.expired then 0.0 else e.realizedR)
  {
  }

  lemma {:induction false} WalkedCopiesAgree(candles: seq<Candle>, at: nat, s: Setup, threshold: real)
    requires at < |candles|
    ensures var first, second := WalkedResult(candles, at, s, RulesOf(s, threshold, true)), WalkedSetup(candles, at, s, threshold);
      && second.exitTime == Some(first.exitTime)
      && (second.realizedRr == Some(first.realizedR) <==> !ExpiredAfterTp1(candles, at, s, threshold))
      && (ExpiredAfterTp1(candles, at, s, threshold) ==> first.realizedR == 0.5 && second.realizedRr == Some(0.0))
  {
    var legs, r := Window(candles, at, s), RulesOf(s, threshold, true);
    ExitInRange(legs, r);
    OutcomeBooks(legs, r);
    if TradeExit(legs, r).expired {
      ExpiredStage1Iff(legs, r);
    }
    ClosedBooks(s, TradeExit(legs, r), candles[at + TradeExit(legs, r).bar].t);
  }

  /** The two copies agree on the exit bar always, and on the booked R except exactly
      when the hold window expires after the first target. For a setup whose retest
      candle is missing they agree exactly when the recorded fields are present. */
  lemma {:induction false} CopiesAgree(candles: seq<Candle>, s: Setup, threshold: real)
    ensures var first, second := PathResult(candles, s, threshold, true), ComboResult(candles, s, threshold);
      if s.retestTime in IndexMap(candles, |candles|) then
        var at := IndexMap(candles, |candles|)[s.retestTime];
        && at < |candles|
        && second.exitTime == Some(first.exitTime)
        && (second.realizedRr == Some(first.realizedR) <==> !ExpiredAfterTp1(candles, at, s, threshold))
        && (ExpiredAfterTp1(candles, at, s, threshold) ==> first.realizedR == 0.5 && second.realizedRr == Some(0.0))
      else
        && (second.realizedRr == Some(first.realizedR) <==> s.realizedRr.Some?)
        && (second.exitTime == Some(first.exitTime) <==>
            s.exitTime.Some? && (s.exitTime.value != 0 || s.retestTime == 0))
  {
    IndexMapIsLastIndex(candles, |candles|, s.retestTime);
    if s.retestTime in IndexMap(candles, |candles|) {
      WalkedCopiesAgree(candles, IndexMap(candles, |candles|)[s.retestTime], s, threshold);
    }
  }
}
