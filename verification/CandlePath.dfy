/** The bar-by-bar trade simulators of scripts/audit_early_be_candle_path.ts and
    scripts/audit_combos.ts.

    The two methods keep the source's hand-duplicated long and short halves. Their
    specification is written once, in the trade's own frame of reference: prices are
    measured from the entry in the direction of the trade, and the outcome is given by
    first passage times instead of by state carried from bar to bar. */
module CandlePath {
  import opened Market
  import opened Decimal

  // ---------------------------------------------------------------- entities

  datatype Outcome =
    | FullTp2Win
    | Stage1Scratch
    | BeScratch
    | BeScratchWin
    | StoppedOut
    | OtherOutcome(name: string)

  /** A multiple of the risk. A zero risk makes every positive excursion infinite. */
  datatype Excursion = Finite(r: real) | Infinite

  /** The fields of a scanned setup that the simulators read or write. */
  datatype Setup = Setup(
    id: string,
    kind: string,
    entryPrice: real,
    stopLoss: real,
    retestTime: int,
    simulatedOutcome: Outcome,
    realizedRr: Option<real>,
    exitTime: Option<int>,
    mfeR: Option<real>,
    maeR: Option<real>,
    isStage1Filled: bool,
    isStage2Filled: bool,
    isBeScratch: bool
  )

  datatype PathSimulationResult = PathSimulationResult(
    id: string,
    kind: string,
    outcome: Outcome,
    realizedR: real,
    entryTime: int,
    exitTime: int,
    mfeR: Excursion,
    maeR: Excursion,
    barsHeld: nat
  )

  const MAX_HOLD_BARS: nat := 288

  // ------------------------------------------------------- timestamp look-up

  /** `candleMap` after the first n candles: a repeated timestamp keeps its last index. */
  ghost function IndexMap(candles: seq<Candle>, n: nat): map<int, nat>
    requires n <= |candles|
  {
    if n == 0 then map[] else IndexMap(candles, n - 1)[candles[n - 1].t := n - 1]
  }

  lemma {:induction false} IndexMapIsLastIndex(candles: seq<Candle>, n: nat, t: int)
    requires n <= |candles|
    ensures t in IndexMap(candles, n) <==> exists i :: 0 <= i < n && candles[i].t == t
    ensures t in IndexMap(candles, n) ==>
      var i := IndexMap(candles, n)[t];
      i < n && candles[i].t == t && forall j :: i < j < n ==> candles[j].t != t
  {
    if n > 0 {
      IndexMapIsLastIndex(candles, n - 1, t);
    }
  }

  method BuildCandleMap(candles: seq<Candle>) returns (candleMap: map<int, nat>)
    ensures candleMap == IndexMap(candles, |candles|)
  {
    candleMap := map[];
    for i := 0 to |candles|
      invariant candleMap == IndexMap(candles, i)
    {
      candleMap := candleMap[candles[i].t := i];
    }
  }

  // -------------------------------------------------------- the trade's frame

  /** The setup in the same frame, with the policy under test. */
  datatype Rules = Rules(risk: real, stop: real, threshold: real, protect: bool)

  datatype Exit = Exit(outcome: Outcome, realizedR: real, bar: nat, expired: bool)

  predicate IsLong(s: Setup) { s.kind == "BULLISH" }

  function Window(candles: seq<Candle>, entryIdx: nat, s: Setup): (legs: seq<Leg>)
    requires entryIdx < |candles|
    ensures 1 <= |legs| <= MAX_HOLD_BARS + 1
    ensures |legs| == MinInt(|candles| - 1, entryIdx + MAX_HOLD_BARS) - entryIdx + 1
    ensures forall j {:trigger legs[j]} :: 0 <= j < |legs| ==>
      legs[j] == ToLeg(candles[entryIdx + j], s.entryPrice, IsLong(s))
  {
    seq(MinInt(|candles| - 1, entryIdx + MAX_HOLD_BARS) - entryIdx + 1,
        j requires 0 <= j && entryIdx + j < |candles| =>
          ToLeg(candles[entryIdx + j], s.entryPrice, IsLong(s)))
  }

  function RulesOf(s: Setup, threshold: real, protect: bool): Rules {
    Rules(Abs(s.entryPrice - s.stopLoss),
          if IsLong(s) then s.stopLoss - s.entryPrice else s.entryPrice - s.stopLoss,
          threshold, protect)
  }

  /** One update of a running maximum of `gain / risk`, with a division by zero
      yielding an infinity or not a number. */
  function Raise(peak: Excursion, gain: real, risk: real): Excursion
    requires risk >= 0.0
  {
    if peak.Infinite? then peak
    else if risk == 0.0 then (if gain > 0.0 then Infinite else peak)
    else if gain / risk > peak.r then Finite(gain / risk) else peak
  }

  predicate Reaches(peak: Excursion, threshold: real) {
    peak.Infinite? || peak.r >= threshold
  }

  function Display(e: Excursion): Excursion {
    if e.Infinite? then e else Finite(Fixed2(e.r))
  }

  /** Maximum favourable excursion over the first n bars. */
  function Mfe(legs: seq<Leg>, n: nat, risk: real): Excursion
    requires n <= |legs| && risk >= 0.0
  {
    if n == 0 then Finite(0.0) else Raise(Mfe(legs, n - 1, risk), legs[n - 1].best, risk)
  }

  /** Maximum adverse excursion over the first n bars. */
  function Mae(legs: seq<Leg>, n: nat, risk: real): Excursion
    requires n <= |legs| && risk >= 0.0
  {
    if n == 0 then Finite(0.0) else Raise(Mae(legs, n - 1, risk), -legs[n - 1].worst, risk)
  }

  // ------------------------------------------------- meaning: first passages

  predicate Tp1At(legs: seq<Leg>, r: Rules, k: nat) {
    k < |legs| && legs[k].best >= r.risk
  }

  predicate Tp2At(legs: seq<Leg>, r: Rules, k: nat) {
    k < |legs| && legs[k].best >= 1.4 * r.risk
  }

  predicate StopAt(legs: seq<Leg>, r: Rules, k: nat) {
    k < |legs| && legs[k].worst <= r.stop
  }

  predicate EntryAt(legs: seq<Leg>, k: nat) {
    k < |legs| && legs[k].worst <= 0.0
  }

  predicate ThresholdAt(legs: seq<Leg>, r: Rules, k: nat)
    requires r.risk >= 0.0
  {
    k < |legs| && Reaches(Mfe(legs, k + 1, r.risk), r.threshold)
  }

  /** Something happens to a fresh trade: its stop, its first target or its threshold. */
  predicate DecisiveAt(legs: seq<Leg>, r: Rules, k: nat)
    requires r.risk >= 0.0
  {
    Tp1At(legs, r, k) || ThresholdAt(legs, r, k) || StopAt(legs, r, k)
  }

  function FirstDecisive(legs: seq<Leg>, r: Rules, from: nat): (d: nat)
    requires from <= |legs| && r.risk >= 0.0
    ensures from <= d <= |legs| && (d < |legs| ==> DecisiveAt(legs, r, d))
    ensures forall j: nat :: from <= j < d ==> !DecisiveAt(legs, r, j)
    decreases |legs| - from
  {
    if from == |legs| || DecisiveAt(legs, r, from) then from else FirstDecisive(legs, r, from + 1)
  }

  function FirstRunnerEvent(legs: seq<Leg>, r: Rules, from: nat): (e: nat)
    requires from <= |legs|
    ensures from <= e <= |legs| && (e < |legs| ==> Tp2At(legs, r, e) || EntryAt(legs, e))
    ensures forall j: nat :: from <= j < e ==> !Tp2At(legs, r, j) && !EntryAt(legs, j)
    decreases |legs| - from
  {
    if from == |legs| || Tp2At(legs, r, from) || EntryAt(legs, from) then from else FirstRunnerEvent(legs, r, from + 1)
  }

  function FirstBreakevenEvent(legs: seq<Leg>, r: Rules, from: nat): (e: nat)
    requires from <= |legs|
    ensures from <= e <= |legs| && (e < |legs| ==> Tp1At(legs, r, e) || EntryAt(legs, e))
    ensures forall j: nat :: from <= j < e ==> !Tp1At(legs, r, j) && !EntryAt(legs, j)
    decreases |legs| - from
  {
    if from == |legs| || Tp1At(legs, r, from) || EntryAt(legs, from) then from else FirstBreakevenEvent(legs, r, from + 1)
  }

  /** After the first target: whichever comes first of the second target and the entry,
      the second target winning a tie. */
  function RunnerExit(legs: seq<Leg>, r: Rules, from: nat): Exit
    requires from <= |legs| && legs != []
  {
    var e := FirstRunnerEvent(legs, r, from);
    if e == |legs| then Exit(Stage1Scratch, 0.5, |legs| - 1, true)
    else if Tp2At(legs, r, e) then Exit(FullTp2Win, 1.2, e, false)
    else Exit(Stage1Scratch, 0.5, e, false)
  }

  /** With the stop at the entry: whichever comes first of the first target and the
      entry, the first target winning a tie. */
  function BreakevenExit(legs: seq<Leg>, r: Rules, from: nat): Exit
    requires from <= |legs| && legs != []
  {
    var e := FirstBreakevenEvent(legs, r, from);
    if e == |legs| then Exit(BeScratch, 0.0, |legs| - 1, true)
    else if Tp1At(legs, r, e) then RunnerExit(legs, r, e)
    else Exit(BeScratch, 0.0, e, false)
  }

  /** The whole trade, decided at its first decisive bar d (the bars before `from` being quiet). */
  function ExitFrom(legs: seq<Leg>, r: Rules, from: nat): Exit
    requires from <= |legs| && legs != [] && r.risk >= 0.0
  {
    var d := FirstDecisive(legs, r, from);
    if d == |legs| then Exit(BeScratch, 0.0, |legs| - 1, true)
    else if Tp1At(legs, r, d) then RunnerExit(legs, r, d)
    else if !ThresholdAt(legs, r, d) then Exit(StoppedOut, -1.0, d, false)
    else if (if r.protect then StopAt(legs, r, d) else EntryAt(legs, d)) then Exit(BeScratch, 0.0, d, false)
    else BreakevenExit(legs, r, d + 1)
  }

  function TradeExit(legs: seq<Leg>, r: Rules): Exit
    requires legs != [] && r.risk >= 0.0
  {
    ExitFrom(legs, r, 0)
  }

  // ------------------------------------------------------ the loop's own walk

  datatype Phase = Initial | EarlyBe | Stage1

  datatype Step = Leave(exit: Exit) | Stay(phase: Phase)

  /** One turn of the loop, with its tests in the order in which the loop makes them. */
  ghost function Turn(legs: seq<Leg>, r: Rules, k: nat, phase: Phase): (step: Step)
    requires k < |legs| && r.risk >= 0.0
    ensures step.Leave? ==> step.exit.bar == k && !step.exit.expired
  {
    var afterTp1 := if Tp1At(legs, r, k) then Stage1 else phase;
    var ratchet := afterTp1.Initial? && ThresholdAt(legs, r, k);
    var next := if ratchet then EarlyBe else afterTp1;
    if afterTp1.Stage1? && Tp2At(legs, r, k) then Leave(Exit(FullTp2Win, 1.2, k, false))
    else if (if next.Initial? || (ratchet && r.protect) then StopAt(legs, r, k) else EntryAt(legs, k)) then
      Leave(if next.Stage1? then Exit(Stage1Scratch, 0.5, k, false)
            else if next.EarlyBe? then Exit(BeScratch, 0.0, k, false)
            else Exit(StoppedOut, -1.0, k, false))
    else Stay(next)
  }

  /** The remaining bars from k on, carrying the phase from bar to bar. */
  ghost function Walk(legs: seq<Leg>, r: Rules, k: nat, phase: Phase): Exit
    requires k <= |legs| && legs != [] && r.risk >= 0.0
    decreases |legs| - k
  {
    if k == |legs| then
      Exit(if phase.Stage1? then Stage1Scratch else BeScratch, if phase.Stage1? then 0.5 else 0.0, |legs| - 1, true)
    else
      match Turn(legs, r, k, phase)
      case Leave(e) => e
      case Stay(next) => Walk(legs, r, k + 1, next)
  }

  lemma {:induction false} WalkStage1IsRunner(legs: seq<Leg>, r: Rules, k: nat)
    requires k <= |legs| && legs != [] && r.risk >= 0.0
    ensures Walk(legs, r, k, Stage1) == RunnerExit(legs, r, k)
    decreases |legs| - k
  {
    if k < |legs| {
      WalkStage1IsRunner(legs, r, k + 1);
    }
  }

  lemma {:induction false} WalkAtTp1(legs: seq<Leg>, r: Rules, k: nat, phase: Phase)
    requires Tp1At(legs, r, k) && r.risk >= 0.0
    ensures Walk(legs, r, k, phase) == RunnerExit(legs, r, k)
  {
    assert Walk(legs, r, k, phase) == Walk(legs, r, k, Stage1);
    WalkStage1IsRunner(legs, r, k);
  }

  lemma {:induction false} WalkEarlyBeIsBreakeven(legs: seq<Leg>, r: Rules, k: nat)
    requires k <= |legs| && legs != [] && r.risk >= 0.0
    ensures Walk(legs, r, k, EarlyBe) == BreakevenExit(legs, r, k)
    decreases |legs| - k
  {
    if k < |legs| {
      WalkEarlyBeIsBreakeven(legs, r, k + 1);
      if Tp1At(legs, r, k) {
        WalkAtTp1(legs, r, k, EarlyBe);
      }
    }
  }

  /** Carrying state from bar to bar computes the first-passage outcome. */
  lemma {:induction false} WalkIsFirstPassage(legs: seq<Leg>, r: Rules, k: nat)
    requires k <= |legs| && legs != [] && r.risk >= 0.0
    ensures Walk(legs, r, k, Initial) == ExitFrom(legs, r, k)
    decreases |legs| - k
  {
    hide Tp1At, Tp2At, StopAt, EntryAt, ThresholdAt;
    if k < |legs| {
      WalkIsFirstPassage(legs, r, k + 1);
      if Tp1At(legs, r, k) {
        WalkAtTp1(legs, r, k, Initial);
      } else if ThresholdAt(legs, r, k) {
        WalkEarlyBeIsBreakeven(legs, r, k + 1);
      }
    }
  }

  // ------------------------------------------------------------ specification

  function OrZero(x: Option<real>): real {
    match x case Some(v) => v case None => 0.0
  }

  /** What is reported for a setup whose retest time matches no candle. A zero exit
      time is as good as none. */
  function RecordedResult(s: Setup): PathSimulationResult {
    PathSimulationResult(
      s.id, s.kind, s.simulatedOutcome, OrZero(s.realizedRr), s.retestTime,
      if s.exitTime.Some? && s.exitTime.value != 0 then s.exitTime.value else s.retestTime,
      Finite(OrZero(s.mfeR)), Finite(OrZero(s.maeR)), 0)
  }

  /** The report of a trade that leaves the market as `e` says. */
  ghost function Report(candles: seq<Candle>, entryIdx: nat, s: Setup, legs: seq<Leg>, risk: real, e: Exit): PathSimulationResult
    requires entryIdx + e.bar < |candles| && e.bar < |legs| && risk >= 0.0
  {
    PathSimulationResult(
      s.id, s.kind, e.outcome, e.realizedR, s.retestTime, candles[entryIdx + e.bar].t,
      Display(Mfe(legs, e.bar + 1, risk)), Display(Mae(legs, e.bar + 1, risk)), e.bar + 1)
  }

  ghost function WalkedResult(candles: seq<Candle>, entryIdx: nat, s: Setup, r: Rules): PathSimulationResult
    requires entryIdx < |candles| && r.risk >= 0.0
  {
    var legs := Window(candles, entryIdx, s);
    ExitInRange(legs, r);
    Report(candles, entryIdx, s, legs, r.risk, TradeExit(legs, r))
  }

  lemma {:induction false} ExitInRange(legs: seq<Leg>, r: Rules)
    requires legs != [] && r.risk >= 0.0
    ensures TradeExit(legs, r).bar < |legs|
    ensures TradeExit(legs, r).expired ==> TradeExit(legs, r).bar == |legs| - 1
  {
  }

  ghost function PathResult(candles: seq<Candle>, s: Setup, threshold: real, protect: bool): PathSimulationResult {
    var at := IndexMap(candles, |candles|);
    IndexMapIsLastIndex(candles, |candles|, s.retestTime);
    if s.retestTime in at
    then WalkedResult(candles, at[s.retestTime], s, RulesOf(s, threshold, protect))
    else RecordedResult(s)
  }

  // ---------------------------------------------------------- the first copy

  /** The loop's flags for each phase. */
  predicate Flags(phase: Phase, isEarlyBeActive: bool, isStage1Hit: bool) {
    isEarlyBeActive == !phase.Initial? && isStage1Hit == phase.Stage1?
  }

  ghost predicate BarOf(legs: seq<Leg>, r: Rules, k: nat, c: Candle, s: Setup, maxMfe: Excursion) {
    && k < |legs| && legs[k] == ToLeg(c, s.entryPrice, IsLong(s))
    && r == RulesOf(s, r.threshold, r.protect)
    && maxMfe == Mfe(legs, k + 1, r.risk)
  }

  /** What the checks of one bar say: the trade leaves with this outcome, or the flags
      and the stop describe the next phase. */
  ghost predicate Agrees(step: Step, s: Setup, exit: Option<(Outcome, real)>,
                         activeSL: real, isEarlyBeActive: bool, isStage1Hit: bool) {
    match step
    case Leave(e) => exit == Some((e.outcome, e.realizedR))
    case Stay(next) =>
      && exit.None? && Flags(next, isEarlyBeActive, isStage1Hit)
      && activeSL == if next.Initial? then s.stopLoss else s.entryPrice
  }

  method TrackExcursions(c: Candle, setup: Setup, risk: real, maxMfe: Excursion, maxMae: Excursion,
                         ghost legs: seq<Leg>, ghost k: nat)
    returns (mfe: Excursion, mae: Excursion)
    requires risk >= 0.0 && k < |legs| && legs[k] == ToLeg(c, setup.entryPrice, IsLong(setup))
    requires maxMfe == Mfe(legs, k, risk) && maxMae == Mae(legs, k, risk)
    ensures mfe == Mfe(legs, k + 1, risk) && mae == Mae(legs, k + 1, risk)
  {
    if IsLong(setup) {
      mfe := Raise(maxMfe, c.h - setup.entryPrice, risk);
      mae := Raise(maxMae, setup.entryPrice - c.l, risk);
    } else {
      mfe := Raise(maxMfe, setup.entryPrice - c.l, risk);
      mae := Raise(maxMae, c.h - setup.entryPrice, risk);
    }
  }

  /** Checks 1-4 of the loop for a long trade. */
  method CheckLongBar(c: Candle, setup: Setup, tp1: real, tp2: real, maxMfe: Excursion,
                      earlyBeThreshold: real, sameBarBeProtection: bool,
                      stop: real, early: bool, stage1: bool,
                      ghost legs: seq<Leg>, ghost r: Rules, ghost k: nat, ghost phase: Phase)
    returns (exit: Option<(Outcome, real)>, activeSL: real, isEarlyBeActive: bool, isStage1Hit: bool)
    requires IsLong(setup) && BarOf(legs, r, k, c, setup, maxMfe)
    requires r.threshold == earlyBeThreshold && r.protect == sameBarBeProtection
    requires tp1 == setup.entryPrice + 1.0 * r.risk && tp2 == setup.entryPrice + 1.4 * r.risk
    requires Flags(phase, early, stage1) && stop == if phase.Initial? then setup.stopLoss else setup.entryPrice
    ensures Agrees(Turn(legs, r, k, phase), setup, exit, activeSL, isEarlyBeActive, isStage1Hit)
  {
    activeSL, isEarlyBeActive, isStage1Hit := stop, early, stage1;
    if !isStage1Hit && c.h >= tp1 {
      isStage1Hit := true;
      activeSL := setup.entryPrice;
      isEarlyBeActive := true;
    }
    if isStage1Hit && c.h >= tp2 {
      return Some((FullTp2Win, 1.2)), activeSL, isEarlyBeActive, isStage1Hit;
    }
    var beRatchetedThisBar := false;
    if !isStage1Hit && !isEarlyBeActive && Reaches(maxMfe, earlyBeThreshold) {
      isEarlyBeActive := true;
      activeSL := setup.entryPrice;
      beRatchetedThisBar := true;
    }
    var effectiveSL := if beRatchetedThisBar && sameBarBeProtection then setup.stopLoss else activeSL;
    exit := None;
    if c.l <= effectiveSL {
      if isStage1Hit {
        exit := Some((Stage1Scratch, 0.5));
      } else if isEarlyBeActive {
        exit := Some((BeScratch, 0.0));
      } else {
        exit := Some((StoppedOut, -1.0));
      }
    }
  }

  /** Checks 1-4 of the loop for a short trade. */
  method CheckShortBar(c: Candle, setup: Setup, tp1: real, tp2: real, maxMfe: Excursion,
                       earlyBeThreshold: real, sameBarBeProtection: bool,
                       stop: real, early: bool, stage1: bool,
                       ghost legs: seq<Leg>, ghost r: Rules, ghost k: nat, ghost phase: Phase)
    returns (exit: Option<(Outcome, real)>, activeSL: real, isEarlyBeActive: bool, isStage1Hit: bool)
    requires !IsLong(setup) && BarOf(legs, r, k, c, setup, maxMfe)
    requires r.threshold == earlyBeThreshold && r.protect == sameBarBeProtection
    requires tp1 == setup.entryPrice - 1.0 * r.risk && tp2 == setup.entryPrice - 1.4 * r.risk
    requires Flags(phase, early, stage1) && stop == if phase.Initial? then setup.stopLoss else setup.entryPrice
    ensures Agrees(Turn(legs, r, k, phase), setup, exit, activeSL, isEarlyBeActive, isStage1Hit)
  {
    activeSL, isEarlyBeActive, isStage1Hit := stop, early, stage1;
    if !isStage1Hit && c.l <= tp1 {
      isStage1Hit := true;
      activeSL := setup.entryPrice;
      isEarlyBeActive := true;
    }
    if isStage1Hit && c.l <= tp2 {
      return Some((FullTp2Win, 1.2)), activeSL, isEarlyBeActive, isStage1Hit;
    }
    var beRatchetedThisBar := false;
    if !isStage1Hit && !isEarlyBeActive && Reaches(maxMfe, earlyBeThreshold) {
      isEarlyBeActive := true;
      activeSL := setup.entryPrice;
      beRatchetedThisBar := true;
    }
    var effectiveSL := if beRatchetedThisBar && sameBarBeProtection then setup.stopLoss else activeSL;
    exit := None;
    if c.h >= effectiveSL {
      if isStage1Hit {
        exit := Some((Stage1Scratch, 0.5));
      } else if isEarlyBeActive {
        exit := Some((BeScratch, 0.0));
      } else {
        exit := Some((StoppedOut, -1.0));
      }
    }
  }

  /** The bar loop: the bar on which the trade left (the last one if it never did), with
      what was booked and the excursions so far. */
  method WalkBars(candles: seq<Candle>, entryIdx: nat, endIdx: nat, setup: Setup, risk: real,
                  earlyBeThreshold: real, sameBarBeProtection: bool, ghost legs: seq<Leg>, ghost r: Rules)
    returns (outcome: Outcome, realizedR: real, exitIdx: nat, maxMfe: Excursion, maxMae: Excursion)
    requires entryIdx <= endIdx < |candles| && |legs| == endIdx - entryIdx + 1
    requires forall j {:trigger legs[j]} :: 0 <= j < |legs| ==>
      legs[j] == ToLeg(candles[entryIdx + j], setup.entryPrice, IsLong(setup))
    requires r == RulesOf(setup, earlyBeThreshold, sameBarBeProtection) && r.risk == risk
    ensures entryIdx <= exitIdx <= endIdx
    ensures var e := Walk(legs, r, 0, Initial);
      e.outcome == outcome && e.realizedR == realizedR && e.bar == exitIdx - entryIdx
    ensures maxMfe == Mfe(legs, exitIdx - entryIdx + 1, risk) && maxMae == Mae(legs, exitIdx - entryIdx + 1, risk)
  {
    var isLong := IsLong(setup);
    var entry := setup.entryPrice;
    var tp1 := if isLong then entry + 1.0 * risk else entry - 1.0 * risk;
    var tp2 := if isLong then entry + 1.4 * risk else entry - 1.4 * risk;

    var activeSL, isEarlyBeActive, isStage1Hit := setup.stopLoss, false, false;
    maxMfe, maxMae := Finite(0.0), Finite(0.0);
    ghost var phase, k := Initial, 0;

    var i := entryIdx;
    while i <= endIdx
      invariant i == entryIdx + k && k <= |legs|
      invariant Flags(phase, isEarlyBeActive, isStage1Hit)
      invariant activeSL == if phase.Initial? then setup.stopLoss else entry
      invariant maxMfe == Mfe(legs, k, risk) && maxMae == Mae(legs, k, risk)
      invariant Walk(legs, r, k, phase) == Walk(legs, r, 0, Initial)
    {
      var c := candles[i];
      maxMfe, maxMae := TrackExcursions(c, setup, risk, maxMfe, maxMae, legs, k);

      var exit;
      if isLong {
        exit, activeSL, isEarlyBeActive, isStage1Hit := CheckLongBar(
          c, setup, tp1, tp2, maxMfe, earlyBeThreshold, sameBarBeProtection,
          activeSL, isEarlyBeActive, isStage1Hit, legs, r, k, phase);
      } else {
        exit, activeSL, isEarlyBeActive, isStage1Hit := CheckShortBar(
          c, setup, tp1, tp2, maxMfe, earlyBeThreshold, sameBarBeProtection,
          activeSL, isEarlyBeActive, isStage1Hit, legs, r, k, phase);
      }
      if exit.Some? {
        return exit.value.0, exit.value.1, i, maxMfe, maxMae;
      }
      phase := Turn(legs, r, k, phase).phase;
      i, k := i + 1, k + 1;
    }
    return if isStage1Hit then Stage1Scratch else BeScratch, if isStage1Hit then 0.5 else 0.0, endIdx, maxMfe, maxMae;
  }

  lemma {:induction false} WalkedIsResult(candles: seq<Candle>, s: Setup, threshold: real, protect: bool, entryIdx: nat, bar: nat)
    requires s.retestTime in IndexMap(candles, |candles|) && entryIdx == IndexMap(candles, |candles|)[s.retestTime]
    requires entryIdx < |candles|
    requires bar == Walk(Window(candles, entryIdx, s), RulesOf(s, threshold, protect), 0, Initial).bar
    ensures var legs, r := Window(candles, entryIdx, s), RulesOf(s, threshold, protect);
      && bar < |legs|
      && PathResult(candles, s, threshold, protect)
         == Report(candles, entryIdx, s, legs, r.risk, Walk(legs, r, 0, Initial))
  {
    var legs, r := Window(candles, entryIdx, s), RulesOf(s, threshold, protect);
    WalkIsFirstPassage(legs, r, 0);
    ExitInRange(legs, r);
  }

  method SimulateExactCandlePath(
    candles: seq<Candle>, candleMap: map<int, nat>, setup: Setup,
    earlyBeThreshold: real, sameBarBeProtection: bool)
    returns (res: PathSimulationResult)
    requires candleMap == IndexMap(candles, |candles|)
    ensures res == PathResult(candles, setup, earlyBeThreshold, sameBarBeProtection)
  {
    hide Mfe, Mae, Walk, TradeExit, ToLeg, Display;
    IndexMapIsLastIndex(candles, |candles|, setup.retestTime);
    if setup.retestTime !in candleMap {
      return RecordedResult(setup);
    }
    var entryIdx := candleMap[setup.retestTime];
    var risk := Abs(setup.entryPrice - setup.stopLoss);
    var endIdx := MinInt(|candles| - 1, entryIdx + MAX_HOLD_BARS);
    ghost var legs, r := Window(candles, entryIdx, setup), RulesOf(setup, earlyBeThreshold, sameBarBeProtection);
    var outcome, realizedR, exitIdx, maxMfe, maxMae := WalkBars(
      candles, entryIdx, endIdx, setup, risk, earlyBeThreshold, sameBarBeProtection, legs, r);
    res := PathSimulationResult(
        setup.id, setup.kind, outcome, realizedR, setup.retestTime, candles[exitIdx].t,
        Display(maxMfe), Display(maxMae), exitIdx - entryIdx + 1);
    WalkedIsResult(candles, setup, earlyBeThreshold, sameBarBeProtection, entryIdx, exitIdx - entryIdx);
  }
}
