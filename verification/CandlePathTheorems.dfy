/** What the candle-path simulator guarantees: how its outcomes arise, how runs under
    different thresholds relate, that longs and shorts mirror each other, and that no
    price exit looks ahead. */
module CandlePathTheorems {
  import opened Market
  import opened CandlePath

  // ------------------------------------------------------------- excursions

  /** The reported MFE is the largest favourable excursion so far, floored at zero. */
  lemma {:induction false} MfeIsMaximum(legs: seq<Leg>, n: nat, risk: real)
    requires n <= |legs| && risk >= 0.0
    ensures risk > 0.0 ==>
      && Mfe(legs, n, risk).Finite?
      && var m := Mfe(legs, n, risk).r;
         && m >= 0.0 && (forall j :: 0 <= j < n ==> legs[j].best / risk <= m)
         && (m == 0.0 || exists j :: 0 <= j < n && legs[j].best / risk == m)
    ensures risk == 0.0 ==>
      Mfe(legs, n, risk) == if exists j :: 0 <= j < n && legs[j].best > 0.0 then Infinite else Finite(0.0)
  {
    if n > 0 {
      MfeIsMaximum(legs, n - 1, risk);
    }
  }

  lemma {:induction false} MfePrefix(legs: seq<Leg>, other: seq<Leg>, n: nat, risk: real)
    requires n <= |legs| && n <= |other| && risk >= 0.0
    requires forall j :: 0 <= j < n ==> legs[j] == other[j]
    ensures Mfe(legs, n, risk) == Mfe(other, n, risk) && Mae(legs, n, risk) == Mae(other, n, risk)
  {
    if n > 0 {
      MfePrefix(legs, other, n - 1, risk);
    }
  }

  // --------------------------------------------------------------- stop-outs

  /** A full loss is booked exactly when the first eventful bar pierces the stop and
      neither reaches the first target nor the breakeven threshold. */
  lemma {:induction false} StoppedOutIff(legs: seq<Leg>, r: Rules)
    requires legs != [] && r.risk >= 0.0
    ensures TradeExit(legs, r).outcome == StoppedOut <==>
      exists d: nat ::
        && (forall j: nat :: j < d ==> !DecisiveAt(legs, r, j))
        && StopAt(legs, r, d) && !Tp1At(legs, r, d) && !ThresholdAt(legs, r, d)
  {
    var d := FirstDecisive(legs, r, 0);
    if d == |legs| || Tp1At(legs, r, d) || ThresholdAt(legs, r, d) {
      assert TradeExit(legs, r).outcome != StoppedOut;
      forall d': nat | StopAt(legs, r, d') && !Tp1At(legs, r, d') && !ThresholdAt(legs, r, d')
        ensures exists j: nat :: j < d' && DecisiveAt(legs, r, j)
      {
        assert DecisiveAt(legs, r, d');
        assert d < d';
      }
    } else {
      assert TradeExit(legs, r).outcome == StoppedOut;
      assert StopAt(legs, r, d);
    }
  }

  // -------------------------------------------------- comparing two thresholds

  ghost predicate Sheltered(early: Exit, late: Exit) {
    early.outcome == BeScratch || early == late
  }

  /** Two runs in lock step, the one with the lower threshold possibly already at breakeven. */
  lemma {:induction false} LockStep(legs: seq<Leg>, r: Rules, late: real, k: nat, phase: Phase, latePhase: Phase)
    requires k <= |legs| && legs != [] && r.risk >= 0.0 && r.stop <= 0.0
    requires r.threshold <= late
    requires latePhase == phase || (phase == EarlyBe && latePhase == Initial)
    ensures Sheltered(Walk(legs, r, k, phase), Walk(legs, r.(threshold := late), k, latePhase))
    decreases |legs| - k
  {
    if k < |legs| {
      var r' := r.(threshold := late);
      match Turn(legs, r, k, phase)
      case Leave(_) =>
      case Stay(next) =>
        match Turn(legs, r', k, latePhase)
        case Leave(_) =>
        case Stay(lateNext) => LockStep(legs, r, late, k + 1, next, lateNext);
    }
  }

  /** With the stop beyond the entry a well-formed first bar always decides, and
      same-bar protection then keeps the runs together. */
  lemma {:induction false} FirstBarDecides(legs: seq<Leg>, r: Rules, late: real)
    requires legs != [] && r.risk >= 0.0 && r.stop == r.risk && r.threshold <= late
    requires r.protect && legs[0].worst <= legs[0].best
    ensures Sheltered(Walk(legs, r, 0, Initial), Walk(legs, r.(threshold := late), 0, Initial))
  {
    var r' := r.(threshold := late);
    if Tp1At(legs, r, 0) {
      WalkAtTp1(legs, r, 0, Initial);
      WalkAtTp1(legs, r', 0, Initial);
      RunnerIgnoresThreshold(legs, r, late, 0);
    } else {
      assert StopAt(legs, r, 0);
    }
  }

  lemma {:induction false} RunnerIgnoresThreshold(legs: seq<Leg>, r: Rules, late: real, from: nat)
    requires from <= |legs| && legs != []
    ensures RunnerExit(legs, r, from) == RunnerExit(legs, r.(threshold := late), from)
  {
    var r' := r.(threshold := late);
    var e, e' := FirstRunnerEvent(legs, r, from), FirstRunnerEvent(legs, r', from);
    assert Tp2At(legs, r', e) == Tp2At(legs, r, e) && Tp2At(legs, r', e') == Tp2At(legs, r, e');
  }

  ghost predicate StopOnLosingSide(s: Setup) {
    if IsLong(s) then s.stopLoss <= s.entryPrice else s.entryPrice <= s.stopLoss
  }

  ghost predicate WellFormed(candles: seq<Candle>) { forall c :: c in candles ==> c.l <= c.h }

  /** The earlier threshold scratches the trade or reports what the later one reports. */
  ghost predicate ScratchesOrAgrees(candles: seq<Candle>, s: Setup, early: real, late: real, protect: bool) {
    || PathResult(candles, s, early, protect).outcome == BeScratch
    || PathResult(candles, s, early, protect) == PathResult(candles, s, late, protect)
  }

  /** Lowering the early-breakeven threshold can only turn a trade into a breakeven
      scratch; otherwise nothing in its report changes. */
  lemma {:induction false} LowerThresholdOnlyScratches(candles: seq<Candle>, s: Setup, early: real, late: real, protect: bool)
    requires early <= late
    requires StopOnLosingSide(s) || (protect && WellFormed(candles))
    ensures ScratchesOrAgrees(candles, s, early, late, protect)
  {
    IndexMapIsLastIndex(candles, |candles|, s.retestTime);
    if s.retestTime in IndexMap(candles, |candles|) {
      var at := IndexMap(candles, |candles|)[s.retestTime];
      var legs, r := Window(candles, at, s), RulesOf(s, early, protect);
      WalkIsFirstPassage(legs, r, 0);
      WalkIsFirstPassage(legs, r.(threshold := late), 0);
      if StopOnLosingSide(s) {
        LockStep(legs, r, late, 0, Initial, Initial);
      } else {
        assert candles[at] in candles && legs[0] == ToLeg(candles[at], s.entryPrice, IsLong(s));
        FirstBarDecides(legs, r, late);
      }
    }
  }

  // ------------------------------------------- exactly when that comparison holds

  /** On every market, lowering the threshold can only scratch this setup. */
  ghost predicate OnlyScratches(s: Setup, protect: bool) {
    forall candles, early: real, late: real {:trigger ScratchesOrAgrees(candles, s, early, late, protect)} ::
      WellFormed(candles) && early <= late ==> ScratchesOrAgrees(candles, s, early, late, protect)
  }

  /** A candle that an open trade sees as the given leg. */
  function CandleOf(t: int, s: Setup, leg: Leg): (c: Candle)
    ensures c.t == t && ToLeg(c, s.entryPrice, IsLong(s)) == leg
    ensures leg.worst <= leg.best ==> c.l <= c.h
  {
    var a, b := s.entryPrice + leg.best, s.entryPrice + leg.worst;
    var a', b' := s.entryPrice - leg.best, s.entryPrice - leg.worst;
    if IsLong(s) then Candle(t, b, a, b, a, 0.0, 0.0, 0.0, true) else Candle(t, b', b', a', a', 0.0, 0.0, 0.0, true)
  }

  lemma {:induction false} FirstMfe(legs: seq<Leg>, risk: real, x: real)
    requires legs != [] && risk > 0.0 && x > 0.0 && legs[0].best == x * risk
    ensures Mfe(legs, 1, risk) == Finite(x)
  {
    assert x * risk / risk == x;
    assert Mfe(legs, 0, risk) == Finite(0.0);
  }

  /** A stop beyond the entry, two bars, and no protection: at 0.9 the trade is stopped
      out on the first bar, at 0.5 its stop drops to the entry and it goes on to win. */
  lemma {:induction false} RescuedWin(legs: seq<Leg>, r: Rules)
    requires r.risk > 0.0 && r.stop == r.risk && r.threshold == 0.5 && !r.protect
    requires legs == [Leg(0.6 * r.risk, 0.4 * r.risk), Leg(2.0 * r.risk, 0.5 * r.risk)]
    ensures TradeExit(legs, r).outcome == FullTp2Win && TradeExit(legs, r.(threshold := 0.9)).outcome == StoppedOut
  {
    var r' := r.(threshold := 0.9);
    FirstMfe(legs, r.risk, 0.6);
    assert Turn(legs, r, 0, Initial) == Stay(EarlyBe);
    assert Turn(legs, r, 1, EarlyBe) == Leave(Exit(FullTp2Win, 1.2, 1, false));
    assert Walk(legs, r, 1, EarlyBe).outcome == FullTp2Win;
    assert Turn(legs, r', 0, Initial) == Leave(Exit(StoppedOut, -1.0, 0, false));
    WalkIsFirstPassage(legs, r, 0);
    WalkIsFirstPassage(legs, r', 0);
  }

  /** Every setup with its stop beyond the entry has such a market. */
  lemma {:induction false} WinningSideStopCounterexample(s: Setup) returns (candles: seq<Candle>)
    requires !StopOnLosingSide(s)
    ensures WellFormed(candles)
    ensures PathResult(candles, s, 0.5, false).outcome == FullTp2Win
    ensures PathResult(candles, s, 0.9, false).outcome == StoppedOut
  {
    var r := RulesOf(s, 0.5, false);
    var first, second := Leg(0.6 * r.risk, 0.4 * r.risk), Leg(2.0 * r.risk, 0.5 * r.risk);
    candles := [CandleOf(s.retestTime, s, first), CandleOf(s.retestTime + 1, s, second)];
    IndexMapIsLastIndex(candles, 2, s.retestTime);
    assert candles[0].t == s.retestTime;
    assert s.retestTime in IndexMap(candles, 2) && IndexMap(candles, 2)[s.retestTime] == 0;
    assert Window(candles, 0, s) == [first, second];
    RescuedWin([first, second], r);
  }

  /** Lowering the threshold can only scratch a setup, whatever the market does, exactly
      when its stop is on the losing side or the ratchet bar is protected. */
  lemma {:induction false} OnlyScratchesIff(s: Setup, protect: bool)
    ensures OnlyScratches(s, protect) <==> StopOnLosingSide(s) || protect
  {
    hide PathResult;
    if StopOnLosingSide(s) || protect {
      forall candles, early: real, late: real | WellFormed(candles) && early <= late
        ensures ScratchesOrAgrees(candles, s, early, late, protect)
      {
        LowerThresholdOnlyScratches(candles, s, early, late, protect);
      }
    } else {
      var candles := WinningSideStopCounterexample(s);
      assert !ScratchesOrAgrees(candles, s, 0.5, 0.9, protect);
    }
  }

  // -------------------------------------------- thresholds that never matter

  lemma {:induction false} BelowTargetMfe(legs: seq<Leg>, n: nat, risk: real)
    requires n <= |legs| && risk >= 0.0
    requires forall j :: 0 <= j < n ==> legs[j].best < risk
    ensures Mfe(legs, n, risk).Finite? && Mfe(legs, n, risk).r < 1.0
  {
    if n > 0 {
      BelowTargetMfe(legs, n - 1, risk);
      assert risk > 0.0 ==> legs[n - 1].best / risk < 1.0;
    }
  }

  lemma {:induction false} HighThresholdWalk(legs: seq<Leg>, r: Rules, other: real, k: nat, phase: Phase)
    requires k <= |legs| && legs != [] && r.risk >= 0.0
    requires r.threshold >= 1.0 && other >= 1.0
    requires phase.Initial? ==> forall j :: 0 <= j < k ==> legs[j].best < r.risk
    ensures Walk(legs, r, k, phase) == Walk(legs, r.(threshold := other), k, phase)
    decreases |legs| - k
  {
    if k < |legs| {
      if phase.Initial? && !Tp1At(legs, r, k) {
        BelowTargetMfe(legs, k + 1, r.risk);
      }
      assert Turn(legs, r, k, phase) == Turn(legs, r.(threshold := other), k, phase);
      match Turn(legs, r, k, phase)
      case Leave(_) =>
      case Stay(next) => HighThresholdWalk(legs, r, other, k + 1, next);
    }
  }

  /** A threshold at or above the first target never acts: all of them, the 999 of the
      baseline included, give the same report. */
  lemma {:induction false} HighThresholdsAgree(candles: seq<Candle>, s: Setup, t: real, t': real, protect: bool)
    requires t >= 1.0 && t' >= 1.0
    ensures PathResult(candles, s, t, protect) == PathResult(candles, s, t', protect)
  {
    IndexMapIsLastIndex(candles, |candles|, s.retestTime);
    if s.retestTime in IndexMap(candles, |candles|) {
      var at := IndexMap(candles, |candles|)[s.retestTime];
      var legs, r := Window(candles, at, s), RulesOf(s, t, protect);
      WalkIsFirstPassage(legs, r, 0);
      WalkIsFirstPassage(legs, r.(threshold := t'), 0);
      HighThresholdWalk(legs, r, t', 0, Initial);
    }
  }

  // ---------------------------------------------------------- mirror symmetry

  function MirrorSetup(s: Setup): Setup {
    s.(kind := if IsLong(s) then "BEARISH" else "BULLISH", entryPrice := -s.entryPrice, stopLoss := -s.stopLoss)
  }

  lemma {:induction false} MirrorIndexMap(candles: seq<Candle>, n: nat)
    requires n <= |candles|
    ensures IndexMap(MirrorCandles(candles), n) == IndexMap(candles, n)
  {
    if n > 0 {
      MirrorIndexMap(candles, n - 1);
    }
  }

  lemma {:induction false} MirrorFrame(candles: seq<Candle>, at: nat, s: Setup)
    requires at < |candles|
    ensures Window(MirrorCandles(candles), at, MirrorSetup(s)) == Window(candles, at, s)
  {
    var mirrored := MirrorCandles(candles);
    assert IsLong(MirrorSetup(s)) == !IsLong(s);
    forall j | 0 <= j < |Window(candles, at, s)|
      ensures Window(mirrored, at, MirrorSetup(s))[j] == Window(candles, at, s)[j]
    {
      assert mirrored[at + j] == MirrorCandle(candles[at + j]);
    }
  }

  lemma {:induction false} MirrorWalk(candles: seq<Candle>, at: nat, s: Setup, threshold: real, protect: bool)
    requires at < |candles|
    ensures WalkedResult(MirrorCandles(candles), at, MirrorSetup(s), RulesOf(MirrorSetup(s), threshold, protect))
            == WalkedResult(candles, at, s, RulesOf(s, threshold, protect)).(kind := MirrorSetup(s).kind)
  {
    MirrorFrame(candles, at, s);
    assert IsLong(MirrorSetup(s)) == !IsLong(s);
    assert RulesOf(MirrorSetup(s), threshold, protect) == RulesOf(s, threshold, protect);
    ExitInRange(Window(candles, at, s), RulesOf(s, threshold, protect));
  }

  /** Negating all prices turns a long run into a short run with the same report, and back. */
  lemma {:induction false} MirrorSymmetry(candles: seq<Candle>, s: Setup, threshold: real, protect: bool)
    ensures PathResult(MirrorCandles(candles), MirrorSetup(s), threshold, protect)
            == PathResult(candles, s, threshold, protect).(kind := MirrorSetup(s).kind)
  {
    MirrorIndexMap(candles, |candles|);
    IndexMapIsLastIndex(candles, |candles|, s.retestTime);
    if s.retestTime in IndexMap(candles, |candles|) {
      MirrorWalk(candles, IndexMap(candles, |candles|)[s.retestTime], s, threshold, protect);
    }
  }

  // -------------------------------------------------------------- no lookahead

  lemma {:induction false} WalkPrefix(legs: seq<Leg>, other: seq<Leg>, r: Rules, k: nat, phase: Phase)
    requires k <= |legs| && legs != [] && r.risk >= 0.0
    requires var e := Walk(legs, r, k, phase);
      !e.expired && e.bar < |legs| && e.bar < |other| && legs[..e.bar + 1] == other[..e.bar + 1]
    ensures k <= Walk(legs, r, k, phase).bar
    ensures Walk(other, r, k, phase) == Walk(legs, r, k, phase)
    decreases |legs| - k
  {
    WalkMovesForward(legs, r, k, phase);
    var e := Walk(legs, r, k, phase);
    assert forall j :: 0 <= j <= e.bar ==> legs[j] == legs[..e.bar + 1][j] == other[j];
    MfePrefix(legs, other, k + 1, r.risk);
    assert Turn(other, r, k, phase) == Turn(legs, r, k, phase);
    match Turn(legs, r, k, phase)
    case Leave(_) =>
    case Stay(next) => WalkPrefix(legs, other, r, k + 1, next);
  }

  lemma {:induction false} WalkMovesForward(legs: seq<Leg>, r: Rules, k: nat, phase: Phase)
    requires k <= |legs| && legs != [] && r.risk >= 0.0
    ensures !Walk(legs, r, k, phase).expired ==> k < |legs| && k <= Walk(legs, r, k, phase).bar
    decreases |legs| - k
  {
    if k < |legs| {
      match Turn(legs, r, k, phase)
      case Leave(_) =>
      case Stay(next) => WalkMovesForward(legs, r, k + 1, next);
    }
  }

  lemma {:induction false} ExitPrefix(legs: seq<Leg>, other: seq<Leg>, r: Rules)
    requires legs != [] && other != [] && r.risk >= 0.0
    requires var e := TradeExit(legs, r);
      !e.expired && e.bar < |legs| && e.bar < |other| && legs[..e.bar + 1] == other[..e.bar + 1]
    ensures var e := TradeExit(legs, r);
      && TradeExit(other, r) == e
      && Mfe(other, e.bar + 1, r.risk) == Mfe(legs, e.bar + 1, r.risk)
      && Mae(other, e.bar + 1, r.risk) == Mae(legs, e.bar + 1, r.risk)
  {
    var e := TradeExit(legs, r);
    WalkIsFirstPassage(legs, r, 0);
    WalkIsFirstPassage(other, r, 0);
    WalkPrefix(legs, other, r, 0, Initial);
    assert forall j :: 0 <= j <= e.bar ==> legs[j] == legs[..e.bar + 1][j] == other[j];
    MfePrefix(legs, other, e.bar + 1, r.risk);
  }

  lemma {:induction false} WindowPrefix(candles: seq<Candle>, other: seq<Candle>, at: nat, bar: nat, s: Setup)
    requires at + bar < |candles| && at + bar < |other| && bar < |Window(candles, at, s)|
    requires other[..at + bar + 1] == candles[..at + bar + 1]
    ensures bar < |Window(other, at, s)|
    ensures Window(other, at, s)[..bar + 1] == Window(candles, at, s)[..bar + 1]
    ensures other[at + bar] == candles[at + bar]
  {
    forall j | at <= j <= at + bar ensures other[j] == candles[j] {
      assert other[..at + bar + 1][j] == candles[..at + bar + 1][j];
    }
  }

  lemma {:induction false} WalkedPrefix(candles: seq<Candle>, other: seq<Candle>, at: nat, s: Setup, r: Rules)
    requires at < |candles| && r.risk >= 0.0
    requires var e := TradeExit(Window(candles, at, s), r);
      && !e.expired && at + e.bar < |candles| && at + e.bar < |other|
      && other[..at + e.bar + 1] == candles[..at + e.bar + 1]
    ensures WalkedResult(other, at, s, r) == WalkedResult(candles, at, s, r)
  {
    hide Mfe, Mae, TradeExit, ToLeg, Display;
    var legs := Window(candles, at, s);
    ExitInRange(legs, r);
    WindowPrefix(candles, other, at, TradeExit(legs, r).bar, s);
    ExitPrefix(legs, Window(other, at, s), r);
  }

  /** A trade that leaves on price reports the same whatever candles come after its exit bar. */
  lemma {:induction false} NoLookahead(candles: seq<Candle>, other: seq<Candle>, s: Setup, threshold: real, protect: bool)
    requires s.retestTime in IndexMap(candles, |candles|) && s.retestTime in IndexMap(other, |other|)
    requires IndexMap(candles, |candles|)[s.retestTime] == IndexMap(other, |other|)[s.retestTime] < |candles|
    requires
      var at := IndexMap(candles, |candles|)[s.retestTime];
      var e := TradeExit(Window(candles, at, s), RulesOf(s, threshold, protect));
      && !e.expired && at + e.bar < |candles| && at + e.bar < |other|
      && other[..at + e.bar + 1] == candles[..at + e.bar + 1]
    ensures PathResult(other, s, threshold, protect) == PathResult(candles, s, threshold, protect)
  {
    WalkedPrefix(candles, other, IndexMap(candles, |candles|)[s.retestTime], s, RulesOf(s, threshold, protect));
  }

  lemma {:induction false} WalkedHolding(candles: seq<Candle>, at: nat, s: Setup, r: Rules)
    requires at < |candles| && r.risk >= 0.0
    ensures var res := WalkedResult(candles, at, s, r);
      && 1 <= res.barsHeld <= 289 && at + res.barsHeld <= |candles|
      && res.exitTime == candles[at + res.barsHeld - 1].t && res.entryTime == s.retestTime
  {
    ExitInRange(Window(candles, at, s), r);
  }

  /** At most 289 bars are held, and the reported exit time is that of the last of them. */
  lemma {:induction false} HoldingIsBounded(candles: seq<Candle>, s: Setup, threshold: real, protect: bool)
    requires s.retestTime in IndexMap(candles, |candles|)
    ensures var at, res := IndexMap(candles, |candles|)[s.retestTime], PathResult(candles, s, threshold, protect);
      && 1 <= res.barsHeld <= 289 && at + res.barsHeld <= |candles|
      && res.exitTime == candles[at + res.barsHeld - 1].t && candles[at].t == res.entryTime
  {
    IndexMapIsLastIndex(candles, |candles|, s.retestTime);
    WalkedHolding(candles, IndexMap(candles, |candles|)[s.retestTime], s, RulesOf(s, threshold, protect));
  }
}
