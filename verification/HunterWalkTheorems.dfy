/** First-passage meaning, timing and mirror symmetry of the hunter's forward walk. */
module HunterWalkTheorems {
  import opened Market
  import opened HunterWalk

  /** Bar k is the first to reach the first target, and no bar up to and including it touches the stop. */
  ghost predicate FirstTarget(legs: seq<Leg>, p: Plan, k: nat) {
    Tp1At(legs, p, k) && (forall j: nat :: j < k ==> !Tp1At(legs, p, j)) && (forall j: nat :: j <= k ==> !StopAt(legs, p, j))
  }

  /** From its first target at k1 the trade reaches the second at k2 untouched by the moved stop. */
  ghost predicate Harvest(legs: seq<Leg>, p: Plan, k1: nat, k2: nat) {
    FirstTarget(legs, p, k1) && k1 <= k2 && Tp2At(legs, p, k2) && forall j: nat :: k1 < j <= k2 ==> !BreakevenAt(legs, j)
  }

  lemma {:induction false} FirstTargetIsFirstEvent(legs: seq<Leg>, p: Plan, k: nat)
    ensures FirstTarget(legs, p, k) <==>
      var s := FirstEvent(legs, p, 0); s == k && s < |legs| && !StopAt(legs, p, s)
  {
    var s := FirstEvent(legs, p, 0);
    if FirstTarget(legs, p, k) {
      assert !StopAt(legs, p, k) && Tp1At(legs, p, k);
      assert s <= k;
    }
  }

  /** The three outcomes, each by first passage; PENDING is never recorded. */
  lemma {:induction false} OutcomeIff(legs: seq<Leg>, p: Plan)
    ensures TradeExit(legs, p).outcome == StoppedOut <==> !exists k: nat :: FirstTarget(legs, p, k)
    ensures TradeExit(legs, p).outcome == WinFull <==> exists k1: nat, k2: nat :: Harvest(legs, p, k1, k2)
    ensures TradeExit(legs, p).outcome == WinTp1Scratch <==>
      (exists k: nat :: FirstTarget(legs, p, k)) && !exists k1: nat, k2: nat :: Harvest(legs, p, k1, k2)
  {
    var s := FirstEvent(legs, p, 0);
    forall k: nat ensures FirstTarget(legs, p, k) <==> s == k && s < |legs| && !StopAt(legs, p, s) {
      FirstTargetIsFirstEvent(legs, p, k);
    }
    if s < |legs| && !StopAt(legs, p, s) {
      assert FirstTarget(legs, p, s);
      var e := FirstRunnerEvent(legs, p, s + 1);
      if Tp2At(legs, p, s) {
        assert Harvest(legs, p, s, s);
      } else if e < |legs| && !BreakevenAt(legs, e) {
        assert Harvest(legs, p, s, e);
      } else {
        forall k1: nat, k2: nat ensures !Harvest(legs, p, k1, k2) {
        }
      }
    }
  }

  ghost predicate Chronological(candles: seq<Candle>) {
    forall i, j :: 0 <= i < j < |candles| ==> candles[i].t < candles[j].t
  }

  /** The recorded exit lies strictly after the entry, and `barsHeld` counts the bars to
      it, except that a timed-out trade with at least 100 bars after its fill is priced
      one bar later than the 99 it was held. */
  lemma {:induction false} ExitTiming(candles: seq<Candle>, fillIndex: nat, fillPrice: real, dir: Direction, p: Plan)
    requires Chronological(candles) && fillIndex + 1 < |candles|
    ensures var res := Walked(candles, fillIndex, fillPrice, dir, p);
      var late := if TradeExit(Forward(candles, fillIndex, fillPrice, dir), p).TimedOut? && fillIndex + 100 < |candles| then 1 else 0;
      && fillIndex + res.barsHeld + late < |candles|
      && res.exitTime == candles[fillIndex + res.barsHeld + late].t
      && 1 <= res.barsHeld <= 99
      && candles[fillIndex].t < res.exitTime
  {
    var legs := Forward(candles, fillIndex, fillPrice, dir);
    ExitInRange(legs, p);
  }

  function Flip(dir: Direction): Direction { if dir.LONG? then SHORT else LONG }

  /** Negating all prices maps a walk to the opposite walk with the same outcome and timing. */
  lemma {:induction false} WalkMirror(candles: seq<Candle>, fillIndex: nat, fillPrice: real, dir: Direction, p: Plan)
    requires fillIndex < |candles|
    ensures var res := Walked(candles, fillIndex, fillPrice, dir, p);
      Walked(MirrorCandles(candles), fillIndex, -fillPrice, Flip(dir), p) == res.(exitPrice := -res.exitPrice)
  {
    var mirrored := MirrorCandles(candles);
    var legs, legs' := Forward(candles, fillIndex, fillPrice, dir), Forward(mirrored, fillIndex, -fillPrice, Flip(dir));
    forall j | 0 <= j < |legs| ensures legs'[j] == legs[j] {
      assert mirrored[fillIndex + 1 + j] == MirrorCandle(candles[fillIndex + 1 + j]);
    }
    assert legs' == legs;
    ExitInRange(legs, p);
  }
}
