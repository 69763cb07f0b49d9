/** The candle-path report in candle prices alone: which bar ends a trade, how, and what is
    reported, without the simulator's running state or its frame of reference. */
module CandlePathOutcomes {
  import opened Market
  import opened Decimal
  import opened CandlePath
  import opened CandlePathTheorems
  import ComboPath

  /** A setup that enters on candle `at`, and the policy under test. */
  datatype Case = Case(candles: seq<Candle>, s: Setup, threshold: real, protect: bool, at: nat) {

    /** `at` is the last candle with the setup's retest time. */
    ghost predicate Valid() {
      && at < |candles| && candles[at].t == s.retestTime
      && forall j :: at < j < |candles| ==> candles[j].t != s.retestTime
    }

    /** The hold window: the entry bar and up to 288 bars more. */
    ghost predicate Held(k: int) { at <= k < |candles| && k <= at + 288 }

    ghost function Risk(): real {
      if s.entryPrice < s.stopLoss then s.stopLoss - s.entryPrice else s.entryPrice - s.stopLoss
    }

    ghost function Gain(k: int): real
      requires 0 <= k < |candles|
    {
      if s.kind == "BULLISH" then candles[k].h - s.entryPrice else s.entryPrice - candles[k].l
    }

    ghost function Pain(k: int): real
      requires 0 <= k < |candles|
    {
      if s.kind == "BULLISH" then s.entryPrice - candles[k].l else candles[k].h - s.entryPrice
    }

    ghost predicate Target1(k: int) { Held(k) && Gain(k) >= Risk() }

    ghost predicate Target2(k: int) { Held(k) && Gain(k) >= 1.4 * Risk() }

    ghost predicate AtStop(k: int) {
      Held(k) && if s.kind == "BULLISH" then candles[k].l <= s.stopLoss else candles[k].h >= s.stopLoss
    }

    ghost predicate AtEntry(k: int) {
      Held(k) && if s.kind == "BULLISH" then candles[k].l <= s.entryPrice else candles[k].h >= s.entryPrice
    }

    /** The bar's gain is worth the threshold; with no risk any gain is. */
    ghost predicate Pays(k: int) {
      Held(k) && if Risk() > 0.0 then Gain(k) >= threshold * Risk() else Gain(k) > 0.0
    }

    /** The breakeven threshold has been met by bar k. */
    ghost predicate Earned(k: int) { Held(k) && (threshold <= 0.0 || exists j :: at <= j <= k && Pays(j)) }

    /** Nothing has happened to the trade before bar k. */
    ghost predicate Fresh(k: int) {
      forall j :: at <= j < k ==> !Target1(j) && !AtStop(j) && !Earned(j)
    }

    /** A full loss on bar k. */
    ghost predicate StopsOut(k: int) { Fresh(k) && AtStop(k) && !Target1(k) && !Earned(k) }

    /** Bar k moves the stop to the entry; the bar itself is tested against the stop in
        force before if it is protected, and against the entry if not. */
    ghost predicate Ratchets(k: int) { Fresh(k) && Earned(k) && !Target1(k) }

    ghost predicate EndsOnRatchet(k: int) { Ratchets(k) && if protect then AtStop(k) else AtEntry(k) }

    /** The stop was moved to the entry on bar d and neither it nor the target was met up to bar k. */
    ghost predicate Breakeven(d: int, k: int) {
      d < k && Ratchets(d) && !EndsOnRatchet(d) && forall j :: d < j < k ==> !AtEntry(j) && !Target1(j)
    }

    ghost predicate Scratches(k: int) {
      EndsOnRatchet(k) || (AtEntry(k) && !Target1(k) && exists d :: Breakeven(d, k))
    }

    /** Half the position is closed at the first target on bar k. */
    ghost predicate Banks(k: int) { Target1(k) && (Fresh(k) || exists d :: Breakeven(d, k)) }

    /** Banked on bar p, the rest met neither the entry nor the second target before bar k. */
    ghost predicate Runs(p: int, k: int) {
      p <= k && Banks(p) && forall j :: p <= j < k ==> !AtEntry(j) && !Target2(j)
    }

    ghost predicate Harvests(k: int) { Target2(k) && exists p :: Runs(p, k) }

    ghost predicate GivesBack(k: int) { AtEntry(k) && !Target2(k) && exists p :: Runs(p, k) }

    ghost predicate Ends(k: int) { StopsOut(k) || Scratches(k) || Harvests(k) || GivesBack(k) }

    ghost function Legs(): seq<Leg>
      requires Valid()
    {
      Window(candles, at, s)
    }

    ghost function R(): (r: Rules)
      ensures r.risk >= 0.0
    {
      RulesOf(s, threshold, protect)
    }
  }

  // ------------------------------------------------------- into the trade's frame

  lemma {:induction false} WindowIsHeld(c: Case)
    requires c.Valid()
    ensures |c.Legs()| >= 1
    ensures forall k :: c.Held(k) <==> 0 <= k - c.at < |c.Legs()|
  {
  }

  ghost predicate PaysAt(legs: seq<Leg>, r: Rules, j: int) {
    0 <= j < |legs| && if r.risk > 0.0 then legs[j].best >= r.threshold * r.risk else legs[j].best > 0.0
  }

  lemma {:induction false} QuotientAtLeast(x: real, risk: real, q: real)
    requires risk > 0.0
    ensures x >= q * risk <==> x / risk >= q
  {
    var y := x / risk;
    assert y * risk == x;
    assert (y - q) * risk == x - q * risk;
  }

  lemma {:induction false} PaysIsQuotient(legs: seq<Leg>, r: Rules, j: nat)
    requires j < |legs| && r.risk > 0.0
    ensures PaysAt(legs, r, j) <==> legs[j].best / r.risk >= r.threshold
  {
    QuotientAtLeast(legs[j].best, r.risk, r.threshold);
  }

  lemma {:induction false} PositiveRiskThreshold(legs: seq<Leg>, r: Rules, k: nat)
    requires k < |legs| && r.risk > 0.0
    ensures Reaches(Mfe(legs, k + 1, r.risk), r.threshold) <==> r.threshold <= 0.0 || exists j :: 0 <= j <= k && PaysAt(legs, r, j)
  {
    hide Mfe, PaysAt;
    MfeIsMaximum(legs, k + 1, r.risk);
    var m := Mfe(legs, k + 1, r.risk).r;
    if j :| 0 <= j <= k && PaysAt(legs, r, j) {
      PaysIsQuotient(legs, r, j);
      assert legs[j].best / r.risk <= m;
    }
    if m >= r.threshold > 0.0 {
      var j :| 0 <= j <= k && legs[j].best / r.risk == m;
      PaysIsQuotient(legs, r, j);
    }
  }

  lemma {:induction false} ZeroRiskThreshold(legs: seq<Leg>, r: Rules, k: nat)
    requires k < |legs| && r.risk == 0.0
    ensures Reaches(Mfe(legs, k + 1, r.risk), r.threshold) <==> r.threshold <= 0.0 || exists j :: 0 <= j <= k && PaysAt(legs, r, j)
  {
    hide Mfe;
    MfeIsMaximum(legs, k + 1, r.risk);
    assert forall j :: 0 <= j <= k ==> (PaysAt(legs, r, j) <==> legs[j].best > 0.0);
  }

  /** The threshold is a price: it is met once some bar's gain is threshold times risk. */
  lemma {:induction false} ThresholdIsPrice(legs: seq<Leg>, r: Rules, k: nat)
    requires k < |legs| && r.risk >= 0.0
    ensures ThresholdAt(legs, r, k) <==> r.threshold <= 0.0 || exists j :: 0 <= j <= k && PaysAt(legs, r, j)
  {
    hide PaysAt, Reaches, Mfe;
    if r.risk > 0.0 {
      PositiveRiskThreshold(legs, r, k);
    } else {
      ZeroRiskThreshold(legs, r, k);
    }
  }

  lemma {:induction false} Frame(c: Case, k: int)
    requires c.Valid() && c.Held(k)
    ensures var legs, r, i := c.Legs(), c.R(), k - c.at;
      && 0 <= i < |legs| && r.risk == c.Risk() && r.threshold == c.threshold && r.protect == c.protect
      && legs[i].best == c.Gain(k) && legs[i].worst == -c.Pain(k)
      && (c.Target1(k) <==> Tp1At(legs, r, i)) && (c.Target2(k) <==> Tp2At(legs, r, i))
      && (c.AtStop(k) <==> StopAt(legs, r, i)) && (c.AtEntry(k) <==> EntryAt(legs, i))
      && (c.Pays(k) <==> PaysAt(legs, r, i))
  {
    assert c.Legs()[k - c.at] == ToLeg(c.candles[k], c.s.entryPrice, IsLong(c.s));
  }

  lemma {:induction false} FrameThreshold(c: Case, k: int)
    requires c.Valid() && c.Held(k)
    ensures 0 <= k - c.at < |c.Legs()| && (c.Earned(k) <==> ThresholdAt(c.Legs(), c.R(), k - c.at))
  {
    hide PaysAt, ThresholdAt, Window, RulesOf, Case.Pays;
    Frame(c, k);
    ThresholdIsPrice(c.Legs(), c.R(), k - c.at);
    forall j | c.at <= j <= k ensures c.Pays(j) <==> PaysAt(c.Legs(), c.R(), j - c.at) {
      Frame(c, j);
    }
    forall i | 0 <= i <= k - c.at ensures c.Pays(c.at + i) <==> PaysAt(c.Legs(), c.R(), i) {
      Frame(c, c.at + i);
    }
  }

  // ----------------------------------------------------- the trade's first events

  /** The first bar on which something happens, as an offset from the entry. */
  ghost function First(c: Case): nat
    requires c.Valid()
  {
    FirstDecisive(c.Legs(), c.R(), 0)
  }

  lemma {:induction false} FreshIs(c: Case, k: int)
    requires c.Valid() && c.at <= k <= c.at + |c.Legs()|
    ensures c.Fresh(k) <==> k - c.at <= First(c)
  {
    hide Tp1At, StopAt, ThresholdAt, Window, RulesOf, Case.Target1, Case.AtStop, Case.Earned;
    WindowIsHeld(c);
    forall j | c.at <= j < k
      ensures !c.Target1(j) && !c.AtStop(j) && !c.Earned(j) <==> !DecisiveAt(c.Legs(), c.R(), j - c.at)
    {
      Frame(c, j);
      FrameThreshold(c, j);
    }
    if First(c) < k - c.at {
      var j := c.at + First(c);
      assert DecisiveAt(c.Legs(), c.R(), j - c.at);
      assert !(!c.Target1(j) && !c.AtStop(j) && !c.Earned(j));
    }
  }

  /** The trade is ratcheted to breakeven on its first eventful bar and survives that bar. */
  ghost predicate Ratcheted(c: Case)
    requires c.Valid()
  {
    var legs, r, d := c.Legs(), c.R(), First(c);
    d < |legs| && !Tp1At(legs, r, d) && ThresholdAt(legs, r, d)
    && !(if r.protect then StopAt(legs, r, d) else EntryAt(legs, d))
  }

  lemma {:induction false} NotHeld(c: Case, k: int)
    requires !c.Held(k)
    ensures !c.Target1(k) && !c.Target2(k) && !c.AtStop(k) && !c.AtEntry(k) && !c.Earned(k)
  {
  }

  lemma {:induction false} RatchetIs(c: Case, k: int)
    requires c.Valid()
    ensures c.Ratchets(k) && !c.EndsOnRatchet(k) <==> Ratcheted(c) && k == c.at + First(c)
    ensures c.EndsOnRatchet(k) ==> k == c.at + First(c)
  {
    hide Tp1At, StopAt, EntryAt, ThresholdAt, Window, RulesOf, Case.Target1, Case.AtStop, Case.AtEntry, Case.Fresh;
    WindowIsHeld(c);
    if c.Held(k) {
      Frame(c, k);
      FrameThreshold(c, k);
      FreshIs(c, k);
      assert c.Earned(k) ==> DecisiveAt(c.Legs(), c.R(), k - c.at);
    } else {
      NotHeld(c, k);
    }
  }

  lemma {:induction false} BreakevenIs(c: Case, d: int, k: int)
    requires c.Valid() && c.at <= k <= c.at + |c.Legs()|
    ensures c.Breakeven(d, k) <==>
      && Ratcheted(c) && d == c.at + First(c) && d < k
      && k - c.at <= FirstBreakevenEvent(c.Legs(), c.R(), First(c) + 1)
  {
    hide Tp1At, StopAt, EntryAt, ThresholdAt, Window, RulesOf, Case.Target1, Case.AtEntry, Case.Ratchets, Case.EndsOnRatchet;
    WindowIsHeld(c);
    RatchetIs(c, d);
    var legs, r := c.Legs(), c.R();
    if Ratcheted(c) && d == c.at + First(c) && d < k {
      forall j | d < j < k ensures !c.AtEntry(j) && !c.Target1(j) <==> !EntryAt(legs, j - c.at) && !Tp1At(legs, r, j - c.at) {
        Frame(c, j);
      }
      var e := FirstBreakevenEvent(legs, r, First(c) + 1);
      if e < k - c.at {
        assert !(!c.AtEntry(c.at + e) && !c.Target1(c.at + e));
      }
    }
  }

  /** The bar on which the first target is banked, as an offset; none if it is the window's length. */
  ghost function Bank(c: Case): nat
    requires c.Valid()
  {
    var legs, r, d := c.Legs(), c.R(), First(c);
    if d == |legs| || Tp1At(legs, r, d) then d
    else if !Ratcheted(c) then |legs|
    else
      var e := FirstBreakevenEvent(legs, r, d + 1);
      if e < |legs| && Tp1At(legs, r, e) then e else |legs|
  }

  lemma {:induction false} BankIs(c: Case, p: int)
    requires c.Valid()
    ensures c.Banks(p) <==> p == c.at + Bank(c) && Bank(c) < |c.Legs()|
  {
    hide Tp1At, StopAt, EntryAt, ThresholdAt, Window, RulesOf, Case.Target1, Case.Fresh, Case.Breakeven;
    WindowIsHeld(c);
    if c.Held(p) {
      Frame(c, p);
      FreshIs(c, p);
      BreakevenIs(c, c.at + First(c), p);
      forall d ensures c.Breakeven(d, p) ==> d == c.at + First(c) {
        BreakevenIs(c, d, p);
      }
      assert c.Target1(p) ==> DecisiveAt(c.Legs(), c.R(), p - c.at);
    } else {
      NotHeld(c, p);
    }
  }

  lemma {:induction false} RunsIs(c: Case, p: int, k: int)
    requires c.Valid() && c.at <= k <= c.at + |c.Legs()|
    ensures c.Runs(p, k) <==>
      && Bank(c) < |c.Legs()| && p == c.at + Bank(c) && p <= k
      && k - c.at <= FirstRunnerEvent(c.Legs(), c.R(), Bank(c))
  {
    hide Tp2At, EntryAt, Window, RulesOf, Case.Target2, Case.AtEntry, Case.Banks, Bank;
    WindowIsHeld(c);
    BankIs(c, p);
    var legs, r := c.Legs(), c.R();
    if c.Banks(p) && p <= k {
      forall j | p <= j < k ensures !c.AtEntry(j) && !c.Target2(j) <==> !EntryAt(legs, j - c.at) && !Tp2At(legs, r, j - c.at) {
        Frame(c, j);
      }
      var e := FirstRunnerEvent(legs, r, Bank(c));
      if e < k - c.at {
        assert !(!c.AtEntry(c.at + e) && !c.Target2(c.at + e));
      }
    }
  }

  // ------------------------------------------------------------- the report

  /** How the report describes an ending on bar k. */
  ghost predicate Reports(c: Case, res: PathSimulationResult, outcome: Outcome, realizedR: real, k: int) {
    && res.outcome == outcome && res.realizedR == realizedR
    && res.barsHeld == k - c.at + 1 && 0 <= k < |c.candles| && res.exitTime == c.candles[k].t
  }

  /** The last bar of the hold window. */
  ghost function LastHeld(c: Case): int { if c.at + 288 < |c.candles| then c.at + 288 else |c.candles| - 1 }

  lemma {:induction false} ReportIs(c: Case)
    requires c.Valid()
    ensures var e := TradeExit(c.Legs(), c.R());
      && e.bar < |c.Legs()| && c.at + |c.Legs()| - 1 == LastHeld(c)
      && Reports(c, PathResult(c.candles, c.s, c.threshold, c.protect), e.outcome, e.realizedR, c.at + e.bar)
  {
    hide Mfe, Mae, TradeExit, ToLeg, Display;
    IndexMapIsLastIndex(c.candles, |c.candles|, c.s.retestTime);
    ExitInRange(c.Legs(), c.R());
  }

  /** The trade leaves on bar k. */
  ghost predicate Leaves(c: Case, outcome: Outcome, realizedR: real, k: int)
    requires c.Valid()
  {
    var e := TradeExit(c.Legs(), c.R());
    e.outcome == outcome && e.realizedR == realizedR && c.at + e.bar == k && !e.expired
  }

  lemma {:induction false} EndingIs(c: Case, k: int)
    requires c.Valid()
    ensures c.StopsOut(k) ==> Leaves(c, StoppedOut, -1.0, k)
    ensures c.Scratches(k) ==> Leaves(c, BeScratch, 0.0, k)
  {
    hide Tp1At, Tp2At, StopAt, EntryAt, ThresholdAt, Window, RulesOf, Case.Target1, Case.AtStop, Case.AtEntry, Case.Earned, Case.Fresh, Case.Breakeven;
    WindowIsHeld(c);
    if c.Held(k) {
      Frame(c, k);
      FrameThreshold(c, k);
      FreshIs(c, k);
      RatchetIs(c, k);
      forall d ensures c.Breakeven(d, k) ==> d == c.at + First(c) {
        BreakevenIs(c, d, k);
      }
      BreakevenIs(c, c.at + First(c), k);
      assert c.AtStop(k) ==> DecisiveAt(c.Legs(), c.R(), k - c.at);
    } else {
      NotHeld(c, k);
    }
  }

  lemma {:induction false} BankedExit(c: Case)
    requires c.Valid()
    ensures Bank(c) < |c.Legs()| ==> TradeExit(c.Legs(), c.R()) == RunnerExit(c.Legs(), c.R(), Bank(c))
    ensures Bank(c) == |c.Legs()| ==> !TradeExit(c.Legs(), c.R()).outcome.Stage1Scratch? && !TradeExit(c.Legs(), c.R()).outcome.FullTp2Win?
  {
    hide Tp1At, Tp2At, StopAt, EntryAt, ThresholdAt, Window, RulesOf;
  }

  lemma {:induction false} RunnerEndingIs(c: Case, k: int)
    requires c.Valid()
    ensures c.Harvests(k) ==> Leaves(c, FullTp2Win, 1.2, k)
    ensures c.GivesBack(k) ==> Leaves(c, Stage1Scratch, 0.5, k)
  {
    hide Tp2At, EntryAt, Window, RulesOf, Case.Target2, Case.AtEntry, Case.Runs, Bank, TradeExit;
    WindowIsHeld(c);
    BankedExit(c);
    if c.Held(k) {
      Frame(c, k);
      forall p ensures c.Runs(p, k) ==>
        p == c.at + Bank(c) && Bank(c) < |c.Legs()| && Bank(c) <= k - c.at <= FirstRunnerEvent(c.Legs(), c.R(), Bank(c))
      {
        RunsIs(c, p, k);
      }
    } else {
      NotHeld(c, k);
    }
  }

  lemma {:induction false} BankedEnds(c: Case)
    requires c.Valid() && Bank(c) < |c.Legs()|
    ensures var e := FirstRunnerEvent(c.Legs(), c.R(), Bank(c));
      e < |c.Legs()| ==> c.Harvests(c.at + e) || c.GivesBack(c.at + e)
  {
    hide Tp2At, EntryAt, Window, RulesOf, Case.Target2, Case.AtEntry, Case.Runs, Bank;
    WindowIsHeld(c);
    var e := FirstRunnerEvent(c.Legs(), c.R(), Bank(c));
    if e < |c.Legs()| {
      Frame(c, c.at + e);
      RunsIs(c, c.at + Bank(c), c.at + e);
    }
  }

  /** A trade that is closed without its first target is closed on its first eventful
      bar or, ratcheted there, at the entry. */
  lemma {:induction false} UnbankedEnds(c: Case)
    requires c.Valid() && Bank(c) == |c.Legs()|
    ensures var legs, r, d := c.Legs(), c.R(), First(c);
      && (d < |legs| && !Ratcheted(c) ==> c.StopsOut(c.at + d) || c.Scratches(c.at + d))
      && (Ratcheted(c) ==>
            var e := FirstBreakevenEvent(legs, r, d + 1);
            e < |legs| ==> c.Scratches(c.at + e))
  {
    hide Tp1At, StopAt, EntryAt, ThresholdAt, Window, RulesOf, Case.Target1, Case.AtStop, Case.AtEntry, Case.Earned, Case.Fresh, Case.Breakeven;
    WindowIsHeld(c);
    var legs, r, d := c.Legs(), c.R(), First(c);
    if d < |legs| {
      Frame(c, c.at + d);
      FrameThreshold(c, c.at + d);
      FreshIs(c, c.at + d);
      if Ratcheted(c) {
        var e := FirstBreakevenEvent(legs, r, d + 1);
        if e < |legs| {
          Frame(c, c.at + e);
          BreakevenIs(c, c.at + d, c.at + e);
        }
      }
    }
  }

  /** A trade that is closed is closed by one of the four events. */
  lemma {:induction false} ClosedEnds(c: Case)
    requires c.Valid()
    ensures var e := TradeExit(c.Legs(), c.R());
      && (!e.expired ==> c.Ends(c.at + e.bar))
      && (e.expired ==> e.bar == |c.Legs()| - 1 && e.outcome == (if Bank(c) < |c.Legs()| then Stage1Scratch else BeScratch)
                        && e.realizedR == if Bank(c) < |c.Legs()| then 0.5 else 0.0)
  {
    hide Tp1At, Tp2At, StopAt, EntryAt, ThresholdAt, Window, RulesOf, Case.StopsOut, Case.Scratches, Case.Harvests, Case.GivesBack;
    ExitInRange(c.Legs(), c.R());
    BankedExit(c);
    if Bank(c) < |c.Legs()| {
      BankedEnds(c);
    } else {
      UnbankedEnds(c);
    }
  }

  /** For every candle series, setup, threshold and policy: the event that ends the trade,
      read off candle prices, decides the outcome, the R booked, the exit bar and time.
      If none of them happens, the window runs out on its last bar. */
  lemma {:induction false} OutcomeByPrices(c: Case)
    requires c.Valid()
    ensures var res := PathResult(c.candles, c.s, c.threshold, c.protect);
      && (forall k :: c.StopsOut(k) ==> Reports(c, res, StoppedOut, -1.0, k))
      && (forall k :: c.Scratches(k) ==> Reports(c, res, BeScratch, 0.0, k))
      && (forall k :: c.Harvests(k) ==> Reports(c, res, FullTp2Win, 1.2, k))
      && (forall k :: c.GivesBack(k) ==> Reports(c, res, Stage1Scratch, 0.5, k))
      && ((forall k :: !c.Ends(k)) ==>
            if exists p :: c.Banks(p) then Reports(c, res, Stage1Scratch, 0.5, LastHeld(c))
            else Reports(c, res, BeScratch, 0.0, LastHeld(c)))
      && (res.outcome == StoppedOut ==> c.StopsOut(c.at + res.barsHeld - 1))
      && (res.outcome == FullTp2Win ==> c.Harvests(c.at + res.barsHeld - 1))
  {
    hide TradeExit, PathResult, Window, RulesOf, Bank, Case.StopsOut, Case.Scratches, Case.Harvests, Case.GivesBack, Case.Banks;
    ReportIs(c);
    forall k
      ensures && (c.StopsOut(k) ==> Leaves(c, StoppedOut, -1.0, k)) && (c.Scratches(k) ==> Leaves(c, BeScratch, 0.0, k))
              && (c.Harvests(k) ==> Leaves(c, FullTp2Win, 1.2, k)) && (c.GivesBack(k) ==> Leaves(c, Stage1Scratch, 0.5, k))
    {
      EndingIs(c, k);
      RunnerEndingIs(c, k);
    }
    ClosedEnds(c);
    BankIs(c, c.at + Bank(c));
    forall p ensures c.Banks(p) ==> Bank(c) < |c.Legs()| {
      BankIs(c, p);
    }
  }

  // --------------------------------------------------------------- excursions

  /** m is the largest of the gains in multiples of the risk, floored at zero. */
  ghost predicate IsTop(m: real, risk: real, gains: seq<real>) {
    && m >= 0.0 && (forall j :: 0 <= j < |gains| ==> gains[j] <= m * risk)
    && (m == 0.0 || exists j :: 0 <= j < |gains| && gains[j] == m * risk)
  }

  /** `peak` displays that multiple; with no risk it is infinite once there is any gain. */
  ghost predicate IsPeakOf(peak: Excursion, risk: real, gains: seq<real>) {
    if risk > 0.0 then exists m: real :: IsTop(m, risk, gains) && peak == Finite(Fixed2(m))
    else if exists j :: 0 <= j < |gains| && gains[j] > 0.0 then peak == Infinite
    else peak == Finite(0.0)
  }

  lemma {:induction false} MaeIsMfe(legs: seq<Leg>, flipped: seq<Leg>, n: nat, risk: real)
    requires n <= |legs| == |flipped| && risk >= 0.0
    requires forall j :: 0 <= j < |legs| ==> flipped[j].best == -legs[j].worst
    ensures Mae(legs, n, risk) == Mfe(flipped, n, risk)
  {
    if n > 0 {
      MaeIsMfe(legs, flipped, n - 1, risk);
    }
  }

  lemma {:induction false} MfeIsTop(legs: seq<Leg>, n: nat, risk: real, gains: seq<real>)
    requires n == |gains| <= |legs| && risk > 0.0
    requires forall j :: 0 <= j < n ==> gains[j] == legs[j].best
    ensures Mfe(legs, n, risk).Finite? && IsTop(Mfe(legs, n, risk).r, risk, gains)
  {
    hide Mfe;
    MfeIsMaximum(legs, n, risk);
    TopOfQuotients(legs, n, risk, gains, Mfe(legs, n, risk).r);
  }

  lemma {:induction false} TopOfQuotients(legs: seq<Leg>, n: nat, risk: real, gains: seq<real>, m: real)
    requires n == |gains| <= |legs| && risk > 0.0 && m >= 0.0
    requires forall j :: 0 <= j < n ==> gains[j] == legs[j].best
    requires forall j :: 0 <= j < n ==> legs[j].best / risk <= m
    requires m == 0.0 || exists j :: 0 <= j < n && legs[j].best / risk == m
    ensures IsTop(m, risk, gains)
  {
    forall j | 0 <= j < n ensures gains[j] <= m * risk {
      QuotientAtMost(legs[j].best, risk, m);
    }
    if m != 0.0 {
      var j :| 0 <= j < n && legs[j].best / risk == m;
      ProductBack(legs[j].best, risk, m);
      assert gains[j] == m * risk;
    }
  }

  lemma {:induction false} DisplayedMfe(legs: seq<Leg>, n: nat, risk: real, gains: seq<real>)
    requires n == |gains| <= |legs| && risk >= 0.0
    requires forall j :: 0 <= j < n ==> gains[j] == legs[j].best
    ensures IsPeakOf(Display(Mfe(legs, n, risk)), risk, gains)
  {
    hide Fixed2, Mfe, IsTop;
    if risk > 0.0 {
      MfeIsTop(legs, n, risk, gains);
    } else {
      ZeroIsZero();
      MfeIsMaximum(legs, n, risk);
      assert forall j :: 0 <= j < n ==> (gains[j] > 0.0 <==> legs[j].best > 0.0);
    }
  }

  lemma {:induction false} ZeroIsZero()
    ensures Fixed2(0.0) == 0.0
  {
  }

  lemma {:induction false} ProductBack(x: real, risk: real, q: real)
    requires risk > 0.0 && x / risk == q
    ensures x == q * risk
  {
  }

  lemma {:induction false} QuotientAtMost(x: real, risk: real, q: real)
    requires risk > 0.0 && x / risk <= q
    ensures x <= q * risk
  {
    var y := x / risk;
    assert y * risk == x;
    assert (q - y) * risk == q * risk - x;
  }

  ghost function Gains(c: Case, n: nat): (gains: seq<real>)
    requires c.at + n <= |c.candles|
    ensures |gains| == n && forall j :: 0 <= j < n ==> gains[j] == c.Gain(c.at + j)
  {
    seq(n, j requires 0 <= j < n => c.Gain(c.at + j))
  }

  ghost function Pains(c: Case, n: nat): (pains: seq<real>)
    requires c.at + n <= |c.candles|
    ensures |pains| == n && forall j :: 0 <= j < n ==> pains[j] == c.Pain(c.at + j)
  {
    seq(n, j requires 0 <= j < n => c.Pain(c.at + j))
  }

  /** MFE and MAE are the extremes of the bars held, in either direction, in multiples of
      the risk; the report names the setup and its entry. */
  lemma {:induction false} ExcursionsByPrices(c: Case)
    requires c.Valid()
    ensures var res := PathResult(c.candles, c.s, c.threshold, c.protect);
      && c.at + res.barsHeld <= |c.candles|
      && IsPeakOf(res.mfeR, c.Risk(), Gains(c, res.barsHeld)) && IsPeakOf(res.maeR, c.Risk(), Pains(c, res.barsHeld))
      && res.id == c.s.id && res.kind == c.s.kind && res.entryTime == c.s.retestTime
  {
    hide Mfe, Mae, TradeExit, Display, IsPeakOf;
    IndexMapIsLastIndex(c.candles, |c.candles|, c.s.retestTime);
    var legs, r := c.Legs(), c.R();
    ExitInRange(legs, r);
    var n := TradeExit(legs, r).bar + 1;
    var flipped := seq(|legs|, j requires 0 <= j < |legs| => Leg(-legs[j].worst, -legs[j].best));
    WindowIsHeld(c);
    forall j | 0 <= j < n ensures legs[j].best == c.Gain(c.at + j) && legs[j].worst == -c.Pain(c.at + j) && r.risk == c.Risk() {
      Frame(c, c.at + j);
    }
    Frame(c, c.at);
    MaeIsMfe(legs, flipped, n, r.risk);
    DisplayedMfe(legs, n, r.risk, Gains(c, n));
    DisplayedMfe(flipped, n, r.risk, Pains(c, n));
  }

  /** A setup without a candle at its retest time reports its recorded fields, missing or
      zero ones as zero, and the entry for a missing or zero exit. */
  lemma {:induction false} UnmatchedReport(candles: seq<Candle>, s: Setup, threshold: real, protect: bool)
    requires forall j :: 0 <= j < |candles| ==> candles[j].t != s.retestTime
    ensures var res := PathResult(candles, s, threshold, protect);
      && res.id == s.id && res.kind == s.kind && res.outcome == s.simulatedOutcome
      && res.entryTime == s.retestTime && res.barsHeld == 0
      && (match s.realizedRr case Some(x) => res.realizedR == x case None => res.realizedR == 0.0)
      && (match s.mfeR case Some(x) => res.mfeR == Finite(x) case None => res.mfeR == Finite(0.0))
      && (match s.maeR case Some(x) => res.maeR == Finite(x) case None => res.maeR == Finite(0.0))
      && (match s.exitTime case Some(t) => res.exitTime == (if t == 0 then s.retestTime else t) case None => res.exitTime == s.retestTime)
  {
    IndexMapIsLastIndex(candles, |candles|, s.retestTime);
  }

  // ------------------------------------------------------------- the second copy

  /** The second copy hands back the setup with these fields changed and no others. A
      trade whose window runs out is always closed at zero, banked or not. */
  lemma {:induction false} SecondCopyByPrices(c: Case)
    requires c.Valid() && c.protect
    ensures var res, s := ComboPath.ComboResult(c.candles, c.s, c.threshold), c.s;
      && (forall k :: c.StopsOut(k) ==>
            0 <= k < |c.candles| && res == s.(simulatedOutcome := StoppedOut, realizedRr := Some(-1.0), exitTime := Some(c.candles[k].t)))
      && (forall k :: c.Scratches(k) ==>
            0 <= k < |c.candles| && res == s.(simulatedOutcome := BeScratchWin, realizedRr := Some(0.0), exitTime := Some(c.candles[k].t), isBeScratch := true))
      && (forall k :: c.Harvests(k) ==>
            0 <= k < |c.candles| && res == s.(simulatedOutcome := FullTp2Win, realizedRr := Some(1.2), exitTime := Some(c.candles[k].t),
                                              isStage1Filled := true, isStage2Filled := true))
      && (forall k :: c.GivesBack(k) ==>
            0 <= k < |c.candles| && res == s.(simulatedOutcome := Stage1Scratch, realizedRr := Some(0.5), exitTime := Some(c.candles[k].t), isStage1Filled := true))
      && ((forall k :: !c.Ends(k)) ==>
            res == s.(simulatedOutcome := BeScratchWin, realizedRr := Some(0.0), exitTime := Some(c.candles[LastHeld(c)].t)))
  {
    hide TradeExit, Window, RulesOf, Bank, Case.StopsOut, Case.Scratches, Case.Harvests, Case.GivesBack, Case.Banks;
    IndexMapIsLastIndex(c.candles, |c.candles|, c.s.retestTime);
    ReportIs(c);
    ExitInRange(c.Legs(), c.R());
    forall k
      ensures && (c.StopsOut(k) ==> Leaves(c, StoppedOut, -1.0, k)) && (c.Scratches(k) ==> Leaves(c, BeScratch, 0.0, k))
              && (c.Harvests(k) ==> Leaves(c, FullTp2Win, 1.2, k)) && (c.GivesBack(k) ==> Leaves(c, Stage1Scratch, 0.5, k))
    {
      EndingIs(c, k);
      RunnerEndingIs(c, k);
    }
    ClosedEnds(c);
  }

  /** The second copy hands back a setup without a candle as it is. */
  lemma {:induction false} SecondCopyUnmatched(candles: seq<Candle>, s: Setup, threshold: real)
    requires forall j :: 0 <= j < |candles| ==> candles[j].t != s.retestTime
    ensures ComboPath.ComboResult(candles, s, threshold) == s
  {
    IndexMapIsLastIndex(candles, |candles|, s.retestTime);
  }
}
