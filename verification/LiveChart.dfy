/** The live updater of src/components/Chart.tsx: the candle series that the socket
    extends, the binary search over it, and the price alerts. Each effect is one step. */
module LiveChart {
  import opened Market

  /** A streamed bar; its time is in seconds. */
  datatype LiveCandle = LiveCandle(
    time: int,
    open: real,
    high: real,
    low: real,
    close: real,
    volume: real,
    takerBuyVol: Option<real>,
    takerSellVol: Option<real>,
    isClosed: bool
  )

  datatype TriggerCondition = Touch | CloseAbove | CloseBelow | WickPurgeReject | Unset

  datatype AlertStatus = Active | Triggered

  datatype Alert = Alert(id: string, price: real, status: AlertStatus, triggerCondition: TriggerCondition)

  // -------------------------------------------------------------- live series

  function Sec(c: Candle): int { c.t / 1000 }

  ghost predicate AscendingSec(candles: seq<Candle>) {
    forall i, j :: 0 <= i < j < |candles| ==> Sec(candles[i]) < Sec(candles[j])
  }

  function Mapped(live: LiveCandle): Candle {
    Candle(live.time * 1000, live.open, live.high, live.low, live.close, live.volume,
           if live.takerBuyVol.Some? then live.takerBuyVol.value else live.volume / 2.0,
           if live.takerSellVol.Some? then live.takerSellVol.value else live.volume / 2.0,
           live.isClosed)
  }

  /** A close more than 15% away from a positive last close. */
  predicate IsOutlier(last: Candle, live: LiveCandle) { last.c > 0.0 && Abs(live.close - last.c) / last.c > 0.15 }

  /** The bar replaces the last one when it closes it, and is appended when it is newer. */
  function Merge(candles: seq<Candle>, live: LiveCandle): seq<Candle> {
    if candles == [] then candles
    else
      var last := candles[|candles| - 1];
      if IsOutlier(last, live) || live.time < Sec(last) then candles
      else if live.time > Sec(last) then candles + [Mapped(live)]
      else if live.isClosed then candles[..|candles| - 1] + [Mapped(live)]
      else candles
  }

  // -------------------------------------------------------------------- alerts

  predicate TouchHit(prev: real, current: real, level: real) {
    (prev < level && current >= level) || (prev > level && current <= level) || current == level
  }

  predicate CloseHit(a: Alert, live: LiveCandle) {
    match a.triggerCondition
    case CloseAbove => live.close > a.price
    case CloseBelow => live.close < a.price
    case WickPurgeReject =>
      if a.price > live.open && live.high >= a.price && live.close < a.price then true
      else a.price < live.open && live.low <= a.price && live.close > a.price
    case _ => false
  }

  /** What the alert effect reads and writes; `fired` lists the alerts executed so far. */
  datatype AlertState = AlertState(alerts: seq<Alert>, prevPrice: Option<real>, lastClosed: Option<int>, fired: seq<string>)

  predicate FiresOnTouch(a: Alert, prev: Option<real>, current: real) {
    a.status.Active? && a.triggerCondition.Touch? && prev.Some? && prev.value != current && TouchHit(prev.value, current, a.price)
  }

  predicate NewlyClosed(live: Option<LiveCandle>, lastClosed: Option<int>) {
    live.Some? && live.value.isClosed && lastClosed != Some(live.value.time)
  }

  predicate FiresOnClose(a: Alert, live: Option<LiveCandle>, lastClosed: Option<int>) {
    a.status.Active? && !a.triggerCondition.Touch? && NewlyClosed(live, lastClosed) && CloseHit(a, live.value)
  }

  function TouchIds(alerts: seq<Alert>, prev: Option<real>, current: real): seq<string> {
    if alerts == [] then []
    else
      var last := alerts[|alerts| - 1];
      TouchIds(alerts[..|alerts| - 1], prev, current) + if FiresOnTouch(last, prev, current) then [last.id] else []
  }

  function CloseIds(alerts: seq<Alert>, live: Option<LiveCandle>, lastClosed: Option<int>): seq<string> {
    if alerts == [] then []
    else
      var last := alerts[|alerts| - 1];
      CloseIds(alerts[..|alerts| - 1], live, lastClosed) + if FiresOnClose(last, live, lastClosed) then [last.id] else []
  }

  /** `executeAlert` on each id: every alert with that id becomes triggered. */
  function FlipAll(alerts: seq<Alert>, ids: seq<string>): (r: seq<Alert>)
    ensures |r| == |alerts|
    ensures forall k :: 0 <= k < |alerts| ==> r[k] == if alerts[k].id in ids then alerts[k].(status := Triggered) else alerts[k]
  {
    seq(|alerts|, k requires 0 <= k < |alerts| =>
      if alerts[k].id in ids then alerts[k].(status := Triggered) else alerts[k])
  }

  predicate AnyActive(alerts: seq<Alert>) { exists k :: 0 <= k < |alerts| && alerts[k].status.Active? }

  /** One run of the alert effect at price `current`. */
  function Tick(st: AlertState, current: Option<real>, live: Option<LiveCandle>): AlertState {
    if current.None? then st
    else if !AnyActive(st.alerts) then st.(prevPrice := current)
    else
      var ids := TouchIds(st.alerts, st.prevPrice, current.value) + CloseIds(st.alerts, live, st.lastClosed);
      AlertState(FlipAll(st.alerts, ids), current,
                 if NewlyClosed(live, st.lastClosed) then Some(live.value.time) else st.lastClosed,
                 st.fired + ids)
  }

  // --------------------------------------------------------------- the updater

  class LiveSeriesCanvasUpdater {
    const isBacktest: bool
    var localCandles: seq<Candle>
    var alerts: seq<Alert>
    var prevPrice: Option<real>
    var lastProcessedClosedTime: Option<int>
    var fired: seq<string>

    /** The series is ordered, which is what its binary search relies on. */
    ghost predicate Valid()
      reads this`localCandles
    {
      AscendingSec(localCandles)
    }

    ghost function AlertView(): AlertState
      reads this
    {
      AlertState(alerts, prevPrice, lastProcessedClosedTime, fired)
    }

    constructor (candles: seq<Candle>, alerts: seq<Alert>, isBacktest: bool)
      requires AscendingSec(candles)
      ensures Valid() && localCandles == candles && this.isBacktest == isBacktest
      ensures AlertView() == AlertState(alerts, None, None, [])
    {
      this.isBacktest, localCandles, this.alerts := isBacktest, candles, alerts;
      prevPrice, lastProcessedClosedTime, fired := None, None, [];
    }

    /** The series effect. */
    method UpdateSeries(liveCandle: LiveCandle)
      requires Valid()
      modifies this`localCandles
      ensures localCandles == Merge(old(localCandles), liveCandle)
      ensures Valid()
    {
      MergeKeepsOrder(localCandles, liveCandle);
      if |localCandles| == 0 { return; }
      var lastBar := localCandles[|localCandles| - 1];
      var lastBarTimeSec := lastBar.t / 1000;
      var lastBarPrice := lastBar.c;
      if lastBarPrice > 0.0 && Abs(liveCandle.close - lastBarPrice) / lastBarPrice > 0.15 { return; }
      if liveCandle.time >= lastBarTimeSec {
        var isSameTime := liveCandle.time == lastBarTimeSec;
        if isSameTime && !liveCandle.isClosed { return; }
        var mappedCandle := Mapped(liveCandle);
        if liveCandle.time == lastBarTimeSec {
          localCandles := localCandles[|localCandles| - 1 := mappedCandle];
        } else if liveCandle.time > lastBarTimeSec {
          localCandles := localCandles + [mappedCandle];
        }
      }
    }

    /** `executeAlert`: the status flip and one notification. */
    method ExecuteAlert(alert: Alert)
      modifies this`alerts, this`fired
      ensures alerts == FlipAll(old(alerts), [alert.id]) && fired == old(fired) + [alert.id]
    {
      alerts := seq(|alerts|, k requires 0 <= k < |alerts| reads this`alerts =>
        if alerts[k].id == alert.id then alerts[k].(status := Triggered) else alerts[k]);
      fired := fired + [alert.id];
    }

    /** The alert effect. */
    method EvaluateAlerts(livePrice: Option<real>, liveCandle: Option<LiveCandle>)
      modifies this`alerts, this`fired, this`prevPrice, this`lastProcessedClosedTime
      ensures AlertView() ==
        if isBacktest then old(AlertView())
        else Tick(old(AlertView()), old(PriceForAlerts(livePrice)), liveCandle)
    {
      hide TouchIds, CloseIds, FlipAll;
      if isBacktest { return; }
      var current := PriceForAlerts(livePrice);
      if current.None? { return; }
      ghost var st := AlertView();
      var snapshot := alerts;
      if !AnyActive(snapshot) {
        prevPrice := current;
        return;
      }
      ghost var touched := TouchIds(snapshot, prevPrice, current.value);
      if prevPrice.Some? && prevPrice.value != current.value {
        FireTouches(snapshot, prevPrice.value, current.value);
      } else {
        NoTouches(snapshot, prevPrice, current.value);
        FlipNone(alerts);
      }
      if liveCandle.Some? && liveCandle.value.isClosed && Some(liveCandle.value.time) != lastProcessedClosedTime {
        ghost var closed := CloseIds(snapshot, liveCandle, lastProcessedClosedTime);
        FireCloses(snapshot, liveCandle.value);
        FlipTwice(snapshot, touched, closed);
        lastProcessedClosedTime := Some(liveCandle.value.time);
      } else {
        NoCloses(snapshot, liveCandle, lastProcessedClosedTime);
        assert touched + [] == touched && st.fired + touched + [] == st.fired + touched;
      }
      prevPrice := current;
    }

    /** The streamed price, or else the last close. */
    function PriceForAlerts(livePrice: Option<real>): (price: Option<real>)
      reads this`localCandles
      ensures price.None? <==> livePrice.None? && localCandles == []
      ensures livePrice.Some? ==> price == livePrice
      ensures livePrice.None? && price.Some? ==> price.value == localCandles[|localCandles| - 1].c
    {
      if livePrice.Some? then livePrice
      else if |localCandles| > 0 then Some(localCandles[|localCandles| - 1].c)
      else None
    }

    /** Check A over the alerts as they stood when the effect began. */
    method FireTouches(snapshot: seq<Alert>, prev: real, current: real)
      requires prev != current
      modifies this`alerts, this`fired
      ensures var ids := TouchIds(snapshot, Some(prev), current);
        alerts == FlipAll(old(alerts), ids) && fired == old(fired) + ids
    {
      ghost var before, log := alerts, fired;
      FlipNone(alerts);
      for n := 0 to |snapshot|
        invariant var ids := TouchIds(snapshot[..n], Some(prev), current);
          alerts == FlipAll(before, ids) && fired == log + ids
      {
        var alert := snapshot[n];
        ghost var ids := TouchIds(snapshot[..n], Some(prev), current);
        assert snapshot[..n + 1][..n] == snapshot[..n];
        if alert.status.Active? && alert.triggerCondition.Touch? {
          var crossedUp := prev < alert.price && current >= alert.price;
          var crossedDown := prev > alert.price && current <= alert.price;
          var exactHit := current == alert.price;
          if crossedUp || crossedDown || exactHit {
            ExecuteAlert(alert);
            FlipTwice(before, ids, [alert.id]);
          }
        }
      }
      assert snapshot[..|snapshot|] == snapshot;
    }

    /** Check B over the same alerts, for a bar that has just closed. */
    method FireCloses(snapshot: seq<Alert>, liveCandle: LiveCandle)
      requires NewlyClosed(Some(liveCandle), lastProcessedClosedTime)
      modifies this`alerts, this`fired
      ensures var ids := CloseIds(snapshot, Some(liveCandle), lastProcessedClosedTime);
        alerts == FlipAll(old(alerts), ids) && fired == old(fired) + ids
    {
      ghost var before, log, lastClosed := alerts, fired, lastProcessedClosedTime;
      FlipNone(alerts);
      for n := 0 to |snapshot|
        invariant var ids := CloseIds(snapshot[..n], Some(liveCandle), lastClosed);
          alerts == FlipAll(before, ids) && fired == log + ids
      {
        var alert := snapshot[n];
        ghost var ids := CloseIds(snapshot[..n], Some(liveCandle), lastClosed);
        assert snapshot[..n + 1][..n] == snapshot[..n];
        if alert.status.Active? && !alert.triggerCondition.Touch? {
          var isSatisfied := false;
          if alert.triggerCondition.CloseAbove? && liveCandle.close > alert.price {
            isSatisfied := true;
          } else if alert.triggerCondition.CloseBelow? && liveCandle.close < alert.price {
            isSatisfied := true;
          } else if alert.triggerCondition.WickPurgeReject? {
            if alert.price > liveCandle.open && liveCandle.high >= alert.price && liveCandle.close < alert.price {
              isSatisfied := true;
            } else if alert.price < liveCandle.open && liveCandle.low <= alert.price && liveCandle.close > alert.price {
              isSatisfied := true;
            }
          }
          if isSatisfied {
            ExecuteAlert(alert);
            FlipTwice(before, ids, [alert.id]);
          }
        }
      }
      assert snapshot[..|snapshot|] == snapshot;
    }

    /** Crosshair look-up over the live series. */
    method FindLive(targetSec: int) returns (found: Option<Candle>)
      requires Valid() && |localCandles| <= MAX_SEARCHABLE
      ensures found.Some? <==> exists c :: c in localCandles && Sec(c) == targetSec
      ensures found.Some? ==> found.value in localCandles && Sec(found.value) == targetSec
    {
      found := FindCandleByTime(Some(localCandles), targetSec);
    }
  }

  lemma {:induction false} FlipNone(alerts: seq<Alert>)
    ensures FlipAll(alerts, []) == alerts
  {
  }

  lemma {:induction false} FlipTwice(alerts: seq<Alert>, a: seq<string>, b: seq<string>)
    ensures FlipAll(FlipAll(alerts, a), b) == FlipAll(alerts, a + b)
  {
  }

  lemma {:induction false} NoTouches(alerts: seq<Alert>, prev: Option<real>, current: real)
    requires prev.None? || prev.value == current
    ensures TouchIds(alerts, prev, current) == []
  {
    if alerts != [] {
      NoTouches(alerts[..|alerts| - 1], prev, current);
    }
  }

  lemma {:induction false} NoCloses(alerts: seq<Alert>, live: Option<LiveCandle>, lastClosed: Option<int>)
    requires !NewlyClosed(live, lastClosed)
    ensures CloseIds(alerts, live, lastClosed) == []
  {
    if alerts != [] {
      NoCloses(alerts[..|alerts| - 1], live, lastClosed);
    }
  }

  lemma {:induction false} MergeKeepsOrder(candles: seq<Candle>, live: LiveCandle)
    requires AscendingSec(candles)
    ensures AscendingSec(Merge(candles, live))
  {
    assert Sec(Mapped(live)) == live.time;
  }

  // -------------------------------------------------------------- binary search

  /** Above this length the sum of two indices no longer fits the shift's 32 bits. */
  const MAX_SEARCHABLE := 0x4000_0000

  method FindCandleByTime(candles: Option<seq<Candle>>, targetSec: int) returns (found: Option<Candle>)
    requires candles.Some? ==> |candles.value| <= MAX_SEARCHABLE
    ensures found.Some? ==> candles.Some? && found.value in candles.value && Sec(found.value) == targetSec
    ensures candles.Some? && AscendingSec(candles.value) && found.None? ==>
      forall c :: c in candles.value ==> Sec(c) != targetSec
  {
    if candles.None? || |candles.value| == 0 { return None; }
    var cs := candles.value;
    var low, high := 0, |cs| - 1;
    while low <= high
      invariant 0 <= low && high < |cs|
      invariant AscendingSec(cs) ==> forall k :: 0 <= k < |cs| && (k < low || high < k) ==> Sec(cs[k]) != targetSec
    {
      var mid := (low + high) / 2;
      var midSec := cs[mid].t / 1000;
      if midSec == targetSec { return Some(cs[mid]); }
      if midSec < targetSec {
        low := mid + 1;
      } else {
        high := mid - 1;
      }
    }
    return None;
  }
}
