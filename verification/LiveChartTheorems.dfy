/** What any stream of live bars keeps, and what any stream of ticks does to an alert. */
module LiveChartTheorems {
  import opened Market
  import opened Ordering
  import opened LiveChart

  // -------------------------------------------------------------- live series

  /** The series after a stream of live bars. */
  ghost function MergeAll(candles: seq<Candle>, stream: seq<LiveCandle>): seq<Candle> {
    if stream == [] then candles
    else Merge(MergeAll(candles, stream[..|stream| - 1]), stream[|stream| - 1])
  }

  function Last(candles: seq<Candle>): Candle
    requires candles != []
  {
    candles[|candles| - 1]
  }

  /** One bar leaves the series alone, replaces its last candle by one of the same second,
      or appends a later one; and a changed close lies within 15% of a positive last close. */
  lemma {:induction false} MergeStep(candles: seq<Candle>, live: LiveCandle)
    requires candles != []
    ensures var r := Merge(candles, live);
      && r != []
      && (|| r == candles
          || (r == candles[..|candles| - 1] + [Mapped(live)] && Sec(Last(r)) == Sec(Last(candles)))
          || (r == candles + [Mapped(live)] && Sec(Last(r)) > Sec(Last(candles))))
      && (r != candles ==> Last(r).c == live.close && Last(r).isClosed == live.isClosed)
      && (Last(candles).c > 0.0 ==> 0.85 * Last(candles).c <= Last(r).c <= 1.15 * Last(candles).c)
  {
    var last := Last(candles);
    assert Sec(Mapped(live)) == live.time;
    if last.c > 0.0 && !IsOutlier(last, live) {
      WithinGate(last.c, live.close);
    }
  }

  /** The candle a streamed bar becomes: its volume is split evenly where a side is missing. */
  ghost predicate IsCandleOf(c: Candle, live: LiveCandle) {
    && c.t == 1000 * live.time && c.o == live.open && c.h == live.high && c.l == live.low && c.c == live.close && c.v == live.volume
    && (match live.takerBuyVol case Some(x) => c.takerBuyVol == x case None => c.takerBuyVol + c.takerBuyVol == live.volume)
    && (match live.takerSellVol case Some(x) => c.takerSellVol == x case None => c.takerSellVol + c.takerSellVol == live.volume)
    && c.isClosed == live.isClosed
  }

  /** The bar is dropped: its close is more than 15% off a positive last close, it is older
      than the last candle, or it is an open bar of the last candle's second. */
  ghost predicate Drops(last: Candle, live: LiveCandle) {
    || (last.c > 0.0 && (live.close > 1.15 * last.c || live.close < 0.85 * last.c))
    || live.time * 1000 + 1000 <= last.t
    || (live.time * 1000 <= last.t < live.time * 1000 + 1000 && !live.isClosed)
  }

  /** Exactly what one bar does to the series, on the fields of the bar and the last candle. */
  lemma {:induction false} MergeByFields(candles: seq<Candle>, live: LiveCandle) returns (c: Candle)
    ensures IsCandleOf(c, live)
    ensures Merge(candles, live) ==
      if candles == [] || Drops(candles[|candles| - 1], live) then candles
      else if live.time * 1000 <= candles[|candles| - 1].t then candles[..|candles| - 1] + [c]
      else candles + [c]
  {
    c := Mapped(live);
    if candles != [] {
      OutlierIff(candles[|candles| - 1], live);
    }
  }

  lemma {:induction false} ShareAbove(x: real, whole: real, share: real)
    requires whole > 0.0
    ensures x / whole > share <==> x > share * whole
  {
    var q := x / whole;
    assert q * whole == x;
    assert (q - share) * whole == x - share * whole;
  }

  lemma {:induction false} OutlierIff(last: Candle, live: LiveCandle)
    ensures IsOutlier(last, live) <==> last.c > 0.0 && (live.close > 1.15 * last.c || live.close < 0.85 * last.c)
  {
    if last.c > 0.0 {
      ShareAbove(Abs(live.close - last.c), last.c, 0.15);
    }
  }

  lemma {:induction false} WithinGate(last: real, close: real)
    requires last > 0.0 && Abs(close - last) / last <= 0.15
    ensures 0.85 * last <= close <= 1.15 * last
  {
    var q := Abs(close - last) / last;
    assert q * last == Abs(close - last);
    assert (0.15 - q) * last >= 0.0;
  }

  function Pow(base: real, n: nat): real { if n == 0 then 1.0 else Pow(base, n - 1) * base }

  /** After any stream: still strictly ascending, never shorter, and every candle but the
      last of the start is untouched. */
  lemma {:induction false} StreamKeepsSeries(candles: seq<Candle>, stream: seq<LiveCandle>)
    requires AscendingSec(candles)
    ensures var r := MergeAll(candles, stream);
      && AscendingSec(r) && |candles| <= |r|
      && forall k :: 0 <= k < |candles| - 1 ==> r[k] == candles[k]
  {
    if stream != [] {
      var front := stream[..|stream| - 1];
      StreamKeepsSeries(candles, front);
      var before := MergeAll(candles, front);
      MergeKeepsOrder(before, stream[|stream| - 1]);
      if before != [] {
        MergeStep(before, stream[|stream| - 1]);
      }
    }
  }

  /** A positive last close stays positive whatever arrives, so the outlier gate never
      switches itself off, and n bars move it by at most a factor of 0.85^n or 1.15^n. */
  lemma {:induction false} StreamKeepsGate(candles: seq<Candle>, stream: seq<LiveCandle>)
    requires candles != [] && Last(candles).c > 0.0
    ensures var r := MergeAll(candles, stream);
      && r != [] && Last(r).c > 0.0
      && Last(candles).c * Pow(0.85, |stream|) <= Last(r).c <= Last(candles).c * Pow(1.15, |stream|)
  {
    hide Merge;
    if stream != [] {
      var front := stream[..|stream| - 1];
      StreamKeepsGate(candles, front);
      var before := MergeAll(candles, front);
      MergeStep(before, stream[|stream| - 1]);
      Chain(Last(candles).c, Pow(0.85, |front|), Last(before).c, 0.85);
      Chain(Last(candles).c, Pow(1.15, |front|), Last(before).c, 1.15);
    }
  }

  lemma {:induction false} Chain(c: real, p: real, x: real, factor: real)
    requires factor > 0.0
    ensures c * p <= x ==> c * (p * factor) <= factor * x
    ensures x <= c * p ==> factor * x <= c * (p * factor)
  {
    assert c * (p * factor) == factor * (c * p);
  }

  /** After any stream that leaves the series searchable, the look-up finds a candle
      exactly when that second is present, and it is the only one of that second. */
  method LookUpAfterStream(candles: seq<Candle>, ghost stream: seq<LiveCandle>, now: seq<Candle>, targetSec: int)
    returns (found: Option<Candle>)
    requires AscendingSec(candles) && now == MergeAll(candles, stream) && |now| <= MAX_SEARCHABLE
    ensures found.Some? <==> exists k :: 0 <= k < |now| && Sec(now[k]) == targetSec
    ensures found.Some? ==> Sec(found.value) == targetSec && forall c :: c in now && Sec(c) == targetSec ==> c == found.value
  {
    StreamKeepsSeries(candles, stream);
    found := FindCandleByTime(Some(now), targetSec);
    assert forall k :: 0 <= k < |now| ==> now[k] in now;
  }

  // -------------------------------------------------------------------- alerts

  /** One run of the alert effect: the price it sees and the bar it sees. */
  datatype Event = Event(price: Option<real>, live: Option<LiveCandle>)

  ghost function RunTicks(st: AlertState, events: seq<Event>): AlertState {
    if events == [] then st
    else
      var last := events[|events| - 1];
      Tick(RunTicks(st, events[..|events| - 1]), last.price, last.live)
  }

  ghost predicate DistinctIds(alerts: seq<Alert>) {
    forall i, j :: 0 <= i < j < |alerts| ==> alerts[i].id != alerts[j].id
  }

  /** How often an id has been executed. */
  function Times(ids: seq<string>, id: string): nat { multiset(ids)[id] }

  /** Both prices strictly on one side of the level. */
  predicate SameSide(p: real, q: real, level: real) { (p < level && q < level) || (p > level && q > level) }

  /** A TOUCH alert fires exactly when the reference price was off its level and the new
      price is not strictly on the same side of it. */
  lemma {:induction false} TouchFiresIff(a: Alert, prev: Option<real>, current: real)
    ensures FiresOnTouch(a, prev, current) <==>
      && a.status == Active && a.triggerCondition == Touch
      && prev.Some? && prev.value != a.price && !SameSide(prev.value, current, a.price)
  {
  }

  lemma {:induction false} IdsAreFired(alerts: seq<Alert>, prev: Option<real>, current: real, live: Option<LiveCandle>, lastClosed: Option<int>, id: string)
    ensures id in TouchIds(alerts, prev, current) ==> exists k :: 0 <= k < |alerts| && alerts[k].id == id && FiresOnTouch(alerts[k], prev, current)
    ensures id in CloseIds(alerts, live, lastClosed) ==> exists k :: 0 <= k < |alerts| && alerts[k].id == id && FiresOnClose(alerts[k], live, lastClosed)
  {
    hide FiresOnTouch, FiresOnClose;
    if alerts != [] {
      IdsAreFired(alerts[..|alerts| - 1], prev, current, live, lastClosed, id);
    }
  }

  lemma {:induction false} TimesOfConcat(a: seq<string>, b: seq<string>, id: string)
    ensures Times(a + b, id) == Times(a, id) + Times(b, id)
    ensures id in a + b <==> Times(a, id) + Times(b, id) > 0
  {
    assert id in a + b <==> id in multiset(a + b);
  }

  lemma {:induction false} TimesOfOne(x: string, id: string)
    ensures Times([x], id) == if x == id then 1 else 0
    ensures Times([], id) == 0
  {
  }

  lemma {:induction false} TimesZero(ids: seq<string>, id: string)
    requires id !in ids
    ensures Times(ids, id) == 0
  {
    assert id !in multiset(ids);
  }

  /** With distinct ids, an alert's id is executed once if it fires and not otherwise. */
  lemma {:induction false} TouchTimes(alerts: seq<Alert>, prev: Option<real>, current: real, k: nat)
    requires DistinctIds(alerts) && k < |alerts|
    ensures Times(TouchIds(alerts, prev, current), alerts[k].id) == if FiresOnTouch(alerts[k], prev, current) then 1 else 0
  {
    hide FiresOnTouch, Times;
    var n, id := |alerts| - 1, alerts[k].id;
    var front, last := alerts[..n], alerts[n];
    if k < n {
      TouchTimes(front, prev, current, k);
      assert front[k] == alerts[k] && last.id != id;
    } else {
      IdsAreFired(front, prev, current, None, None, id);
      TimesZero(TouchIds(front, prev, current), id);
    }
    TimesOfOne(last.id, id);
    TimesOfConcat(TouchIds(front, prev, current), if FiresOnTouch(last, prev, current) then [last.id] else [], id);
  }

  lemma {:induction false} CloseTimes(alerts: seq<Alert>, live: Option<LiveCandle>, lastClosed: Option<int>, k: nat)
    requires DistinctIds(alerts) && k < |alerts|
    ensures Times(CloseIds(alerts, live, lastClosed), alerts[k].id) == if FiresOnClose(alerts[k], live, lastClosed) then 1 else 0
  {
    hide FiresOnClose, Times;
    var n, id := |alerts| - 1, alerts[k].id;
    var front, last := alerts[..n], alerts[n];
    if k < n {
      CloseTimes(front, live, lastClosed, k);
      assert front[k] == alerts[k] && last.id != id;
    } else {
      IdsAreFired(front, None, 0.0, live, lastClosed, id);
      TimesZero(CloseIds(front, live, lastClosed), id);
    }
    TimesOfOne(last.id, id);
    TimesOfConcat(CloseIds(front, live, lastClosed), if FiresOnClose(last, live, lastClosed) then [last.id] else [], id);
  }

  predicate Fires(st: AlertState, a: Alert, current: Option<real>, live: Option<LiveCandle>) {
    current.Some? && (FiresOnTouch(a, st.prevPrice, current.value) || FiresOnClose(a, live, st.lastClosed))
  }

  lemma {:induction false} FlipKeepsIds(alerts: seq<Alert>, ids: seq<string>)
    requires DistinctIds(alerts)
    ensures DistinctIds(FlipAll(alerts, ids))
  {
    var r := FlipAll(alerts, ids);
    forall i, j | 0 <= i < j < |r| ensures r[i].id != r[j].id {
      assert r[i].id == alerts[i].id && r[j].id == alerts[j].id;
    }
  }

  /** What one tick does to alert k. */
  lemma {:induction false} TickOnAlert(st: AlertState, current: Option<real>, live: Option<LiveCandle>, k: nat)
    requires DistinctIds(st.alerts) && k < |st.alerts|
    ensures var r, a, fires := Tick(st, current, live), st.alerts[k], Fires(st, st.alerts[k], current, live);
      && |r.alerts| == |st.alerts| && DistinctIds(r.alerts)
      && r.alerts[k] == (if fires then a.(status := Triggered) else a)
      && Times(r.fired, a.id) == Times(st.fired, a.id) + (if fires then 1 else 0)
      && r.prevPrice == (if current.Some? then current else st.prevPrice)
      && r.lastClosed == (if current.Some? && live.Some? && live.value.isClosed && (exists j :: 0 <= j < |st.alerts| && st.alerts[j].status == Active)
                          then Some(live.value.time) else st.lastClosed)
  {
    hide FiresOnTouch, FiresOnClose, Times, DistinctIds;
    var a := st.alerts[k];
    if current.Some? && AnyActive(st.alerts) {
      var touched, closed := TouchIds(st.alerts, st.prevPrice, current.value), CloseIds(st.alerts, live, st.lastClosed);
      TouchTimes(st.alerts, st.prevPrice, current.value, k);
      CloseTimes(st.alerts, live, st.lastClosed, k);
      TouchOrClose(a, st.prevPrice, current.value, live, st.lastClosed);
      TimesOfConcat(touched, closed, a.id);
      TimesOfConcat(st.fired, touched + closed, a.id);
      FlipKeepsIds(st.alerts, touched + closed);
    } else if current.Some? {
      InactiveIsSilent(a, st.prevPrice, current.value, live, st.lastClosed);
    }
  }

  /** The closed bar satisfies the alert: it closes beyond the level, or its wick reaches the
      level from the side it opened on and it closes back there; no other kind is satisfied. */
  ghost predicate Satisfies(a: Alert, bar: LiveCandle) {
    || (a.triggerCondition == CloseAbove && a.price < bar.close)
    || (a.triggerCondition == CloseBelow && bar.close < a.price)
    || (a.triggerCondition == WickPurgeReject
        && ((bar.open < a.price <= bar.high && bar.close < a.price) || (bar.low <= a.price < bar.open && a.price < bar.close)))
  }

  lemma {:induction false} CloseHitIsSatisfies(a: Alert, bar: LiveCandle)
    ensures CloseHit(a, bar) <==> Satisfies(a, bar)
  {
  }

  ghost function IdsOf(alerts: seq<Alert>): (ids: seq<string>)
    ensures |ids| == |alerts| && forall k :: 0 <= k < |alerts| ==> ids[k] == alerts[k].id
  {
    seq(|alerts|, k requires 0 <= k < |alerts| => alerts[k].id)
  }

  function TouchesAt(prev: real, current: real): Alert -> bool {
    (a: Alert) => a.status == Active && a.triggerCondition == Touch && prev != a.price && !SameSide(prev, current, a.price)
  }

  ghost function ClosesAt(bar: LiveCandle): Alert -> bool {
    (a: Alert) => a.status == Active && a.triggerCondition != Touch && Satisfies(a, bar)
  }

  lemma {:induction false} IdsInOrder(alerts: seq<Alert>, prev: real, current: real, bar: LiveCandle, lastClosed: Option<int>)
    ensures TouchIds(alerts, Some(prev), current) == IdsOf(Keep(alerts, TouchesAt(prev, current)))
    ensures bar.isClosed && lastClosed != Some(bar.time) ==> CloseIds(alerts, Some(bar), lastClosed) == IdsOf(Keep(alerts, ClosesAt(bar)))
  {
    hide Keep, FiresOnTouch, CloseHit, Satisfies;
    KeepNone(TouchesAt(prev, current));
    KeepNone(ClosesAt(bar));
    if alerts != [] {
      var n := |alerts| - 1;
      IdsInOrder(alerts[..n], prev, current, bar, lastClosed);
      assert alerts == alerts[..n] + [alerts[n]];
      KeepConcat(alerts[..n], [alerts[n]], TouchesAt(prev, current));
      KeepConcat(alerts[..n], [alerts[n]], ClosesAt(bar));
      KeepOne(alerts[n], TouchesAt(prev, current));
      KeepOne(alerts[n], ClosesAt(bar));
      TouchFiresIff(alerts[n], Some(prev), current);
      CloseHitIsSatisfies(alerts[n], bar);
    }
  }

  /** With a price at hand and an active alert, a tick executes first the touched alerts and
      then the closing ones, each in the order in which they are listed. */
  lemma {:induction false} FiredInOrder(st: AlertState, current: real, live: Option<LiveCandle>)
    requires exists j :: 0 <= j < |st.alerts| && st.alerts[j].status == Active
    ensures Tick(st, Some(current), live).fired == st.fired
      + (if st.prevPrice.Some? then IdsOf(Keep(st.alerts, TouchesAt(st.prevPrice.value, current))) else [])
      + (if live.Some? && live.value.isClosed && st.lastClosed != Some(live.value.time) then IdsOf(Keep(st.alerts, ClosesAt(live.value))) else [])
  {
    hide Keep, TouchIds, CloseIds, FlipAll;
    var prev := if st.prevPrice.Some? then st.prevPrice.value else 0.0;
    if live.Some? {
      IdsInOrder(st.alerts, prev, current, live.value, st.lastClosed);
    } else {
      IdsInOrder(st.alerts, prev, current, LiveCandle(0, 0.0, 0.0, 0.0, 0.0, 0.0, None, None, false), st.lastClosed);
    }
    if st.prevPrice.None? {
      NoTouches(st.alerts, None, current);
    }
    if !NewlyClosed(live, st.lastClosed) {
      NoCloses(st.alerts, live, st.lastClosed);
    }
  }

  lemma {:induction false} InactiveIsSilent(a: Alert, prev: Option<real>, current: real, live: Option<LiveCandle>, lastClosed: Option<int>)
    ensures !a.status.Active? ==> !FiresOnTouch(a, prev, current) && !FiresOnClose(a, live, lastClosed)
  {
  }

  lemma {:induction false} TouchOrClose(a: Alert, prev: Option<real>, current: real, live: Option<LiveCandle>, lastClosed: Option<int>)
    ensures !(FiresOnTouch(a, prev, current) && FiresOnClose(a, live, lastClosed))
  {
  }

  /** Every price seen so far was strictly on the reference side of the level. */
  ghost predicate StayedOnSide(events: seq<Event>, reference: real, level: real) {
    forall j :: 0 <= j < |events| && events[j].price.Some? ==> SameSide(reference, events[j].price.value, level)
  }

  /** A TOUCH alert armed while the reference price is strictly on one side of its level
      is still active after any run exactly when every later price stayed strictly on
      that side; and it has been executed once if it is triggered, never if it is not. */
  lemma {:induction false} TouchAlertMeaning(st: AlertState, events: seq<Event>, k: nat)
    requires DistinctIds(st.alerts) && k < |st.alerts|
    requires st.alerts[k].status.Active? && st.alerts[k].triggerCondition.Touch?
    requires st.prevPrice.Some? && st.prevPrice.value != st.alerts[k].price
    ensures var r, a := RunTicks(st, events), st.alerts[k];
      && |r.alerts| == |st.alerts| && DistinctIds(r.alerts) && r.alerts[k] == a.(status := r.alerts[k].status)
      && (r.alerts[k].status.Active? <==> StayedOnSide(events, st.prevPrice.value, a.price))
      && Times(r.fired, a.id) == Times(st.fired, a.id) + (if r.alerts[k].status.Active? then 0 else 1)
      && r.prevPrice.Some?
      && (r.alerts[k].status.Active? ==> SameSide(st.prevPrice.value, r.prevPrice.value, a.price))
  {
    hide TouchIds, CloseIds, Times, Tick;
    if events != [] {
      var front, last := events[..|events| - 1], events[|events| - 1];
      assert events == front + [last];
      TouchAlertMeaning(st, front, k);
      var before := RunTicks(st, front);
      TickOnAlert(before, last.price, last.live, k);
      SideStep(front, last, st.prevPrice.value, st.alerts[k].price);
    }
  }

  lemma {:induction false} SideStep(front: seq<Event>, last: Event, reference: real, level: real)
    ensures StayedOnSide(front + [last], reference, level) <==>
      StayedOnSide(front, reference, level) && (last.price.Some? ==> SameSide(reference, last.price.value, level))
  {
    var events := front + [last];
    assert events[|front|] == last;
    if StayedOnSide(events, reference, level) {
      forall j | 0 <= j < |front| && front[j].price.Some? ensures SameSide(reference, front[j].price.value, level) {
        assert events[j] == front[j];
      }
    }
  }

  // ------------------------------------------------------------- closing alerts

  /** The last bar that was seen closed with a price at hand, or else the initial one. */
  ghost function LastClosed(start: Option<int>, events: seq<Event>): Option<int> {
    if events == [] then start
    else
      var last := events[|events| - 1];
      if last.price.Some? && last.live.Some? && last.live.value.isClosed then Some(last.live.value.time)
      else LastClosed(start, events[..|events| - 1])
  }

  /** Event j shows a bar closed for the first time in a row, and it satisfies the alert. */
  ghost predicate ClosesOn(start: Option<int>, events: seq<Event>, j: int, a: Alert)
    requires 0 <= j < |events|
  {
    && events[j].price.Some? && events[j].live.Some? && events[j].live.value.isClosed
    && LastClosed(start, events[..j]) != Some(events[j].live.value.time)
    && Satisfies(a, events[j].live.value)
  }

  ghost predicate EverCloses(start: Option<int>, events: seq<Event>, a: Alert) {
    exists j :: 0 <= j < |events| && ClosesOn(start, events, j, a)
  }

  /** An alert on closed bars is still active after any run exactly when no newly closed
      bar satisfied it, and it is executed at most once. */
  lemma {:induction false} CloseAlertMeaning(st: AlertState, events: seq<Event>, k: nat)
    requires DistinctIds(st.alerts) && k < |st.alerts|
    requires st.alerts[k].status.Active? && !st.alerts[k].triggerCondition.Touch?
    ensures var r, a := RunTicks(st, events), st.alerts[k];
      && |r.alerts| == |st.alerts| && DistinctIds(r.alerts) && r.alerts[k] == a.(status := r.alerts[k].status)
      && (r.alerts[k].status.Active? <==> !EverCloses(st.lastClosed, events, a))
      && Times(r.fired, a.id) == Times(st.fired, a.id) + (if r.alerts[k].status.Active? then 0 else 1)
      && (r.alerts[k].status.Active? ==> r.lastClosed == LastClosed(st.lastClosed, events))
  {
    hide TouchIds, CloseIds, Times, CloseHit, Satisfies;
    if events != [] {
      var front, last, a := events[..|events| - 1], events[|events| - 1], st.alerts[k];
      if last.live.Some? {
        CloseHitIsSatisfies(a, last.live.value);
      }
      assert events == front + [last];
      CloseAlertMeaning(st, front, k);
      var before := RunTicks(st, front);
      TickOnAlert(before, last.price, last.live, k);
      EverClosesStep(st.lastClosed, front, last, a);
    }
  }

  lemma {:induction false} EverClosesStep(start: Option<int>, front: seq<Event>, last: Event, a: Alert)
    ensures EverCloses(start, front + [last], a) <==> EverCloses(start, front, a) || ClosesOn(start, front + [last], |front|, a)
    ensures (front + [last])[..|front|] == front
  {
    hide Satisfies;
    var events := front + [last];
    forall j | 0 <= j < |front| ensures ClosesOn(start, events, j, a) <==> ClosesOn(start, front, j, a) {
      assert events[..j] == front[..j] && events[j] == front[j];
    }
  }
}
