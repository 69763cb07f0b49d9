/** What the extracted pools are: exactly the strict window extremes, far apart, and
    when they can be known at the bar that uses them. */
module LiquidityPoolTheorems {
  import opened Market
  import opened Ordering
  import opened LiquidityPools

  ghost predicate StrictAt(candles: seq<Candle>, i: int, lookback: nat, kind: PoolKind) {
    if kind.BSL? then StrictHigh(candles, i, lookback) else StrictLow(candles, i, lookback)
  }

  function SwingPool(candles: seq<Candle>, i: nat, kind: PoolKind): PoolData
    requires i < |candles|
  {
    if kind.BSL? then HighPool(candles, i) else LowPool(candles, i)
  }

  // --------------------------------------------------------------- membership

  function SwingFrom(kind: PoolKind, i: nat): PoolData -> bool {
    (d: PoolData) => (d.id.SwingHigh? || d.id.SwingLow?) && d.kind == kind && d.originIndex == i
  }

  function HasId(id: PoolId): PoolData -> bool { (d: PoolData) => d.id == id }

  lemma {:induction false} SwingPoolsFrom(candles: seq<Candle>, lookback: nat, n: nat, i: nat, kind: PoolKind)
    requires n <= |candles| && i < |candles|
    ensures Keep(SwingPools(candles, lookback, n), SwingFrom(kind, i))
            == if i < n && StrictAt(candles, i, lookback, kind) then [SwingPool(candles, i, kind)] else []
  {
    hide StrictHigh, StrictLow, Keep;
    KeepNone(SwingFrom(kind, i));
    if n > 0 {
      SwingPoolsFrom(candles, lookback, n - 1, i, kind);
      var before, p := SwingPools(candles, lookback, n - 1), SwingFrom(kind, i);
      var high := if StrictHigh(candles, n - 1, lookback) then [HighPool(candles, n - 1)] else [];
      var low := if StrictLow(candles, n - 1, lookback) then [LowPool(candles, n - 1)] else [];
      KeepConcat(before + high, low, p);
      KeepConcat(before, high, p);
      KeepOne(HighPool(candles, n - 1), p);
      KeepOne(LowPool(candles, n - 1), p);
    }
  }

  lemma {:induction false} SessionPoolsHoldNoSwing(s: Sessions, n: nat, kind: PoolKind, i: nat)
    requires n <= |s.days| && Coherent(s)
    ensures Keep(SessionPools(s, n), SwingFrom(kind, i)) == []
  {
    if n > 0 {
      SessionPoolsHoldNoSwing(s, n - 1, kind, i);
      KeepConcat(SessionPools(s, n - 1), DayPools(s.days[n - 1], s.ranges[s.days[n - 1]]), SwingFrom(kind, i));
    }
  }

  /** Among all extracted pools there is one swing high (low) from bar i exactly when no bar
      within `lookback` bars of it reaches as high (low), and none otherwise; it carries
      that bar's extreme and time. */
  lemma {:induction false} SwingPoolIff(
    candles: seq<Candle>, lookback: nat, utcHour: int -> int, dayKey: int -> int, i: nat)
    requires i < |candles|
    ensures Keep(AllPools(candles, lookback, utcHour, dayKey), SwingFrom(BSL, i)) ==
      if lookback <= i < |candles| - lookback
         && forall j :: i - lookback <= j <= i + lookback && j != i ==> candles[j].h < candles[i].h
      then [PoolData(SwingHigh(candles[i].t), BSL, candles[i].h, candles[i].t, i)] else []
    ensures Keep(AllPools(candles, lookback, utcHour, dayKey), SwingFrom(SSL, i)) ==
      if lookback <= i < |candles| - lookback
         && forall j :: i - lookback <= j <= i + lookback && j != i ==> candles[j].l > candles[i].l
      then [PoolData(SwingLow(candles[i].t), SSL, candles[i].l, candles[i].t, i)] else []
  {
    SwingsOfKind(candles, lookback, utcHour, dayKey, i, BSL);
    SwingsOfKind(candles, lookback, utcHour, dayKey, i, SSL);
    if lookback <= i < |candles| - lookback {
      assert forall j :: InWindow(i, j, lookback) <==> i - lookback <= j <= i + lookback;
    }
  }

  lemma {:induction false} SwingsOfKind(
    candles: seq<Candle>, lookback: nat, utcHour: int -> int, dayKey: int -> int, i: nat, kind: PoolKind)
    requires i < |candles|
    ensures Keep(AllPools(candles, lookback, utcHour, dayKey), SwingFrom(kind, i))
            == if StrictAt(candles, i, lookback, kind) then [SwingPool(candles, i, kind)] else []
  {
    hide StrictAt, SwingPools, SessionPools, SessionsOf, SortBy, Keep;
    var sessions := SessionsOf(candles, utcHour, dayKey, |candles|);
    SessionsCoherent(candles, utcHour, dayKey, |candles|);
    SwingPoolsFrom(candles, lookback, |candles|, i, kind);
    SessionPoolsHoldNoSwing(sessions, |sessions.days|, kind, i);
    KeptOfAll(candles, lookback, utcHour, dayKey, SwingFrom(kind, i));
  }

  /** Sorting changes nothing about what is kept, as long as that is one pool at most. */
  lemma {:induction false} KeptOfAll(candles: seq<Candle>, lookback: nat, utcHour: int -> int, dayKey: int -> int, p: PoolData -> bool)
    ensures var sessions := SessionsOf(candles, utcHour, dayKey, |candles|);
      && Coherent(sessions)
      && var kept := Keep(SwingPools(candles, lookback, |candles|), p) + Keep(SessionPools(sessions, |sessions.days|), p);
         |kept| <= 1 ==> Keep(AllPools(candles, lookback, utcHour, dayKey), p) == kept
  {
    hide SwingPools, SessionPools, SessionsOf, SortBy, Keep;
    var sessions := SessionsOf(candles, utcHour, dayKey, |candles|);
    SessionsCoherent(candles, utcHour, dayKey, |candles|);
    var swings, rest := SwingPools(candles, lookback, |candles|), SessionPools(sessions, |sessions.days|);
    SortByCorrect(swings + rest, DataTime);
    KeepConcat(swings, rest, p);
    if |Keep(swings, p) + Keep(rest, p)| <= 1 {
      KeepOfPermutation(AllPools(candles, lookback, utcHour, dayKey), swings + rest, p);
    }
  }

  // ------------------------------------------------------------- session pools

  lemma {:induction false} SwingPoolsHoldNoSession(candles: seq<Candle>, lookback: nat, n: nat, id: PoolId)
    requires n <= |candles| && (id.AsiaHigh? || id.AsiaLow?)
    ensures Keep(SwingPools(candles, lookback, n), HasId(id)) == []
  {
    hide StrictHigh, StrictLow;
    if n > 0 {
      SwingPoolsHoldNoSession(candles, lookback, n - 1, id);
      var before, p := SwingPools(candles, lookback, n - 1), HasId(id);
      var high := if StrictHigh(candles, n - 1, lookback) then [HighPool(candles, n - 1)] else [];
      var low := if StrictLow(candles, n - 1, lookback) then [LowPool(candles, n - 1)] else [];
      KeepConcat(before + high, low, p);
      KeepConcat(before, high, p);
    }
  }

  function PoolOf(id: PoolId, s: Session): PoolData {
    if id.AsiaHigh? then PoolData(id, BSL, s.high, s.time, s.index) else PoolData(id, SSL, s.low, s.time, s.index)
  }

  lemma {:induction false} DayPoolsOf(last: int, s: Session, id: PoolId)
    requires id.AsiaHigh? || id.AsiaLow?
    ensures Keep(DayPools(last, s), HasId(id)) == if id.day == last then [PoolOf(id, s)] else []
  {
    hide Keep;
    var pools := DayPools(last, s);
    assert pools == [pools[0]] + [pools[1]];
    KeepConcat([pools[0]], [pools[1]], HasId(id));
    KeepOne(pools[0], HasId(id));
    KeepOne(pools[1], HasId(id));
  }

  lemma {:induction false} SessionPoolsOfDay(s: Sessions, n: nat, id: PoolId)
    requires n <= |s.days| && Coherent(s) && (id.AsiaHigh? || id.AsiaLow?)
    ensures Keep(SessionPools(s, n), HasId(id)) == if id.day in s.days[..n] then [PoolOf(id, s.ranges[id.day])] else []
  {
    hide Keep, DayPools;
    KeepNone(HasId(id));
    if n > 0 {
      SessionPoolsOfDay(s, n - 1, id);
      var last := s.days[n - 1];
      DayPoolsOf(last, s.ranges[last], id);
      KeepConcat(SessionPools(s, n - 1), DayPools(last, s.ranges[last]), HasId(id));
      assert s.days[..n] == s.days[..n - 1] + [last];
    }
  }

  /** The bar lies in the day's first seven hours. */
  ghost predicate SessionBar(candles: seq<Candle>, utcHour: int -> int, dayKey: int -> int, day: int, j: int) {
    0 <= j < |candles| && 0 <= utcHour(candles[j].t) <= 6 && dayKey(candles[j].t) == day
  }

  /** Among all extracted pools there is one Asian high (BSL) and one Asian low (SSL) of a day
      exactly when the day has a session bar. They are priced by the highest high and the
      lowest low of all the session's bars and dated by the first of them. */
  lemma {:induction false} SessionPoolIff(
    candles: seq<Candle>, lookback: nat, utcHour: int -> int, dayKey: int -> int, day: int)
    returns (high: real, low: real, first: int)
    ensures var all := AllPools(candles, lookback, utcHour, dayKey);
      if exists j :: SessionBar(candles, utcHour, dayKey, day, j) then
        && SessionBar(candles, utcHour, dayKey, day, first)
        && Keep(all, HasId(AsiaHigh(day))) == [PoolData(AsiaHigh(day), BSL, high, candles[first].t, first)]
        && Keep(all, HasId(AsiaLow(day))) == [PoolData(AsiaLow(day), SSL, low, candles[first].t, first)]
        && (forall j :: SessionBar(candles, utcHour, dayKey, day, j) ==> first <= j && low <= candles[j].l && candles[j].h <= high)
        && (exists j :: SessionBar(candles, utcHour, dayKey, day, j) && candles[j].h == high)
        && (exists j :: SessionBar(candles, utcHour, dayKey, day, j) && candles[j].l == low)
      else
        Keep(all, HasId(AsiaHigh(day))) == [] && Keep(all, HasId(AsiaLow(day))) == []
  {
    hide SwingPools, SessionPools, SessionsOf, Keep, AllPools;
    var sessions := SessionsOf(candles, utcHour, dayKey, |candles|);
    SessionsCoherent(candles, utcHour, dayKey, |candles|);
    SessionIsExtreme(candles, utcHour, dayKey, |candles|, day);
    SessionPoolsOfDay(sessions, |sessions.days|, AsiaHigh(day));
    SessionPoolsOfDay(sessions, |sessions.days|, AsiaLow(day));
    assert sessions.days[..|sessions.days|] == sessions.days;
    SwingPoolsHoldNoSession(candles, lookback, |candles|, AsiaHigh(day));
    SwingPoolsHoldNoSession(candles, lookback, |candles|, AsiaLow(day));
    KeptOfAll(candles, lookback, utcHour, dayKey, HasId(AsiaHigh(day)));
    KeptOfAll(candles, lookback, utcHour, dayKey, HasId(AsiaLow(day)));
    forall j: nat ensures InSession(candles, utcHour, dayKey, day, j) <==> SessionBar(candles, utcHour, dayKey, day, j) {
    }
    if day in sessions.ranges {
      var s := sessions.ranges[day];
      high, low, first := s.high, s.low, s.index;
      assert SessionBar(candles, utcHour, dayKey, day, first);
    } else {
      high, low, first := 0.0, 0.0, 0;
    }
  }

  // ------------------------------------------------------------------- spacing

  /** Two swing highs, or two swing lows, are more than `lookback` bars apart. */
  lemma {:induction false} SwingsAreApart(candles: seq<Candle>, i: nat, j: nat, lookback: nat, kind: PoolKind)
    requires i < j && StrictAt(candles, i, lookback, kind) && StrictAt(candles, j, lookback, kind)
    ensures i + lookback < j
  {
    if j <= i + lookback {
      assert InWindow(i, j, lookback) && InWindow(j, i, lookback);
      assert false;
    }
  }

  /** The origins of the pools of one kind, in order. */
  function Origins(pools: seq<PoolData>, kind: PoolKind): seq<int> {
    if pools == [] then []
    else
      var last := pools[|pools| - 1];
      Origins(pools[..|pools| - 1], kind) + if last.kind == kind then [last.originIndex] else []
  }

  lemma {:induction false} OriginsAppend(a: seq<PoolData>, d: PoolData, kind: PoolKind)
    ensures Origins(a + [d], kind) == Origins(a, kind) + if d.kind == kind then [d.originIndex] else []
  {
    assert (a + [d])[..|a|] == a;
  }

  lemma {:induction false} OriginsStep(candles: seq<Candle>, lookback: nat, n: nat, kind: PoolKind)
    requires 0 < n <= |candles|
    ensures Origins(SwingPools(candles, lookback, n), kind)
            == Origins(SwingPools(candles, lookback, n - 1), kind)
               + if StrictAt(candles, n - 1, lookback, kind) then [n - 1] else []
  {
    var before := SwingPools(candles, lookback, n - 1);
    var high := if StrictHigh(candles, n - 1, lookback) then [HighPool(candles, n - 1)] else [];
    var low := if StrictLow(candles, n - 1, lookback) then [LowPool(candles, n - 1)] else [];
    assert SwingPools(candles, lookback, n) == before + high + low;
    OriginsAppend(before, HighPool(candles, n - 1), kind);
    assert Origins(before + high, kind)
           == Origins(before, kind) + if kind.BSL? && high != [] then [n - 1] else [] by { assert before + [] == before; }
    OriginsAppend(before + high, LowPool(candles, n - 1), kind);
    assert Origins(before + high + low, kind)
           == Origins(before + high, kind) + if kind.SSL? && low != [] then [n - 1] else [] by { assert before + high + [] == before + high; }
  }

  lemma {:induction false} OriginsAreSpaced(candles: seq<Candle>, lookback: nat, n: nat, kind: PoolKind)
    requires n <= |candles|
    ensures var at := Origins(SwingPools(candles, lookback, n), kind);
      && Spaced(at, lookback + 1)
      && forall k :: 0 <= k < |at| ==> 0 <= at[k] < n && StrictAt(candles, at[k], lookback, kind)
  {
    hide SwingPools, StrictAt;
    NoSwingBefore(candles, lookback, 0);
    if n > 0 {
      OriginsAreSpaced(candles, lookback, n - 1, kind);
      OriginsStep(candles, lookback, n, kind);
      if StrictAt(candles, n - 1, lookback, kind) {
        var at := Origins(SwingPools(candles, lookback, n - 1), kind);
        forall k | 0 <= k < |at| ensures at[k] + lookback + 1 <= n - 1 {
          SwingsAreApart(candles, at[k], n - 1, lookback, kind);
        }
      }
    }
  }

  /** At most floor((n - 2L - 1) / (L + 1)) + 1 swing highs, and as many swing lows, among n bars. */
  lemma {:induction false} SwingCount(candles: seq<Candle>, lookback: nat, kind: PoolKind)
    ensures |Origins(SwingPools(candles, lookback, |candles|), kind)|
            <= MaxCount(|candles| - 2 * lookback - 1, lookback + 1)
  {
    OriginsAreSpaced(candles, lookback, |candles|, kind);
    var at := Origins(SwingPools(candles, lookback, |candles|), kind);
    forall k | 0 <= k < |at| ensures lookback <= at[k] <= lookback + (|candles| - 2 * lookback - 1) {
      assert StrictAt(candles, at[k], lookback, kind);
    }
    SpacedCount(at, lookback + 1, lookback, |candles| - 2 * lookback - 1);
  }

  // ----------------------------------------------------------------- causality

  /** Two histories that a trader cannot tell apart before bar i. */
  ghost predicate SameBefore(candles: seq<Candle>, other: seq<Candle>, i: nat) {
    |candles| == |other| && i <= |candles| && candles[..i] == other[..i]
  }

  /** The simulator considers a pool of origin o at bar i. */
  predicate Eligible(o: int, i: int) { o < i - 5 && i - o < 300 }

  /** Every swing pool eligible at a simulated bar is settled by the bars before it. */
  ghost predicate SwingsKnownInTime(lookback: nat) {
    forall candles, other, i: nat, o: nat, kind {:trigger SameBefore(candles, other, i), StrictAt(candles, o, lookback, kind)} ::
      SameBefore(candles, other, i) && 50 <= i < |candles| - 50 && Eligible(o, i) ==>
        (StrictAt(candles, o, lookback, kind) <==> StrictAt(other, o, lookback, kind))
  }

  lemma {:induction false} ShortLookbackSettled(candles: seq<Candle>, other: seq<Candle>, i: nat, o: nat, lookback: nat, kind: PoolKind)
    requires SameBefore(candles, other, i) && Eligible(o, i) && lookback <= 5
    requires StrictAt(candles, o, lookback, kind)
    ensures StrictAt(other, o, lookback, kind)
  {
    forall j | 0 <= j < |candles| && InWindow(o, j, lookback) ensures other[j] == candles[j] {
      assert candles[..i][j] == other[..i][j];
    }
  }

  function Flat(n: nat, i: nat, height: real): (r: seq<Candle>)
    requires i < n
    ensures |r| == n
    ensures forall k :: 0 <= k < n ==> r[k].h == if k == i then height else 0.0
  {
    seq(n, k => Candle(k, 0.0, if k == i then height else 0.0, 0.0, 0.0, 0.0, 0.0, 0.0, true))
  }

  /** With a longer lookback, a bar still to come can unmake a pool that is already in use. */
  lemma {:induction false} LongLookbackLeaks(lookback: nat)
    returns (candles: seq<Candle>, other: seq<Candle>, i: nat, o: nat)
    requires lookback > 5
    ensures
      && SameBefore(candles, other, i) && 50 <= i < |candles| - 50 && Eligible(o, i)
      && StrictAt(candles, o, lookback, BSL) && !StrictAt(other, o, lookback, BSL)
  {
    o := lookback + 50;
    i := o + 6;
    candles := Flat(2 * lookback + 200, o, 1.0);
    other := candles[i := candles[i].(h := 2.0)];
    assert candles[..i] == other[..i];
    assert SameBefore(candles, other, i);
    assert InWindow(o, i, lookback) && other[i].h > other[o].h;
    assert StrictAt(candles, o, lookback, BSL);
    assert !StrictAt(other, o, lookback, BSL);
  }

  /** Swing pools are known before they are used exactly when the lookback is at most 5
      (the script runs with 15 and 25). */
  lemma {:induction false} SwingsKnownInTimeIff(lookback: nat)
    ensures SwingsKnownInTime(lookback) <==> lookback <= 5
  {
    if lookback <= 5 {
      forall candles, other, i: nat, o: nat, kind |
        SameBefore(candles, other, i) && 50 <= i < |candles| - 50 && Eligible(o, i)
        ensures StrictAt(candles, o, lookback, kind) <==> StrictAt(other, o, lookback, kind)
      {
        assert SameBefore(other, candles, i);
        if StrictAt(candles, o, lookback, kind) {
          ShortLookbackSettled(candles, other, i, o, lookback, kind);
        }
        if StrictAt(other, o, lookback, kind) {
          ShortLookbackSettled(other, candles, i, o, lookback, kind);
        }
      }
    } else {
      var candles, other, i, o := LongLookbackLeaks(lookback);
    }
  }

  // ------------------------------------------------- causality of session pools

  ghost predicate SameTimes(candles: seq<Candle>, other: seq<Candle>) {
    |candles| == |other| && forall k :: 0 <= k < |candles| ==> other[k].t == candles[k].t
  }

  /** Both series hold the same record of the day's session, or none. */
  ghost predicate SameSession(candles: seq<Candle>, other: seq<Candle>, utcHour: int -> int, dayKey: int -> int, day: int) {
    var ranges, ranges' := SessionsOf(candles, utcHour, dayKey, |candles|).ranges, SessionsOf(other, utcHour, dayKey, |other|).ranges;
    (day in ranges <==> day in ranges') && (day in ranges ==> ranges[day] == ranges'[day])
  }

  /** Whatever the prices from bar i on turn out to be, the day's session stays as it is. */
  ghost predicate SessionSettled(candles: seq<Candle>, utcHour: int -> int, dayKey: int -> int, i: nat, day: int) {
    forall other {:trigger SameBefore(candles, other, i)} ::
      SameBefore(candles, other, i) && SameTimes(candles, other) ==> SameSession(candles, other, utcHour, dayKey, day)
  }

  ghost predicate SessionOver(candles: seq<Candle>, utcHour: int -> int, dayKey: int -> int, i: nat, day: int) {
    forall j: nat :: i <= j ==> !InSession(candles, utcHour, dayKey, day, j)
  }

  /** A session pool is dated by its session's first bar but priced by all of them: a
      higher high on any later bar of the session moves its price. */
  lemma {:induction false} RunningSessionMoves(
    candles: seq<Candle>, utcHour: int -> int, dayKey: int -> int, day: int, j: nat)
    returns (other: seq<Candle>, high: real)
    requires InSession(candles, utcHour, dayKey, day, j)
    ensures high > candles[j].h && other == candles[j := candles[j].(h := high)]
    ensures var ranges, ranges' := SessionsOf(candles, utcHour, dayKey, |candles|).ranges, SessionsOf(other, utcHour, dayKey, |other|).ranges;
      day in ranges && day in ranges' && ranges[day].high < ranges'[day].high
  {
    hide SessionsOf;
    SessionIsExtreme(candles, utcHour, dayKey, |candles|, day);
    high := SessionsOf(candles, utcHour, dayKey, |candles|).ranges[day].high + 1.0;
    other := candles[j := candles[j].(h := high)];
    assert InSession(other, utcHour, dayKey, day, j);
    SessionIsExtreme(other, utcHour, dayKey, |other|, day);
  }

  /** A session that is over in both histories is settled by the bars before i. */
  lemma {:induction false} FinishedSessionSettled(
    candles: seq<Candle>, other: seq<Candle>, utcHour: int -> int, dayKey: int -> int, i: nat, day: int)
    requires SameBefore(candles, other, i)
    requires SessionOver(candles, utcHour, dayKey, i, day) && SessionOver(other, utcHour, dayKey, i, day)
    ensures SameSession(candles, other, utcHour, dayKey, day)
  {
    SessionEndsAt(candles, utcHour, dayKey, day, i, |candles|);
    SessionEndsAt(other, utcHour, dayKey, day, i, |other|);
    SessionsPrefix(candles, other, utcHour, dayKey, i, i);
  }

  /** For every market and calendar, a day's session pools are settled at bar i exactly
      when none of the session's bars is at or after i. */
  lemma {:induction false} SessionSettledIff(candles: seq<Candle>, utcHour: int -> int, dayKey: int -> int, i: nat, day: int)
    requires i <= |candles|
    ensures SessionSettled(candles, utcHour, dayKey, i, day) <==> SessionOver(candles, utcHour, dayKey, i, day)
  {
    hide SessionsOf, InSession;
    if SessionOver(candles, utcHour, dayKey, i, day) {
      forall other | SameBefore(candles, other, i) && SameTimes(candles, other)
        ensures SameSession(candles, other, utcHour, dayKey, day)
      {
        SessionOverIsTiming(candles, other, utcHour, dayKey, i, day);
        FinishedSessionSettled(candles, other, utcHour, dayKey, i, day);
      }
    } else {
      var j: nat :| i <= j && InSession(candles, utcHour, dayKey, day, j);
      InSessionIsBar(candles, utcHour, dayKey, day, j);
      var other, high := RunningSessionMoves(candles, utcHour, dayKey, day, j);
      assert candles[..i] == other[..i];
      assert SameBefore(candles, other, i) && SameTimes(candles, other);
      assert !SameSession(candles, other, utcHour, dayKey, day);
    }
  }

  lemma {:induction false} SessionOverIsTiming(
    candles: seq<Candle>, other: seq<Candle>, utcHour: int -> int, dayKey: int -> int, i: nat, day: int)
    requires SameTimes(candles, other) && SessionOver(candles, utcHour, dayKey, i, day)
    ensures SessionOver(other, utcHour, dayKey, i, day)
  {
    assert forall j: nat :: InSession(other, utcHour, dayKey, day, j) ==> InSession(candles, utcHour, dayKey, day, j);
  }

  lemma {:induction false} InSessionIsBar(candles: seq<Candle>, utcHour: int -> int, dayKey: int -> int, day: int, j: nat)
    requires InSession(candles, utcHour, dayKey, day, j)
    ensures j < |candles|
  {
  }

  const HOUR_MS: int := 3_600_000
  const DAY_MS: int := 86_400_000

  function UtcHour(t: int): int { t % DAY_MS / HOUR_MS }

  function UtcDay(t: int): int { t / DAY_MS }

  lemma {:induction false} AsianHours(t: int, day: int)
    ensures 0 <= UtcHour(t) < 7 && UtcDay(t) == day <==> day * DAY_MS <= t < day * DAY_MS + 7 * HOUR_MS
  {
  }

  /** On the real clock and an unbroken series from midnight on: the session's pools,
      in use from the sixth bar after midnight to the 299th, are settled exactly from
      seven hours after midnight on. That is bar 140 of three-minute candles; on
      one-minute candles it is bar 420, too late for any use. */
  lemma {:induction false} UtcSessionSettledIff(candles: seq<Candle>, step: int, o: nat, i: nat, day: int)
    requires step > 0 && o <= i < |candles| && candles[o].t == day * DAY_MS
    requires forall k :: o <= k < |candles| ==> candles[k].t == candles[o].t + (k - o) * step
    ensures SessionSettled(candles, UtcHour, UtcDay, i, day) <==> (i - o) * step >= 7 * HOUR_MS
  {
    hide UtcHour, UtcDay, SessionSettled;
    SessionSettledIff(candles, UtcHour, UtcDay, i, day);
    forall j: nat | i <= j < |candles|
      ensures (i - o) * step <= (j - o) * step
      ensures InSession(candles, UtcHour, UtcDay, day, j) <==> (j - o) * step < 7 * HOUR_MS
    {
      AsianHours(candles[j].t, day);
      LaterIsFurther(i - o, j - o, step);
    }
    assert InSession(candles, UtcHour, UtcDay, day, i) <==> (i - o) * step < 7 * HOUR_MS;
  }

  lemma {:induction false} LaterIsFurther(a: nat, b: nat, step: nat)
    requires a <= b
    ensures 0 <= a * step <= b * step
  {
  }

  lemma {:induction false} SessionEndsAt(candles: seq<Candle>, utcHour: int -> int, dayKey: int -> int, day: int, i: nat, n: nat)
    requires i <= n <= |candles|
    requires forall j: nat :: i <= j < n ==> !InSession(candles, utcHour, dayKey, day, j)
    ensures var ranges, ranges' := SessionsOf(candles, utcHour, dayKey, i).ranges, SessionsOf(candles, utcHour, dayKey, n).ranges;
      && (day in ranges <==> day in ranges')
      && (day in ranges ==> ranges[day] == ranges'[day])
  {
    if i < n {
      SessionEndsAt(candles, utcHour, dayKey, day, i, n - 1);
      assert !InSession(candles, utcHour, dayKey, day, n - 1);
    }
  }

  lemma {:induction false} SessionsPrefix(candles: seq<Candle>, other: seq<Candle>, utcHour: int -> int, dayKey: int -> int, i: nat, n: nat)
    requires SameBefore(candles, other, i) && n <= i
    ensures SessionsOf(candles, utcHour, dayKey, n) == SessionsOf(other, utcHour, dayKey, n)
  {
    if n > 0 {
      SessionsPrefix(candles, other, utcHour, dayKey, i, n - 1);
      assert candles[..i][n - 1] == other[..i][n - 1];
    }
  }
}
