/** `extractLiquidityPools` of scripts/run_1m_3m_liquidity_hunter.ts: swing extremes and
    Asian-session extremes, as shared objects ordered by time. */
module LiquidityPools {
  import opened Market
  import opened Ordering

  datatype PoolKind = BSL | SSL

  datatype PoolId = SwingHigh(t: int) | SwingLow(t: int) | AsiaHigh(day: int) | AsiaLow(day: int)

  /** The fields of a pool that never change. */
  datatype PoolData = PoolData(id: PoolId, kind: PoolKind, price: real, time: int, originIndex: int)

  class LiquidityPool {
    const id: PoolId
    const kind: PoolKind
    const price: real
    const time: int
    const originIndex: int
    var isSwept: bool

    constructor (id: PoolId, kind: PoolKind, price: real, time: int, originIndex: int)
      ensures Data() == PoolData(id, kind, price, time, originIndex) && !isSwept
    {
      this.id, this.kind, this.price, this.time, this.originIndex := id, kind, price, time, originIndex;
      isSwept := false;
    }

    function Data(): PoolData { PoolData(id, kind, price, time, originIndex) }
  }

  function DataOf(pools: seq<LiquidityPool>): (r: seq<PoolData>)
    ensures |r| == |pools|
  {
    seq(|pools|, i requires 0 <= i < |pools| => pools[i].Data())
  }

  // ------------------------------------------------------------- swing points

  predicate InWindow(i: int, j: int, lookback: nat) { i - lookback <= j <= i + lookback }

  /** Bar i is the strict maximum of its window of `lookback` bars on either side. */
  ghost predicate StrictHigh(candles: seq<Candle>, i: int, lookback: nat) {
    && lookback <= i < |candles| - lookback
    && forall j :: 0 <= j < |candles| && InWindow(i, j, lookback) && j != i ==> candles[j].h < candles[i].h
  }

  ghost predicate StrictLow(candles: seq<Candle>, i: int, lookback: nat) {
    && lookback <= i < |candles| - lookback
    && forall j :: 0 <= j < |candles| && InWindow(i, j, lookback) && j != i ==> candles[i].l < candles[j].l
  }

  function HighPool(candles: seq<Candle>, i: nat): PoolData
    requires i < |candles|
  {
    PoolData(SwingHigh(candles[i].t), BSL, candles[i].h, candles[i].t, i)
  }

  function LowPool(candles: seq<Candle>, i: nat): PoolData
    requires i < |candles|
  {
    PoolData(SwingLow(candles[i].t), SSL, candles[i].l, candles[i].t, i)
  }

  /** The swing pools of the bars before n, in the order of discovery. */
  ghost function SwingPools(candles: seq<Candle>, lookback: nat, n: nat): seq<PoolData>
    requires n <= |candles|
  {
    if n == 0 then []
    else
      SwingPools(candles, lookback, n - 1)
      + (if StrictHigh(candles, n - 1, lookback) then [HighPool(candles, n - 1)] else [])
      + (if StrictLow(candles, n - 1, lookback) then [LowPool(candles, n - 1)] else [])
  }

  lemma {:induction false} NoSwingBefore(candles: seq<Candle>, lookback: nat, n: nat)
    requires n <= |candles| && n <= lookback
    ensures SwingPools(candles, lookback, n) == []
  {
    if n > 0 {
      NoSwingBefore(candles, lookback, n - 1);
    }
  }

  lemma {:induction false} NoSwingAfter(candles: seq<Candle>, lookback: nat, m: nat, n: nat)
    requires m <= n <= |candles| && |candles| - lookback <= m
    ensures SwingPools(candles, lookback, n) == SwingPools(candles, lookback, m)
  {
    if m < n {
      NoSwingAfter(candles, lookback, m, n - 1);
    }
  }

  // ------------------------------------------------------------ Asian session

  datatype Session = Session(high: real, low: real, time: int, index: nat)

  /** Sessions by day, with the days in the order in which they were first met. */
  datatype Sessions = Sessions(days: seq<int>, ranges: map<int, Session>)

  predicate IsAsian(c: Candle, utcHour: int -> int) { 0 <= utcHour(c.t) < 7 }

  function Extend(s: Session, c: Candle): Session {
    s.(high := if c.h > s.high then c.h else s.high, low := if c.l < s.low then c.l else s.low)
  }

  ghost function SessionsOf(candles: seq<Candle>, utcHour: int -> int, dayKey: int -> int, n: nat): Sessions
    requires n <= |candles|
  {
    if n == 0 then Sessions([], map[])
    else
      var before, c := SessionsOf(candles, utcHour, dayKey, n - 1), candles[n - 1];
      var day := dayKey(c.t);
      if !IsAsian(c, utcHour) then before
      else if day in before.ranges then before.(ranges := before.ranges[day := Extend(before.ranges[day], c)])
      else Sessions(before.days + [day], before.ranges[day := Session(c.h, c.l, c.t, n - 1)])
  }

  ghost predicate InSession(candles: seq<Candle>, utcHour: int -> int, dayKey: int -> int, day: int, j: nat) {
    j < |candles| && IsAsian(candles[j], utcHour) && dayKey(candles[j].t) == day
  }

  /** A session holds the extremes of all its bars, but carries the index of its first one. */
  lemma {:induction false} SessionIsExtreme(candles: seq<Candle>, utcHour: int -> int, dayKey: int -> int, n: nat, day: int)
    requires n <= |candles|
    ensures var ranges := SessionsOf(candles, utcHour, dayKey, n).ranges;
      && (day in ranges <==> exists j: nat :: j < n && InSession(candles, utcHour, dayKey, day, j))
      && (day in ranges ==>
            var s := ranges[day];
            && s.index < n && InSession(candles, utcHour, dayKey, day, s.index) && s.time == candles[s.index].t
            && (forall j: nat :: j < n && InSession(candles, utcHour, dayKey, day, j) ==>
                  s.index <= j && s.low <= candles[j].l && candles[j].h <= s.high)
            && (exists j: nat :: j < n && InSession(candles, utcHour, dayKey, day, j) && s.high == candles[j].h)
            && (exists j: nat :: j < n && InSession(candles, utcHour, dayKey, day, j) && s.low == candles[j].l))
  {
    if n > 0 {
      SessionIsExtreme(candles, utcHour, dayKey, n - 1, day);
      if InSession(candles, utcHour, dayKey, day, n - 1) {
        assert day in SessionsOf(candles, utcHour, dayKey, n).ranges;
      }
    }
  }

  ghost predicate Coherent(s: Sessions) {
    && (forall d :: d in s.days <==> d in s.ranges)
    && (forall i, j :: 0 <= i < j < |s.days| ==> s.days[i] != s.days[j])
  }

  lemma {:induction false} SessionsCoherent(candles: seq<Candle>, utcHour: int -> int, dayKey: int -> int, n: nat)
    requires n <= |candles|
    ensures Coherent(SessionsOf(candles, utcHour, dayKey, n))
  {
    if n > 0 {
      SessionsCoherent(candles, utcHour, dayKey, n - 1);
      var before, s := SessionsOf(candles, utcHour, dayKey, n - 1), SessionsOf(candles, utcHour, dayKey, n);
      var day := dayKey(candles[n - 1].t);
      if s.days != before.days {
        assert day !in before.days;
        forall d ensures d in s.days <==> d in s.ranges {
          assert d in s.days <==> d in before.days || d == day;
        }
      } else {
        forall d ensures d in s.days <==> d in s.ranges {
          assert d in s.ranges <==> d in before.ranges;
        }
      }
    }
  }

  function DayPools(day: int, s: Session): seq<PoolData> {
    [PoolData(AsiaHigh(day), BSL, s.high, s.time, s.index), PoolData(AsiaLow(day), SSL, s.low, s.time, s.index)]
  }

  ghost function SessionPools(s: Sessions, n: nat): seq<PoolData>
    requires n <= |s.days| && Coherent(s)
  {
    if n == 0 then [] else SessionPools(s, n - 1) + DayPools(s.days[n - 1], s.ranges[s.days[n - 1]])
  }

  // ------------------------------------------------------------- the extractor

  function PoolTime(p: LiquidityPool): int { p.time }

  function DataTime(d: PoolData): int { d.time }

  ghost function AllPools(candles: seq<Candle>, lookback: nat, utcHour: int -> int, dayKey: int -> int): seq<PoolData> {
    var sessions := SessionsOf(candles, utcHour, dayKey, |candles|);
    SessionsCoherent(candles, utcHour, dayKey, |candles|);
    SortBy(SwingPools(candles, lookback, |candles|) + SessionPools(sessions, |sessions.days|), DataTime)
  }

  lemma {:induction false} InsertData(x: LiquidityPool, s: seq<LiquidityPool>)
    ensures DataOf(Insert(x, s, PoolTime)) == Insert(x.Data(), DataOf(s), DataTime)
  {
    if s == [] || PoolTime(x) <= PoolTime(s[0]) {
      assert DataOf([x] + s) == [x.Data()] + DataOf(s);
    } else {
      InsertData(x, s[1..]);
      assert DataOf(s)[1..] == DataOf(s[1..]);
      assert DataOf([s[0]] + Insert(x, s[1..], PoolTime)) == [s[0].Data()] + DataOf(Insert(x, s[1..], PoolTime));
    }
  }

  lemma {:induction false} SortData(s: seq<LiquidityPool>)
    ensures DataOf(SortBy(s, PoolTime)) == SortBy(DataOf(s), DataTime)
  {
    if s != [] {
      SortData(s[1..]);
      assert DataOf(s)[1..] == DataOf(s[1..]);
      InsertData(s[0], SortBy(s[1..], PoolTime));
    }
  }

  lemma {:induction false} SortKeepsObjects(s: seq<LiquidityPool>)
    requires AllDistinct(s)
    ensures AllDistinct(SortBy(s, PoolTime))
  {
    SortByCorrect(s, PoolTime);
    DistinctFromMultiset(s);
    DistinctFromMultiset(SortBy(s, PoolTime));
  }

  lemma {:induction false} SortMember(s: seq<LiquidityPool>, p: LiquidityPool)
    ensures p in SortBy(s, PoolTime) <==> p in s
  {
    SortByCorrect(s, PoolTime);
    assert p in multiset(s) <==> p in multiset(SortBy(s, PoolTime));
  }

  /** `pools.push` of a new pool. */
  method Push(pools: seq<LiquidityPool>, id: PoolId, kind: PoolKind, price: real, time: int, originIndex: int)
    returns (r: seq<LiquidityPool>)
    ensures DataOf(r) == DataOf(pools) + [PoolData(id, kind, price, time, originIndex)]
    ensures AllDistinct(pools) ==> AllDistinct(r)
    ensures forall p :: p in r ==> p in pools || (fresh(p) && !p.isSwept)
  {
    var p := new LiquidityPool(id, kind, price, time, originIndex);
    r := pools + [p];
  }

  method ExtractSwings(candles: seq<Candle>, lookbackBars: nat) returns (pools: seq<LiquidityPool>)
    ensures DataOf(pools) == SwingPools(candles, lookbackBars, |candles|)
    ensures AllDistinct(pools) && forall p :: p in pools ==> fresh(p) && !p.isSwept
  {
    pools := [];
    NoSwingBefore(candles, lookbackBars, MinInt(lookbackBars, |candles|));
    ghost var done := MinInt(lookbackBars, |candles|);
    var i := lookbackBars;
    while i < |candles| - lookbackBars
      invariant done == MinInt(i, |candles|) && (i == lookbackBars || i <= |candles| - lookbackBars)
      invariant lookbackBars <= i && DataOf(pools) == SwingPools(candles, lookbackBars, done)
      invariant AllDistinct(pools) && forall p :: p in pools ==> fresh(p) && !p.isSwept
    {
      var c := candles[i];
      var isHigh, isLow := IsExtreme(candles, i, lookbackBars);
      if isHigh {
        pools := Push(pools, SwingHigh(c.t), BSL, c.h, c.t, i);
      }
      if isLow {
        pools := Push(pools, SwingLow(c.t), SSL, c.l, c.t, i);
      }
      i, done := i + 1, done + 1;
    }
    NoSwingAfter(candles, lookbackBars, done, |candles|);
  }

  method IsExtreme(candles: seq<Candle>, i: nat, lookbackBars: nat) returns (isHigh: bool, isLow: bool)
    requires lookbackBars <= i < |candles| - lookbackBars
    ensures isHigh <==> StrictHigh(candles, i, lookbackBars)
    ensures isLow <==> StrictLow(candles, i, lookbackBars)
  {
    var c := candles[i];
    isHigh, isLow := true, true;
    for j := i - lookbackBars to i + lookbackBars + 1
      invariant isHigh <==> forall k :: i - lookbackBars <= k < j && k != i ==> candles[k].h < c.h
      invariant isLow <==> forall k :: i - lookbackBars <= k < j && k != i ==> c.l < candles[k].l
    {
      if j == i { continue; }
      if candles[j].h >= c.h { isHigh := false; }
      if candles[j].l <= c.l { isLow := false; }
    }
    assert forall k :: InWindow(i, k, lookbackBars) <==> i - lookbackBars <= k < i + lookbackBars + 1;
  }

  method CollectSessions(candles: seq<Candle>, utcHour: int -> int, dayKey: int -> int) returns (sessions: Sessions)
    ensures sessions == SessionsOf(candles, utcHour, dayKey, |candles|)
  {
    sessions := Sessions([], map[]);
    for i := 0 to |candles|
      invariant sessions == SessionsOf(candles, utcHour, dayKey, i)
    {
      var c := candles[i];
      var hour, day := utcHour(c.t), dayKey(c.t);
      if hour >= 0 && hour < 7 {
        if day in sessions.ranges {
          var current := sessions.ranges[day];
          if c.h > current.high { current := current.(high := c.h); }
          if c.l < current.low { current := current.(low := c.l); }
          sessions := sessions.(ranges := sessions.ranges[day := current]);
        } else {
          sessions := Sessions(sessions.days + [day], sessions.ranges[day := Session(c.h, c.l, c.t, i)]);
        }
      }
    }
  }

  /** All pools: new, distinct, unswept objects in time order. */
  method ExtractLiquidityPools(candles: seq<Candle>, lookbackBars: nat, utcHour: int -> int, dayKey: int -> int)
    returns (pools: seq<LiquidityPool>)
    ensures DataOf(pools) == AllPools(candles, lookbackBars, utcHour, dayKey)
    ensures AllDistinct(pools) && forall p :: p in pools ==> fresh(p) && !p.isSwept
  {
    hide SwingPools, SessionsOf;
    pools := ExtractSwings(candles, lookbackBars);
    ghost var swings := DataOf(pools);
    var sessions := CollectSessions(candles, utcHour, dayKey);
    SessionsCoherent(candles, utcHour, dayKey, |candles|);
    for k := 0 to |sessions.days|
      invariant DataOf(pools) == swings + SessionPools(sessions, k)
      invariant AllDistinct(pools) && forall p :: p in pools ==> fresh(p) && !p.isSwept
    {
      var day := sessions.days[k];
      var val := sessions.ranges[day];
      pools := Push(pools, AsiaHigh(day), BSL, val.high, val.time, val.index);
      pools := Push(pools, AsiaLow(day), SSL, val.low, val.time, val.index);
    }
    SortData(pools);
    SortKeepsObjects(pools);
    ghost var unsorted := pools;
    pools := SortBy(pools, PoolTime);
    forall p | p in pools ensures fresh(p) && !p.isSwept {
      SortMember(unsorted, p);
    }
  }
}
