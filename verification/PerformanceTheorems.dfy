/** Conservation over months, drawdowns of months against the whole, and the laws of the
    compounding account. */
module PerformanceTheorems {
  import opened Ordering
  import opened Performance

  // ----------------------------------------------------------- counts by fields

  /** A win earns more than 0.05 R and is a full win by name or by at least 1 R. */
  ghost predicate IsWin(t: Trade) {
    t.realizedR > 0.05 && (t.realizedR >= 1.0 || t.outcome == "FULL_TP2_WIN" || t.outcome == "FULL_TP3_WIN")
  }

  ghost predicate IsLoss(t: Trade) { t.realizedR < -0.05 }

  ghost predicate IsScratch(t: Trade) { !IsWin(t) && !IsLoss(t) }

  ghost function Places(trades: seq<Trade>, n: nat, p: Trade -> bool): set<int>
    requires n <= |trades|
  {
    set i | 0 <= i < n && p(trades[i])
  }

  lemma {:induction false} OneMorePlace(trades: seq<Trade>, n: nat, p: Trade -> bool)
    requires n < |trades|
    ensures |Places(trades, n + 1, p)| == |Places(trades, n, p)| + if p(trades[n]) then 1 else 0
  {
    assert Places(trades, n + 1, p) == if p(trades[n]) then Places(trades, n, p) + {n} else Places(trades, n, p);
  }

  /** The three counters are the numbers of wins, losses and scratches by R and outcome. */
  lemma {:induction false} CountsByFields(trades: seq<Trade>, n: nat)
    requires n <= |trades|
    ensures Count(trades[..n], Win) == |Places(trades, n, IsWin)|
    ensures Count(trades[..n], Loss) == |Places(trades, n, IsLoss)|
    ensures Count(trades[..n], Scratch) == |Places(trades, n, IsScratch)|
  {
    if n > 0 {
      CountsByFields(trades, n - 1);
      assert trades[..n][..n - 1] == trades[..n - 1];
      OneMorePlace(trades, n - 1, IsWin);
      OneMorePlace(trades, n - 1, IsLoss);
      OneMorePlace(trades, n - 1, IsScratch);
    } else {
      assert Places(trades, 0, IsWin) == {} && Places(trades, 0, IsLoss) == {} && Places(trades, 0, IsScratch) == {};
    }
  }

  function FallsIn(monthKey: int -> int, month: int): Trade -> bool { (t: Trade) => monthKey(t.timestamp) == month }

  lemma {:induction false} InMonthIsKeep(trades: seq<Trade>, monthKey: int -> int, month: int)
    ensures InMonth(trades, monthKey, month) == Keep(trades, FallsIn(monthKey, month))
  {
    if trades != [] {
      var n := |trades| - 1;
      InMonthIsKeep(trades[..n], monthKey, month);
      assert trades == trades[..n] + [trades[n]];
      KeepConcat(trades[..n], [trades[n]], FallsIn(monthKey, month));
      KeepOne(trades[n], FallsIn(monthKey, month));
    }
  }

  /** A month's record is made from exactly its own trades, in their order. */
  lemma {:induction false} MonthByFields(trades: seq<Trade>, monthKey: int -> int, month: int) returns (at: seq<int>)
    ensures IsSelection(InMonth(trades, monthKey, month), trades, FallsIn(monthKey, month), at)
  {
    InMonthIsKeep(trades, monthKey, month);
    at := KeepIsSelection(trades, FallsIn(monthKey, month));
  }

  // ------------------------------------------------------- months sum to totals

  /** Trades and net R over the first n months of the record. */
  function SumTrades(m: Monthly, n: nat): nat
    requires n <= |m.months| && forall k :: k in m.months ==> k in m.stats
  {
    if n == 0 then 0 else SumTrades(m, n - 1) + m.stats[m.months[n - 1]].totalTrades
  }

  function SumNetR(m: Monthly, n: nat): real
    requires n <= |m.months| && forall k :: k in m.months ==> k in m.stats
  {
    if n == 0 then 0.0 else SumNetR(m, n - 1) + m.stats[m.months[n - 1]].netR
  }

  function CountIn(months: seq<int>, trades: seq<Trade>, monthKey: int -> int): nat {
    if months == [] then 0
    else CountIn(months[..|months| - 1], trades, monthKey) + |InMonth(trades, monthKey, months[|months| - 1])|
  }

  function NetIn(months: seq<int>, trades: seq<Trade>, monthKey: int -> int): real {
    if months == [] then 0.0
    else NetIn(months[..|months| - 1], trades, monthKey) + Total(Rs(InMonth(trades, monthKey, months[|months| - 1])))
  }

  /** One more trade adds to exactly one of the months. */
  lemma {:induction false} OneTradeOneMonth(months: seq<int>, trades: seq<Trade>, monthKey: int -> int, t: Trade)
    requires AllDistinct(months)
    ensures var hit := monthKey(t.timestamp) in months;
      && CountIn(months, trades + [t], monthKey) == CountIn(months, trades, monthKey) + (if hit then 1 else 0)
      && NetIn(months, trades + [t], monthKey) == NetIn(months, trades, monthKey) + (if hit then t.realizedR else 0.0)
  {
    if months != [] {
      var front, last := months[..|months| - 1], months[|months| - 1];
      OneTradeOneMonth(front, trades, monthKey, t);
      assert months == front + [last];
      assert (trades + [t])[..|trades|] == trades;
      var mine := InMonth(trades, monthKey, last);
      if monthKey(t.timestamp) == last {
        assert last !in front;
        assert InMonth(trades + [t], monthKey, last) == mine + [t];
        assert Rs(mine + [t])[..|mine|] == Rs(mine);
      } else {
        assert InMonth(trades + [t], monthKey, last) == mine;
      }
    }
  }

  lemma {:induction false} MonthsCover(months: seq<int>, trades: seq<Trade>, monthKey: int -> int)
    requires AllDistinct(months) && forall t :: t in trades ==> monthKey(t.timestamp) in months
    ensures CountIn(months, trades, monthKey) == |trades| && NetIn(months, trades, monthKey) == Total(Rs(trades))
  {
    if trades == [] {
      NothingCounted(months, monthKey);
    } else {
      var front, t := trades[..|trades| - 1], trades[|trades| - 1];
      assert trades == front + [t];
      MonthsCover(months, front, monthKey);
      OneTradeOneMonth(months, front, monthKey, t);
      assert Rs(trades)[..|front|] == Rs(front);
    }
  }

  lemma {:induction false} NothingCounted(months: seq<int>, monthKey: int -> int)
    ensures CountIn(months, [], monthKey) == 0 && NetIn(months, [], monthKey) == 0.0
  {
    if months != [] {
      NothingCounted(months[..|months| - 1], monthKey);
    }
  }

  lemma {:induction false} InMonthMember(trades: seq<Trade>, monthKey: int -> int, month: int, t: Trade)
    ensures t in InMonth(trades, monthKey, month) <==> t in trades && monthKey(t.timestamp) == month
  {
    if trades != [] {
      InMonthMember(trades[..|trades| - 1], monthKey, month, t);
      assert trades == trades[..|trades| - 1] + [trades[|trades| - 1]];
    }
  }

  lemma {:induction false} SumsAreCounts(m: Monthly, trades: seq<Trade>, monthKey: int -> int, n: nat)
    requires BucketsHold(m, trades, monthKey) && n <= |m.months|
    ensures SumTrades(m, n) == CountIn(m.months[..n], trades, monthKey)
    ensures SumNetR(m, n) == NetIn(m.months[..n], trades, monthKey)
  {
    hide InMonth, Total, Count, Rs;
    if n > 0 {
      SumsAreCounts(m, trades, monthKey, n - 1);
      assert m.months[..n][..n - 1] == m.months[..n - 1];
      var k := m.months[n - 1];
      assert k in m.months && k in m.stats && CountsMonth(m.stats[k], InMonth(trades, monthKey, k));
    }
  }

  /** The months of a report account for every trade and every R, once each. */
  lemma {:induction false} MonthsConserve(a: Accounts, trades: seq<Trade>, monthKey: int -> int)
    requires AccountsStand(a, trades, monthKey)
    ensures SumTrades(a.monthly, |a.monthly.months|) == a.totalTrades
    ensures SumNetR(a.monthly, |a.monthly.months|) == a.curve.netR
    ensures a.tally.wins + a.tally.losses + a.tally.scratches == a.totalTrades
    ensures forall k :: k in a.monthly.stats ==>
      a.monthly.stats[k].wins + a.monthly.stats[k].losses + a.monthly.stats[k].scratches == a.monthly.stats[k].totalTrades
  {
    hide IsMaxDrawdown, IsPeak, AccountHolds, VerdictOf;
    var m := a.monthly;
    SumsAreCounts(m, trades, monthKey, |m.months|);
    assert m.months[..|m.months|] == m.months;
    forall t | t in trades ensures monthKey(t.timestamp) in m.months {
      InMonthMember(trades, monthKey, monthKey(t.timestamp), t);
      assert monthKey(t.timestamp) in m.stats;
    }
    MonthsCover(m.months, trades, monthKey);
    VerdictsPartition(trades);
    assert Rs(trades)[..|trades|] == Rs(trades);
    forall k | k in m.stats
      ensures m.stats[k].wins + m.stats[k].losses + m.stats[k].scratches == m.stats[k].totalTrades
    {
      VerdictsPartition(InMonth(trades, monthKey, k));
    }
  }

  // ------------------------------------------------- a month against the whole

  function KeyAt(trades: seq<Trade>, monthKey: int -> int, i: int): int
    requires 0 <= i < |trades|
  {
    monthKey(trades[i].timestamp)
  }

  /** No trade of another month stands between two trades of one month. */
  ghost predicate Uninterrupted(trades: seq<Trade>, monthKey: int -> int) {
    forall a, b, c :: 0 <= a < b < c < |trades| && KeyAt(trades, monthKey, a) == KeyAt(trades, monthKey, c)
      ==> KeyAt(trades, monthKey, b) == KeyAt(trades, monthKey, a)
  }

  /** The same trading times, with any results. */
  ghost predicate SameTimes(trades: seq<Trade>, other: seq<Trade>) {
    |trades| == |other| && forall i :: 0 <= i < |trades| ==> other[i].timestamp == trades[i].timestamp
  }

  ghost predicate IsMonthDrawdown(trades: seq<Trade>, monthKey: int -> int, month: int, dd: real) {
    var mine := InMonth(trades, monthKey, month);
    IsMaxDrawdown(Rs(mine), |mine|, dd)
  }

  /** Whatever the results of trades at these times, no month falls further than the whole curve. */
  ghost predicate MonthsStayWithin(trades: seq<Trade>, monthKey: int -> int) {
    forall other, month, global, monthly {:trigger SameTimes(trades, other), IsMaxDrawdown(Rs(other), |other|, global), IsMonthDrawdown(other, monthKey, month, monthly)} ::
      && SameTimes(trades, other) && IsMaxDrawdown(Rs(other), |other|, global)
      && IsMonthDrawdown(other, monthKey, month, monthly)
      ==> monthly <= global
  }

  lemma {:induction false} RunOfMonth(trades: seq<Trade>, monthKey: int -> int, month: int, a: nat, b: nat)
    requires a <= b <= |trades|
    requires forall i :: 0 <= i < |trades| ==> (monthKey(trades[i].timestamp) == month <==> a <= i < b)
    ensures InMonth(trades, monthKey, month) == trades[a..b]
  {
    if trades != [] {
      var n := |trades| - 1;
      var front := trades[..n];
      assert forall i :: 0 <= i < n ==> front[i] == trades[i];
      assert monthKey(trades[n].timestamp) == month <==> a <= n < b;
      if b == |trades| && a < b {
        RunOfMonth(front, monthKey, month, a, b - 1);
        assert trades[a..b] == front[a..b - 1] + [trades[n]];
      } else if b == |trades| {
        RunOfMonth(front, monthKey, month, n, n);
        assert monthKey(trades[n].timestamp) != month;
      } else {
        RunOfMonth(front, monthKey, month, a, b);
        assert trades[a..b] == front[a..b];
      }
    }
  }

  /** Uninterrupted, a month's trades are a stretch of the list. */
  lemma {:induction false} MonthIsRun(trades: seq<Trade>, monthKey: int -> int, month: int) returns (a: nat, b: nat)
    requires Uninterrupted(trades, monthKey)
    ensures a <= b <= |trades| && InMonth(trades, monthKey, month) == trades[a..b]
  {
    a := 0;
    while a < |trades| && monthKey(trades[a].timestamp) != month
      invariant a <= |trades| && forall i :: 0 <= i < a ==> monthKey(trades[i].timestamp) != month
    {
      a := a + 1;
    }
    b := |trades|;
    while b > a && monthKey(trades[b - 1].timestamp) != month
      invariant a <= b <= |trades| && forall i :: b <= i < |trades| ==> monthKey(trades[i].timestamp) != month
    {
      b := b - 1;
    }
    forall i | a <= i < b ensures monthKey(trades[i].timestamp) == month {
      assert KeyAt(trades, monthKey, a) == month && KeyAt(trades, monthKey, b - 1) == month;
      assert a < i < b - 1 ==> KeyAt(trades, monthKey, i) == month;
    }
    RunOfMonth(trades, monthKey, month, a, b);
  }

  lemma {:induction false} TotalOfSlice(rs: seq<real>, a: nat, i: nat)
    requires a + i <= |rs|
    ensures Total(rs[a..a + i]) == Cum(rs, a + i) - Cum(rs, a)
  {
    if i > 0 {
      TotalOfSlice(rs, a, i - 1);
      assert rs[a..a + i][..i - 1] == rs[a..a + i - 1];
      assert rs[..a + i][..a + i - 1] == rs[..a + i - 1];
    }
  }

  /** A stretch of the curve is the curve, shifted. */
  lemma {:induction false} CumOfSlice(rs: seq<real>, a: nat, b: nat, i: nat)
    requires a <= b <= |rs| && i <= b - a
    ensures Cum(rs[a..b], i) == Cum(rs, a + i) - Cum(rs, a)
  {
    TotalOfSlice(rs, a, i);
    assert rs[a..b][..i] == rs[a..a + i];
  }

  lemma {:induction false} SliceDrawdown(rs: seq<real>, a: nat, b: nat, global: real, part: real)
    requires a <= b <= |rs| && IsMaxDrawdown(rs, |rs|, global) && IsMaxDrawdown(rs[a..b], b - a, part)
    ensures part <= global
  {
    hide Cum;
    var i, j :| 0 <= i <= j <= b - a && Cum(rs[a..b], i) - Cum(rs[a..b], j) == part;
    CumOfSlice(rs, a, b, i);
    CumOfSlice(rs, a, b, j);
    assert Cum(rs, a + i) - Cum(rs, a + j) == part;
  }

  lemma {:induction false} UninterruptedMonth(trades: seq<Trade>, monthKey: int -> int, month: int, global: real, monthly: real)
    requires Uninterrupted(trades, monthKey)
    requires IsMaxDrawdown(Rs(trades), |trades|, global) && IsMonthDrawdown(trades, monthKey, month, monthly)
    ensures monthly <= global
  {
    hide IsMaxDrawdown, Uninterrupted;
    var a, b := MonthIsRun(trades, monthKey, month);
    assert Rs(InMonth(trades, monthKey, month)) == Rs(trades)[a..b];
    SliceDrawdown(Rs(trades), a, b, global, monthly);
  }

  /** Results that win between two losses of another month, and nothing else. */
  function SplitLosses(trades: seq<Trade>, a: nat, b: nat, c: nat): (other: seq<Trade>)
    ensures |other| == |trades|
    ensures forall i :: 0 <= i < |trades| ==> other[i].timestamp == trades[i].timestamp
    ensures forall i :: 0 <= i < |trades| ==>
      other[i].realizedR == if i == a || i == c then -1.0 else if i == b then 1.0 else 0.0
  {
    seq(|trades|, i requires 0 <= i < |trades| =>
      trades[i].(realizedR := if i == a || i == c then -1.0 else if i == b then 1.0 else 0.0))
  }

  lemma {:induction false} SplitCurve(trades: seq<Trade>, a: nat, b: nat, c: nat, n: nat)
    requires a < b < c < |trades| && n <= |trades|
    ensures Cum(Rs(SplitLosses(trades, a, b, c)), n) == if a < n <= b || c < n then -1.0 else 0.0
  {
    var rs := Rs(SplitLosses(trades, a, b, c));
    if n == 0 {
      assert rs[..0] == [];
    } else {
      SplitCurve(trades, a, b, c, n - 1);
      PrefixStep(rs, n - 1);
    }
  }

  lemma {:induction false} SplitGlobal(trades: seq<Trade>, a: nat, b: nat, c: nat)
    requires a < b < c < |trades|
    ensures IsMaxDrawdown(Rs(SplitLosses(trades, a, b, c)), |trades|, 1.0)
  {
    hide Cum;
    var rs := Rs(SplitLosses(trades, a, b, c));
    forall n: nat | n <= |trades| ensures Cum(rs, n) == if a < n <= b || c < n then -1.0 else 0.0 {
      SplitCurve(trades, a, b, c, n);
    }
    assert Cum(rs, 0) - Cum(rs, a + 1) == 1.0;
  }

  lemma {:induction false} NetOfNone(monthKey: int -> int, month: int)
    ensures Total(Rs(InMonth([], monthKey, month))) == 0.0
  {
    assert Rs([]) == [];
  }

  lemma {:induction false} NetOfOneMore(trades: seq<Trade>, t: Trade)
    ensures Total(Rs(trades + [t])) == Total(Rs(trades)) + t.realizedR
  {
    assert Rs(trades + [t])[..|trades|] == Rs(trades);
  }

  /** The month of both losses sees nothing of the win. */
  lemma {:induction false} SplitMonth(trades: seq<Trade>, monthKey: int -> int, a: nat, b: nat, c: nat, n: nat)
    requires a < b < c < |trades| && n <= |trades|
    requires KeyAt(trades, monthKey, a) == KeyAt(trades, monthKey, c) != KeyAt(trades, monthKey, b)
    ensures Total(Rs(InMonth(SplitLosses(trades, a, b, c)[..n], monthKey, KeyAt(trades, monthKey, a))))
            == (if a < n then -1.0 else 0.0) + (if c < n then -1.0 else 0.0)
  {
    hide Rs, Total, InMonth, SplitLosses;
    var other, month := SplitLosses(trades, a, b, c), KeyAt(trades, monthKey, a);
    if n == 0 {
      assert other[..0] == [];
      NetOfNone(monthKey, month);
    } else {
      SplitMonth(trades, monthKey, a, b, c, n - 1);
      TradePrefixStep(other, monthKey, n - 1);
      assert KeyAt(other, monthKey, n - 1) == KeyAt(trades, monthKey, n - 1);
      NetOfOneMore(InMonth(other[..n - 1], monthKey, month), other[n - 1]);
    }
  }

  lemma {:induction false} MaxDrawdownExists(rs: seq<real>, n: nat) returns (peak: real, dd: real)
    requires n <= |rs|
    ensures IsPeak(rs, n, peak) && IsMaxDrawdown(rs, n, dd)
  {
    hide IsPeak, IsMaxDrawdown, Cum;
    if n == 0 {
      DrawdownStart(rs);
      peak, dd := 0.0, 0.0;
    } else {
      peak, dd := MaxDrawdownExists(rs, n - 1);
      DrawdownStep(rs, n - 1, peak, dd);
      var c := Cum(rs, n);
      peak := if c > peak then c else peak;
      dd := if peak - c > dd then peak - c else dd;
    }
  }

  /** An interrupted month can fall twice as far as the whole curve. */
  lemma {:induction false} InterruptedMonthFallsFurther(trades: seq<Trade>, monthKey: int -> int, a: nat, b: nat, c: nat)
    returns (other: seq<Trade>, monthly: real)
    requires a < b < c < |trades|
    requires KeyAt(trades, monthKey, a) == KeyAt(trades, monthKey, c) != KeyAt(trades, monthKey, b)
    ensures SameTimes(trades, other) && IsMaxDrawdown(Rs(other), |other|, 1.0)
    ensures IsMonthDrawdown(other, monthKey, KeyAt(trades, monthKey, a), monthly) && monthly >= 2.0
  {
    other := SplitLosses(trades, a, b, c);
    SplitGlobal(trades, a, b, c);
    SplitMonth(trades, monthKey, a, b, c, |trades|);
    assert other[..|trades|] == other;
    var mine := InMonth(other, monthKey, KeyAt(trades, monthKey, a));
    var peak;
    peak, monthly := MaxDrawdownExists(Rs(mine), |mine|);
    assert Rs(mine)[..|mine|] == Rs(mine) && Rs(mine)[..0] == [];
    assert Cum(Rs(mine), 0) - Cum(Rs(mine), |mine|) == 2.0;
  }

  lemma {:induction false} SameTimesSameKeys(trades: seq<Trade>, other: seq<Trade>, monthKey: int -> int)
    requires SameTimes(trades, other) && Uninterrupted(trades, monthKey)
    ensures Uninterrupted(other, monthKey)
  {
    assert forall i :: 0 <= i < |trades| ==> KeyAt(other, monthKey, i) == KeyAt(trades, monthKey, i);
  }

  /** For any trading times and calendar: no month can fall further than the whole curve,
      whatever the results, exactly when no month is interrupted in the list. */
  lemma {:induction false} MonthsStayWithinIff(trades: seq<Trade>, monthKey: int -> int)
    ensures MonthsStayWithin(trades, monthKey) <==> Uninterrupted(trades, monthKey)
  {
    hide IsMaxDrawdown, IsMonthDrawdown;
    if Uninterrupted(trades, monthKey) {
      forall other, month, global, monthly |
        && SameTimes(trades, other) && IsMaxDrawdown(Rs(other), |other|, global)
        && IsMonthDrawdown(other, monthKey, month, monthly)
        ensures monthly <= global
      {
        SameTimesSameKeys(trades, other, monthKey);
        UninterruptedMonth(other, monthKey, month, global, monthly);
      }
    } else {
      var a, b, c :| 0 <= a < b < c < |trades| && KeyAt(trades, monthKey, a) == KeyAt(trades, monthKey, c)
                     && KeyAt(trades, monthKey, b) != KeyAt(trades, monthKey, a);
      var other, monthly := InterruptedMonthFallsFurther(trades, monthKey, a, b, c);
    }
  }

  ghost predicate Chronological(trades: seq<Trade>) {
    forall i, j :: 0 <= i <= j < |trades| ==> trades[i].timestamp <= trades[j].timestamp
  }

  /** A calendar: two times in a month have every time between them in it. */
  ghost predicate Convex(monthKey: int -> int) {
    forall s: int, t: int, u: int {:trigger monthKey(s), monthKey(t), monthKey(u)} ::
      s <= t <= u && monthKey(s) == monthKey(u) ==> monthKey(t) == monthKey(s)
  }

  /** Chronological trades, which is what the adapters return, interrupt no calendar month. */
  lemma {:induction false} MonthDrawdownAtMostGlobal(trades: seq<Trade>, monthKey: int -> int)
    requires Chronological(trades) && Convex(monthKey)
    ensures MonthsStayWithin(trades, monthKey)
  {
    hide MonthsStayWithin;
    forall a, b, c | 0 <= a < b < c < |trades| && KeyAt(trades, monthKey, a) == KeyAt(trades, monthKey, c)
      ensures KeyAt(trades, monthKey, b) == KeyAt(trades, monthKey, a)
    {
      assert trades[a].timestamp <= trades[b].timestamp <= trades[c].timestamp;
    }
    MonthsStayWithinIff(trades, monthKey);
  }

  /** In a report on a list without interrupted months, each month falls at most as far as the whole,
      and each month has the counts, R and drawdown of exactly its own trades. */
  lemma {:induction false} ReportedMonthsStayWithin(a: Accounts, trades: seq<Trade>, monthKey: int -> int, month: int)
    requires AccountsStand(a, trades, monthKey) && Uninterrupted(trades, monthKey) && month in a.monthly.stats
    ensures a.monthly.stats[month].maxDdInMonth <= a.curve.maxDrawdownR
    ensures IsMonthDrawdown(trades, monthKey, month, a.monthly.stats[month].maxDdInMonth)
    ensures CountsMonth(a.monthly.stats[month], InMonth(trades, monthKey, month))
  {
    hide IsMaxDrawdown, Uninterrupted, InMonth, CountsMonth, AccountHolds, TallyHolds;
    UninterruptedMonth(trades, monthKey, month, a.curve.maxDrawdownR, a.monthly.stats[month].maxDdInMonth);
  }

  // ------------------------------------------------------ laws of compounding

  lemma {:induction false} Snoc(rs: seq<real>, x: real)
    ensures Growth(rs + [x]) == Growth(rs) * (1.0 + x / 50.0) && Total(rs + [x]) == Total(rs) + x
  {
    assert (rs + [x])[..|rs|] == rs;
  }

  lemma {:induction false} Exchange(g: real, p: real, q: real)
    ensures g * p * q == g * q * p
  {
  }

  lemma {:induction false} GrowthWithout(a: seq<real>, x: real, b: seq<real>)
    ensures Growth(a + [x] + b) == Growth(a + b) * (1.0 + x / 50.0)
    ensures Total(a + [x] + b) == Total(a + b) + x
  {
    hide Growth, Total;
    if b == [] {
      assert a + [x] + b == a + [x] && a + b == a;
      Snoc(a, x);
    } else {
      var front, y := b[..|b| - 1], b[|b| - 1];
      GrowthWithout(a, x, front);
      assert a + [x] + b == a + [x] + front + [y] && a + b == a + front + [y];
      Snoc(a + [x] + front, y);
      Snoc(a + front, y);
      Exchange(Growth(a + front), 1.0 + x / 50.0, 1.0 + y / 50.0);
    }
  }

  /** Equal bags of trades: the last of one occurs in the other, and the rest are equal bags. */
  lemma {:induction false} TakeOut(front: seq<real>, x: real, other: seq<real>) returns (a: seq<real>, b: seq<real>)
    requires multiset(front + [x]) == multiset(other)
    ensures other == a + [x] + b && multiset(front) == multiset(a + b)
  {
    assert x in multiset(front + [x]);
    assert x in other;
    var k :| 0 <= k < |other| && other[k] == x;
    a, b := other[..k], other[k + 1..];
    assert other == a + [x] + b;
    assert multiset(a + b) == multiset(other) - multiset{x};
    assert multiset(front) == multiset(front + [x]) - multiset{x};
  }

  lemma {:induction false} BagsDecide(rs: seq<real>, other: seq<real>)
    requires multiset(rs) == multiset(other)
    ensures Growth(rs) == Growth(other) && Total(rs) == Total(other)
  {
    hide Growth, Total;
    if rs == [] {
      assert |multiset(other)| == |other|;
    } else {
      var front, x := rs[..|rs| - 1], rs[|rs| - 1];
      assert rs == front + [x] && rs == front + [x] + [] && front == front + [];
      GrowthWithout(front, x, []);
      var a, b := TakeOut(front, x, other);
      BagsDecide(front, a + b);
      GrowthWithout(a, x, b);
    }
  }

  /** The order of the trades matters neither to the final account nor to the net R. */
  lemma {:induction false} FinalEquityIgnoresOrder(rs: seq<real>, other: seq<real>)
    requires multiset(rs) == multiset(other)
    ensures |rs| == |other| && Equity(rs, |rs|) == Equity(other, |other|) && Total(rs) == Total(other)
  {
    BagsDecide(rs, other);
    assert |multiset(rs)| == |rs| && |multiset(other)| == |other|;
    assert rs[..|rs|] == rs && other[..|other|] == other;
  }

  function Pow98(n: nat): real { if n == 0 then 1.0 else Pow98(n - 1) * 0.98 }

  lemma {:induction false} Pow98Falls(m: nat, n: nat)
    requires m <= n
    ensures 0.0 < Pow98(n) <= Pow98(m) <= 1.0
  {
    if n > 0 {
      if m == n {
        Pow98Falls(m - 1, n - 1);
      } else {
        Pow98Falls(m, n - 1);
      }
    }
  }

  ghost predicate NoWorseThanStop(rs: seq<real>) { forall i :: 0 <= i < |rs| ==> rs[i] >= -1.0 }

  /** From point i to point j the account keeps at least 0.98 of itself per trade. */
  lemma {:induction false} EquityFloor(rs: seq<real>, i: nat, j: nat)
    requires NoWorseThanStop(rs) && i <= j <= |rs|
    ensures Equity(rs, i) > 0.0
    ensures Equity(rs, j) >= Equity(rs, i) * Pow98(j - i)
    decreases j
  {
    if i < j {
      EquityFloor(rs, i, j - 1);
      Pow98Falls(j - 1 - i, j - 1 - i);
      Positive(Equity(rs, i), Pow98(j - 1 - i));
      GainFloor(rs, j - 1, Equity(rs, i) * Pow98(j - 1 - i));
    } else if i > 0 {
      EquityFloor(rs, i - 1, i - 1);
      GainFloor(rs, i - 1, Equity(rs, i - 1));
    } else {
      assert rs[..0] == [];
    }
  }

  lemma {:induction false} Positive(x: real, y: real)
    requires x > 0.0 && y > 0.0
    ensures x * y > 0.0
  {
  }

  lemma {:induction false} CancelPositive(x: real, y: real)
    requires y > 0.0 && x * y >= 0.0
    ensures x >= 0.0
  {
  }

  lemma {:induction false} GainFloor(rs: seq<real>, n: nat, floor: real)
    requires n < |rs| && rs[n] >= -1.0 && Equity(rs, n) >= floor > 0.0
    ensures Equity(rs, n + 1) >= floor * 0.98 > 0.0
  {
    CompoundStep(rs, n);
    var e, r := Equity(rs, n), rs[n];
    assert e * 0.02 * r + e * 0.02 == (e * 0.02) * (r + 1.0) >= 0.0;
  }

  /** If no trade loses more than 1R, n trades leave at least 10000 * 0.98^n, and the
      compounded drawdown is between 0 and 100 * (1 - 0.98^n) percent. */
  lemma {:induction false} CompoundingBounds(rs: seq<real>, dd: real)
    requires NoWorseThanStop(rs) && IsMaxPctDrawdown(rs, |rs|, dd)
    ensures Equity(rs, |rs|) >= 10000.0 * Pow98(|rs|)
    ensures 0.0 <= dd <= 100.0 * (1.0 - Pow98(|rs|))
  {
    var n := |rs|;
    assert rs[..0] == [];
    EquityFloor(rs, 0, n);
    assert IsHighBefore(rs, 0, 0) && Drop(rs, 0, 0) == 0.0;
    var i, j :| 0 <= i <= j <= n && IsHighBefore(rs, i, j) && Drop(rs, i, j) == dd;
    DropCeiling(rs, i, j, n);
  }

  lemma {:induction false} DropCeiling(rs: seq<real>, i: nat, j: nat, n: nat)
    requires NoWorseThanStop(rs) && i <= j <= n <= |rs|
    ensures Drop(rs, i, j) <= 100.0 * (1.0 - Pow98(n))
  {
    EquityFloor(rs, i, j);
    Pow98Falls(j - i, n);
    var e, f, p := Equity(rs, i), Equity(rs, j), Pow98(n);
    assert f >= e * p by { assert e * Pow98(j - i) >= e * p; }
    QuotientCeiling(e, f, p);
  }

  lemma {:induction false} QuotientCeiling(e: real, f: real, p: real)
    requires e > 0.0 && f >= e * p
    ensures (e - f) / e <= 1.0 - p
  {
    var q := (e - f) / e;
    assert q * e == e - f;
    assert (1.0 - p - q) * e == e - p * e - q * e;
    CancelPositive(1.0 - p - q, e);
  }
}
