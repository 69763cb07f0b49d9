/** One-pass performance accounting: `analyzeTrades` of scripts/run_1y_quant_study.ts and
    `calculateMaxDrawdownR` of scripts/compare-1y-scans.ts, against all-pairs and product
    definitions. */
module Performance {
  import opened Ordering

  datatype Trade = Trade(timestamp: int, realizedR: real, outcome: string)

  // ------------------------------------------------------------- what is meant

  function Total(rs: seq<real>): real {
    if rs == [] then 0.0 else Total(rs[..|rs| - 1]) + rs[|rs| - 1]
  }

  function Rs(trades: seq<Trade>): (rs: seq<real>)
    ensures |rs| == |trades|
    ensures forall i :: 0 <= i < |trades| ==> rs[i] == trades[i].realizedR
  {
    seq(|trades|, i requires 0 <= i < |trades| => trades[i].realizedR)
  }

  /** Cumulative R after i trades. */
  function Cum(rs: seq<real>, i: int): real
    requires 0 <= i <= |rs|
  {
    Total(rs[..i])
  }

  /** The largest fall from any point of the curve to any later one, over the first n trades. */
  ghost predicate IsMaxDrawdown(rs: seq<real>, n: int, dd: real)
    requires 0 <= n <= |rs|
  {
    && (forall i, j {:trigger Cum(rs, i), Cum(rs, j)} :: 0 <= i <= j <= n ==> Cum(rs, i) - Cum(rs, j) <= dd)
    && (exists i, j {:trigger Cum(rs, i), Cum(rs, j)} :: 0 <= i <= j <= n && Cum(rs, i) - Cum(rs, j) == dd)
  }

  /** The highest point of the curve, its start included. */
  ghost predicate IsPeak(rs: seq<real>, n: int, peak: real)
    requires 0 <= n <= |rs|
  {
    && (forall i {:trigger Cum(rs, i)} :: 0 <= i <= n ==> Cum(rs, i) <= peak)
    && (exists i {:trigger Cum(rs, i)} :: 0 <= i <= n && Cum(rs, i) == peak)
  }

  /** Growth of an account that risks 2% of itself on every trade. */
  function Growth(rs: seq<real>): real {
    if rs == [] then 1.0 else Growth(rs[..|rs| - 1]) * (1.0 + rs[|rs| - 1] / 50.0)
  }

  /** Account value after i trades. */
  function Equity(rs: seq<real>, i: int): real
    requires 0 <= i <= |rs|
  {
    10000.0 * Growth(rs[..i])
  }

  /** Point i is the highest of the account curve up to point j. */
  ghost predicate IsHighBefore(rs: seq<real>, i: int, j: int)
    requires 0 <= i <= j <= |rs|
  {
    forall k {:trigger Equity(rs, k)} :: 0 <= k <= j ==> Equity(rs, k) <= Equity(rs, i)
  }

  /** Percentage lost from point i to point j. */
  ghost function Drop(rs: seq<real>, i: int, j: int): real
    requires 0 <= i <= j <= |rs|
  {
    if Equity(rs, i) == 0.0 then 0.0 else (Equity(rs, i) - Equity(rs, j)) / Equity(rs, i) * 100.0
  }

  /** The largest percentage lost from a running high, over the first n trades. */
  ghost predicate IsMaxPctDrawdown(rs: seq<real>, n: int, dd: real)
    requires 0 <= n <= |rs|
  {
    && (forall i, j {:trigger Drop(rs, i, j)} :: 0 <= i <= j <= n && IsHighBefore(rs, i, j) ==> Drop(rs, i, j) <= dd)
    && (exists i, j {:trigger Drop(rs, i, j)} :: 0 <= i <= j <= n && IsHighBefore(rs, i, j) && Drop(rs, i, j) == dd)
  }

  datatype Verdict = Win | Loss | Scratch

  function VerdictOf(t: Trade): Verdict {
    if t.realizedR > 0.05 then
      if t.outcome == "FULL_TP2_WIN" || t.outcome == "FULL_TP3_WIN" || t.realizedR >= 1.0 then Win else Scratch
    else if t.realizedR < -0.05 then Loss
    else Scratch
  }

  function Count(trades: seq<Trade>, v: Verdict): nat {
    if trades == [] then 0
    else Count(trades[..|trades| - 1], v) + if VerdictOf(trades[|trades| - 1]) == v then 1 else 0
  }

  lemma {:induction false} VerdictsPartition(trades: seq<Trade>)
    ensures Count(trades, Win) + Count(trades, Loss) + Count(trades, Scratch) == |trades|
  {
    if trades != [] {
      VerdictsPartition(trades[..|trades| - 1]);
    }
  }

  /** The trades of one month. */
  function InMonth(trades: seq<Trade>, monthKey: int -> int, month: int): seq<Trade> {
    if trades == [] then []
    else
      var last := trades[|trades| - 1];
      InMonth(trades[..|trades| - 1], monthKey, month) + if monthKey(last.timestamp) == month then [last] else []
  }

  datatype MonthlyStat = MonthlyStat(totalTrades: nat, wins: nat, losses: nat, scratches: nat, netR: real, maxDdInMonth: real)

  ghost predicate CountsMonth(m: MonthlyStat, trades: seq<Trade>) {
    && m.totalTrades == |trades| && m.wins == Count(trades, Win) && m.losses == Count(trades, Loss)
    && m.scratches == Count(trades, Scratch) && m.netR == Total(Rs(trades))
  }

  /** Months are listed in the order in which they were first met. */
  datatype Monthly = Monthly(months: seq<int>, stats: map<int, MonthlyStat>)

  ghost predicate WellKeyed(m: Monthly) {
    && (forall k :: k in m.months <==> k in m.stats)
    && (forall i, j :: 0 <= i < j < |m.months| ==> m.months[i] != m.months[j])
  }

  // ----------------------------------------------------------------- prefixes

  lemma {:induction false} PrefixStep(rs: seq<real>, i: nat)
    requires i < |rs|
    ensures Cum(rs, i + 1) == Cum(rs, i) + rs[i]
    ensures Growth(rs[..i + 1]) == Growth(rs[..i]) * (1.0 + rs[i] / 50.0)
  {
    assert rs[..i + 1][..i] == rs[..i];
  }

  lemma {:induction false} TradePrefixStep(trades: seq<Trade>, monthKey: int -> int, i: nat)
    requires i < |trades|
    ensures forall v :: Count(trades[..i + 1], v) == Count(trades[..i], v) + if VerdictOf(trades[i]) == v then 1 else 0
    ensures forall month ::
      InMonth(trades[..i + 1], monthKey, month)
      == if monthKey(trades[i].timestamp) == month then InMonth(trades[..i], monthKey, month) + [trades[i]]
         else InMonth(trades[..i], monthKey, month)
  {
    assert trades[..i + 1][..i] == trades[..i];
  }

  lemma {:induction false} MonthGrows(m: MonthlyStat, trades: seq<Trade>, t: Trade, m': MonthlyStat)
    requires CountsMonth(m, trades)
    requires m'.totalTrades == m.totalTrades + 1 && m'.netR == m.netR + t.realizedR
    requires m'.wins == m.wins + if VerdictOf(t) == Win then 1 else 0
    requires m'.losses == m.losses + if VerdictOf(t) == Loss then 1 else 0
    requires m'.scratches == m.scratches + if VerdictOf(t) == Scratch then 1 else 0
    ensures CountsMonth(m', trades + [t])
  {
    var more := trades + [t];
    assert more[..|more| - 1] == trades;
    assert Rs(more)[..|more| - 1] == Rs(trades);
  }

  // ------------------------------------------------------------- drawdown loop

  lemma {:induction false} PeakStep(rs: seq<real>, n: nat, peak: real)
    requires n < |rs| && IsPeak(rs, n, peak)
    ensures IsPeak(rs, n + 1, if Cum(rs, n + 1) > peak then Cum(rs, n + 1) else peak)
  {
    hide Cum;
    var i :| 0 <= i <= n && Cum(rs, i) == peak;
    assert 0 <= i <= n + 1 && Cum(rs, i) == peak;
  }

  /** One step of the running peak and the running drawdown. */
  lemma {:induction false} DrawdownStep(rs: seq<real>, n: nat, peak: real, dd: real)
    requires n < |rs| && IsPeak(rs, n, peak) && IsMaxDrawdown(rs, n, dd)
    ensures var c := Cum(rs, n + 1);
      var peak' := if c > peak then c else peak;
      var dd' := if peak' - c > dd then peak' - c else dd;
      IsPeak(rs, n + 1, peak') && IsMaxDrawdown(rs, n + 1, dd')
  {
    hide Cum, IsPeak;
    PeakStep(rs, n, peak);
    var c := Cum(rs, n + 1);
    var peak' := if c > peak then c else peak;
    var h := PeakIndex(rs, n + 1, peak');
    var i, j :| 0 <= i <= j <= n && Cum(rs, i) - Cum(rs, j) == dd;
    assert Cum(rs, h) - Cum(rs, n + 1) == peak' - c && 0 <= i <= j <= n + 1;
    var dd' := if peak' - c > dd then peak' - c else dd;
    forall k, l | 0 <= k <= l <= n + 1 ensures Cum(rs, k) - Cum(rs, l) <= dd' {
      BelowPeak(rs, n + 1, peak', k);
      assert l <= n ==> Cum(rs, k) - Cum(rs, l) <= dd;
    }
  }

  lemma {:induction false} PeakIndex(rs: seq<real>, n: nat, peak: real) returns (h: int)
    requires n <= |rs| && IsPeak(rs, n, peak)
    ensures 0 <= h <= n && Cum(rs, h) == peak
  {
    h :| 0 <= h <= n && Cum(rs, h) == peak;
  }

  lemma {:induction false} BelowPeak(rs: seq<real>, n: nat, peak: real, i: int)
    requires n <= |rs| && IsPeak(rs, n, peak) && 0 <= i <= n
    ensures Cum(rs, i) <= peak
  {
  }

  lemma {:induction false} DrawdownStart(rs: seq<real>)
    ensures IsPeak(rs, 0, 0.0) && IsMaxDrawdown(rs, 0, 0.0) && Cum(rs, 0) == 0.0
  {
    assert Cum(rs, 0) == 0.0;
    assert Cum(rs, 0) - Cum(rs, 0) == 0.0;
  }

  /** scripts/compare-1y-scans.ts, and the same loop over one month's trades. */
  method CalculateMaxDrawdownR(trades: seq<Trade>) returns (maxDd: real, peakR: real)
    ensures IsMaxDrawdown(Rs(trades), |trades|, maxDd) && IsPeak(Rs(trades), |trades|, peakR)
  {
    hide IsMaxDrawdown, IsPeak, Cum;
    var cumulativeR := 0.0;
    peakR, maxDd := 0.0, 0.0;
    ghost var rs := Rs(trades);
    DrawdownStart(rs);
    for i := 0 to |trades|
      invariant cumulativeR == Cum(rs, i) && IsPeak(rs, i, peakR) && IsMaxDrawdown(rs, i, maxDd)
    {
      PrefixStep(rs, i);
      DrawdownStep(rs, i, peakR, maxDd);
      cumulativeR := cumulativeR + trades[i].realizedR;
      if cumulativeR > peakR {
        peakR := cumulativeR;
      }
      var currentDd := peakR - cumulativeR;
      if currentDd > maxDd {
        maxDd := currentDd;
      }
    }
  }

  // --------------------------------------------------------- compounding step

  lemma {:induction false} CompoundStep(rs: seq<real>, n: nat)
    requires n < |rs|
    ensures Equity(rs, n) + Equity(rs, n) * 0.02 * rs[n] == Equity(rs, n + 1)
  {
    PrefixStep(rs, n);
    var g, r := Growth(rs[..n]), rs[n];
    assert g * (1.0 + r / 50.0) == g + g * r / 50.0;
  }

  ghost predicate IsEquityPeak(rs: seq<real>, n: int, peak: real)
    requires 0 <= n <= |rs|
  {
    exists i {:trigger Equity(rs, i)} :: 0 <= i <= n && Equity(rs, i) == peak && IsHighBefore(rs, i, n)
  }

  lemma {:induction false} EquityPeakStep(rs: seq<real>, n: nat, peak: real)
    requires n < |rs| && IsEquityPeak(rs, n, peak)
    ensures var e := Equity(rs, n + 1); IsEquityPeak(rs, n + 1, if e > peak then e else peak)
  {
    var e := Equity(rs, n + 1);
    var i :| 0 <= i <= n && Equity(rs, i) == peak && IsHighBefore(rs, i, n);
    if e > peak {
      assert IsHighBefore(rs, n + 1, n + 1);
    } else {
      assert IsHighBefore(rs, i, n + 1);
    }
  }

  lemma {:induction false} PctDrawdownStep(rs: seq<real>, n: nat, peak: real, dd: real)
    requires n < |rs| && IsEquityPeak(rs, n + 1, peak) && peak != 0.0 && IsMaxPctDrawdown(rs, n, dd)
    ensures var now := (peak - Equity(rs, n + 1)) / peak * 100.0;
      IsMaxPctDrawdown(rs, n + 1, if now > dd then now else dd)
  {
    var now := (peak - Equity(rs, n + 1)) / peak * 100.0;
    var dd' := if now > dd then now else dd;
    var h :| 0 <= h <= n + 1 && Equity(rs, h) == peak && IsHighBefore(rs, h, n + 1);
    assert Drop(rs, h, n + 1) == now;
    forall i, j | 0 <= i <= j <= n + 1 && IsHighBefore(rs, i, j) ensures Drop(rs, i, j) <= dd' {
      if j == n + 1 {
        assert Equity(rs, i) <= Equity(rs, h) && Equity(rs, h) <= Equity(rs, i);
      }
    }
    if now <= dd {
      var i, j :| 0 <= i <= j <= n && IsHighBefore(rs, i, j) && Drop(rs, i, j) == dd;
      assert 0 <= i <= j <= n + 1 && Drop(rs, i, j) == dd';
    }
  }

  lemma {:induction false} CompoundStart(rs: seq<real>)
    ensures Equity(rs, 0) == 10000.0 && IsEquityPeak(rs, 0, 10000.0) && IsMaxPctDrawdown(rs, 0, 0.0)
  {
    assert rs[..0] == [];
    assert Equity(rs, 0) == 10000.0;
    assert IsHighBefore(rs, 0, 0);
    assert Drop(rs, 0, 0) == 0.0;
  }

  // -------------------------------------------------------------- the analyser

  /** The cumulative curve: netR and cumulativeR of the code, which are always equal. */
  datatype Curve = Curve(netR: real, peakR: real, maxDrawdownR: real)

  /** The compounding account. */
  datatype Account = Account(equity: real, peakEquity: real, maxDdPct: real)

  datatype Tally = Tally(wins: nat, losses: nat, scratches: nat)

  /** The accounts before they are rounded for display. */
  datatype Accounts = Accounts(totalTrades: nat, tally: Tally, curve: Curve, account: Account, monthly: Monthly)

  ghost predicate CurveHolds(c: Curve, rs: seq<real>, n: int)
    requires 0 <= n <= |rs|
  {
    c.netR == Cum(rs, n) && IsPeak(rs, n, c.peakR) && IsMaxDrawdown(rs, n, c.maxDrawdownR)
  }

  ghost predicate AccountHolds(a: Account, rs: seq<real>, n: int)
    requires 0 <= n <= |rs|
  {
    && a.equity == Equity(rs, n) && IsEquityPeak(rs, n, a.peakEquity) && a.peakEquity >= 10000.0
    && IsMaxPctDrawdown(rs, n, a.maxDdPct)
  }

  ghost predicate TallyHolds(t: Tally, trades: seq<Trade>) {
    t.wins == Count(trades, Win) && t.losses == Count(trades, Loss) && t.scratches == Count(trades, Scratch)
  }

  method StepCurve(c: Curve, r: real, ghost rs: seq<real>, ghost n: nat) returns (c': Curve)
    requires n < |rs| && rs[n] == r && CurveHolds(c, rs, n)
    ensures CurveHolds(c', rs, n + 1)
  {
    hide IsMaxDrawdown, IsPeak, Cum;
    PrefixStep(rs, n);
    DrawdownStep(rs, n, c.peakR, c.maxDrawdownR);
    var netR := c.netR + r;
    var peakR := c.peakR;
    if netR > peakR {
      peakR := netR;
    }
    var currentDd, maxDrawdownR := peakR - netR, c.maxDrawdownR;
    if currentDd > maxDrawdownR {
      maxDrawdownR := currentDd;
    }
    c' := Curve(netR, peakR, maxDrawdownR);
  }

  method StepAccount(a: Account, r: real, ghost rs: seq<real>, ghost n: nat) returns (a': Account)
    requires n < |rs| && rs[n] == r && AccountHolds(a, rs, n)
    ensures AccountHolds(a', rs, n + 1)
  {
    hide IsMaxPctDrawdown, IsEquityPeak, Equity;
    CompoundStep(rs, n);
    EquityPeakStep(rs, n, a.peakEquity);
    var tradeRiskDollar := a.equity * 0.02;
    var equity := a.equity + tradeRiskDollar * r;
    var peakEquity := a.peakEquity;
    if equity > peakEquity {
      peakEquity := equity;
    }
    PctDrawdownStep(rs, n, peakEquity, a.maxDdPct);
    var currentEqDd := (peakEquity - equity) / peakEquity * 100.0;
    var maxDdPct := a.maxDdPct;
    if currentEqDd > maxDdPct {
      maxDdPct := currentEqDd;
    }
    a' := Account(equity, peakEquity, maxDdPct);
  }

  method StepTally(t: Tally, trades: seq<Trade>, n: nat) returns (t': Tally)
    requires n < |trades| && TallyHolds(t, trades[..n])
    ensures TallyHolds(t', trades[..n + 1])
  {
    TradePrefixStep(trades, (_: int) => 0, n);
    var r, outcome := trades[n].realizedR, trades[n].outcome;
    t' := t;
    if r > 0.05 {
      if outcome == "FULL_TP2_WIN" || outcome == "FULL_TP3_WIN" || r >= 1.0 {
        t' := t.(wins := t.wins + 1);
      } else {
        t' := t.(scratches := t.scratches + 1);
      }
    } else if r < -0.05 {
      t' := t.(losses := t.losses + 1);
    } else {
      t' := t.(scratches := t.scratches + 1);
    }
  }

  // -------------------------------------------------------------- month buckets

  function MonthsOf(trades: seq<Trade>, monthKey: int -> int): (r: seq<int>)
    ensures |r| == |trades| && forall i :: 0 <= i < |trades| ==> r[i] == monthKey(trades[i].timestamp)
  {
    seq(|trades|, i requires 0 <= i < |trades| => monthKey(trades[i].timestamp))
  }

  /** A month has a record exactly when it has trades, and the record counts them; months
      are listed as they are first met. */
  ghost predicate BucketsHold(m: Monthly, trades: seq<Trade>, monthKey: int -> int) {
    && WellKeyed(m) && m.months == FirstSeen(MonthsOf(trades, monthKey))
    && (forall k :: k in m.stats <==> InMonth(trades, monthKey, k) != [])
    && (forall k :: k in m.stats ==> CountsMonth(m.stats[k], InMonth(trades, monthKey, k)))
  }

  /** One trade into its month's record. */
  method AddTrade(m: MonthlyStat, t: Trade, ghost trades: seq<Trade>) returns (m': MonthlyStat)
    requires CountsMonth(m, trades)
    ensures CountsMonth(m', trades + [t])
  {
    var r := t.realizedR;
    m' := m.(totalTrades := m.totalTrades + 1, netR := m.netR + r);
    if r > 0.05 {
      if t.outcome == "FULL_TP2_WIN" || t.outcome == "FULL_TP3_WIN" || r >= 1.0 {
        m' := m'.(wins := m.wins + 1);
      } else {
        m' := m'.(scratches := m.scratches + 1);
      }
    } else if r < -0.05 {
      m' := m'.(losses := m.losses + 1);
    } else {
      m' := m'.(scratches := m.scratches + 1);
    }
    MonthGrows(m, trades, t, m');
  }

  method Bucket(m: Monthly, trades: seq<Trade>, monthKey: int -> int, i: nat) returns (r: Monthly)
    requires i < |trades| && BucketsHold(m, trades[..i], monthKey)
    ensures BucketsHold(r, trades[..i + 1], monthKey)
  {
    hide CountsMonth, InMonth, FirstSeen;
    var t := trades[i];
    FirstSeenStep(MonthsOf(trades[..i], monthKey), monthKey(t.timestamp));
    assert MonthsOf(trades[..i + 1], monthKey) == MonthsOf(trades[..i], monthKey) + [monthKey(t.timestamp)];
    var key := monthKey(t.timestamp);
    ghost var earlier := InMonth(trades[..i], monthKey, key);
    TradePrefixStep(trades, monthKey, i);
    var stat := if key in m.stats then m.stats[key] else MonthlyStat(0, 0, 0, 0, 0.0, 0.0);
    if key !in m.stats {
      assert earlier == [];
      EmptyMonth();
    }
    stat := AddTrade(stat, t, earlier);
    r := Monthly(if key in m.stats then m.months else m.months + [key], m.stats[key := stat]);
    KeyAdded(m, r, key);
  }

  lemma {:induction false} EmptyMonth()
    ensures CountsMonth(MonthlyStat(0, 0, 0, 0, 0.0, 0.0), [])
  {
  }

  lemma {:induction false} KeyAdded(m: Monthly, r: Monthly, key: int)
    requires WellKeyed(m) && r.months == (if key in m.stats then m.months else m.months + [key])
    requires r.stats.Keys == m.stats.Keys + {key}
    ensures WellKeyed(r)
  {
    forall k ensures k in r.months <==> k in r.stats {
      assert k in r.months <==> k in m.months || k == key;
      assert k in r.stats <==> k in r.stats.Keys;
    }
  }

  method KeepTrades(trades: seq<Trade>, monthKey: int -> int, month: int) returns (kept: seq<Trade>)
    ensures kept == InMonth(trades, monthKey, month)
  {
    kept := [];
    for i := 0 to |trades|
      invariant kept == InMonth(trades[..i], monthKey, month)
    {
      TradePrefixStep(trades, monthKey, i);
      if monthKey(trades[i].timestamp) == month {
        kept := kept + [trades[i]];
      }
    }
    assert trades[..|trades|] == trades;
  }

  /** The finished record of a month says everything about the month's own trades. */
  ghost predicate MonthStands(m: MonthlyStat, trades: seq<Trade>) {
    CountsMonth(m, trades) && IsMaxDrawdown(Rs(trades), |trades|, m.maxDdInMonth)
  }

  method FinalizeMonths(start: Monthly, trades: seq<Trade>, monthKey: int -> int) returns (m: Monthly)
    requires BucketsHold(start, trades, monthKey)
    ensures BucketsHold(m, trades, monthKey)
    ensures forall k :: k in m.stats ==> MonthStands(m.stats[k], InMonth(trades, monthKey, k))
  {
    hide IsMaxDrawdown, InMonth;
    m := start;
    for n := 0 to |start.months|
      invariant m.months == start.months && BucketsHold(m, trades, monthKey)
      invariant forall i :: 0 <= i < n ==>
        start.months[i] in m.stats && MonthStands(m.stats[start.months[i]], InMonth(trades, monthKey, start.months[i]))
    {
      var mk := start.months[n];
      var mTrades := KeepTrades(trades, monthKey, mk);
      var mMaxDd, mPeak := CalculateMaxDrawdownR(mTrades);
      m := m.(stats := m.stats[mk := m.stats[mk].(maxDdInMonth := mMaxDd)]);
    }
  }

  // -------------------------------------------------------------- the analyser

  ghost predicate AccountsStand(a: Accounts, trades: seq<Trade>, monthKey: int -> int) {
    && a.totalTrades == |trades| && TallyHolds(a.tally, trades)
    && CurveHolds(a.curve, Rs(trades), |trades|) && AccountHolds(a.account, Rs(trades), |trades|)
    && BucketsHold(a.monthly, trades, monthKey)
    && (forall k :: k in a.monthly.stats ==> MonthStands(a.monthly.stats[k], InMonth(trades, monthKey, k)))
  }

  method AnalyzeTrades(trades: seq<Trade>, monthKey: int -> int) returns (a: Accounts)
    ensures AccountsStand(a, trades, monthKey)
  {
    hide CurveHolds, AccountHolds, TallyHolds, BucketsHold, MonthStands;
    ghost var rs := Rs(trades);
    var tally, curve, account, monthly := Tally(0, 0, 0), Curve(0.0, 0.0, 0.0), Account(10000.0, 10000.0, 0.0), Monthly([], map[]);
    NothingYet(trades, monthKey);
    for i := 0 to |trades|
      invariant TallyHolds(tally, trades[..i]) && CurveHolds(curve, rs, i) && AccountHolds(account, rs, i)
      invariant BucketsHold(monthly, trades[..i], monthKey)
    {
      curve := StepCurve(curve, trades[i].realizedR, rs, i);
      account := StepAccount(account, trades[i].realizedR, rs, i);
      tally := StepTally(tally, trades, i);
      monthly := Bucket(monthly, trades, monthKey, i);
    }
    assert trades[..|trades|] == trades;
    monthly := FinalizeMonths(monthly, trades, monthKey);
    a := Accounts(|trades|, tally, curve, account, monthly);
  }

  lemma {:induction false} NothingYet(trades: seq<Trade>, monthKey: int -> int)
    ensures TallyHolds(Tally(0, 0, 0), trades[..0]) && CurveHolds(Curve(0.0, 0.0, 0.0), Rs(trades), 0)
    ensures AccountHolds(Account(10000.0, 10000.0, 0.0), Rs(trades), 0)
    ensures BucketsHold(Monthly([], map[]), trades[..0], monthKey)
  {
    DrawdownStart(Rs(trades));
    CompoundStart(Rs(trades));
  }
}
