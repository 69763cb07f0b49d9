/** The trade-ledger loop of scripts/forensic_sr_audit.ts: streak counters kept in one
    pass, against the maximal runs of losses in the ledger without its scratches. */
module LossStreaks {
  import opened Market
  import opened Ordering
  import Performance

  /** A ledger entry; an entry without a numeric R counts as zero R. */
  datatype LedgerTrade = LedgerTrade(realizedR: Option<real>, isWin: bool, isLoss: bool)

  function ROf(t: LedgerTrade): real { if t.realizedR.Some? then t.realizedR.value else 0.0 }

  predicate Wins(t: LedgerTrade) { t.isWin || ROf(t) > 0.05 }

  predicate Loses(t: LedgerTrade) { !Wins(t) && (t.isLoss || ROf(t) < -0.05) }

  /** The ledger without its scratches: true for a loss, false for a win. */
  function Decided(trades: seq<LedgerTrade>): seq<bool> {
    if trades == [] then []
    else
      var last := trades[|trades| - 1];
      Decided(trades[..|trades| - 1]) + if Wins(last) then [false] else if Loses(last) then [true] else []
  }

  // ---------------------------------------------------------------- loss runs

  /** s[a..b] is a run of losses that cannot be extended on either side. */
  ghost predicate IsLossRun(s: seq<bool>, a: int, b: int) {
    && 0 <= a < b <= |s|
    && (forall j :: a <= j < b ==> s[j])
    && (a == 0 || !s[a - 1])
    && (b == |s| || !s[b])
  }

  ghost predicate HasRunAt(s: seq<bool>, a: int, k: int) {
    exists b :: IsLossRun(s, a, b) && b - a >= k
  }

  /** The maximal loss runs of length at least k, each named by its first index. */
  ghost function RunsOfLength(s: seq<bool>, k: int): set<int> {
    set a | 0 <= a < |s| && HasRunAt(s, a, k)
  }

  ghost predicate IsLongestRun(s: seq<bool>, longest: int) {
    && (forall a, b :: IsLossRun(s, a, b) ==> b - a <= longest)
    && (longest == 0 || exists a, b :: IsLossRun(s, a, b) && b - a == longest)
  }

  /** Number of losses at the end. */
  function Trailing(s: seq<bool>): (n: nat)
    ensures n <= |s|
    ensures forall j :: |s| - n <= j < |s| ==> s[j]
    ensures n < |s| ==> !s[|s| - n - 1]
  {
    if s == [] || !s[|s| - 1] then 0 else Trailing(s[..|s| - 1]) + 1
  }

  /** k losses in a row from a, with no loss before them. */
  ghost predicate StartsRun(s: seq<bool>, a: int, k: int) {
    k >= 1 && 0 <= a && a + k <= |s| && (forall j :: a <= j < a + k ==> s[j]) && (a == 0 || !s[a - 1])
  }

  lemma {:induction false} RunEnd(s: seq<bool>, a: int, k: int) returns (b: int)
    requires StartsRun(s, a, k) && k >= 1
    ensures IsLossRun(s, a, b) && b - a >= k
  {
    b := a + k;
    while b < |s| && s[b]
      invariant a + k <= b <= |s| && forall j :: a <= j < b ==> s[j]
    {
      b := b + 1;
    }
  }

  lemma {:induction false} RunsAreStarts(s: seq<bool>, k: int, a: int)
    requires k >= 1
    ensures a in RunsOfLength(s, k) <==> StartsRun(s, a, k)
  {
    if StartsRun(s, a, k) {
      var b := RunEnd(s, a, k);
      assert HasRunAt(s, a, k);
    }
  }

  /** A win ends the current run and starts none. */
  lemma {:induction false} AppendWin(s: seq<bool>, k: int)
    requires k >= 1
    ensures RunsOfLength(s + [false], k) == RunsOfLength(s, k)
  {
    forall a ensures a in RunsOfLength(s + [false], k) <==> a in RunsOfLength(s, k) {
      RunsAreStarts(s, k, a);
      RunsAreStarts(s + [false], k, a);
      assert !(s + [false])[|s|];
      if StartsRun(s + [false], a, k) {
        assert a + k <= |s|;
        forall j | a <= j < a + k ensures s[j] {
          assert (s + [false])[j];
        }
        assert a == 0 || !(s + [false])[a - 1];
      }
    }
  }

  /** A loss makes a new run of length k exactly when k - 1 losses stood at the end. */
  lemma {:induction false} AppendLoss(s: seq<bool>, k: int)
    requires k >= 1
    ensures RunsOfLength(s + [true], k) == RunsOfLength(s, k) + (if Trailing(s) + 1 == k then {|s| + 1 - k} else {})
    ensures Trailing(s) + 1 == k ==> |s| + 1 - k !in RunsOfLength(s, k)
  {
    var more := s + [true];
    forall a ensures a in RunsOfLength(more, k) <==> a in RunsOfLength(s, k) || (Trailing(s) + 1 == k && a == |s| + 1 - k) {
      RunsAreStarts(s, k, a);
      RunsAreStarts(more, k, a);
      StartsAppendLoss(s, a, k);
    }
    RunsAreStarts(s, k, |s| + 1 - k);
  }

  lemma {:induction false} StartsAppendLoss(s: seq<bool>, a: int, k: int)
    requires k >= 1
    ensures StartsRun(s + [true], a, k) <==> StartsRun(s, a, k) || (Trailing(s) + 1 == k && a == |s| + 1 - k)
  {
    var more := s + [true];
    var n := Trailing(s);
    if StartsRun(more, a, k) && a + k <= |s| {
      forall j | a <= j < a + k ensures s[j] {
        assert more[j];
      }
      assert a == 0 || !more[a - 1];
    } else if StartsRun(more, a, k) {
      forall j | a <= j < |s| ensures s[j] {
        assert more[j];
      }
      assert a > 0 ==> !more[a - 1];
      assert a == |s| - n;
    }
  }

  lemma {:induction false} LongestAfterWin(s: seq<bool>, longest: nat)
    requires IsLongestRun(s, longest)
    ensures IsLongestRun(s + [false], longest)
  {
    var more := s + [false];
    assert !more[|s|];
    forall a, b | IsLossRun(more, a, b) ensures b - a <= longest {
      assert b <= |s|;
      forall j | a <= j < b ensures s[j] {
        assert more[j];
      }
      assert a == 0 || !more[a - 1];
      assert b < |s| ==> !more[b];
      assert IsLossRun(s, a, b);
    }
    if longest > 0 {
      var a, b :| IsLossRun(s, a, b) && b - a == longest;
      assert IsLossRun(more, a, b);
    }
  }

  lemma {:induction false} LongestAfterLoss(s: seq<bool>, longest: nat)
    requires IsLongestRun(s, longest)
    ensures var now := Trailing(s) + 1; IsLongestRun(s + [true], if now > longest then now else longest)
  {
    var more, n := s + [true], Trailing(s);
    var best := if n + 1 > longest then n + 1 else longest;
    forall a, b | IsLossRun(more, a, b) ensures b - a <= best {
      forall j | a <= j < b && j < |s| ensures s[j] {
        assert more[j];
      }
      assert a == 0 || !more[a - 1];
      if b <= |s| {
        assert !more[b];
        assert b < |s|;
        assert IsLossRun(s, a, b);
      } else {
        assert a > 0 ==> a <= |s| && !s[a - 1];
        assert a >= |s| - n;
      }
    }
    if n + 1 > longest {
      assert IsLossRun(more, |s| - n, |s| + 1);
    } else {
      var a, b :| IsLossRun(s, a, b) && b - a == longest;
      assert b == |s| ==> b - a <= n;
      assert IsLossRun(more, a, b);
    }
  }

  // -------------------------------------------------------------------- counts

  function CountWins(trades: seq<LedgerTrade>): nat {
    if trades == [] then 0 else CountWins(trades[..|trades| - 1]) + if Wins(trades[|trades| - 1]) then 1 else 0
  }

  function CountLosses(trades: seq<LedgerTrade>): nat {
    if trades == [] then 0 else CountLosses(trades[..|trades| - 1]) + if Loses(trades[|trades| - 1]) then 1 else 0
  }

  function LedgerRs(trades: seq<LedgerTrade>): (rs: seq<real>)
    ensures |rs| == |trades|
  {
    seq(|trades|, i requires 0 <= i < |trades| => ROf(trades[i]))
  }

  // -------------------------------------------------- the ledger by its fields

  /** A win: marked as one, or above 0.05 R. */
  ghost predicate IsWon(t: LedgerTrade) { t.isWin || (t.realizedR.Some? && t.realizedR.value > 0.05) }

  /** A loss: no win, and marked as a loss or below -0.05 R. */
  ghost predicate IsLost(t: LedgerTrade) { !IsWon(t) && (t.isLoss || (t.realizedR.Some? && t.realizedR.value < -0.05)) }

  ghost function Places(trades: seq<LedgerTrade>, n: nat, p: LedgerTrade -> bool): set<int>
    requires n <= |trades|
  {
    set i | 0 <= i < n && p(trades[i])
  }

  lemma {:induction false} OneMorePlace(trades: seq<LedgerTrade>, n: nat, p: LedgerTrade -> bool)
    requires n < |trades|
    ensures |Places(trades, n + 1, p)| == |Places(trades, n, p)| + if p(trades[n]) then 1 else 0
    ensures Places(trades, 0, p) == {}
  {
    assert Places(trades, n + 1, p) == if p(trades[n]) then Places(trades, n, p) + {n} else Places(trades, n, p);
  }

  /** The win and loss counts are the numbers of trades that are wins and losses by their
      fields, and the curve sums the R of all trades, a missing one as zero. */
  lemma {:induction false} LedgerByFields(trades: seq<LedgerTrade>, n: nat)
    requires n <= |trades|
    ensures CountWins(trades[..n]) == |Places(trades, n, IsWon)| && CountLosses(trades[..n]) == |Places(trades, n, IsLost)|
    ensures forall i :: 0 <= i < |trades| ==>
      LedgerRs(trades)[i] == match trades[i].realizedR case Some(r) => r case None => 0.0
  {
    hide Places;
    if n > 0 {
      LedgerByFields(trades, n - 1);
      assert trades[..n][..n - 1] == trades[..n - 1];
      OneMorePlace(trades, n - 1, IsWon);
      OneMorePlace(trades, n - 1, IsLost);
    } else {
      assert Places(trades, 0, IsWon) == {} && Places(trades, 0, IsLost) == {} by { NoPlaces(trades); }
    }
  }

  lemma {:induction false} NoPlaces(trades: seq<LedgerTrade>)
    ensures Places(trades, 0, IsWon) == {} && Places(trades, 0, IsLost) == {}
  {
  }

  /** The decided ledger lists the wins and losses at increasing places, all of them. */
  ghost predicate ListsDecided(trades: seq<LedgerTrade>, decided: seq<bool>, at: seq<int>) {
    && |at| == |decided| && Spaced(at, 1)
    && (forall k :: 0 <= k < |at| ==> 0 <= at[k] < |trades| && (if decided[k] then IsLost(trades[at[k]]) else IsWon(trades[at[k]])))
    && (forall i :: 0 <= i < |trades| && (IsWon(trades[i]) || IsLost(trades[i])) ==> i in at)
  }

  lemma {:induction false} DecidedSkips(front: seq<LedgerTrade>, t: LedgerTrade, decided: seq<bool>, at: seq<int>)
    requires ListsDecided(front, decided, at) && !IsWon(t) && !IsLost(t)
    ensures ListsDecided(front + [t], decided, at)
  {
    hide IsWon, IsLost;
  }

  lemma {:induction false} DecidedTakes(front: seq<LedgerTrade>, t: LedgerTrade, decided: seq<bool>, at: seq<int>)
    requires ListsDecided(front, decided, at) && (IsWon(t) || IsLost(t))
    ensures ListsDecided(front + [t], decided + [IsLost(t)], at + [|front|])
  {
    hide IsLost;
    var trades, all := front + [t], at + [|front|];
    forall i | 0 <= i < |trades| && (IsWon(trades[i]) || IsLost(trades[i])) ensures i in all {
      if i < |front| {
        assert i in at;
      }
    }
    forall k | 0 <= k < |all|
      ensures 0 <= all[k] < |trades| && if (decided + [IsLost(t)])[k] then IsLost(trades[all[k]]) else IsWon(trades[all[k]])
    {
      if k < |at| {
        assert trades[at[k]] == front[at[k]];
      }
    }
  }

  /** The decided ledger, which the streaks are counted on, is the sequence of the trades
      that are wins or losses by their fields. */
  lemma {:induction false} DecidedByFields(trades: seq<LedgerTrade>) returns (at: seq<int>)
    ensures ListsDecided(trades, Decided(trades), at)
  {
    hide ListsDecided;
    if trades == [] {
      at := [];
      NothingDecided();
    } else {
      var n := |trades| - 1;
      at := DecidedByFields(trades[..n]);
      assert trades == trades[..n] + [trades[n]];
      if IsWon(trades[n]) || IsLost(trades[n]) {
        DecidedTakes(trades[..n], trades[n], Decided(trades[..n]), at);
        at := at + [n];
      } else {
        DecidedSkips(trades[..n], trades[n], Decided(trades[..n]), at);
        assert Decided(trades) == Decided(trades[..n]);
      }
    }
  }

  lemma {:induction false} NothingDecided()
    ensures ListsDecided([], [], [])
  {
  }

  datatype Streaks = Streaks(current: nat, longest: nat, streak3Plus: nat, streak4Plus: nat)

  ghost predicate StreaksHold(k: Streaks, s: seq<bool>) {
    && k.current == Trailing(s)
    && IsLongestRun(s, k.longest)
    && k.streak3Plus == |RunsOfLength(s, 3)|
    && k.streak4Plus == |RunsOfLength(s, 4)|
  }

  /** The streak counters on a loss. */
  method CountLoss(k: Streaks, ghost s: seq<bool>) returns (k': Streaks)
    requires StreaksHold(k, s)
    ensures StreaksHold(k', s + [true])
  {
    hide IsLongestRun, RunsOfLength;
    AppendLoss(s, 3);
    AppendLoss(s, 4);
    LongestAfterLoss(s, k.longest);
    assert (s + [true])[..|s|] == s;
    var currentStreak := k.current + 1;
    k' := k.(current := currentStreak);
    if currentStreak > k.longest { k' := k'.(longest := currentStreak); }
    if currentStreak == 3 { k' := k'.(streak3Plus := k.streak3Plus + 1); }
    if currentStreak == 4 { k' := k'.(streak4Plus := k.streak4Plus + 1); }
  }

  method CountWin(k: Streaks, ghost s: seq<bool>) returns (k': Streaks)
    requires StreaksHold(k, s)
    ensures StreaksHold(k', s + [false])
  {
    hide IsLongestRun, RunsOfLength;
    AppendWin(s, 3);
    AppendWin(s, 4);
    LongestAfterWin(s, k.longest);
    k' := k.(current := 0);
  }

  lemma {:induction false} NoStreaksYet()
    ensures StreaksHold(Streaks(0, 0, 0, 0), [])
  {
    assert RunsOfLength([], 3) == {} && RunsOfLength([], 4) == {};
  }

  lemma {:induction false} LedgerStep(trades: seq<LedgerTrade>, i: nat)
    requires i < |trades|
    ensures CountWins(trades[..i + 1]) == CountWins(trades[..i]) + (if Wins(trades[i]) then 1 else 0)
    ensures CountLosses(trades[..i + 1]) == CountLosses(trades[..i]) + (if Loses(trades[i]) then 1 else 0)
    ensures Wins(trades[i]) ==> Decided(trades[..i + 1]) == Decided(trades[..i]) + [false]
    ensures Loses(trades[i]) ==> Decided(trades[..i + 1]) == Decided(trades[..i]) + [true]
    ensures !Wins(trades[i]) && !Loses(trades[i]) ==> Decided(trades[..i + 1]) == Decided(trades[..i])
  {
    assert trades[..i + 1][..i] == trades[..i];
  }

  /** The ledger loop. After deleting scratches, the streak counters are the numbers of
      maximal loss runs of length at least 3 and 4, `maxStreak` is the longest run, and
      the drawdown is the largest fall of the curve. */
  method AuditLedger(trades: seq<LedgerTrade>)
    returns (wins: nat, losses: nat, scratches: nat, curve: Performance.Curve, maxStreak: nat, streak3Plus: nat, streak4Plus: nat)
    ensures wins + losses + scratches == |trades|
    ensures wins == CountWins(trades) && losses == CountLosses(trades)
    ensures Performance.CurveHolds(curve, LedgerRs(trades), |trades|)
    ensures IsLongestRun(Decided(trades), maxStreak)
    ensures streak3Plus == |RunsOfLength(Decided(trades), 3)| && streak4Plus == |RunsOfLength(Decided(trades), 4)|
  {
    hide IsLongestRun, RunsOfLength, Performance.CurveHolds;
    wins, losses, scratches := 0, 0, 0;
    curve := Performance.Curve(0.0, 0.0, 0.0);
    var streaks := Streaks(0, 0, 0, 0);
    ghost var rs := LedgerRs(trades);
    CurveStarts(rs);
    NoStreaksYet();
    for i := 0 to |trades|
      invariant wins + losses + scratches == i && wins == CountWins(trades[..i]) && losses == CountLosses(trades[..i])
      invariant Performance.CurveHolds(curve, rs, i)
      invariant StreaksHold(streaks, Decided(trades[..i]))
    {
      var t := trades[i];
      var r := if t.realizedR.Some? then t.realizedR.value else 0.0;
      LedgerStep(trades, i);
      curve := Performance.StepCurve(curve, r, rs, i);
      if t.isWin || r > 0.05 {
        wins := wins + 1;
        streaks := CountWin(streaks, Decided(trades[..i]));
      } else if t.isLoss || r < -0.05 {
        losses := losses + 1;
        streaks := CountLoss(streaks, Decided(trades[..i]));
      } else {
        scratches := scratches + 1;
      }
    }
    assert trades[..|trades|] == trades;
    maxStreak, streak3Plus, streak4Plus := streaks.longest, streaks.streak3Plus, streaks.streak4Plus;
  }

  lemma {:induction false} CurveStarts(rs: seq<real>)
    ensures Performance.CurveHolds(Performance.Curve(0.0, 0.0, 0.0), rs, 0)
  {
    Performance.DrawdownStart(rs);
  }
}
