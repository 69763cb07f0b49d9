/** The single-position audit of scripts/compare-1y-scans.ts: executable setups sorted by
    entry time, and one loop that compares each trade with the one before it only. */
module ConcurrencyAudit {
  import opened Market
  import opened Ordering

  /** Times are zero where the scan left them out. */
  datatype ScanSetup = ScanSetup(
    retestTime: int,
    reclaimTime: int,
    exitTime: int,
    isRetested: bool,
    isWaveChampion: Option<bool>,
    stackingDiscountApplied: bool
  )

  function EntryTime(t: ScanSetup): int { if t.retestTime != 0 then t.retestTime else t.reclaimTime }

  /** A trade without an exit is taken to last 15 minutes. */
  function ExitTime(t: ScanSetup): int { if t.exitTime != 0 then t.exitTime else EntryTime(t) + 15 * 60 * 1000 }

  predicate IsExecutable(t: ScanSetup) {
    t.isRetested && t.isWaveChampion != Some(false) && !t.stackingDiscountApplied
  }

  function Executable(setups: seq<ScanSetup>): seq<ScanSetup> { Keep(setups, IsExecutable) }

  // -------------------------------------------------------------- audit counters

  ghost function EntryTimes(trades: seq<ScanSetup>): set<int> { set t | t in trades :: EntryTime(t) }

  /** Trade i enters before its predecessor has left. */
  predicate EntersEarly(trades: seq<ScanSetup>, i: int)
    requires 0 <= i < |trades|
  {
    EntryTime(trades[i]) < if i == 0 then 0 else ExitTime(trades[i - 1])
  }

  ghost function Overlaps(trades: seq<ScanSetup>, n: nat): set<int>
    requires n <= |trades|
  {
    set i | 0 <= i < n && EntersEarly(trades, i)
  }

  lemma {:induction false} EntryTimesStep(trades: seq<ScanSetup>, t: ScanSetup)
    ensures EntryTimes(trades + [t]) == EntryTimes(trades) + {EntryTime(t)}
  {
    assert forall x :: x in trades + [t] <==> x in trades || x == t;
  }

  lemma {:induction false} OverlapsStep(trades: seq<ScanSetup>, n: nat)
    requires n < |trades|
    ensures Overlaps(trades, n + 1) == if EntersEarly(trades, n) then Overlaps(trades, n) + {n} else Overlaps(trades, n)
    ensures n !in Overlaps(trades, n)
  {
  }

  lemma {:induction false} NothingSeen(trades: seq<ScanSetup>)
    ensures EntryTimes(trades[..0]) == {} && Overlaps(trades, 0) == {}
  {
  }

  /** The loop: the duplicate counter is the number of trades less the number of distinct
      entries, the overlap counter the number of trades that enter too early. */
  method AuditTrades(trades: seq<ScanSetup>) returns (duplicateTimestampCount: nat, overlappingPositionCount: nat)
    ensures duplicateTimestampCount == |trades| - |EntryTimes(trades)|
    ensures overlappingPositionCount == |Overlaps(trades, |trades|)|
  {
    hide EntryTimes, Overlaps, EntryTime, ExitTime;
    duplicateTimestampCount, overlappingPositionCount := 0, 0;
    var timestampSet: set<int> := {};
    var lastExitTime := 0;
    NothingSeen(trades);
    for i := 0 to |trades|
      invariant timestampSet == EntryTimes(trades[..i])
      invariant duplicateTimestampCount == i - |timestampSet|
      invariant overlappingPositionCount == |Overlaps(trades, i)|
      invariant lastExitTime == if i == 0 then 0 else ExitTime(trades[i - 1])
    {
      EntryTimesStep(trades[..i], trades[i]);
      assert trades[..i + 1] == trades[..i] + [trades[i]];
      OverlapsStep(trades, i);
      var t := trades[i];
      var entryTime, exitTime := EntryTime(t), ExitTime(t);
      if entryTime in timestampSet {
        assert timestampSet + {entryTime} == timestampSet;
        duplicateTimestampCount := duplicateTimestampCount + 1;
      }
      timestampSet := timestampSet + {entryTime};
      if entryTime < lastExitTime {
        overlappingPositionCount := overlappingPositionCount + 1;
      }
      lastExitTime := exitTime;
    }
    assert trades[..|trades|] == trades;
  }

  // -------------------------------------------------------------- what it proves

  /** Two trades that a single position could have held: different entries, and the
      later entry not before the earlier trade's exit. */
  ghost predicate Apart(a: ScanSetup, b: ScanSetup) {
    && EntryTime(a) != EntryTime(b)
    && (EntryTime(a) < EntryTime(b) ==> ExitTime(a) <= EntryTime(b))
    && (EntryTime(b) < EntryTime(a) ==> ExitTime(b) <= EntryTime(a))
  }

  ghost predicate AllApart(trades: seq<ScanSetup>) {
    forall i, j :: 0 <= i < j < |trades| ==> Apart(trades[i], trades[j])
  }

  ghost predicate DistinctEntries(trades: seq<ScanSetup>) {
    forall i, j :: 0 <= i < j < |trades| ==> EntryTime(trades[i]) != EntryTime(trades[j])
  }

  lemma {:induction false} NoDuplicatesIff(trades: seq<ScanSetup>)
    ensures |EntryTimes(trades)| <= |trades|
    ensures |EntryTimes(trades)| == |trades| <==> DistinctEntries(trades)
  {
    hide EntryTime;
    if trades != [] {
      var n := |trades| - 1;
      var front, last := trades[..n], trades[n];
      NoDuplicatesIff(front);
      assert trades == front + [last];
      EntryTimesStep(front, last);
      DistinctStep(front, last);
    }
  }

  lemma {:induction false} DistinctStep(front: seq<ScanSetup>, last: ScanSetup)
    ensures DistinctEntries(front + [last]) <==> DistinctEntries(front) && EntryTime(last) !in EntryTimes(front)
  {
    hide EntryTime;
    var trades, n := front + [last], |front|;
    if DistinctEntries(trades) {
      forall i, j | 0 <= i < j < n ensures EntryTime(front[i]) != EntryTime(front[j]) {
        assert trades[i] == front[i] && trades[j] == front[j];
      }
      forall t | t in front ensures EntryTime(t) != EntryTime(last) {
        var i :| 0 <= i < n && front[i] == t;
        assert trades[i] == t && trades[n] == last;
      }
    } else if DistinctEntries(front) {
      var i, j :| 0 <= i < j < |trades| && EntryTime(trades[i]) == EntryTime(trades[j]);
      assert j == n;
      assert front[i] in front;
    }
  }

  ghost predicate NonNegative(trades: seq<ScanSetup>) { forall t :: t in trades ==> EntryTime(t) >= 0 }

  /** No early entry, in entry order: every trade starts after all earlier ones have left. */
  lemma {:induction false} NeighboursSuffice(trades: seq<ScanSetup>, i: int, j: int)
    requires Ascending(trades, EntryTime) && Overlaps(trades, |trades|) == {}
    requires 0 <= i < j < |trades|
    ensures ExitTime(trades[i]) <= EntryTime(trades[j])
  {
    hide EntryTime, ExitTime;
    assert i + 1 !in Overlaps(trades, |trades|);
    assert i + 1 < j ==> EntryTime(trades[i + 1]) <= EntryTime(trades[j]);
  }

  lemma {:induction false} FirstIsLeast(trades: seq<ScanSetup>)
    requires Ascending(trades, EntryTime) && Overlaps(trades, |trades|) == {}
    ensures NonNegative(trades)
  {
    hide EntryTime, ExitTime;
    forall t | t in trades ensures EntryTime(t) >= 0 {
      var i :| 0 <= i < |trades| && trades[i] == t;
      assert 0 !in Overlaps(trades, |trades|);
      assert i > 0 ==> EntryTime(trades[0]) <= EntryTime(trades[i]);
    }
  }

  lemma {:induction false} ApartHasNoOverlap(trades: seq<ScanSetup>)
    requires Ascending(trades, EntryTime) && AllApart(trades) && NonNegative(trades)
    ensures Overlaps(trades, |trades|) == {}
  {
    hide EntryTime, ExitTime;
    forall i | 0 <= i < |trades| ensures !EntersEarly(trades, i) {
      assert trades[i] in trades;
      if i > 0 {
        assert Apart(trades[i - 1], trades[i]);
        assert EntryTime(trades[i - 1]) <= EntryTime(trades[i]);
      }
    }
  }

  /** On a list in entry order both counters are zero exactly when every two trades are
      apart and no entry is negative, although only neighbours are compared. */
  lemma {:induction false} AuditIsExact(trades: seq<ScanSetup>)
    requires Ascending(trades, EntryTime)
    ensures |EntryTimes(trades)| == |trades| && Overlaps(trades, |trades|) == {} <==> AllApart(trades) && NonNegative(trades)
  {
    hide EntryTime, ExitTime;
    NoDuplicatesIff(trades);
    if DistinctEntries(trades) && Overlaps(trades, |trades|) == {} {
      FirstIsLeast(trades);
      forall i, j | 0 <= i < j < |trades| ensures Apart(trades[i], trades[j]) {
        NeighboursSuffice(trades, i, j);
        assert EntryTime(trades[i]) <= EntryTime(trades[j]);
      }
    }
    if AllApart(trades) && NonNegative(trades) {
      ApartHasNoOverlap(trades);
      forall i, j | 0 <= i < j < |trades| ensures EntryTime(trades[i]) != EntryTime(trades[j]) {
        assert Apart(trades[i], trades[j]);
      }
    }
  }

  // -------------------------------------------------- independence of the order

  ghost predicate ApartFromAll(x: ScanSetup, s: seq<ScanSetup>) { forall t :: t in s ==> Apart(x, t) }

  lemma {:induction false} ApartCons(x: ScanSetup, s: seq<ScanSetup>)
    ensures AllApart([x] + s) <==> AllApart(s) && ApartFromAll(x, s)
  {
    hide Apart;
    var more := [x] + s;
    if AllApart(more) {
      forall i, j | 0 <= i < j < |s| ensures Apart(s[i], s[j]) {
        assert Apart(more[i + 1], more[j + 1]);
      }
      forall t | t in s ensures Apart(x, t) {
        var i :| 0 <= i < |s| && s[i] == t;
        assert Apart(more[0], more[i + 1]);
      }
    }
    if AllApart(s) && ApartFromAll(x, s) {
      forall i, j | 0 <= i < j < |more| ensures Apart(more[i], more[j]) {
        if i == 0 {
          assert s[j - 1] in s;
        } else {
          assert Apart(s[i - 1], s[j - 1]);
        }
      }
    }
  }

  lemma {:induction false} SameMembers(a: seq<ScanSetup>, b: seq<ScanSetup>)
    requires multiset(a) == multiset(b)
    ensures forall t :: t in a <==> t in b
  {
    forall t ensures t in a <==> t in b {
      assert t in a <==> t in multiset(a);
    }
  }

  lemma {:induction false} ApartInsert(x: ScanSetup, s: seq<ScanSetup>)
    ensures AllApart(Insert(x, s, EntryTime)) <==> AllApart(s) && ApartFromAll(x, s)
  {
    hide AllApart;
    if s == [] || EntryTime(x) <= EntryTime(s[0]) {
      ApartCons(x, s);
    } else {
      var rest := Insert(x, s[1..], EntryTime);
      ApartInsert(x, s[1..]);
      ApartCons(s[0], rest);
      assert s == [s[0]] + s[1..];
      ApartCons(s[0], s[1..]);
      InsertMembers(x, s[1..], EntryTime);
      assert multiset([x] + s[1..]) == multiset{x} + multiset(s[1..]);
      SameMembers(rest, [x] + s[1..]);
      assert ApartFromAll(s[0], rest) <==> ApartFromAll(s[0], s[1..]) && Apart(s[0], x) by {
        assert x in rest;
      }
      assert ApartFromAll(x, s) <==> ApartFromAll(x, s[1..]) && Apart(x, s[0]);
    }
  }

  lemma {:induction false} ApartSort(s: seq<ScanSetup>)
    ensures AllApart(SortBy(s, EntryTime)) <==> AllApart(s)
  {
    hide AllApart, Apart;
    if s != [] {
      var sorted := SortBy(s[1..], EntryTime);
      ApartSort(s[1..]);
      ApartInsert(s[0], sorted);
      assert s == [s[0]] + s[1..];
      ApartCons(s[0], s[1..]);
      SortByCorrect(s[1..], EntryTime);
      SameMembers(sorted, s[1..]);
    }
  }

  // ------------------------------------------------- the verdict on the setups

  /** The setup is executed: retested, not ruled out as a wave champion, not discounted. */
  ghost predicate Trades(t: ScanSetup) {
    t.isRetested && !(t.isWaveChampion.Some? && !t.isWaveChampion.value) && !t.stackingDiscountApplied
  }

  /** One position can hold both: one enters strictly later, and not before the other's exit. */
  ghost predicate OneAtATime(a: ScanSetup, b: ScanSetup) {
    var inA, inB := if a.retestTime != 0 then a.retestTime else a.reclaimTime, if b.retestTime != 0 then b.retestTime else b.reclaimTime;
    var outA, outB := if a.exitTime != 0 then a.exitTime else inA + 900_000, if b.exitTime != 0 then b.exitTime else inB + 900_000;
    (inA < inB && outA <= inB) || (inB < inA && outB <= inA)
  }

  ghost predicate SinglePosition(setups: seq<ScanSetup>) {
    && (forall i, j :: 0 <= i < j < |setups| && Trades(setups[i]) && Trades(setups[j]) ==> OneAtATime(setups[i], setups[j]))
    && (forall i :: 0 <= i < |setups| && Trades(setups[i]) ==>
          0 <= if setups[i].retestTime != 0 then setups[i].retestTime else setups[i].reclaimTime)
  }

  lemma {:induction false} ApartIsOneAtATime(a: ScanSetup, b: ScanSetup)
    ensures Apart(a, b) <==> OneAtATime(a, b)
  {
  }

  lemma {:induction false} ChosenApart(setups: seq<ScanSetup>)
    ensures AllApart(Executable(setups)) <==>
      forall i, j :: 0 <= i < j < |setups| && Trades(setups[i]) && Trades(setups[j]) ==> OneAtATime(setups[i], setups[j])
  {
    hide Apart, OneAtATime, Keep;
    var chosen := Executable(setups);
    var at := KeepIsSelection(setups, IsExecutable);
    if AllApart(chosen) {
      forall i, j | 0 <= i < j < |setups| && Trades(setups[i]) && Trades(setups[j])
        ensures OneAtATime(setups[i], setups[j])
      {
        var k :| 0 <= k < |at| && at[k] == i;
        var l :| 0 <= l < |at| && at[l] == j;
        ApartIsOneAtATime(chosen[k], chosen[l]);
      }
    } else {
      var k, l :| 0 <= k < l < |chosen| && !Apart(chosen[k], chosen[l]);
      assert at[k] + 1 <= at[l];
      ApartIsOneAtATime(chosen[k], chosen[l]);
      assert Trades(setups[at[k]]) && Trades(setups[at[l]]) && !OneAtATime(setups[at[k]], setups[at[l]]);
    }
  }

  lemma {:induction false} ChosenEntries(setups: seq<ScanSetup>)
    ensures NonNegative(Executable(setups)) <==>
      forall i :: 0 <= i < |setups| && Trades(setups[i]) ==>
        0 <= if setups[i].retestTime != 0 then setups[i].retestTime else setups[i].reclaimTime
  {
    KeepAll(setups, IsExecutable);
    assert forall i :: 0 <= i < |setups| && Trades(setups[i]) ==> setups[i] in Executable(setups);
  }

  lemma {:induction false} ChosenStand(setups: seq<ScanSetup>)
    ensures AllApart(Executable(setups)) && NonNegative(Executable(setups)) <==> SinglePosition(setups)
  {
    hide AllApart, NonNegative, Executable, OneAtATime, Trades;
    ChosenApart(setups);
    ChosenEntries(setups);
  }

  /** The audit as `run` makes it. In whatever order the scan lists its setups, the audit
      passes exactly when a single position could have held all executed setups and none
      of them enters at a negative time. */
  method RunAudit(setups: seq<ScanSetup>) returns (passed: bool)
    ensures passed <==> SinglePosition(setups)
  {
    hide AllApart, EntryTime, EntryTimes, Overlaps, SinglePosition, Keep, NonNegative;
    var chosen := Executable(setups);
    var trades := SortBy(chosen, EntryTime);
    var duplicates, overlaps := AuditTrades(trades);
    passed := duplicates == 0 && overlaps == 0;
    SortByCorrect(chosen, EntryTime);
    AuditIsExact(trades);
    ApartSort(chosen);
    SameMembers(trades, chosen);
    SameNonNegative(trades, chosen);
    ChosenStand(setups);
  }

  lemma {:induction false} SameNonNegative(a: seq<ScanSetup>, b: seq<ScanSetup>)
    requires forall t :: t in a <==> t in b
    ensures NonNegative(a) <==> NonNegative(b)
  {
  }
}
