/** What the reconciliation means on the fields of setups and positions: who may be matched
    to whom, what each row says, and which setups get a row. */
module ReconcileTheorems {
  import opened Market
  import opened Ordering
  import opened Reconcile

  // -------------------------------------------------------------------- positions

  /** The completed trades leave one position for each id, the last of them with it. */
  lemma {:induction false} CompletedIsLast(trades: seq<Position>, n: nat, key: string)
    requires n <= |trades|
    ensures key in FoldCompleted(trades, n).entries <==> key != "" && exists i :: 0 <= i < n && trades[i].id == Is(key)
    ensures key in FoldCompleted(trades, n).entries ==>
      exists i :: && 0 <= i < n && trades[i].id == Is(key) && FoldCompleted(trades, n).entries[key] == trades[i]
                  && forall j :: i < j < n ==> trades[j].id != Is(key)
  {
    if n > 0 {
      CompletedIsLast(trades, n - 1, key);
    }
  }

  /** The ids that the first n completed trades carry, and then the first m events. */
  ghost function Mentions(trades: seq<Position>, events: seq<Option<Position>>, n: nat, m: nat): seq<string>
    requires n <= |trades| && m <= |events|
  {
    if m > 0 then
      Mentions(trades, events, n, m - 1)
      + match events[m - 1] case Some(p) => (if p.id.Is? && p.id.value != "" then [p.id.value] else []) case None => []
    else if n > 0 then
      Mentions(trades, events, n - 1, 0) + if trades[n - 1].id.Is? && trades[n - 1].id.value != "" then [trades[n - 1].id.value] else []
    else []
  }

  /** Positions are listed by the first mention of their id. */
  lemma {:induction false} KeysByFirstMention(trades: seq<Position>, events: seq<Option<Position>>, n: nat, m: nat)
    requires n <= |trades| && m <= |events|
    ensures FoldEvents(FoldCompleted(trades, n), events, m).keys == FirstSeen(Mentions(trades, events, n, m))
  {
    hide FirstSeen, Spread;
    FoldIsWellKeyed(trades, events, n, m);
    if m > 0 {
      KeysByFirstMention(trades, events, n, m - 1);
      FoldIsWellKeyed(trades, events, n, m - 1);
      MentionStep(Mentions(trades, events, n, m - 1), if events[m - 1].Some? then events[m - 1].value.id else Absent);
    } else if n > 0 {
      KeysByFirstMention(trades, events, n - 1, 0);
      FoldIsWellKeyed(trades, events, n - 1, 0);
      MentionStep(Mentions(trades, events, n - 1, 0), trades[n - 1].id);
    } else {
      assert FirstSeen<string>([]) == [] by { NothingSeen(); }
    }
  }

  lemma {:induction false} NothingSeen()
    ensures FirstSeen<string>([]) == []
  {
  }

  lemma {:induction false} MentionStep(before: seq<string>, id: Field<string>)
    ensures FirstSeen(before + if id.Is? && id.value != "" then [id.value] else [])
            == if id.Is? && id.value != "" && id.value !in FirstSeen(before) then FirstSeen(before) + [id.value] else FirstSeen(before)
  {
    hide FirstSeen;
    if id.Is? {
      FirstSeenStep(before, id.value);
    }
    assert before + [] == before;
  }

  /** A number in decimal digits, without leading zeros. */
  ghost function Digits(n: nat): (s: string)
    ensures s != [] && forall c :: c in s ==> IsDigit(c)
  {
    if n < 10 then ['0' + (n as char)] else Digits(n / 10) + ['0' + ((n % 10) as char)]
  }

  lemma {:induction false} DigitsSpell(n: nat)
    ensures NumberIn(Digits(n)) == n && (n > 0 ==> Digits(n)[0] != '0') && (n == 0 ==> Digits(n) == "0")
  {
    if n >= 10 {
      DigitsSpell(n / 10);
      var s := Digits(n);
      assert s[..|s| - 1] == Digits(n / 10);
    } else {
      assert Digits(n)[..0] == [];
    }
  }

  lemma {:induction false} SpellingIsUnique(k: string)
    requires k != [] && (forall c :: c in k ==> IsDigit(c)) && (k == "0" || k[0] != '0')
    ensures k == Digits(NumberIn(k))
  {
    var n, front, last := NumberIn(k), k[..|k| - 1], k[|k| - 1];
    assert k == front + [last] && IsDigit(last);
    if front == [] {
      assert NumberIn(front) == 0;
    } else {
      SpellingIsUnique(front);
      PositiveSpelling(front);
      assert n / 10 == NumberIn(front) && n % 10 == last as int - '0' as int;
    }
  }

  lemma {:induction false} PositiveSpelling(k: string)
    requires k != [] && (forall c :: c in k ==> IsDigit(c)) && k[0] != '0'
    ensures NumberIn(k) > 0
  {
    assert IsDigit(k[|k| - 1]) && IsDigit(k[0]);
    if |k| > 1 {
      PositiveSpelling(k[..|k| - 1]);
    } else {
      assert k[..0] == [];
    }
  }

  /** The keys that are listed first, by value, are the decimal spellings of the numbers
      below 2^32 - 1. */
  lemma {:induction false} IndexKeyIff(k: string)
    ensures IsIndexKey(k) <==> exists n: nat :: n < 4_294_967_295 && k == Digits(n)
    ensures IsIndexKey(k) ==> k == Digits(NumberIn(k))
  {
    if IsIndexKey(k) {
      SpellingIsUnique(k);
    }
    forall n: nat | n < 4_294_967_295 && k == Digits(n) ensures IsIndexKey(k) {
      DigitsSpell(n);
    }
  }

  /** Each field of an event replaces the field before it unless it is missing. */
  lemma {:induction false} SpreadIsFieldwise(a: Position, b: Position)
    ensures var r := Spread(a, b);
      && r.id == (if b.id.Absent? then a.id else b.id)
      && r.originZoneId == (if b.originZoneId.Absent? then a.originZoneId else b.originZoneId)
      && r.setupId == (if b.setupId.Absent? then a.setupId else b.setupId)
      && r.direction == (if b.direction.Absent? then a.direction else b.direction)
      && r.originAnchorLevel == (if b.originAnchorLevel.Absent? then a.originAnchorLevel else b.originAnchorLevel)
      && r.entryPrice == (if b.entryPrice.Absent? then a.entryPrice else b.entryPrice)
      && r.limitEntryPrice == (if b.limitEntryPrice.Absent? then a.limitEntryPrice else b.limitEntryPrice)
      && r.anchorName == (if b.anchorName.Absent? then a.anchorName else b.anchorName)
      && r.openTime == (if b.openTime.Absent? then a.openTime else b.openTime)
      && r.pendingTime == (if b.pendingTime.Absent? then a.pendingTime else b.pendingTime)
      && r.status == (if b.status.Absent? then a.status else b.status)
      && r.realizedR == (if b.realizedR.Absent? then a.realizedR else b.realizedR)
      && r.exitReason == (if b.exitReason.Absent? then a.exitReason else b.exitReason)
  {
  }

  // ---------------------------------------------------------------- stripped ids

  ghost predicate AllDigits(s: string) { forall i :: 0 <= i < |s| ==> '0' <= s[i] <= '9' }

  /** s is `base` with a candle index appended. */
  ghost predicate IsSuffixed(s: string, base: string) {
    exists digits :: digits != "" && AllDigits(digits) && s == base + "_SW" + digits
  }

  lemma {:induction false} TrailingAreDigits(s: string)
    ensures AllDigits(s[|s| - TrailingDigits(s)..])
  {
    if s != [] && IsDigit(s[|s| - 1]) {
      TrailingAreDigits(s[..|s| - 1]);
      assert s[|s| - TrailingDigits(s)..] == s[..|s| - 1][|s| - 1 - TrailingDigits(s[..|s| - 1])..] + [s[|s| - 1]];
    }
  }

  /** Stripping removes an appended candle index, and changes no id without one. */
  lemma {:induction false} StripIsExact(s: string)
    ensures forall base :: IsSuffixed(s, base) ==> StripSuffix(s) == base
    ensures (forall base :: !IsSuffixed(s, base)) ==> StripSuffix(s) == s
  {
    forall base | IsSuffixed(s, base) ensures StripSuffix(s) == base {
      var digits :| digits != "" && AllDigits(digits) && s == base + "_SW" + digits;
      SuffixIsIgnored(base, digits);
    }
    if StripSuffix(s) != s {
      var stem, digits := s[..|s| - TrailingDigits(s)], s[|s| - TrailingDigits(s)..];
      TrailingAreDigits(s);
      assert stem == stem[..|stem| - 3] + "_SW";
      assert s == stem[..|stem| - 3] + "_SW" + digits;
      assert IsSuffixed(s, stem[..|stem| - 3]);
    }
  }

  // ------------------------------------------------------------- who fits whom

  ghost predicate SharesIdIn(f: Field<string>, s: Setup) {
    f.Is? && f.value != "" && StripSuffix(f.value) == StripSuffix(s.id)
  }

  ghost predicate SharesId(s: Setup, p: Position) {
    SharesIdIn(p.originZoneId, s) || SharesIdIn(p.setupId, s) || SharesIdIn(p.id, s)
  }

  /** The position faces the setup's way. */
  ghost predicate Facing(s: Setup, p: Position) {
    if s.kind == "BULLISH" then p.direction == Is("LONG") else p.direction == Is("SHORT")
  }

  /** Opened, or else pending, within an hour of the reclaim; a missing time counts as zero. */
  ghost predicate InTime(s: Setup, p: Position) {
    var t := if p.openTime.Is? && p.openTime.value != 0 then p.openTime.value
             else if p.pendingTime.Is? then p.pendingTime.value else 0;
    s.reclaimTime - 3_600_000 <= t <= s.reclaimTime + 3_600_000
  }

  ghost predicate Within(f: Field<real>, level: real, tolerance: real) {
    match f
    case Absent => false
    case Null => -tolerance < level < tolerance
    case Is(x) => -tolerance < x - level < tolerance
  }

  /** The anchor level, or where it is missing or null the entry price, lies within 0.25 of
      the setup's; or both carry the same anchor name, or none. */
  ghost predicate SameAnchor(s: Setup, p: Position) {
    Within(if p.originAnchorLevel.Is? then p.originAnchorLevel else p.entryPrice, s.anchorLevel, 0.25) || p.anchorName == s.anchorName
  }

  ghost predicate Fits(s: Setup, p: Position) {
    SharesId(s, p) || (Facing(s, p) && SameAnchor(s, p) && InTime(s, p))
  }

  lemma {:induction false} CompatibleIsFits(s: Setup, p: Position)
    ensures Compatible(s, p) <==> Fits(s, p)
  {
    hide StripSuffix;
  }

  /** Each setup gets the first position that fits it by its fields and that no earlier
      setup took. It stays unmatched only if every position that fits it was taken. */
  lemma {:induction false} AssignmentByFields(setups: seq<Setup>, positions: seq<Position>, i: nat)
    requires i < |setups|
    ensures var given := Assign(setups, positions, |setups|);
      && (given[i].Some? ==> given[i].value < |positions| && Fits(setups[i], positions[given[i].value]))
      && (given[i].Some? ==>
            forall j: nat :: j < i && given[j].Some? ==> positions[given[j].value].id != positions[given[i].value].id)
      && (forall k: nat :: k < |positions| && Fits(setups[i], positions[k]) && (given[i].Some? ==> k < given[i].value) ==>
            exists j: nat :: j < i && given[j].Some? && positions[given[j].value].id == positions[k].id)
  {
    hide Compatible, Fits, Assign;
    MatchingIsFirstFit(setups, positions, |setups|, i);
    MatchingIsOneToOne(setups, positions, |setups|);
    forall k: nat | k < |positions| ensures Compatible(setups[i], positions[k]) <==> Fits(setups[i], positions[k]) {
      CompatibleIsFits(setups[i], positions[k]);
    }
  }

  // --------------------------------------------------------------------- the rows

  ghost predicate Around(text: string, before: string, part: string, after: string) { text == before + part + after }

  ghost predicate Contains(f: Field<string>, part: string) {
    f.Is? && exists before, after :: Around(f.value, before, part, after)
  }

  lemma {:induction false} PartIsFound(s: string, before: string, part: string, after: string)
    requires Around(s, before, part, after)
    ensures HasPart(s, part)
  {
    if before == [] {
      assert s[..|part|] == part;
    } else {
      assert Around(s[1..], before[1..], part, after);
      PartIsFound(s[1..], before[1..], part, after);
    }
  }

  lemma {:induction false} FoundIsPart(s: string, part: string) returns (before: string, after: string)
    requires HasPart(s, part)
    ensures Around(s, before, part, after)
  {
    if s[..|part|] == part {
      before, after := [], s[|part|..];
      assert s == [] + part + s[|part|..];
    } else {
      before, after := FoundIsPart(s[1..], part);
      before := [s[0]] + before;
    }
  }

  lemma {:induction false} IncludesIsContains(f: Field<string>, part: string)
    ensures Includes(f, part) <==> Contains(f, part)
  {
    if Contains(f, part) {
      var before, after :| Around(f.value, before, part, after);
      PartIsFound(f.value, before, part, after);
    }
    if Includes(f, part) {
      var before, after := FoundIsPart(f.value, part);
    }
  }

  /** The outcomes are the same word, or both a win, both a stop or both a scratch. */
  ghost predicate SameOutcome(s: Setup, p: Position) {
    || p.exitReason == s.stageExitType
    || (Contains(p.exitReason, "WIN") && Contains(s.stageExitType, "WIN"))
    || (Contains(p.exitReason, "STOP") && Contains(s.stageExitType, "STOP"))
    || (Contains(p.exitReason, "SCRATCH") && Contains(s.stageExitType, "SCRATCH"))
  }

  ghost predicate Filled(p: Position) {
    p.openTime.Is? && p.openTime.value != 0 && p.status != Is("PENDING_LIMIT_ENTRY")
  }

  ghost predicate InFlight(p: Position) {
    p.status == Is("STAGE_1_FILLED") || p.status == Is("STAGE_2_FILLED") || p.status == Is("OPEN")
  }

  ghost predicate NotRetested(s: Setup) { s.status == Is("RECLAIMED_NO_RETEST") || s.stageExitType == Is("NO_RETEST") }

  /** The first of entry, retest and anchor price that is not zero; the anchor if none is. */
  ghost predicate IsExpectedEntry(x: real, s: Setup) {
    if s.entryPrice != 0.0 then x == s.entryPrice else if s.retestPrice != 0.0 then x == s.retestPrice else x == s.anchorLevel
  }

  /** The live entry is the entry price, or the limit where that is missing or zero. */
  ghost predicate IsLiveEntry(f: Field<real>, p: Position) {
    if p.entryPrice.Is? && p.entryPrice.value != 0.0 then f == p.entryPrice else f == p.limitEntryPrice
  }

  /** The row shows the distance of two prices; a missing one leaves no number, a null one counts as zero. */
  ghost predicate ShowsSlip(slip: Option<real>, f: Field<real>, expected: real) {
    match f
    case Absent => slip.None?
    case Null => slip == Some(if expected < 0.0 then -expected else expected)
    case Is(x) => slip == Some(if x < expected then expected - x else x - expected)
  }

  /** A matched row: its status is decided by whether the position was filled, is still
      open, and closed alike within half a dollar; an unfilled position shows no numbers. */
  lemma {:induction false} MatchedRowByFields(s: Setup, p: Position)
    ensures var row := MatchedRow(s, p);
      && row.setupId == s.id && row.kind == s.kind && row.anchor == s.anchorName && row.qlOutcome == s.stageExitType
      && IsExpectedEntry(row.qlEntry, s)
      && row.qlRealizedR == (if s.stageExitType == Is("STAGE_2_WIN") then 1.0 else if s.stageExitType == Is("FULL_TP3_WIN") then 1.8
                             else if s.stageExitType == Is("STAGE_1_SCRATCH") then 0.4 else -1.0)
      && (!Filled(p) ==> row.status == NoRetestPass && row.liveEntry.None? && row.slippage.None? && row.liveRealizedR.None?)
      && (Filled(p) ==>
            && row.liveEntry.Some? && IsLiveEntry(row.liveEntry.value, p) && ShowsSlip(row.slippage, row.liveEntry.value, row.qlEntry)
            && row.liveRealizedR == Some(if p.realizedR == Absent then Is(0.4) else p.realizedR)
            && row.status == (if InFlight(p) then InFlightActive
                              else if SameOutcome(s, p) && row.slippage.Some? && row.slippage.value < 0.5 then ExactMatch
                              else SlippageVariance))
  {
    hide Includes, Contains;
    forall part ensures (Includes(p.exitReason, part) <==> Contains(p.exitReason, part))
                     && (Includes(s.stageExitType, part) <==> Contains(s.stageExitType, part))
    {
      IncludesIsContains(p.exitReason, part);
      IncludesIsContains(s.stageExitType, part);
    }
  }

  /** Rows without a position. */
  lemma {:induction false} OtherRowsByFields(s: Setup)
    ensures var row := UnmatchedRow(s);
      && row.setupId == s.id && row.kind == s.kind && row.anchor == s.anchorName && row.qlOutcome == s.stageExitType
      && IsExpectedEntry(row.qlEntry, s) && row.qlRealizedR == 0.0
      && row.liveEntry.None? && row.slippage.None? && row.liveRealizedR.None?
      && row.status == (if NotRetested(s) then NoRetestPass else MissedInLive)
    ensures PreRow(s) == UnmatchedRow(s).(status := PreDaemonBaseline)
  {
  }

  // ---------------------------------------------------------- which setups get rows

  ghost predicate SameDay(s: Setup, dateOf: int -> int, day: int) { s.reclaimTime != 0 && dateOf(s.reclaimTime) == day }

  function LiveOn(dateOf: int -> int, day: int, bootTime: int): Setup -> bool {
    (s: Setup) => s.reclaimTime != 0 && dateOf(s.reclaimTime) == day && (bootTime <= 0 || bootTime <= s.reclaimTime)
  }

  function BeforeBootOn(dateOf: int -> int, day: int, bootTime: int): Setup -> bool {
    (s: Setup) => s.reclaimTime != 0 && dateOf(s.reclaimTime) == day && 0 < bootTime && s.reclaimTime < bootTime
  }

  /** The live rows are for the day's setups from boot time on, the others for those before
      it, each in the order of the scan; without a boot time all are live. */
  lemma {:induction false} RowsByFields(setups: seq<Setup>, dateOf: int -> int, day: int, bootTime: int)
    returns (live: seq<int>, before: seq<int>)
    ensures IsSelection(Monitored(Keep(setups, OnDay(dateOf, day)), bootTime), setups, LiveOn(dateOf, day, bootTime), live)
    ensures IsSelection(PreDaemon(Keep(setups, OnDay(dateOf, day)), bootTime), setups, BeforeBootOn(dateOf, day, bootTime), before)
  {
    hide IsSelection, Keep;
    live := KeepIsSelection(setups, LiveOn(dateOf, day, bootTime));
    before := KeepIsSelection(setups, BeforeBootOn(dateOf, day, bootTime));
    var ofDay := OnDay(dateOf, day);
    if bootTime > 0 {
      KeepTwice(setups, ofDay, (s: Setup) => s.reclaimTime >= bootTime, LiveOn(dateOf, day, bootTime));
      KeepTwice(setups, ofDay, (s: Setup) => s.reclaimTime < bootTime, BeforeBootOn(dateOf, day, bootTime));
    } else {
      KeepSame(setups, ofDay, LiveOn(dateOf, day, bootTime));
      KeepNothing(setups, BeforeBootOn(dateOf, day, bootTime));
    }
  }

  lemma {:induction false} KeepSame(setups: seq<Setup>, p: Setup -> bool, q: Setup -> bool)
    requires forall s :: s in setups ==> p(s) == q(s)
    ensures Keep(setups, p) == Keep(setups, q)
  {
    if setups != [] {
      KeepSame(setups[1..], p, q);
    }
  }

  lemma {:induction false} KeepNothing(setups: seq<Setup>, p: Setup -> bool)
    requires forall s :: s in setups ==> !p(s)
    ensures Keep(setups, p) == []
  {
    if setups != [] {
      KeepNothing(setups[1..], p);
    }
  }
}
