/** `runReconciliation` of scripts/reconcile-session.ts: the event log folded into
    positions, and setups matched to positions first-fit. */
module Reconcile {
  import opened Market
  import opened Ordering

  // ----------------------------------------------------------- JSON-like fields

  /** A field of a parsed record: missing, null, or a value. */
  datatype Field<+T> = Absent | Null | Is(value: T)

  /** A later record's field over an earlier one's, as object spread does it. */
  function Over<T>(earlier: Field<T>, later: Field<T>): Field<T> {
    if later.Absent? then earlier else later
  }

  predicate TruthyText(f: Field<string>) { f.Is? && f.value != "" }

  predicate TruthyTime(f: Field<int>) { f.Is? && f.value != 0 }

  predicate TruthyReal(f: Field<real>) { f.Is? && f.value != 0.0 }

  /** A field in arithmetic: null counts as zero, a missing one is not a number. */
  function NumberOf(f: Field<real>): Option<real> {
    match f
    case Absent => None
    case Null => Some(0.0)
    case Is(x) => Some(x)
  }

  // -------------------------------------------------------------------- entities

  datatype Position = Position(
    id: Field<string>,
    originZoneId: Field<string>,
    setupId: Field<string>,
    direction: Field<string>,
    originAnchorLevel: Field<real>,
    entryPrice: Field<real>,
    limitEntryPrice: Field<real>,
    anchorName: Field<string>,
    openTime: Field<int>,
    pendingTime: Field<int>,
    status: Field<string>,
    realizedR: Field<real>,
    exitReason: Field<string>
  )

  function Spread(a: Position, b: Position): Position {
    Position(
      Over(a.id, b.id), Over(a.originZoneId, b.originZoneId), Over(a.setupId, b.setupId), Over(a.direction, b.direction),
      Over(a.originAnchorLevel, b.originAnchorLevel), Over(a.entryPrice, b.entryPrice),
      Over(a.limitEntryPrice, b.limitEntryPrice), Over(a.anchorName, b.anchorName), Over(a.openTime, b.openTime),
      Over(a.pendingTime, b.pendingTime), Over(a.status, b.status), Over(a.realizedR, b.realizedR),
      Over(a.exitReason, b.exitReason))
  }

  datatype Setup = Setup(
    id: string,
    kind: string,
    reclaimTime: int,
    entryPrice: real,
    retestPrice: real,
    anchorLevel: real,
    anchorName: Field<string>,
    status: Field<string>,
    stageExitType: Field<string>
  )

  // --------------------------------------------------------------- position fold

  /** A string-keyed object: its entries, and its keys in the order of their insertion. */
  datatype Ledger = Ledger(keys: seq<string>, entries: map<string, Position>)

  function Put(l: Ledger, key: string, p: Position): Ledger {
    Ledger(if key in l.entries then l.keys else l.keys + [key], l.entries[key := p])
  }

  ghost function FoldCompleted(trades: seq<Position>, n: nat): Ledger
    requires n <= |trades|
  {
    if n == 0 then Ledger([], map[])
    else
      var l, t := FoldCompleted(trades, n - 1), trades[n - 1];
      if TruthyText(t.id) then Put(l, t.id.value, t) else l
  }

  function Apply(l: Ledger, ev: Option<Position>): Ledger {
    if ev.Some? && TruthyText(ev.value.id) then
      var key := ev.value.id.value;
      Put(l, key, if key in l.entries then Spread(l.entries[key], ev.value) else ev.value)
    else l
  }

  ghost function FoldEvents(start: Ledger, events: seq<Option<Position>>, n: nat): Ledger
    requires n <= |events|
  {
    if n == 0 then start else Apply(FoldEvents(start, events, n - 1), events[n - 1])
  }

  /** Every key is listed once, and each entry carries its own key as its id. */
  ghost predicate WellKeyed(l: Ledger) {
    && (forall k :: k in l.keys <==> k in l.entries)
    && AllDistinct(l.keys)
    && (forall k :: k in l.entries ==> l.entries[k].id == Is(k) && k != "")
  }

  lemma {:induction false} PutKeepsKeys(l: Ledger, key: string, p: Position)
    requires WellKeyed(l) && p.id == Is(key) && key != ""
    ensures WellKeyed(Put(l, key, p))
  {
    var r := Put(l, key, p);
    forall k ensures k in r.keys <==> k in r.entries {
      assert k in r.keys <==> k in l.keys || k == key;
    }
  }

  lemma {:induction false} FoldIsWellKeyed(trades: seq<Position>, events: seq<Option<Position>>, n: nat, m: nat)
    requires n <= |trades| && m <= |events|
    ensures WellKeyed(FoldCompleted(trades, n))
    ensures WellKeyed(FoldEvents(FoldCompleted(trades, n), events, m))
  {
    if m > 0 {
      FoldIsWellKeyed(trades, events, n, m - 1);
      var l, ev := FoldEvents(FoldCompleted(trades, n), events, m - 1), events[m - 1];
      if ev.Some? && TruthyText(ev.value.id) {
        var key := ev.value.id.value;
        PutKeepsKeys(l, key, if key in l.entries then Spread(l.entries[key], ev.value) else ev.value);
      }
    } else if n > 0 {
      FoldIsWellKeyed(trades, events, n - 1, 0);
      var t := trades[n - 1];
      if TruthyText(t.id) {
        PutKeepsKeys(FoldCompleted(trades, n - 1), t.id.value, t);
      }
    }
  }

  /** Event j speaks about the position `key`. */
  ghost predicate Concerns(events: seq<Option<Position>>, j: nat, key: string) {
    j < |events| && events[j].Some? && events[j].value.id == Is(key) && key != ""
  }

  /** The positions are those of the completed trades and of the events, and no others. */
  lemma {:induction false} FoldedKeys(start: Ledger, events: seq<Option<Position>>, n: nat, key: string)
    requires n <= |events|
    ensures key in FoldEvents(start, events, n).entries <==>
      key in start.entries || exists j: nat :: j < n && Concerns(events, j, key)
  {
    hide Spread;
    if n > 0 {
      FoldedKeys(start, events, n - 1, key);
      var before, end := FoldEvents(start, events, n - 1), FoldEvents(start, events, n);
      assert key in end.entries <==> key in before.entries || Concerns(events, n - 1, key);
    }
  }

  /** Each field of a folded position holds what the last event that mentions the field
      says (event j), and what the completed trade says when no event does (j is -1). */
  lemma {:induction false} FieldIsLatest<T>(start: Ledger, events: seq<Option<Position>>, n: nat, key: string, field: Position -> Field<T>)
    returns (j: int)
    requires n <= |events| && key in FoldEvents(start, events, n).entries
    requires forall a, b {:trigger Spread(a, b)} :: field(Spread(a, b)) == Over(field(a), field(b))
    ensures -1 <= j < n
    ensures forall i: nat :: j < i < n && Concerns(events, i, key) ==> field(events[i].value).Absent?
    ensures var now := field(FoldEvents(start, events, n).entries[key]);
      if j >= 0 then Concerns(events, j, key) && now == field(events[j].value) && !now.Absent?
      else now == if key in start.entries then field(start.entries[key]) else Absent
  {
    hide Spread;
    if n == 0 {
      return -1;
    }
    var before, end := FoldEvents(start, events, n - 1), FoldEvents(start, events, n);
    if !Concerns(events, n - 1, key) {
      assert key in before.entries && end.entries[key] == before.entries[key];
      j := FieldIsLatest(start, events, n - 1, key, field);
    } else {
      var said := events[n - 1].value;
      FoldedKeys(start, events, n - 1, key);
      if key in before.entries {
        assert end.entries[key] == Spread(before.entries[key], said);
        j := FieldIsLatest(start, events, n - 1, key, field);
      } else {
        assert end.entries[key] == said;
        j := -1;
      }
      if !field(said).Absent? {
        j := n - 1;
      }
    }
  }

  // ------------------------------------------------- order of an object's keys

  predicate IsDigit(c: char) { '0' <= c <= '9' }

  /** The number that a string of digits spells. */
  function NumberIn(s: string): nat
    requires forall c :: c in s ==> IsDigit(c)
  {
    if s == [] then 0
    else
      assert IsDigit(s[|s| - 1]);
      10 * NumberIn(s[..|s| - 1]) + (s[|s| - 1] as int - '0' as int)
  }

  /** A key that JavaScript takes for an array index: canonical and below 2^32 - 1. */
  predicate IsIndexKey(k: string) {
    && k != [] && (forall c :: c in k ==> IsDigit(c)) && (k == "0" || k[0] != '0')
    && NumberIn(k) < 0xFFFF_FFFF
  }

  predicate IsOtherKey(k: string) { !IsIndexKey(k) }

  function IndexIn(k: string): int { if IsIndexKey(k) then NumberIn(k) else 0 }

  /** The order in which an object lists its keys: indices by value, then the others as inserted. */
  function ObjectOrder(keys: seq<string>): seq<string> {
    SortBy(Keep(keys, IsIndexKey), IndexIn) + Keep(keys, IsOtherKey)
  }

  lemma {:induction false} ObjectOrderKeeps(keys: seq<string>)
    ensures multiset(ObjectOrder(keys)) == multiset(keys)
    ensures |ObjectOrder(keys)| == |keys| && forall k :: k in ObjectOrder(keys) <==> k in keys
  {
    KeepSplits(keys, IsIndexKey, IsOtherKey);
    SortByCorrect(Keep(keys, IsIndexKey), IndexIn);
    forall k ensures k in ObjectOrder(keys) <==> k in keys {
      assert k in multiset(ObjectOrder(keys)) <==> k in multiset(keys);
    }
  }

  /** The keys in order are a part of ascending index keys and a part without any. */
  ghost predicate IndicesThenOthers(first: seq<string>, others: seq<string>) {
    && (forall i :: 0 <= i < |first| ==> IsIndexKey(first[i]))
    && (forall i :: 0 <= i < |others| ==> !IsIndexKey(others[i]))
    && (forall i, j :: 0 <= i < j < |first| && IsIndexKey(first[i]) && IsIndexKey(first[j]) ==> NumberIn(first[i]) <= NumberIn(first[j]))
  }

  lemma {:induction false} PartsStand(keys: seq<string>)
    ensures IndicesThenOthers(SortBy(Keep(keys, IsIndexKey), IndexIn), Keep(keys, IsOtherKey))
  {
    hide SortBy, Keep;
    var indices, others := Keep(keys, IsIndexKey), Keep(keys, IsOtherKey);
    var first := SortBy(indices, IndexIn);
    SortByCorrect(indices, IndexIn);
    KeepAll(keys, IsIndexKey);
    KeepAll(keys, IsOtherKey);
    forall i | 0 <= i < |first| ensures IsIndexKey(first[i]) {
      assert first[i] in multiset(first);
      assert first[i] in indices;
    }
    forall i | 0 <= i < |others| ensures !IsIndexKey(others[i]) {
      assert others[i] in others && IsOtherKey(others[i]);
    }
  }

  /** Index keys come first and ascend, the others follow as inserted; nothing is lost or
      listed twice. */
  lemma {:induction false} ObjectOrderIsSorted(keys: seq<string>) returns (first: seq<string>)
    requires AllDistinct(keys)
    ensures AllDistinct(ObjectOrder(keys)) && multiset(ObjectOrder(keys)) == multiset(keys)
    ensures ObjectOrder(keys) == first + Keep(keys, IsOtherKey) && IndicesThenOthers(first, Keep(keys, IsOtherKey))
  {
    hide IsIndexKey, AllDistinct, IndicesThenOthers, IndexIn, SortBy, Keep;
    ObjectOrderKeeps(keys);
    DistinctFromMultiset(keys);
    DistinctFromMultiset(ObjectOrder(keys));
    first := SortBy(Keep(keys, IsIndexKey), IndexIn);
    PartsStand(keys);
  }

  /** `Object.values`. */
  function Values(l: Ledger): (r: seq<Position>)
    requires forall k :: k in l.keys ==> k in l.entries
    ensures |r| == |l.keys|
  {
    ObjectOrderKeeps(l.keys);
    var keys := ObjectOrder(l.keys);
    seq(|keys|, i requires 0 <= i < |keys| => l.entries[keys[i]])
  }

  ghost predicate DistinctIds(positions: seq<Position>) {
    forall i, j :: 0 <= i < j < |positions| ==> positions[i].id != positions[j].id
  }

  /** All positions of the session, completed and in flight, one for each id. */
  method CollectPositions(completedTrades: seq<Position>, events: seq<Option<Position>>) returns (positions: seq<Position>)
    ensures var end := FoldEvents(FoldCompleted(completedTrades, |completedTrades|), events, |events|);
      WellKeyed(end) && positions == Values(end)
    ensures DistinctIds(positions) && forall p :: p in positions ==> TruthyText(p.id)
  {
    var positionMap := Ledger([], map[]);
    for i := 0 to |completedTrades|
      invariant positionMap == FoldCompleted(completedTrades, i)
    {
      var t := completedTrades[i];
      if TruthyText(t.id) {
        positionMap := Put(positionMap, t.id.value, t);
      }
    }
    ghost var start := positionMap;
    for i := 0 to |events|
      invariant positionMap == FoldEvents(start, events, i)
    {
      var ev := events[i];
      if ev.Some? && TruthyText(ev.value.id) {
        var key := ev.value.id.value;
        var merged := if key in positionMap.entries then Spread(positionMap.entries[key], ev.value) else ev.value;
        positionMap := Put(positionMap, key, merged);
      }
    }
    FoldIsWellKeyed(completedTrades, events, |completedTrades|, |events|);
    positions := Values(positionMap);
    ghost var first := ObjectOrderIsSorted(positionMap.keys);
    ghost var keys := ObjectOrder(positionMap.keys);
    ObjectOrderKeeps(positionMap.keys);
    forall i | 0 <= i < |positions| ensures positions[i].id == Is(keys[i]) && keys[i] != "" {
      assert keys[i] in keys;
    }
  }

  // ------------------------------------------------------------- compatibility

  function TrailingDigits(s: string): (d: nat)
    ensures d <= |s|
  {
    if s != [] && IsDigit(s[|s| - 1]) then 1 + TrailingDigits(s[..|s| - 1]) else 0
  }

  /** Drops a final "_SW" followed by digits. */
  function StripSuffix(s: string): string {
    var stem := s[..|s| - TrailingDigits(s)];
    if |stem| < |s| && |stem| >= 3 && stem[|stem| - 3..] == "_SW" then stem[..|stem| - 3] else s
  }

  lemma {:induction false} TrailingDigitsOf(stem: string, digits: string)
    requires stem == [] || !IsDigit(stem[|stem| - 1])
    requires forall i :: 0 <= i < |digits| ==> IsDigit(digits[i])
    ensures TrailingDigits(stem + digits) == |digits|
  {
    if digits == [] {
      assert stem + digits == stem;
    } else {
      TrailingDigitsOf(stem, digits[..|digits| - 1]);
      assert (stem + digits)[..|stem + digits| - 1] == stem + digits[..|digits| - 1];
    }
  }

  /** An id is recognised whatever candle index was appended to it. */
  lemma {:induction false} SuffixIsIgnored(base: string, digits: string)
    requires digits != [] && forall i :: 0 <= i < |digits| ==> IsDigit(digits[i])
    ensures StripSuffix(base + "_SW" + digits) == base
  {
    var stem := base + "_SW";
    TrailingDigitsOf(stem, digits);
    assert (stem + digits)[..|stem|] == stem;
    assert stem[|stem| - 3..] == "_SW";
    assert stem[..|stem| - 3] == base;
  }

  predicate SameBase(f: Field<string>, s: Setup) { TruthyText(f) && StripSuffix(f.value) == StripSuffix(s.id) }

  function TimeOf(p: Position): int {
    if TruthyTime(p.openTime) then p.openTime.value else if TruthyTime(p.pendingTime) then p.pendingTime.value else 0
  }

  const ONE_HOUR_MS := 3600000

  /** The test of one setup against one position, leaving aside which are taken. */
  predicate Compatible(s: Setup, p: Position) {
    || SameBase(p.originZoneId, s)
    || SameBase(p.setupId, s)
    || SameBase(p.id, s)
    || (var level := NumberOf(if p.originAnchorLevel.Is? then p.originAnchorLevel else p.entryPrice);
        && p.direction == Is(if s.kind == "BULLISH" then "LONG" else "SHORT")
        && ((level.Some? && Abs(level.value - s.anchorLevel) < 0.25) || p.anchorName == s.anchorName)
        && -ONE_HOUR_MS <= TimeOf(p) - s.reclaimTime <= ONE_HOUR_MS)
  }

  // ------------------------------------------------------------ greedy matching

  /** The position given to each of the first n setups, if any. */
  ghost function Assign(setups: seq<Setup>, positions: seq<Position>, n: nat): (r: seq<Option<nat>>)
    requires n <= |setups|
    ensures |r| == n
    ensures InRange(r, positions)
  {
    if n == 0 then []
    else
      var before := Assign(setups, positions, n - 1);
      before + [FirstFree(setups[n - 1], positions, UsedIds(positions, before), 0)]
  }

  ghost function UsedIds(positions: seq<Position>, given: seq<Option<nat>>): set<Field<string>>
    requires InRange(given, positions)
  {
    set i | 0 <= i < |given| && given[i].Some? :: positions[given[i].value].id
  }

  function FirstFree(s: Setup, positions: seq<Position>, used: set<Field<string>>, from: nat): (k: Option<nat>)
    requires from <= |positions|
    ensures k.Some? ==>
      && from <= k.value < |positions| && positions[k.value].id !in used && Compatible(s, positions[k.value])
      && forall j :: from <= j < k.value ==> positions[j].id in used || !Compatible(s, positions[j])
    ensures k.None? ==> forall j :: from <= j < |positions| ==> positions[j].id in used || !Compatible(s, positions[j])
    decreases |positions| - from
  {
    if from == |positions| then None
    else if positions[from].id !in used && Compatible(s, positions[from]) then Some(from)
    else FirstFree(s, positions, used, from + 1)
  }

  ghost function Matched(given: seq<Option<nat>>): set<nat> { set i: nat | i < |given| && given[i].Some? }

  ghost predicate InRange(given: seq<Option<nat>>, positions: seq<Position>) {
    forall i :: 0 <= i < |given| && given[i].Some? ==> given[i].value < |positions|
  }

  ghost predicate OneToOne(given: seq<Option<nat>>, positions: seq<Position>)
    requires InRange(given, positions)
  {
    forall i, j :: 0 <= i < j < |given| && given[i].Some? && given[j].Some? ==>
      positions[given[i].value].id != positions[given[j].value].id
  }

  /** No position is given to two setups. */
  lemma {:induction false} MatchingIsOneToOne(setups: seq<Setup>, positions: seq<Position>, n: nat)
    requires n <= |setups|
    ensures OneToOne(Assign(setups, positions, n), positions)
  {
    hide Compatible;
    if n > 0 {
      MatchingIsOneToOne(setups, positions, n - 1);
      var before, given := Assign(setups, positions, n - 1), Assign(setups, positions, n);
      forall i | 0 <= i < n - 1 && before[i].Some?
        ensures given[n - 1].Some? ==> positions[before[i].value].id != positions[given[n - 1].value].id
      {
        assert positions[before[i].value].id in UsedIds(positions, before);
      }
    }
  }

  /** A setup gets the first compatible position that no earlier setup took; one that
      gets none has all its compatible positions taken by earlier setups. */
  lemma {:induction false} MatchingIsFirstFit(setups: seq<Setup>, positions: seq<Position>, n: nat, i: nat)
    requires i < n <= |setups|
    ensures var given := Assign(setups, positions, n);
      && (given[i].Some? ==> Compatible(setups[i], positions[given[i].value]))
      && forall k: nat :: k < |positions| && Compatible(setups[i], positions[k]) && (given[i].Some? ==> k < given[i].value) ==>
           exists j: nat :: j < i && given[j].Some? && positions[given[j].value].id == positions[k].id
  {
    hide Compatible;
    var before := Assign(setups, positions, n - 1);
    if i < n - 1 {
      MatchingIsFirstFit(setups, positions, n - 1, i);
      assert forall j: nat :: j < n - 1 ==> Assign(setups, positions, n)[j] == before[j];
    } else {
      var used := UsedIds(positions, before);
      forall k: nat | k < |positions| && positions[k].id in used
        ensures exists j: nat :: j < i && before[j].Some? && positions[before[j].value].id == positions[k].id
      {
      }
      assert forall j: nat :: j < i ==> Assign(setups, positions, n)[j] == before[j];
    }
  }

  // -------------------------------------------------------------- half optimality

  /** Any one-to-one pairing of setups with compatible positions. */
  ghost predicate IsMatching(m: map<nat, nat>, setups: seq<Setup>, positions: seq<Position>) {
    && (forall i :: i in m ==> i < |setups| && m[i] < |positions| && Compatible(setups[i], positions[m[i]]))
    && (forall i, j :: i in m && j in m && i != j ==> m[i] != m[j])
  }

  ghost function Taken(given: seq<Option<nat>>): set<nat> { set i: nat | i < |given| && given[i].Some? :: given[i].value }

  lemma {:induction false} TakenSize(given: seq<Option<nat>>)
    ensures |Taken(given)| <= |Matched(given)|
  {
    if given != [] {
      var init, last := given[..|given| - 1], given[|given| - 1];
      TakenSize(init);
      if last.Some? {
        assert Matched(given) == Matched(init) + {|given| - 1};
        assert Taken(given) <= Taken(init) + {last.value};
      } else {
        assert Matched(given) == Matched(init) && Taken(given) == Taken(init);
      }
      if last.Some? { SubsetSize(Taken(given), Taken(init) + {last.value}); }
    }
  }

  lemma {:induction false} SubsetSize(a: set<nat>, b: set<nat>)
    requires a <= b
    ensures |a| <= |b|
  {
    if a != {} {
      var x :| x in a;
      SubsetSize(a - {x}, b - {x});
    }
  }

  /** An injection into a set bounds the size of its domain. */
  lemma {:induction false} InjectionSize(keys: set<nat>, m: map<nat, nat>, target: set<nat>)
    requires forall i :: i in keys ==> i in m && m[i] in target
    requires forall i, j :: i in keys && j in keys && i != j ==> m[i] != m[j]
    ensures |keys| <= |target|
  {
    if keys != {} {
      var x :| x in keys;
      InjectionSize(keys - {x}, m, target - {m[x]});
    }
  }

  /** First-fit matches at least half as many setups as any one-to-one matching could. */
  lemma {:induction false} MatchingIsHalfOptimal(setups: seq<Setup>, positions: seq<Position>, m: map<nat, nat>)
    requires DistinctIds(positions) && IsMatching(m, setups, positions)
    ensures |m| <= 2 * |Matched(Assign(setups, positions, |setups|))|
  {
    hide Compatible;
    var given := Assign(setups, positions, |setups|);
    var matched, taken := Matched(given), Taken(given);
    var missed := m.Keys - matched;
    forall i | i in missed ensures m[i] in taken {
      MatchingIsFirstFit(setups, positions, |setups|, i);
      var j: nat :| j < i && given[j].Some? && positions[given[j].value].id == positions[m[i]].id;
      assert given[j].value == m[i];
    }
    InjectionSize(missed, m, taken);
    TakenSize(given);
    var kept := m.Keys * matched;
    SubsetSize(kept, matched);
    assert m.Keys == kept + missed && kept !! missed;
    assert |m| == |m.Keys|;
  }

  /** Half is all that can be promised: here first-fit matches one setup where two could be. */
  lemma {:induction false} FirstFitCanLoseHalf()
    ensures exists setups, positions, m: map<nat, nat> ::
      DistinctIds(positions) && IsMatching(m, setups, positions)
      && |m| == 2 && |Matched(Assign(setups, positions, |setups|))| == 1
  {
    hide Compatible, Matched;
    var s0 := Setup("a", "BULLISH", 3600000, 0.0, 0.0, 100.0, Absent, Absent, Absent);
    var s1 := s0.(id := "b", reclaimTime := 10000000);
    var p0 := Position(Is("p"), Absent, Absent, Is("LONG"), Is(100.0), Absent, Absent, Absent, Is(7200000), Absent, Absent, Absent, Absent);
    var p1 := p0.(id := Is("q"), openTime := Is(100));
    var setups, positions, m := [s0, s1], [p0, p1], map[0 := 1, 1 := 0];
    PairCompatibility(s0, s1, p0, p1);
    PairAssignment(setups, positions);
    OneOfTwo();
    assert |m.Keys| == |{0, 1}|;
    assert IsMatching(m, setups, positions);
  }

  lemma {:induction false} OneOfTwo()
    ensures Matched([Some(0), None]) == {0}
  {
  }

  lemma {:induction false} PairCompatibility(s0: Setup, s1: Setup, p0: Position, p1: Position)
    requires s0 == Setup("a", "BULLISH", 3600000, 0.0, 0.0, 100.0, Absent, Absent, Absent)
    requires s1 == s0.(id := "b", reclaimTime := 10000000)
    requires p0 == Position(Is("p"), Absent, Absent, Is("LONG"), Is(100.0), Absent, Absent, Absent, Is(7200000), Absent, Absent, Absent, Absent)
    requires p1 == p0.(id := Is("q"), openTime := Is(100))
    ensures Compatible(s0, p0) && Compatible(s0, p1) && Compatible(s1, p0) && !Compatible(s1, p1)
  {
    assert StripSuffix("a") == "a" && StripSuffix("b") == "b" && StripSuffix("p") == "p" && StripSuffix("q") == "q";
  }

  lemma {:induction false} PairAssignment(setups: seq<Setup>, positions: seq<Position>)
    requires |setups| == |positions| == 2 && positions[0].id != positions[1].id
    requires Compatible(setups[0], positions[0]) && Compatible(setups[1], positions[0]) && !Compatible(setups[1], positions[1])
    ensures Assign(setups, positions, 2) == [Some(0), None]
  {
    hide Compatible;
    assert Assign(setups, positions, 0) == [];
    assert UsedIds(positions, []) == {};
    assert FirstFree(setups[0], positions, {}, 0) == Some(0);
    assert Assign(setups, positions, 1) == [Some(0)];
    var used := UsedIds(positions, [Some(0)]);
    assert positions[[Some(0)][0].value].id in used;
    assert FirstFree(setups[1], positions, used, 0) == None;
    assert Assign(setups, positions, 2) == Assign(setups, positions, 1) + [None];
  }

  // --------------------------------------------------------------- report rows

  datatype RowStatus = ExactMatch | InFlightActive | SlippageVariance | NoRetestPass | MissedInLive | PreDaemonBaseline

  /** A row of the report; None stands for a cell that shows a text instead of a number. */
  datatype Row = Row(
    setupId: string,
    kind: string,
    anchor: Field<string>,
    qlEntry: real,
    liveEntry: Option<Field<real>>,
    slippage: Option<real>,
    qlOutcome: Field<string>,
    qlRealizedR: real,
    liveRealizedR: Option<Field<real>>,
    status: RowStatus
  )

  function QlEntry(s: Setup): real {
    if s.entryPrice != 0.0 then s.entryPrice else if s.retestPrice != 0.0 then s.retestPrice else s.anchorLevel
  }

  predicate HasPart(s: string, part: string) {
    |part| <= |s| && (s[..|part|] == part || (s != [] && HasPart(s[1..], part)))
  }

  predicate Includes(f: Field<string>, part: string) { f.Is? && HasPart(f.value, part) }

  predicate ExactOutcome(s: Setup, p: Position) {
    || p.exitReason == s.stageExitType
    || (Includes(p.exitReason, "WIN") && Includes(s.stageExitType, "WIN"))
    || (Includes(p.exitReason, "STOP") && Includes(s.stageExitType, "STOP"))
    || (Includes(p.exitReason, "SCRATCH") && Includes(s.stageExitType, "SCRATCH"))
  }

  predicate IsFilled(p: Position) { TruthyTime(p.openTime) && p.status != Is("PENDING_LIMIT_ENTRY") }

  predicate IsInFlight(p: Position) {
    p.status == Is("STAGE_1_FILLED") || p.status == Is("STAGE_2_FILLED") || p.status == Is("OPEN")
  }

  function LiveEntry(p: Position): Field<real> { if TruthyReal(p.entryPrice) then p.entryPrice else p.limitEntryPrice }

  /** Distance of the live entry from the expected one; None where there is no number. */
  function Slip(s: Setup, p: Position): Option<real> {
    match NumberOf(LiveEntry(p))
    case Some(x) => Some(Abs(x - QlEntry(s)))
    case None => None
  }

  function StageR(exit: Field<string>): real {
    if exit == Is("STAGE_2_WIN") then 1.0 else if exit == Is("FULL_TP3_WIN") then 1.8
    else if exit == Is("STAGE_1_SCRATCH") then 0.4 else -1.0
  }

  predicate IsNoRetest(s: Setup) { s.status == Is("RECLAIMED_NO_RETEST") || s.stageExitType == Is("NO_RETEST") }

  function MatchedRow(s: Setup, p: Position): Row {
    var slip := Slip(s, p);
    var status :=
      if !IsFilled(p) then NoRetestPass
      else if IsInFlight(p) then InFlightActive
      else if ExactOutcome(s, p) && slip.Some? && slip.value < 0.5 then ExactMatch
      else SlippageVariance;
    Row(s.id, s.kind, s.anchorName, QlEntry(s),
        if IsFilled(p) then Some(LiveEntry(p)) else None,
        if IsFilled(p) then slip else None,
        s.stageExitType, StageR(s.stageExitType),
        if IsFilled(p) then Some(if p.realizedR.Absent? then Is(0.4) else p.realizedR) else None,
        status)
  }

  function UnmatchedRow(s: Setup): Row {
    Row(s.id, s.kind, s.anchorName, QlEntry(s), None, None, s.stageExitType, 0.0, None,
        if IsNoRetest(s) then NoRetestPass else MissedInLive)
  }

  function PreRow(s: Setup): Row {
    Row(s.id, s.kind, s.anchorName, QlEntry(s), None, None, s.stageExitType, 0.0, None, PreDaemonBaseline)
  }

  function RowFor(s: Setup, positions: seq<Position>, given: Option<nat>): Row
    requires given.Some? ==> given.value < |positions|
  {
    match given
    case Some(k) => MatchedRow(s, positions[k])
    case None => UnmatchedRow(s)
  }

  /** `Array.prototype.find` over the positions that are still free. */
  method FindFree(s: Setup, positions: seq<Position>, used: set<Field<string>>) returns (found: Option<nat>)
    ensures found == FirstFree(s, positions, used, 0)
  {
    var k := 0;
    while k < |positions|
      invariant 0 <= k <= |positions|
      invariant FirstFree(s, positions, used, 0) == FirstFree(s, positions, used, k)
    {
      if positions[k].id !in used && Compatible(s, positions[k]) {
        return Some(k);
      }
      k := k + 1;
    }
    return None;
  }

  /** The matching loop: one row for each monitored setup, in order. */
  method MatchSetups(setups: seq<Setup>, positions: seq<Position>) returns (rows: seq<Row>, ghost given: seq<Option<nat>>)
    ensures given == Assign(setups, positions, |setups|) && |rows| == |setups|
    ensures forall i :: 0 <= i < |setups| ==> rows[i] == RowFor(setups[i], positions, given[i])
  {
    hide Compatible, MatchedRow, UnmatchedRow;
    var usedPositionIds: set<Field<string>> := {};
    rows, given := [], [];
    for n := 0 to |setups|
      invariant given == Assign(setups, positions, n) && |rows| == n
      invariant usedPositionIds == UsedIds(positions, given)
      invariant forall i :: 0 <= i < n ==> rows[i] == RowFor(setups[i], positions, given[i])
    {
      var found := FindFree(setups[n], positions, usedPositionIds);
      UsedAppend(positions, given, found);
      if found.Some? {
        var matchedLive := positions[found.value];
        usedPositionIds := usedPositionIds + {matchedLive.id};
        rows := rows + [MatchedRow(setups[n], matchedLive)];
      } else {
        rows := rows + [UnmatchedRow(setups[n])];
      }
      given := given + [found];
    }
  }

  lemma {:induction false} UsedAppend(positions: seq<Position>, given: seq<Option<nat>>, found: Option<nat>)
    requires InRange(given, positions) && (found.Some? ==> found.value < |positions|)
    ensures InRange(given + [found], positions)
    ensures UsedIds(positions, given + [found])
            == UsedIds(positions, given) + if found.Some? then {positions[found.value].id} else {}
  {
    var more := given + [found];
    forall i | 0 <= i < |given| && given[i].Some? ensures positions[given[i].value].id in UsedIds(positions, more) {
      assert more[i] == given[i];
    }
    if found.Some? {
      assert more[|given|] == found;
    }
  }

  /** What a row's status says about the whole match: a missed setup was retested and found
      every compatible position claimed by an earlier setup; a row with a live entry shows a
      compatible, filled position; and EXACT_MATCH means closed, same outcome, slip below 0.5. */
  lemma {:induction false} RowStatusMeans(setups: seq<Setup>, positions: seq<Position>, i: nat)
    requires i < |setups|
    ensures var given := Assign(setups, positions, |setups|);
      var row := RowFor(setups[i], positions, given[i]);
      && (row.status.MissedInLive? <==> given[i].None? && !IsNoRetest(setups[i]))
      && (row.status.MissedInLive? ==>
            forall k: nat :: k < |positions| && Compatible(setups[i], positions[k]) ==>
              exists j: nat :: j < i && given[j].Some? && positions[given[j].value].id == positions[k].id)
      && (row.liveEntry.Some? <==> given[i].Some? && IsFilled(positions[given[i].value]))
      && (row.liveEntry.Some? ==> Compatible(setups[i], positions[given[i].value]))
      && (row.status.ExactMatch? <==>
            && row.liveEntry.Some? && !IsInFlight(positions[given[i].value])
            && ExactOutcome(setups[i], positions[given[i].value])
            && row.slippage.Some? && row.slippage.value < 0.5)
  {
    hide Compatible, ExactOutcome, Slip;
    MatchingIsFirstFit(setups, positions, |setups|, i);
  }

  // ---------------------------------------------------------------- the report

  function OnDay(dateOf: int -> int, day: int): Setup -> bool {
    (s: Setup) => s.reclaimTime != 0 && dateOf(s.reclaimTime) == day
  }

  function Monitored(setups: seq<Setup>, bootTime: int): seq<Setup> {
    if bootTime > 0 then Keep(setups, (s: Setup) => s.reclaimTime >= bootTime) else setups
  }

  function PreDaemon(setups: seq<Setup>, bootTime: int): seq<Setup> {
    if bootTime > 0 then Keep(setups, (s: Setup) => s.reclaimTime < bootTime) else []
  }

  /** Boot time splits the day's setups: none is lost, none is counted twice. */
  lemma {:induction false} BootTimeSplits(setups: seq<Setup>, bootTime: int)
    ensures multiset(Monitored(setups, bootTime)) + multiset(PreDaemon(setups, bootTime)) == multiset(setups)
    ensures |Monitored(setups, bootTime)| + |PreDaemon(setups, bootTime)| == |setups|
    ensures bootTime > 0 ==>
      && (forall s :: s in Monitored(setups, bootTime) ==> s.reclaimTime >= bootTime)
      && (forall s :: s in PreDaemon(setups, bootTime) ==> s.reclaimTime < bootTime)
  {
    if bootTime > 0 {
      var after, before := (s: Setup) => s.reclaimTime >= bootTime, (s: Setup) => s.reclaimTime < bootTime;
      KeepSplits(setups, after, before);
      KeepAll(setups, after);
      KeepAll(setups, before);
    }
  }

  /** The whole reconciliation. Every setup of the day gets exactly one row, and the
      matching behind the live rows is one-to-one. */
  method RunReconciliation(
    setups: seq<Setup>, completedTrades: seq<Position>, events: seq<Option<Position>>, bootTime: int, dateOf: int -> int, day: int)
    returns (liveRows: seq<Row>, preRows: seq<Row>, ghost positions: seq<Position>, ghost given: seq<Option<nat>>)
    ensures var end := FoldEvents(FoldCompleted(completedTrades, |completedTrades|), events, |events|);
      WellKeyed(end) && positions == Values(end)
    ensures |liveRows| + |preRows| == |Keep(setups, OnDay(dateOf, day))|
    ensures var monitored := Monitored(Keep(setups, OnDay(dateOf, day)), bootTime);
      && given == Assign(monitored, positions, |monitored|) && |liveRows| == |monitored|
      && OneToOne(given, positions)
      && forall i :: 0 <= i < |monitored| ==> liveRows[i] == RowFor(monitored[i], positions, given[i])
    ensures var pre := PreDaemon(Keep(setups, OnDay(dateOf, day)), bootTime);
      |preRows| == |pre| && forall i :: 0 <= i < |pre| ==> preRows[i] == PreRow(pre[i])
  {
    hide Compatible, FoldEvents, FoldCompleted, Keep, RowFor, PreRow, Monitored, PreDaemon;
    var targetDaySetups := Keep(setups, OnDay(dateOf, day));
    var liveMonitoredSetups := Monitored(targetDaySetups, bootTime);
    var preDaemonSetups := PreDaemon(targetDaySetups, bootTime);
    BootTimeSplits(targetDaySetups, bootTime);
    var allLivePositions := CollectPositions(completedTrades, events);
    positions := allLivePositions;
    liveRows, given := MatchSetups(liveMonitoredSetups, allLivePositions);
    MatchingIsOneToOne(liveMonitoredSetups, positions, |liveMonitoredSetups|);
    preRows := seq(|preDaemonSetups|, i requires 0 <= i < |preDaemonSetups| => PreRow(preDaemonSetups[i]));
  }
}
