/** Sorting by a key as `Array.prototype.sort` does it (stably), and counting of
    indices that keep a minimum distance. */
module Ordering {

  /** Puts an element before every later element whose key is not smaller. */
  function Insert<T>(x: T, s: seq<T>, key: T -> int): (r: seq<T>)
    ensures |r| == |s| + 1
  {
    if s == [] || key(x) <= key(s[0]) then [x] + s else [s[0]] + Insert(x, s[1..], key)
  }

  function SortBy<T>(s: seq<T>, key: T -> int): (r: seq<T>)
    ensures |r| == |s|
  {
    if s == [] then [] else Insert(s[0], SortBy(s[1..], key), key)
  }

  ghost predicate Ascending<T>(s: seq<T>, key: T -> int) {
    forall i, j :: 0 <= i < j < |s| ==> key(s[i]) <= key(s[j])
  }

  lemma {:induction false} InsertMembers<T>(x: T, s: seq<T>, key: T -> int)
    ensures multiset(Insert(x, s, key)) == multiset{x} + multiset(s)
  {
    if s == [] || key(x) <= key(s[0]) {
    } else {
      InsertMembers(x, s[1..], key);
      assert s == [s[0]] + s[1..];
    }
  }

  lemma {:induction false} InsertAscending<T>(x: T, s: seq<T>, key: T -> int)
    requires Ascending(s, key)
    ensures Ascending(Insert(x, s, key), key)
  {
    if s == [] || key(x) <= key(s[0]) {
    } else {
      InsertAscending(x, s[1..], key);
      InsertMembers(x, s[1..], key);
      var r := Insert(x, s[1..], key);
      forall j | 0 <= j < |r| ensures key(s[0]) <= key(r[j]) {
        assert r[j] in multiset(r);
        if r[j] != x {
          assert r[j] in s[1..];
        }
      }
    }
  }

  /** Sorting orders by key and keeps exactly the same elements. */
  lemma {:induction false} SortByCorrect<T>(s: seq<T>, key: T -> int)
    ensures Ascending(SortBy(s, key), key)
    ensures multiset(SortBy(s, key)) == multiset(s)
  {
    if s != [] {
      SortByCorrect(s[1..], key);
      InsertAscending(s[0], SortBy(s[1..], key), key);
      InsertMembers(s[0], SortBy(s[1..], key), key);
      assert s == [s[0]] + s[1..];
    }
  }

  // ------------------------------------------------------------------ filtering

  /** `Array.prototype.filter`. */
  function Keep<T>(s: seq<T>, p: T -> bool): (r: seq<T>)
    ensures |r| <= |s|
  {
    if s == [] then [] else (if p(s[0]) then [s[0]] else []) + Keep(s[1..], p)
  }

  lemma {:induction false} KeepSplits<T>(s: seq<T>, p: T -> bool, q: T -> bool)
    requires forall x :: x in s ==> p(x) == !q(x)
    ensures multiset(Keep(s, p)) + multiset(Keep(s, q)) == multiset(s)
    ensures |Keep(s, p)| + |Keep(s, q)| == |s|
  {
    if s != [] {
      KeepSplits(s[1..], p, q);
      assert s == [s[0]] + s[1..];
    }
  }

  lemma {:induction false} KeepAll<T>(s: seq<T>, p: T -> bool)
    ensures forall x :: x in Keep(s, p) <==> x in s && p(x)
  {
    if s != [] {
      KeepAll(s[1..], p);
    }
  }

  lemma {:induction false} KeepNone<T>(p: T -> bool)
    ensures Keep([], p) == []
  {
  }

  lemma {:induction false} KeepOne<T>(x: T, p: T -> bool)
    ensures Keep([x], p) == if p(x) then [x] else []
  {
  }

  lemma {:induction false} KeepCons<T>(x: T, s: seq<T>, p: T -> bool)
    ensures Keep([x] + s, p) == (if p(x) then [x] else []) + Keep(s, p)
  {
    assert ([x] + s)[1..] == s;
  }

  lemma {:induction false} KeepConcat<T>(a: seq<T>, b: seq<T>, p: T -> bool)
    ensures Keep(a + b, p) == Keep(a, p) + Keep(b, p)
  {
    if a == [] {
      assert a + b == b;
    } else {
      hide Keep;
      KeepConcat(a[1..], b, p);
      KeepCons(a[0], a[1..] + b, p);
      KeepCons(a[0], a[1..], p);
      assert a + b == [a[0]] + (a[1..] + b) && a == [a[0]] + a[1..];
    }
  }

  lemma {:induction false} KeepTwice<T>(s: seq<T>, p: T -> bool, q: T -> bool, both: T -> bool)
    requires forall x :: x in s ==> both(x) == (p(x) && q(x))
    ensures Keep(Keep(s, p), q) == Keep(s, both)
  {
    hide Keep;
    if s == [] {
      KeepNone(p);
      KeepNone(q);
      KeepNone(both);
    } else {
      var rest := s[1..];
      KeepTwice(rest, p, q, both);
      assert s == [s[0]] + rest;
      KeepCons(s[0], rest, p);
      KeepCons(s[0], rest, both);
      KeepCons(s[0], Keep(rest, p), q);
      assert [] + Keep(rest, p) == Keep(rest, p);
    }
  }

  lemma {:induction false} KeepCounts<T>(s: seq<T>, p: T -> bool, x: T)
    ensures multiset(Keep(s, p))[x] == if p(x) then multiset(s)[x] else 0
  {
    if s != [] {
      KeepCounts(s[1..], p, x);
      assert s == [s[0]] + s[1..];
      assert multiset(s)[x] == multiset(s[1..])[x] + if s[0] == x then 1 else 0;
      assert Keep(s, p) == (if p(s[0]) then [s[0]] else []) + Keep(s[1..], p);
    }
  }

  lemma {:induction false} KeepSameBag<T(!new)>(a: seq<T>, b: seq<T>, p: T -> bool)
    requires multiset(a) == multiset(b)
    ensures multiset(Keep(a, p)) == multiset(Keep(b, p))
  {
    hide Keep;
    forall x: T ensures multiset(Keep(a, p))[x] == multiset(Keep(b, p))[x] {
      KeepCounts(a, p, x);
      KeepCounts(b, p, x);
    }
  }

  lemma {:induction false} SmallBags<T>(a: seq<T>, b: seq<T>)
    requires multiset(a) == multiset(b) && |b| <= 1
    ensures a == b
  {
    assert |multiset(a)| == |a| && |multiset(b)| == |b|;
    if b != [] {
      assert a[0] in multiset(b);
    }
  }

  /** What is kept of a list does not depend on its order when that is one element at most. */
  lemma {:induction false} KeepOfPermutation<T(!new)>(a: seq<T>, b: seq<T>, p: T -> bool)
    requires multiset(a) == multiset(b) && |Keep(b, p)| <= 1
    ensures Keep(a, p) == Keep(b, p)
  {
    hide Keep;
    KeepSameBag(a, b, p);
    SmallBags(Keep(a, p), Keep(b, p));
  }

  /** r is what s holds at the increasing places `at`, which are those that satisfy p. */
  ghost predicate IsSelection<T>(r: seq<T>, s: seq<T>, p: T -> bool, at: seq<int>) {
    && |at| == |r| && Spaced(at, 1)
    && (forall k :: 0 <= k < |at| ==> 0 <= at[k] < |s| && p(s[at[k]]) && r[k] == s[at[k]])
    && (forall i :: 0 <= i < |s| && p(s[i]) ==> i in at)
  }

  lemma {:induction false} SelectionSkip<T>(x: T, r: seq<T>, s: seq<T>, p: T -> bool, at: seq<int>)
    requires !p(x) && |at| == |r| && Spaced(at, 1)
    requires forall k :: 0 <= k < |at| ==> 1 <= at[k] <= |s| && p(s[at[k] - 1]) && r[k] == s[at[k] - 1]
    requires forall i :: 1 <= i <= |s| && p(s[i - 1]) ==> i in at
    ensures IsSelection(r, [x] + s, p, at)
  {
    hide Spaced;
    var more := [x] + s;
    forall i | 0 <= i < |more| && p(more[i]) ensures i in at {
      assert more[i] == s[i - 1];
    }
  }

  lemma {:induction false} SelectionTake<T>(x: T, r: seq<T>, s: seq<T>, p: T -> bool, at: seq<int>)
    requires p(x) && |at| == |r| && Spaced(at, 1)
    requires forall k :: 0 <= k < |at| ==> 1 <= at[k] <= |s| && p(s[at[k] - 1]) && r[k] == s[at[k] - 1]
    requires forall i :: 1 <= i <= |s| && p(s[i - 1]) ==> i in at
    ensures IsSelection([x] + r, [x] + s, p, [0] + at)
  {
    var more, all := [x] + s, [0] + at;
    forall i | 0 <= i < |more| && p(more[i]) ensures i in all {
      if i > 0 {
        assert more[i] == s[i - 1];
        assert i in at;
      }
    }
    forall j, k | 0 <= j < k < |all| ensures all[j] + 1 <= all[k] {
      if j > 0 {
        assert at[j - 1] + 1 <= at[k - 1];
      }
    }
  }

  lemma {:induction false} ShiftKeepsGaps(later: seq<int>, at: seq<int>)
    requires Spaced(later, 1) && |at| == |later| && forall k :: 0 <= k < |at| ==> at[k] == later[k] + 1
    ensures Spaced(at, 1)
  {
  }

  lemma {:induction false} SelectionShift<T>(r: seq<T>, s: seq<T>, p: T -> bool, later: seq<int>) returns (at: seq<int>)
    requires IsSelection(r, s, p, later)
    ensures |at| == |r| && Spaced(at, 1)
    ensures forall k :: 0 <= k < |at| ==> 1 <= at[k] <= |s| && p(s[at[k] - 1]) && r[k] == s[at[k] - 1]
    ensures forall i :: 1 <= i <= |s| && p(s[i - 1]) ==> i in at
  {
    hide Spaced;
    at := seq(|later|, k requires 0 <= k < |later| => later[k] + 1);
    ShiftKeepsGaps(later, at);
    forall i | 1 <= i <= |s| && p(s[i - 1]) ensures i in at {
      var k :| 0 <= k < |later| && later[k] == i - 1;
      assert at[k] == i;
    }
  }

  lemma {:induction false} SelectionCons<T>(x: T, r: seq<T>, s: seq<T>, p: T -> bool, later: seq<int>) returns (at: seq<int>)
    requires IsSelection(r, s, p, later)
    ensures IsSelection((if p(x) then [x] else []) + r, [x] + s, p, at)
  {
    hide IsSelection, Spaced;
    at := SelectionShift(r, s, p, later);
    if p(x) {
      SelectionTake(x, r, s, p, at);
      at := [0] + at;
    } else {
      SelectionSkip(x, r, s, p, at);
      assert [] + r == r;
    }
  }

  /** Filtering keeps the elements at the places that satisfy p, all of them, in order. */
  lemma {:induction false} KeepIsSelection<T>(s: seq<T>, p: T -> bool) returns (at: seq<int>)
    ensures IsSelection(Keep(s, p), s, p, at)
  {
    hide IsSelection;
    if s == [] {
      at := [];
      NothingSelected(p);
    } else {
      var later := KeepIsSelection(s[1..], p);
      at := SelectionCons(s[0], Keep(s[1..], p), s[1..], p, later);
      assert [s[0]] + s[1..] == s;
    }
  }

  lemma {:induction false} NothingSelected<T>(p: T -> bool)
    ensures IsSelection([], [], p, [])
  {
  }

  function WithKey<T>(s: seq<T>, key: T -> int, v: int): seq<T> { Keep(s, (x: T) => key(x) == v) }

  lemma {:induction false} InsertKeepsOrder<T>(x: T, s: seq<T>, key: T -> int, v: int)
    ensures WithKey(Insert(x, s, key), key, v) == WithKey([x] + s, key, v)
  {
    if s == [] || key(x) <= key(s[0]) {
    } else {
      InsertKeepsOrder(x, s[1..], key, v);
      WithKeyCons(s[0], Insert(x, s[1..], key), key, v);
      WithKeyCons(x, s, key, v);
      WithKeyCons(x, s[1..], key, v);
      WithKeyCons(s[0], s[1..], key, v);
      assert [s[0]] + s[1..] == s;
    }
  }

  lemma {:induction false} WithKeyCons<T>(x: T, s: seq<T>, key: T -> int, v: int)
    ensures WithKey([x] + s, key, v) == (if key(x) == v then [x] else []) + WithKey(s, key, v)
  {
    KeepCons(x, s, (y: T) => key(y) == v);
  }

  /** The sort is stable: elements with equal keys keep their order. */
  lemma {:induction false} SortIsStable<T>(s: seq<T>, key: T -> int, v: int)
    ensures WithKey(SortBy(s, key), key, v) == WithKey(s, key, v)
  {
    if s != [] {
      var sorted := SortBy(s[1..], key);
      SortIsStable(s[1..], key, v);
      InsertKeepsOrder(s[0], sorted, key, v);
      WithKeyCons(s[0], sorted, key, v);
      WithKeyCons(s[0], s[1..], key, v);
      assert [s[0]] + s[1..] == s;
    }
  }

  // -------------------------------------------------------------- no repetition

  ghost predicate AllDistinct<T>(s: seq<T>) {
    forall i, j :: 0 <= i < j < |s| ==> s[i] != s[j]
  }

  /** Not repeating an element is a matter of the bag, not of the order. */
  lemma {:induction false} DistinctFromMultiset<T>(s: seq<T>)
    ensures AllDistinct(s) <==> forall p :: multiset(s)[p] <= 1
  {
    if s != [] {
      DistinctFromMultiset(s[1..]);
      assert s == [s[0]] + s[1..];
      assert forall i :: 1 <= i < |s| ==> s[i] == s[1..][i - 1];
      if AllDistinct(s) {
        assert AllDistinct(s[1..]);
        assert s[0] !in s[1..];
      } else if AllDistinct(s[1..]) {
        assert s[0] in s[1..];
        assert multiset(s)[s[0]] >= 2;
      } else {
        var p :| multiset(s[1..])[p] > 1;
        assert multiset(s)[p] > 1;
      }
    }
  }

  /** The elements in the order in which they are first met, each once. */
  function FirstSeen<T(==)>(s: seq<T>): seq<T> {
    if s == [] then []
    else
      var front, last := FirstSeen(s[..|s| - 1]), s[|s| - 1];
      if last in front then front else front + [last]
  }

  lemma {:induction false} FirstSeenStep<T>(s: seq<T>, x: T)
    ensures FirstSeen(s + [x]) == if x in FirstSeen(s) then FirstSeen(s) else FirstSeen(s) + [x]
  {
    assert (s + [x])[..|s|] == s;
  }

  /** They stand at increasing places, each the first of its element, and miss none. */
  ghost predicate AreFirsts<T>(r: seq<T>, s: seq<T>, at: seq<int>) {
    && |at| == |r| && Spaced(at, 1)
    && (forall k :: 0 <= k < |at| ==> 0 <= at[k] < |s| && r[k] == s[at[k]])
    && (forall k, i :: 0 <= k < |at| && 0 <= i < at[k] ==> s[i] != r[k])
    && (forall i :: 0 <= i < |s| ==> s[i] in r)
  }

  lemma {:induction false} FirstsGrow<T>(r: seq<T>, s: seq<T>, at: seq<int>, x: T)
    requires AreFirsts(r, s, at)
    ensures x in r ==> AreFirsts(r, s + [x], at)
    ensures x !in r ==> AreFirsts(r + [x], s + [x], at + [|s|])
  {
    if x !in r {
      forall i | 0 <= i < |s| ensures s[i] != x {
        assert s[i] in r;
      }
    }
  }

  lemma {:induction false} FirstSeenAreFirsts<T>(s: seq<T>) returns (at: seq<int>)
    ensures AreFirsts(FirstSeen(s), s, at)
  {
    hide AreFirsts;
    if s == [] {
      at := [];
      NoFirsts<T>();
    } else {
      var n := |s| - 1;
      at := FirstSeenAreFirsts(s[..n]);
      FirstsGrow(FirstSeen(s[..n]), s[..n], at, s[n]);
      assert s == s[..n] + [s[n]];
      if s[n] !in FirstSeen(s[..n]) {
        at := at + [n];
      }
    }
  }

  lemma {:induction false} NoFirsts<T>()
    ensures AreFirsts<T>([], [], [])
  {
  }

  // ---------------------------------------------------------------- distances

  ghost predicate Spaced(at: seq<int>, gap: int) {
    forall i, j :: 0 <= i < j < |at| ==> at[i] + gap <= at[j]
  }

  lemma {:induction false} SpacedSpan(at: seq<int>, gap: int)
    requires Spaced(at, gap) && at != []
    ensures at[0] + (|at| - 1) * gap <= at[|at| - 1]
  {
    if |at| > 1 {
      var front := at[..|at| - 1];
      SpacedSpan(front, gap);
      assert front[|front| - 1] + gap <= at[|at| - 1];
    }
  }

  /** floor(span / gap) + 1: how many indices at least `gap` apart fit into span + 1 places. */
  function MaxCount(span: int, gap: int): int
    requires gap > 0
  {
    if span < 0 then 0 else span / gap + 1
  }

  lemma {:induction false} SpacedCount(at: seq<int>, gap: int, lo: int, span: int)
    requires gap > 0 && Spaced(at, gap)
    requires forall i :: 0 <= i < |at| ==> lo <= at[i] <= lo + span
    ensures |at| <= MaxCount(span, gap)
  {
    if at != [] {
      assert lo <= at[0] && at[|at| - 1] <= lo + span;
      SpacedSpan(at, gap);
      DivisionBound(|at| - 1, gap, span);
    }
  }

  lemma {:induction false} Scale(a: int, b: int, gap: int)
    requires gap > 0
    ensures a * gap <= b * gap <==> a <= b
  {
    assert (b - a) * gap == b * gap - a * gap;
  }

  lemma {:induction false} DivisionBound(k: int, gap: int, span: int)
    requires gap > 0 && k * gap <= span
    ensures k <= span / gap
  {
    Scale(span / gap + 1, k, gap);
  }
}
