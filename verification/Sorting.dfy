/** The quicksort of td_qsort, and what one bounded sort does to a list that is nearly sorted. */
module Sorting {

  ghost predicate Ascending(s: seq<nat>) {
    forall i, j | 0 <= i < j < |s| :: s[i] <= s[j]
  }

  ghost predicate IsSortOf(s: seq<nat>, s': seq<nat>) {
    Ascending(s') && multiset(s') == multiset(s)
  }

  /** The elements that compare with the pivot as c says, in order. */
  ghost function Dealt(s: seq<nat>, pivot: nat, c: int): (d: seq<nat>)
    ensures |d| <= |s|
  {
    if s == [] then [] else
      var x := s[|s| - 1];
      Dealt(s[..|s| - 1], pivot, c) +
      if (c < 0 && x < pivot) || (c == 0 && x == pivot) || (c > 0 && x > pivot) then [x] else []
  }

  lemma {:induction false} DealtAll(s: seq<nat>, pivot: nat)
    ensures multiset(s) == multiset(Dealt(s, pivot, -1)) + multiset(Dealt(s, pivot, 0)) + multiset(Dealt(s, pivot, 1))
  {
    if s != [] {
      DealtAll(s[..|s| - 1], pivot);
      assert s == s[..|s| - 1] + [s[|s| - 1]];
    }
  }

  lemma {:induction false} DealtRight(s: seq<nat>, pivot: nat)
    ensures forall x | x in Dealt(s, pivot, -1) :: x < pivot
    ensures forall x | x in Dealt(s, pivot, 0) :: x == pivot
    ensures forall x | x in Dealt(s, pivot, 1) :: x > pivot
  {
    if s != [] {
      DealtRight(s[..|s| - 1], pivot);
    }
  }

  lemma {:induction false} DealtLess(s: seq<nat>, i: nat)
    requires i < |s|
    ensures |Dealt(s, s[i], -1)| < |s| && |Dealt(s, s[i], 1)| < |s|
    decreases |s|
  {
    if i < |s| - 1 {
      DealtLess(s[..|s| - 1], i);
    }
  }

  /** Deals the elements out by how they compare with the pivot. */
  method Partition(list: array<nat>, pivotpos: nat) returns (smaller: seq<nat>, equal: seq<nat>, bigger: seq<nat>)
    requires pivotpos < list.Length
    ensures smaller == Dealt(list[..], list[pivotpos], -1)
    ensures equal == Dealt(list[..], list[pivotpos], 0)
    ensures bigger == Dealt(list[..], list[pivotpos], 1)
  {
    var pivotval := list[pivotpos];
    smaller, equal, bigger := [], [], [];
    for i := 0 to list.Length
      invariant smaller == Dealt(list[..i], pivotval, -1)
      invariant equal == Dealt(list[..i], pivotval, 0)
      invariant bigger == Dealt(list[..i], pivotval, 1)
    {
      assert list[..i + 1] == list[..i] + [list[i]];
      if i == pivotpos {
        equal := equal + [pivotval];
      } else if list[i] < pivotval {
        smaller := smaller + [list[i]];
      } else if list[i] > pivotval {
        bigger := bigger + [list[i]];
      } else {
        equal := equal + [pivotval];
      }
    }
    assert list[..list.Length] == list[..];
  }

  lemma Joined(s: seq<nat>, pivot: nat, a: seq<nat>, b: seq<nat>)
    requires IsSortOf(Dealt(s, pivot, -1), a) && IsSortOf(Dealt(s, pivot, 1), b)
    ensures IsSortOf(s, a + Dealt(s, pivot, 0) + b)
    ensures |a| + |Dealt(s, pivot, 0)| + |b| == |s|
  {
    hide Dealt;
    DealtAll(s, pivot);
    DealtRight(s, pivot);
    var smaller, equal, bigger := Dealt(s, pivot, -1), Dealt(s, pivot, 0), Dealt(s, pivot, 1);
    forall i | 0 <= i < |a| ensures a[i] < pivot {
      assert a[i] in multiset(a);
      assert a[i] in smaller;
    }
    forall i | 0 <= i < |b| ensures b[i] > pivot {
      assert b[i] in multiset(b);
      assert b[i] in bigger;
    }
    assert forall i | 0 <= i < |equal| :: equal[i] in equal;
    SameLength(s, a, equal, b);
  }

  /** Writes s over the array from position l on. */
  method Overwrite(list: array<nat>, l: nat, s: seq<nat>)
    requires l + |s| <= list.Length
    modifies list
    ensures list[l..l + |s|] == s
    ensures list[..l] == old(list[..l]) && list[l + |s|..] == old(list[l + |s|..])
  {
    for i := 0 to |s|
      invariant list[l..l + i] == s[..i]
      invariant forall k | 0 <= k < list.Length && !(l <= k < l + i) :: list[k] == old(list[k])
    {
      list[l + i] := s[i];
    }
  }

  method SortPair(list: array<nat>)
    requires list.Length == 2
    modifies list
    ensures IsSortOf(old(list[..]), list[..])
  {
    ghost var was := list[..];
    assert was == [list[0], list[1]];
    if list[0] > list[1] {
      var tmp := list[0];
      list[0] := list[1];
      list[1] := tmp;
    }
    assert list[..] == if was[0] > was[1] then [was[1], was[0]] else was;
  }

  /** Sorts the array: three ways around the middle element. */
  method Qsort(list: array<nat>)
    modifies list
    ensures IsSortOf(old(list[..]), list[..])
    decreases list.Length
  {
    var length := list.Length;
    if length <= 1 {
      return;
    } else if length == 2 {
      SortPair(list);
      return;
    }
    hide IsSortOf, Dealt;
    ghost var was, pivot := list[..], list[length / 2];
    var smaller, equal, bigger := Partition(list, length / 2);
    DealtLess(was, length / 2);
    var a := new nat[|smaller|](i requires 0 <= i < |smaller| => smaller[i]);
    var b := new nat[|bigger|](i requires 0 <= i < |bigger| => bigger[i]);
    assert a[..] == smaller && b[..] == bigger;
    Qsort(a);
    Qsort(b);
    Joined(was, pivot, a[..], b[..]);
    OverwriteAll(list, a[..], equal, b[..]);
  }

  method OverwriteAll(list: array<nat>, a: seq<nat>, e: seq<nat>, b: seq<nat>)
    requires |a| + |e| + |b| == list.Length
    modifies list
    ensures list[..] == a + e + b
  {
    Overwrite(list, 0, a);
    assert list[..|a|] == a;
    Overwrite(list, |a|, e);
    assert list[..|a| + |e|] == a + e by {
      assert list[..|a| + |e|] == list[..|a|] + list[|a|..|a| + |e|];
    }
    Overwrite(list, |a| + |e|, b);
    assert list[..] == list[..|a| + |e|] + list[|a| + |e|..];
  }

  lemma SameLength(s: seq<nat>, a: seq<nat>, e: seq<nat>, b: seq<nat>)
    requires multiset(s) == multiset(a) + multiset(e) + multiset(b)
    ensures |s| == |a| + |e| + |b|
  {
    assert |multiset(s)| == |s| && |multiset(a)| == |a| && |multiset(e)| == |e| && |multiset(b)| == |b|;
  }

  // ------------------------------------------------------------ sorting a list a step at a time

  /** The first position from i on whose successor is smaller, or the list's length. */
  ghost function Descent(s: seq<nat>, i: nat): (d: nat)
    requires i <= |s|
    ensures i <= d <= |s|
    ensures d < |s| ==> d + 1 < |s| && s[d + 1] < s[d]
    ensures forall j | i <= j < d && j + 1 < |s| :: s[j] <= s[j + 1]
    decreases |s| - i
  {
    if i + 1 >= |s| then |s| else if s[i + 1] < s[i] then i else Descent(s, i + 1)
  }

  ghost function Least(a: nat, b: nat): nat {
    if a < b then a else b
  }

  /** What one bounded sort does: from the first descent on, if it is near enough, at most level elements are sorted. */
  ghost predicate SortStep(s: seq<nat>, s': seq<nat>, level: nat) {
    var i := Descent(s, 0);
    if i >= |s| || i >= level then s' == s else
      var e := i + Least(level, |s| - i);
      && |s'| == |s| && s'[..i] == s[..i] && s'[e..] == s[e..]
      && IsSortOf(s[i..e], s'[i..e])
  }

  lemma {:induction false} Climbing(s: seq<nat>, i: nat, j: nat)
    requires i <= j < |s|
    requires forall k | i <= k < j :: s[k] <= s[k + 1]
    ensures s[i] <= s[j]
    decreases j
  {
    if i < j {
      Climbing(s, i, j - 1);
    }
  }

  lemma NoDescent(s: seq<nat>)
    requires Descent(s, 0) == |s|
    ensures Ascending(s)
  {
    forall i, j | 0 <= i < j < |s| ensures s[i] <= s[j] {
      Climbing(s, i, j);
    }
  }

  lemma DescentIs(s: seq<nat>, d: nat)
    requires forall j | 0 <= j < d && j + 1 < |s| :: s[j] <= s[j + 1]
    requires d == |s| || (d + 1 < |s| && s[d + 1] < s[d])
    ensures Descent(s, 0) == d
  {
  }

  lemma SortKeepsElements(s: seq<nat>, s': seq<nat>, level: nat)
    requires SortStep(s, s', level)
    ensures multiset(s') == multiset(s) && |s'| == |s|
  {
    var i := Descent(s, 0);
    hide Descent, Ascending;
    if i < |s| && i < level {
      var e := i + Least(level, |s| - i);
      assert s == s[..i] + s[i..e] + s[e..] && s' == s'[..i] + s'[i..e] + s'[e..];
    }
  }

  lemma SortedRest(s: seq<nat>, s': seq<nat>, level: nat)
    requires SortStep(s, s', level) && level >= |s| && Descent(s, 0) < |s|
    ensures |s'| == |s|
    ensures forall j | 0 <= j < Descent(s, 0) :: s'[j] == s[j]
    ensures forall j | Descent(s, 0) <= j < |s| - 1 :: s'[j] <= s'[j + 1]
  {
    SortedWhole(s, s', level);
    hide Descent, SortStep;
    PartsAt(s, s', Descent(s, 0));
  }

  lemma SortedWhole(s: seq<nat>, s': seq<nat>, level: nat)
    requires SortStep(s, s', level) && level >= |s| && Descent(s, 0) < |s|
    ensures var i := Descent(s, 0); |s'| == |s| && s'[..i] == s[..i] && IsSortOf(s[i..|s|], s'[i..|s|])
  {
    hide Descent, IsSortOf;
    var i := Descent(s, 0);
    assert i + Least(level, |s| - i) == |s|;
  }

  lemma PartsAt(s: seq<nat>, s': seq<nat>, i: nat)
    requires i <= |s| == |s'| && s'[..i] == s[..i] && IsSortOf(s[i..|s|], s'[i..|s|])
    ensures forall j | 0 <= j < i :: s'[j] == s[j]
    ensures forall j | i <= j < |s| - 1 :: s'[j] <= s'[j + 1]
  {
    var tail := s'[i..|s|];
    forall j | 0 <= j < i ensures s'[j] == s[j] {
      assert s'[..i][j] == s[..i][j];
    }
    forall j | i <= j < |s| - 1 ensures s'[j] <= s'[j + 1] {
      assert tail[j - i] == s'[j] && tail[j - i + 1] == s'[j + 1];
    }
  }

  /** From the b-th place on the list does not descend. */
  ghost predicate AscendsFrom(s: seq<nat>, b: nat) {
    forall j | b <= j && j + 1 < |s| :: s[j] <= s[j + 1]
  }

  lemma AscendsThroughout(s: seq<nat>)
    requires AscendsFrom(s, 0)
    ensures Ascending(s)
  {
    forall i, j | 0 <= i < j < |s| ensures s[i] <= s[j] {
      Climbing(s, i, j);
    }
  }

  /** A sort over the whole rest of the list leaves descents only before the first one. */
  lemma SortAscends(s: seq<nat>, s': seq<nat>, level: nat, b: nat)
    requires SortStep(s, s', level) && level >= |s| && AscendsFrom(s, b) && b > 0
    ensures |s'| == |s| && AscendsFrom(s', b - 1)
  {
    if Descent(s, 0) < |s| {
      SortedRest(s, s', level);
    }
  }

  /** A sort over the whole rest of the list moves the first descent one place forward, or leaves none. */
  lemma DescentRetreats(s: seq<nat>, s': seq<nat>, level: nat)
    requires SortStep(s, s', level) && level >= |s| && Descent(s, 0) < |s|
    ensures Descent(s', 0) == |s'| || Descent(s', 0) + 1 == Descent(s, 0)
  {
    SortedRest(s, s', level);
    var i := Descent(s, 0);
    hide SortStep;
    DescentIs(s', if i > 0 && s'[i] < s'[i - 1] then i - 1 else |s'|);
  }

  lemma OneMoreSort(s: seq<nat>, s': seq<nat>, level: nat, d: nat)
    requires SortStep(s, s', level) && level >= |s|
    requires Descent(s, 0) == |s| || Descent(s, 0) <= d
    ensures |s'| == |s| && multiset(s') == multiset(s)
    ensures Descent(s', 0) == |s'| || Descent(s', 0) + 1 <= d
    ensures Descent(s, 0) == |s| ==> Descent(s', 0) == |s'|
  {
    SortKeepsElements(s, s', level);
    if Descent(s, 0) < |s| {
      DescentRetreats(s, s', level);
    }
  }

  /** A list of n chunks is in order after n such sorts. */
  lemma {:induction false} SortsConverge(runs: seq<seq<nat>>, level: nat, k: nat)
    requires k < |runs| && level >= |runs[0]|
    requires forall j | 0 <= j < |runs| - 1 :: SortStep(runs[j], runs[j + 1], level)
    ensures |runs[k]| == |runs[0]| && multiset(runs[k]) == multiset(runs[0])
    ensures Descent(runs[k], 0) == |runs[k]| || Descent(runs[k], 0) + k <= Descent(runs[0], 0)
    ensures Descent(runs[0], 0) == |runs[0]| ==> Descent(runs[k], 0) == |runs[k]|
    ensures k >= |runs[0]| ==> Ascending(runs[k])
    decreases k
  {
    hide SortStep, Descent;
    if k > 0 {
      SortsConverge(runs, level, k - 1);
      var s, s' := runs[k - 1], runs[k - 1 + 1];
      OneMoreSort(s, s', level, if Descent(s, 0) == |s| then 0 else Descent(runs[0], 0) - (k - 1));
    }
    if Descent(runs[k], 0) == |runs[k]| {
      NoDescent(runs[k]);
    }
  }
}
