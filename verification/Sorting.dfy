/** The in-place quicksort of deque.c. */
module Sorting {

  type Comparator<!T> = (T, T) -> int

  /** What a comparison function compatible with `qsort` promises. */
  ghost predicate TotalPreorder<T(!new)>(comp: Comparator<T>) {
    && (forall x, y :: comp(x, y) < 0 <==> comp(y, x) > 0)
    && (forall x, y, z :: comp(x, y) <= 0 && comp(y, z) <= 0 ==> comp(x, z) <= 0)
  }

  lemma Reflexive<T(!new)>(comp: Comparator<T>, x: T)
    requires TotalPreorder(comp)
    ensures comp(x, x) == 0
  {
  }

  lemma Flip<T(!new)>(comp: Comparator<T>, x: T, y: T)
    requires TotalPreorder(comp)
    ensures comp(x, y) <= 0 <==> comp(y, x) >= 0
  {
  }

  lemma Transitive<T(!new)>(comp: Comparator<T>, x: T, y: T, z: T)
    requires TotalPreorder(comp) && comp(x, y) <= 0 && comp(y, z) <= 0
    ensures comp(x, z) <= 0
  {
  }

  ghost predicate SortedBetween<T>(comp: Comparator<T>, s: seq<T>, low: int, end: int)
    requires 0 <= low && end <= |s|
  {
    forall a, b :: low <= a < b < end ==> comp(s[a], s[b]) <= 0
  }

  /** `element` is not smaller than anything in s[low..end]. */
  ghost predicate Bounds<T>(comp: Comparator<T>, element: T, s: seq<T>, low: int, end: int)
    requires 0 <= low && end <= |s|
  {
    forall k :: low <= k < end ==> comp(element, s[k]) >= 0
  }

  /** Same elements in s[low..end], and nothing changed elsewhere. */
  ghost predicate Rearranged<T>(before: seq<T>, after: seq<T>, low: int, end: int) {
    && |before| == |after|
    && 0 <= low <= end <= |before|
    && before[..low] == after[..low]
    && before[end..] == after[end..]
    && multiset(before[low..end]) == multiset(after[low..end])
  }

  lemma SwapRearranges<T>(s: seq<T>, a: int, b: int, low: int, end: int)
    requires 0 <= low <= a < end <= |s| && low <= b < end
    ensures Rearranged(s, s[a := s[b]][b := s[a]], low, end)
  {
    var r := s[low..end];
    assert s[a := s[b]][b := s[a]][low..end] == r[a - low := r[b - low]][b - low := r[a - low]];
  }

  lemma RearrangedSelf<T>(s: seq<T>, low: int, end: int)
    requires 0 <= low <= end <= |s|
    ensures Rearranged(s, s, low, end)
  {
  }

  lemma RearrangedTransitive<T>(s: seq<T>, t: seq<T>, u: seq<T>, low: int, end: int)
    requires Rearranged(s, t, low, end) && Rearranged(t, u, low, end)
    ensures Rearranged(s, u, low, end)
  {
  }

  lemma RearrangedWider<T>(s: seq<T>, t: seq<T>, low: int, end: int, low': int, end': int)
    requires Rearranged(s, t, low, end) && 0 <= low' <= low && end <= end' <= |s|
    ensures Rearranged(s, t, low', end')
  {
    assert s[..low'] == s[..low][..low'] && t[..low'] == t[..low][..low'];
    assert s[end'..] == s[end..][end' - end..] && t[end'..] == t[end..][end' - end..];
    assert s[low'..low] == s[..low][low'..] == t[..low][low'..] == t[low'..low];
    assert s[end..end'] == s[end..][..end' - end] == t[end..][..end' - end] == t[end..end'];
    assert s[low'..end'] == s[low'..low] + s[low..end] + s[end..end'];
    assert t[low'..end'] == t[low'..low] + t[low..end] + t[end..end'];
  }

  /** Whatever holds of all elements of a range still does after the range was rearranged. */
  lemma RearrangedKeeps<T>(s: seq<T>, t: seq<T>, low: int, end: int, p: T -> bool)
    requires Rearranged(s, t, low, end)
    requires forall k :: low <= k < end ==> p(s[k])
    ensures forall k :: low <= k < end ==> p(t[k])
  {
    forall k | low <= k < end
      ensures p(t[k])
    {
      assert t[k] == t[low..end][k - low] && t[k] in multiset(t[low..end]);
      assert t[k] in s[low..end];
    }
  }

  /** Everything before the pivot is at most the pivot and everything after it at least. */
  ghost predicate Partitioned<T>(comp: Comparator<T>, s: seq<T>, low: int, j: int, end: int)
    requires 0 <= low <= j < end <= |s|
  {
    && (forall k :: low <= k < j ==> comp(s[k], s[j]) <= 0)
    && (forall k :: j < k < end ==> comp(s[k], s[j]) >= 0)
  }

  method Swap<T(!new)>(list: array<T>, a: int, b: int, ghost s0: seq<T>, ghost low: int, ghost end: int)
    requires 0 <= low <= a < end <= list.Length && low <= b < end
    requires Rearranged(s0, list[..], low, end)
    modifies list
    ensures list[a] == old(list[b]) && list[b] == old(list[a])
    ensures forall k :: 0 <= k < list.Length && k != a && k != b ==> list[k] == old(list[k])
    ensures Rearranged(s0, list[..], low, end)
  {
    hide Rearranged;
    SwapRearranges(list[..], a, b, low, end);
    RearrangedTransitive(s0, list[..], list[..][a := list[b]][b := list[a]], low, end);
    list[a], list[b] := list[b], list[a];
  }

  /** The first element of the range is larger than every other one. */
  ghost predicate StrictlyLargest<T>(comp: Comparator<T>, s: seq<T>, low: int, end: int)
    requires 0 <= low && end <= |s|
  {
    low < end && forall k :: low < k < end ==> comp(s[k], s[low]) < 0
  }

  method ScanRight<T>(list: array<T>, key: T, start: int, ghost stop: int, comp: Comparator<T>) returns (i: int)
    requires 0 <= start <= stop < list.Length && comp(list[stop], key) >= 0
    ensures start <= i <= stop && comp(list[i], key) >= 0
    ensures forall k :: start <= k < i ==> comp(list[k], key) < 0
  {
    i := start;
    while comp(list[i], key) < 0
      invariant start <= i <= stop
      invariant forall k :: start <= k < i ==> comp(list[k], key) < 0
      decreases stop - i
    {
      i := i + 1;
    }
  }

  method ScanLeft<T>(list: array<T>, key: T, start: int, ghost stop: int, comp: Comparator<T>) returns (j: int)
    requires 0 <= stop <= start < list.Length && comp(list[stop], key) <= 0
    ensures stop <= j <= start && comp(list[j], key) <= 0
    ensures forall k :: j < k <= start ==> comp(list[k], key) > 0
  {
    j := start;
    while comp(list[j], key) > 0
      invariant stop <= j <= start
      invariant forall k :: j < k <= start ==> comp(list[k], key) > 0
      decreases j
    {
      j := j - 1;
    }
  }

  /** One time round the partitioning loop: both scans, and the swap when they have not met. */
  method Round<T(!new)>(
    list: array<T>, key: T, low: int, high: int, i0: int, j0: int, ghost stop: int, comp: Comparator<T>,
    ghost s0: seq<T>)
    returns (i: int, j: int, flag: bool)
    requires 0 <= low <= i0 < stop <= j0 <= high + 1 <= list.Length && stop < list.Length
    requires list[low] == key && Rearranged(s0, list[..], low, high + 1)
    requires forall k :: low <= k <= i0 ==> comp(list[k], key) <= 0
    requires forall k :: j0 <= k <= high ==> comp(list[k], key) >= 0
    requires comp(list[stop], key) >= 0
    modifies list
    ensures i0 < i <= stop && list[low] == key && Rearranged(s0, list[..], low, high + 1)
    ensures comp(old(list[..])[i], key) >= 0 && forall k :: i0 < k < i ==> comp(old(list[..])[k], key) < 0
    ensures low <= j < j0 && (flag <==> i < j)
    ensures forall k :: low <= k < i || (flag && k == i) || (!flag && k == j) ==> comp(list[k], key) <= 0
    ensures forall k :: j < k <= high || (flag && k == j) ==> comp(list[k], key) >= 0
  {
    hide Rearranged;
    i := ScanRight(list, key, i0 + 1, stop, comp);
    j := ScanLeft(list, key, j0 - 1, i - 1, comp);
    flag := i < j;
    if flag {
      Swap(list, i, j, s0, low, high + 1);
    }
  }

  /** The partitioning loop and the final swap. The scan to the right stops inside the range, unless the first
      element is larger than every other one: then, and only then, the cell after the range is read, and has
      to stop it. The scan to the left is stopped by the pivot itself. */
  method Partition<T(!new)>(list: array<T>, low: int, high: int, comp: Comparator<T>)
    returns (j: int, ghost past: bool)
    requires TotalPreorder(comp)
    requires 0 <= low < high < list.Length
    requires StrictlyLargest(comp, list[..], low, high + 1) ==>
      high + 1 < list.Length && comp(list[high + 1], list[low]) >= 0
    modifies list
    ensures low <= j <= high
    ensures Rearranged(old(list[..]), list[..], low, high + 1)
    ensures Partitioned(comp, list[..], low, j, high + 1)
    ensures past <==> StrictlyLargest(comp, old(list[..]), low, high + 1)
  {
    hide Rearranged, TotalPreorder, StrictlyLargest;
    ghost var s0 := list[..];
    Reflexive(comp, list[low]);
    RearrangedSelf(s0, low, high + 1);
    var key := list[low];
    ghost var stop := FirstStop(comp, s0, low, high);
    var flag, i := true, low;
    j, past := high + 1, false;
    while flag
      invariant low <= i <= high + 1 && low <= j <= high + 1 && list[low] == key
      invariant if i == low then flag && j == high + 1 && list[..] == s0 && !past
                else j <= high && (flag <==> i < j) && (past <==> stop == high + 1)
      invariant Rearranged(s0, list[..], low, high + 1)
      invariant forall k :: low <= k < i || (flag && k == i) || (!flag && k == j) ==> comp(list[k], key) <= 0
      invariant forall k :: j < k <= high || (flag && k == j <= high) ==> comp(list[k], key) >= 0
      decreases j - i
    {
      ghost var first := i == low;
      i, j, flag := Round(list, key, low, high, i, j, if first then stop else j, comp, s0);
      past := past || i == high + 1;
    }
    Swap(list, low, j, s0, low, high + 1);
  }

  /** Where the first scan to the right has to stop at the latest. */
  lemma FirstStop<T(!new)>(comp: Comparator<T>, s: seq<T>, low: int, high: int) returns (stop: int)
    requires 0 <= low < high < |s|
    requires StrictlyLargest(comp, s, low, high + 1) ==> high + 1 < |s| && comp(s[high + 1], s[low]) >= 0
    ensures low < stop <= high + 1 && stop < |s| && comp(s[stop], s[low]) >= 0
    ensures stop <= high <==> !StrictlyLargest(comp, s, low, high + 1)
    ensures stop > high ==> forall k :: low < k <= high ==> comp(s[k], s[low]) < 0
  {
    if StrictlyLargest(comp, s, low, high + 1) {
      stop := high + 1;
    } else {
      stop :| low < stop < high + 1 && comp(s[stop], s[low]) >= 0;
    }
  }

  lemma RearrangedElsewhere<T>(s: seq<T>, t: seq<T>, low: int, end: int)
    requires Rearranged(s, t, low, end)
    ensures |s| == |t|
    ensures forall k :: 0 <= k < low || end <= k < |s| ==> t[k] == s[k]
  {
  }

  /** The pivot is the sentinel of the left call. */
  lemma PivotBounds<T(!new)>(comp: Comparator<T>, s: seq<T>, low: int, j: int, end: int)
    requires TotalPreorder(comp) && 0 <= low <= j < end <= |s| && Partitioned(comp, s, low, j, end)
    ensures Bounds(comp, s[j], s, low, j)
  {
  }

  /** Sorting both sides of the pivot sorts the whole range. */
  lemma SortedParts<T(!new)>(
    comp: Comparator<T>, s1: seq<T>, s2: seq<T>, s3: seq<T>, low: int, j: int, end: int)
    requires TotalPreorder(comp)
    requires 0 <= low <= j < end <= |s1| && Partitioned(comp, s1, low, j, end)
    requires Rearranged(s1, s2, low, j) && SortedBetween(comp, s2, low, j)
    requires Rearranged(s2, s3, j + 1, end) && SortedBetween(comp, s3, j + 1, end)
    ensures Rearranged(s1, s3, low, end) && SortedBetween(comp, s3, low, end)
  {
    hide TotalPreorder, Rearranged;
    RearrangedElsewhere(s1, s2, low, j);
    RearrangedElsewhere(s2, s3, j + 1, end);
    RearrangedWider(s1, s2, low, j, low, end);
    RearrangedWider(s2, s3, j + 1, end, low, end);
    RearrangedTransitive(s1, s2, s3, low, end);
    var pivot := s1[j];
    RearrangedKeeps(s1, s2, low, j, x => comp(x, pivot) <= 0);
    RearrangedKeeps(s2, s3, j + 1, end, x => comp(x, pivot) >= 0);
    forall a, b | low <= a < b < end
      ensures comp(s3[a], s3[b]) <= 0
    {
      if a < j < b {
        Flip(comp, pivot, s3[b]);
        Transitive(comp, s3[a], pivot, s3[b]);
      } else if j == a {
        Flip(comp, pivot, s3[b]);
      }
    }
  }

  /** No element is larger than all the others together: the largest one is there at least twice. */
  ghost predicate NoStrictMaximum<T>(comp: Comparator<T>, m: multiset<T>) {
    forall x :: x in m ==> Rivalled(comp, m, x)
  }

  /** Another element is not smaller than `x`. */
  ghost predicate Rivalled<T>(comp: Comparator<T>, m: multiset<T>, x: T) {
    exists y :: y in m - multiset{x} && comp(y, x) >= 0
  }

  lemma Rival<T>(comp: Comparator<T>, m: multiset<T>, x: T) returns (y: T)
    requires Rivalled(comp, m, x)
    ensures y in m - multiset{x} && comp(y, x) >= 0
  {
    y :| y in m - multiset{x} && comp(y, x) >= 0;
  }

  lemma HasRival<T>(comp: Comparator<T>, m: multiset<T>, x: T, y: T)
    requires y in m - multiset{x} && comp(y, x) >= 0
    ensures Rivalled(comp, m, x)
  {
  }

  ghost predicate NoStrictMaximumIn<T>(comp: Comparator<T>, s: seq<T>, low: int, high: int) {
    0 <= low <= high < |s| && NoStrictMaximum(comp, multiset(s[low..high + 1]))
  }

  /** What keeps a call from running past the cell after its range. */
  ghost predicate Guarded<T>(comp: Comparator<T>, s: seq<T>, low: int, high: int) {
    low < high ==>
      && 0 <= low && high < |s|
      && (|| (high + 1 < |s| && Bounds(comp, s[high + 1], s, low, high + 1))
          || NoStrictMaximum(comp, multiset(s[low..high + 1])))
  }

  lemma OthersOf<T>(s: seq<T>, low: int, end: int)
    requires 0 <= low < end <= |s|
    ensures multiset(s[low..end]) - multiset{s[low]} == multiset(s[low + 1..end])
  {
    assert s[low..end] == [s[low]] + s[low + 1..end];
  }

  /** A first element larger than all the others is a strict maximum. */
  lemma FirstIsStrict<T(!new)>(comp: Comparator<T>, s: seq<T>, low: int, end: int)
    requires 0 <= low < end <= |s| && NoStrictMaximum(comp, multiset(s[low..end]))
    ensures !StrictlyLargest(comp, s, low, end)
  {
    hide Rivalled;
    OthersOf(s, low, end);
    assert s[low] in s[low..end];
    var y := Rival(comp, multiset(s[low..end]), s[low]);
    var k := InRange(s, low + 1, end, y);
  }

  lemma GuardedStops<T(!new)>(comp: Comparator<T>, s: seq<T>, low: int, high: int)
    requires Guarded(comp, s, low, high) && low < high
    ensures 0 <= low && high < |s|
    ensures StrictlyLargest(comp, s, low, high + 1) ==> high + 1 < |s| && comp(s[high + 1], s[low]) >= 0
    ensures NoStrictMaximumIn(comp, s, low, high) ==> !StrictlyLargest(comp, s, low, high + 1)
  {
    hide NoStrictMaximum, StrictlyLargest;
    if NoStrictMaximum(comp, multiset(s[low..high + 1])) {
      FirstIsStrict(comp, s, low, high + 1);
    }
  }

  lemma InRange<T>(s: seq<T>, low: int, end: int, x: T) returns (k: int)
    requires 0 <= low <= end <= |s| && x in multiset(s[low..end])
    ensures low <= k < end && s[k] == x
  {
    assert x in s[low..end];
    var i :| 0 <= i < end - low && s[low..end][i] == x;
    k := low + i;
  }

  /** Behind the pivot there is no strict maximum either, if more than one element is there. */
  lemma NoStrictMaximumRight<T(!new)>(comp: Comparator<T>, s: seq<T>, low: int, j: int, end: int)
    requires TotalPreorder(comp) && 0 <= low <= j < end - 2 && end <= |s| && Partitioned(comp, s, low, j, end)
    requires NoStrictMaximum(comp, multiset(s[low..end]))
    ensures NoStrictMaximum(comp, multiset(s[j + 1..end]))
  {
    hide TotalPreorder, Rivalled, Partitioned;
    var right := multiset(s[j + 1..end]);
    forall x | x in right
      ensures Rivalled(comp, right, x)
    {
      InWhole(s, low, j, end, x);
      RivalRight(comp, s, low, j, end, x);
    }
  }

  lemma InWhole<T>(s: seq<T>, low: int, j: int, end: int, x: T)
    requires 0 <= low <= j < end <= |s| && x in multiset(s[j + 1..end])
    ensures x in multiset(s[low..end])
  {
    assert s[low..end] == s[low..j + 1] + s[j + 1..end];
  }

  /** A rival is behind the pivot too, or it is not. */
  lemma RivalSide<T>(s: seq<T>, low: int, j: int, end: int, x: T, y: T)
    requires 0 <= low <= j < end <= |s| && x in multiset(s[j + 1..end])
    requires y in multiset(s[low..end]) - multiset{x}
    ensures y in multiset(s[j + 1..end]) - multiset{x} || y in multiset(s[low..j + 1])
  {
    assert s[low..end] == s[low..j + 1] + s[j + 1..end];
  }

  lemma RivalRight<T(!new)>(comp: Comparator<T>, s: seq<T>, low: int, j: int, end: int, x: T)
    requires TotalPreorder(comp) && 0 <= low <= j < end - 2 && end <= |s| && Partitioned(comp, s, low, j, end)
    requires Rivalled(comp, multiset(s[low..end]), x) && x in multiset(s[j + 1..end])
    ensures Rivalled(comp, multiset(s[j + 1..end]), x)
  {
    hide TotalPreorder, Rivalled;
    var right := multiset(s[j + 1..end]);
    var y := Rival(comp, multiset(s[low..end]), x);
    RivalSide(s, low, j, end, x, y);
    if y in right - multiset{x} {
      HasRival(comp, right, x, y);
    } else {
      var k := InRange(s, low, j + 1, y);
      var i := InRange(s, j + 1, end, x);
      var z := OneMore(right, x);
      var n := InRange(s, j + 1, end, z);
      hide Partitioned;
      EqualToPivot(comp, s[j], y, x, z);
      HasRival(comp, right, x, z);
    }
  }

  lemma OneMore<T>(m: multiset<T>, x: T) returns (z: T)
    requires |m| >= 2 && x in m
    ensures z in m - multiset{x} && z in m
  {
    assert |m - multiset{x}| >= 1;
    z :| z in m - multiset{x};
  }

  /** An element before the pivot that is at least one behind it makes that one the smallest there. */
  lemma EqualToPivot<T(!new)>(comp: Comparator<T>, pivot: T, y: T, x: T, z: T)
    requires TotalPreorder(comp) && comp(y, x) >= 0
    requires y == pivot || comp(y, pivot) <= 0
    requires comp(x, pivot) >= 0 && comp(z, pivot) >= 0
    ensures comp(z, x) >= 0
  {
    Reflexive(comp, pivot);
    Flip(comp, x, y);
    Flip(comp, pivot, z);
    Transitive(comp, x, y, pivot);
    Transitive(comp, x, pivot, z);
    Flip(comp, x, z);
  }

  /** Sorts the range. `past` says whether the cell after it was read: never when the largest element is there
      at least twice, and always when the first element is larger than every other one. */
  method QuickSort<T(!new)>(list: array<T>, low: int, high: int, comp: Comparator<T>) returns (ghost past: bool)
    requires TotalPreorder(comp)
    requires 0 <= low <= high + 1 <= list.Length
    requires Guarded(comp, list[..], low, high)
    modifies list
    ensures Rearranged(old(list[..]), list[..], low, high + 1)
    ensures SortedBetween(comp, list[..], low, high + 1)
    ensures low >= high ==> !past
    ensures NoStrictMaximumIn(comp, old(list[..]), low, high) ==> !past
    ensures low < high && StrictlyLargest(comp, old(list[..]), low, high + 1) ==> past
    decreases high - low
  {
    hide Rearranged, TotalPreorder, Partitioned, Guarded, StrictlyLargest, NoStrictMaximumIn;
    past := false;
    if low < high {
      hide SortedBetween;
      ghost var s0 := list[..];
      GuardedStops(comp, s0, low, high);
      var j;
      j, past := Partition(list, low, high, comp);
      ghost var s1 := list[..];
      GuardedParts(comp, s0, s1, low, j, high);
      ghost var _ := QuickSort(list, low, j - 1, comp);
      ghost var s2 := list[..];
      RearrangedElsewhere(s1, s2, low, j);
      GuardedStays(comp, s1, s2, j + 1, high);
      ghost var pastRight := QuickSort(list, j + 1, high, comp);
      past := past || pastRight;
      SortedParts(comp, s1, s2, list[..], low, j, high + 1);
      RearrangedTransitive(s0, s1, list[..], low, high + 1);
    } else {
      RearrangedSelf(list[..], low, high + 1);
    }
  }

  /** Both calls are guarded after a partition: the left one by the pivot, the right one as the whole was. */
  lemma GuardedParts<T(!new)>(comp: Comparator<T>, s0: seq<T>, s1: seq<T>, low: int, j: int, high: int)
    requires TotalPreorder(comp) && 0 <= low <= j <= high && low < high < |s0|
    requires Guarded(comp, s0, low, high) && Rearranged(s0, s1, low, high + 1)
    requires Partitioned(comp, s1, low, j, high + 1)
    ensures |s1| == |s0| && Guarded(comp, s1, low, j - 1) && Guarded(comp, s1, j + 1, high)
    ensures NoStrictMaximumIn(comp, s0, low, high) && j + 1 < high ==> NoStrictMaximumIn(comp, s1, j + 1, high)
  {
    hide TotalPreorder, NoStrictMaximum;
    RearrangedElsewhere(s0, s1, low, high + 1);
    PivotBounds(comp, s1, low, j, high + 1);
    if NoStrictMaximum(comp, multiset(s0[low..high + 1])) {
      if j + 1 < high {
        NoStrictMaximumRight(comp, s1, low, j, high + 1);
      }
    } else {
      ghost var sentinel := s0[high + 1];
      RearrangedKeeps(s0, s1, low, high + 1, x => comp(sentinel, x) >= 0);
    }
  }

  /** Sorting the left side changes nothing for the right one. */
  lemma GuardedStays<T>(comp: Comparator<T>, s1: seq<T>, s2: seq<T>, low: int, high: int)
    requires |s1| == |s2| && 0 <= low && Guarded(comp, s1, low, high)
    requires forall k :: low <= k < |s1| ==> s2[k] == s1[k]
    ensures Guarded(comp, s2, low, high)
    ensures NoStrictMaximumIn(comp, s2, low, high) <==> NoStrictMaximumIn(comp, s1, low, high)
  {
    hide NoStrictMaximum;
    assert low <= high + 1 <= |s1| ==> s2[low..high + 1] == s1[low..high + 1];
  }
}
