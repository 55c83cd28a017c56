/** The in-memory quicksort of generic/sorter/array-simple.h and generic/sorter/array.h. */
module Quicksort {
  import opened Basics
  import opened Ordering
  import opened Segments

  const ASORT_THRESHOLD := 8
  const STACK_SLOTS := 32
  const INT_MAX := 0x7FFF_FFFF
  const MAX_ELTS := 0x4000_0004     // the longest array whose midpoints all fit in an int

  method Swap<T>(a: array<T>, i: int, j: int, ghost lo: int, ghost hi: int)
    requires 0 <= lo <= i < hi <= a.Length && lo <= j < hi
    modifies a
    ensures a[i] == old(a[j]) && a[j] == old(a[i])
    ensures forall k :: 0 <= k < a.Length && k != i && k != j ==> a[k] == old(a[k])
    ensures PermIn(old(a[..]), a[..], lo, hi) && a[..] == Swapped(old(a[..]), i, j)
  {
    ghost var s := a[..];
    a[i], a[j] := a[j], a[i];
    assert a[..] == Swapped(s, i, j);
    SwapPerm(s, i, j, lo, hi);
  }

  /** Sorts the elements at `l`, `m` and `r`, so that the two ends bound the scans. */
  method MedianOfThree<T>(a: array<T>, l: int, m: int, r: int, key: T -> int)
    requires 0 <= l <= m <= r < a.Length
    modifies a
    ensures PermIn(old(a[..]), a[..], l, r + 1)
    ensures key(a[l]) <= key(a[m]) <= key(a[r])
    ensures old(key(a[l]) <= key(a[m]) <= key(a[r])) ==> a[..] == old(a[..])
  {
    if key(a[m]) < key(a[l]) {
      Swap(a, l, m, l, r + 1);
    }
    if key(a[r]) < key(a[m]) {
      Swap(a, m, r, l, r + 1);
      if key(a[m]) < key(a[l]) {
        Swap(a, l, m, l, r + 1);
      }
    }
  }

  /** The upward scan: it stops at the first key not below the pivot. The ghost `stop`
      is the sentinel that makes a bounds test unnecessary. */
  method ScanUp<T>(a: array<T>, start: int, pivot: int, key: T -> int, ghost stop: int) returns (l: int)
    requires 0 <= start <= stop < a.Length && pivot <= key(a[stop])
    ensures start <= l <= stop && pivot <= key(a[l])
    ensures forall k :: start <= k < l ==> key(a[k]) < pivot
  {
    l := start;
    while key(a[l]) < pivot
      invariant start <= l <= stop
      invariant forall k :: start <= k < l ==> key(a[k]) < pivot
      decreases stop - l
    {
      l := l + 1;
    }
  }

  method ScanDown<T>(a: array<T>, start: int, pivot: int, key: T -> int, ghost stop: int) returns (r: int)
    requires 0 <= stop <= start < a.Length && key(a[stop]) <= pivot
    ensures stop <= r <= start && key(a[r]) <= pivot
    ensures forall k :: r < k <= start ==> pivot < key(a[k])
  {
    r := start;
    while pivot < key(a[r])
      invariant stop <= r <= start
      invariant forall k :: r < k <= start ==> pivot < key(a[k])
      decreases r - stop
    {
      r := r - 1;
    }
  }

  method Scans<T>(a: array<T>, l0: int, r0: int, pivot: int, key: T -> int, ghost up: int, ghost down: int)
    returns (u: int, d: int)
    requires 0 <= l0 <= up < a.Length && pivot <= key(a[up])
    requires 0 <= down <= r0 < a.Length && key(a[down]) <= pivot
    ensures l0 <= u <= up && down <= d <= r0 && Stops(a[..], l0, r0, pivot, key, u, d)
    ensures pivot <= key(a[u]) && (forall k :: l0 <= k < u ==> key(a[k]) < pivot)
    ensures key(a[d]) <= pivot && (forall k :: d < k <= r0 ==> pivot < key(a[k]))
  {
    u := ScanUp(a, l0, pivot, key, up);
    d := ScanDown(a, r0, pivot, key, down);
  }

  /** One round of the partition loop: two scans and an exchange. */
  method PartitionRound<T>(a: array<T>, left: int, right: int, l0: int, r0: int, pivot: int, key: T -> int,
                           ghost up: int, ghost down: int) returns (l: int, r: int)
    requires 0 <= left <= l0 <= r0 <= right < a.Length
    requires Below(a[..], left, l0, pivot, key) && Above(a[..], r0 + 1, right + 1, pivot, key)
    requires l0 <= up <= r0 + 1 && up <= right && pivot <= key(a[up])
    requires l0 - 1 <= down <= r0 && left <= down && key(a[down]) <= pivot
    requires up == r0 + 1 || up <= down
    requires down == l0 - 1 || up <= down
    modifies a
    ensures PermIn(old(a[..]), a[..], left, right + 1)
    ensures l0 <= l <= r0 + 1 && l0 - 1 <= r <= r0 && l <= r + 2
    ensures Below(a[..], left, l, pivot, key) && Above(a[..], r + 1, right + 1, pivot, key)
    ensures r + 1 <= l || (l0 < l <= r < r0 && key(a[l - 1]) <= pivot <= key(a[r + 1]))
    ensures up <= down ==> l0 < l && r < r0
    ensures Scanned(old(a[..]), a[..], l0, r0, pivot, key, l, r)
  {
    hide Stops, Swapped, PermIn;
    PermSelf(a[..], left, right + 1);
    l, r := Scans(a, l0, r0, pivot, key, up, down);
    ghost var u, d := l, r;
    assert l0 < l ==> key(a[l - 1]) < pivot;
    if l < r {
      Swap(a, l, r, left, right + 1);
      l, r := l + 1, r - 1;
    } else if l == r {
      l, r := l + 1, r - 1;
    }
    assert Round(old(a[..]), a[..], l0, r0, pivot, key, l, r, u, d);
  }

  /** The scans from `l0` up and from `r0` down stop at `u` and `d`. */
  ghost predicate Stops<T>(s: seq<T>, l0: int, r0: int, pivot: int, key: T -> int, u: int, d: int) {
    && 0 <= l0 <= u < |s| && 0 <= d <= r0 < |s|
    && pivot <= key(s[u]) && (forall k :: l0 <= k < u ==> key(s[k]) < pivot)
    && key(s[d]) <= pivot && (forall k :: d < k <= r0 ==> pivot < key(s[k]))
  }

  /** A round whose scans stop at `u` and `d` takes `s` to `t` and the cursors to `l` and `r`. */
  ghost predicate Round<T>(s: seq<T>, t: seq<T>, l0: int, r0: int, pivot: int, key: T -> int, l: int, r: int,
                           u: int, d: int) {
    && Stops(s, l0, r0, pivot, key, u, d)
    && if u < d then (l, r) == (u + 1, d - 1) && t == Swapped(s, u, d)
       else t == s && (l, r) == if u == d then (u + 1, d - 1) else (u, d)
  }

  ghost predicate Scanned<T>(s: seq<T>, t: seq<T>, l0: int, r0: int, pivot: int, key: T -> int, l: int, r: int) {
    exists u, d :: Round(s, t, l0, r0, pivot, key, l, r, u, d)
  }

  function Level(k: int, middle: int, right: int): (key: int) {
    if k == middle then 1 else if k > right - ASORT_THRESHOLD then 2 else 0
  }

  /** All of `[left, right]` is low except the middle element, which is next, and the last
      `ASORT_THRESHOLD` elements. */
  ghost predicate Lopsided<T>(s: seq<T>, left: int, right: int, key: T -> int) {
    && 0 <= left <= right < |s|
    && forall k :: left <= k <= right ==> key(s[k]) == Level(k, (left + right) / 2, right)
  }

  /** The range after the first round on a lopsided one: the pivot sits before the last elements. */
  ghost predicate Sided<T>(s: seq<T>, left: int, right: int, key: T -> int) {
    && 0 <= left <= right < |s|
    && forall k :: left <= k <= right ==> key(s[k]) == Level(k, right - ASORT_THRESHOLD, right)
  }

  lemma FirstStops<T>(s: seq<T>, left: int, right: int, key: T -> int, u: int, d: int)
    requires Lopsided(s, left, right, key) && right - left >= 4 * ASORT_THRESHOLD && Stops(s, left, right, 1, key, u, d)
    ensures u == (left + right) / 2 && d == right - ASORT_THRESHOLD
  {
    var m := (left + right) / 2;
    assert key(s[m]) == 1 && key(s[right - ASORT_THRESHOLD]) == 0;
    assert u <= m && right - ASORT_THRESHOLD <= d;
    assert key(s[u]) == Level(u, m, right) && key(s[d]) == Level(d, m, right);
  }

  lemma FirstRound<T>(s: seq<T>, t: seq<T>, left: int, right: int, key: T -> int, l: int, r: int)
    requires Lopsided(s, left, right, key) && right - left >= 4 * ASORT_THRESHOLD
    requires Scanned(s, t, left, right, 1, key, l, r)
    ensures l <= r == right - ASORT_THRESHOLD - 1 && Sided(t, left, right, key)
  {
    hide Stops;
    var u, d :| Round(s, t, left, right, 1, key, l, r, u, d);
    FirstStops(s, left, right, key, u, d);
  }

  lemma SecondStops<T>(s: seq<T>, left: int, right: int, key: T -> int, l: int, u: int, d: int)
    requires Sided(s, left, right, key) && left <= l < right - ASORT_THRESHOLD
    requires Stops(s, l, right - ASORT_THRESHOLD - 1, 1, key, u, d)
    ensures u == right - ASORT_THRESHOLD && d == u - 1
  {
    var p := right - ASORT_THRESHOLD;
    assert key(s[p]) == 1 && key(s[p - 1]) == 0;
    assert u <= p;
    assert key(s[u]) == Level(u, p, right);
  }

  lemma SecondRound<T>(s: seq<T>, t: seq<T>, left: int, right: int, key: T -> int, l0: int, l: int, r: int)
    requires Sided(s, left, right, key) && left <= l0 < right - ASORT_THRESHOLD
    requires Scanned(s, t, l0, right - ASORT_THRESHOLD - 1, 1, key, l, r)
    ensures t == s && l == right - ASORT_THRESHOLD && r == l - 1
  {
    hide Stops;
    var u, d :| Round(s, t, l0, right - ASORT_THRESHOLD - 1, 1, key, l, r, u, d);
    SecondStops(s, left, right, key, l0, u, d);
  }

  /** One partition of `[left, right]`. No scan tests its bounds: every array access
      is proved to stay inside the range. */
  method Partition<T>(a: array<T>, left: int, right: int, key: T -> int) returns (l: int, r: int)
    requires 0 <= left <= right < a.Length
    modifies a
    ensures PermIn(old(a[..]), a[..], left, right + 1)
    ensures Parted(left, l, r, right)
    ensures Partitioned(a[..], left, l, r, right, key)
    ensures Lopsided(old(a[..]), left, right, key) && right - left >= 4 * ASORT_THRESHOLD ==>
      l == right - ASORT_THRESHOLD && r == l - 1
  {
    hide Lopsided, Sided, Scanned, Below, Above, Swapped;
    l, r := left, right;
    var m := (l + r) / 2;
    ghost var lop := right - left >= 4 * ASORT_THRESHOLD && Lopsided(a[..], left, right, key);
    if lop {
      LopsidedMiddle(a[..], left, right, key);
    }
    MedianOfThree(a, l, m, r, key);
    var pivot := key(a[m]);
    NoSides(a[..], left, right + 1, pivot, key);
    ghost var s := a[..];
    l, r := PartitionRound(a, left, right, l, r, pivot, key, m, m);
    if lop {
      FirstRound(s, a[..], left, right, key, l, r);
    }
    while l <= r
      invariant left < l <= right + 1 && left - 1 <= r < right && l <= r + 2
      invariant PermIn(old(a[..]), a[..], left, right + 1)
      invariant Below(a[..], left, l, pivot, key)
      invariant Above(a[..], r + 1, right + 1, pivot, key)
      invariant r + 1 <= l || key(a[l - 1]) <= pivot <= key(a[r + 1])
      invariant lop ==> pivot == 1 && Sided(a[..], left, right, key)
      invariant lop ==> r == right - ASORT_THRESHOLD - 1 && (l <= r || l == r + 1)
      decreases r - l
    {
      s := a[..];
      ghost var l0 := l;
      l, r := PartitionRound(a, left, right, l, r, pivot, key, r + 1, l - 1);
      if lop {
        SecondRound(s, a[..], left, right, key, l0, l, r);
      }
    }
    assert Split(a[..], left, l, r, right, pivot, key);
  }

  lemma LopsidedMiddle<T>(s: seq<T>, left: int, right: int, key: T -> int)
    requires Lopsided(s, left, right, key) && right - left >= 4 * ASORT_THRESHOLD
    ensures key(s[left]) <= key(s[(left + right) / 2]) == 1 <= key(s[right])
  {
  }

  ghost predicate Below<T>(s: seq<T>, lo: int, hi: int, pivot: int, key: T -> int)
    requires 0 <= lo <= hi <= |s|
  {
    forall k :: lo <= k < hi ==> key(s[k]) <= pivot
  }

  ghost predicate Above<T>(s: seq<T>, lo: int, hi: int, pivot: int, key: T -> int)
    requires 0 <= lo <= hi <= |s|
  {
    forall k :: lo <= k < hi ==> pivot <= key(s[k])
  }

  lemma NoSides<T>(s: seq<T>, lo: int, hi: int, pivot: int, key: T -> int)
    requires 0 <= lo <= |s| && 0 <= hi <= |s|
    ensures Below(s, lo, lo, pivot, key) && Above(s, hi, hi, pivot, key)
  {
  }

  /** `[left, r]` is at most, `[l, right]` at least the pivot, and the gap equals it. */
  ghost predicate Split<T>(s: seq<T>, left: int, l: int, r: int, right: int, pivot: int, key: T -> int)
    requires 0 <= left <= r + 1 <= l <= right + 1 <= |s|
  {
    Below(s, left, l, pivot, key) && Above(s, r + 1, right + 1, pivot, key)
  }

  ghost predicate Partitioned<T>(s: seq<T>, left: int, l: int, r: int, right: int, key: T -> int)
    requires 0 <= left <= r + 1 <= l <= right + 1 <= |s|
  {
    exists pivot :: Split(s, left, l, r, right, pivot, key)
  }

  type Range = (int, int)

  /** The shape of a partition result: both sides shrink and the gap is at most one element. */
  predicate Parted(left: int, l: int, r: int, right: int) {
    left - 1 <= r < l <= r + 2 && l <= right + 1 && r < right && left < l
  }

  predicate Big(left: int, right: int) {
    right - left >= ASORT_THRESHOLD
  }

  /** `n` halved `d` times. */
  ghost function Half(n: int, d: nat): int {
    if d == 0 then n else Half(n, d - 1) / 2
  }

  ghost predicate OnStack(stack: seq<Range>, x: int) {
    exists e :: 0 <= e < |stack| && stack[e].0 == x
  }

  /** Every stacked range is a segment of its own; entry `e` is small enough to have been
      pushed at depth `e`. */
  ghost predicate Stacked(seg: seq<int>, from: int, to: int, stack: seq<Range>) {
    && (forall e :: 0 <= e < |stack| ==> IsSegment(seg, from, to, stack[e].0, stack[e].1 + 1))
    && (forall e, f :: 0 <= e < f < |stack| ==> stack[e].0 != stack[f].0)
    && (forall e :: 0 <= e < |stack| ==> Big(stack[e].0, stack[e].1))
    && (forall e :: 0 <= e < |stack| ==> stack[e].1 - stack[e].0 < Half(to - from, e))
  }

  /** Outside the current range and the stack, segments are undersize. */
  ghost predicate Undersize(seg: seq<int>, from: int, to: int, stack: seq<Range>, left: int)
    requires 0 <= from <= to <= |seg|
  {
    forall k :: from <= k < to ==> k - seg[k] < ASORT_THRESHOLD || seg[k] == left || OnStack(stack, seg[k])
  }

  /** Where the segments stand between two partitions. */
  ghost predicate Layout(seg: seq<int>, from: int, to: int, stack: seq<Range>, left: int, right: int) {
    && Shape(seg, from, to) && IsSegment(seg, from, to, left, right + 1) && left < right
    && Stacked(seg, from, to, stack) && !OnStack(stack, left)
    && Undersize(seg, from, to, stack, left)
    && right - left < Half(to - from, |stack|)
  }

  /** After a partition the two sides and the gap are segments of their own. */
  lemma PartitionCuts<T>(s: seq<T>, t: seq<T>, seg: seq<int>, from: int, to: int,
                         left: int, right: int, l: int, r: int, key: T -> int) returns (seg': seq<int>)
    requires |s| == |seg| && Shape(seg, from, to) && Apart(s, seg, from, to, key)
    requires IsSegment(seg, from, to, left, right + 1) && PermIn(s, t, left, right + 1)
    requires Parted(left, l, r, right) && Partitioned(t, left, l, r, right, key)
    ensures seg' == CutThree(seg, left, r + 1, l, right + 1)
    ensures Shape(seg', from, to) && Apart(t, seg', from, to, key)
  {
    seg' := CutThree(seg, left, r + 1, l, right + 1);
    var pivot :| Split(t, left, l, r, right, pivot, key);
    Refine(s, t, seg, seg', from, to, left, right + 1, key);
  }

  /** The stack survives the cut, and of the new segments only the two sides can be oversize. */
  lemma AfterCut(seg: seq<int>, seg': seq<int>, from: int, to: int, stack: seq<Range>,
                 left: int, right: int, l: int, r: int)
    requires Layout(seg, from, to, stack, left, right) && Parted(left, l, r, right)
    requires seg' == CutThree(seg, left, r + 1, l, right + 1)
    ensures Stacked(seg', from, to, stack) && (l <= right ==> !OnStack(stack, l))
    ensures forall k :: from <= k < to ==>
      || k - seg'[k] < ASORT_THRESHOLD || OnStack(stack, seg'[k])
      || (seg'[k] == left && Big(left, r)) || (seg'[k] == l && Big(l, right))
  {
    forall e | 0 <= e < |stack|
      ensures IsSegment(seg', from, to, stack[e].0, stack[e].1 + 1) && !(left <= stack[e].0 <= right)
    {
      OtherSegment(seg, seg', from, to, left, right + 1, stack[e].0, stack[e].1 + 1);
      assert seg[stack[e].0] == stack[e].0;
    }
  }

  lemma Pushed(stack: seq<Range>, e: Range)
    ensures OnStack(stack + [e], e.0)
    ensures forall x :: OnStack(stack, x) ==> OnStack(stack + [e], x)
    ensures forall x :: OnStack(stack + [e], x) ==> OnStack(stack, x) || x == e.0
    ensures Pending(stack + [e]) == Pending(stack) + e.1 - e.0
  {
    var st := stack + [e];
    assert st[..|st| - 1] == stack && st[|stack|] == e;
    forall x | OnStack(stack, x) ensures OnStack(st, x) {
      var i :| 0 <= i < |stack| && stack[i].0 == x;
      assert st[i].0 == x;
    }
  }

  ghost function Pending(stack: seq<Range>): int {
    if stack == [] then 0 else Pending(stack[..|stack| - 1]) + stack[|stack| - 1].1 - stack[|stack| - 1].0
  }

  lemma PendingNonNegative(seg: seq<int>, from: int, to: int, stack: seq<Range>)
    requires Stacked(seg, from, to, stack)
    ensures Pending(stack) >= 0
  {
    if stack != [] {
      PendingNonNegative(seg, from, to, stack[..|stack| - 1]);
    }
  }

  lemma Pow2Int()
    ensures Pow2(31) == 0x8000_0000
  {
    assert Pow2(4) == 16;
    assert Pow2(8) == 16 * Pow2(4);
    assert Pow2(12) == 16 * Pow2(8);
    assert Pow2(16) == 16 * Pow2(12);
    assert Pow2(20) == 16 * Pow2(16);
    assert Pow2(24) == 16 * Pow2(20);
    assert Pow2(28) == 16 * Pow2(24);
  }

  lemma {:induction false} HalfShift(n: int, d: nat)
    ensures Half(n, d + 1) == Half(n / 2, d)
  {
    if d > 0 {
      HalfShift(n, d - 1);
    }
  }

  /** Fewer than `b` halvings leave anything of a number below `2^b`. */
  lemma {:induction false} DepthBound(n: int, d: nat, b: nat)
    requires 0 <= n < Pow2(b) && Half(n, d) > 0
    ensures d < b
  {
    HalfZero(d);
    if d > 0 {
      HalfShift(n, d - 1);
      DepthBound(n / 2, d - 1, b - 1);
    }
  }

  lemma HalfZero(d: nat)
    ensures Half(0, d) == 0
  {
  }

  lemma PushStacked(seg: seq<int>, from: int, to: int, stack: seq<Range>, e: Range)
    requires Stacked(seg, from, to, stack) && !OnStack(stack, e.0)
    requires IsSegment(seg, from, to, e.0, e.1 + 1) && Big(e.0, e.1) && e.1 - e.0 < Half(to - from, |stack|)
    ensures Stacked(seg, from, to, stack + [e])
  {
  }

  /** Both sides are oversize: push one that is at least as large as the other. */
  lemma PushStep(seg: seq<int>, seg': seq<int>, from: int, to: int, stack: seq<Range>,
                 left: int, right: int, l: int, r: int, push: Range, keep: Range)
    requires Layout(seg, from, to, stack, left, right) && Parted(left, l, r, right)
    requires seg' == CutThree(seg, left, r + 1, l, right + 1) && Shape(seg', from, to)
    requires Big(left, r) && Big(l, right)
    requires (push == (left, r) && keep == (l, right)) || (push == (l, right) && keep == (left, r))
    requires push.1 - push.0 >= keep.1 - keep.0
    ensures Layout(seg', from, to, stack + [push], keep.0, keep.1)
  {
    hide Stacked, OnStack, IsSegment, Pending, Shape;
    AfterCut(seg, seg', from, to, stack, left, right, l, r);
    CutThreeSegments(seg, from, to, left, r + 1, l, right + 1);
    Pushed(stack, push);
    PushStacked(seg', from, to, stack, push);
  }

  /** One side is oversize: go on with it. */
  lemma KeepStep(seg: seq<int>, seg': seq<int>, from: int, to: int, stack: seq<Range>,
                 left: int, right: int, l: int, r: int, keep: Range)
    requires Layout(seg, from, to, stack, left, right) && Parted(left, l, r, right)
    requires seg' == CutThree(seg, left, r + 1, l, right + 1) && Shape(seg', from, to)
    requires
      || (keep == (left, r) && Big(left, r) && !Big(l, right))
      || (keep == (l, right) && Big(l, right) && !Big(left, r))
    ensures Layout(seg', from, to, stack, keep.0, keep.1)
  {
    AfterCut(seg, seg', from, to, stack, left, right, l, r);
    CutThreeSegments(seg, from, to, left, r + 1, l, right + 1);
  }

  /** Both sides are undersize: take the next range off the stack. */
  lemma PopStep(seg: seq<int>, seg': seq<int>, from: int, to: int, stack: seq<Range>,
                left: int, right: int, l: int, r: int)
    requires Layout(seg, from, to, stack, left, right) && Parted(left, l, r, right)
    requires seg' == CutThree(seg, left, r + 1, l, right + 1) && Shape(seg', from, to)
    requires !Big(left, r) && !Big(l, right)
    ensures stack != [] ==>
      Pending(stack[..|stack| - 1]) + stack[|stack| - 1].1 - stack[|stack| - 1].0 == Pending(stack)
    ensures stack == [] ==> forall k :: from <= k < to ==> k - seg'[k] < ASORT_THRESHOLD
    ensures stack != [] ==> var top := stack[|stack| - 1];
      Layout(seg', from, to, stack[..|stack| - 1], top.0, top.1) && Big(top.0, top.1)
  {
    hide Stacked, OnStack, IsSegment, Pending, Shape;
    AfterCut(seg, seg', from, to, stack, left, right, l, r);
    if stack != [] {
      Popped(seg', from, to, stack);
    } else {
      EmptyStack(stack);
    }
  }

  lemma EmptyStack(stack: seq<Range>)
    requires stack == []
    ensures forall x :: !OnStack(stack, x)
  {
  }

  lemma Popped(seg: seq<int>, from: int, to: int, stack: seq<Range>)
    requires Stacked(seg, from, to, stack) && stack != []
    ensures var rest, top := stack[..|stack| - 1], stack[|stack| - 1];
      && Stacked(seg, from, to, rest) && IsSegment(seg, from, to, top.0, top.1 + 1) && !OnStack(rest, top.0)
      && Big(top.0, top.1) && top.1 - top.0 < Half(to - from, |rest|)
      && Pending(stack) == Pending(rest) + top.1 - top.0
      && forall x :: OnStack(stack, x) ==> OnStack(rest, x) || x == top.0
  {
    hide IsSegment;
    var rest, top := stack[..|stack| - 1], stack[|stack| - 1];
    assert stack == rest + [top];
    Pushed(rest, top);
  }

  lemma LayoutFacts(seg: seq<int>, from: int, to: int, stack: seq<Range>, left: int, right: int)
    requires Layout(seg, from, to, stack, left, right)
    ensures Shape(seg, from, to) && IsSegment(seg, from, to, left, right + 1)
    ensures from <= left < right < to && right - left < Half(to - from, |stack|) && Stacked(seg, from, to, stack)
  {
  }

  lemma StartLayout<T>(s: seq<T>, from: int, to: int, key: T -> int) returns (seg: seq<int>)
    requires 0 <= from && from + 1 < to <= |s|
    ensures |seg| == |s| && Layout(seg, from, to, [], from, to - 1) && Apart(s, seg, from, to, key)
  {
    seg := seq(|s|, k => from);
  }

  /** The range to partition next. If both sides are oversize, the larger one is pushed, so
      a stack of 32 slots never overflows; if neither is, a range is popped. */
  method NextRange(stack: seq<Range>, left: int, right: int, l: int, r: int,
                   ghost seg: seq<int>, ghost seg': seq<int>, ghost from: int, ghost to: int)
    returns (done: bool, stack': seq<Range>, left': int, right': int)
    requires Layout(seg, from, to, stack, left, right) && Parted(left, l, r, right) && to - from <= INT_MAX
    requires seg' == CutThree(seg, left, r + 1, l, right + 1) && Shape(seg', from, to)
    ensures done ==> forall k :: from <= k < to ==> k - seg'[k] < ASORT_THRESHOLD
    ensures !done ==> Layout(seg', from, to, stack', left', right') && Big(left', right')
    ensures !done ==> 0 <= Pending(stack') + right' - left' < Pending(stack) + right - left
    ensures Big(left, r) && Big(l, right) && r - left > right - l ==> !done && (left', right') == (l, right)
  {
    hide Stacked, Undersize, OnStack, Pending, Half, Layout, IsSegment, Shape, CutThree;
    LayoutFacts(seg, from, to, stack, left, right);
    done, stack', left', right' := false, stack, left, right;
    if Big(left, r) && Big(l, right) {
      Pow2Int();
      DepthBound(to - from, |stack|, 31);
      assert |stack| < STACK_SLOTS;
      if r - left > right - l {
        PushStep(seg, seg', from, to, stack, left, right, l, r, (left, r), (l, right));
        Pushed(stack, (left, r));
        stack' := stack + [(left, r)];
        left' := l;
      } else {
        PushStep(seg, seg', from, to, stack, left, right, l, r, (l, right), (left, r));
        Pushed(stack, (l, right));
        stack' := stack + [(l, right)];
        right' := r;
      }
    } else if Big(left, r) {
      KeepStep(seg, seg', from, to, stack, left, right, l, r, (left, r));
      right' := r;
    } else if Big(l, right) {
      KeepStep(seg, seg', from, to, stack, left, right, l, r, (l, right));
      left' := l;
    } else {
      PopStep(seg, seg', from, to, stack, left, right, l, r);
      done := stack == [];
      if !done {
        left', right' := stack[|stack| - 1].0, stack[|stack| - 1].1;
        stack' := stack[..|stack| - 1];
      }
    }
    if !done {
      LayoutFacts(seg', from, to, stack', left', right');
      PendingNonNegative(seg', from, to, stack');
    }
  }

  /** The quicksort loop: partition down to undersize segments with an explicit stack. */
  method SplitToThreshold<T>(a: array<T>, from: int, to: int, key: T -> int) returns (ok: bool, ghost seg: seq<int>)
    requires 0 <= from && from + 1 < to <= a.Length && to - from <= INT_MAX
    modifies a
    ensures PermIn(old(a[..]), a[..], from, to)
    ensures ok ==> |seg| == a.Length && Shape(seg, from, to) && Apart(a[..], seg, from, to, key)
    ensures ok ==> forall k :: from <= k < to ==> k - seg[k] < ASORT_THRESHOLD
    ensures to - from <= MAX_ELTS ==> ok
    ensures to - from > MAX_ELTS && Lopsided(old(a[..]), from, to - 1, key) ==> !ok
  {
    hide Pending, Apart, Lopsided, Layout, IsSegment, Shape, CutThree;
    ghost var lop := to - from > MAX_ELTS && Lopsided(a[..], from, to - 1, key);
    var left, right := from, to - 1;
    var stack: seq<Range> := [];
    seg := StartLayout(a[..], from, to, key);
    while true
      invariant PermIn(old(a[..]), a[..], from, to)
      invariant |seg| == a.Length && Layout(seg, from, to, stack, left, right)
      invariant Apart(a[..], seg, from, to, key)
      invariant left == from || Big(left, right)
      invariant lop ==>
        || left + right == 2 * (to - 1) - ASORT_THRESHOLD
        || (left == from && right == to - 1 && Lopsided(a[..], from, to - 1, key))
      decreases Pending(stack) + right - left
    {
      LayoutFacts(seg, from, to, stack, left, right);
      if (left - from) + (right - from) > INT_MAX {
        return false, seg;
      }
      ghost var s, seg0 := a[..], seg;
      var l, r := Partition(a, left, right, key);
      seg := PartitionCuts(s, a[..], seg0, from, to, left, right, l, r, key);
      var done;
      done, stack, left, right := NextRange(stack, left, right, l, r, seg0, seg, from, to);
      if done {
        return true, seg;
      }
    }
  }

  /** Elements at least a threshold apart are in order, so the minimum is near the start. */
  lemma UndersizeOrder<T>(s: seq<T>, seg: seq<int>, from: int, to: int, key: T -> int)
    requires |s| == |seg| && Shape(seg, from, to) && Apart(s, seg, from, to, key)
    requires forall k :: from <= k < to ==> k - seg[k] < ASORT_THRESHOLD
    ensures forall i, j :: from <= i && i + ASORT_THRESHOLD <= j < to ==> key(s[i]) <= key(s[j])
  {
  }

  /** The barrier: the smallest of the first `ASORT_THRESHOLD` elements goes to the front. */
  method Barrier<T>(a: array<T>, from: int, to: int, key: T -> int)
    requires 0 <= from < to <= a.Length
    requires forall i, j :: from <= i && i + ASORT_THRESHOLD <= j < to ==> key(a[i]) <= key(a[j])
    modifies a
    ensures PermIn(old(a[..]), a[..], from, to)
    ensures forall k :: from <= k < to ==> key(a[from]) <= key(a[k])
  {
    var r := if to - from < ASORT_THRESHOLD then to else from + ASORT_THRESHOLD;
    var m := from;
    var l := from + 1;
    while l < r
      invariant from <= m < l <= r
      invariant forall k :: from <= k < l ==> key(a[m]) <= key(a[k])
    {
      if key(a[l]) < key(a[m]) {
        m := l;
      }
      l := l + 1;
    }
    forall k | from <= k < to ensures key(a[m]) <= key(a[k]) {
      if k >= r {
        assert key(a[from]) <= key(a[k]);
      }
    }
    Swap(a, from, m, from, to);
  }

  /** `s[from..m)` is sorted and `s[m]` belongs just before `s[l]`. */
  ghost predicate Slot<T>(s: seq<T>, from: int, l: int, m: int, key: T -> int)
    requires 0 <= from <= l <= m < |s|
  {
    && SortedIn(s, from, m, key)
    && (forall k :: from <= k < l ==> key(s[k]) <= key(s[m]))
    && (forall k :: l <= k < m ==> key(s[m]) <= key(s[k]))
  }

  lemma RotateStep<T>(s: seq<T>, t: seq<T>, from: int, l: int, m: int, key: T -> int)
    requires 0 <= from <= l < m < |s| == |t| && Slot(s, from, l, m, key)
    requires t[l] == s[m] && t[m] == s[l] && forall k :: 0 <= k < |s| && k != l && k != m ==> t[k] == s[k]
    ensures Slot(t, from, l + 1, m, key)
  {
  }

  /** The search for the slot of `a[m]` tests no lower bound. */
  method FindSlot<T>(a: array<T>, from: int, m: int, key: T -> int) returns (l: int)
    requires 0 <= from < m < a.Length
    requires SortedIn(a[..], from, m, key) && key(a[from]) <= key(a[m])
    ensures from < l <= m && Slot(a[..], from, l, m, key)
  {
    l := m;
    while key(a[m]) < key(a[l - 1])
      invariant from < l <= m
      invariant forall k :: l <= k < m ==> key(a[m]) < key(a[k])
      decreases l
    {
      l := l - 1;
    }
    forall k | from <= k < l ensures key(a[k]) <= key(a[m]) {
      assert key(a[..][k]) <= key(a[..][l - 1]);
    }
  }

  /** One insertion: search the slot, then rotate the element into it by swaps. */
  method Insert<T>(a: array<T>, from: int, m: int, key: T -> int)
    requires 0 <= from < m < a.Length
    requires SortedIn(a[..], from, m, key) && key(a[from]) <= key(a[m])
    modifies a
    ensures PermIn(old(a[..]), a[..], from, m + 1)
    ensures SortedIn(a[..], from, m + 1, key) && a[from] == old(a[from])
  {
    var l := FindSlot(a, from, m, key);
    InsertAt(a, from, l, m, key);
  }

  method InsertAt<T>(a: array<T>, from: int, slot: int, m: int, key: T -> int)
    requires 0 <= from < slot <= m < a.Length && Slot(a[..], from, slot, m, key)
    modifies a
    ensures PermIn(old(a[..]), a[..], from, m + 1)
    ensures Slot(a[..], from, m, m, key) && a[from] == old(a[from])
  {
    hide Slot;
    var l := slot;
    while l < m
      invariant from < l <= m
      invariant PermIn(old(a[..]), a[..], from, m + 1) && a[from] == old(a[from])
      invariant Slot(a[..], from, l, m, key)
    {
      ghost var s := a[..];
      Swap(a, l, m, from, m + 1);
      RotateStep(s, a[..], from, l, m, key);
      l := l + 1;
    }
  }

  /** The whole sort of `a[from..to)`: a sorted permutation, nothing else touched. Indices are
      counted from the start of the range in an `int`; when the length or a midpoint does not
      fit, the result is false. That happens for no array up to `MAX_ELTS` elements and for the
      lopsided array of every greater length. */
  method Sort<T>(a: array<T>, from: int, to: int, key: T -> int) returns (ok: bool)
    requires 0 <= from <= to <= a.Length
    modifies a
    ensures PermIn(old(a[..]), a[..], from, to)
    ensures ok ==> SortedIn(a[..], from, to, key)
    ensures to - from <= MAX_ELTS ==> ok
    ensures to - from > INT_MAX ==> !ok
    ensures to - from > MAX_ELTS && Lopsided(old(a[..]), from, to - 1, key) ==> !ok
  {
    hide Lopsided;
    if to - from <= 1 {
      return true;
    }
    if to - from > INT_MAX {
      return false;
    }
    ghost var seg;
    ok, seg := SplitToThreshold(a, from, to, key);
    if !ok {
      return;
    }
    UndersizeOrder(a[..], seg, from, to, key);
    assert forall i, j :: from <= i && i + ASORT_THRESHOLD <= j < to ==> key(a[i]) <= key(a[j]) by {
      forall i, j | from <= i && i + ASORT_THRESHOLD <= j < to ensures key(a[i]) <= key(a[j]) {
        assert a[i] == a[..][i] && a[j] == a[..][j];
      }
    }
    Barrier(a, from, to, key);
    var m := from + 1;
    while m < to
      invariant from < m <= to
      invariant PermIn(old(a[..]), a[..], from, to)
      invariant SortedIn(a[..], from, m, key)
      invariant forall k :: from <= k < to ==> key(a[from]) <= key(a[k])
    {
      ghost var s := a[..];
      Insert(a, from, m, key);
      forall k | from <= k < to ensures key(a[from]) <= key(a[k]) {
        if k <= m {
          var j := PermSource(s, a[..], from, m + 1, k);
        } else {
          assert a[k] == s[k];
        }
      }
      m := m + 1;
    }
  }

  /** There is a lopsided array of every length, so `MAX_ELTS` is exact. */
  lemma LopsidedArray(n: nat) returns (s: seq<int>)
    requires n > 0
    ensures |s| == n && Lopsided(s, 0, n - 1, (x: int) => x)
  {
    s := seq(n, k requires 0 <= k < n => Level(k, (n - 1) / 2, n - 1));
  }
}
