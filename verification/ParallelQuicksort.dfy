/** The parallel quicksort of generic/sorter/array.c: worker threads sort or split ranges
    of one array, the main thread submits the parts, and items complete in any order. */
module ParallelQuicksort {
  import opened Basics
  import opened Ordering
  import opened Segments
  import Quicksort

  /** A range of the array that is still to be sorted: either submitted to the work queue,
      or returned by a worker as one side of a split and not yet submitted again. */
  datatype Task = Task(lo: int, hi: int, returned: bool)

  ghost predicate Open(tasks: seq<Task>, x: int) {
    exists i :: 0 <= i < |tasks| && tasks[i].lo == x
  }

  /** Pending ranges are pairwise disjoint segments. */
  ghost predicate Ranges(seg: seq<int>, n: int, tasks: seq<Task>) {
    && (forall i :: 0 <= i < |tasks| ==> IsSegment(seg, 0, n, tasks[i].lo, tasks[i].hi))
    && (forall i, j :: 0 <= i < j < |tasks| ==> tasks[i].lo != tasks[j].lo)
  }

  /** Inside a segment that is not pending, everything is in order. */
  ghost predicate Settled<T>(s: seq<T>, seg: seq<int>, from: int, to: int, tasks: seq<Task>, key: T -> int)
    requires 0 <= from <= to <= |s| == |seg|
  {
    forall i, j :: from <= i < j < to && seg[i] == seg[j] && !Open(tasks, seg[i]) ==> key(s[i]) <= key(s[j])
  }

  /** The state of the queue between two steps. */
  ghost predicate Consistent<T>(s: seq<T>, seg: seq<int>, n: int, tasks: seq<Task>, key: T -> int) {
    && 0 <= n <= |s| == |seg| && Shape(seg, 0, n) && Apart(s, seg, 0, n, key)
    && Ranges(seg, n, tasks) && Settled(s, seg, 0, n, tasks, key)
  }

  /** Each step makes this smaller: a split has fewer elements to compare, and a returned
      range weighs more than the same range submitted. */
  ghost function Weight(tasks: seq<Task>): int {
    if tasks == [] then 0
    else Weight(tasks[..|tasks| - 1]) + TaskWeight(tasks[|tasks| - 1])
  }

  ghost function TaskWeight(t: Task): int {
    4 * (t.hi - t.lo) - (if t.returned then 2 else 3)
  }

  lemma {:induction false} WeightConcat(s: seq<Task>, t: seq<Task>)
    ensures Weight(s + t) == Weight(s) + Weight(t)
  {
    if t == [] {
      assert s + t == s;
    } else {
      var k := |t| - 1;
      assert (s + t)[..|s + t| - 1] == s + t[..k];
      WeightConcat(s, t[..k]);
    }
  }

  lemma WeightWithout(tasks: seq<Task>, i: int)
    requires 0 <= i < |tasks|
    ensures Weight(Without(tasks, i)) == Weight(tasks) - TaskWeight(tasks[i])
  {
    hide Weight, TaskWeight, Without;
    var a, b := WithoutSplit(tasks, i);
    WeightConcat(a + [tasks[i]], b);
    WeightConcat(a, [tasks[i]]);
    WeightConcat(a, b);
    WeightOne(tasks[i]);
  }

  lemma WeightOne(t: Task)
    ensures Weight([t]) == TaskWeight(t)
  {
    assert [t][..0] == [];
  }

  lemma {:induction false} WeightNonNegative(seg: seq<int>, n: int, tasks: seq<Task>)
    requires Ranges(seg, n, tasks)
    ensures Weight(tasks) >= 0
  {
    hide IsSegment;
    if tasks != [] {
      WeightNonNegative(seg, n, tasks[..|tasks| - 1]);
      var t := tasks[|tasks| - 1];
      assert IsSegment(seg, 0, n, t.lo, t.hi);
      SegmentNonEmpty(seg, n, t);
    }
  }

  lemma SegmentNonEmpty(seg: seq<int>, n: int, t: Task)
    requires IsSegment(seg, 0, n, t.lo, t.hi)
    ensures t.lo < t.hi
  {
  }

  lemma OpenWithout(tasks: seq<Task>, i: int, kids: seq<Task>)
    requires 0 <= i < |tasks|
    ensures forall x :: Open(tasks, x) ==> x == tasks[i].lo || Open(Without(tasks, i) + kids, x)
    ensures forall x :: Open(kids, x) ==> Open(Without(tasks, i) + kids, x)
  {
    var rest := Without(tasks, i);
    forall x | Open(tasks, x) && x != tasks[i].lo ensures Open(rest + kids, x) {
      var j :| 0 <= j < |tasks| && tasks[j].lo == x;
      assert (rest + kids)[if j < i then j else j - 1].lo == x;
    }
    forall x | Open(kids, x) ensures Open(rest + kids, x) {
      var j :| 0 <= j < |kids| && kids[j].lo == x;
      assert (rest + kids)[|rest| + j].lo == x;
    }
  }

  /** Replacing a pending range by parts of it keeps pending ranges disjoint. */
  lemma RangesStep(seg: seq<int>, seg': seq<int>, n: int, tasks: seq<Task>, i: int, kids: seq<Task>)
    requires 0 <= i < |tasks| && Ranges(seg, n, tasks) && Ranges(seg', n, kids)
    requires Cuts(seg, seg', tasks[i].lo, tasks[i].hi)
    requires forall k :: 0 <= k < |kids| ==> tasks[i].lo <= kids[k].lo < tasks[i].hi
    ensures Ranges(seg', n, Without(tasks, i) + kids)
  {
    var rest := Without(tasks, i);
    var w := tasks[i];
    forall k | 0 <= k < |rest|
      ensures IsSegment(seg', 0, n, rest[k].lo, rest[k].hi) && !(w.lo <= rest[k].lo < w.hi)
    {
      var j := if k < i then k else k + 1;
      assert rest[k] == tasks[j];
      OtherSegment(seg, seg', 0, n, w.lo, w.hi, rest[k].lo, rest[k].hi);
      assert seg[rest[k].lo] == rest[k].lo;
    }
    forall k, k' | 0 <= k < k' < |rest| ensures rest[k].lo != rest[k'].lo {
      assert rest[k] == tasks[if k < i then k else k + 1];
      assert rest[k'] == tasks[if k' < i then k' else k' + 1];
    }
  }

  /** A completed item keeps the state consistent, whatever the other items are. */
  lemma StepConsistent<T>(s: seq<T>, t: seq<T>, seg: seq<int>, seg': seq<int>, n: int,
                          tasks: seq<Task>, i: int, kids: seq<Task>, key: T -> int)
    requires 0 <= i < |tasks| && Consistent(s, seg, n, tasks, key)
    requires PermIn(s, t, tasks[i].lo, tasks[i].hi) && Cuts(seg, seg', tasks[i].lo, tasks[i].hi)
    requires Apart(t, seg', tasks[i].lo, tasks[i].hi, key)
    requires Ranges(seg', n, kids)
    requires forall k :: 0 <= k < |kids| ==> tasks[i].lo <= kids[k].lo < tasks[i].hi
    requires Settled(t, seg', tasks[i].lo, tasks[i].hi, kids, key)
    ensures Consistent(t, seg', n, Without(tasks, i) + kids, key)
  {
    hide Open;
    var w := tasks[i];
    Refine(s, t, seg, seg', 0, n, w.lo, w.hi, key);
    RangesStep(seg, seg', n, tasks, i, kids);
    OpenWithout(tasks, i, kids);
    var tasks' := Without(tasks, i) + kids;
    forall x, y | 0 <= x < y < n && seg'[x] == seg'[y] && !Open(tasks', seg'[x]) ensures key(t[x]) <= key(t[y]) {
      if w.lo <= x < w.hi || w.lo <= y < w.hi {
        assert w.lo <= seg'[x] < w.hi by {
          Outside(seg, seg', n, w, x);
          Outside(seg, seg', n, w, y);
        }
        Outside(seg, seg', n, w, x);
        Outside(seg, seg', n, w, y);
      } else {
        assert seg[x] != w.lo;
      }
    }
  }

  /** An index lies in the cut range exactly when its new segment does. */
  lemma Outside(seg: seq<int>, seg': seq<int>, n: int, w: Task, k: int)
    requires Shape(seg, 0, n) && IsSegment(seg, 0, n, w.lo, w.hi) && Cuts(seg, seg', w.lo, w.hi) && 0 <= k < n
    ensures w.lo <= k < w.hi <==> w.lo <= seg'[k] < w.hi
  {
    if !(w.lo <= k < w.hi) {
      assert seg[seg[k]] == seg[k];
    }
  }

  /** An empty queue means a sorted array. */
  lemma EmptyQueueSorted<T>(s: seq<T>, seg: seq<int>, n: int, key: T -> int)
    requires Consistent(s, seg, n, [], key)
    ensures SortedIn(s, 0, n, key)
  {
    forall i, j | 0 <= i < j < n ensures key(s[i]) <= key(s[j]) {
      assert seg[i] == seg[j] ==> !Open([], seg[i]);
    }
  }

  lemma StartConsistent<T>(s: seq<T>, n: int, key: T -> int) returns (seg: seq<int>)
    requires 0 < n <= |s|
    ensures |seg| == |s| && Consistent(s, seg, n, [Task(0, n, false)], key)
  {
    seg := seq(|s|, k => 0);
    assert [Task(0, n, false)][0].lo == 0;
    assert Open([Task(0, n, false)], 0);
  }

  /** The sides of a split that still need sorting: those with more than one element. */
  function Sides(w: Task, l: int, r: int): (kids: seq<Task>) {
    (if r > w.lo then [Task(w.lo, r + 1, true)] else []) + (if l < w.hi - 1 then [Task(l, w.hi, true)] else [])
  }

  lemma SidesWeight(w: Task, l: int, r: int)
    requires w.lo < w.hi && Quicksort.Parted(w.lo, l, r, w.hi - 1)
    ensures Weight(Sides(w, l, r)) < TaskWeight(w)
  {
    var a := if r > w.lo then [Task(w.lo, r + 1, true)] else [];
    var b := if l < w.hi - 1 then [Task(l, w.hi, true)] else [];
    WeightConcat(a, b);
    WeightOne(Task(w.lo, r + 1, true));
    WeightOne(Task(l, w.hi, true));
  }

  lemma SidesOpen<T>(s: seq<T>, seg: seq<int>, n: int, w: Task, l: int, r: int, key: T -> int)
    requires |s| == |seg| && Shape(seg, 0, n) && IsSegment(seg, 0, n, w.lo, w.hi)
    requires Quicksort.Parted(w.lo, l, r, w.hi - 1)
    requires Quicksort.Partitioned(s, w.lo, l, r, w.hi - 1, key)
    ensures var seg' := CutThree(seg, w.lo, r + 1, l, w.hi);
      && Ranges(seg', n, Sides(w, l, r)) && Apart(s, seg', w.lo, w.hi, key)
      && Settled(s, seg', w.lo, w.hi, Sides(w, l, r), key)
  {
    SidesRanges(seg, n, w, l, r);
    SidesSettled(s, seg, n, w, l, r, key);
  }

  lemma SidesRanges(seg: seq<int>, n: int, w: Task, l: int, r: int)
    requires Shape(seg, 0, n) && IsSegment(seg, 0, n, w.lo, w.hi)
    requires Quicksort.Parted(w.lo, l, r, w.hi - 1)
    ensures Ranges(CutThree(seg, w.lo, r + 1, l, w.hi), n, Sides(w, l, r))
  {
    hide Shape, CutThree, IsSegment;
    CutThreeSegments(seg, 0, n, w.lo, r + 1, l, w.hi);
  }

  lemma SidesSettled<T>(s: seq<T>, seg: seq<int>, n: int, w: Task, l: int, r: int, key: T -> int)
    requires |s| == |seg| && IsSegment(seg, 0, n, w.lo, w.hi)
    requires Quicksort.Parted(w.lo, l, r, w.hi - 1)
    requires Quicksort.Partitioned(s, w.lo, l, r, w.hi - 1, key)
    ensures var seg' := CutThree(seg, w.lo, r + 1, l, w.hi);
      Apart(s, seg', w.lo, w.hi, key) && Settled(s, seg', w.lo, w.hi, Sides(w, l, r), key)
  {
    var kids := Sides(w, l, r);
    if r > w.lo {
      assert kids[0].lo == w.lo;
    }
    if l < w.hi - 1 {
      assert kids[|kids| - 1].lo == l;
    }
  }

  /** A worker handles one submitted item: small ranges are sorted, large ones split. */
  method HandleWork<T>(a: array<T>, w: Task, threshold: int, key: T -> int, ghost seg: seq<int>, ghost n: int)
    returns (ok: bool, kids: seq<Task>, ghost seg': seq<int>)
    requires |seg| == a.Length && Shape(seg, 0, n) && IsSegment(seg, 0, n, w.lo, w.hi)
    modifies a
    ensures PermIn(old(a[..]), a[..], w.lo, w.hi)
    ensures w.hi - w.lo <= Quicksort.MAX_ELTS || threshold <= Quicksort.MAX_ELTS + 1 ==> ok
    ensures ok ==> Cuts(seg, seg', w.lo, w.hi)
    ensures ok ==> Apart(a[..], seg', w.lo, w.hi, key) && Settled(a[..], seg', w.lo, w.hi, kids, key)
    ensures ok ==> Ranges(seg', n, kids) && Weight(kids) < TaskWeight(w)
    ensures ok ==> forall k :: 0 <= k < |kids| ==> w.lo <= kids[k].lo < w.hi && kids[k].hi - kids[k].lo < w.hi - w.lo
  {
    hide Quicksort.Lopsided, Quicksort.Partitioned;
    kids, seg' := [], seg;
    if w.hi - w.lo < threshold {
      ok := Quicksort.Sort(a, w.lo, w.hi, key);
    } else {
      ok := true;
      var l, r := Quicksort.Partition(a, w.lo, w.hi - 1, key);
      kids := Sides(w, l, r);
      SidesWeight(w, l, r);
      SidesOpen(a[..], seg, n, w, l, r, key);
      seg' := CutThree(seg, w.lo, r + 1, l, w.hi);
    }
  }

  /** The length fits in an `int`, and what is left to quicksort is short enough for it. */
  predicate Indexable(n: int, threshold: int) {
    n <= Quicksort.INT_MAX && (n <= Quicksort.MAX_ELTS || threshold <= Quicksort.MAX_ELTS + 1)
  }

  /** The main thread and its workers. In each turn any pending item may advance: a returned
      side is submitted, or a submitted item is completed by a worker. It fails if the length
      does not fit in an `int`; with a threshold of 0 for the empty array, which is split and read
      outside of its bounds; and if an item below the threshold is too long for quicksort. */
  method ThreadedQuicksort<T>(a: array<T>, n: int, threshold: int, key: T -> int) returns (ok: bool)
    requires 0 <= n <= a.Length
    modifies a
    ensures n > Quicksort.INT_MAX || (n == 0 && threshold <= 0) ==> !ok
    ensures Indexable(n, threshold) && (n > 0 || threshold > 0) ==> ok
    ensures PermIn(old(a[..]), a[..], 0, n)
    ensures ok ==> SortedIn(a[..], 0, n, key)
  {
    hide Apart, Settled, Shape, Ranges, Weight;
    if n == 0 || n > Quicksort.INT_MAX {
      return n == 0 && threshold > 0;
    }
    ok := true;
    var tasks := [Task(0, n, false)];
    ghost var seg := StartConsistent(a[..], n, key);
    while tasks != []
      invariant ok && PermIn(old(a[..]), a[..], 0, n)
      invariant |seg| == a.Length && Consistent(a[..], seg, n, tasks, key)
      decreases Weight(tasks)
    {
      var i :| 0 <= i < |tasks|;
      var w := tasks[i];
      WeightWithout(tasks, i);
      WeightNonNegative(seg, n, tasks);
      IsPending(seg, n, tasks, i);
      ghost var s, seg0 := a[..], seg;
      if w.returned {
        var kids := [w.(returned := false)];
        Resubmit(s, seg, n, tasks, i, key);
        WeightConcat(Without(tasks, i), kids);
        tasks := Without(tasks, i) + kids;
      } else {
        var kids;
        ok, kids, seg := HandleWork(a, w, threshold, key, seg, n);
        if !ok {
          return;
        }
        StepConsistent(s, a[..], seg0, seg, n, tasks, i, kids, key);
        WeightConcat(Without(tasks, i), kids);
        tasks := Without(tasks, i) + kids;
      }
    }
    EmptyQueueSorted(a[..], seg, n, key);
  }

  lemma IsPending(seg: seq<int>, n: int, tasks: seq<Task>, i: int)
    requires Ranges(seg, n, tasks) && 0 <= i < |tasks|
    ensures IsSegment(seg, 0, n, tasks[i].lo, tasks[i].hi)
  {
  }

  /** Submitting a returned side changes neither the array nor the segments. */
  lemma Resubmit<T>(s: seq<T>, seg: seq<int>, n: int, tasks: seq<Task>, i: int, key: T -> int)
    requires 0 <= i < |tasks| && Consistent(s, seg, n, tasks, key)
    ensures Consistent(s, seg, n, Without(tasks, i) + [tasks[i].(returned := false)], key)
    ensures Weight([tasks[i].(returned := false)]) < TaskWeight(tasks[i]) || !tasks[i].returned
  {
    var w := tasks[i];
    var kids := [w.(returned := false)];
    assert kids[0].lo == w.lo;
    assert Open(kids, w.lo);
    WeightOne(kids[0]);
    StepConsistent(s, s, seg, seg, n, tasks, i, kids, key);
  }
}
