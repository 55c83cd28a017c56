/** The parallel radix sort of generic/sorter/array.c (rs_radix, rs_finish, rs_wait_small):
    big ranges are split by all workers together, small ones become background jobs that
    complete in any order before the next wait. */
module ParallelRadix {
  import opened Basics
  import opened Ordering
  import opened Segments
  import opened HashBits
  import opened Positions
  import opened RadixSort
  import opened ParallelSplit

  /** A background job: sort `[lo, hi)`, which lies in the buffer or in the array. */
  datatype Job = Job(lo: nat, hi: nat, inBuffer: bool, shift: nat)

  /** The two arrays, the segments found so far, and for every index the array that holds
      its element (`true` for the buffer). */
  datatype State<T> = State(x: seq<T>, y: seq<T>, seg: seq<int>, loc: seq<bool>)

  ghost predicate WellSized<T>(st: State<T>) {
    |st.x| == |st.y| == |st.seg| == |st.loc|
  }

  /** The elements wherever they are. */
  ghost function View<T>(st: State<T>): (v: seq<T>)
    requires WellSized(st)
    ensures |v| == |st.x| && forall k :: 0 <= k < |v| ==> v[k] == if st.loc[k] then st.y[k] else st.x[k]
  {
    seq(|st.x|, k requires 0 <= k < |st.x| => if st.loc[k] then st.y[k] else st.x[k])
  }

  ghost predicate Sound<T>(st: State<T>, ctx: Context<T>) {
    && WellSized(st) && Shape(st.seg, 0, |st.x|) && Apart(View(st), st.seg, 0, |st.x|, ctx.key)
    && Rising(st.seg, 0, |st.x|)
  }

  /** Segments are contiguous: their starts rise with the index. */
  ghost predicate Rising(seg: seq<int>, lo: nat, hi: nat) {
    lo <= hi <= |seg| && forall i, j :: lo <= i < j < hi ==> seg[i] <= seg[j]
  }

  /** `[lo, hi)` is a segment held by one array, and its hashes agree from `bits` up. */
  ghost predicate Ready<T>(st: State<T>, ctx: Context<T>, lo: nat, hi: nat, inBuffer: bool, bits: nat) {
    && WellSized(st) && IsSegment(st.seg, 0, |st.x|, lo, hi)
    && (forall k :: lo <= k < hi ==> st.loc[k] == inBuffer)
    && Agree(View(st)[lo..hi], ctx, bits)
  }

  /** Jobs are disjoint ranges that are ready to be sorted. */
  ghost predicate Queued<T>(st: State<T>, ctx: Context<T>, jobs: seq<Job>) {
    && (forall j :: 0 <= j < |jobs| ==> Ready(st, ctx, jobs[j].lo, jobs[j].hi, jobs[j].inBuffer, jobs[j].shift))
    && (forall i, j :: 0 <= i < j < |jobs| ==> jobs[i].lo != jobs[j].lo)
  }

  ghost predicate HasJob(jobs: seq<Job>, x: int) {
    exists j :: 0 <= j < |jobs| && jobs[j].lo == x
  }

  /** The segment starting at `x` is sorted in the output array. */
  ghost predicate SegmentDone<T>(st: State<T>, ctx: Context<T>, out: bool, x: int)
    requires WellSized(st)
  {
    && (forall k :: 0 <= k < |st.x| && st.seg[k] == x ==> st.loc[k] == out)
    && forall i, j :: 0 <= i < j < |st.x| && st.seg[i] == x && st.seg[j] == x ==>
         ctx.key(View(st)[i]) <= ctx.key(View(st)[j])
  }

  /** Index `k` needs nothing more than the queued jobs. */
  ghost predicate Handled<T>(st: State<T>, ctx: Context<T>, jobs: seq<Job>, out: bool, k: int)
    requires WellSized(st) && 0 <= k < |st.x|
  {
    HasJob(jobs, st.seg[k]) || SegmentDone(st, ctx, out, st.seg[k])
  }

  ghost predicate SameAt<T>(st: State<T>, st': State<T>, k: int)
    requires WellSized(st) && WellSized(st') && |st.x| == |st'.x| && 0 <= k < |st.x|
  {
    st'.x[k] == st.x[k] && st'.y[k] == st.y[k] && st'.seg[k] == st.seg[k] && st'.loc[k] == st.loc[k]
  }

  /** A step that works on the segment `[lo, hi)` only: it permutes the elements there, may
      move them to the other array, and may cut the segment into ordered parts. */
  ghost predicate Touch<T>(st: State<T>, st': State<T>, ctx: Context<T>, lo: nat, hi: nat) {
    && WellSized(st) && WellSized(st') && |st.x| == |st'.x| && lo <= hi <= |st.x|
    && (forall k :: 0 <= k < lo || hi <= k < |st.x| ==> SameAt(st, st', k))
    && multiset(View(st)) == multiset(View(st'))
    && Cuts(st.seg, st'.seg, lo, hi)
    && Apart(View(st'), st'.seg, lo, hi, ctx.key) && Rising(st'.seg, lo, hi)
  }

  lemma TouchSound<T>(st: State<T>, st': State<T>, ctx: Context<T>, lo: nat, hi: nat)
    requires Sound(st, ctx) && IsSegment(st.seg, 0, |st.x|, lo, hi) && Touch(st, st', ctx, lo, hi)
    ensures Sound(st', ctx)
  {
    forall k | 0 <= k < lo || hi <= k < |st.x| ensures View(st)[k] == View(st')[k] {
      assert SameAt(st, st', k);
    }
    Refine(View(st), View(st'), st.seg, st'.seg, 0, |st.x|, lo, hi, ctx.key);
    forall i, j | 0 <= i < j < |st.x| ensures st'.seg[i] <= st'.seg[j] {
      TouchApart(st, st', ctx, lo, hi, i);
      TouchApart(st, st', ctx, lo, hi, j);
      assert st.seg[i] <= st.seg[j];
    }
  }

  /** Indices outside the touched segment stay outside: their segments are not affected. */
  lemma TouchApart<T>(st: State<T>, st': State<T>, ctx: Context<T>, lo: nat, hi: nat, k: int)
    requires Sound(st, ctx) && IsSegment(st.seg, 0, |st.x|, lo, hi) && Touch(st, st', ctx, lo, hi) && 0 <= k < |st.x|
    ensures lo <= k < hi <==> lo <= st'.seg[k] < hi
  {
    if !(lo <= k < hi) {
      assert st.seg[st.seg[k]] == st.seg[k];
    }
  }

  lemma TouchReady<T>(st: State<T>, st': State<T>, ctx: Context<T>, lo: nat, hi: nat, p: nat, q: nat,
                      inBuffer: bool, bits: nat)
    requires Sound(st, ctx) && IsSegment(st.seg, 0, |st.x|, lo, hi) && Touch(st, st', ctx, lo, hi)
    requires Ready(st, ctx, p, q, inBuffer, bits) && p != lo
    ensures Ready(st', ctx, p, q, inBuffer, bits)
  {
    OtherSegment(st.seg, st'.seg, 0, |st.x|, lo, hi, p, q);
    forall k | p <= k < q ensures st'.loc[k] == st.loc[k] && View(st')[k] == View(st)[k] {
      assert st.seg[k] == p;
      assert SameAt(st, st', k);
    }
    assert View(st)[p..q] == View(st')[p..q];
  }

  lemma TouchDone<T>(st: State<T>, st': State<T>, ctx: Context<T>, lo: nat, hi: nat, out: bool, x: int)
    requires Sound(st, ctx) && IsSegment(st.seg, 0, |st.x|, lo, hi) && Touch(st, st', ctx, lo, hi)
    requires !(lo <= x < hi) && SegmentDone(st, ctx, out, x)
    ensures SegmentDone(st', ctx, out, x)
  {
    forall k | 0 <= k < |st.x| && st'.seg[k] == x ensures SameAt(st, st', k) {
      TouchApart(st, st', ctx, lo, hi, k);
    }
  }

  lemma WithoutFacts(jobs: seq<Job>, i: nat)
    requires i < |jobs| && forall a, b :: 0 <= a < b < |jobs| ==> jobs[a].lo != jobs[b].lo
    ensures forall x :: HasJob(jobs, x) <==> HasJob(Without(jobs, i), x) || x == jobs[i].lo
    ensures !HasJob(Without(jobs, i), jobs[i].lo)
    ensures forall j :: 0 <= j < |Without(jobs, i)| ==> Without(jobs, i)[j] in jobs
    ensures forall a, b :: 0 <= a < b < |jobs| - 1 ==> Without(jobs, i)[a].lo != Without(jobs, i)[b].lo
  {
    var r := Without(jobs, i);
    forall x | HasJob(jobs, x) && x != jobs[i].lo ensures HasJob(r, x) {
      var j :| 0 <= j < |jobs| && jobs[j].lo == x;
      assert r[if j < i then j else j - 1].lo == x;
    }
    forall j | 0 <= j < |r| ensures r[j] == jobs[if j < i then j else j + 1] {
    }
  }

  /** Touching one segment keeps all jobs on other segments. */
  lemma TouchQueued<T>(st: State<T>, st': State<T>, ctx: Context<T>, lo: nat, hi: nat, jobs: seq<Job>)
    requires Sound(st, ctx) && IsSegment(st.seg, 0, |st.x|, lo, hi) && Touch(st, st', ctx, lo, hi)
    requires Queued(st, ctx, jobs) && !HasJob(jobs, lo)
    ensures Queued(st', ctx, jobs)
  {
    hide Sound, Touch, Ready, IsSegment;
    forall j | 0 <= j < |jobs| ensures Ready(st', ctx, jobs[j].lo, jobs[j].hi, jobs[j].inBuffer, jobs[j].shift) {
      TouchReady(st, st', ctx, lo, hi, jobs[j].lo, jobs[j].hi, jobs[j].inBuffer, jobs[j].shift);
    }
  }

  /** The state after `[lo, hi)` has been sorted into the output array. */
  lemma FinishTouch<T>(st: State<T>, x: seq<T>, y: seq<T>, ctx: Context<T>, lo: nat, hi: nat,
                       inBuffer: bool, bits: nat, out: bool) returns (st': State<T>)
    requires Sound(st, ctx) && Ready(st, ctx, lo, hi, inBuffer, bits)
    requires SameOutside(st.x, x, lo, hi) && SameOutside(st.y, y, lo, hi)
    requires SortedFrom(if out then y else x, if inBuffer then st.y else st.x, lo, hi, ctx.key)
    ensures st' == State(x, y, st.seg, st'.loc) && Touch(st, st', ctx, lo, hi)
    ensures SegmentDone(st', ctx, out, lo)
  {
    var loc := seq(|st.x|, k requires 0 <= k < |st.x| => if lo <= k < hi then out else st.loc[k]);
    st' := State(x, y, st.seg, loc);
    var src, dst := if inBuffer then st.y else st.x, if out then y else x;
    FinishView(st, st', src, dst, lo, hi, ctx.key);
    forall i, j | 0 <= i < j < |st.x| && st.seg[i] == lo && st.seg[j] == lo
      ensures ctx.key(View(st')[i]) <= ctx.key(View(st')[j])
    {
      assert View(st')[i] == dst[i] && View(st')[j] == dst[j];
    }
  }

  lemma FinishView<T>(st: State<T>, st': State<T>, src: seq<T>, dst: seq<T>, lo: nat, hi: nat, key: T -> int)
    requires WellSized(st) && WellSized(st') && |st.x| == |st'.x|
    requires SortedFrom(dst, src, lo, hi, key) && |src| == |st.x|
    requires forall k :: 0 <= k < lo || hi <= k < |src| ==> SameAt(st, st', k)
    requires forall k :: lo <= k < hi ==> View(st)[k] == src[k] && View(st')[k] == dst[k]
    ensures multiset(View(st)) == multiset(View(st'))
  {
    hide SortedIn;
    var v, w := View(st), View(st');
    assert v[lo..hi] == src[lo..hi] && w[lo..hi] == dst[lo..hi];
    forall k | 0 <= k < lo || hi <= k < |src| ensures v[k] == w[k] {
      assert SameAt(st, st', k);
    }
    assert v[..lo] == w[..lo] && v[hi..] == w[hi..];
    assert v == v[..lo] + v[lo..hi] + v[hi..] && w == w[..lo] + w[lo..hi] + w[hi..];
  }

  /** rs_finish: sort one ready range, by quicksort or by the sequential radix sort. */
  method Finish<T(!new)>(x: array<T>, y: array<T>, ctx: Context<T>, job: Job, out: bool, ghost st: State<T>)
    returns (ok: bool, ghost st': State<T>)
    requires x != y && x[..] == st.x && y[..] == st.y && Monotone(ctx)
    requires Sound(st, ctx) && Ready(st, ctx, job.lo, job.hi, job.inBuffer, job.shift)
    modifies x, y
    ensures ok ==> x[..] == st'.x && y[..] == st'.y && Touch(st, st', ctx, job.lo, job.hi)
    ensures ok ==> st'.seg == st.seg && SegmentDone(st', ctx, out, job.lo)
    ensures x.Length <= Quicksort.MAX_ELTS ==> ok
  {
    hide Sound, Agree, SortedFrom, SameOutside, Touch, SegmentDone;
    ReadySlice(st, ctx, job);
    if job.inBuffer {
      ok := SortBucket(x, y, job.lo, job.hi, ctx, job.shift, out);
    } else {
      ok := SortBucket(y, x, job.lo, job.hi, ctx, job.shift, !out);
    }
    if !ok {
      return false, st;
    }
    st' := FinishTouch(st, x[..], y[..], ctx, job.lo, job.hi, job.inBuffer, job.shift, out);
  }

  lemma ReadySlice<T>(st: State<T>, ctx: Context<T>, job: Job)
    requires Ready(st, ctx, job.lo, job.hi, job.inBuffer, job.shift)
    ensures job.hi <= |st.x| && Agree((if job.inBuffer then st.y else st.x)[job.lo..job.hi], ctx, job.shift)
  {
    assert View(st)[job.lo..job.hi] == (if job.inBuffer then st.y else st.x)[job.lo..job.hi];
  }

  /** What background progress may change: only queued ranges, which become done or stay queued. */
  ghost predicate Advanced<T>(st: State<T>, st': State<T>, ctx: Context<T>, jobs: seq<Job>, jobs': seq<Job>,
                              out: bool) {
    && WellSized(st) && WellSized(st') && |st.x| == |st'.x| && st'.seg == st.seg
    && multiset(View(st)) == multiset(View(st'))
    && (forall x :: HasJob(jobs', x) ==> HasJob(jobs, x))
    && forall k :: 0 <= k < |st.x| ==>
      if HasJob(jobs, st.seg[k]) then Handled(st', ctx, jobs', out, k) else SameAt(st, st', k)
  }

  /** Completing one more job advances the state. */
  lemma AdvanceOne<T>(st0: State<T>, st: State<T>, st': State<T>, ctx: Context<T>, jobs0: seq<Job>,
                      jobs: seq<Job>, i: nat, out: bool)
    requires i < |jobs| && Advanced(st0, st, ctx, jobs0, jobs, out) && Sound(st, ctx) && Queued(st, ctx, jobs)
    requires Touch(st, st', ctx, jobs[i].lo, jobs[i].hi) && st'.seg == st.seg && SegmentDone(st', ctx, out, jobs[i].lo)
    ensures Advanced(st0, st', ctx, jobs0, Without(jobs, i), out)
    ensures Sound(st', ctx) && Queued(st', ctx, Without(jobs, i))
  {
    hide Sound, IsSegment, SegmentDone, HasJob, Agree;
    var lo, hi := jobs[i].lo, jobs[i].hi;
    var rest := Without(jobs, i);
    WithoutFacts(jobs, i);
    assert Ready(st, ctx, lo, hi, jobs[i].inBuffer, jobs[i].shift);
    TouchSound(st, st', ctx, lo, hi);
    TouchQueued(st, st', ctx, lo, hi, rest);
    forall k | 0 <= k < |st.x|
      ensures if HasJob(jobs0, st0.seg[k]) then Handled(st', ctx, rest, out, k) else SameAt(st0, st', k)
    {
      TouchApart(st, st', ctx, lo, hi, k);
      SegmentAt(st.seg, |st.x|, lo, hi, k);
      if HasJob(jobs0, st0.seg[k]) {
        if !HasJob(rest, st.seg[k]) && st.seg[k] != lo {
          TouchDone(st, st', ctx, lo, hi, out, st.seg[k]);
        }
      } else {
        assert SameAt(st0, st, k);
        assert !HasJob(jobs, st.seg[k]);
        assert SameAt(st, st', k);
      }
    }
  }

  lemma SegmentAt(seg: seq<int>, n: nat, lo: nat, hi: nat, k: int)
    requires IsSegment(seg, 0, n, lo, hi) && 0 <= k < n
    ensures seg[k] == lo <==> lo <= k < hi
  {
  }

  /** Background workers complete some jobs, in any order; `all` waits for every one of them. A
      job whose quicksort fails makes the whole sort fail. */
  method RunJobs<T(!new)>(x: array<T>, y: array<T>, ctx: Context<T>, jobs0: seq<Job>, out: bool, all: bool,
                          ghost st0: State<T>)
    returns (ok: bool, jobs: seq<Job>, ghost st: State<T>)
    requires x != y && x[..] == st0.x && y[..] == st0.y && Monotone(ctx)
    requires Sound(st0, ctx) && Queued(st0, ctx, jobs0)
    modifies x, y
    ensures ok ==> x[..] == st.x && y[..] == st.y && Sound(st, ctx) && Queued(st, ctx, jobs)
    ensures ok ==> Advanced(st0, st, ctx, jobs0, jobs, out)
    ensures ok && all ==> jobs == []
    ensures x.Length <= Quicksort.MAX_ELTS ==> ok
  {
    hide *;
    ok, jobs, st := true, jobs0, st0;
    AdvanceNone(st, ctx, jobs, out);
    var more: bool := *;
    while jobs != [] && (all || more)
      invariant ok && x[..] == st.x && y[..] == st.y && Sound(st, ctx) && Queued(st, ctx, jobs)
      invariant Advanced(st0, st, ctx, jobs0, jobs, out)
      decreases |jobs|
    {
      var i :| 0 <= i < |jobs|;
      JobReady(st, ctx, jobs, i);
      ghost var st';
      ok, st' := Finish(x, y, ctx, jobs[i], out, st);
      if !ok {
        return;
      }
      AdvanceOne(st0, st, st', ctx, jobs0, jobs, i, out);
      WithoutLength(jobs, i);
      jobs, st := Without(jobs, i), st';
      more := *;
    }
  }

  lemma WithoutLength(jobs: seq<Job>, i: nat)
    requires i < |jobs|
    ensures |Without(jobs, i)| == |jobs| - 1
  {
  }

  lemma JobReady<T>(st: State<T>, ctx: Context<T>, jobs: seq<Job>, i: nat)
    requires Queued(st, ctx, jobs) && i < |jobs|
    ensures Ready(st, ctx, jobs[i].lo, jobs[i].hi, jobs[i].inBuffer, jobs[i].shift)
  {
  }

  lemma AdvanceNone<T>(st: State<T>, ctx: Context<T>, jobs: seq<Job>, out: bool)
    requires Sound(st, ctx)
    ensures Advanced(st, st, ctx, jobs, jobs, out)
  {
  }

  /** The segments after a split of `[lo, hi)` into buckets: `t` is the scattered range. */
  ghost function BucketSegments<T>(seg: seq<int>, t: seq<T>, ds: seq<nat>, ctx: Context<T>, shift: nat,
                                   lo: nat, hi: nat): (seg': seq<int>)
    requires lo <= hi <= |seg| && |t| == hi - lo
    ensures |seg'| == |seg|
    ensures forall k :: 0 <= k < |seg| ==>
      seg'[k] == if lo <= k < hi then lo + Start(ds, DigitOf(t[k - lo], ctx, shift)) else seg[k]
  {
    seq(|seg|, k requires 0 <= k < |seg| =>
      if lo <= k < hi then lo + Start(ds, DigitOf(t[k - lo], ctx, shift)) else seg[k])
  }

  /** In a bucketed sequence the digit decides on which side of a bucket start an element lies. */
  lemma DigitSide<T>(t: seq<T>, ds: seq<nat>, ctx: Context<T>, shift: nat, x: nat, d: nat)
    requires Bucketed(t, ds, ctx, shift) && x < |t|
    ensures x < Start(ds, d) <==> DigitOf(t[x], ctx, shift) < d
  {
    hide Start;
    var e := DigitOf(t[x], ctx, shift);
    if e < d {
      StartMono(ds, e + 1, d);
    } else {
      StartMono(ds, d, e);
    }
  }

  lemma BucketCuts<T(!new)>(seg: seq<int>, t: seq<T>, ds: seq<nat>, ctx: Context<T>, top: nat, shift: nat,
                            lo: nat, hi: nat)
    requires lo <= hi <= |seg| && |t| == hi - lo && Bucketed(t, ds, ctx, shift)
    requires Monotone(ctx) && Agree(t, ctx, top) && top <= shift + ctx.radixBits
    ensures var seg' := BucketSegments(seg, t, ds, ctx, shift, lo, hi);
      && Cuts(seg, seg', lo, hi) && Rising(seg', lo, hi)
      && forall i, j :: lo <= i < j < hi && seg'[i] != seg'[j] ==> ctx.key(t[i - lo]) <= ctx.key(t[j - lo])
  {
    hide Start, Digit, Shr;
    var seg' := BucketSegments(seg, t, ds, ctx, shift, lo, hi);
    forall k | lo <= k < hi ensures lo <= seg'[k] <= k && seg'[seg'[k]] == seg'[k] {
      var e := DigitOf(t[k - lo], ctx, shift);
      var m := Start(ds, e);
      DigitSide(t, ds, ctx, shift, m, e);
      DigitSide(t, ds, ctx, shift, m, e + 1);
    }
    forall i, j | lo <= i < j < hi
      ensures seg'[i] <= seg'[j] && (seg'[i] != seg'[j] ==> ctx.key(t[i - lo]) <= ctx.key(t[j - lo]))
    {
      var d, e := DigitOf(t[i - lo], ctx, shift), DigitOf(t[j - lo], ctx, shift);
      DigitSide(t, ds, ctx, shift, i - lo, e + 1);
      DigitSide(t, ds, ctx, shift, j - lo, e + 1);
      StartMono(ds, d, e);
      DigitOrder(ctx.hash(t[i - lo]), ctx.hash(t[j - lo]), top, shift, ctx.radixBits);
    }
  }

  /** Bucket `d`, if it is not empty, is one segment. */
  lemma BucketSegment<T>(seg: seq<int>, n: nat, t: seq<T>, ds: seq<nat>, ctx: Context<T>, shift: nat, lo: nat,
                         hi: nat, d: nat)
    requires Shape(seg, 0, n) && IsSegment(seg, 0, n, lo, hi) && |t| == hi - lo && Bucketed(t, ds, ctx, shift)
    requires Start(ds, d) < Start(ds, d + 1) <= |t|
    ensures IsSegment(BucketSegments(seg, t, ds, ctx, shift, lo, hi), 0, n, lo + Start(ds, d), lo + Start(ds, d + 1))
  {
    hide Start;
    var seg' := BucketSegments(seg, t, ds, ctx, shift, lo, hi);
    var p, q := lo + Start(ds, d), lo + Start(ds, d + 1);
    forall k | 0 <= k < n ensures seg'[k] == p <==> p <= k < q {
      if lo <= k < hi {
        DigitSide(t, ds, ctx, shift, k - lo, d);
        DigitSide(t, ds, ctx, shift, k - lo, d + 1);
        var e := DigitOf(t[k - lo], ctx, shift);
        if e < d {
          StartMono(ds, e + 1, d);
        } else if e > d {
          StartMono(ds, d + 1, e);
        }
      } else {
        assert seg[seg[k]] == seg[k] != lo;
      }
    }
  }

  /** The state after a split: the elements of `[lo, hi)` are in the other array, bucket by bucket. */
  ghost function SplitState<T>(st: State<T>, x: seq<T>, y: seq<T>, ctx: Context<T>, lo: nat, hi: nat,
                               inBuffer: bool, shift: nat, ds: seq<nat>): (st': State<T>)
    requires WellSized(st) && lo <= hi <= |st.x| == |x| == |y|
    ensures WellSized(st') && st'.x == x && st'.y == y
    ensures forall k :: 0 <= k < |x| ==> st'.loc[k] == if lo <= k < hi then !inBuffer else st.loc[k]
    ensures st'.seg == BucketSegments(st.seg, (if inBuffer then x else y)[lo..hi], ds, ctx, shift, lo, hi)
  {
    State(x, y, BucketSegments(st.seg, (if inBuffer then x else y)[lo..hi], ds, ctx, shift, lo, hi),
          seq(|st.x|, k requires 0 <= k < |st.x| => if lo <= k < hi then !inBuffer else st.loc[k]))
  }

  lemma SplitTouch<T(!new)>(st: State<T>, x: seq<T>, y: seq<T>, ctx: Context<T>, lo: nat, hi: nat,
                            inBuffer: bool, top: nat, shift: nat, ds: seq<nat>)
    requires Sound(st, ctx) && Ready(st, ctx, lo, hi, inBuffer, top) && Monotone(ctx) && top <= shift + ctx.radixBits
    requires SameOutside(st.x, x, lo, hi) && SameOutside(st.y, y, lo, hi)
    requires var t := (if inBuffer then x else y)[lo..hi];
      && Bucketed(t, ds, ctx, shift) && Agree(t, ctx, top)
      && multiset(t) == multiset((if inBuffer then st.y else st.x)[lo..hi])
    ensures Touch(st, SplitState(st, x, y, ctx, lo, hi, inBuffer, shift, ds), ctx, lo, hi)
  {
    hide Start, Bucketed, Agree, Monotone, BucketSegments, Shape, Apart, Rising, Cuts, IsSegment;
    var src, dst := if inBuffer then st.y else st.x, if inBuffer then x else y;
    SplitOrdered(st, x, y, ctx, lo, hi, inBuffer, top, shift, ds);
    var st' := SplitState(st, x, y, ctx, lo, hi, inBuffer, shift, ds);
    SplitView(st, st', src, dst, lo, hi);
  }

  /** The buckets of a split are in order. */
  lemma SplitOrdered<T(!new)>(st: State<T>, x: seq<T>, y: seq<T>, ctx: Context<T>, lo: nat, hi: nat,
                              inBuffer: bool, top: nat, shift: nat, ds: seq<nat>)
    requires WellSized(st) && lo <= hi <= |st.x| == |x| == |y| && Monotone(ctx) && top <= shift + ctx.radixBits
    requires var t := (if inBuffer then x else y)[lo..hi]; Bucketed(t, ds, ctx, shift) && Agree(t, ctx, top)
    ensures var st' := SplitState(st, x, y, ctx, lo, hi, inBuffer, shift, ds);
      Cuts(st.seg, st'.seg, lo, hi) && Rising(st'.seg, lo, hi) && Apart(View(st'), st'.seg, lo, hi, ctx.key)
  {
    hide Start, Bucketed, Agree, Monotone, BucketSegments, Rising, Cuts;
    var dst := if inBuffer then x else y;
    BucketCuts(st.seg, dst[lo..hi], ds, ctx, top, shift, lo, hi);
    var st' := SplitState(st, x, y, ctx, lo, hi, inBuffer, shift, ds);
    forall i, j | lo <= i < j < hi && st'.seg[i] != st'.seg[j] ensures ctx.key(View(st')[i]) <= ctx.key(View(st')[j]) {
      assert View(st')[i] == dst[lo..hi][i - lo] && View(st')[j] == dst[lo..hi][j - lo];
    }
  }

  lemma SplitReady<T(!new)>(st: State<T>, x: seq<T>, y: seq<T>, ctx: Context<T>, lo: nat, hi: nat,
                            inBuffer: bool, top: nat, shift: nat, ds: seq<nat>, d: nat)
    requires Sound(st, ctx) && Ready(st, ctx, lo, hi, inBuffer, top) && Monotone(ctx) && top <= shift + ctx.radixBits
    requires |x| == |y| == |st.x|
    requires var t := (if inBuffer then x else y)[lo..hi];
      Bucketed(t, ds, ctx, shift) && Agree(t, ctx, top)
    requires Start(ds, d) < Start(ds, d + 1) <= hi - lo
    ensures Ready(SplitState(st, x, y, ctx, lo, hi, inBuffer, shift, ds), ctx,
                  lo + Start(ds, d), lo + Start(ds, d + 1), !inBuffer, shift)
  {
    hide Start, Bucketed, Agree, Monotone, BucketSegments, Shape;
    var dst := if inBuffer then x else y;
    var st' := SplitState(st, x, y, ctx, lo, hi, inBuffer, shift, ds);
    BucketSegment(st.seg, |st.x|, dst[lo..hi], ds, ctx, shift, lo, hi, d);
    BucketFacts(dst[lo..hi], ds, ctx, top, shift, d);
    var p, q := lo + Start(ds, d), lo + Start(ds, d + 1);
    SliceSlice(dst, lo, hi, Start(ds, d), Start(ds, d + 1));
    assert View(st')[p..q] == dst[p..q];
  }

  lemma SplitView<T>(st: State<T>, st': State<T>, src: seq<T>, dst: seq<T>, lo: nat, hi: nat)
    requires WellSized(st) && WellSized(st') && |st.x| == |st'.x| == |src| == |dst| && lo <= hi <= |src|
    requires forall k :: 0 <= k < lo || hi <= k < |src| ==>
      st'.x[k] == st.x[k] && st'.y[k] == st.y[k] && st'.loc[k] == st.loc[k]
    requires forall k :: lo <= k < hi ==> View(st)[k] == src[k] && View(st')[k] == dst[k]
    requires multiset(src[lo..hi]) == multiset(dst[lo..hi])
    ensures multiset(View(st)) == multiset(View(st'))
  {
    var v, w := View(st), View(st');
    assert v[lo..hi] == src[lo..hi] && w[lo..hi] == dst[lo..hi];
    assert v[..lo] == w[..lo] && v[hi..] == w[hi..];
    assert v == v[..lo] + v[lo..hi] + v[hi..] && w == w[..lo] + w[lo..hi] + w[hi..];
  }

  /** What working off `[lo, hi)` may change: that range and the queued ranges. Everything
      there is sorted in the output array or still queued; the rest is untouched. */
  ghost predicate Completed<T>(st: State<T>, st': State<T>, ctx: Context<T>, jobs: seq<Job>, jobs': seq<Job>,
                               out: bool, lo: nat, hi: nat) {
    && WellSized(st) && WellSized(st') && |st.x| == |st'.x| && lo < hi <= |st.x|
    && multiset(View(st)) == multiset(View(st')) && st'.seg[lo] == lo
    && (forall x :: HasJob(jobs', x) ==> HasJob(jobs, x) || lo <= x < hi)
    && (forall k :: 0 <= k < lo || hi <= k < |st.x| ==> st'.seg[k] == st.seg[k])
    && (forall k :: 0 <= k < |st.x| ==>
      if lo <= k < hi || HasJob(jobs, st.seg[k]) then Handled(st', ctx, jobs', out, k) else SameAt(st, st', k))
  }

  /** A segment start separates the indices before it from those after it. */
  lemma StartSeparates<T>(st: State<T>, ctx: Context<T>, p: int, k: int)
    requires Sound(st, ctx) && 0 <= p < |st.x| && st.seg[p] == p && 0 <= k < |st.x|
    ensures p <= k <==> p <= st.seg[k]
  {
  }

  /** The end of a segment is the start of the next one. */
  lemma EndIsStart<T>(st: State<T>, ctx: Context<T>, lo: nat, hi: nat)
    requires Sound(st, ctx) && IsSegment(st.seg, 0, |st.x|, lo, hi) && hi < |st.x|
    ensures st.seg[hi] == hi
  {
    assert st.seg[hi - 1] == lo <= st.seg[hi] <= hi;
    assert st.seg[st.seg[hi]] == st.seg[hi] != lo;
  }

  lemma FinishCompleted<T>(st: State<T>, st': State<T>, ctx: Context<T>, jobs: seq<Job>, out: bool, lo: nat, hi: nat)
    requires Sound(st, ctx) && IsSegment(st.seg, 0, |st.x|, lo, hi) && Touch(st, st', ctx, lo, hi)
    requires st'.seg == st.seg && SegmentDone(st', ctx, out, lo)
    ensures Completed(st, st', ctx, jobs, jobs, out, lo, hi)
  {
    hide HasJob, SegmentDone, Sound, Apart, Shape, Rising;
    forall k | 0 <= k < |st.x|
      ensures if lo <= k < hi || HasJob(jobs, st.seg[k]) then Handled(st', ctx, jobs, out, k) else SameAt(st, st', k)
    {
      assert lo <= k < hi ==> st.seg[k] == lo;
      assert !(lo <= k < hi) ==> SameAt(st, st', k);
    }
  }

  lemma Added(jobs: seq<Job>, job: Job)
    ensures forall x :: HasJob(jobs + [job], x) <==> HasJob(jobs, x) || x == job.lo
  {
    var r := jobs + [job];
    forall x | HasJob(jobs, x) || x == job.lo ensures HasJob(r, x) {
      if HasJob(jobs, x) {
        var j :| 0 <= j < |jobs| && jobs[j].lo == x;
        assert r[j].lo == x;
      } else {
        assert r[|jobs|].lo == x;
      }
    }
  }

  lemma SubmitCompleted<T>(st: State<T>, ctx: Context<T>, jobs: seq<Job>, job: Job, out: bool)
    requires Sound(st, ctx) && Queued(st, ctx, jobs) && Ready(st, ctx, job.lo, job.hi, job.inBuffer, job.shift)
    requires !HasJob(jobs, job.lo)
    ensures Queued(st, ctx, jobs + [job]) && Completed(st, st, ctx, jobs, jobs + [job], out, job.lo, job.hi)
  {
    hide Agree, SegmentDone, Apart, Shape, Rising;
    Added(jobs, job);
    forall k | 0 <= k < |st.x|
      ensures if job.lo <= k < job.hi || HasJob(jobs, st.seg[k]) then Handled(st, ctx, jobs + [job], out, k)
              else SameAt(st, st, k)
    {
      assert job.lo <= k < job.hi ==> st.seg[k] == job.lo;
    }
  }

  /** Background progress after a completed range. */
  lemma CompletedAdvanced<T>(st: State<T>, st1: State<T>, st2: State<T>, ctx: Context<T>,
                             jobs: seq<Job>, jobs1: seq<Job>, jobs2: seq<Job>, out: bool, lo: nat, hi: nat)
    requires Completed(st, st1, ctx, jobs, jobs1, out, lo, hi) && Advanced(st1, st2, ctx, jobs1, jobs2, out)
    requires Sound(st1, ctx) && st1.seg[lo] == lo && (hi < |st1.x| ==> st1.seg[hi] == hi)
    ensures Completed(st, st2, ctx, jobs, jobs2, out, lo, hi)
  {
    hide HasJob, Sound, Shape, Rising, Apart;
    forall k | 0 <= k < |st.x|
      ensures if lo <= k < hi || HasJob(jobs, st.seg[k]) then Handled(st2, ctx, jobs2, out, k) else SameAt(st, st2, k)
    {
      StartSeparates(st1, ctx, lo, k);
      if hi < |st1.x| {
        StartSeparates(st1, ctx, hi, k);
      }
      if lo <= k < hi || HasJob(jobs, st.seg[k]) {
        assert Handled(st1, ctx, jobs1, out, k);
        if !HasJob(jobs1, st1.seg[k]) {
          AdvancedDone(st1, st2, ctx, jobs1, jobs2, out, st1.seg[k]);
        }
      } else {
        assert SameAt(st, st1, k);
        assert !HasJob(jobs1, st1.seg[k]);
      }
    }
  }

  lemma AdvancedDone<T>(st: State<T>, st': State<T>, ctx: Context<T>, jobs: seq<Job>, jobs': seq<Job>,
                        out: bool, x: int)
    requires Advanced(st, st', ctx, jobs, jobs', out) && !HasJob(jobs, x) && SegmentDone(st, ctx, out, x)
    ensures SegmentDone(st', ctx, out, x)
  {
    hide HasJob, Handled;
    forall k | 0 <= k < |st.x| && st'.seg[k] == x ensures st'.loc[k] == st.loc[k] && View(st')[k] == View(st)[k] {
      assert SameAt(st, st', k);
    }
  }

  lemma AdvancedReady<T>(st: State<T>, st': State<T>, ctx: Context<T>, jobs: seq<Job>, jobs': seq<Job>, out: bool,
                         lo: nat, hi: nat, inBuffer: bool, bits: nat)
    requires Advanced(st, st', ctx, jobs, jobs', out) && !HasJob(jobs, lo) && Ready(st, ctx, lo, hi, inBuffer, bits)
    ensures Ready(st', ctx, lo, hi, inBuffer, bits)
  {
    hide HasJob, Handled, Agree;
    forall k | lo <= k < hi ensures st'.loc[k] == st.loc[k] && View(st')[k] == View(st)[k] {
      assert st.seg[k] == lo;
      assert SameAt(st, st', k);
    }
    assert View(st)[lo..hi] == View(st')[lo..hi];
  }

  /** The loop over the buckets of a split range: `st0` is the state right after the split. */
  ghost predicate Underway<T>(st0: State<T>, st: State<T>, ctx: Context<T>, jobs: seq<Job>, out: bool, lo: nat,
                              pos: nat, hi: nat) {
    && WellSized(st0) && WellSized(st) && |st.x| == |st0.x| && lo <= pos <= hi <= |st.x|
    && multiset(View(st0)) == multiset(View(st))
    && (forall x :: HasJob(jobs, x) ==> lo <= x < pos)
    && (forall k :: 0 <= k < |st.x| ==> if lo <= k < pos then Handled(st, ctx, jobs, out, k) else SameAt(st0, st, k))
    && (lo < hi ==> st.seg[lo] == lo) && (hi < |st.x| ==> st.seg[hi] == hi)
  }

  lemma UnderwayStep<T>(st0: State<T>, st: State<T>, st': State<T>, ctx: Context<T>, jobs: seq<Job>, jobs': seq<Job>,
                        out: bool, lo: nat, p: nat, q: nat, hi: nat)
    requires Underway(st0, st, ctx, jobs, out, lo, p, hi) && Completed(st, st', ctx, jobs, jobs', out, p, q) && q <= hi
    requires Sound(st, ctx) && Sound(st', ctx) && st.seg[p] == p && (q < |st.x| ==> st.seg[q] == q)
    ensures Underway(st0, st', ctx, jobs', out, lo, q, hi)
  {
    hide HasJob, Sound, Shape, Rising, Apart;
    forall k | 0 <= k < |st.x| ensures if lo <= k < q then Handled(st', ctx, jobs', out, k) else SameAt(st0, st', k) {
      UnderwayStepAt(st0, st, st', ctx, jobs, jobs', out, lo, p, q, hi, k);
    }
  }

  lemma UnderwayStepAt<T>(st0: State<T>, st: State<T>, st': State<T>, ctx: Context<T>, jobs: seq<Job>, jobs': seq<Job>,
                          out: bool, lo: nat, p: nat, q: nat, hi: nat, k: int)
    requires Underway(st0, st, ctx, jobs, out, lo, p, hi) && Completed(st, st', ctx, jobs, jobs', out, p, q) && q <= hi
    requires Sound(st, ctx) && Sound(st', ctx) && st.seg[p] == p && (q < |st.x| ==> st.seg[q] == q) && 0 <= k < |st.x|
    ensures if lo <= k < q then Handled(st', ctx, jobs', out, k) else SameAt(st0, st', k)
  {
    hide HasJob, Sound, Shape, Rising, Apart, SegmentDone;
    StartSeparates(st, ctx, p, k);
    StartSeparates(st, ctx, lo, k);
    if lo <= k < p {
      assert Handled(st, ctx, jobs, out, k);
      if !HasJob(jobs, st.seg[k]) {
        CompletedDone(st, st', ctx, jobs, jobs', out, p, q, st.seg[k]);
      }
    } else if p <= k < q {
      assert Handled(st', ctx, jobs', out, k);
    } else {
      assert !HasJob(jobs, st.seg[k]);
      assert SameAt(st0, st, k) && SameAt(st, st', k);
    }
  }

  /** What was done outside the completed range and the jobs stays done. */
  lemma CompletedDone<T>(st: State<T>, st': State<T>, ctx: Context<T>, jobs: seq<Job>, jobs': seq<Job>, out: bool,
                         lo: nat, hi: nat, x: int)
    requires Completed(st, st', ctx, jobs, jobs', out, lo, hi) && Sound(st', ctx) && (hi < |st.x| ==> st.seg[hi] == hi)
    requires !HasJob(jobs, x) && !(lo <= x < hi) && SegmentDone(st, ctx, out, x)
    ensures SegmentDone(st', ctx, out, x)
  {
    hide HasJob, Handled, Sound;
    forall k | 0 <= k < |st.x| && st'.seg[k] == x
      ensures st.seg[k] == x && st'.loc[k] == st.loc[k] && View(st')[k] == View(st)[k]
    {
      StartSeparates(st', ctx, lo, k);
      if hi < |st.x| {
        StartSeparates(st', ctx, hi, k);
      } else {
        BelowLength(st', ctx, k);
      }
      assert SameAt(st, st', k);
    }
  }

  lemma BelowLength<T>(st: State<T>, ctx: Context<T>, k: int)
    requires Sound(st, ctx) && 0 <= k < |st.x|
    ensures 0 <= st.seg[k] < |st.x|
  {
  }

  /** Configured limits: workers, and the sizes below which a bucket is not split in parallel
      and below which it is sorted inline. */
  datatype Limits = Limits(threads: nat, threadThreshold: nat, threadChunk: nat)

  /** The buckets of a split range. */
  ghost predicate SplitInto<T>(st: State<T>, st': State<T>, ctx: Context<T>, lo: nat, hi: nat,
                               inBuffer: bool, top: nat, shift: nat, ds: seq<nat>) {
    && WellSized(st) && WellSized(st') && lo <= hi <= |st.x| == |st'.x|
    && st' == SplitState(st, st'.x, st'.y, ctx, lo, hi, inBuffer, shift, ds)
    && var t := (if inBuffer then st'.x else st'.y)[lo..hi];
      Bucketed(t, ds, ctx, shift) && Agree(t, ctx, top)
  }

  /** Parallel counting and splitting of one range. */
  method SplitRange<T(!new)>(x: array<T>, y: array<T>, lo: nat, hi: nat, ctx: Context<T>, threads: nat, inBuffer: bool,
                             ghost top: nat, shift: nat, ghost st: State<T>)
    returns (cnt: seq<nat>, ghost st': State<T>, ghost ds: seq<nat>)
    requires x != y && x[..] == st.x && y[..] == st.y && threads >= 1
    requires Monotone(ctx) && Sound(st, ctx) && Ready(st, ctx, lo, hi, inBuffer, top) && top <= shift + ctx.radixBits
    modifies x, y
    ensures x[..] == st'.x && y[..] == st'.y && Touch(st, st', ctx, lo, hi)
    ensures SplitInto(st, st', ctx, lo, hi, inBuffer, top, shift, ds)
    ensures |cnt| == Pow2(ctx.radixBits) && Counters(cnt, ds, |ds|)
  {
    hide Sound, Touch, Counters, CountEq, Scattered, Cover, Pointed, SameOutside, Digits, Agree, Monotone;
    ReadySlice(st, ctx, Job(lo, hi, inBuffer, top));
    var a, b := if inBuffer then y else x, if inBuffer then x else y;
    ghost var src := a[lo..hi];
    ds := Digits(src, ctx, shift);
    var ws := Blocks(lo, hi, threads);
    var total;
    ws, cnt := ParallelCount(a, lo, hi, ws, ctx, shift);
    cnt, total := BucketStarts(cnt, ds);
    assert total == hi - lo;
    ws, cnt := Distribute(ws, cnt, ds, lo);
    ParallelScatter(a, b, lo, hi, ws, ctx, shift);
    ghost var t := b[lo..hi];
    ScatteredBuckets(src, t, ctx, shift);
    AgreePerm(src, t, ctx, top);
    Unchanged(a[..], lo, hi);
    SplitTouch(st, x[..], y[..], ctx, lo, hi, inBuffer, top, shift, ds);
    st' := SplitState(st, x[..], y[..], ctx, lo, hi, inBuffer, shift, ds);
  }

  lemma Unchanged<T>(s: seq<T>, lo: nat, hi: nat)
    requires lo <= hi <= |s|
    ensures SameOutside(s, s, lo, hi)
  {
  }

  /** One bucket: a background job, an inline sort, or a parallel split of its own. */
  method HandleBucket<T(!new)>(x: array<T>, y: array<T>, p: nat, q: nat, ctx: Context<T>, lim: Limits, inBuffer: bool,
                               shift: nat, swapped: bool, jobs0: seq<Job>, ghost st0: State<T>)
    returns (ok: bool, jobs: seq<Job>, ghost st: State<T>)
    requires x != y && x[..] == st0.x && y[..] == st0.y && lim.threads >= 1
    requires Monotone(ctx) && Sound(st0, ctx) && Queued(st0, ctx, jobs0)
    requires Ready(st0, ctx, p, q, inBuffer, shift) && !HasJob(jobs0, p)
    modifies x, y
    ensures ok ==> x[..] == st.x && y[..] == st.y && Sound(st, ctx) && Queued(st, ctx, jobs)
    ensures ok ==> Completed(st0, st, ctx, jobs0, jobs, swapped != inBuffer, p, q)
    ensures x.Length <= Quicksort.MAX_ELTS ==> ok
    decreases shift, 1
  {
    hide *;
    jobs := jobs0;
    var out := swapped != inBuffer;
    var job := Job(p, q, inBuffer, shift);
    ReadySegment(st0, ctx, job);
    if q - p < lim.threadThreshold || shift < ASORT_MIN_SHIFT {
      if q - p < lim.threadChunk {
        ok, st := Finish(x, y, ctx, job, out, st0);
        if !ok {
          return;
        }
        FinishCompleted(st0, st, ctx, jobs, out, p, q);
        TouchSound(st0, st, ctx, p, q);
        TouchQueued(st0, st, ctx, p, q, jobs);
      } else {
        SubmitCompleted(st0, ctx, jobs0, job, out);
        ok, jobs, st := RunJobs(x, y, ctx, jobs0 + [job], out, false, st0);
        if !ok {
          return;
        }
        CompletedAdvanced(st0, st0, st, ctx, jobs0, jobs0 + [job], jobs, out, p, q);
      }
    } else {
      ok, jobs, st := RsRadix(x, y, p, q, ctx, lim, inBuffer, shift, swapped, jobs0, st0);
    }
  }

  lemma ReadySegment<T>(st: State<T>, ctx: Context<T>, job: Job)
    requires Sound(st, ctx) && Ready(st, ctx, job.lo, job.hi, job.inBuffer, job.shift)
    ensures IsSegment(st.seg, 0, |st.x|, job.lo, job.hi) && job.lo < job.hi <= |st.x| == |st.seg|
    ensures st.seg[job.lo] == job.lo && (job.hi < |st.x| ==> st.seg[job.hi] == job.hi)
  {
    if job.hi < |st.x| {
      EndIsStart(st, ctx, job.lo, job.hi);
    }
  }

  /** rs_radix: `[lo, hi)` ends up sorted in the output array, or queued for it. The output is
      the array that does not hold the range if `swapped`, else the one that does. */
  method RsRadix<T(!new)>(x: array<T>, y: array<T>, lo: nat, hi: nat, ctx: Context<T>, lim: Limits, inBuffer: bool,
                          hashBits: nat, swapped: bool, jobs0: seq<Job>, ghost st0: State<T>)
    returns (ok: bool, jobs: seq<Job>, ghost st: State<T>)
    requires x != y && x[..] == st0.x && y[..] == st0.y && lim.threads >= 1
    requires Monotone(ctx) && Sound(st0, ctx) && Queued(st0, ctx, jobs0)
    requires Ready(st0, ctx, lo, hi, inBuffer, hashBits) && !HasJob(jobs0, lo) && hashBits >= ASORT_MIN_SHIFT
    modifies x, y
    ensures ok ==> x[..] == st.x && y[..] == st.y && Sound(st, ctx) && Queued(st, ctx, jobs)
    ensures ok ==> Completed(st0, st, ctx, jobs0, jobs, swapped != inBuffer, lo, hi)
    ensures x.Length <= Quicksort.MAX_ELTS ==> ok
    decreases hashBits, 0
  {
    hide *;
    var out := swapped != inBuffer;
    RadixBitsPositive(ctx);
    var shift := if hashBits > ctx.radixBits then hashBits - ctx.radixBits else 0;
    ghost var st1;
    ok, jobs, st1 := RunJobs(x, y, ctx, jobs0, out, true, st0);
    st := st1;
    if !ok {
      return;
    }
    AdvancedReady(st0, st1, ctx, jobs0, jobs, out, lo, hi, inBuffer, hashBits);
    ReadySegment(st1, ctx, Job(lo, hi, inBuffer, hashBits));
    var cnt;
    ghost var st2, ds;
    cnt, st2, ds := SplitRange(x, y, lo, hi, ctx, lim.threads, inBuffer, hashBits, shift, st1);
    TouchSound(st1, st2, ctx, lo, hi);
    UnderwayStart(st1, st2, ctx, out, lo, hi, inBuffer, hashBits, shift, ds);
    st := st2;
    var pos, i := 0, 0;
    while i < |cnt|
      invariant 0 <= i <= |cnt| && pos == Start(ds, i) <= hi - lo
      invariant ok && x[..] == st.x && y[..] == st.y && Sound(st, ctx) && Queued(st, ctx, jobs)
      invariant Underway(st2, st, ctx, jobs, out, lo, lo + pos, hi)
    {
      CounterAt(cnt, ds, i);
      SplitBounds(st1, st2, ctx, lo, hi, inBuffer, hashBits, shift, ds, i);
      var q := cnt[i];
      if pos < q {
        ghost var st', jobs' := st, jobs;
        SplitParts(st1, st2, ctx, lo, hi, inBuffer, hashBits, shift, ds);
        SplitReady(st1, st2.x, st2.y, ctx, lo, hi, inBuffer, hashBits, shift, ds, i);
        UnderwayReady(st2, st, ctx, jobs, out, lo, lo + pos, lo + q, hi, !inBuffer, shift);
        ok, jobs, st := HandleBucket(x, y, lo + pos, lo + q, ctx, lim, !inBuffer, shift, !swapped, jobs, st);
        if !ok {
          return;
        }
        UnderwayStep(st2, st', st, ctx, jobs', jobs, out, lo, lo + pos, lo + q, hi);
      }
      pos := q;
      i := i + 1;
    }
    SplitEnd(st1, st2, ctx, lo, hi, inBuffer, hashBits, shift, ds);
    UnderwayEnd(st0, st1, st2, st, ctx, jobs0, jobs, out, lo, hi);
  }

  lemma RadixBitsPositive<T(!new)>(ctx: Context<T>)
    requires Monotone(ctx)
    ensures ctx.radixBits >= 1 && ASORT_MIN_SHIFT >= 1
  {
  }

  lemma SplitParts<T>(st: State<T>, st': State<T>, ctx: Context<T>, lo: nat, hi: nat, inBuffer: bool, top: nat,
                      shift: nat, ds: seq<nat>)
    requires SplitInto(st, st', ctx, lo, hi, inBuffer, top, shift, ds)
    ensures WellSized(st) && WellSized(st') && lo <= hi <= |st.x| == |st'.x|
    ensures var t := (if inBuffer then st'.x else st'.y)[lo..hi]; Bucketed(t, ds, ctx, shift) && Agree(t, ctx, top)
    ensures st' == SplitState(st, st'.x, st'.y, ctx, lo, hi, inBuffer, shift, ds)
  {
  }

  lemma SplitBounds<T>(st: State<T>, st': State<T>, ctx: Context<T>, lo: nat, hi: nat, inBuffer: bool,
                       top: nat, shift: nat, ds: seq<nat>, d: nat)
    requires SplitInto(st, st', ctx, lo, hi, inBuffer, top, shift, ds)
    ensures Start(ds, d) <= Start(ds, d + 1) <= hi - lo
  {
    StartMono(ds, d, d + 1);
  }

  lemma SplitEnd<T>(st: State<T>, st': State<T>, ctx: Context<T>, lo: nat, hi: nat, inBuffer: bool, top: nat,
                    shift: nat, ds: seq<nat>)
    requires SplitInto(st, st', ctx, lo, hi, inBuffer, top, shift, ds)
    ensures Start(ds, Pow2(ctx.radixBits)) == hi - lo && Start(ds, 0) == 0
  {
    BucketEnds((if inBuffer then st'.x else st'.y)[lo..hi], ds, ctx, shift);
  }

  lemma UnderwayStart<T>(st: State<T>, st': State<T>, ctx: Context<T>, out: bool, lo: nat, hi: nat,
                         inBuffer: bool, top: nat, shift: nat, ds: seq<nat>)
    requires Sound(st, ctx) && IsSegment(st.seg, 0, |st.x|, lo, hi) && Touch(st, st', ctx, lo, hi)
    requires SplitInto(st, st', ctx, lo, hi, inBuffer, top, shift, ds)
    ensures Underway(st', st', ctx, [], out, lo, lo, hi) && Start(ds, 0) == 0 && Queued(st', ctx, [])
  {
    SplitEnd(st, st', ctx, lo, hi, inBuffer, top, shift, ds);
    assert lo <= st'.seg[lo] <= lo;
    if hi < |st.x| {
      EndIsStart(st, ctx, lo, hi);
      assert SameAt(st, st', hi);
    }
  }

  lemma UnderwayReady<T>(st0: State<T>, st: State<T>, ctx: Context<T>, jobs: seq<Job>, out: bool, lo: nat,
                         p: nat, q: nat, hi: nat, inBuffer: bool, bits: nat)
    requires Underway(st0, st, ctx, jobs, out, lo, p, hi) && Ready(st0, ctx, p, q, inBuffer, bits) && q <= hi
    requires Sound(st0, ctx) && Sound(st, ctx)
    ensures Ready(st, ctx, p, q, inBuffer, bits) && !HasJob(jobs, p)
    ensures st.seg[p] == p && (q < |st.x| ==> st.seg[q] == q)
  {
    hide Agree, Handled, Apart, HasJob;
    forall k | p <= k < |st.x|
      ensures st.seg[k] == st0.seg[k] && (p <= k < q ==> st.loc[k] == st0.loc[k] && View(st)[k] == View(st0)[k])
    {
      assert SameAt(st0, st, k);
    }
    assert View(st)[p..q] == View(st0)[p..q];
    assert st.seg[p] == p;
    forall k | 0 <= k < |st.x| ensures st.seg[k] == p <==> p <= k < q {
      StartSeparates(st, ctx, p, k);
    }
    if q < |st.x| {
      EndIsStart(st, ctx, p, q);
    }
  }

  /** All buckets handled: the whole range is completed. */
  lemma UnderwayEnd<T>(st0: State<T>, st1: State<T>, st2: State<T>, st: State<T>, ctx: Context<T>,
                       jobs0: seq<Job>, jobs: seq<Job>, out: bool, lo: nat, hi: nat)
    requires Advanced(st0, st1, ctx, jobs0, [], out) && Sound(st1, ctx)
    requires IsSegment(st1.seg, 0, |st1.x|, lo, hi) && Touch(st1, st2, ctx, lo, hi)
    requires Underway(st2, st, ctx, jobs, out, lo, hi, hi) && Sound(st, ctx)
    ensures Completed(st0, st, ctx, jobs0, jobs, out, lo, hi)
  {
    hide Sound, HasJob, SegmentDone, Apart, Rising, Shape;
    forall k | 0 <= k < lo || hi <= k < |st0.x| ensures SameAt(st1, st, k) {
      assert SameAt(st1, st2, k) && SameAt(st2, st, k);
    }
    forall k | 0 <= k < |st0.x|
      ensures if lo <= k < hi || HasJob(jobs0, st0.seg[k]) then Handled(st, ctx, jobs, out, k) else SameAt(st0, st, k)
    {
      if lo <= k < hi {
      } else {
        assert SameAt(st1, st, k);
        if HasJob(jobs0, st0.seg[k]) {
          NoJobs(st1.seg[k]);
          TouchApart(st1, st2, ctx, lo, hi, k);
          TouchDone(st1, st2, ctx, lo, hi, out, st1.seg[k]);
          UnderwayDone(st2, st, ctx, jobs, out, lo, hi, st1.seg[k]);
        } else {
          assert SameAt(st0, st1, k);
        }
      }
    }
    assert forall k :: 0 <= k < lo || hi <= k < |st0.x| ==> st.seg[k] == st0.seg[k] by {
      forall k | 0 <= k < lo || hi <= k < |st0.x| ensures st.seg[k] == st0.seg[k] {
        assert SameAt(st1, st, k);
      }
    }
  }

  lemma NoJobs(x: int)
    ensures !HasJob([], x)
  {
  }

  lemma UnderwayDone<T>(st0: State<T>, st: State<T>, ctx: Context<T>, jobs: seq<Job>, out: bool, lo: nat,
                        hi: nat, x: int)
    requires Underway(st0, st, ctx, jobs, out, lo, hi, hi) && Sound(st, ctx) && lo < hi
    requires !(lo <= x < hi) && SegmentDone(st0, ctx, out, x)
    ensures SegmentDone(st, ctx, out, x)
  {
    hide HasJob, Handled, Sound;
    forall k | 0 <= k < |st.x| && st.seg[k] == x
      ensures st0.seg[k] == x && st.loc[k] == st0.loc[k] && View(st)[k] == View(st0)[k]
    {
      StartSeparates(st, ctx, lo, k);
      if hi < |st.x| {
        StartSeparates(st, ctx, hi, k);
      } else {
        BelowLength(st, ctx, k);
      }
      assert SameAt(st0, st, k);
    }
  }

  /** threaded_radixsort: the whole array, for any number of workers and any completion order,
      ends up as a sorted permutation in the buffer if `swap`, else in the array. */
  method ThreadedRadixsort<T(!new)>(x: array<T>, y: array<T>, ctx: Context<T>, lim: Limits, hashBits: nat, swap: bool)
    returns (ok: bool)
    requires x != y && x.Length == y.Length && lim.threads >= 1
    requires Monotone(ctx) && Agree(x[..], ctx, hashBits) && hashBits >= ASORT_MIN_SHIFT
    modifies x, y
    ensures ok ==> multiset((if swap then y else x)[..]) == multiset(old(x[..]))
    ensures ok ==> Sorted((if swap then y else x)[..], ctx.key)
    ensures x.Length <= Quicksort.MAX_ELTS ==> ok
  {
    hide Completed, Advanced, Queued, Sound, Ready, Agree, Monotone, HasJob, SegmentDone;
    if x.Length == 0 {
      // No bucket has an element, so there is nothing to recurse on.
      return true;
    }
    ghost var st0 := StartState(x[..], y[..], ctx, hashBits);
    var jobs;
    ghost var st1;
    ok, jobs, st1 := RsRadix(x, y, 0, x.Length, ctx, lim, false, hashBits, swap, [], st0);
    if !ok {
      return;
    }
    ghost var jobs1 := jobs;
    ghost var st2;
    ok, jobs, st2 := RunJobs(x, y, ctx, jobs, swap, true, st1);
    if !ok {
      return;
    }
    AllDone(st0, st1, st2, ctx, jobs1, swap);
  }

  lemma StartState<T>(x: seq<T>, y: seq<T>, ctx: Context<T>, hashBits: nat) returns (st: State<T>)
    requires 0 < |x| == |y| && Agree(x, ctx, hashBits)
    ensures st.x == x && st.y == y && Sound(st, ctx) && Queued(st, ctx, []) && !HasJob([], 0)
    ensures Ready(st, ctx, 0, |x|, false, hashBits) && View(st) == x
  {
    st := State(x, y, seq(|x|, k => 0), seq(|x|, k => false));
    assert View(st) == x && x[0..|x|] == x;
  }

  /** Once the queue is drained, the output array is the sorted view. */
  lemma AllDone<T>(st0: State<T>, st1: State<T>, st2: State<T>, ctx: Context<T>, jobs: seq<Job>, out: bool)
    requires WellSized(st0) && Completed(st0, st1, ctx, [], jobs, out, 0, |st0.x|)
    requires Advanced(st1, st2, ctx, jobs, [], out) && Sound(st1, ctx) && Sound(st2, ctx)
    ensures multiset(if out then st2.y else st2.x) == multiset(View(st0))
    ensures Sorted(if out then st2.y else st2.x, ctx.key)
  {
    hide HasJob;
    forall k | 0 <= k < |st0.x| ensures SegmentDone(st2, ctx, out, st2.seg[k]) && st2.loc[k] == out {
      assert Handled(st1, ctx, jobs, out, k);
      NoJobs(st1.seg[k]);
      if !HasJob(jobs, st1.seg[k]) {
        AdvancedDone(st1, st2, ctx, jobs, [], out, st1.seg[k]);
      }
    }
    var v := if out then st2.y else st2.x;
    assert v == View(st2);
    forall i, j | 0 <= i < j < |v| ensures ctx.key(v[i]) <= ctx.key(v[j]) {
      if st2.seg[i] == st2.seg[j] {
        assert SegmentDone(st2, ctx, out, st2.seg[i]);
      }
    }
  }
}
