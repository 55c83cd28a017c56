/** The MSD radix sort of generic/sorter/array.c: counting passes that ping-pong between
    the array and its buffer, with quicksort for small buckets. */
module RadixSort {
  import opened Basics
  import opened Ordering
  import opened HashBits
  import opened Positions
  import Quicksort

  const ASORT_MIN_SHIFT := 2

  /** The sorting context: the key, a hash, and the two tuning parameters. */
  datatype Context<!T> = Context(key: T -> int, hash: T -> nat, radixBits: nat, radixThreshold: nat)

  /** hash(x) < hash(y) implies x < y. */
  ghost predicate Monotone<T(!new)>(ctx: Context<T>) {
    ctx.radixBits >= 1 && forall x, y :: ctx.hash(x) < ctx.hash(y) ==> ctx.key(x) < ctx.key(y)
  }

  /** All hashes agree on the bits from `bits` up. */
  ghost predicate Agree<T>(s: seq<T>, ctx: Context<T>, bits: nat) {
    forall i, j :: 0 <= i < |s| && 0 <= j < |s| ==> Shr(ctx.hash(s[i]), bits) == Shr(ctx.hash(s[j]), bits)
  }

  function Digits<T>(s: seq<T>, ctx: Context<T>, shift: nat): (ds: seq<nat>)
    ensures |ds| == |s|
    ensures forall i :: 0 <= i < |s| ==> ds[i] == Digit(ctx.hash(s[i]), shift, ctx.radixBits) < Pow2(ctx.radixBits)
  {
    seq<nat>(|s|, i requires 0 <= i < |s| => Digit(ctx.hash(s[i]), shift, ctx.radixBits))
  }

  /** How many elements fall into each bucket. */
  method RadixCount<T>(a: array<T>, lo: nat, hi: nat, ctx: Context<T>, shift: nat) returns (cnt: seq<nat>)
    requires lo <= hi <= a.Length
    ensures |cnt| == Pow2(ctx.radixBits)
    ensures var ds := Digits(a[lo..hi], ctx, shift);
      forall d :: 0 <= d < |cnt| ==> cnt[d] == CountEq(ds, |ds|, d)
  {
    ghost var ds := Digits(a[lo..hi], ctx, shift);
    cnt := seq(Pow2(ctx.radixBits), i => 0);
    var i := lo;
    while i < hi
      invariant lo <= i <= hi && |cnt| == Pow2(ctx.radixBits)
      invariant forall d :: 0 <= d < |cnt| ==> cnt[d] == CountEq(ds, i - lo, d)
    {
      var d := Digit(ctx.hash(a[i]), shift, ctx.radixBits);
      assert ds[i - lo] == d;
      cnt := cnt[d := cnt[d] + 1];
      i := i + 1;
    }
  }

  /** Counts become bucket starts. */
  method BucketStarts(cnt: seq<nat>, ghost ds: seq<nat>) returns (starts: seq<nat>, pos: nat)
    requires forall d :: 0 <= d < |cnt| ==> cnt[d] == CountEq(ds, |ds|, d)
    requires forall i :: 0 <= i < |ds| ==> ds[i] < |cnt|
    ensures |starts| == |cnt| && Counters(starts, ds, 0)
    ensures pos == |ds|
  {
    starts := cnt;
    pos := 0;
    var i := 0;
    LessAll(ds, |ds|, |cnt|);
    while i < |cnt|
      invariant 0 <= i <= |cnt| == |starts| && pos == Start(ds, i)
      invariant forall d :: 0 <= d < i ==> starts[d] == Start(ds, d)
      invariant forall d :: i <= d < |cnt| ==> starts[d] == cnt[d]
    {
      LessStep(ds, |ds|, i);
      var j := starts[i];
      starts := starts[i := pos];
      pos := pos + j;
      i := i + 1;
    }
  }

  /** Element `j` of `s` sits at its place in `t`. */
  ghost predicate Placed<T>(s: seq<T>, t: seq<T>, ds: seq<nat>, j: nat)
    requires |s| == |t| == |ds| && j < |ds|
  {
    Pos(ds, j) < |t| && t[Pos(ds, j)] == s[j]
  }

  /** One write of the scatter loop keeps what was written before. */
  lemma PlaceOne<T>(s: seq<T>, t: seq<T>, t': seq<T>, ds: seq<nat>, i: nat)
    requires |s| == |t| == |t'| == |ds| && i < |ds|
    requires Pos(ds, i) < |t| && t' == t[Pos(ds, i) := s[i]]
    ensures Placed(s, t', ds, i)
    ensures forall j :: 0 <= j < |ds| && Placed(s, t, ds, j) ==> Placed(s, t', ds, j)
  {
    forall j | 0 <= j < |ds| && Placed(s, t, ds, j) ensures Placed(s, t', ds, j) {
      if j < i {
        PosInjective(ds, j, i);
      } else if i < j {
        PosInjective(ds, i, j);
      }
    }
  }

  /** The counters of a scatter loop that has processed the first `i` elements. */
  ghost predicate Counters(cnt: seq<nat>, ds: seq<nat>, i: nat)
    requires i <= |ds|
  {
    forall d :: 0 <= d < |cnt| ==> cnt[d] == Start(ds, d) + CountEq(ds, i, d)
  }

  /** One turn of the scatter loop: `dest[ptrs[digit]++] = src[i]`. */
  method ScatterOne<T>(a: array<T>, b: array<T>, lo: nat, hi: nat, i: nat, cnt: seq<nat>, ctx: Context<T>, shift: nat)
    returns (cnt': seq<nat>)
    requires a != b && lo <= i < hi <= a.Length == b.Length && |cnt| == Pow2(ctx.radixBits)
    requires Counters(cnt, Digits(a[lo..hi], ctx, shift), i - lo)
    modifies b
    ensures var ds := Digits(a[lo..hi], ctx, shift);
      && |cnt'| == |cnt| && Counters(cnt', ds, i + 1 - lo)
      && Placed(a[lo..hi], b[lo..hi], ds, i - lo)
      && forall j :: 0 <= j < |ds| && Placed(a[lo..hi], old(b[lo..hi]), ds, j) ==> Placed(a[lo..hi], b[lo..hi], ds, j)
    ensures SameOutside(old(b[..]), b[..], lo, hi)
  {
    hide Start, CountEq, Placed;
    ghost var s, ds, t := a[lo..hi], Digits(a[lo..hi], ctx, shift), b[lo..hi];
    var d := Digit(ctx.hash(a[i]), shift, ctx.radixBits);
    assert ds[i - lo] == d && s[i - lo] == a[i];
    PosInBucket(ds, i - lo);
    b[lo + cnt[d]] := a[i];
    assert b[lo..hi] == t[cnt[d] := a[i]];
    PlaceOne(s, t, b[lo..hi], ds, i - lo);
    cnt' := cnt[d := cnt[d] + 1];
    assert i + 1 - lo == (i - lo) + 1;
    forall e | 0 <= e < |cnt'| ensures cnt'[e] == Start(ds, e) + CountEq(ds, i + 1 - lo, e) {
      CountNext(ds, i - lo, e);
    }
  }

  /** The sequential scatter. */
  method RadixSplit<T>(a: array<T>, b: array<T>, lo: nat, hi: nat, ptrs: seq<nat>, ctx: Context<T>, shift: nat)
    returns (cnt: seq<nat>)
    requires a != b && lo <= hi <= a.Length == b.Length && |ptrs| == Pow2(ctx.radixBits)
    requires Counters(ptrs, Digits(a[lo..hi], ctx, shift), 0)
    modifies b
    ensures |cnt| == |ptrs| && Counters(cnt, Digits(a[lo..hi], ctx, shift), hi - lo)
    ensures Scattered(a[lo..hi], b[lo..hi], Digits(a[lo..hi], ctx, shift))
    ensures SameOutside(old(b[..]), b[..], lo, hi)
  {
    hide Counters, Placed;
    ghost var s, ds := a[lo..hi], Digits(a[lo..hi], ctx, shift);
    cnt := ptrs;
    var i := lo;
    while i < hi
      invariant lo <= i <= hi && |cnt| == |ptrs| && Counters(cnt, ds, i - lo)
      invariant forall j :: 0 <= j < i - lo ==> Placed(s, b[lo..hi], ds, j)
      invariant SameOutside(old(b[..]), b[..], lo, hi)
    {
      cnt := ScatterOne(a, b, lo, hi, i, cnt, ctx, shift);
      i := i + 1;
    }
  }

  /** Every element of `s` sits at its place in `t`. */
  ghost predicate Scattered<T>(s: seq<T>, t: seq<T>, ds: seq<nat>)
    requires |s| == |t| == |ds|
  {
    forall j :: 0 <= j < |ds| ==> Placed(s, t, ds, j)
  }

  function DigitOf<T>(e: T, ctx: Context<T>, shift: nat): (d: nat)
    ensures d < Pow2(ctx.radixBits)
  {
    Digit(ctx.hash(e), shift, ctx.radixBits)
  }

  /** Every element of `t` lies in the bucket of its own digit. */
  ghost predicate Bucketed<T>(t: seq<T>, ds: seq<nat>, ctx: Context<T>, shift: nat) {
    && |ds| == |t|
    && (forall i :: 0 <= i < |ds| ==> ds[i] < Pow2(ctx.radixBits))
    && forall x :: 0 <= x < |t| ==> Start(ds, DigitOf(t[x], ctx, shift)) <= x < Start(ds, DigitOf(t[x], ctx, shift) + 1)
  }

  /** A scattered sequence is a permutation in which every element lies in its bucket. */
  lemma ScatteredBuckets<T>(s: seq<T>, t: seq<T>, ctx: Context<T>, shift: nat)
    requires |s| == |t| && Scattered(s, t, Digits(s, ctx, shift))
    ensures multiset(s) == multiset(t)
    ensures Bucketed(t, Digits(s, ctx, shift), ctx, shift)
  {
    hide Start, CountEq;
    var ds := Digits(s, ctx, shift);
    var p := seq(|ds|, i requires 0 <= i < |ds| => Pos(ds, i));
    forall i | 0 <= i < |p| ensures p[i] < |p| && t[p[i]] == s[i] {
      PosInBucket(ds, i);
      assert Placed(s, t, ds, i);
    }
    forall i, j | 0 <= i < j < |p| ensures p[i] != p[j] {
      PosInjective(ds, i, j);
    }
    ScatterPerm(s, t, p);
    StartEnds(ds, Pow2(ctx.radixBits));
    forall x | 0 <= x < |t|
      ensures Start(ds, DigitOf(t[x], ctx, shift)) <= x < Start(ds, DigitOf(t[x], ctx, shift) + 1)
    {
      var d := BucketAt(ds, Pow2(ctx.radixBits), x);
      var i := Origin(ds, d, x);
      assert Placed(s, t, ds, i);
    }
  }

  lemma StartEnds(ds: seq<nat>, b: nat)
    requires forall i :: 0 <= i < |ds| ==> ds[i] < b
    ensures Start(ds, 0) == 0 && Start(ds, b) == |ds|
  {
    LessAll(ds, |ds|, b);
  }

  lemma StartMono(ds: seq<nat>, d: nat, e: nat)
    requires d <= e
    ensures Start(ds, d) <= Start(ds, e) <= |ds|
  {
    LessMono(ds, |ds|, d, e);
    LessBound(ds, |ds|, e);
  }

  /** No key before `p` exceeds a key from `p` on. */
  ghost predicate SplitAt<T>(t: seq<T>, p: nat, key: T -> int) {
    forall x, y :: 0 <= x < p <= y < |t| ==> key(t[x]) <= key(t[y])
  }

  /** The elements of bucket `d` agree one digit further down, and no key before the
      bucket exceeds a key from its start on. */
  lemma BucketFacts<T(!new)>(t: seq<T>, ds: seq<nat>, ctx: Context<T>, top: nat, shift: nat, d: nat)
    requires Monotone(ctx) && Bucketed(t, ds, ctx, shift) && Agree(t, ctx, top)
    requires top <= shift + ctx.radixBits
    ensures Start(ds, d) <= Start(ds, d + 1) <= |t|
    ensures Agree(t[Start(ds, d)..Start(ds, d + 1)], ctx, shift)
    ensures SplitAt(t, Start(ds, d), ctx.key)
  {
    hide Start, Digit, Shr;
    StartMono(ds, d, d + 1);
    forall x | 0 <= x < |t|
      ensures x < Start(ds, d) <==> DigitOf(t[x], ctx, shift) < d
      ensures x < Start(ds, d + 1) <==> DigitOf(t[x], ctx, shift) <= d
    {
      var e := DigitOf(t[x], ctx, shift);
      if e < d { StartMono(ds, e + 1, d); } else { StartMono(ds, d, e); }
      if e <= d { StartMono(ds, e + 1, d + 1); } else { StartMono(ds, d + 1, e); }
    }
    forall x, y | 0 <= x < |t| && 0 <= y < |t| && DigitOf(t[x], ctx, shift) < DigitOf(t[y], ctx, shift)
      ensures ctx.key(t[x]) <= ctx.key(t[y])
    {
      DigitOrder(ctx.hash(t[x]), ctx.hash(t[y]), top, shift, ctx.radixBits);
    }
    var u := t[Start(ds, d)..Start(ds, d + 1)];
    forall i, j | 0 <= i < |u| && 0 <= j < |u| ensures Shr(ctx.hash(u[i]), shift) == Shr(ctx.hash(u[j]), shift) {
      var x, y := Start(ds, d) + i, Start(ds, d) + j;
      assert u[i] == t[x] && u[j] == t[y];
      DigitOrder(ctx.hash(t[x]), ctx.hash(t[y]), top, shift, ctx.radixBits);
    }
  }

  lemma AgreePerm<T>(s: seq<T>, t: seq<T>, ctx: Context<T>, bits: nat)
    requires Agree(s, ctx, bits) && multiset(s) == multiset(t)
    ensures Agree(t, ctx, bits)
  {
    forall i, j | 0 <= i < |t| && 0 <= j < |t| ensures Shr(ctx.hash(t[i]), bits) == Shr(ctx.hash(t[j]), bits) {
      assert t[i] in multiset(t) && t[j] in multiset(t);
      assert t[i] in s && t[j] in s;
    }
  }

  /** A sorted prefix and a sorted block after it, taken from ordered parts of `t`. */
  lemma JoinSorted<T>(u: seq<T>, t: seq<T>, p: nat, q: nat, key: T -> int)
    requires p <= q <= |t| == |u|
    requires SortedIn(u, 0, p, key) && SortedIn(u, p, q, key)
    requires multiset(u[..p]) == multiset(t[..p]) && multiset(u[p..q]) == multiset(t[p..q])
    requires SplitAt(t, p, key)
    ensures SortedIn(u, 0, q, key) && multiset(u[..q]) == multiset(t[..q])
  {
    forall i, j | 0 <= i < p <= j < q ensures key(u[i]) <= key(u[j]) {
      assert u[..p][i] in multiset(u[..p]);
      assert u[p..q][j - p] in multiset(u[p..q]);
      assert u[i] in t[..p] && u[j] in t[p..q];
    }
    assert u[..q] == u[..p] + u[p..q] && t[..q] == t[..p] + t[p..q];
  }

  lemma StartNext(ds: seq<nat>, d: nat)
    ensures Start(ds, d + 1) == Start(ds, d) + CountEq(ds, |ds|, d)
  {
    LessStep(ds, |ds|, d);
  }

  lemma CountNext(ds: seq<nat>, i: nat, d: nat)
    requires i < |ds|
    ensures CountEq(ds, i + 1, d) == CountEq(ds, i, d) + (if ds[i] == d then 1 else 0)
  {
  }

  ghost predicate SameOutside<T>(s: seq<T>, t: seq<T>, lo: nat, hi: nat) {
    lo <= hi <= |s| == |t| && forall k :: 0 <= k < lo || hi <= k < |s| ==> s[k] == t[k]
  }

  /** `t[lo..hi)` is a sorted permutation of `s[lo..hi)`. */
  ghost predicate SortedFrom<T>(t: seq<T>, s: seq<T>, lo: nat, hi: nat, key: T -> int) {
    lo <= hi <= |s| == |t| && multiset(t[lo..hi]) == multiset(s[lo..hi]) && SortedIn(t, lo, hi, key)
  }

  /** Sorts bucket `[p, q)` of `b`, leaving the result in `b` if `swapped`, else in `a`. It fails
      only if quicksort does. */
  method SortBucket<T(!new)>(a: array<T>, b: array<T>, p: nat, q: nat, ctx: Context<T>, shift: nat, swapped: bool)
    returns (ok: bool)
    requires a != b && p <= q <= a.Length == b.Length
    requires Monotone(ctx) && Agree(b[p..q], ctx, shift)
    modifies a, b
    ensures SameOutside(old(a[..]), a[..], p, q) && SameOutside(old(b[..]), b[..], p, q)
    ensures ok ==> SortedFrom(if swapped then b[..] else a[..], old(b[..]), p, q, ctx.key)
    ensures q - p <= Quicksort.MAX_ELTS ==> ok
    decreases shift, 1
  {
    if q - p < ctx.radixThreshold || shift < ASORT_MIN_SHIFT {
      ghost var s := b[..];
      ok := Quicksort.Sort(b, p, q, ctx.key);
      PermInside(s, b[..], p, q);
      if ok && !swapped {
        Copy(b, a, p, q);
        SortedCopy(b[..], a[..], p, q, ctx.key);
      }
    } else {
      ok := AsortRadix(b, a, p, q, ctx, shift, !swapped);
    }
  }

  lemma SortedCopy<T>(s: seq<T>, t: seq<T>, p: nat, q: nat, key: T -> int)
    requires p <= q <= |s| == |t| && s[p..q] == t[p..q] && SortedIn(s, p, q, key)
    ensures SortedIn(t, p, q, key)
  {
    forall k | p <= k < q ensures t[k] == s[k] {
      assert t[k] == t[p..q][k - p] && s[k] == s[p..q][k - p];
    }
  }

  /** memcpy(dest + p, src + p, q - p) */
  method Copy<T>(src: array<T>, dest: array<T>, p: nat, q: nat)
    requires src != dest && p <= q <= src.Length == dest.Length
    modifies dest
    ensures dest[p..q] == src[p..q]
    ensures SameOutside(old(dest[..]), dest[..], p, q)
  {
    var i := p;
    while i < q
      invariant p <= i <= q
      invariant forall k :: p <= k < i ==> dest[k] == src[k]
      invariant forall k :: 0 <= k < p || q <= k < dest.Length ==> dest[k] == old(dest[k])
    {
      dest[i] := src[i];
      i := i + 1;
    }
  }

  /** What the bucket loop has achieved after `pos` elements. */
  ghost predicate PrefixDone<T>(u: seq<T>, t: seq<T>, pos: nat, key: T -> int)
    requires pos <= |u| == |t|
  {
    SortedIn(u, 0, pos, key) && multiset(u[..pos]) == multiset(t[..pos])
  }

  lemma PrefixNone<T>(u: seq<T>, t: seq<T>, key: T -> int)
    requires |u| == |t|
    ensures PrefixDone(u, t, 0, key)
  {
    assert u[..0] == t[..0];
  }

  lemma SliceSlice<T>(s: seq<T>, lo: nat, hi: nat, p: nat, q: nat)
    requires lo <= hi <= |s| && p <= q <= hi - lo
    ensures s[lo..hi][p..q] == s[lo + p..lo + q]
  {
    var u, v := s[lo..hi][p..q], s[lo + p..lo + q];
    forall k | 0 <= k < q - p ensures u[k] == v[k] {
      assert u[k] == s[lo..hi][p + k];
    }
  }

  /** A bucket sorted on its own extends the sorted prefix. */
  lemma ExtendPrefix<T>(v: seq<T>, w: seq<T>, s: seq<T>, t: seq<T>, lo: nat, hi: nat, p: nat, q: nat, key: T -> int)
    requires lo <= hi <= |v| == |w| && |t| == hi - lo && p <= q <= hi - lo
    requires PrefixDone(v[lo..hi], t, p, key) && SameOutside(v, w, lo + p, lo + q)
    requires SortedFrom(w, s, lo + p, lo + q, key) && s[lo + p..lo + q] == t[p..q]
    requires SplitAt(t, p, key)
    ensures PrefixDone(w[lo..hi], t, q, key)
  {
    var u := w[lo..hi];
    forall i | 0 <= i < p ensures u[i] == v[lo..hi][i] {
      assert w[lo + i] == v[lo + i];
    }
    assert u[..p] == v[lo..hi][..p];
    SliceSlice(w, lo, hi, p, q);
    JoinSorted(u, t, p, q, key);
  }

  /** The loop over the buckets of a scattered range. */
  method SortBuckets<T(!new)>(a: array<T>, b: array<T>, lo: nat, hi: nat, cnt: seq<nat>, ctx: Context<T>,
                              ghost hashBits: nat, shift: nat, swapped: bool, ghost ds: seq<nat>)
    returns (ok: bool)
    requires a != b && lo <= hi <= a.Length == b.Length
    requires Monotone(ctx) && Agree(b[lo..hi], ctx, hashBits) && hashBits <= shift + ctx.radixBits
    requires Bucketed(b[lo..hi], ds, ctx, shift)
    requires |cnt| == Pow2(ctx.radixBits) && Counters(cnt, ds, |ds|)
    modifies a, b
    ensures SameOutside(old(a[..]), a[..], lo, hi) && SameOutside(old(b[..]), b[..], lo, hi)
    ensures ok ==> SortedFrom(if swapped then b[..] else a[..], old(b[..]), lo, hi, ctx.key)
    ensures hi - lo <= Quicksort.MAX_ELTS ==> ok
    decreases shift, 2
  {
    hide *;
    ghost var a0, b0 := a[..], b[..];
    var pos, i := 0, 0;
    BucketEnds(b[lo..hi], ds, ctx, shift);
    StageStart(a0, b0, lo, hi, swapped, ctx.key);
    while i < |cnt|
      invariant 0 <= i <= |cnt| && pos == Start(ds, i) <= hi - lo
      invariant Stage(a0, b0, a[..], b[..], lo, hi, pos, swapped, ctx.key)
    {
      BucketFacts(b0[lo..hi], ds, ctx, hashBits, shift, i);
      CounterAt(cnt, ds, i);
      var q := cnt[i];
      ghost var a1, b1 := a[..], b[..];
      StageBucket(a0, b0, a1, b1, lo, hi, pos, q, swapped, ctx.key);
      ok := SortBucket(a, b, lo + pos, lo + q, ctx, shift, swapped);
      if !ok {
        StageFailed(a0, b0, a1, b1, a[..], b[..], lo, hi, pos, q, swapped, ctx.key);
        return;
      }
      StageStep(a0, b0, a1, b1, a[..], b[..], lo, hi, pos, q, swapped, ctx.key);
      pos := q;
      i := i + 1;
    }
    StageEnd(a0, b0, a[..], b[..], lo, hi, swapped, ctx.key);
    ok := true;
  }

  /** The bucket loop after `pos` elements: from `(a0, b0)` to `(a1, b1)`. */
  ghost predicate Stage<T>(a0: seq<T>, b0: seq<T>, a1: seq<T>, b1: seq<T>, lo: nat, hi: nat, pos: nat,
                           swapped: bool, key: T -> int) {
    && lo <= hi <= |a0| == |b0| == |a1| == |b1| && pos <= hi - lo
    && SameOutside(a0, a1, lo, lo + pos) && SameOutside(b0, b1, lo, lo + pos)
    && PrefixDone(if swapped then b1[lo..hi] else a1[lo..hi], b0[lo..hi], pos, key)
  }

  lemma StageStart<T>(a0: seq<T>, b0: seq<T>, lo: nat, hi: nat, swapped: bool, key: T -> int)
    requires lo <= hi <= |a0| == |b0|
    ensures Stage(a0, b0, a0, b0, lo, hi, 0, swapped, key)
  {
    PrefixNone(if swapped then b0[lo..hi] else a0[lo..hi], b0[lo..hi], key);
  }

  lemma StageBucket<T>(a0: seq<T>, b0: seq<T>, a1: seq<T>, b1: seq<T>, lo: nat, hi: nat, p: nat, q: nat,
                       swapped: bool, key: T -> int)
    requires Stage(a0, b0, a1, b1, lo, hi, p, swapped, key) && p <= q <= hi - lo
    ensures b1[lo + p..lo + q] == b0[lo..hi][p..q]
  {
    Untouched(b0[lo..hi], b1, b0, lo, hi, p, q);
  }

  lemma StageStep<T>(a0: seq<T>, b0: seq<T>, a1: seq<T>, b1: seq<T>, a2: seq<T>, b2: seq<T>,
                     lo: nat, hi: nat, p: nat, q: nat, swapped: bool, key: T -> int)
    requires Stage(a0, b0, a1, b1, lo, hi, p, swapped, key) && p <= q <= hi - lo
    requires SameOutside(a1, a2, lo + p, lo + q) && SameOutside(b1, b2, lo + p, lo + q)
    requires SortedFrom(if swapped then b2 else a2, b1, lo + p, lo + q, key)
    requires SplitAt(b0[lo..hi], p, key)
    ensures Stage(a0, b0, a2, b2, lo, hi, q, swapped, key)
  {
    hide SameOutside, PrefixDone, SortedFrom, SplitAt;
    OutsideJoin(a0, a1, a2, lo, lo + p, lo + q);
    OutsideJoin(b0, b1, b2, lo, lo + p, lo + q);
    StageBucket(a0, b0, a1, b1, lo, hi, p, q, swapped, key);
    ExtendPrefix(if swapped then b1 else a1, if swapped then b2 else a2, b1, b0[lo..hi], lo, hi, p, q, key);
  }

  /** A bucket that could not be sorted has still not touched anything else. */
  lemma StageFailed<T>(a0: seq<T>, b0: seq<T>, a1: seq<T>, b1: seq<T>, a2: seq<T>, b2: seq<T>,
                       lo: nat, hi: nat, p: nat, q: nat, swapped: bool, key: T -> int)
    requires Stage(a0, b0, a1, b1, lo, hi, p, swapped, key) && p <= q <= hi - lo
    requires SameOutside(a1, a2, lo + p, lo + q) && SameOutside(b1, b2, lo + p, lo + q)
    ensures SameOutside(a0, a2, lo, hi) && SameOutside(b0, b2, lo, hi)
  {
  }

  lemma StageEnd<T>(a0: seq<T>, b0: seq<T>, a1: seq<T>, b1: seq<T>, lo: nat, hi: nat, swapped: bool, key: T -> int)
    requires lo <= hi && Stage(a0, b0, a1, b1, lo, hi, hi - lo, swapped, key)
    ensures SameOutside(a0, a1, lo, hi) && SameOutside(b0, b1, lo, hi)
    ensures SortedFrom(if swapped then b1 else a1, b0, lo, hi, key)
  {
    DoneAll(if swapped then b1 else a1, b0, lo, hi, key);
  }

  lemma Untouched<T>(t: seq<T>, s: seq<T>, s0: seq<T>, lo: nat, hi: nat, p: nat, q: nat)
    requires lo <= hi <= |s0| && t == s0[lo..hi] && p <= q <= hi - lo && SameOutside(s0, s, lo, lo + p)
    ensures s[lo + p..lo + q] == t[p..q]
  {
    forall k | lo + p <= k < lo + q ensures s[k] == t[k - lo] {
    }
  }

  lemma DoneAll<T>(s: seq<T>, s0: seq<T>, lo: nat, hi: nat, key: T -> int)
    requires lo <= hi <= |s| == |s0| && PrefixDone(s[lo..hi], s0[lo..hi], hi - lo, key)
    ensures SortedFrom(s, s0, lo, hi, key)
  {
    assert s[lo..hi][..hi - lo] == s[lo..hi] && s0[lo..hi][..hi - lo] == s0[lo..hi];
    forall i, j | lo <= i < j < hi ensures key(s[i]) <= key(s[j]) {
      assert s[i] == s[lo..hi][i - lo] && s[j] == s[lo..hi][j - lo];
    }
  }

  lemma BucketEnds<T>(t: seq<T>, ds: seq<nat>, ctx: Context<T>, shift: nat)
    requires Bucketed(t, ds, ctx, shift)
    ensures Start(ds, 0) == 0 && Start(ds, Pow2(ctx.radixBits)) == |t| == |ds|
  {
    StartEnds(ds, Pow2(ctx.radixBits));
  }

  lemma OutsideSame<T>(s: seq<T>, t: seq<T>, u: seq<T>, lo: nat, hi: nat)
    requires SameOutside(s, t, lo, hi) && SameOutside(t, u, lo, hi)
    ensures SameOutside(s, u, lo, hi)
  {
  }

  lemma SortedFromPerm<T>(t: seq<T>, s: seq<T>, s': seq<T>, lo: nat, hi: nat, key: T -> int)
    requires SortedFrom(t, s, lo, hi, key) && |s'| == |s| && multiset(s[lo..hi]) == multiset(s'[lo..hi])
    ensures SortedFrom(t, s', lo, hi, key)
  {
  }

  lemma OutsideJoin<T>(s: seq<T>, t: seq<T>, u: seq<T>, lo: nat, p: nat, q: nat)
    requires SameOutside(s, t, lo, p) && SameOutside(t, u, p, q)
    ensures SameOutside(s, u, lo, q)
  {
  }

  lemma CounterAt(cnt: seq<nat>, ds: seq<nat>, d: nat)
    requires Counters(cnt, ds, |ds|) && d < |cnt|
    ensures cnt[d] == Start(ds, d + 1)
  {
    StartNext(ds, d);
  }

  /** The radix sort of `a[lo..hi)`: a sorted permutation ends up in `b` if `swapped`, else in `a`. */
  method AsortRadix<T(!new)>(a: array<T>, b: array<T>, lo: nat, hi: nat, ctx: Context<T>, hashBits: nat, swapped: bool)
    returns (ok: bool)
    requires a != b && lo <= hi <= a.Length == b.Length
    requires Monotone(ctx) && Agree(a[lo..hi], ctx, hashBits) && hashBits >= ASORT_MIN_SHIFT
    modifies a, b
    ensures SameOutside(old(a[..]), a[..], lo, hi) && SameOutside(old(b[..]), b[..], lo, hi)
    ensures ok ==> SortedFrom(if swapped then b[..] else a[..], old(a[..]), lo, hi, ctx.key)
    ensures hi - lo <= Quicksort.MAX_ELTS ==> ok
    decreases hashBits, 0
  {
    hide Agree, Bucketed, Scattered, Counters, SameOutside, SortedFrom, CountEq, Digits;
    var shift := if hashBits > ctx.radixBits then hashBits - ctx.radixBits else 0;
    ghost var s, ds, b0 := a[lo..hi], Digits(a[lo..hi], ctx, shift), b[..];
    var cnt := RadixCount(a, lo, hi, ctx, shift);
    var total;
    cnt, total := BucketStarts(cnt, ds);
    assert total == hi - lo;
    cnt := RadixSplit(a, b, lo, hi, cnt, ctx, shift);
    ghost var b1 := b[..];
    ScatteredBuckets(s, b[lo..hi], ctx, shift);
    AgreePerm(s, b[lo..hi], ctx, hashBits);
    ok := SortBuckets(a, b, lo, hi, cnt, ctx, hashBits, shift, swapped, ds);
    OutsideSame(b0, b1, b[..], lo, hi);
    if !ok {
      return;
    }
    SortedFromPerm(if swapped then b[..] else a[..], b1, old(a[..]), lo, hi, ctx.key);
  }
}
