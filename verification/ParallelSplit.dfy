/** Parallel counting and scattering in generic/sorter/array.c (rs_radix): every worker has a
    block of the source and its own counters, and the workers interleave in any way. */
module ParallelSplit {
  import opened Basics
  import opened Positions
  import opened RadixSort

  /** A worker: its block `[lo, hi)`, the next element to move, and its counters. */
  datatype Worker = Worker(lo: nat, hi: nat, next: nat, cnt: seq<nat>)

  /** The blocks follow each other and cover `[lo, hi)`. */
  ghost predicate Cover(ws: seq<Worker>, lo: nat, hi: nat) {
    && |ws| >= 1 && ws[0].lo == lo && ws[|ws| - 1].hi == hi
    && (forall i :: 0 <= i < |ws| ==> lo <= ws[i].lo <= ws[i].next <= ws[i].hi <= hi)
    && (forall i, j :: 0 <= i < |ws| && j == i + 1 && j < |ws| ==> ws[i].hi == ws[j].lo)
  }

  ghost function Times(k: nat, b: nat): nat {
    if k == 0 then 0 else Times(k - 1, b) + b
  }

  lemma {:induction false} TimesIs(k: nat, b: nat)
    ensures Times(k, b) == k * b
  {
    if k > 0 {
      TimesIs(k - 1, b);
    }
  }

  lemma {:induction false} TimesMono(j: nat, k: nat, b: nat)
    requires j <= k
    ensures Times(j, b) <= Times(k, b)
    decreases k
  {
    if j < k {
      TimesMono(j, k - 1, b);
    }
  }

  lemma BlocksFit(n: nat, threads: nat)
    requires threads >= 1
    ensures Times(threads, n / threads) + n % threads == n
  {
    TimesIs(threads, n / threads);
    assert n == threads * (n / threads) + n % threads;
  }

  /** The block size and the remainder that the last block gets. */
  method BlockSize(n: nat, threads: nat) returns (blksize: nat, rest: nat)
    requires threads >= 1
    ensures Times(threads, blksize) + rest == n
  {
    BlocksFit(n, threads);
    blksize, rest := n / threads, n % threads;
  }

  lemma InCover(ws: seq<Worker>, lo: nat, hi: nat, i: nat)
    requires Cover(ws, lo, hi) && i < |ws|
    ensures lo <= ws[i].lo <= ws[i].next <= ws[i].hi <= hi
    ensures i == 0 ==> ws[i].lo == lo
    ensures i > 0 ==> ws[i].lo == ws[i - 1].hi
    ensures ws[|ws| - 1].hi == hi
  {
  }

  lemma CoverExtend(ws: seq<Worker>, lo: nat, mid: nat, hi: nat, w: Worker)
    requires if ws == [] then mid == lo else Cover(ws, lo, mid)
    requires w.lo == mid <= w.next <= w.hi == hi
    ensures Cover(ws + [w], lo, hi)
  {
  }

  /** Equal blocks; the last worker takes the remainder. */
  method Blocks(lo: nat, hi: nat, threads: nat) returns (ws: seq<Worker>)
    requires lo <= hi && threads >= 1
    ensures |ws| == threads && Cover(ws, lo, hi)
    ensures forall i :: 0 <= i < |ws| ==> ws[i].next == ws[i].lo
  {
    hide Cover;
    var blksize, rest := BlockSize(hi - lo, threads);
    ws := [];
    var i, iptr := 0, lo;
    while i < threads
      invariant 0 <= i <= threads == |ws| - i + threads
      invariant i < threads ==> iptr == lo + Times(i, blksize)
      invariant i == threads ==> iptr == hi
      invariant if ws == [] then iptr == lo else Cover(ws, lo, iptr)
      invariant forall w :: 0 <= w < |ws| ==> ws[w].next == ws[w].lo
    {
      TimesMono(i + 1, threads, blksize);
      var numElts := blksize;
      if i == threads - 1 {
        numElts := numElts + rest;
      }
      CoverExtend(ws, lo, iptr, iptr + numElts, Worker(iptr, iptr + numElts, iptr, []));
      ws := ws + [Worker(iptr, iptr + numElts, iptr, [])];
      iptr := iptr + numElts;
      i := i + 1;
    }
  }

  /** Counting a slice is counting up to its end minus counting up to its start. */
  lemma {:induction false} CountSlice(ds: seq<nat>, u: nat, v: nat, d: nat)
    requires u <= v <= |ds|
    ensures CountEq(ds[u..v], v - u, d) == CountEq(ds, v, d) - CountEq(ds, u, d)
  {
    if u < v {
      CountSlice(ds, u, v - 1, d);
      CountPrefix(ds[u..v], ds[u..v - 1], v - 1 - u, d);
    }
  }

  lemma {:induction false} CountPrefix(ds: seq<nat>, es: seq<nat>, n: nat, d: nat)
    requires n <= |ds| && n <= |es| && forall i :: 0 <= i < n ==> ds[i] == es[i]
    ensures CountEq(ds, n, d) == CountEq(es, n, d)
  {
    if n > 0 {
      CountPrefix(ds, es, n - 1, d);
    }
  }

  /** How often digit `d` occurs in the block of a worker. */
  ghost function InBlock(ds: seq<nat>, lo: nat, w: Worker, d: nat): int
    requires lo <= w.lo <= w.hi <= lo + |ds|
  {
    CountEq(ds, w.hi - lo, d) - CountEq(ds, w.lo - lo, d)
  }

  ghost predicate BlockCount(w: Worker, ds: seq<nat>, lo: nat)
    requires lo <= w.lo <= w.hi <= lo + |ds|
  {
    forall d :: 0 <= d < |w.cnt| ==> w.cnt[d] == InBlock(ds, lo, w, d)
  }

  lemma DigitsSlice<T>(s: seq<T>, ctx: Context<T>, shift: nat, u: nat, v: nat)
    requires u <= v <= |s|
    ensures Digits(s[u..v], ctx, shift) == Digits(s, ctx, shift)[u..v]
  {
  }

  /** rs_count: a worker counts the digits of its block. */
  method CountBlock<T>(a: array<T>, lo: nat, hi: nat, w: Worker, ctx: Context<T>, shift: nat) returns (w': Worker)
    requires lo <= w.lo <= w.hi <= hi <= a.Length
    ensures w' == w.(cnt := w'.cnt) && |w'.cnt| == Pow2(ctx.radixBits)
    ensures BlockCount(w', Digits(a[lo..hi], ctx, shift), lo)
  {
    hide CountEq, Digits;
    var cnt := RadixCount(a, w.lo, w.hi, ctx, shift);
    ghost var ds := Digits(a[lo..hi], ctx, shift);
    SliceSlice(a[..], lo, hi, w.lo - lo, w.hi - lo);
    assert a[..][lo..hi] == a[lo..hi] && a[..][w.lo..w.hi] == a[w.lo..w.hi];
    DigitsSlice(a[lo..hi], ctx, shift, w.lo - lo, w.hi - lo);
    forall d | 0 <= d < |cnt| ensures cnt[d] == InBlock(ds, lo, w, d) {
      CountSlice(ds, w.lo - lo, w.hi - lo, d);
    }
    w' := w.(cnt := cnt);
  }

  /** The part of digit `d`'s count that the first `k` workers have reported. */
  ghost function Reported(ws: seq<Worker>, pending: set<nat>, ds: seq<nat>, lo: nat, k: nat, d: nat): int
    requires k <= |ws| && Cover(ws, lo, lo + |ds|)
  {
    if k == 0 then 0
    else Reported(ws, pending, ds, lo, k - 1, d) + (if k - 1 in pending then 0 else InBlock(ds, lo, ws[k - 1], d))
  }

  /** Two workers lists with the same blocks. */
  ghost predicate SameBlocks(ws: seq<Worker>, ws': seq<Worker>) {
    |ws| == |ws'| && forall j :: 0 <= j < |ws| ==> ws[j] == ws'[j].(cnt := ws[j].cnt)
  }

  lemma {:induction false} ReportOne(ws: seq<Worker>, ws': seq<Worker>, pending: set<nat>, ds: seq<nat>,
                                     lo: nat, k: nat, d: nat, i: nat)
    requires i < |ws| && k <= |ws| && i in pending && SameBlocks(ws, ws')
    requires Cover(ws, lo, lo + |ds|) && Cover(ws', lo, lo + |ds|)
    ensures Reported(ws', pending - {i}, ds, lo, k, d)
         == Reported(ws, pending, ds, lo, k, d) + (if i < k then InBlock(ds, lo, ws[i], d) else 0)
  {
    hide CountEq;
    if k > 0 {
      ReportOne(ws, ws', pending, ds, lo, k - 1, d, i);
    }
  }

  lemma {:induction false} ReportedNone(ws: seq<Worker>, pending: set<nat>, ds: seq<nat>, lo: nat, k: nat, d: nat)
    requires k <= |ws| && Cover(ws, lo, lo + |ds|) && forall j :: 0 <= j < k ==> j in pending
    ensures Reported(ws, pending, ds, lo, k, d) == 0
  {
    if k > 0 {
      ReportedNone(ws, pending, ds, lo, k - 1, d);
    }
  }

  /** When all have reported, the counts telescope to the whole range. */
  lemma {:induction false} ReportedAll(ws: seq<Worker>, ds: seq<nat>, lo: nat, k: nat, d: nat)
    requires 1 <= k <= |ws| && Cover(ws, lo, lo + |ds|)
    ensures Reported(ws, {}, ds, lo, k, d) == CountEq(ds, ws[k - 1].hi - lo, d)
  {
    if k > 1 {
      ReportedAll(ws, ds, lo, k - 1, d);
      assert ws[k - 2].hi == ws[k - 1].lo;
    } else {
      assert Reported(ws, {}, ds, lo, 0, d) == 0;
    }
  }

  function Indices(n: nat): (r: set<nat>)
    ensures forall i: nat :: i in r <==> i < n
  {
    if n == 0 then {} else Indices(n - 1) + {n - 1}
  }

  method AddCounters(cnt0: seq<nat>, more: seq<nat>) returns (cnt: seq<nat>)
    requires |cnt0| == |more|
    ensures |cnt| == |cnt0| && forall d :: 0 <= d < |cnt| ==> cnt[d] == cnt0[d] + more[d]
  {
    cnt := cnt0;
    var j := 0;
    while j < |cnt|
      invariant 0 <= j <= |cnt| == |cnt0|
      invariant forall d :: 0 <= d < |cnt| ==> cnt[d] == cnt0[d] + (if d < j then more[d] else 0)
    {
      cnt := cnt[j := cnt[j] + more[j]];
      j := j + 1;
    }
  }

  /** The workers whose index is not pending have counted their blocks. */
  ghost predicate Counted(ws: seq<Worker>, pending: set<nat>, ds: seq<nat>, lo: nat, b: nat) {
    && Cover(ws, lo, lo + |ds|)
    && forall i :: 0 <= i < |ws| && i !in pending ==> |ws[i].cnt| == b && BlockCount(ws[i], ds, lo)
  }

  ghost predicate Totals(cnt: seq<nat>, ws: seq<Worker>, pending: set<nat>, ds: seq<nat>, lo: nat)
    requires Cover(ws, lo, lo + |ds|)
  {
    forall d :: 0 <= d < |cnt| ==> cnt[d] == Reported(ws, pending, ds, lo, |ws|, d)
  }

  lemma TotalsStep(cnt: seq<nat>, cnt': seq<nat>, ws: seq<Worker>, w: Worker, pending: set<nat>, i: nat,
                   ds: seq<nat>, lo: nat)
    requires i < |ws| && i in pending && Cover(ws, lo, lo + |ds|) && Totals(cnt, ws, pending, ds, lo)
    requires w == ws[i].(cnt := w.cnt) && |w.cnt| == |cnt| == |cnt'| && BlockCount(w, ds, lo)
    requires forall d :: 0 <= d < |cnt| ==> cnt'[d] == cnt[d] + w.cnt[d]
    ensures Cover(ws[i := w], lo, lo + |ds|) && Totals(cnt', ws[i := w], pending - {i}, ds, lo)
  {
    hide InBlock, Reported;
    forall d | 0 <= d < |cnt| ensures cnt'[d] == Reported(ws[i := w], pending - {i}, ds, lo, |ws|, d) {
      ReportOne(ws, ws[i := w], pending, ds, lo, |ws|, d, i);
      assert w.cnt[d] == InBlock(ds, lo, w, d);
      SameCount(ds, lo, ws[i], w, d);
    }
  }

  lemma SameCount(ds: seq<nat>, lo: nat, w: Worker, w': Worker, d: nat)
    requires lo <= w.lo <= w.hi <= lo + |ds| && w' == w.(cnt := w'.cnt)
    ensures InBlock(ds, lo, w, d) == InBlock(ds, lo, w', d)
  {
  }

  /** Counting in parallel: the counters are added up in the order in which workers finish. */
  method ParallelCount<T>(a: array<T>, lo: nat, hi: nat, ws0: seq<Worker>, ctx: Context<T>, shift: nat)
    returns (ws: seq<Worker>, cnt: seq<nat>)
    requires lo <= hi <= a.Length && Cover(ws0, lo, hi)
    ensures SameBlocks(ws, ws0) && |cnt| == Pow2(ctx.radixBits)
    ensures Counted(ws, {}, Digits(a[lo..hi], ctx, shift), lo, |cnt|)
    ensures forall d :: 0 <= d < |cnt| ==> cnt[d] == CountEq(Digits(a[lo..hi], ctx, shift), hi - lo, d)
  {
    hide CountEq, InBlock, Digits, BlockCount, Totals, Reported, Cover, Pow2, Indices;
    ghost var ds := Digits(a[lo..hi], ctx, shift);
    ws := ws0;
    cnt := seq(Pow2(ctx.radixBits), i => 0);
    var pending := Indices(|ws|);
    TotalsStart(cnt, ws, pending, ds, lo);
    while pending != {}
      invariant SameBlocks(ws, ws0) && (forall i :: i in pending ==> i < |ws|)
      invariant |cnt| == Pow2(ctx.radixBits) && Counted(ws, pending, ds, lo, |cnt|)
      invariant Totals(cnt, ws, pending, ds, lo)
      decreases pending
    {
      var i :| i in pending;
      InCover(ws, lo, hi, i);
      var w := CountBlock(a, lo, hi, ws[i], ctx, shift);
      var cnt' := AddCounters(cnt, w.cnt);
      TotalsStep(cnt, cnt', ws, w, pending, i, ds, lo);
      ws, pending, cnt := ws[i := w], pending - {i}, cnt';
    }
    TotalsEnd(cnt, ws, ds, lo);
  }

  lemma TotalsStart(cnt: seq<nat>, ws: seq<Worker>, pending: set<nat>, ds: seq<nat>, lo: nat)
    requires Cover(ws, lo, lo + |ds|) && (forall i :: 0 <= i < |ws| ==> i in pending)
    requires forall d :: 0 <= d < |cnt| ==> cnt[d] == 0
    ensures Totals(cnt, ws, pending, ds, lo)
  {
    forall d | 0 <= d < |cnt| ensures cnt[d] == Reported(ws, pending, ds, lo, |ws|, d) {
      ReportedNone(ws, pending, ds, lo, |ws|, d);
    }
  }

  lemma TotalsEnd(cnt: seq<nat>, ws: seq<Worker>, ds: seq<nat>, lo: nat)
    requires Cover(ws, lo, lo + |ds|) && Totals(cnt, ws, {}, ds, lo)
    ensures forall d :: 0 <= d < |cnt| ==> cnt[d] == CountEq(ds, |ds|, d)
  {
    forall d | 0 <= d < |cnt| ensures cnt[d] == CountEq(ds, |ds|, d) {
      ReportedAll(ws, ds, lo, |ws|, d);
    }
  }

  /** Each worker gets its own start in every bucket: after the elements of earlier blocks. */
  ghost predicate Pointed(ws: seq<Worker>, k: nat, ds: seq<nat>, lo: nat, b: nat)
    requires k <= |ws| && Cover(ws, lo, lo + |ds|)
  {
    forall i :: 0 <= i < k ==> |ws[i].cnt| == b && Counters(ws[i].cnt, ds, ws[i].next - lo)
  }

  /** One worker takes the current bucket pointers and advances them by its own counts. */
  method TakePointers(w: Worker, cnt0: seq<nat>) returns (w': Worker, cnt: seq<nat>)
    requires |w.cnt| == |cnt0|
    ensures w' == w.(cnt := cnt0) && |cnt| == |cnt0|
    ensures forall d :: 0 <= d < |cnt| ==> cnt[d] == cnt0[d] + w.cnt[d]
  {
    cnt := cnt0;
    var ptrs := w.cnt;
    var j := 0;
    while j < |cnt|
      invariant 0 <= j <= |cnt| == |cnt0| == |ptrs|
      invariant forall d :: 0 <= d < |cnt| ==> ptrs[d] == if d < j then cnt0[d] else w.cnt[d]
      invariant forall d :: 0 <= d < |cnt| ==> cnt[d] == cnt0[d] + (if d < j then w.cnt[d] else 0)
    {
      var k := ptrs[j];
      ptrs := ptrs[j := cnt[j]];
      cnt := cnt[j := cnt[j] + k];
      j := j + 1;
    }
    assert ptrs == cnt0;
    w' := w.(cnt := ptrs);
  }

  lemma PointStep(ws: seq<Worker>, i: nat, w: Worker, cnt: seq<nat>, cnt': seq<nat>, ds: seq<nat>, lo: nat)
    requires i < |ws| && Cover(ws, lo, lo + |ds|) && Pointed(ws, i, ds, lo, |cnt|)
    requires |ws[i].cnt| == |cnt| == |cnt'| && BlockCount(ws[i], ds, lo) && ws[i].next == ws[i].lo
    requires Counters(cnt, ds, ws[i].lo - lo) && w == ws[i].(cnt := cnt)
    requires forall d :: 0 <= d < |cnt| ==> cnt'[d] == cnt[d] + ws[i].cnt[d]
    ensures Cover(ws[i := w], lo, lo + |ds|) && Pointed(ws[i := w], i + 1, ds, lo, |cnt|)
    ensures Counters(cnt', ds, w.hi - lo)
  {
    hide CountEq, Start;
  }

  /** The main thread turns the workers' counts into pairwise disjoint write positions. */
  method Distribute(ws0: seq<Worker>, starts: seq<nat>, ghost ds: seq<nat>, ghost lo: nat)
    returns (ws: seq<Worker>, cnt: seq<nat>)
    requires Counted(ws0, {}, ds, lo, |starts|) && Counters(starts, ds, 0)
    requires forall i :: 0 <= i < |ws0| ==> ws0[i].next == ws0[i].lo
    ensures SameBlocks(ws, ws0) && Cover(ws, lo, lo + |ds|) && Pointed(ws, |ws|, ds, lo, |starts|)
    ensures |cnt| == |starts| && Counters(cnt, ds, |ds|)
  {
    hide CountEq, Start, Cover, Counters, BlockCount, Pointed;
    ws, cnt := ws0, starts;
    var i := 0;
    PointStart(ws, ds, lo, |starts|);
    while i < |ws|
      invariant 0 <= i <= |ws| && SameBlocks(ws, ws0) && Cover(ws, lo, lo + |ds|)
      invariant forall j :: i <= j < |ws| ==> ws[j] == ws0[j]
      invariant lo <= (if i == 0 then lo else ws[i - 1].hi) <= lo + |ds|
      invariant |cnt| == |starts| && Counters(cnt, ds, (if i == 0 then lo else ws[i - 1].hi) - lo)
      invariant Pointed(ws, i, ds, lo, |starts|)
    {
      InCover(ws, lo, lo + |ds|, i);
      var w, cnt' := TakePointers(ws[i], cnt);
      PointStep(ws, i, w, cnt, cnt', ds, lo);
      ws, cnt := ws[i := w], cnt';
      i := i + 1;
    }
    InCover(ws, lo, lo + |ds|, i - 1);
  }

  lemma PointStart(ws: seq<Worker>, ds: seq<nat>, lo: nat, b: nat)
    requires Cover(ws, lo, lo + |ds|)
    ensures |ws| >= 1 && Pointed(ws, 0, ds, lo, b)
  {
  }

  /** Everything a worker has already moved is in place. */
  ghost predicate Moved<T>(s: seq<T>, t: seq<T>, ds: seq<nat>, lo: nat, w: Worker)
    requires |s| == |t| == |ds| && lo <= w.lo <= w.next <= w.hi <= lo + |ds|
  {
    forall j :: w.lo - lo <= j < w.next - lo ==> Placed(s, t, ds, j)
  }

  ghost function Remaining(ws: seq<Worker>): nat
    requires forall i :: 0 <= i < |ws| ==> ws[i].next <= ws[i].hi
  {
    if ws == [] then 0 else Remaining(ws[..|ws| - 1]) + ws[|ws| - 1].hi - ws[|ws| - 1].next
  }

  lemma {:induction false} RemainingStep(ws: seq<Worker>, i: nat, w: Worker)
    requires forall j :: 0 <= j < |ws| ==> ws[j].next <= ws[j].hi
    requires i < |ws| && ws[i].next < ws[i].hi && w.hi == ws[i].hi && w.next == ws[i].next + 1
    ensures Remaining(ws[i := w]) == Remaining(ws) - 1
  {
    var k := |ws| - 1;
    if i == k {
      assert ws[i := w][..k] == ws[..k];
    } else {
      assert ws[i := w][..k] == ws[..k][i := w];
      RemainingStep(ws[..k], i, w);
    }
  }

  /** One write of worker `i` keeps everybody's counters and earlier writes. */
  lemma ScatterStep<T>(s: seq<T>, t: seq<T>, t': seq<T>, ds: seq<nat>, lo: nat, ws: seq<Worker>, i: nat, cnt: seq<nat>)
    requires |s| == |t| == |t'| == |ds| && i < |ws| && Cover(ws, lo, lo + |ds|) && ws[i].next < ws[i].hi
    requires Pointed(ws, |ws|, ds, lo, |cnt|) && Counters(cnt, ds, ws[i].next + 1 - lo)
    requires forall k :: 0 <= k < |ws| ==> Moved(s, t, ds, lo, ws[k])
    requires Placed(s, t', ds, ws[i].next - lo)
    requires forall j :: 0 <= j < |ds| && Placed(s, t, ds, j) ==> Placed(s, t', ds, j)
    ensures var ws' := ws[i := ws[i].(next := ws[i].next + 1, cnt := cnt)];
      && Cover(ws', lo, lo + |ds|) && Pointed(ws', |ws|, ds, lo, |cnt|)
      && forall k :: 0 <= k < |ws| ==> Moved(s, t', ds, lo, ws'[k])
  {
    hide Placed, Counters;
  }

  /** When all blocks are moved, every element is in place. */
  lemma MovedAll<T>(s: seq<T>, t: seq<T>, ds: seq<nat>, lo: nat, ws: seq<Worker>)
    requires |s| == |t| == |ds| && Cover(ws, lo, lo + |ds|)
    requires forall k :: 0 <= k < |ws| ==> ws[k].next == ws[k].hi && Moved(s, t, ds, lo, ws[k])
    ensures Scattered(s, t, ds)
  {
    hide Placed;
    forall j | 0 <= j < |ds| ensures Placed(s, t, ds, j) {
      var k := 0;
      while lo + j >= ws[k].hi
        invariant 0 <= k < |ws| && ws[k].lo <= lo + j
        decreases |ws| - k
      {
        InCover(ws, lo, lo + |ds|, k + 1);
        k := k + 1;
      }
    }
  }

  /** rs_split on all workers, one element at a time, in any interleaving. */
  method ParallelScatter<T>(a: array<T>, b: array<T>, lo: nat, hi: nat, ws0: seq<Worker>, ctx: Context<T>, shift: nat)
    requires a != b && lo <= hi <= a.Length == b.Length && Cover(ws0, lo, hi)
    requires Pointed(ws0, |ws0|, Digits(a[lo..hi], ctx, shift), lo, Pow2(ctx.radixBits))
    requires forall i :: 0 <= i < |ws0| ==> ws0[i].next == ws0[i].lo
    modifies b
    ensures Scattered(a[lo..hi], b[lo..hi], Digits(a[lo..hi], ctx, shift))
    ensures SameOutside(old(b[..]), b[..], lo, hi)
  {
    hide Counters, Placed, Digits, Pow2;
    ghost var s, ds := a[lo..hi], Digits(a[lo..hi], ctx, shift);
    var ws := ws0;
    while exists i :: 0 <= i < |ws| && ws[i].next < ws[i].hi
      invariant Cover(ws, lo, hi) && Pointed(ws, |ws|, ds, lo, Pow2(ctx.radixBits))
      invariant forall k :: 0 <= k < |ws| ==> Moved(s, b[lo..hi], ds, lo, ws[k])
      invariant SameOutside(old(b[..]), b[..], lo, hi)
      decreases Remaining(ws)
    {
      var i :| 0 <= i < |ws| && ws[i].next < ws[i].hi;
      ghost var t := b[lo..hi];
      var cnt := ScatterOne(a, b, lo, hi, ws[i].next, ws[i].cnt, ctx, shift);
      ScatterStep(s, t, b[lo..hi], ds, lo, ws, i, cnt);
      RemainingStep(ws, i, ws[i].(next := ws[i].next + 1, cnt := cnt));
      ws := ws[i := ws[i].(next := ws[i].next + 1, cnt := cnt)];
    }
    MovedAll(s, b[lo..hi], ds, lo, ws);
  }
}
