/** The entry point of the array sorter (asort_run in generic/sorter/array.c). */
module ArraySort {
  import opened Basics
  import opened Ordering
  import opened HashBits
  import opened RadixSort
  import opened ParallelRadix
  import ParallelQuicksort

  /** Whether the first radix pass is expected to be the last one, so that the result had
      better stay in the buffer. The loop starts from the bits of one pass, so it predicts
      at most one pass however many there will be. */
  method PredictSwap(numElts: nat, radixBits: nat, radixThreshold: nat) returns (swap: bool)
    requires radixBits >= 1
    ensures swap <==> numElts >= radixThreshold && radixBits >= ASORT_MIN_SHIFT
  {
    var bits, elts := radixBits, numElts;
    swap := false;
    while elts >= radixThreshold && bits >= ASORT_MIN_SHIFT
      invariant bits == radixBits || bits == 0
      invariant bits == radixBits ==> elts == numElts && !swap
      invariant bits == 0 ==> swap && numElts >= radixThreshold && radixBits >= ASORT_MIN_SHIFT
      decreases bits
    {
      swap := !swap;
      elts := Shr(elts, radixBits);
      bits := (if bits > radixBits then bits else radixBits) - radixBits;
    }
  }

  lemma HashesAgree<T>(s: seq<T>, ctx: Context<T>, hashBits: nat)
    requires forall i :: 0 <= i < |s| ==> ctx.hash(s[i]) < Pow2(hashBits)
    ensures Agree(s, ctx, hashBits)
  {
    forall i, j | 0 <= i < |s| && 0 <= j < |s| ensures Shr(ctx.hash(s[i]), hashBits) == Shr(ctx.hash(s[j]), hashBits) {
      ShrSmall(ctx.hash(s[i]), hashBits);
      ShrSmall(ctx.hash(s[j]), hashBits);
    }
  }

  /** Small arrays, few hash bits, or no hash at all: quicksort it is. */
  predicate Comparing<T>(ctx: Context<T>, n: nat, hashBits: nat, useRadix: bool) {
    n < ctx.radixThreshold || hashBits <= ASORT_MIN_SHIFT || !useRadix
  }

  /** Picks a strategy by size, hash and threads; `inBuffer` says where the result is. Up to the
      length that quicksort can index, the only case that fails is the parallel split of an empty
      array, with a thread threshold of 0. Parallel quicksort goes on to the greatest `int` if it
      leaves no longer range to quicksort. */
  method Run<T(!new)>(x: array<T>, y: array<T>, ctx: Context<T>, lim: Limits, hashBits: nat, useRadix: bool)
    returns (inBuffer: bool, ok: bool)
    requires x != y && x.Length == y.Length && Monotone(ctx) && Agree(x[..], ctx, hashBits)
    modifies x, y
    ensures x.Length <= Quicksort.MAX_ELTS ==>
      (!ok <==> x.Length == lim.threadThreshold == 0 && lim.threads > 1 && Comparing(ctx, 0, hashBits, useRadix))
    ensures lim.threads > 1 && 0 < x.Length && lim.threadThreshold <= x.Length ==>
      (Comparing(ctx, x.Length, hashBits, useRadix) ==>
        ParallelQuicksort.Indexable(x.Length, lim.threadThreshold) ==> ok)
    ensures ok ==> multiset((if inBuffer then y else x)[..]) == multiset(old(x[..]))
    ensures ok ==> Sorted((if inBuffer then y else x)[..], ctx.key)
  {
    hide Monotone, Agree, Pow2;
    var n := x.Length;
    var allowThreads := lim.threads > 1 && n >= lim.threadThreshold;
    ok := true;
    if Comparing(ctx, n, hashBits, useRadix) {
      inBuffer := false;
      if allowThreads {
        ok := ParallelQuicksort.ThreadedQuicksort(x, n, lim.threadThreshold, ctx.key);
      } else {
        ok := Quicksort.Sort(x, 0, n, ctx.key);
      }
    } else {
      assert ctx.radixBits >= 1 by { RadixBitsPositive(ctx); }
      inBuffer := PredictSwap(n, ctx.radixBits, ctx.radixThreshold);
      if allowThreads {
        ok := ThreadedRadixsort(x, y, ctx, lim, hashBits, inBuffer);
      } else {
        ghost var s := x[..];
        assert x[0..n] == s;
        ok := AsortRadix(x, y, 0, n, ctx, hashBits, inBuffer);
        ghost var t := if inBuffer then y[..] else x[..];
        assert t[0..n] == t && s[0..n] == s;
      }
    }
  }
}
