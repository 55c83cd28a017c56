/** Where a counting pass puts each element: element `i` with digit `d` goes to the start of
    bucket `d` plus the number of earlier elements with the same digit. */
module Positions {

  /** How many of the first `n` digits equal `d`. */
  function CountEq(ds: seq<nat>, n: nat, d: nat): (c: nat)
    requires n <= |ds|
  {
    if n == 0 then 0 else CountEq(ds, n - 1, d) + (if ds[n - 1] == d then 1 else 0)
  }

  /** How many of the first `n` digits are below `d`. */
  function CountLess(ds: seq<nat>, n: nat, d: nat): (c: nat)
    requires n <= |ds|
  {
    if n == 0 then 0 else CountLess(ds, n - 1, d) + (if ds[n - 1] < d then 1 else 0)
  }

  function Start(ds: seq<nat>, d: nat): (p: nat) {
    CountLess(ds, |ds|, d)
  }

  function Pos(ds: seq<nat>, i: nat): (p: nat)
    requires i < |ds|
  {
    Start(ds, ds[i]) + CountEq(ds, i, ds[i])
  }

  lemma {:induction false} LessStep(ds: seq<nat>, n: nat, d: nat)
    requires n <= |ds|
    ensures CountLess(ds, n, d + 1) == CountLess(ds, n, d) + CountEq(ds, n, d)
  {
    if n > 0 {
      LessStep(ds, n - 1, d);
    }
  }

  lemma {:induction false} LessMono(ds: seq<nat>, n: nat, d: nat, e: nat)
    requires n <= |ds| && d <= e
    ensures CountLess(ds, n, d) <= CountLess(ds, n, e)
  {
    if n > 0 {
      LessMono(ds, n - 1, d, e);
    }
  }

  lemma {:induction false} LessAll(ds: seq<nat>, n: nat, b: nat)
    requires n <= |ds| && forall i :: 0 <= i < |ds| ==> ds[i] < b
    ensures CountLess(ds, n, b) == n && CountLess(ds, n, 0) == 0
  {
    if n > 0 {
      LessAll(ds, n - 1, b);
    }
  }

  lemma {:induction false} EqMono(ds: seq<nat>, m: nat, n: nat, d: nat)
    requires m <= n <= |ds|
    ensures CountEq(ds, m, d) <= CountEq(ds, n, d)
    ensures m < n && ds[m] == d ==> CountEq(ds, m, d) < CountEq(ds, n, d)
    decreases n - m
  {
    if m < n {
      EqMono(ds, m + 1, n, d);
    }
  }

  lemma PosInBucket(ds: seq<nat>, i: nat)
    requires i < |ds|
    ensures Start(ds, ds[i]) <= Pos(ds, i) < Start(ds, ds[i] + 1) <= |ds|
  {
    LessStep(ds, |ds|, ds[i]);
    EqMono(ds, i, |ds|, ds[i]);
    LessBound(ds, |ds|, ds[i] + 1);
  }

  lemma {:induction false} LessBound(ds: seq<nat>, n: nat, d: nat)
    requires n <= |ds|
    ensures CountLess(ds, n, d) <= n
  {
    if n > 0 {
      LessBound(ds, n - 1, d);
    }
  }

  /** No two elements are written to the same place. */
  lemma PosInjective(ds: seq<nat>, i: nat, j: nat)
    requires i < j < |ds|
    ensures Pos(ds, i) != Pos(ds, j)
  {
    PosInBucket(ds, i);
    PosInBucket(ds, j);
    if ds[i] < ds[j] {
      LessMono(ds, |ds|, ds[i] + 1, ds[j]);
    } else if ds[j] < ds[i] {
      LessMono(ds, |ds|, ds[j] + 1, ds[i]);
    } else {
      EqMono(ds, i, j, ds[i]);
    }
  }

  /** The bucket that holds position `x`. */
  lemma {:induction false} BucketAt(ds: seq<nat>, b: nat, x: nat) returns (d: nat)
    requires x < Start(ds, b)
    requires forall i :: 0 <= i < |ds| ==> ds[i] < b
    ensures d < b && Start(ds, d) <= x < Start(ds, d + 1)
  {
    LessAll(ds, |ds|, b);
    d := b;
    while d > 0 && x < Start(ds, d)
      invariant d <= b
      invariant d < b ==> x < Start(ds, d + 1)
      invariant d == b ==> x < Start(ds, d)
    {
      d := d - 1;
    }
  }

  /** Every place is written: the element that lands at `x`. */
  lemma {:induction false} Origin(ds: seq<nat>, d: nat, x: nat) returns (i: nat)
    requires Start(ds, d) <= x < Start(ds, d + 1)
    ensures i < |ds| && ds[i] == d && Pos(ds, i) == x
  {
    LessStep(ds, |ds|, d);
    i := |ds|;
    while CountEq(ds, i, d) > x - Start(ds, d)
      invariant i <= |ds|
      invariant i == |ds| ==> CountEq(ds, i, d) > x - Start(ds, d)
      invariant i < |ds| && CountEq(ds, i, d) <= x - Start(ds, d) ==>
        ds[i] == d && CountEq(ds, i, d) == x - Start(ds, d)
      decreases i
    {
      i := i - 1;
    }
  }

  /** Writing each element to its own place gives a permutation. */
  lemma {:induction false} ScatterPerm<T>(s: seq<T>, t: seq<T>, p: seq<nat>)
    requires |s| == |t| == |p|
    requires forall i :: 0 <= i < |p| ==> p[i] < |p| && t[p[i]] == s[i]
    requires forall i, j :: 0 <= i < j < |p| ==> p[i] != p[j]
    ensures multiset(s) == multiset(t)
  {
    var n := |s|;
    if n > 0 {
      var q := p[n - 1];
      var t' := t[..q] + t[q + 1..];
      var p' := seq(n - 1, i requires 0 <= i < n - 1 => if p[i] < q then p[i] else if p[i] == 0 then 0 else p[i] - 1);
      ScatterPerm(s[..n - 1], t', p');
      assert s == s[..n - 1] + [s[n - 1]];
      assert t == t[..q] + [t[q]] + t[q + 1..];
      assert multiset(t) == multiset(t') + multiset{t[q]};
    }
  }
}
