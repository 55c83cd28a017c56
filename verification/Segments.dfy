/** Ordered segments: the invariant shared by the divide-and-conquer sorters.

    Every index of the window `[from, to)` carries the start of its segment. Indices of
    different segments are already ordered; what is left to do happens inside single
    segments. */
module Segments {
  import opened Ordering

  ghost predicate Shape(seg: seq<int>, from: int, to: int) {
    && 0 <= from <= to <= |seg|
    && (forall k :: from <= k < to ==> from <= seg[k] <= k)
    && (forall k :: from <= k < to ==> seg[seg[k]] == seg[k])
  }

  ghost predicate Apart<T>(s: seq<T>, seg: seq<int>, from: int, to: int, key: T -> int)
    requires 0 <= from <= to <= |seg| && |s| == |seg|
  {
    forall i, j :: from <= i < j < to && seg[i] != seg[j] ==> key(s[i]) <= key(s[j])
  }

  /** `[lo, hi)` is exactly one segment of the window. */
  ghost predicate IsSegment(seg: seq<int>, from: int, to: int, lo: int, hi: int) {
    && 0 <= from <= lo < hi <= to <= |seg|
    && forall k :: from <= k < to ==> (seg[k] == lo <==> lo <= k < hi)
  }

  /** `seg'` cuts the range `[lo, hi)` of `seg` into smaller segments. */
  ghost predicate Cuts(seg: seq<int>, seg': seq<int>, lo: int, hi: int) {
    && 0 <= lo <= hi <= |seg| == |seg'|
    && (forall k :: 0 <= k < lo || hi <= k < |seg| ==> seg'[k] == seg[k])
    && Shape(seg', lo, hi)
  }

  /** Permuting inside one segment and cutting it into ordered parts keeps the invariant. */
  lemma Refine<T>(s: seq<T>, t: seq<T>, seg: seq<int>, seg': seq<int>, from: int, to: int,
                  lo: int, hi: int, key: T -> int)
    requires |s| == |seg| && Shape(seg, from, to) && Apart(s, seg, from, to, key)
    requires IsSegment(seg, from, to, lo, hi) && PermIn(s, t, lo, hi) && Cuts(seg, seg', lo, hi)
    requires Apart(t, seg', lo, hi, key)
    ensures Shape(seg', from, to) && Apart(t, seg', from, to, key)
  {
    forall k | from <= k < to ensures from <= seg'[k] <= k && seg'[seg'[k]] == seg'[k] {
      if !(lo <= k < hi) {
        assert seg[seg[k]] == seg[k] != lo;
      }
    }
    forall i, j | from <= i < j < to && seg'[i] != seg'[j] ensures key(t[i]) <= key(t[j]) {
      if lo <= i < hi && lo <= j < hi {
      } else if lo <= i < hi {
        var i' := PermSource(s, t, lo, hi, i);
      } else if lo <= j < hi {
        var j' := PermSource(s, t, lo, hi, j);
      }
    }
  }

  /** Cutting one segment leaves every other segment alone. */
  lemma OtherSegment(seg: seq<int>, seg': seq<int>, from: int, to: int, lo: int, hi: int, lo2: int, hi2: int)
    requires IsSegment(seg, from, to, lo, hi) && Cuts(seg, seg', lo, hi)
    requires IsSegment(seg, from, to, lo2, hi2) && lo != lo2
    ensures IsSegment(seg', from, to, lo2, hi2)
  {
    assert seg[lo2] == lo2;
    assert !(lo <= lo2 < hi);
    forall k | from <= k < to ensures seg'[k] == lo2 <==> lo2 <= k < hi2 {
      if lo <= k < hi {
        assert seg[k] == lo;
      }
    }
  }

  /** The cut of `[lo, hi)` at `m1` and `m2`. */
  ghost function CutThree(seg: seq<int>, lo: int, m1: int, m2: int, hi: int): (seg': seq<int>)
    requires 0 <= lo <= m1 <= m2 <= hi <= |seg|
    ensures Cuts(seg, seg', lo, hi)
    ensures forall k :: lo <= k < hi ==> seg'[k] == (if k < m1 then lo else if k < m2 then m1 else m2)
  {
    seq(|seg|, k requires 0 <= k < |seg| =>
      if k < lo || hi <= k then seg[k] else if k < m1 then lo else if k < m2 then m1 else m2)
  }

  lemma CutThreeSegments(seg: seq<int>, from: int, to: int, lo: int, m1: int, m2: int, hi: int)
    requires Shape(seg, from, to) && IsSegment(seg, from, to, lo, hi) && lo <= m1 <= m2 <= hi
    ensures lo < m1 ==> IsSegment(CutThree(seg, lo, m1, m2, hi), from, to, lo, m1)
    ensures m2 < hi && lo < m2 ==> IsSegment(CutThree(seg, lo, m1, m2, hi), from, to, m2, hi)
  {
    forall k | from <= k < to && !(lo <= k < hi) ensures !(lo <= seg[k] < hi) {
      assert seg[seg[k]] == seg[k] != lo;
    }
  }
}
