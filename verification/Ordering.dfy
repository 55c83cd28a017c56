/** Sorted sequences and permutations inside an index range.

    Records of any type `T` are compared through an integer key, as the sorter
    does for SORT_INT: two different records may have equal keys. */
module Ordering {

  ghost predicate Sorted<T>(s: seq<T>, key: T -> int) {
    forall i, j :: 0 <= i < j < |s| ==> key(s[i]) <= key(s[j])
  }

  ghost predicate SortedIn<T>(s: seq<T>, lo: int, hi: int, key: T -> int)
    requires 0 <= lo <= hi <= |s|
  {
    forall i, j :: lo <= i < j < hi ==> key(s[i]) <= key(s[j])
  }

  /** `t` is `s` with the elements of `[lo, hi)` permuted and the rest untouched. */
  ghost predicate PermIn<T>(s: seq<T>, t: seq<T>, lo: int, hi: int) {
    && 0 <= lo <= hi <= |s| == |t|
    && (forall k :: 0 <= k < lo || hi <= k < |s| ==> s[k] == t[k])
    && multiset(s) == multiset(t)
  }

  lemma PermSelf<T>(s: seq<T>, lo: int, hi: int)
    requires 0 <= lo <= hi <= |s|
    ensures PermIn(s, s, lo, hi)
  {
  }

  function Swapped<T>(s: seq<T>, i: int, j: int): (t: seq<T>)
    requires 0 <= i < |s| && 0 <= j < |s|
  {
    s[i := s[j]][j := s[i]]
  }

  lemma SwapPerm<T>(s: seq<T>, i: int, j: int, lo: int, hi: int)
    requires 0 <= lo <= i < hi <= |s| && lo <= j < hi
    ensures PermIn(s, Swapped(s, i, j), lo, hi)
  {
  }

  lemma PermInside<T>(s: seq<T>, t: seq<T>, lo: int, hi: int)
    requires PermIn(s, t, lo, hi)
    ensures multiset(s[lo..hi]) == multiset(t[lo..hi])
  {
    assert s == s[..lo] + s[lo..hi] + s[hi..];
    assert t == t[..lo] + t[lo..hi] + t[hi..];
    assert s[..lo] == t[..lo] && s[hi..] == t[hi..];
    assert multiset(s[lo..hi]) == multiset(s) - multiset(s[..lo]) - multiset(s[hi..]);
    assert multiset(t[lo..hi]) == multiset(t) - multiset(t[..lo]) - multiset(t[hi..]);
  }

  /** Where the element now at `k` came from. */
  lemma PermSource<T>(s: seq<T>, t: seq<T>, lo: int, hi: int, k: int) returns (j: int)
    requires PermIn(s, t, lo, hi) && lo <= k < hi
    ensures lo <= j < hi && s[j] == t[k]
  {
    PermInside(s, t, lo, hi);
    assert t[k] == t[lo..hi][k - lo];
    assert t[k] in multiset(t[lo..hi]);
    assert t[k] in s[lo..hi];
    var i :| 0 <= i < hi - lo && s[lo..hi][i] == t[k];
    j := lo + i;
  }

  /** All records of a list of sequences. */
  ghost function All<T>(ds: seq<seq<T>>): multiset<T> {
    if ds == [] then multiset{} else multiset(ds[0]) + All(ds[1..])
  }

  lemma {:induction false} AllConcat<T>(a: seq<seq<T>>, b: seq<seq<T>>)
    ensures All(a + b) == All(a) + All(b)
  {
    if a == [] {
      assert a + b == b;
    } else {
      hide All;
      AllConcat(a[1..], b);
      assert (a + b)[1..] == a[1..] + b && (a + b)[0] == a[0];
      AllFirst(a + b);
      AllFirst(a);
    }
  }

  lemma AllFirst<T>(ds: seq<seq<T>>)
    requires ds != []
    ensures All(ds) == multiset(ds[0]) + All(ds[1..])
  {
  }

  lemma AllOne<T>(s: seq<T>)
    ensures All([s]) == multiset(s)
  {
    assert [s][1..] == [];
  }

  lemma {:induction false} AllMember<T>(ds: seq<seq<T>>, i: nat, x: T)
    requires i < |ds| && x in ds[i]
    ensures x in All(ds)
  {
    if i == 0 {
      assert x in multiset(ds[0]);
    } else {
      AllMember(ds[1..], i - 1, x);
    }
  }
}
