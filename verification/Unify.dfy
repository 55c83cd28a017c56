/** The multi-way merge of generic/sorter/s-multiway.h with SORT_UNIFY: records with equal keys
    are merged into one. A merged record is represented by the group it is made of. */
module Unify {
  import opened Basics
  import opened Tournament
  import opened Multiway

  ghost predicate Strict<T>(s: seq<T>, key: T -> int) {
    forall i, j :: 0 <= i < j < |s| ==> key(s[i]) < key(s[j])
  }

  /** Stream `j` has a head with key `c`. */
  predicate Holds<T>(rem: seq<seq<T>>, j: nat, c: int, key: T -> int)
    requires j < |rem|
  {
    rem[j] != [] && key(rem[j][0]) == c
  }

  /** All streams strictly increase, and no head is below `c`. */
  ghost predicate From<T>(rem: seq<seq<T>>, c: int, key: T -> int) {
    forall j :: 0 <= j < |rem| ==> Strict(rem[j], key) && (rem[j] != [] ==> c <= key(rem[j][0]))
  }

  /** A strict stream whose head is not below `c` has at most its head with key `c`. */
  lemma FilterHead<T>(s: seq<T>, c: int, key: T -> int)
    requires Strict(s, key) && (s != [] ==> c <= key(s[0]))
    ensures Filter(s, c, key) == if s != [] && key(s[0]) == c then [s[0]] else []
  {
    if s != [] {
      FilterNone(s[1..], c, key);
    }
  }

  lemma {:induction false} GatherConcat<T>(a: seq<seq<T>>, b: seq<seq<T>>, c: int, key: T -> int)
    ensures Gather(a + b, c, key) == Gather(a, c, key) + Gather(b, c, key)
  {
    hide Filter;
    if a == [] {
      assert a + b == b;
    } else {
      GatherConcat(a[1..], b, c, key);
      assert (a + b)[1..] == a[1..] + b && (a + b)[0] == a[0];
    }
  }

  lemma {:induction false} GatherNone<T>(a: seq<seq<T>>, c: int, key: T -> int)
    requires From(a, c, key) && forall j :: 0 <= j < |a| ==> !Holds(a, j, c, key)
    ensures Gather(a, c, key) == []
  {
    if a != [] {
      assert !Holds(a, 0, c, key);
      FilterHead(a[0], c, key);
      forall j | 0 <= j < |a[1..]| ensures !Holds(a[1..], j, c, key) {
        assert !Holds(a, j + 1, c, key);
      }
      GatherNone(a[1..], c, key);
    }
  }

  /** Streams between two holders contribute nothing. */
  lemma GatherNext<T>(rem: seq<seq<T>>, p: nat, i: nat, c: int, key: T -> int)
    requires p <= i < |rem| && From(rem, c, key) && Holds(rem, i, c, key)
    requires forall j :: p <= j < i ==> !Holds(rem, j, c, key)
    ensures Gather(rem[..i + 1], c, key) == Gather(rem[..p], c, key) + [rem[i][0]]
  {
    GatherGap(rem, p, i, c, key);
    assert rem[..i + 1] == rem[..i] + [rem[i]];
    GatherConcat(rem[..i], [rem[i]], c, key);
    FilterHead(rem[i], c, key);
    assert [rem[i]][1..] == [];
  }

  lemma GatherGap<T>(rem: seq<seq<T>>, p: nat, q: nat, c: int, key: T -> int)
    requires p <= q <= |rem| && From(rem, c, key) && forall j :: p <= j < q ==> !Holds(rem, j, c, key)
    ensures Gather(rem[..q], c, key) == Gather(rem[..p], c, key)
  {
    assert rem[..q] == rem[..p] + rem[p..q];
    GatherConcat(rem[..p], rem[p..q], c, key);
    forall j | 0 <= j < q - p ensures !Holds(rem[p..q], j, c, key) {
      assert rem[p..q][j] == rem[p + j];
      assert !Holds(rem, p + j, c, key);
    }
    assert From(rem[p..q], c, key);
    GatherNone(rem[p..q], c, key);
  }

  /** While a group is collected its holders are taken out of the tree. */
  ghost predicate Lifted<T>(tree: seq<Node>, n2: nat, kv: seq<int>, rem: seq<seq<T>>, hits: seq<nat>, key: T -> int) {
    && |kv| == |rem| <= n2 && |tree| == 2 * n2
    && (forall j :: 0 <= j < |rem| ==> (Live(tree, n2, j) <==> rem[j] != [] && j !in hits))
    && (forall j :: 0 <= j < |rem| && rem[j] != [] ==> kv[j] == key(rem[j][0]))
  }

  /** Exactly the holders before `p` have been hit. */
  ghost predicate HitsBefore<T>(rem: seq<seq<T>>, hits: seq<nat>, p: nat, c: int, key: T -> int) {
    && (forall m :: 0 <= m < |hits| ==> hits[m] < p <= |rem|)
    && (forall m, n :: 0 <= m < n < |hits| ==> hits[m] < hits[n])
    && (forall j :: 0 <= j < |rem| && j < p ==> (j in hits <==> Holds(rem, j, c, key)))
  }

  /** Collects all holders of the lowest key, lowest stream first. */
  method Collect<T>(tree: array<Node>, n2: nat, kv: seq<int>, rem: seq<seq<T>>, first: nat, key: T -> int, ghost h: nat)
    returns (hits: seq<nat>, group: seq<T>)
    requires n2 == Pow2(h) && tree.Length == 2 * n2 && TreeOk(tree[..], n2, kv) && Loaded(tree[..], n2, kv, rem, key)
    requires Lowest(rem, first, key) && From(rem, key(rem[first][0]), key)
    modifies tree
    ensures TreeOk(tree[..], n2, kv) && Lifted(tree[..], n2, kv, rem, hits, key)
    ensures HitsBefore(rem, hits, |rem|, key(rem[first][0]), key)
    ensures group == Gather(rem, key(rem[first][0]), key)
  {
    hide TreeOk, Gather, Pow2, From;
    var c := key(rem[first][0]);
    var i: int := first;
    hits, group := [], [];
    ghost var p := 0;
    CollectStart(rem, first, c, key);
    while i >= 0 && kv[i] == c
      invariant -1 <= i < |rem| && p <= |rem| && TreeOk(tree[..], n2, kv) && Lifted(tree[..], n2, kv, rem, hits, key)
      invariant HitsBefore(rem, hits, p, c, key) && group == Gather(rem[..p], c, key)
      invariant i >= 0 ==> Live(tree[..], n2, i)
      invariant i >= 0 ==> forall j :: p <= j < |rem| && Holds(rem, j, c, key) ==> kv[i] == c && i <= j
      invariant i < 0 ==> forall j :: 0 <= j < |rem| ==> !Live(tree[..], n2, j)
      decreases |rem| - p
    {
      Beyond(rem, hits, p, i, c, key);
      GatherNext(rem, p, i, c, key);
      hits, group := hits + [i], group + [rem[i][0]];
      SetLeaf(tree, n2, kv, kv, i, -1, h);
      p := i + 1;
      RootKnows(tree[..], n2, kv, h);
      RootBelow(tree[..], n2, kv);
      i := if tree[1].i < 0 then -1 else tree[1].i;
    }
    CollectEnd(tree[..], n2, kv, rem, hits, p, i, c, key);
  }

  lemma CollectStart<T>(rem: seq<seq<T>>, first: nat, c: int, key: T -> int)
    requires Lowest(rem, first, key) && c == key(rem[first][0])
    ensures HitsBefore(rem, [], 0, c, key) && Gather(rem[..0], c, key) == []
  {
  }

  lemma Beyond<T>(rem: seq<seq<T>>, hits: seq<nat>, p: nat, i: nat, c: int, key: T -> int)
    requires HitsBefore(rem, hits, p, c, key) && i < |rem| && i !in hits && Holds(rem, i, c, key)
    ensures p <= i
  {
  }

  lemma CollectEnd<T>(tree: seq<Node>, n2: nat, kv: seq<int>, rem: seq<seq<T>>, hits: seq<nat>, p: nat, i: int,
                      c: int, key: T -> int)
    requires -1 <= i < |rem| && p <= |rem| && Lifted(tree, n2, kv, rem, hits, key) && HitsBefore(rem, hits, p, c, key)
    requires i >= 0 ==> kv[i] != c && forall j :: p <= j < |rem| && Holds(rem, j, c, key) ==> kv[i] == c && i <= j
    requires i < 0 ==> forall j :: 0 <= j < |rem| ==> !Live(tree, n2, j)
    requires From(rem, c, key)
    ensures HitsBefore(rem, hits, |rem|, c, key) && Gather(rem[..p], c, key) == Gather(rem, c, key)
  {
    forall j | p <= j < |rem| ensures !Holds(rem, j, c, key) && j !in hits {
    }
    GatherGap(rem, p, |rem|, c, key);
    assert rem[..|rem|] == rem;
  }

  /** The streams after the first `m` hits have moved on to their next records. */
  ghost predicate MovedOn<T>(rem: seq<seq<T>>, rem': seq<seq<T>>, hits: seq<nat>, m: nat) {
    && |rem'| == |rem| && m <= |hits|
    && forall j :: 0 <= j < |rem| ==> rem'[j] == if j in hits[..m] && rem[j] != [] then rem[j][1..] else rem[j]
  }

  /** `kv` holds the keys of all heads. */
  ghost predicate HeadKeys<T>(kv: seq<int>, rem: seq<seq<T>>, key: T -> int) {
    |kv| == |rem| && forall j :: 0 <= j < |rem| && rem[j] != [] ==> kv[j] == key(rem[j][0])
  }

  /** One stream reads its next record and goes back into the tree, if there is one. */
  method ReloadOne<T>(tree: array<Node>, n2: nat, kv0: seq<int>, rem0: seq<seq<T>>, i: nat, key: T -> int, ghost h: nat)
    returns (kv: seq<int>, rem: seq<seq<T>>)
    requires n2 == Pow2(h) && tree.Length == 2 * n2 && TreeOk(tree[..], n2, kv0) && |rem0| <= n2
    requires HeadKeys(kv0, rem0, key) && i < |rem0| && rem0[i] != [] && !Live(tree[..], n2, i)
    modifies tree
    ensures TreeOk(tree[..], n2, kv) && rem == rem0[i := rem0[i][1..]] && HeadKeys(kv, rem, key)
    ensures Live(tree[..], n2, i) <==> rem[i] != []
    ensures forall j :: 0 <= j < |rem| && j != i ==> (Live(tree[..], n2, j) <==> old(Live(tree[..], n2, j)))
  {
    hide TreeOk, Pow2;
    rem, kv := rem0[i := rem0[i][1..]], kv0;
    if rem[i] != [] {
      kv := kv0[i := key(rem[i][0])];
      SetLeaf(tree, n2, kv0, kv, i, i, h);
    }
  }

  /** Puts the holders of the written group back with their next records. */
  method Reload<T>(tree: array<Node>, n2: nat, kv0: seq<int>, rem0: seq<seq<T>>, hits: seq<nat>, ghost c: int,
                   key: T -> int, ghost h: nat)
    returns (kv: seq<int>, rem: seq<seq<T>>)
    requires n2 == Pow2(h) && tree.Length == 2 * n2 && TreeOk(tree[..], n2, kv0)
    requires Lifted(tree[..], n2, kv0, rem0, hits, key) && HitsBefore(rem0, hits, |rem0|, c, key)
    modifies tree
    ensures TreeOk(tree[..], n2, kv) && Loaded(tree[..], n2, kv, rem, key)
    ensures MovedOn(rem0, rem, hits, |hits|)
  {
    hide TreeOk, Pow2, MovedOn, HeadKeys, HitsBefore;
    kv, rem := kv0, rem0;
    var m := 0;
    ReloadStart(kv, rem, hits, c, key);
    while m < |hits|
      invariant 0 <= m <= |hits| && |rem| == |rem0| <= n2 && TreeOk(tree[..], n2, kv)
      invariant MovedOn(rem0, rem, hits, m) && HeadKeys(kv, rem, key)
      invariant forall j :: 0 <= j < |rem| ==> (Live(tree[..], n2, j) <==> rem[j] != [] && j !in hits[m..])
    {
      StillThere(rem0, rem, hits, m, c, key);
      kv, rem := ReloadOne(tree, n2, kv, rem, hits[m], key, h);
      m := m + 1;
    }
    ReloadEnd(kv, rem, hits, key);
  }

  lemma ReloadStart<T>(kv: seq<int>, rem: seq<seq<T>>, hits: seq<nat>, c: int, key: T -> int)
    requires |kv| == |rem| && forall j :: 0 <= j < |rem| && rem[j] != [] ==> kv[j] == key(rem[j][0])
    ensures MovedOn(rem, rem, hits, 0) && HeadKeys(kv, rem, key) && hits[0..] == hits
  {
  }

  lemma ReloadEnd<T>(kv: seq<int>, rem: seq<seq<T>>, hits: seq<nat>, key: T -> int)
    requires HeadKeys(kv, rem, key)
    ensures |kv| == |rem| && forall j :: 0 <= j < |rem| && rem[j] != [] ==> kv[j] == key(rem[j][0])
    ensures hits[|hits|..] == []
  {
  }

  /** Each hit is a different stream, so it has not moved before its turn. */
  lemma StillThere<T>(rem0: seq<seq<T>>, rem: seq<seq<T>>, hits: seq<nat>, m: nat, c: int, key: T -> int)
    requires HitsBefore(rem0, hits, |rem0|, c, key) && m < |hits| && MovedOn(rem0, rem, hits, m)
    ensures hits[m] < |rem| && rem[hits[m]] == rem0[hits[m]] != [] && hits[m] !in hits[m + 1..]
    ensures hits[m..] == [hits[m]] + hits[m + 1..]
    ensures MovedOn(rem0, rem[hits[m] := rem[hits[m]][1..]], hits, m + 1)
  {
    var i := hits[m];
    assert i !in hits[..m];
    assert hits[..m + 1] == hits[..m] + [i];
    assert i in hits;
  }

  /** Output groups: strictly rising keys, each the complete group of its key. */
  ghost predicate Groups<T>(ins: seq<seq<T>>, out: seq<seq<T>>, key: T -> int) {
    && (forall g :: 0 <= g < |out| ==> out[g] != [] && out[g] == Gather(ins, key(out[g][0]), key))
    && (forall f, g :: 0 <= f < g < |out| ==> key(out[f][0]) < key(out[g][0]))
  }

  /** Keys up to the last group are done, later ones are untouched. */
  ghost predicate Unified<T>(ins: seq<seq<T>>, rem: seq<seq<T>>, out: seq<seq<T>>, key: T -> int) {
    && Groups(ins, out, key)
    && (forall j :: 0 <= j < |rem| ==> Strict(rem[j], key))
    && (out != [] ==> forall j :: 0 <= j < |rem| && rem[j] != [] ==> key(out[|out| - 1][0]) < key(rem[j][0]))
    && Later(ins, rem, out, key) && Earlier(ins, out, key)
  }

  ghost predicate Later<T>(ins: seq<seq<T>>, rem: seq<seq<T>>, out: seq<seq<T>>, key: T -> int)
    requires out != [] ==> out[|out| - 1] != []
  {
    forall c :: out == [] || key(out[|out| - 1][0]) < c ==> Gather(rem, c, key) == Gather(ins, c, key)
  }

  ghost predicate Earlier<T>(ins: seq<seq<T>>, out: seq<seq<T>>, key: T -> int)
    requires out != [] ==> out[|out| - 1] != []
  {
    forall c :: out != [] && c <= key(out[|out| - 1][0]) ==> Gather(ins, c, key) == [] || Gather(ins, c, key) in out
  }

  lemma {:induction false} GatherSame<T>(a: seq<seq<T>>, b: seq<seq<T>>, c: int, key: T -> int)
    requires |a| == |b| && forall j :: 0 <= j < |a| ==> Filter(a[j], c, key) == Filter(b[j], c, key)
    ensures Gather(a, c, key) == Gather(b, c, key)
  {
    hide Filter;
    if a != [] {
      GatherSame(a[1..], b[1..], c, key);
    }
  }

  /** Moving the holders of the lowest key on does not touch larger keys. */
  lemma GatherMoved<T>(rem: seq<seq<T>>, rem': seq<seq<T>>, c: int, c': int, key: T -> int)
    requires |rem| == |rem'| && c < c'
    requires forall j :: 0 <= j < |rem| ==> rem'[j] == if Holds(rem, j, c, key) then rem[j][1..] else rem[j]
    ensures Gather(rem', c', key) == Gather(rem, c', key)
  {
    GatherSame(rem', rem, c', key);
  }

  /** Below the lowest head there is nothing left. */
  lemma GatherBelow<T>(rem: seq<seq<T>>, c: int, c': int, key: T -> int)
    requires From(rem, c, key) && c' < c
    ensures Gather(rem, c', key) == []
  {
    assert From(rem, c', key);
    GatherNone(rem, c', key);
  }

  /** Moving the holders on leaves strict streams above the lowest key. */
  lemma MovedAbove<T>(rem: seq<seq<T>>, rem': seq<seq<T>>, c: int, key: T -> int)
    requires |rem| == |rem'| && From(rem, c, key)
    requires forall j :: 0 <= j < |rem| ==> rem'[j] == if Holds(rem, j, c, key) then rem[j][1..] else rem[j]
    ensures forall j :: 0 <= j < |rem| ==> Strict(rem'[j], key) && (rem'[j] != [] ==> c < key(rem'[j][0]))
  {
  }

  lemma LowestFrom<T>(rem: seq<seq<T>>, i: nat, key: T -> int)
    requires Lowest(rem, i, key) && forall j :: 0 <= j < |rem| ==> Strict(rem[j], key)
    ensures From(rem, key(rem[i][0]), key)
  {
  }

  lemma GroupsAppend<T>(ins: seq<seq<T>>, out: seq<seq<T>>, group: seq<T>, key: T -> int)
    requires Groups(ins, out, key) && group != [] && group == Gather(ins, key(group[0]), key)
    requires out != [] ==> key(out[|out| - 1][0]) < key(group[0])
    ensures Groups(ins, out + [group], key)
  {
    hide Gather;
  }

  lemma LaterStep<T>(ins: seq<seq<T>>, rem: seq<seq<T>>, rem': seq<seq<T>>, out: seq<seq<T>>, group: seq<T>,
                     c: int, key: T -> int)
    requires (out != [] ==> out[|out| - 1] != [] && key(out[|out| - 1][0]) < c) && Later(ins, rem, out, key)
    requires group != [] && key(group[0]) == c && |rem'| == |rem|
    requires forall j :: 0 <= j < |rem| ==> rem'[j] == if Holds(rem, j, c, key) then rem[j][1..] else rem[j]
    ensures Later(ins, rem', out + [group], key)
  {
    hide Gather;
    var out' := out + [group];
    assert out'[|out'| - 1] == group;
    forall c' | c < c' ensures Gather(rem', c', key) == Gather(ins, c', key) {
      GatherMoved(rem, rem', c, c', key);
    }
  }

  lemma EarlierStep<T>(ins: seq<seq<T>>, rem: seq<seq<T>>, out: seq<seq<T>>, group: seq<T>, c: int, key: T -> int)
    requires (out != [] ==> out[|out| - 1] != [] && key(out[|out| - 1][0]) < c)
    requires Later(ins, rem, out, key) && Earlier(ins, out, key) && From(rem, c, key)
    requires group != [] && key(group[0]) == c && group == Gather(ins, c, key)
    ensures Earlier(ins, out + [group], key)
  {
    hide Gather, From;
    var out' := out + [group];
    assert out'[|out'| - 1] == group;
    forall c' | c' <= c ensures Gather(ins, c', key) == [] || Gather(ins, c', key) in out' {
      if c' == c {
      } else if out == [] || key(out[|out| - 1][0]) < c' {
        GatherBelow(rem, c, c', key);
      } else {
        assert Gather(ins, c', key) == [] || Gather(ins, c', key) in out;
      }
    }
  }

  lemma UnifiedStep<T>(ins: seq<seq<T>>, rem: seq<seq<T>>, rem': seq<seq<T>>, out: seq<seq<T>>, i: nat, key: T -> int)
    requires Unified(ins, rem, out, key) && Lowest(rem, i, key) && |rem'| == |rem|
    requires forall j :: 0 <= j < |rem| ==>
      rem'[j] == if Holds(rem, j, key(rem[i][0]), key) then rem[j][1..] else rem[j]
    ensures Unified(ins, rem', out + [Gather(rem, key(rem[i][0]), key)], key)
  {
    hide Filter, Gather, Strict, From, Earlier;
    LowestFrom(rem, i, key);
    var c := key(rem[i][0]);
    var group := Gather(rem, c, key);
    GroupKey(rem, i, key);
    assert group == Gather(ins, c, key);
    MovedAbove(rem, rem', c, key);
    GroupsAppend(ins, out, group, key);
    LaterStep(ins, rem, rem', out, group, c, key);
    EarlierStep(ins, rem, out, group, c, key);
  }

  /** The group of the lowest key is not empty and has that key. */
  lemma GroupKey<T>(rem: seq<seq<T>>, i: nat, key: T -> int)
    requires Lowest(rem, i, key) && From(rem, key(rem[i][0]), key)
    ensures Gather(rem, key(rem[i][0]), key) != [] && key(Gather(rem, key(rem[i][0]), key)[0]) == key(rem[i][0])
  {
    var c := key(rem[i][0]);
    GatherNext(rem, 0, i, c, key);
    assert rem == rem[..i + 1] + rem[i + 1..];
    GatherConcat(rem[..i + 1], rem[i + 1..], c, key);
    assert rem[..0] == [];
    assert Gather(rem[..0], c, key) == [];
    assert Gather(rem, c, key)[0] == rem[i][0];
  }

  lemma UnifiedStart<T>(ins: seq<seq<T>>, key: T -> int)
    requires forall j :: 0 <= j < |ins| ==> Strict(ins[j], key)
    ensures Unified(ins, ins, [], key)
  {
  }

  lemma UnifiedEnd<T>(ins: seq<seq<T>>, rem: seq<seq<T>>, out: seq<seq<T>>, key: T -> int)
    requires Unified(ins, rem, out, key) && forall j :: 0 <= j < |rem| ==> rem[j] == []
    ensures Groups(ins, out, key) && forall c :: Gather(ins, c, key) == [] || Gather(ins, c, key) in out
  {
    forall c ensures Gather(ins, c, key) == [] || Gather(ins, c, key) in out {
      GatherEmpty(rem, c, key);
    }
  }

  /** Without equality at the root the group is the single head. */
  lemma AloneStep<T>(ins: seq<seq<T>>, rem: seq<seq<T>>, out: seq<seq<T>>, i: nat, key: T -> int)
    requires Unified(ins, rem, out, key) && Lowest(rem, i, key)
    requires forall j :: 0 <= j < |rem| && Holds(rem, j, key(rem[i][0]), key) ==> j == i
    ensures Unified(ins, rem[i := rem[i][1..]], out + [[rem[i][0]]], key)
  {
    var c := key(rem[i][0]);
    LowestFrom(rem, i, key);
    GatherNext(rem, 0, i, c, key);
    GatherGap(rem, i + 1, |rem|, c, key);
    assert rem[..|rem|] == rem && rem[..0] == [] && Gather(rem[..0], c, key) == [];
    assert Gather(rem, c, key) == [rem[i][0]];
    assert Holds(rem, i, c, key);
    UnifiedStep(ins, rem, rem[i := rem[i][1..]], out, i, key);
  }

  lemma GroupStep<T>(ins: seq<seq<T>>, rem: seq<seq<T>>, rem': seq<seq<T>>, out: seq<seq<T>>, i: nat,
                     hits: seq<nat>, key: T -> int)
    requires Unified(ins, rem, out, key) && Lowest(rem, i, key)
    requires HitsBefore(rem, hits, |rem|, key(rem[i][0]), key) && MovedOn(rem, rem', hits, |hits|)
    ensures Unified(ins, rem', out + [Gather(rem, key(rem[i][0]), key)], key)
    ensures Length(rem') < Length(rem)
  {
    hide Unified, Gather, Filter;
    assert hits[..|hits|] == hits;
    var c := key(rem[i][0]);
    forall j | 0 <= j < |rem| ensures rem'[j] == if Holds(rem, j, c, key) then rem[j][1..] else rem[j] {
      assert j in hits <==> Holds(rem, j, c, key);
    }
    UnifiedStep(ins, rem, rem', out, i, key);
    assert Holds(rem, i, c, key);
    Shorter(rem, rem', i);
  }

  lemma {:induction false} Shorter<T>(rem: seq<seq<T>>, rem': seq<seq<T>>, i: nat)
    requires |rem| == |rem'| && (forall j :: 0 <= j < |rem| ==> |rem'[j]| <= |rem[j]|)
    requires i < |rem| ==> |rem'[i]| < |rem[i]|
    ensures Length(rem') <= Length(rem)
    ensures i < |rem| ==> Length(rem') < Length(rem)
  {
    if rem != [] {
      Shorter(rem[1..], rem'[1..], if i == 0 then |rem| else i - 1);
    }
  }

  /** The merge with unification of strictly increasing streams: every key is written once, and
      its record is merged from the records of all streams that have it, in stream order. */
  method MergeUnify<T>(ins: seq<seq<T>>, key: T -> int) returns (out: seq<seq<T>>)
    requires forall j :: 0 <= j < |ins| ==> Strict(ins[j], key)
    ensures Groups(ins, out, key)
    ensures forall c :: Gather(ins, c, key) == [] || Gather(ins, c, key) in out
  {
    hide Unified, Gather, Filter, Groups, TreeOk, Length, Pow2, HitsBefore, MovedOn, Strict, From;
    var tree, n2, kv;
    ghost var h;
    tree, n2, kv, h := Load(ins, key);
    out := [];
    var rem := ins;
    UnifiedStart(ins, key);
    RootBelow(tree[..], n2, kv);
    while tree[1].i >= 0
      invariant n2 == Pow2(h) && tree.Length == 2 * n2 && fresh(tree)
      invariant TreeOk(tree[..], n2, kv) && Loaded(tree[..], n2, kv, rem, key)
      invariant Unified(ins, rem, out, key) && tree[1].i < |rem|
      decreases Length(rem)
    {
      RootKnows(tree[..], n2, kv, h);
      var i := tree[1].i;
      if !tree[1].eq {
        AloneStep(ins, rem, out, i, key);
        LengthTake(rem, i);
        out := out + [[rem[i][0]]];
        rem := rem[i := rem[i][1..]];
        ghost var kv0 := kv;
        if rem[i] != [] {
          kv := kv[i := key(rem[i][0])];
          SetLeaf(tree, n2, kv0, kv, i, i, h);
        } else {
          SetLeaf(tree, n2, kv0, kv, i, -1, h);
        }
      } else {
        UnifiedFrom(ins, rem, out, i, key);
        var hits, group := Collect(tree, n2, kv, rem, i, key, h);
        ghost var rem0 := rem;
        kv, rem := Reload(tree, n2, kv, rem, hits, key(rem[i][0]), key, h);
        GroupStep(ins, rem0, rem, out, i, hits, key);
        out := out + [group];
      }
      RootBelow(tree[..], n2, kv);
    }
    RootKnows(tree[..], n2, kv, h);
    UnifiedEnd(ins, rem, out, key);
  }

  lemma UnifiedFrom<T>(ins: seq<seq<T>>, rem: seq<seq<T>>, out: seq<seq<T>>, i: nat, key: T -> int)
    requires Unified(ins, rem, out, key) && Lowest(rem, i, key)
    ensures From(rem, key(rem[i][0]), key)
  {
    LowestFrom(rem, i, key);
  }
}
