/** The multi-way merge of generic/sorter/s-multiway.h, plain and with unification. */
module Multiway {
  import opened Basics
  import opened Ordering
  import opened Tournament

  /** The records of `s` with key `c`, in order. */
  ghost function Filter<T>(s: seq<T>, c: int, key: T -> int): seq<T> {
    if s == [] then [] else (if key(s[0]) == c then [s[0]] else []) + Filter(s[1..], c, key)
  }

  /** The records with key `c` of all streams, stream by stream. */
  ghost function Gather<T>(ins: seq<seq<T>>, c: int, key: T -> int): seq<T> {
    if ins == [] then [] else Filter(ins[0], c, key) + Gather(ins[1..], c, key)
  }

  lemma {:induction false} FilterAppend<T>(s: seq<T>, x: T, c: int, key: T -> int)
    ensures Filter(s + [x], c, key) == Filter(s, c, key) + (if key(x) == c then [x] else [])
  {
    if s == [] {
      assert s + [x] == [x] && [x][1..] == [];
    } else {
      FilterAppend(s[1..], x, c, key);
      assert (s + [x])[1..] == s[1..] + [x];
    }
  }

  lemma {:induction false} FilterNone<T>(s: seq<T>, c: int, key: T -> int)
    requires forall i :: 0 <= i < |s| ==> key(s[i]) != c
    ensures Filter(s, c, key) == []
  {
    if s != [] {
      FilterNone(s[1..], c, key);
    }
  }

  /** Taking the head of stream `i` takes the first record with its key, if earlier streams
      have none. */
  lemma {:induction false} GatherTake<T>(ins: seq<seq<T>>, i: nat, c: int, key: T -> int)
    requires i < |ins| && ins[i] != []
    requires forall j :: 0 <= j < i ==> Filter(ins[j], key(ins[i][0]), key) == []
    ensures Gather(ins, c, key) ==
      (if key(ins[i][0]) == c then [ins[i][0]] else []) + Gather(ins[i := ins[i][1..]], c, key)
  {
    var rest := ins[i := ins[i][1..]];
    if i == 0 {
      assert rest[1..] == ins[1..];
    } else {
      GatherTake(ins[1..], i - 1, c, key);
      assert rest[1..] == ins[1..][i - 1 := ins[i][1..]] && rest[0] == ins[0];
      if key(ins[i][0]) == c {
        assert Filter(ins[0], c, key) == [];
      }
    }
  }

  lemma {:induction false} AllTake<T>(ins: seq<seq<T>>, i: nat)
    requires i < |ins| && ins[i] != []
    ensures All(ins) == multiset{ins[i][0]} + All(ins[i := ins[i][1..]])
  {
    if i == 0 {
      assert ins[0] == [ins[0][0]] + ins[0][1..];
      assert ins[0 := ins[0][1..]][1..] == ins[1..];
    } else {
      AllTake(ins[1..], i - 1);
      assert ins[i := ins[i][1..]][1..] == ins[1..][i - 1 := ins[i][1..]];
    }
  }

  lemma {:induction false} GatherEmpty<T>(ins: seq<seq<T>>, c: int, key: T -> int)
    requires forall j :: 0 <= j < |ins| ==> ins[j] == []
    ensures Gather(ins, c, key) == [] && All(ins) == multiset{}
  {
    if ins != [] {
      GatherEmpty(ins[1..], c, key);
    }
  }

  /** The live leaves are the streams that still have records, each with its head's key. */
  ghost predicate Loaded<T>(tree: seq<Node>, n2: nat, kv: seq<int>, rem: seq<seq<T>>, key: T -> int) {
    && |kv| == |rem| <= n2 && |tree| == 2 * n2
    && forall j :: 0 <= j < |rem| ==>
         (Live(tree, n2, j) <==> rem[j] != []) && (rem[j] != [] ==> kv[j] == key(rem[j][0]))
  }

  /** Leaves of the tree: the next power of two. */
  method LeafCount(numIns: nat) returns (n2: nat, ghost h: nat)
    ensures n2 == Pow2(h) && numIns <= n2
  {
    n2, h := 1, 0;
    while n2 < numIns
      invariant n2 == Pow2(h)
      decreases numIns - n2
    {
      n2, h := 2 * n2, h + 1;
    }
  }

  /** Builds the tree and reads the first key of every stream. */
  method Load<T>(ins: seq<seq<T>>, key: T -> int) returns (tree: array<Node>, n2: nat, kv: seq<int>, ghost h: nat)
    ensures fresh(tree) && n2 == Pow2(h) && tree.Length == 2 * n2
    ensures TreeOk(tree[..], n2, kv) && Loaded(tree[..], n2, kv, ins, key)
  {
    n2, h := LeafCount(|ins|);
    tree := new Node[2 * n2](i => Node(-1, false));
    kv := seq(|ins|, i => 0);
    EmptyTreeOk(tree[..], n2, kv);
    var i := 0;
    while i < |ins|
      invariant 0 <= i <= |ins| == |kv| && n2 == Pow2(h) && tree.Length == 2 * n2 && |ins| <= n2 && fresh(tree)
      invariant TreeOk(tree[..], n2, kv)
      invariant forall j :: 0 <= j < i ==>
        (Live(tree[..], n2, j) <==> ins[j] != []) && (ins[j] != [] ==> kv[j] == key(ins[j][0]))
      invariant forall j :: i <= j < |ins| ==> !Live(tree[..], n2, j)
    {
      if ins[i] != [] {
        ghost var kv0 := kv;
        kv := kv[i := key(ins[i][0])];
        SetLeaf(tree, n2, kv0, kv, i, i, h);
      }
      i := i + 1;
    }
  }

  /** Every key's records: those written, then those still to come, stream by stream. */
  ghost predicate Stable<T>(ins: seq<seq<T>>, rem: seq<seq<T>>, out: seq<T>, key: T -> int) {
    forall c :: Gather(ins, c, key) == Filter(out, c, key) + Gather(rem, c, key)
  }

  /** The output is sorted and below everything that is still to come. */
  ghost predicate Ascending<T>(rem: seq<seq<T>>, out: seq<T>, key: T -> int) {
    && Sorted(out, key) && (forall j :: 0 <= j < |rem| ==> Sorted(rem[j], key))
    && (out != [] ==> forall j :: 0 <= j < |rem| && rem[j] != [] ==> key(out[|out| - 1]) <= key(rem[j][0]))
  }

  ghost predicate Halfway<T>(ins: seq<seq<T>>, rem: seq<seq<T>>, out: seq<T>, key: T -> int) {
    All(ins) == multiset(out) + All(rem) && Stable(ins, rem, out, key) && Ascending(rem, out, key)
  }

  /** `i` is the lowest stream with the lowest head. */
  ghost predicate Lowest<T>(rem: seq<seq<T>>, i: nat, key: T -> int) {
    && i < |rem| && rem[i] != []
    && forall j :: 0 <= j < |rem| && rem[j] != [] ==>
      key(rem[i][0]) < key(rem[j][0]) || (key(rem[i][0]) == key(rem[j][0]) && i <= j)
  }

  lemma StableStep<T>(ins: seq<seq<T>>, rem: seq<seq<T>>, out: seq<T>, i: nat, key: T -> int)
    requires Stable(ins, rem, out, key) && Lowest(rem, i, key) && forall j :: 0 <= j < |rem| ==> Sorted(rem[j], key)
    ensures Stable(ins, rem[i := rem[i][1..]], out + [rem[i][0]], key)
  {
    var x := rem[i][0];
    forall j | 0 <= j < i ensures Filter(rem[j], key(x), key) == [] {
      FilterNone(rem[j], key(x), key);
    }
    var rem', out' := rem[i := rem[i][1..]], out + [x];
    forall c ensures Gather(ins, c, key) == Filter(out', c, key) + Gather(rem', c, key) {
      hide Filter, Gather;
      GatherTake(rem, i, c, key);
      FilterAppend(out, x, c, key);
      assert Filter(out', c, key) + Gather(rem', c, key) == Filter(out, c, key) + Gather(rem, c, key);
    }
  }

  lemma AscendingStep<T>(rem: seq<seq<T>>, out: seq<T>, i: nat, key: T -> int)
    requires Ascending(rem, out, key) && Lowest(rem, i, key)
    ensures Ascending(rem[i := rem[i][1..]], out + [rem[i][0]], key)
  {
  }

  /** Writing the head of the lowest stream with the lowest key keeps the merge stable. */
  lemma HalfwayStep<T>(ins: seq<seq<T>>, rem: seq<seq<T>>, out: seq<T>, i: nat, key: T -> int)
    requires Halfway(ins, rem, out, key) && Lowest(rem, i, key)
    ensures Halfway(ins, rem[i := rem[i][1..]], out + [rem[i][0]], key)
  {
    hide Stable, Lowest;
    StableStep(ins, rem, out, i, key);
    AscendingStep(rem, out, i, key);
    Lowest0(rem, i, key);
    AllTake(rem, i);
  }

  lemma Lowest0<T>(rem: seq<seq<T>>, i: nat, key: T -> int)
    requires Lowest(rem, i, key)
    ensures i < |rem| && rem[i] != []
  {
  }

  lemma HalfwayStart<T>(ins: seq<seq<T>>, key: T -> int)
    requires forall j :: 0 <= j < |ins| ==> Sorted(ins[j], key)
    ensures Halfway(ins, ins, [], key)
  {
  }

  lemma HalfwayEnd<T>(ins: seq<seq<T>>, rem: seq<seq<T>>, out: seq<T>, key: T -> int)
    requires Halfway(ins, rem, out, key) && forall j :: 0 <= j < |rem| ==> rem[j] == []
    ensures Sorted(out, key) && multiset(out) == All(ins) && forall c :: Filter(out, c, key) == Gather(ins, c, key)
  {
    forall c ensures Filter(out, c, key) == Gather(ins, c, key) {
      assert Gather(ins, c, key) == Filter(out, c, key) + Gather(rem, c, key);
      GatherEmpty(rem, c, key);
    }
    GatherEmpty(rem, 0, key);
  }

  ghost function Length<T>(rem: seq<seq<T>>): nat {
    if rem == [] then 0 else |rem[0]| + Length(rem[1..])
  }

  lemma {:induction false} LengthTake<T>(rem: seq<seq<T>>, i: nat)
    requires i < |rem| && rem[i] != []
    ensures Length(rem[i := rem[i][1..]]) == Length(rem) - 1
  {
    if i == 0 {
      assert rem[0 := rem[0][1..]][1..] == rem[1..];
    } else {
      LengthTake(rem[1..], i - 1);
      assert rem[i := rem[i][1..]][1..] == rem[1..][i - 1 := rem[i][1..]];
    }
  }

  /** The plain merge of sorted streams: sorted, nothing lost, and stable: records with equal
      keys come in the order of their streams. */
  method Merge<T>(ins: seq<seq<T>>, key: T -> int) returns (out: seq<T>)
    requires forall j :: 0 <= j < |ins| ==> Sorted(ins[j], key)
    ensures Sorted(out, key) && multiset(out) == All(ins)
    ensures forall c :: Filter(out, c, key) == Gather(ins, c, key)
  {
    hide Halfway, Filter, Gather, All, TreeOk, Length, Pow2;
    var tree, n2, kv;
    ghost var h;
    tree, n2, kv, h := Load(ins, key);
    out := [];
    var rem := ins;
    HalfwayStart(ins, key);
    RootBelow(tree[..], n2, kv);
    while tree[1].i >= 0
      invariant n2 == Pow2(h) && tree.Length == 2 * n2 && fresh(tree)
      invariant TreeOk(tree[..], n2, kv) && Loaded(tree[..], n2, kv, rem, key)
      invariant Halfway(ins, rem, out, key) && tree[1].i < |rem|
      decreases Length(rem)
    {
      RootKnows(tree[..], n2, kv, h);
      var i := tree[1].i;
      HalfwayStep(ins, rem, out, i, key);
      LengthTake(rem, i);
      out := out + [rem[i][0]];
      rem := rem[i := rem[i][1..]];
      ghost var kv0 := kv;
      if rem[i] != [] {
        kv := kv[i := key(rem[i][0])];
        SetLeaf(tree, n2, kv0, kv, i, i, h);
      } else {
        SetLeaf(tree, n2, kv0, kv, i, -1, h);
      }
      RootBelow(tree[..], n2, kv);
    }
    RootKnows(tree[..], n2, kv, h);
    HalfwayEnd(ins, rem, out, key);
  }

  lemma RootBelow(tree: seq<Node>, n2: nat, kv: seq<int>)
    requires TreeOk(tree, n2, kv)
    ensures |tree| >= 2 && tree[1].i < |kv|
  {
  }
}
