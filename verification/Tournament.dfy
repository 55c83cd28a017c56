/** The tournament tree of generic/sorter/s-multiway.h: leaves are input streams, and every
    inner vertex remembers the leaf of its subtree with the lowest key. */
module Tournament {
  import opened Basics

  /** `i` is a stream or negative for none; `eq` says whether the lowest key occurs twice. */
  datatype Node = Node(i: int, eq: bool)

  /** The better of two children; the left one wins ties. */
  function Winner(l: Node, r: Node, kv: seq<int>): (w: Node)
    requires l.i < |kv| && r.i < |kv|
    ensures w.i == l.i || w.i == r.i
  {
    if l.i < 0 then r
    else if r.i < 0 then l
    else if kv[l.i] < kv[r.i] then l
    else if kv[l.i] == kv[r.i] then l.(eq := true)
    else r
  }

  ghost predicate InRange(tree: seq<Node>, n2: nat, kv: seq<int>) {
    && n2 >= 1 && |tree| == 2 * n2 && |kv| <= n2
    && (forall v :: 1 <= v < 2 * n2 ==> tree[v].i < |kv|)
    && (forall u :: n2 <= u < 2 * n2 ==> (tree[u].i < 0 || tree[u].i == u - n2) && !tree[u].eq)
  }

  ghost predicate NodeOk(tree: seq<Node>, n2: nat, kv: seq<int>, v: nat)
    requires InRange(tree, n2, kv) && 1 <= v < n2
  {
    tree[v] == Winner(tree[2 * v], tree[2 * v + 1], kv)
  }

  ghost predicate TreeOk(tree: seq<Node>, n2: nat, kv: seq<int>) {
    InRange(tree, n2, kv) && forall v :: 1 <= v < n2 ==> NodeOk(tree, n2, kv, v)
  }

  /** `x` is a proper ancestor of `c`. */
  ghost predicate Above(x: nat, c: nat) {
    c > 1 && (c / 2 == x || Above(x, c / 2))
  }

  /** All vertices are in order except possibly the ancestors of `c`. */
  ghost predicate OkExceptAbove(tree: seq<Node>, n2: nat, kv: seq<int>, c: nat) {
    InRange(tree, n2, kv) && forall v :: 1 <= v < n2 && !Above(v, c) ==> NodeOk(tree, n2, kv, v)
  }

  lemma OkAtRoot(tree: seq<Node>, n2: nat, kv: seq<int>)
    requires OkExceptAbove(tree, n2, kv, 1)
    ensures TreeOk(tree, n2, kv)
  {
  }

  /** Recomputing the parent of `c` moves the exception one level up. */
  lemma RepairParent(tree: seq<Node>, tree': seq<Node>, n2: nat, kv: seq<int>, c: nat)
    requires OkExceptAbove(tree, n2, kv, c) && 2 <= c < 2 * n2
    requires tree' == tree[c / 2 := Winner(tree[2 * (c / 2)], tree[2 * (c / 2) + 1], kv)]
    ensures OkExceptAbove(tree', n2, kv, c / 2)
  {
    var p := c / 2;
    assert InRange(tree', n2, kv);
    forall v | 1 <= v < n2 && !Above(v, p) ensures NodeOk(tree', n2, kv, v) {
      if v != p {
        assert NodeOk(tree, n2, kv, v);
        assert p / 2 != v || p <= 1;
      }
    }
  }

  /** Walks from a leaf to the root and recomputes every vertex on the way. */
  method UpdateTree(tree: array<Node>, n2: nat, kv: seq<int>, leaf: nat)
    requires n2 <= leaf < 2 * n2 == tree.Length && OkExceptAbove(tree[..], n2, kv, leaf)
    modifies tree
    ensures TreeOk(tree[..], n2, kv)
    ensures forall u :: n2 <= u < 2 * n2 ==> tree[u] == old(tree[u])
  {
    var i := leaf;
    while i / 2 != 0
      invariant 1 <= i < 2 * n2 && OkExceptAbove(tree[..], n2, kv, i)
      invariant forall u :: n2 <= u < 2 * n2 ==> tree[u] == old(tree[u])
    {
      ghost var t, c := tree[..], i;
      i := i / 2;
      if tree[2 * i].i < 0 {
        tree[i] := tree[2 * i + 1];
      } else if tree[2 * i + 1].i < 0 {
        tree[i] := tree[2 * i];
      } else {
        var cmp := kv[tree[2 * i].i] - kv[tree[2 * i + 1].i];
        tree[i] := if cmp <= 0 then tree[2 * i] else tree[2 * i + 1];
        if cmp == 0 {
          tree[i] := tree[i].(eq := true);
        }
      }
      assert tree[..] == t[i := Winner(t[2 * i], t[2 * i + 1], kv)];
      RepairParent(t, tree[..], n2, kv, c);
    }
    OkAtRoot(tree[..], n2, kv);
  }

  /** The ancestor of `u` that is `k` levels up. */
  ghost function Up(u: nat, k: nat): nat {
    if k == 0 then u else Up(u, k - 1) / 2
  }

  lemma {:induction false} UpMono(u: nat, v: nat, k: nat)
    requires u <= v
    ensures Up(u, k) <= Up(v, k)
  {
    if k > 0 {
      UpMono(u, v, k - 1);
    }
  }

  lemma {:induction false} UpAbove(u: nat, k: nat)
    requires k >= 1 && Up(u, k) >= 1
    ensures Above(Up(u, k), u)
  {
    if k > 1 {
      UpAbove(u, k - 1);
      AboveChain(Up(u, k - 1), u);
    }
  }

  lemma {:induction false} AboveChain(x: nat, c: nat)
    requires Above(x, c) && x > 1
    ensures Above(x / 2, c)
  {
    if c / 2 != x {
      AboveChain(x, c / 2);
    }
  }

  /** All leaves are `h` levels below the root. */
  lemma {:induction false} UpRange(u: nat, h: nat, k: nat)
    requires k <= h && Pow2(h) <= u < 2 * Pow2(h)
    ensures Pow2(h - k) <= Up(u, k) < 2 * Pow2(h - k)
  {
    if k > 0 {
      UpRange(u, h, k - 1);
    }
  }

  ghost predicate Live(tree: seq<Node>, n2: nat, j: nat)
    requires j < n2 && |tree| == 2 * n2
  {
    tree[n2 + j].i == j
  }

  /** Stream `j` is a leaf of the subtree of `v`, `k` levels below it. */
  ghost predicate In(n2: nat, v: nat, k: nat, j: nat) {
    Up(n2 + j, k) == v
  }

  /** What vertex `v`, `k` levels above the leaves, knows about its subtree: the lowest live
      stream with the lowest key, and whether that key occurs more than once. */
  ghost predicate Knows(tree: seq<Node>, n2: nat, kv: seq<int>, v: nat, k: nat)
    requires InRange(tree, n2, kv) && 1 <= v < 2 * n2
  {
    var w := tree[v];
    if w.i < 0 then forall j :: 0 <= j < |kv| && In(n2, v, k, j) ==> !Live(tree, n2, j)
    else
      && In(n2, v, k, w.i) && Live(tree, n2, w.i)
      && (forall j :: 0 <= j < |kv| && In(n2, v, k, j) && Live(tree, n2, j) ==>
           kv[w.i] < kv[j] || (kv[w.i] == kv[j] && w.i <= j))
      && (w.eq <==> exists j :: 0 <= j < |kv| && In(n2, v, k, j) && Live(tree, n2, j) && j != w.i && kv[j] == kv[w.i])
  }

  /** Leaves of the left subtree come before leaves of the right one. */
  lemma LeftBeforeRight(n2: nat, v: nat, k: nat, i: nat, j: nat)
    requires In(n2, 2 * v, k, i) && In(n2, 2 * v + 1, k, j)
    ensures i < j
  {
    if j <= i {
      UpMono(n2 + j, n2 + i, k);
    }
  }

  /** What the children know determines what the winner knows. */
  lemma KnowsParent(tree: seq<Node>, n2: nat, kv: seq<int>, v: nat, k: nat)
    requires InRange(tree, n2, kv) && 1 <= v < n2 && NodeOk(tree, n2, kv, v)
    requires Knows(tree, n2, kv, 2 * v, k) && Knows(tree, n2, kv, 2 * v + 1, k)
    ensures Knows(tree, n2, kv, v, k + 1)
  {
    var l, r, w := tree[2 * v], tree[2 * v + 1], tree[v];
    forall j | 0 <= j < |kv| ensures In(n2, v, k + 1, j) <==> In(n2, 2 * v, k, j) || In(n2, 2 * v + 1, k, j) {
    }
    if l.i >= 0 && r.i >= 0 {
      LeftBeforeRight(n2, v, k, l.i, r.i);
    }
  }

  lemma LeafKnows(tree: seq<Node>, n2: nat, kv: seq<int>, v: nat)
    requires TreeOk(tree, n2, kv) && 1 <= n2 <= v < 2 * n2
    ensures Knows(tree, n2, kv, v, 0)
  {
  }

  lemma {:induction false} VertexKnows(tree: seq<Node>, n2: nat, kv: seq<int>, h: nat, v: nat, k: nat)
    requires TreeOk(tree, n2, kv) && n2 == Pow2(h) && k <= h && Pow2(h - k) <= v < 2 * Pow2(h - k)
    ensures v < 2 * n2 && Knows(tree, n2, kv, v, k)
    decreases k
  {
    hide Knows;
    if k == 0 {
      LeafKnows(tree, n2, kv, v);
    } else {
      Pow2Mono(h - k, h - 1);
      VertexKnows(tree, n2, kv, h, 2 * v, k - 1);
      VertexKnows(tree, n2, kv, h, 2 * v + 1, k - 1);
      KnowsParent(tree, n2, kv, v, k - 1);
    }
  }

  lemma {:induction false} Pow2Mono(c: nat, d: nat)
    requires c <= d
    ensures Pow2(c) <= Pow2(d)
    decreases d
  {
    if c < d {
      Pow2Mono(c, d - 1);
    }
  }

  /** The root names the lowest live stream with the lowest key, and `eq` holds exactly when
      another live stream has the same key. */
  lemma RootKnows(tree: seq<Node>, n2: nat, kv: seq<int>, h: nat)
    requires TreeOk(tree, n2, kv) && n2 == Pow2(h)
    ensures tree[1].i < 0 ==> forall j :: 0 <= j < |kv| ==> !Live(tree, n2, j)
    ensures tree[1].i >= 0 ==>
      && Live(tree, n2, tree[1].i)
      && (forall j :: 0 <= j < |kv| && Live(tree, n2, j) ==>
           kv[tree[1].i] < kv[j] || (kv[tree[1].i] == kv[j] && tree[1].i <= j))
      && (tree[1].eq <==> exists j :: 0 <= j < |kv| && Live(tree, n2, j) && j != tree[1].i && kv[j] == kv[tree[1].i])
  {
    VertexKnows(tree, n2, kv, h, 1, h);
    forall j | 0 <= j < |kv| ensures In(n2, 1, h, j) {
      UpRange(n2 + j, h, h);
    }
  }

  lemma HeightOf(v: nat, h: nat) returns (k: nat)
    requires 1 <= v < 2 * Pow2(h)
    ensures k <= h && Pow2(h - k) <= v < 2 * Pow2(h - k)
  {
    k := 0;
    while v < Pow2(h - k)
      invariant k <= h && v < 2 * Pow2(h - k)
      decreases h - k
    {
      k := k + 1;
    }
  }

  /** The stream named at `v` is a leaf below `v`. */
  lemma NamedBelow(tree: seq<Node>, n2: nat, kv: seq<int>, h: nat, v: nat, j: nat)
    requires TreeOk(tree, n2, kv) && n2 == Pow2(h) && 1 <= v < 2 * n2 && tree[v].i == j
    ensures v == n2 + j || Above(v, n2 + j)
  {
    var k := HeightOf(v, h);
    VertexKnows(tree, n2, kv, h, v, k);
    if k > 0 {
      UpAbove(n2 + j, k);
    }
  }

  /** Changing one leaf and its key disturbs only the ancestors of that leaf. */
  lemma LeafChange(tree: seq<Node>, tree': seq<Node>, n2: nat, kv: seq<int>, kv': seq<int>, h: nat, j: nat)
    requires TreeOk(tree, n2, kv) && n2 == Pow2(h) && j < |kv| == |kv'|
    requires forall i :: 0 <= i < |kv| && i != j ==> kv'[i] == kv[i]
    requires |tree'| == |tree| && forall u :: 0 <= u < |tree| && u != n2 + j ==> tree'[u] == tree[u]
    requires (tree'[n2 + j].i == j || tree'[n2 + j].i == -1) && !tree'[n2 + j].eq
    ensures OkExceptAbove(tree', n2, kv', n2 + j)
  {
    forall v | 1 <= v < n2 && !Above(v, n2 + j) ensures NodeOk(tree', n2, kv', v) {
      assert NodeOk(tree, n2, kv, v);
      forall c | c == 2 * v || c == 2 * v + 1 ensures tree'[c] == tree[c] && tree[c].i != j {
        if tree[c].i == j {
          NamedBelow(tree, n2, kv, h, c, j);
          if Above(c, n2 + j) {
            AboveChain(c, n2 + j);
          }
        }
      }
    }
  }

  lemma EmptyTreeOk(tree: seq<Node>, n2: nat, kv: seq<int>)
    requires n2 >= 1 && |tree| == 2 * n2 && |kv| <= n2 && forall v :: 0 <= v < |tree| ==> tree[v] == Node(-1, false)
    ensures TreeOk(tree, n2, kv)
  {
  }

  /** Sets a leaf and recomputes the path to the root. `kv` already holds the new key. */
  method SetLeaf(tree: array<Node>, n2: nat, ghost kv0: seq<int>, kv: seq<int>, j: nat, val: int, ghost h: nat)
    requires n2 == Pow2(h) && tree.Length == 2 * n2 && TreeOk(tree[..], n2, kv0) && j < |kv0| == |kv|
    requires forall i :: 0 <= i < |kv| && i != j ==> kv[i] == kv0[i]
    requires val == j || val == -1
    modifies tree
    ensures TreeOk(tree[..], n2, kv)
    ensures Live(tree[..], n2, j) <==> val == j
    ensures forall i :: 0 <= i < |kv| && i != j ==> (Live(tree[..], n2, i) <==> old(Live(tree[..], n2, i)))
  {
    ghost var t := tree[..];
    tree[n2 + j] := tree[n2 + j].(i := val);
    LeafChange(t, tree[..], n2, kv0, kv, h, j);
    UpdateTree(tree, n2, kv, n2 + j);
  }
}
