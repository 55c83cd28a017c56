/** The layout of a memory pool (mem/pool.c, mem/pool.h): chains of chunks, the blocks carved
    from them, and the stack of saved states. An address is a chunk and an offset in it. */
module PoolLayout {

  const ALIGN := 8            // CPU_STRUCT_ALIGN
  const CHUNK_TAIL := 16      // the trailer behind each chunk
  const POOL_STRUCT := 64     // sizeof(struct mempool)
  const STATE_STRUCT := 32    // sizeof(struct mempool_state)
  const SIZE_MAX := 0xFFFF_FFFF - CHUNK_TAIL - 4096
  const CHUNK_MAX := 0xFFFF_FFFF - CHUNK_TAIL

  function AlignUp(n: nat): (r: nat)
    ensures n <= r < n + ALIGN && r % ALIGN == 0
  {
    AlignDown(n + ALIGN - 1)
  }

  function AlignDown(n: nat): (r: nat)
    ensures n - ALIGN < r <= n && r % ALIGN == 0
  {
    n - n % ALIGN
  }

  /** The bytes of each chunk, without its trailer. */
  type Heap = map<nat, seq<int>>

  /** The common size of small chunks, and the chunk that holds the pool's own structure. */
  datatype Shape = Shape(chunkSize: nat, home: nat)

  /** Free bytes at the end of the first chunk of the small (0) and the big (1) chain, and the
      chains, newest chunk first. */
  datatype State = State(free0: nat, free1: nat, last0: seq<nat>, last1: seq<nat>)

  datatype Block = Block(chunk: nat, off: nat, len: nat)

  /** What there was when a state was saved. */
  datatype Snap = Snap(st: State, live: seq<Block>)

  datatype World = World(st: State, unused: seq<nat>, heap: Heap, live: seq<Block>, snaps: seq<Snap>)

  /** Every chunk is in exactly one of the three chains, and its size does not wrap around. */
  ghost predicate Chained(k: Shape, last0: seq<nat>, last1: seq<nat>, unused: seq<nat>, heap: Heap) {
    && multiset(last0) + multiset(last1) + multiset(unused) == multiset(heap.Keys)
    && last0 != [] && last0[|last0| - 1] == k.home
    && (forall c :: c in last0 || c in unused ==> c in heap && |heap[c]| == k.chunkSize)
    && (forall c :: c in heap ==> |heap[c]| % ALIGN == 0 && |heap[c]| <= CHUNK_MAX)
  }

  ghost predicate Room(k: Shape, st: State, heap: Heap) {
    && st.last0 != [] && k.chunkSize >= POOL_STRUCT
    && st.free0 <= (if |st.last0| == 1 then k.chunkSize - POOL_STRUCT else k.chunkSize)
    && (if st.last1 == [] then st.free1 == 0 else st.last1[0] in heap && st.free1 <= |heap[st.last1[0]]|)
  }

  /** A block lies inside a chunk, clear of its free end and of the pool's own structure. */
  ghost predicate Fits(b: Block, k: Shape, st: State, heap: Heap) {
    && (b.chunk in st.last0 || b.chunk in st.last1)
    && b.chunk in heap && b.off + b.len <= |heap[b.chunk]|
    && (st.last0 != [] && b.chunk == st.last0[0] ==> b.off + b.len + st.free0 <= |heap[b.chunk]|)
    && (st.last1 != [] && b.chunk == st.last1[0] ==> b.len + st.free1 <= |heap[b.chunk]|)
    && (b.chunk in st.last1 ==> b.off == 0)
    && (b.chunk == k.home ==> b.off >= POOL_STRUCT)
  }

  ghost predicate Placed(live: seq<Block>, k: Shape, st: State, heap: Heap) {
    forall i :: 0 <= i < |live| ==> Fits(live[i], k, st, heap)
  }

  /** Two blocks, the older first, share no byte, and no big chunk. */
  ghost predicate Clear(b: Block, c: Block, big: seq<nat>) {
    b.chunk == c.chunk ==> b.chunk !in big && b.off + b.len <= c.off
  }

  ghost predicate Disjoint(live: seq<Block>, big: seq<nat>) {
    forall i, j :: 0 <= i < j < |live| ==> Clear(live[i], live[j], big)
  }

  ghost predicate Suffix(s: seq<nat>, t: seq<nat>) {
    |s| <= |t| && t[|t| - |s|..] == s
  }

  /** What a saved state relies on is still there, and later blocks stay out of its big chunks. */
  ghost predicate Below(s: Snap, k: Shape, w: World) {
    && Suffix(s.st.last0, w.st.last0) && Suffix(s.st.last1, w.st.last1) && s.live <= w.live
    && Room(k, s.st, w.heap) && Placed(s.live, k, s.st, w.heap)
    && forall i :: |s.live| <= i < |w.live| ==> w.live[i].chunk !in s.st.last1
  }

  predicate Older(s: Snap, t: Snap) {
    |s.live| <= |t.live| && |s.st.last0| <= |t.st.last0| && |s.st.last1| <= |t.st.last1|
  }

  ghost predicate Stacked(k: Shape, w: World) {
    && (forall i :: 0 <= i < |w.snaps| ==> Below(w.snaps[i], k, w))
    && (forall i, j :: 0 <= i < j < |w.snaps| ==> Older(w.snaps[i], w.snaps[j]))
  }

  ghost predicate Inv(k: Shape, w: World) {
    && Chained(k, w.st.last0, w.st.last1, w.unused, w.heap)
    && Room(k, w.st, w.heap)
    && Placed(w.live, k, w.st, w.heap)
    && Disjoint(w.live, w.st.last1)
    && Stacked(k, w)
  }

  ghost predicate NoneIn(live: seq<Block>, c: nat) {
    forall i :: 0 <= i < |live| ==> live[i].chunk != c
  }

  ghost predicate NotSaved(snaps: seq<Snap>, c: nat) {
    forall i :: 0 <= i < |snaps| ==> c !in snaps[i].st.last1
  }

  function Bytes(heap: Heap, b: Block): (s: seq<int>)
    requires b.chunk in heap && b.off + b.len <= |heap[b.chunk]|
  {
    heap[b.chunk][b.off..b.off + b.len]
  }

  ghost predicate Kept(b: Block, heap: Heap, heap': Heap) {
    && b.chunk in heap && b.off + b.len <= |heap[b.chunk]|
    && b.chunk in heap' && b.off + b.len <= |heap'[b.chunk]|
    && Bytes(heap, b) == Bytes(heap', b)
  }

  ghost predicate AllKept(live: seq<Block>, heap: Heap, heap': Heap) {
    forall i :: 0 <= i < |live| ==> Kept(live[i], heap, heap')
  }

  /** A chunk occurs once in all the chains together. */
  lemma Once(k: Shape, w: World, c: nat)
    requires Chained(k, w.st.last0, w.st.last1, w.unused, w.heap) && c in w.heap
    ensures multiset(w.st.last0)[c] + multiset(w.st.last1)[c] + multiset(w.unused)[c] == 1
  {
    assert multiset(w.heap.Keys)[c] == 1;
  }

  lemma HeadOnce(s: seq<nat>, i: nat)
    requires i < |s| && multiset(s)[s[0]] == 1
    ensures i > 0 ==> s[i] != s[0]
  {
    assert s == [s[0]] + s[1..];
    if i > 0 {
      assert s[i] in multiset(s[1..]);
    }
  }

  lemma SuffixIn(s: seq<nat>, t: seq<nat>, c: nat)
    requires Suffix(s, t) && c in s
    ensures c in t
  {
    var i :| 0 <= i < |s| && s[i] == c;
    assert t[|t| - |s| + i] == t[|t| - |s|..][i];
  }

  lemma SuffixOf(s: seq<nat>, t: seq<nat>, u: seq<nat>)
    requires Suffix(s, u) && Suffix(t, u) && |s| <= |t|
    ensures Suffix(s, t)
  {
    assert t[|t| - |s|..] == u[|u| - |s|..];
  }

  /** A new first chunk of the small chain, all of it free. */
  lemma AddSmall(k: Shape, w: World, v: World, c: nat)
    requires Inv(k, w) && Chained(k, v.st.last0, v.st.last1, v.unused, v.heap)
    requires v.st == State(k.chunkSize, w.st.free1, [c] + w.st.last0, w.st.last1)
    requires v.live == w.live && v.snaps == w.snaps
    requires forall d :: d in w.heap ==> d in v.heap && v.heap[d] == w.heap[d]
    ensures Inv(k, v) && NoneIn(v.live, c) && AllKept(w.live, w.heap, v.heap)
  {
    Once(k, v, c);
    assert multiset(v.st.last0)[c] == 1 + multiset(w.st.last0)[c];
    forall i | 0 <= i < |w.live| ensures Fits(v.live[i], k, v.st, v.heap) && w.live[i].chunk != c {
      assert Fits(w.live[i], k, w.st, w.heap);
      var d := w.live[i].chunk;
      if d == c {
        assert false;
      }
    }
    forall i | 0 <= i < |w.snaps| ensures Below(v.snaps[i], k, v) {
      assert Below(w.snaps[i], k, w);
      SnapSame(k, w.snaps[i], w.heap, v.heap);
    }
  }

  /** A snapshot depends only on the sizes of chunks. */
  lemma SnapSame(k: Shape, s: Snap, h: Heap, g: Heap)
    requires Room(k, s.st, h) && Placed(s.live, k, s.st, h)
    requires forall c :: c in h && (c in s.st.last0 || c in s.st.last1) ==> c in g && |g[c]| == |h[c]|
    ensures Room(k, s.st, g) && Placed(s.live, k, s.st, g)
  {
    forall i | 0 <= i < |s.live| ensures Fits(s.live[i], k, s.st, g) {
      assert Fits(s.live[i], k, s.st, h);
    }
  }

  /** A new first chunk of the big chain, all of it free. */
  lemma AddBig(k: Shape, w: World, v: World, c: nat)
    requires Inv(k, w) && Chained(k, v.st.last0, v.st.last1, v.unused, v.heap)
    requires c in v.heap && v.st == State(w.st.free0, |v.heap[c]|, w.st.last0, [c] + w.st.last1)
    requires v.live == w.live && v.snaps == w.snaps
    requires forall d :: d in w.heap ==> d in v.heap && v.heap[d] == w.heap[d]
    ensures Inv(k, v) && NoneIn(v.live, c) && NotSaved(v.snaps, c) && AllKept(w.live, w.heap, v.heap)
  {
    Once(k, v, c);
    assert multiset(v.st.last1)[c] == 1 + multiset(w.st.last1)[c];
    forall i | 0 <= i < |w.live| ensures Fits(v.live[i], k, v.st, v.heap) && w.live[i].chunk != c {
      assert Fits(w.live[i], k, w.st, w.heap);
      var d := w.live[i].chunk;
      if d == c {
        assert false;
      }
    }
    forall i, j | 0 <= i < j < |w.live| ensures Clear(w.live[i], w.live[j], v.st.last1) {
      assert Clear(w.live[i], w.live[j], w.st.last1);
    }
    forall i | 0 <= i < |w.snaps| ensures Below(v.snaps[i], k, v) && c !in v.snaps[i].st.last1 {
      var s := w.snaps[i];
      assert Below(s, k, w);
      SnapSame(k, s, w.heap, v.heap);
      if c in s.st.last1 {
        SuffixIn(s.st.last1, w.st.last1, c);
        assert false;
      }
    }
  }

  /** The first chunk of a chain gives up the start of its free part as a new block. */
  lemma TakeSmall(k: Shape, w: World, v: World, avail: nat, len: nat)
    requires Inv(k, w) && len <= avail <= w.st.free0
    requires v == w.(st := w.st.(free0 := avail - len),
                    live := w.live + [Block(w.st.last0[0], k.chunkSize - avail, len)])
    ensures Inv(k, v)
  {
    var b := v.live[|w.live|];
    Once(k, w, b.chunk);
    assert b.chunk in w.st.last0 && b.chunk !in w.st.last1;
    HeadOnce(w.st.last0, |w.st.last0| - 1);
    assert Fits(b, k, v.st, v.heap);
    forall i | 0 <= i < |v.live| ensures Fits(v.live[i], k, v.st, v.heap) {
      assert i < |w.live| ==> Fits(w.live[i], k, w.st, w.heap);
    }
    forall i, j | 0 <= i < j < |v.live| ensures Clear(v.live[i], v.live[j], v.st.last1) {
      assert Fits(w.live[i], k, w.st, w.heap);
      assert j < |w.live| ==> Clear(w.live[i], w.live[j], w.st.last1);
    }
    forall i | 0 <= i < |w.snaps| ensures Below(v.snaps[i], k, v) {
      var s := w.snaps[i];
      assert Below(s, k, w);
      if b.chunk in s.st.last1 {
        SuffixIn(s.st.last1, w.st.last1, b.chunk);
        assert false;
      }
    }
  }

  lemma TakeBig(k: Shape, w: World, v: World, len: nat)
    requires Inv(k, w) && w.st.last1 != [] && len <= w.st.free1 == |w.heap[w.st.last1[0]]|
    requires NoneIn(w.live, w.st.last1[0]) && NotSaved(w.snaps, w.st.last1[0])
    requires v == w.(st := w.st.(free1 := w.st.free1 - len), live := w.live + [Block(w.st.last1[0], 0, len)])
    ensures Inv(k, v)
  {
    var b := v.live[|w.live|];
    Once(k, w, b.chunk);
    assert b.chunk in w.st.last1 && b.chunk !in w.st.last0;
    assert k.home in w.st.last0;
    assert Fits(b, k, v.st, v.heap);
    forall i | 0 <= i < |v.live| ensures Fits(v.live[i], k, v.st, v.heap) {
      assert i < |w.live| ==> Fits(w.live[i], k, w.st, w.heap);
    }
    forall i, j | 0 <= i < j < |v.live| ensures Clear(v.live[i], v.live[j], v.st.last1) {
      assert w.live[i].chunk != b.chunk;
      assert j < |w.live| ==> Clear(w.live[i], w.live[j], w.st.last1);
    }
    forall i | 0 <= i < |w.snaps| ensures Below(v.snaps[i], k, v) {
      assert Below(w.snaps[i], k, w);
    }
  }

  /** The last block may be reopened: it is younger than every save and ends at the free end. */
  ghost predicate Reopenable(w: World, big: bool) {
    && w.live != []
    && (w.snaps != [] ==> |w.snaps[|w.snaps| - 1].live| < |w.live|)
    && var b := w.live[|w.live| - 1];
    if big then
      w.st.last1 != [] && b.chunk == w.st.last1[0] && b.chunk in w.heap && b.len + w.st.free1 == |w.heap[b.chunk]|
    else
      w.st.last0 != [] && b.chunk == w.st.last0[0] && b.chunk in w.heap
      && b.off + b.len + w.st.free0 == |w.heap[b.chunk]|
  }

  /** Reopening the last block gives its bytes back to the free end. */
  lemma Reopen(k: Shape, w: World, v: World, big: bool)
    requires Inv(k, w) && Reopenable(w, big)
    requires var b := w.live[|w.live| - 1];
      v == w.(live := w.live[..|w.live| - 1],
              st := if big then w.st.(free1 := w.st.free1 + b.len) else w.st.(free0 := w.st.free0 + b.len))
    ensures Inv(k, v)
    ensures big ==> NoneIn(v.live, w.st.last1[0]) && NotSaved(v.snaps, w.st.last1[0])
    ensures big ==> v.st.free1 == |v.heap[w.st.last1[0]]|
  {
    var n := |w.live| - 1;
    var b := w.live[n];
    Once(k, w, b.chunk);
    assert Fits(b, k, w.st, w.heap);
    if |w.st.last0| == 1 && !big {
      assert b.chunk == k.home;
    }
    forall i | 0 <= i < n ensures Fits(v.live[i], k, v.st, v.heap) && (big ==> v.live[i].chunk != b.chunk) {
      assert Fits(w.live[i], k, w.st, w.heap);
      assert Clear(w.live[i], w.live[n], w.st.last1);
    }
    forall i, j | 0 <= i < j < n ensures Clear(v.live[i], v.live[j], v.st.last1) {
      assert Clear(w.live[i], w.live[j], w.st.last1);
    }
    forall i | 0 <= i < |w.snaps| ensures Below(v.snaps[i], k, v) && b.chunk !in v.snaps[i].st.last1 {
      var s := w.snaps[i];
      assert Below(s, k, w);
      assert i < |w.snaps| - 1 ==> Older(s, w.snaps[|w.snaps| - 1]);
      assert |s.live| <= n;
      assert w.live[n].chunk !in s.st.last1;
    }
  }

  /** The first big chunk goes away when no block and no saved state needs it. */
  lemma DropBig(k: Shape, w: World, v: World)
    requires Inv(k, w) && w.st.last1 != [] && NoneIn(w.live, w.st.last1[0]) && NotSaved(w.snaps, w.st.last1[0])
    requires v == w.(st := w.st.(free1 := 0, last1 := w.st.last1[1..]), heap := w.heap - {w.st.last1[0]})
    ensures Inv(k, v) && AllKept(v.live, w.heap, v.heap)
  {
    var c := w.st.last1[0];
    Once(k, w, c);
    assert w.st.last1 == [c] + v.st.last1;
    assert multiset(v.heap.Keys) == multiset(w.heap.Keys) - multiset{c};
    forall d | d in v.st.last0 || d in v.unused ensures d in v.heap && |v.heap[d]| == k.chunkSize {
      assert d in w.st.last0 || d in w.unused;
    }
    if v.st.last1 != [] {
      assert v.st.last1[0] in multiset(v.heap.Keys);
    }
    forall i | 0 <= i < |w.live| ensures Fits(v.live[i], k, v.st, v.heap) && Kept(v.live[i], w.heap, v.heap) {
      assert Fits(w.live[i], k, w.st, w.heap) && w.live[i].chunk != c;
    }
    forall i, j | 0 <= i < j < |v.live| ensures Clear(v.live[i], v.live[j], v.st.last1) {
      assert Clear(w.live[i], w.live[j], w.st.last1);
    }
    forall i | 0 <= i < |w.snaps| ensures Below(v.snaps[i], k, v) {
      var s := w.snaps[i];
      assert Below(s, k, w) && c !in s.st.last1;
      assert s.st.last1 != w.st.last1;
      SuffixOf(s.st.last1, v.st.last1, w.st.last1);
      if c in s.st.last0 {
        SuffixIn(s.st.last0, w.st.last0, c);
        assert false;
      }
      SnapSame(k, s, w.heap, v.heap);
    }
  }

  /** Only the bytes of chunks change. */
  lemma Poked(k: Shape, w: World, v: World)
    requires Inv(k, w) && v == w.(heap := v.heap) && v.heap.Keys == w.heap.Keys
    requires forall c :: c in w.heap ==> |v.heap[c]| == |w.heap[c]|
    ensures Inv(k, v)
  {
    forall i | 0 <= i < |w.live| ensures Fits(v.live[i], k, v.st, v.heap) {
      assert Fits(w.live[i], k, w.st, w.heap);
    }
    forall i | 0 <= i < |w.snaps| ensures Below(v.snaps[i], k, v) {
      assert Below(w.snaps[i], k, w);
      SnapSame(k, w.snaps[i], w.heap, v.heap);
    }
  }

  lemma Save(k: Shape, w: World, v: World)
    requires Inv(k, w) && v == w.(snaps := w.snaps + [Snap(w.st, w.live)])
    ensures Inv(k, v)
  {
    forall i | 0 <= i < |v.snaps| ensures Below(v.snaps[i], k, v) {
      assert i < |w.snaps| ==> Below(w.snaps[i], k, w);
    }
    forall i, j | 0 <= i < j < |v.snaps| ensures Older(v.snaps[i], v.snaps[j]) {
      assert Below(w.snaps[i], k, w);
      assert j < |w.snaps| ==> Older(w.snaps[i], w.snaps[j]);
    }
  }

  /** Going back to a saved state, once the chains are cut back to it. */
  lemma Restore(k: Shape, w: World, n: nat, v: World)
    requires Inv(k, w) && n < |w.snaps| && Chained(k, v.st.last0, v.st.last1, v.unused, v.heap)
    requires v.st == w.snaps[n].st && v.live == w.snaps[n].live && v.snaps == w.snaps[..n]
    requires forall c :: c in v.heap ==> c in w.heap && v.heap[c] == w.heap[c]
    ensures Inv(k, v) && AllKept(v.live, w.heap, v.heap)
  {
    var s := w.snaps[n];
    assert Below(s, k, w);
    forall c | c in v.st.last0 || c in v.st.last1 ensures c in v.heap {
      assert c in multiset(v.heap.Keys);
    }
    SnapSame(k, s, w.heap, v.heap);
    forall i, j | 0 <= i < j < |v.live| ensures Clear(v.live[i], v.live[j], v.st.last1) {
      assert Clear(w.live[i], w.live[j], w.st.last1);
      if v.live[i].chunk in v.st.last1 {
        SuffixIn(v.st.last1, w.st.last1, v.live[i].chunk);
      }
    }
    forall i | 0 <= i < |v.live| ensures Kept(v.live[i], w.heap, v.heap) {
      assert Fits(v.live[i], k, v.st, v.heap);
    }
    forall i | 0 <= i < n ensures Below(v.snaps[i], k, v) {
      RestoreOne(k, w, n, v, i);
    }
  }

  lemma RestoreOne(k: Shape, w: World, n: nat, v: World, i: nat)
    requires Inv(k, w) && i < n < |w.snaps|
    requires v.st == w.snaps[n].st && v.live == w.snaps[n].live
    requires forall c :: c in v.heap ==> c in w.heap && v.heap[c] == w.heap[c]
    requires forall c :: c in v.st.last0 || c in v.st.last1 ==> c in v.heap
    ensures Below(w.snaps[i], k, v)
  {
    var s, t := w.snaps[i], w.snaps[n];
    assert Below(s, k, w) && Below(t, k, w) && Older(s, t);
    SuffixOf(s.st.last0, t.st.last0, w.st.last0);
    SuffixOf(s.st.last1, t.st.last1, w.st.last1);
    forall c | c in s.st.last0 || c in s.st.last1 ensures c in v.heap {
      if c in s.st.last0 {
        SuffixIn(s.st.last0, t.st.last0, c);
      } else {
        SuffixIn(s.st.last1, t.st.last1, c);
      }
    }
    SnapSame(k, s, w.heap, v.heap);
  }

  /** An unused chunk becomes the first small chunk. */
  lemma ReuseSmall(k: Shape, w: World, v: World)
    requires Inv(k, w) && w.unused != []
    requires v == w.(st := w.st.(free0 := k.chunkSize, last0 := [w.unused[0]] + w.st.last0), unused := w.unused[1..])
    ensures Inv(k, v) && NoneIn(v.live, w.unused[0]) && AllKept(w.live, w.heap, v.heap)
  {
    assert w.unused == [w.unused[0]] + w.unused[1..];
    AddSmall(k, w, v, w.unused[0]);
  }

  lemma FreshSmall(k: Shape, w: World, v: World, c: nat, bytes: seq<int>)
    requires Inv(k, w) && c !in w.heap && |bytes| == k.chunkSize
    requires v == w.(st := w.st.(free0 := k.chunkSize, last0 := [c] + w.st.last0), heap := w.heap[c := bytes])
    ensures Inv(k, v) && NoneIn(v.live, c) && AllKept(w.live, w.heap, v.heap)
  {
    assert multiset(v.heap.Keys) == multiset(w.heap.Keys) + multiset{c};
    assert w.st.last0[0] in w.st.last0;
    AddSmall(k, w, v, c);
  }

  lemma FreshBig(k: Shape, w: World, v: World, c: nat, bytes: seq<int>)
    requires Inv(k, w) && c !in w.heap && |bytes| % ALIGN == 0 && |bytes| <= CHUNK_MAX
    requires v == w.(st := w.st.(free1 := |bytes|, last1 := [c] + w.st.last1), heap := w.heap[c := bytes])
    ensures Inv(k, v) && NoneIn(v.live, c) && NotSaved(v.snaps, c) && AllKept(w.live, w.heap, v.heap)
  {
    assert multiset(v.heap.Keys) == multiset(w.heap.Keys) + multiset{c};
    AddBig(k, w, v, c);
  }

  /** The sizes that address arithmetic relies on. */
  lemma Sizes(k: Shape, w: World)
    requires Inv(k, w)
    ensures w.st.last0 != [] && w.st.last0[0] in w.heap && |w.heap[w.st.last0[0]]| == k.chunkSize
    ensures w.st.free0 <= k.chunkSize && k.chunkSize >= POOL_STRUCT
    ensures w.st.last1 != [] ==> w.st.last1[0] in w.heap && w.st.free1 <= |w.heap[w.st.last1[0]]| <= CHUNK_MAX
    ensures w.st.last1 != [] ==> w.st.last0[0] != w.st.last1[0]
  {
    Once(k, w, w.st.last0[0]);
    assert w.st.last0[0] in w.st.last0;
  }
}
