/** The memory pool operations of mem/pool.c and mem/pool.h. */
module Mempool {
  import opened Basics
  import opened PoolLayout

  /** A struct mempool_state: the chains are named by their first chunks (-1 for NULL). */
  datatype Saved = Saved(free0: nat, free1: nat, head0: int, head1: int)

  function Head(chain: seq<nat>): (h: int) {
    if chain == [] then -1 else chain[0]
  }

  function Heads(st: State): (s: Saved) {
    Saved(st.free0, st.free1, Head(st.last0), Head(st.last1))
  }

  /** `data` written at `off`. */
  function Splice(s: seq<int>, off: nat, data: seq<int>): (t: seq<int>)
    requires off + |data| <= |s|
    ensures |t| == |s| && t[off..off + |data|] == data
  {
    s[..off] + data + s[off + |data|..]
  }

  /** A write into one chunk leaves alone the blocks that stay clear of it. */
  lemma SpliceKeeps(heap: Heap, c: nat, off: nat, data: seq<int>, b: Block)
    requires c in heap && off + |data| <= |heap[c]|
    requires b.chunk in heap && b.off + b.len <= |heap[b.chunk]|
    requires b.chunk == c ==> b.off + b.len <= off || off + |data| <= b.off
    ensures Kept(b, heap, heap[c := Splice(heap[c], off, data)])
  {
    if b.chunk == c {
      var t := Splice(heap[c], off, data);
      assert forall i :: b.off <= i < b.off + b.len ==> t[i] == heap[c][i];
    }
  }

  lemma SpliceInside(s: seq<int>, start: nat, len: nat, off: nat, data: seq<int>)
    requires start + len <= |s| && off + |data| <= len
    ensures Splice(s, start + off, data)[start..start + len] == Splice(s[start..start + len], off, data)
  {
  }

  lemma KeptTrans(live: seq<Block>, h: Heap, g: Heap, f: Heap)
    requires AllKept(live, h, g) && AllKept(live, g, f)
    ensures AllKept(live, h, f)
  {
    forall i | 0 <= i < |live| ensures Kept(live[i], h, f) {
      assert Kept(live[i], h, g) && Kept(live[i], g, f);
    }
  }

  lemma KeptSame(k: Shape, w: World)
    requires Inv(k, w)
    ensures AllKept(w.live, w.heap, w.heap)
  {
    forall i | 0 <= i < |w.live| ensures Kept(w.live[i], w.heap, w.heap) {
      assert Fits(w.live[i], k, w.st, w.heap);
    }
  }

  lemma Aligned(size: nat, avail: nat)
    requires size % ALIGN == 0 && avail % ALIGN == 0 && avail <= size
    ensures (size - avail) % ALIGN == 0
  {
  }

  /** Free bytes may be given up for alignment. */
  lemma Trim(k: Shape, w: World, v: World)
    requires Inv(k, w) && v == w.(st := v.st) && v.st == w.st.(free0 := v.st.free0) && v.st.free0 <= w.st.free0
    ensures Inv(k, v)
  {
    forall i | 0 <= i < |w.live| ensures Fits(v.live[i], k, v.st, v.heap) {
      assert Fits(w.live[i], k, w.st, w.heap);
    }
    forall i | 0 <= i < |w.snaps| ensures Below(v.snaps[i], k, v) {
      assert Below(w.snaps[i], k, w);
    }
  }

  lemma FreeEnd(k: Shape, w: World, i: nat)
    requires Inv(k, w) && i < |w.live|
    ensures var b := w.live[i]; b.chunk in w.heap && b.off + b.len <= |w.heap[b.chunk]|
    ensures var b := w.live[i]; b.chunk == w.st.last0[0] ==> b.off + b.len + w.st.free0 <= |w.heap[b.chunk]|
  {
    assert Fits(w.live[i], k, w.st, w.heap);
  }

  lemma MoveStep(k: Shape, last0: seq<nat>, last1: seq<nat>, unused: seq<nat>, heap: Heap)
    requires Chained(k, last0, last1, unused, heap) && |last0| > 1
    ensures Chained(k, last0[1..], last1, [last0[0]] + unused, heap)
  {
    assert last0 == [last0[0]] + last0[1..];
    assert forall c :: c in last0[1..] ==> c in last0;
  }

  lemma FreeStep(chain: seq<nat>, rest: multiset<nat>, heap: Heap)
    requires multiset(chain) + rest == multiset(heap.Keys) && chain != []
    ensures chain[0] in heap && multiset(chain[1..]) + rest == multiset((heap - {chain[0]}).Keys)
  {
    var c := chain[0];
    assert chain == [c] + chain[1..];
    assert c in multiset(heap.Keys);
    assert multiset((heap - {c}).Keys) == multiset(heap.Keys) - multiset{c};
  }

  /** A chain without repetitions that starts like its suffix is that suffix. */
  lemma SameHead(s: seq<nat>, t: seq<nat>)
    requires Suffix(s, t) && Head(s) == Head(t) && (t != [] ==> multiset(t)[t[0]] == 1)
    ensures s == t
  {
    if s != [] && |s| < |t| {
      HeadOnce(t, |t| - |s|);
      assert false;
    }
  }

  lemma SuffixStep(s: seq<nat>, t: seq<nat>)
    requires Suffix(s, t) && Head(s) != Head(t)
    ensures t != [] && |s| < |t| && Suffix(s, t[1..])
  {
  }

  /** Chunks occur once in a chain. */
  lemma ChainOnce(chain: seq<nat>, rest: multiset<nat>, heap: Heap)
    requires multiset(chain) + rest == multiset(heap.Keys) && chain != []
    ensures multiset(chain)[chain[0]] == 1
  {
    assert chain[0] in multiset(heap.Keys) && multiset(heap.Keys)[chain[0]] == 1;
  }

  ghost predicate SubHeap(g: Heap, h: Heap) {
    forall c :: c in g ==> c in h && g[c] == h[c]
  }

  lemma Rechained(k: Shape, last0: seq<nat>, last1: seq<nat>, big: seq<nat>, unused: seq<nat>, h: Heap, g: Heap)
    requires Chained(k, last0, last1, unused, h) && SubHeap(g, h)
    requires multiset(big) + (multiset(last0) + multiset(unused)) == multiset(g.Keys)
    ensures Chained(k, last0, big, unused, g)
  {
    forall c | c in last0 || c in unused ensures c in g && |g[c]| == k.chunkSize {
      assert c in multiset(g.Keys);
    }
  }

  /** The first `n` bytes of the two blocks agree. */
  ghost predicate SameStart(h: Heap, b: Block, g: Heap, c: Block, n: nat) {
    && b.chunk in h && n <= b.len && b.off + b.len <= |h[b.chunk]|
    && c.chunk in g && n <= c.len && c.off + c.len <= |g[c.chunk]|
    && Bytes(h, b)[..n] == Bytes(g, c)[..n]
  }

  lemma StartOf(h: Heap, b: Block, g: Heap, c: Block, m: nat, n: nat)
    requires b.chunk in h && c.chunk in g && n <= b.len <= m && n <= c.len
    requires b.off + m <= |h[b.chunk]| && c.off + m <= |g[c.chunk]| && c.off + c.len <= |g[c.chunk]|
    requires h[b.chunk][b.off..b.off + m] == g[c.chunk][c.off..c.off + m]
    ensures SameStart(h, b, g, c, n)
  {
    var x, y := h[b.chunk][b.off..b.off + m], g[c.chunk][c.off..c.off + m];
    assert Bytes(h, b)[..n] == x[..n];
    assert Bytes(g, c)[..n] == y[..n];
  }

  /** Of the chunks no longer in use the small ones are all unused, the big ones all freed. */
  ghost predicate Recycled(w: World, v: World) {
    && (forall c :: c in w.st.last0 || c in w.unused ==> c in v.st.last0 || c in v.unused)
    && (forall c :: c in w.st.last1 && c !in v.st.last1 ==> c !in v.heap)
  }

  lemma WhereGone(k: Shape, w: World, v: World)
    requires Chained(k, w.st.last0, w.st.last1, w.unused, w.heap)
    requires Chained(k, v.st.last0, v.st.last1, v.unused, v.heap)
    requires forall c :: c in v.st.last1 ==> c in w.st.last1
    requires multiset(w.st.last0) + multiset(w.unused) == multiset(v.st.last0) + multiset(v.unused)
    ensures Recycled(w, v)
  {
    forall c | c in w.st.last0 || c in w.unused ensures c in v.st.last0 || c in v.unused {
      assert c in multiset(w.st.last0) + multiset(w.unused);
    }
    forall c | c in w.st.last1 && c !in v.st.last1 ensures c !in v.heap {
      assert c in multiset(w.heap.Keys) && multiset(w.heap.Keys)[c] == 1;
      assert c !in multiset(w.st.last0) + multiset(w.unused);
      assert c !in multiset(v.heap.Keys);
    }
  }

  /** The chains are cut back to those of `keep`: small chunks recycled, big ones freed. */
  ghost predicate CutTo(k: Shape, w: World, keep: State, unused: seq<nat>, heap: Heap) {
    && Chained(k, keep.last0, keep.last1, unused, heap) && SubHeap(heap, w.heap)
    && multiset(w.st.last0) + multiset(w.unused) == multiset(keep.last0) + multiset(unused)
  }

  lemma RestoreCut(k: Shape, w: World, n: nat, v: World)
    requires Inv(k, w) && n < |w.snaps| && CutTo(k, w, w.snaps[n].st, v.unused, v.heap)
    requires v.st == w.snaps[n].st && v.live == w.snaps[n].live && v.snaps == w.snaps[..n]
    ensures Inv(k, v) && AllKept(v.live, w.heap, v.heap) && Recycled(w, v)
  {
    PoolLayout.Restore(k, w, n, v);
    SnapFacts(k, w, n);
    WhereGone(k, w, v);
  }

  lemma SnapFacts(k: Shape, w: World, n: nat)
    requires Inv(k, w) && n < |w.snaps|
    ensures Chained(k, w.st.last0, w.st.last1, w.unused, w.heap) && w.snaps[n].st.last0 != []
    ensures Suffix(w.snaps[n].st.last0, w.st.last0) && Suffix(w.snaps[n].st.last1, w.st.last1)
    ensures forall c :: c in w.snaps[n].st.last1 ==> c in w.st.last1
    ensures forall i :: 0 <= i < n ==> |w.snaps[i].live| <= |w.snaps[n].live|
  {
    assert Below(w.snaps[n], k, w);
    assert forall i :: 0 <= i < n ==> Older(w.snaps[i], w.snaps[n]);
    forall c | c in w.snaps[n].st.last1 ensures c in w.st.last1 {
      SuffixIn(w.snaps[n].st.last1, w.st.last1, c);
    }
  }

  lemma EmptyInv(k: Shape, w: World)
    requires Inv(k, w)
    ensures Chained(k, w.st.last0, w.st.last1, w.unused, w.heap) && Suffix([k.home], w.st.last0)
    ensures k.chunkSize >= POOL_STRUCT
  {
  }

  lemma Emptied(k: Shape, w: World, v: World)
    requires CutTo(k, w, State(0, 0, [k.home], []), v.unused, v.heap) && k.chunkSize >= POOL_STRUCT
    requires Chained(k, w.st.last0, w.st.last1, w.unused, w.heap)
    requires v.st == State(k.chunkSize - POOL_STRUCT, 0, [k.home], []) && v.live == [] && v.snaps == []
    ensures Inv(k, v) && Recycled(w, v)
  {
    WhereGone(k, w, v);
  }

  /** Two live blocks share no byte. */
  lemma Apart(k: Shape, w: World, i: nat, j: nat)
    requires Inv(k, w) && i < |w.live| && j < |w.live| && i != j && w.live[i].chunk == w.live[j].chunk
    ensures var b, c := w.live[i], w.live[j]; b.off + b.len <= c.off || c.off + c.len <= b.off
  {
    if i < j {
      assert Clear(w.live[i], w.live[j], w.st.last1);
    } else {
      assert Clear(w.live[j], w.live[i], w.st.last1);
    }
  }

  lemma WriteInside(k: Shape, w: World, i: nat, off: nat, data: seq<int>)
    requires Inv(k, w) && i < |w.live| && off + |data| <= w.live[i].len
    ensures var b := w.live[i];
      && b.chunk in w.heap && b.off + b.len <= |w.heap[b.chunk]|
      && var g := w.heap[b.chunk := Splice(w.heap[b.chunk], b.off + off, data)];
      && Inv(k, w.(heap := g)) && Bytes(g, b) == Splice(Bytes(w.heap, b), off, data)
      && forall j :: 0 <= j < |w.live| && j != i ==> Kept(w.live[j], w.heap, g)
  {
    hide Inv, Kept, Splice;
    var b := w.live[i];
    FreeEnd(k, w, i);
    var g := w.heap[b.chunk := Splice(w.heap[b.chunk], b.off + off, data)];
    Poked(k, w, w.(heap := g));
    SpliceInside(w.heap[b.chunk], b.off, b.len, off, data);
    forall j | 0 <= j < |w.live| && j != i ensures Kept(w.live[j], w.heap, g) {
      OtherKept(k, w, i, off, data, j);
    }
  }

  lemma OtherKept(k: Shape, w: World, i: nat, off: nat, data: seq<int>, j: nat)
    requires Inv(k, w) && i < |w.live| && j < |w.live| && i != j && off + |data| <= w.live[i].len
    requires w.live[i].chunk in w.heap && w.live[i].off + w.live[i].len <= |w.heap[w.live[i].chunk]|
    ensures var b := w.live[i];
      Kept(w.live[j], w.heap, w.heap[b.chunk := Splice(w.heap[b.chunk], b.off + off, data)])
  {
    hide Inv, Splice, Kept;
    var b := w.live[i];
    FreeEnd(k, w, j);
    if w.live[j].chunk == b.chunk {
      Apart(k, w, i, j);
    }
    SpliceKeeps(w.heap, b.chunk, b.off + off, data, w.live[j]);
  }

  /** `c`, the first unused chunk if there is one, else a new one, leads the small chain. */
  ghost predicate SmallAdded(w: World, v: World, c: nat) {
    && v.st == w.st.(free0 := v.st.free0, last0 := [c] + w.st.last0)
    && if w.unused != [] then c == w.unused[0] && v.unused == w.unused[1..] && v.heap.Keys == w.heap.Keys
       else v.unused == [] && c !in w.heap && v.heap.Keys == w.heap.Keys + {c}
  }

  /** The new chunk `c` leads the big chain. */
  ghost predicate BigAdded(w: World, v: World, c: nat) {
    && v.st == w.st.(free1 := v.st.free1, last1 := [c] + w.st.last1)
    && v.unused == w.unused && c !in w.heap && v.heap.Keys == w.heap.Keys + {c}
  }

  /** Only the free end of the first small chunk shrinks. */
  ghost predicate Carved(w: World, v: World, free: nat) {
    v.st == w.st.(free0 := free) && v.unused == w.unused && v.heap == w.heap
  }

  /** A block of `size` bytes at the start of a chunk added for it. */
  ghost predicate ChunkFor(k: Shape, w: World, v: World, c: nat, size: nat) {
    if size <= k.chunkSize / 2 then SmallAdded(w, v, c) && v.st.free0 == k.chunkSize - size
    else BigAdded(w, v, c) && v.st.free1 == AlignUp(size) - size
  }

  /** A chunk added for an open buffer of at least `size` bytes, all free. */
  ghost predicate ChunkOpened(k: Shape, w: World, v: World, c: nat, size: nat) {
    if size <= k.chunkSize / 2 then SmallAdded(w, v, c) && v.st.free0 == k.chunkSize
    else BigAdded(w, v, c) && v.st.free1 == AlignUp(size)
  }

  /** The first big chunk is replaced by `c` of `size` bytes, all free. */
  ghost predicate BigReplaced(w: World, v: World, c: nat, size: nat) {
    && w.st.last1 != [] && v.st == w.st.(free1 := size, last1 := [c] + w.st.last1[1..])
    && v.unused == w.unused && c !in w.heap && v.heap.Keys == w.heap.Keys - {w.st.last1[0]} + {c}
  }

  /** The length of a big buffer that grows from `avail` to at least `size`. */
  function Amortized(avail: nat, size: nat): (r: nat)
    requires size <= SIZE_MAX
    ensures size <= r <= SIZE_MAX + 1 && r % ALIGN == 0 && (2 * avail <= r || SIZE_MAX <= r)
  {
    var twice := if avail <= SIZE_MAX / 2 then avail * 2 else SIZE_MAX;
    AlignUp(if twice < size then size else twice)
  }

  /** malloc may return any bytes. */
  method Malloc(size: nat) returns (bytes: seq<int>)
    ensures |bytes| == size
  {
    assert |seq(size, _ => 0)| == size;
    bytes :| |bytes| == size;
  }

  class Pool {
    var state: State
    var saved: seq<Saved>           // the list at state.next, oldest first
    var unused: seq<nat>
    var lastBig: int                // the chunk last_big points to, -1 if none
    var index: nat
    const chunkSize: nat
    const threshold: nat
    const home: nat
    var heap: Heap
    var nextChunk: nat                  // no chunk from here on exists yet

    ghost var live: seq<Block>      // blocks handed out, oldest first
    ghost var snaps: seq<Snap>      // what there was at each save, oldest first
    ghost var guard: nat            // blocks before this one must not be reopened
    ghost var growing: bool         // a growing buffer is open

    ghost function K(): Shape {
      Shape(chunkSize, home)
    }

    ghost function W(): World
      reads this
    {
      World(state, unused, heap, live, snaps)
    }

    ghost predicate Valid()
      reads this
    {
      && Core()
      && (if growing then OpenOk() else guard < |live| ==> Reopenable(W(), IsLastBig(live[|live| - 1])))
    }

    ghost predicate Core()
      reads this
    {
      && Inv(K(), W())
      && chunkSize % ALIGN == 0 && chunkSize <= 0x8000_0000 && threshold == chunkSize / 2
      && Linked()
      && (lastBig != -1 ==> state.last1 != [] && lastBig == state.last1[0])
      && (forall c :: c in heap ==> c < nextChunk)
      && Pinned()
    }

    ghost predicate Linked()
      reads this`saved, this`snaps
    {
      |saved| == |snaps| && forall i :: 0 <= i < |snaps| ==> saved[i] == Heads(snaps[i].st)
    }

    /** Blocks that a saved state covers must not be reopened. */
    ghost predicate Pinned()
      reads this`guard, this`live, this`snaps
    {
      && guard <= |live|
      && (forall i :: 0 <= i < |snaps| ==> |snaps[i].live| <= guard)
    }

    /** An open buffer of the big chain is the whole first big chunk. */
    ghost predicate OpenOk()
      reads this
    {
      && index <= 1
      && (index == 1 ==>
        && state.last1 != [] && state.last1[0] in heap && state.free1 == |heap[state.last1[0]]|
        && lastBig == state.last1[0] && NoneIn(live, state.last1[0]) && NotSaved(snaps, state.last1[0]))
    }

    /** mp_idx: is this the block last_big points to? */
    predicate IsLastBig(b: Block)
      reads this
    {
      b.off == 0 && b.chunk == lastBig
    }

    /** The open buffer: mp_ptr and mp_avail. */
    function Buffer(): (b: Block)
      requires Valid() && growing
      reads this
      ensures b.chunk in heap && b.off + b.len == |heap[b.chunk]|
    {
      if index == 0 then
        assert state.last0[0] in state.last0;
        Block(state.last0[0], chunkSize - state.free0, state.free0)
      else
        Block(state.last1[0], |heap[state.last1[0]]| - state.free1, state.free1)
    }

    constructor (size: nat)
      requires 1 <= size <= 0x7FFF_FFFF
      ensures Valid() && !growing && live == [] && snaps == [] && guard == 0
      ensures |heap| == 1 && chunkSize == AlignUp(if size < POOL_STRUCT then POOL_STRUCT else size)
      ensures state == State(chunkSize - POOL_STRUCT, 0, [home], []) && unused == []
    {
      var n := AlignUp(if size < POOL_STRUCT then POOL_STRUCT else size);
      var bytes := Malloc(n);
      chunkSize, threshold, home := n, n / 2, 0;
      state := State(n - POOL_STRUCT, 0, [0], []);
      saved, unused, lastBig, index := [], [], -1, 0;
      heap, nextChunk := map[0 := bytes], 1;
      live, snaps, guard, growing := [], [], 0, false;
    }

    /** The two halves of mp_alloc_internal, up to the chunk, which is left all free. */
    method NewSmall()
      requires Core()
      modifies this
      ensures Valid() && growing && index == 0 && Buffer().off == 0 && Buffer().len == chunkSize
      ensures NoneIn(live, Buffer().chunk) && AllKept(live, old(heap), heap)
      ensures SmallAdded(old(W()), W(), Buffer().chunk) && lastBig == old(lastBig)
      ensures live == old(live) && snaps == old(snaps) && saved == old(saved) && guard == old(guard)
    {
      hide Inv, AllKept, NoneIn, Reopenable, Pinned, Linked;
      ghost var w := W();
      Sizes(K(), w);
      index := 0;
      var chunk;
      growing := true;
      if unused != [] {
        chunk := unused[0];
        unused := unused[1..];
        state := state.(free0 := chunkSize, last0 := [chunk] + state.last0);
        ReuseSmall(K(), w, W());
      } else {
        var bytes := Malloc(chunkSize);
        chunk := nextChunk;
        heap, nextChunk := heap[chunk := bytes], nextChunk + 1;
        state := state.(free0 := chunkSize, last0 := [chunk] + state.last0);
        FreshSmall(K(), w, W(), chunk, bytes);
      }
      Sizes(K(), W());
    }

    method NewBig(size: nat)
      requires Core() && size <= CHUNK_MAX && size % ALIGN == 0
      modifies this
      ensures Valid() && growing && index == 1 && Buffer().off == 0 && Buffer().len == size
      ensures NoneIn(live, Buffer().chunk) && AllKept(live, old(heap), heap)
      ensures BigAdded(old(W()), W(), Buffer().chunk) && lastBig == Buffer().chunk
      ensures live == old(live) && snaps == old(snaps) && saved == old(saved) && guard == old(guard)
    {
      hide Inv, AllKept, NoneIn, NotSaved, Reopenable, Pinned, Linked;
      ghost var w := W();
      Sizes(K(), w);
      index := 1;
      var bytes := Malloc(size);
      var chunk := nextChunk;
      heap, nextChunk := heap[chunk := bytes], nextChunk + 1;
      state := state.(free1 := size, last1 := [chunk] + state.last1);
      lastBig := chunk;
      growing := true;
      FreshBig(K(), w, W(), chunk, bytes);
      Sizes(K(), W());
    }

    /** mp_end: the first `n` bytes of the open buffer become a block. */
    method End(n: nat) returns (b: Block)
      requires Valid() && growing && n <= Buffer().len
      modifies this
      ensures Valid() && !growing && heap == old(heap) && b == old(Buffer()).(len := n)
      ensures var rest := old(Buffer().len) - n;
        state == if old(index) == 0 then old(state).(free0 := rest) else old(state).(free1 := rest)
      ensures unused == old(unused) && index == old(index) && lastBig == old(lastBig)
      ensures live == old(live) + [b] && snaps == old(snaps) && saved == old(saved) && guard == old(guard)
    {
      hide Inv, NoneIn, NotSaved;
      ghost var w := W();
      Sizes(K(), w);
      b := Buffer().(len := n);
      growing := false;
      live := live + [b];
      if index == 0 {
        state := state.(free0 := state.free0 - n);
        TakeSmall(K(), w, W(), w.st.free0, n);
      } else {
        state := state.(free1 := state.free1 - n);
        TakeBig(K(), w, W(), n);
      }
    }

    /** mp_alloc_internal; None stands for die(). */
    method AllocInternal(size: nat) returns (r: Option<Block>)
      requires Valid() && !growing
      modifies this
      ensures Valid() && !growing && (r.None? <==> size > SIZE_MAX)
      ensures r.None? ==> unchanged(this)
      ensures r.Some? ==> r.value.off == 0 && r.value.len == size && live == old(live) + [r.value]
      ensures r.Some? ==> ChunkFor(K(), old(W()), W(), r.value.chunk, size)
      ensures snaps == old(snaps) && saved == old(saved) && guard == old(guard) && AllKept(old(live), old(heap), heap)
    {
      hide Inv, NoneIn, Reopenable, Pinned, Linked, AllKept;
      Sizes(K(), W());
      if size > SIZE_MAX {
        KeptSame(K(), W());
        return None;
      }
      if size <= threshold {
        NewSmall();
      } else {
        NewBig(AlignUp(size));
      }
      var b := End(size);
      r := Some(b);
    }

    /** mp_alloc_fast. */
    method Alloc(size: nat) returns (r: Option<Block>)
      requires Valid() && !growing
      modifies this
      ensures Valid() && !growing && (r.None? <==> size > SIZE_MAX)
      ensures r.None? ==> unchanged(this)
      ensures r.Some? ==> r.value.off % ALIGN == 0 && r.value.len == size && live == old(live) + [r.value]
      ensures var avail := AlignDown(old(state.free0));
        && (size <= avail ==> Carved(old(W()), W(), avail - size))
        && (size <= avail ==> r.value == Block(old(state.last0[0]), chunkSize - avail, size))
        && (avail < size <= SIZE_MAX ==> ChunkFor(K(), old(W()), W(), r.value.chunk, size) && r.value.off == 0)
      ensures snaps == old(snaps) && saved == old(saved) && guard == old(guard) && AllKept(old(live), old(heap), heap)
    {
      hide Inv, NoneIn, Pinned, Linked, AllKept;
      Sizes(K(), W());
      var avail := AlignDown(state.free0);
      if size <= avail {
        var b := Carve(avail, size);
        r := Some(b);
        Aligned(chunkSize, avail);
      } else {
        r := AllocInternal(size);
      }
    }

    /** mp_alloc_fast_noalign. */
    method AllocNoalign(size: nat) returns (r: Option<Block>)
      requires Valid() && !growing
      modifies this
      ensures Valid() && !growing && (r.None? <==> size > SIZE_MAX)
      ensures r.None? ==> unchanged(this)
      ensures r.Some? ==> r.value.len == size && live == old(live) + [r.value]
      ensures var avail := old(state.free0);
        && (size <= avail ==> Carved(old(W()), W(), avail - size))
        && (size <= avail ==> r.value == Block(old(state.last0[0]), chunkSize - avail, size))
        && (avail < size <= SIZE_MAX ==> ChunkFor(K(), old(W()), W(), r.value.chunk, size) && r.value.off == 0)
      ensures snaps == old(snaps) && saved == old(saved) && guard == old(guard) && AllKept(old(live), old(heap), heap)
    {
      hide Inv, NoneIn, Pinned, Linked, AllKept;
      Sizes(K(), W());
      if size <= state.free0 {
        var b := Carve(state.free0, size);
        r := Some(b);
      } else {
        r := AllocInternal(size);
      }
    }

    /** A block of `size` bytes at `avail` bytes before the end of the first small chunk. */
    method Carve(avail: nat, size: nat) returns (b: Block)
      requires Valid() && !growing && size <= avail <= state.free0
      modifies this
      ensures Valid() && !growing && Carved(old(W()), W(), avail - size)
      ensures b == Block(old(state.last0[0]), chunkSize - avail, size) && live == old(live) + [b]
      ensures snaps == old(snaps) && saved == old(saved) && guard == old(guard) && AllKept(old(live), old(heap), heap)
    {
      hide Inv, NoneIn, Linked, AllKept;
      ghost var w := W();
      Sizes(K(), w);
      KeptSame(K(), w);
      b := Block(state.last0[0], chunkSize - avail, size);
      state := state.(free0 := avail - size);
      live := live + [b];
      TakeSmall(K(), w, W(), avail, size);
    }

    /** mp_start_fast and mp_start_fast_noalign. */
    method Start(size: nat, aligned: bool) returns (ok: bool)
      requires Valid() && !growing
      modifies this
      ensures Valid() && (ok <==> size <= SIZE_MAX) && growing == ok
      ensures !ok ==> unchanged(this)
      ensures ok ==> size <= Buffer().len && (aligned ==> Buffer().off % ALIGN == 0)
      ensures var avail := if aligned then AlignDown(old(state.free0)) else old(state.free0);
        && (size <= avail ==> Carved(old(W()), W(), avail) && index == 0 && Buffer().len == avail)
        && (avail < size <= SIZE_MAX ==> ChunkOpened(K(), old(W()), W(), Buffer().chunk, size) && Buffer().off == 0)
        && (avail < size <= SIZE_MAX ==> Buffer().len == if size <= chunkSize / 2 then chunkSize else AlignUp(size))
      ensures live == old(live) && snaps == old(snaps) && saved == old(saved) && guard == old(guard)
      ensures AllKept(live, old(heap), heap)
    {
      hide Inv, NoneIn, Reopenable, Pinned, Linked, AllKept;
      ghost var w := W();
      Sizes(K(), w);
      KeptSame(K(), w);
      var avail := if aligned then AlignDown(state.free0) else state.free0;
      if size <= avail {
        index := 0;
        state := state.(free0 := avail);
        growing := true;
        Trim(K(), w, W());
        if aligned {
          Aligned(chunkSize, avail);
        }
        return true;
      }
      if size > SIZE_MAX {
        return false;
      }
      if size <= threshold {
        NewSmall();
      } else {
        NewBig(AlignUp(size));
      }
      ok := true;
    }

    /** mp_open_fast: the last block, if younger than the last save or restore, is the buffer again. */
    method Open(b: Block) returns (size: nat)
      requires Valid() && !growing && guard < |live| && b == live[|live| - 1]
      modifies this
      ensures Valid() && growing && heap == old(heap) && size == b.len <= Buffer().len
      ensures Buffer().chunk == b.chunk && Buffer().off == b.off
      ensures live == old(live)[..|old(live)| - 1] && snaps == old(snaps) && saved == old(saved) && guard == old(guard)
    {
      hide Inv, NoneIn, NotSaved, Linked;
      ghost var w := W();
      Sizes(K(), w);
      index := if IsLastBig(b) then 1 else 0;
      growing := true;
      live := live[..|live| - 1];
      if index == 0 {
        size := chunkSize - b.off - state.free0;
        state := state.(free0 := state.free0 + size);
      } else {
        size := |heap[state.last1[0]]| - b.off - state.free1;
        state := state.(free1 := state.free1 + size);
      }
      Reopen(K(), w, W(), index == 1);
    }

    /** The owner of the open buffer writes into it. */
    method Fill(off: nat, data: seq<int>)
      requires Valid() && growing && off + |data| <= Buffer().len
      modifies this`heap
      ensures Valid() && Buffer() == old(Buffer()) && heap.Keys == old(heap).Keys
      ensures heap[Buffer().chunk] == Splice(old(heap)[Buffer().chunk], Buffer().off + off, data)
      ensures AllKept(live, old(heap), heap)
    {
      hide Inv, Disjoint, Stacked, NotSaved, Linked, Pinned;
      ghost var w := W();
      Sizes(K(), w);
      var b := Buffer();
      heap := heap[b.chunk := Splice(heap[b.chunk], b.off + off, data)];
      Poked(K(), w, W());
      forall i | 0 <= i < |live| ensures Kept(live[i], w.heap, heap) {
        FreeEnd(K(), w, i);
        SpliceKeeps(w.heap, b.chunk, b.off + off, data, live[i]);
      }
    }

    /** The part of mp_grow_internal that reallocates the buffer of the big chain. */
    method GrowBig(size: nat)
      requires Valid() && growing && index == 1 && Buffer().len < size <= SIZE_MAX
      modifies this
      ensures Valid() && growing && Buffer().off == 0 && size <= Buffer().len
      ensures Buffer().len == Amortized(old(Buffer().len), size)
      ensures BigReplaced(old(W()), W(), Buffer().chunk, Buffer().len) && index == 1
      ensures heap[Buffer().chunk][..old(Buffer().len)] == old(Bytes(heap, Buffer()))
      ensures live == old(live) && snaps == old(snaps) && saved == old(saved) && guard == old(guard)
      ensures AllKept(live, old(heap), heap)
    {
      hide Inv, NoneIn, NotSaved, Reopenable, Pinned, Linked, AllKept;
      ghost var w := W();
      Sizes(K(), w);
      var avail := state.free1;
      var amortized := Amortized(avail, size);
      var chunk := state.last1[0];
      var bytes := Malloc(amortized);
      bytes := Splice(bytes, 0, heap[chunk]);
      heap, nextChunk := (heap - {chunk})[nextChunk := bytes], nextChunk + 1;
      state := state.(free1 := amortized, last1 := [nextChunk - 1] + state.last1[1..]);
      lastBig := nextChunk - 1;
      ghost var v := w.(st := w.st.(free1 := 0, last1 := w.st.last1[1..]), heap := w.heap - {chunk});
      DropBig(K(), w, v);
      FreshBig(K(), v, W(), nextChunk - 1, bytes);
      KeptTrans(live, w.heap, v.heap, heap);
      Sizes(K(), W());
      assert bytes[..avail] == w.heap[chunk];
    }

    /** A big buffer that has grown to the maximum is one byte longer, and mp_grow takes it. */
    method GrowPastMax() returns (ok: bool)
      requires Valid() && growing && index == 1 && Buffer().len < SIZE_MAX
      modifies this
      ensures Valid() && growing && ok && Buffer().len == SIZE_MAX + 1
    {
      GrowBig(SIZE_MAX);
      ok := Grow(SIZE_MAX + 1);
    }

    /** mp_grow_internal; false stands for die(). */
    method GrowInternal(size: nat) returns (ok: bool)
      requires Valid() && growing && Buffer().len < size
      modifies this
      ensures Valid() && growing && (ok <==> size <= SIZE_MAX)
      ensures !ok ==> unchanged(this)
      ensures ok ==> Buffer().off == 0 && size <= Buffer().len
      ensures ok && old(index) == 0 ==> ChunkOpened(K(), old(W()), W(), Buffer().chunk, size)
      ensures ok && old(index) == 1 ==>
        BigReplaced(old(W()), W(), Buffer().chunk, Amortized(old(Buffer().len), size)) && index == 1
      ensures ok ==> heap[Buffer().chunk][..old(Buffer().len)] == old(Bytes(heap, Buffer()))
      ensures live == old(live) && snaps == old(snaps) && saved == old(saved) && guard == old(guard)
      ensures AllKept(live, old(heap), heap)
    {
      hide Inv, NoneIn, NotSaved, Reopenable, Pinned, Linked, AllKept;
      ghost var w := W();
      Sizes(K(), w);
      KeptSame(K(), w);
      if size > SIZE_MAX {
        return false;
      }
      ok := true;
      if index == 0 {
        var data := Bytes(heap, Buffer());
        if size <= threshold {
          NewSmall();
        } else {
          NewBig(AlignUp(size));
        }
        ghost var h := heap;
        Fill(0, data);
        KeptTrans(live, w.heap, h, heap);
      } else {
        GrowBig(size);
      }
    }

    /** mp_grow. */
    method Grow(size: nat) returns (ok: bool)
      requires Valid() && growing
      modifies this
      ensures Valid() && growing && (ok <==> size <= SIZE_MAX || size <= old(Buffer().len))
      ensures !ok ==> unchanged(this)
      ensures size <= old(Buffer().len) ==> unchanged(this)
      ensures ok ==> size <= Buffer().len && old(Buffer().len) <= Buffer().len
      ensures ok && old(Buffer().len) < size && old(index) == 0 ==>
        ChunkOpened(K(), old(W()), W(), Buffer().chunk, size)
      ensures ok && old(Buffer().len) < size && old(index) == 1 ==>
        BigReplaced(old(W()), W(), Buffer().chunk, Amortized(old(Buffer().len), size)) && index == 1
      ensures ok ==> heap[Buffer().chunk][Buffer().off..Buffer().off + old(Buffer().len)] == old(Bytes(heap, Buffer()))
      ensures ok ==> Buffer().off == 0 || Buffer().off == old(Buffer().off)
      ensures live == old(live) && snaps == old(snaps) && saved == old(saved) && guard == old(guard)
      ensures AllKept(live, old(heap), heap)
    {
      hide Inv, NoneIn, NotSaved, Reopenable, Pinned, Linked, AllKept;
      Sizes(K(), W());
      KeptSame(K(), W());
      if size <= Buffer().len {
        ok := true;
      } else {
        ok := GrowInternal(size);
      }
    }

    /** mp_realloc_fast of the last block. */
    method Realloc(b: Block, size: nat) returns (r: Option<Block>)
      requires Valid() && !growing && guard < |live| && b == live[|live| - 1]
      modifies this
      ensures Valid() && growing == r.None?
      ensures r.None? <==> size > SIZE_MAX && b.chunk in old(heap) && b.off + size > |old(heap)[b.chunk]|
      ensures r.Some? ==> live == old(live)[..|old(live)| - 1] + [r.value] && r.value.len == size
      ensures b.chunk in old(heap) && b.off + size <= |old(heap)[b.chunk]| ==>
        r == Some(b.(len := size)) && heap == old(heap)
      ensures r.Some? && b.off % ALIGN == 0 ==> r.value.off % ALIGN == 0
      ensures r.Some? ==> SameStart(old(heap), b, heap, r.value, if size < b.len then size else b.len)
      ensures snaps == old(snaps) && saved == old(saved) && guard == old(guard)
      ensures AllKept(old(live)[..|old(live)| - 1], old(heap), heap)
    {
      hide Inv, NoneIn, NotSaved, Reopenable, Pinned, Linked, AllKept;
      ghost var h := heap;
      var _ := Open(b);
      ghost var buffer := Buffer();
      var ok := Grow(size);
      if !ok {
        return None;
      }
      assert heap[Buffer().chunk][Buffer().off..Buffer().off + buffer.len] == h[b.chunk][b.off..b.off + buffer.len];
      var p := End(size);
      r := Some(p);
      StartOf(h, b, heap, p, buffer.len, if size < b.len then size else b.len);
    }

    /** mp_push: the state is saved in a block of its own. */
    method Push() returns (p: Block)
      requires Valid() && !growing
      modifies this
      ensures Valid() && !growing && guard == |live|
      ensures live == old(live) + [p] && p.len == STATE_STRUCT && p.off % ALIGN == 0
      ensures var avail := AlignDown(old(state.free0));
        && (STATE_STRUCT <= avail ==> Carved(old(W()), W(), avail - STATE_STRUCT))
        && (avail < STATE_STRUCT ==> ChunkFor(K(), old(W()), W(), p.chunk, STATE_STRUCT))
      ensures snaps == old(snaps) + [Snap(old(state), old(live))]
      ensures AllKept(old(live), old(heap), heap)
    {
      hide Inv, AllKept, Reopenable;
      ghost var w := W();
      snaps := snaps + [Snap(state, live)];
      saved := saved + [Heads(state)];
      guard := |live|;
      PoolLayout.Save(K(), w, W());
      var r := Alloc(STATE_STRUCT);
      p := r.value;
      guard := |live|;
    }

    /** free() of a chunk that is still allocated. */
    method Free(c: nat)
      requires c in heap
      modifies this`heap
      ensures heap == old(heap) - {c}
    {
      heap := heap - {c};
    }

    /** mp_free_chain and mp_free_big_chain: each chunk of the chain is freed once. */
    method FreeChain(chain: seq<nat>, ghost rest: multiset<nat>)
      requires multiset(chain) + rest == multiset(heap.Keys)
      modifies this`heap
      ensures multiset(heap.Keys) == rest && SubHeap(heap, old(heap))
    {
      var chunk := chain;
      while chunk != []
        invariant multiset(chunk) + rest == multiset(heap.Keys) && SubHeap(heap, old(heap))
      {
        FreeStep(chunk, rest, heap);
        Free(chunk[0]);
        chunk := chunk[1..];
      }
    }

    /** The first loop of mp_restore: small chunks above `head` move to the unused chain. */
    method Recycle(head: int, ghost keep: seq<nat>) returns (chunk: seq<nat>)
      requires Suffix(keep, state.last0) && Chained(K(), state.last0, state.last1, unused, heap)
      requires keep != [] && head == keep[0]
      modifies this`unused
      ensures chunk == keep && Chained(K(), chunk, state.last1, unused, heap)
      ensures multiset(chunk) + multiset(unused) == multiset(state.last0) + multiset(old(unused))
    {
      chunk := state.last0;
      while Head(chunk) != head
        invariant Suffix(keep, chunk) && Chained(K(), chunk, state.last1, unused, heap)
        invariant multiset(chunk) + multiset(unused) == multiset(state.last0) + multiset(old(unused))
        decreases |chunk|
      {
        SuffixStep(keep, chunk);
        assert chunk == [chunk[0]] + chunk[1..];
        MoveStep(K(), chunk, state.last1, unused, heap);
        unused := [chunk[0]] + unused;
        chunk := chunk[1..];
      }
      ChainOnce(chunk, multiset(state.last1) + multiset(unused), heap);
      SameHead(keep, chunk);
    }

    /** The second loop of mp_restore: big chunks above `head` are freed. */
    method Release(head: int, ghost keep: seq<nat>, ghost rest: multiset<nat>) returns (chunk: seq<nat>)
      requires Suffix(keep, state.last1) && multiset(state.last1) + rest == multiset(heap.Keys) && head == Head(keep)
      modifies this`heap
      ensures chunk == keep && multiset(chunk) + rest == multiset(heap.Keys) && SubHeap(heap, old(heap))
    {
      chunk := state.last1;
      while Head(chunk) != head
        invariant Suffix(keep, chunk) && multiset(chunk) + rest == multiset(heap.Keys) && SubHeap(heap, old(heap))
        decreases |chunk|
      {
        SuffixStep(keep, chunk);
        FreeStep(chunk, rest, heap);
        Free(chunk[0]);
        chunk := chunk[1..];
      }
      if chunk != [] {
        ChainOnce(chunk, rest, heap);
      }
      SameHead(keep, chunk);
    }

    /** Both loops of mp_restore. */
    method CutBack(head0: int, head1: int, ghost keep: State) returns (small: seq<nat>, big: seq<nat>)
      requires Chained(K(), state.last0, state.last1, unused, heap)
      requires Suffix(keep.last0, state.last0) && keep.last0 != [] && head0 == Head(keep.last0)
      requires Suffix(keep.last1, state.last1) && head1 == Head(keep.last1)
      modifies this`heap, this`unused
      ensures small == keep.last0 && big == keep.last1 && CutTo(K(), old(W()), keep, unused, heap)
      ensures SubHeap(heap, old(heap))
    {
      small := Recycle(head0, keep.last0);
      big := Release(head1, keep.last1, multiset(small) + multiset(unused));
      Rechained(K(), small, state.last1, big, unused, old(heap), heap);
    }

    /** mp_restore: back to the `n`-th saved state, newer ones are forgotten. */
    method Restore(n: nat)
      requires Valid() && !growing && n < |snaps|
      modifies this
      ensures Valid() && !growing && guard == |live|
      ensures state == old(snaps)[n].st && live == old(snaps)[n].live && snaps == old(snaps)[..n]
      ensures AllKept(live, old(heap), heap)
      ensures SubHeap(heap, old(heap)) && Recycled(old(W()), W())
    {
      hide Inv, AllKept, Recycled, Reopenable, Chained, CutTo, Suffix;
      ghost var w := W();
      ghost var snap := snaps[n];
      SnapFacts(K(), w, n);
      var s := saved[n];
      var small, big := CutBack(s.head0, s.head1, snap.st);
      state := State(s.free0, s.free1, small, big);
      lastBig := -1;
      saved := saved[..n];
      live, snaps := snap.live, snaps[..n];
      guard := |live|;
      RestoreCut(K(), w, n, W());
    }

    /** mp_pop. */
    method Pop()
      requires Valid() && !growing && snaps != []
      modifies this
      ensures Valid() && !growing && guard == |live|
      ensures Snap(state, live) == old(snaps[|snaps| - 1]) && snaps == old(snaps)[..|old(snaps)| - 1]
      ensures AllKept(live, old(heap), heap)
      ensures SubHeap(heap, old(heap)) && Recycled(old(W()), W())
    {
      Restore(|saved| - 1);
    }

    /** The loops of mp_flush. */
    method CutAll() returns (small: seq<nat>)
      requires Chained(K(), state.last0, state.last1, unused, heap) && Suffix([home], state.last0)
      modifies this`heap, this`unused
      ensures small == [home] && CutTo(K(), old(W()), State(0, 0, [home], []), unused, heap)
      ensures SubHeap(heap, old(heap))
    {
      small := Recycle(home, [home]);
      FreeChain(state.last1, multiset(small) + multiset(unused));
      Rechained(K(), small, state.last1, [], unused, old(heap), heap);
    }

    /** mp_flush: only the home chunk stays in use, and every saved state is forgotten. */
    method Flush()
      requires Valid() && !growing
      modifies this
      ensures Valid() && !growing && live == [] && snaps == []
      ensures state == State(chunkSize - POOL_STRUCT, 0, [home], [])
      ensures SubHeap(heap, old(heap)) && Recycled(old(W()), W())
    {
      hide Inv, Reopenable, Chained, CutTo, Suffix, Recycled;
      ghost var w := W();
      EmptyInv(K(), w);
      var chunk := CutAll();
      state := State(chunkSize - POOL_STRUCT, 0, chunk, []);
      saved, lastBig := [], -1;
      live, snaps, guard := [], [], 0;
      Emptied(K(), w, W());
    }

    /** mp_delete: every chunk is freed, each once. */
    method Delete()
      requires Valid()
      modifies this`heap
      ensures heap == map[]
    {
      hide Reopenable, Room, Placed, Disjoint, Stacked;
      FreeChain(state.last1, multiset(unused) + multiset(state.last0));
      FreeChain(unused, multiset(state.last0));
      FreeChain(state.last0, multiset{});
      assert forall c :: c in heap ==> c in multiset(heap.Keys);
    }

    /** The owner of a block writes into it; the blocks of saved states have no other owner. */
    method Write(b: Block, off: nat, data: seq<int>, ghost i: nat)
      requires Valid() && i < |live| && b == live[i] && off + |data| <= b.len
      requires forall j :: 0 <= j < |snaps| ==> |snaps[j].live| != i
      modifies this`heap
      ensures Valid() && heap.Keys == old(heap).Keys && |heap[b.chunk]| == |old(heap)[b.chunk]|
      ensures Bytes(heap, b) == Splice(old(Bytes(heap, b)), off, data)
      ensures forall j :: 0 <= j < |live| && j != i ==> Kept(live[j], old(heap), heap)
    {
      hide Inv, Linked, Pinned, NotSaved, NoneIn, AllKept, Splice, Kept;
      ghost var w := W();
      Sizes(K(), w);
      WriteInside(K(), w, i, off, data);
      heap := heap[b.chunk := Splice(heap[b.chunk], b.off + off, data)];
    }
  }
}
