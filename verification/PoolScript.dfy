/** Well-nested use of a memory pool: any program of allocations, reallocations, writes and
    push/pop scopes. */
module PoolScript {
  import opened Basics
  import opened PoolLayout
  import opened Mempool

  /** One step of a client. `Resize` and `Store` apply to the block allocated last, if there
      was no push or pop since; without such a block they do nothing. */
  datatype Op =
    | Allocate(size: nat, aligned: bool)
    | Build(first: nat, size: nat)
    | Resize(size: nat)
    | Store(off: nat, data: seq<int>)
    | Scope(body: Script)

  datatype Script = Done | Then(op: Op, rest: Script)

  /** The blocks up to `g` are still there with their contents, and so are the saved states. */
  ghost predicate Ran(w: World, g: nat, v: World, g': nat) {
    && v.snaps == w.snaps && g <= g' && g <= |w.live| && g' <= |v.live|
    && v.live[..g] == w.live[..g] && AllKept(w.live[..g], w.heap, v.heap)
  }

  lemma RanTrans(w: World, g: nat, v: World, g': nat, u: World, g'': nat)
    requires Ran(w, g, v, g') && Ran(v, g', u, g'')
    ensures Ran(w, g, u, g'')
  {
    assert u.live[..g] == u.live[..g'][..g] == v.live[..g];
    forall i | 0 <= i < g ensures Kept(w.live[..g][i], w.heap, u.heap) {
      assert Kept(w.live[..g][i], w.heap, v.heap);
      assert v.live[..g'][i] == v.live[..g][i];
      assert Kept(v.live[..g'][i], v.heap, u.heap);
    }
  }

  lemma KeptPrefix(live: seq<Block>, g: nat, h: Heap, h': Heap)
    requires AllKept(live, h, h') && g <= |live|
    ensures AllKept(live[..g], h, h')
  {
    forall i | 0 <= i < g ensures Kept(live[..g][i], h, h') {
      assert Kept(live[i], h, h');
    }
  }

  /** The pool is closed, its saved states are below the guard, and `last` is the block a
      client may still reopen. */
  ghost predicate Ready(p: Pool, last: Option<Block>)
    reads p
  {
    && p.Valid() && !p.growing
    && (forall j :: 0 <= j < |p.snaps| ==> |p.snaps[j].live| < p.guard)
    && (last.Some? ==> p.guard < |p.live| && last.value == p.live[|p.live| - 1])
  }

  /** How long the open buffer is after mp_start with `first` bytes. */
  function StartRoom(k: Shape, w: World, first: nat): (n: nat) {
    var avail := AlignDown(w.st.free0);
    if first <= avail then avail else if first <= k.chunkSize / 2 then k.chunkSize else AlignUp(first)
  }

  /** The operation ends in die(): it asks for more than the maximum. A buffer that is one byte
      longer than the maximum already may still have that length. */
  predicate Dies(k: Shape, w: World, op: Op, last: Option<Block>)
    requires !op.Scope?
  {
    match op
    case Allocate(size, _) => size > SIZE_MAX
    case Build(first, size) => first > SIZE_MAX || (size > SIZE_MAX && size > StartRoom(k, w, first))
    case Resize(size) =>
      && size > SIZE_MAX && last.Some? && last.value.chunk in w.heap
      && last.value.off + size > |w.heap[last.value.chunk]|
    case Store(_, _) => false
  }

  /** `b` is a new block, and nothing else has changed for the client. */
  ghost predicate Added(w: World, v: World, b: Block, size: nat) {
    b.len == size && v.live == w.live + [b] && v.snaps == w.snaps && AllKept(w.live, w.heap, v.heap)
  }

  /** Where an allocation finds its block. */
  ghost predicate Found(k: Shape, w: World, v: World, b: Block, avail: nat) {
    if b.len <= avail then
      Carved(w, v, avail - b.len) && w.st.last0 != [] && b.chunk == w.st.last0[0] && b.off + avail == k.chunkSize
    else ChunkFor(k, w, v, b.chunk, b.len) && b.off == 0
  }

  /** What one operation does. */
  ghost predicate Effect(k: Shape, w: World, op: Op, last: Option<Block>, v: World, last': Option<Block>)
    requires !op.Scope?
  {
    match op
    case Allocate(size, aligned) =>
      && last'.Some? && Added(w, v, last'.value, size) && (aligned ==> last'.value.off % ALIGN == 0)
      && Found(k, w, v, last'.value, if aligned then AlignDown(w.st.free0) else w.st.free0)
    case Build(_, size) => last'.Some? && Added(w, v, last'.value, size) && last'.value.off % ALIGN == 0
    case Resize(size) =>
      if last.None? then v == w && last' == None
      else last'.Some? && Resized(w, v, last.value, last'.value, size)
    case Store(off, data) =>
      && last' == last
      && if last.Some? && off + |data| <= last.value.len then Stored(w, v, last.value, off, data) else v == w
  }

  /** The last block has another size, its first bytes and its alignment, and its place if it fits. */
  ghost predicate Resized(w: World, v: World, b: Block, c: Block, size: nat) {
    && w.live != [] && b == w.live[|w.live| - 1]
    && v.live == w.live[..|w.live| - 1] + [c] && c.len == size && (b.off % ALIGN == 0 ==> c.off % ALIGN == 0)
    && (b.chunk in w.heap && b.off + size <= |w.heap[b.chunk]| ==> c == b.(len := size) && v.heap == w.heap)
    && SameStart(w.heap, b, v.heap, c, if size < b.len then size else b.len)
    && v.snaps == w.snaps && AllKept(w.live[..|w.live| - 1], w.heap, v.heap)
  }

  /** The bytes are in the last block, and nothing else has changed. */
  ghost predicate Stored(w: World, v: World, b: Block, off: nat, data: seq<int>) {
    && v == w.(heap := v.heap) && w.live != [] && off + |data| <= b.len
    && b.chunk in w.heap && b.off + b.len <= |w.heap[b.chunk]|
    && b.chunk in v.heap && b.off + b.len <= |v.heap[b.chunk]|
    && Bytes(v.heap, b) == Splice(Bytes(w.heap, b), off, data)
    && AllKept(w.live[..|w.live| - 1], w.heap, v.heap)
  }

  /** mp_push: the state is remembered and has a block of its own. */
  ghost predicate Pushed(w: World, v: World) {
    && w.live <= v.live && |v.live| == |w.live| + 1
    && v.live[|w.live|].len == STATE_STRUCT && v.live[|w.live|].off % ALIGN == 0
    && v.snaps == w.snaps + [Snap(w.st, w.live)] && AllKept(w.live, w.heap, v.heap)
  }

  /** mp_pop: the newest remembered state is back. */
  ghost predicate Popped(w: World, v: World) {
    && w.snaps != [] && Snap(v.st, v.live) == w.snaps[|w.snaps| - 1] && v.snaps == w.snaps[..|w.snaps| - 1]
    && AllKept(v.live, w.heap, v.heap) && SubHeap(v.heap, w.heap) && Recycled(w, v)
  }

  /** The worlds that a program goes through, up to an operation that dies. */
  datatype Trace =
    | Finished
    | Died
    | Did(after: World, last: Option<Block>, rest: Trace)
    | Scoped(pushed: World, inner: Trace, popped: World, rest: Trace)

  predicate Completed(t: Trace) {
    match t
    case Finished => true
    case Died => false
    case Did(_, _, rest) => Completed(rest)
    case Scoped(_, inner, _, rest) => Completed(inner) && Completed(rest)
  }

  ghost function EndOf(t: Trace, w: World): (v: World) {
    match t
    case Finished => w
    case Died => w
    case Did(after, _, rest) => EndOf(rest, after)
    case Scoped(_, _, popped, rest) => EndOf(rest, popped)
  }

  /** `t` tells how the program runs from `w`: every operation has its effect, and the first one
      that dies ends it. */
  ghost predicate Tells(k: Shape, script: Script, w: World, last: Option<Block>, t: Trace)
    decreases script, 0
  {
    if script.Done? then t.Finished?
    else if script.op.Scope? then
      && t.Scoped? && ScopeTells(k, script.op.body, w, t.pushed, t.inner)
      && if Completed(t.inner)
         then Popped(EndOf(t.inner, t.pushed), t.popped) && Tells(k, script.rest, t.popped, None, t.rest)
         else t.rest == Finished
    else if Dies(k, w, script.op, last) then t.Died?
    else t.Did? && Effect(k, w, script.op, last, t.after, t.last) && Tells(k, script.rest, t.after, t.last, t.rest)
  }

  ghost predicate ScopeTells(k: Shape, body: Script, w: World, pushed: World, inner: Trace)
    decreases body, 1
  {
    Pushed(w, pushed) && Tells(k, body, pushed, None, inner)
  }

  /** No operation asks for more than the maximum. */
  predicate Modest(script: Script) {
    script.Done? || (ModestOp(script.op) && Modest(script.rest))
  }

  predicate ModestOp(op: Op) {
    match op
    case Allocate(size, _) => size <= SIZE_MAX
    case Build(first, size) => first <= SIZE_MAX && size <= SIZE_MAX
    case Resize(size) => size <= SIZE_MAX
    case Store(_, _) => true
    case Scope(body) => Modest(body)
  }

  /** A modest program never dies. */
  lemma {:induction false} ModestCompletes(k: Shape, script: Script, w: World, last: Option<Block>, t: Trace)
    requires Modest(script) && Tells(k, script, w, last, t)
    ensures Completed(t)
    decreases script
  {
    hide Effect, Pushed, Popped, EndOf;
    if script.Then? {
      if script.op.Scope? {
        ModestCompletes(k, script.op.body, t.pushed, None, t.inner);
        ModestCompletes(k, script.rest, t.popped, None, t.rest);
      } else {
        ModestCompletes(k, script.rest, t.after, t.last, t.rest);
      }
    }
  }

  /** Runs a program; false when an operation dies. */
  method Run(p: Pool, script: Script, last: Option<Block>) returns (ok: bool, ghost t: Trace)
    requires Ready(p, last)
    modifies p
    ensures Tells(p.K(), script, old(p.W()), last, t) && (ok <==> Completed(t))
    ensures Modest(script) ==> ok
    ensures ok ==> p.W() == EndOf(t, old(p.W()))
    ensures ok ==> Ready(p, None) && Ran(old(p.W()), old(p.guard), p.W(), p.guard)
    decreases script, 2
  {
    hide Inv, AllKept, Kept, Effect, Dies, Pushed, Popped, Ran, Modest;
    ghost var w, g := p.W(), p.guard;
    if script.Done? {
      RanSelf(p.K(), w, g);
      return true, Finished;
    }
    if script.op.Scope? {
      ghost var pushed, inner;
      ok, pushed, inner := InScope(p, script.op.body);
      t := Scoped(pushed, inner, p.W(), Finished);
      if ok {
        ghost var v, g' := p.W(), p.guard;
        ghost var rest;
        ok, rest := Run(p, script.rest, None);
        t := Scoped(pushed, inner, v, rest);
        if ok {
          RanTrans(w, g, v, g', p.W(), p.guard);
        }
      }
    } else {
      var last';
      ok, last' := Step(p, script.op, last);
      t := Died;
      if ok {
        ghost var v, g' := p.W(), p.guard;
        ghost var rest;
        ok, rest := Run(p, script.rest, last');
        t := Did(v, last', rest);
        if ok {
          RanTrans(w, g, v, g', p.W(), p.guard);
        }
      }
    }
    if Modest(script) {
      ModestCompletes(p.K(), script, w, last, t);
    }
  }

  lemma RanSelf(k: Shape, w: World, g: nat)
    requires Inv(k, w) && g <= |w.live|
    ensures Ran(w, g, w, g)
  {
    hide Inv, AllKept;
    KeptSame(k, w);
    KeptPrefix(w.live, g, w.heap, w.heap);
  }

  /** One operation other than a scope. */
  method Step(p: Pool, op: Op, last: Option<Block>) returns (ok: bool, last': Option<Block>)
    requires Ready(p, last) && !op.Scope?
    modifies p
    ensures ok <==> !Dies(p.K(), old(p.W()), op, last)
    ensures ok ==> Effect(p.K(), old(p.W()), op, last, p.W(), last')
    ensures ok ==> Ready(p, last') && Ran(old(p.W()), old(p.guard), p.W(), p.guard)
  {
    match op
    case Allocate(size, aligned) => ok, last' := Grab(p, size, aligned);
    case Build(first, size) => ok, last' := Assemble(p, first, size);
    case Resize(size) => ok, last' := Retake(p, size, last);
    case Store(off, data) => ok, last' := Put(p, off, data, last);
  }

  /** Whatever a program does between a push and the matching pop, the pop brings back exactly
      the blocks, contents, free space and saved states of the push; later big chunks are freed
      and later small chunks wait in the unused chain. */
  method InScope(p: Pool, body: Script) returns (ok: bool, ghost pushed: World, ghost inner: Trace)
    requires Ready(p, None)
    modifies p
    ensures ScopeTells(p.K(), body, old(p.W()), pushed, inner) && (ok <==> Completed(inner))
    ensures Modest(body) ==> ok
    ensures ok ==> Popped(EndOf(inner, pushed), p.W())
    ensures ok ==> Ready(p, None) && p.guard == |p.live|
    ensures ok ==> p.state == old(p.state) && p.live == old(p.live) && p.snaps == old(p.snaps)
    ensures ok ==> AllKept(p.live, old(p.heap), p.heap)
    ensures ok ==> Leftover(p.chunkSize, old(p.heap), p.heap, p.unused)
    ensures ok ==> Ran(old(p.W()), old(p.guard), p.W(), p.guard)
    decreases body, 3
  {
    hide Inv, AllKept, Kept, Leftover, Tells, Modest, Recycled, SubHeap;
    ghost var w := p.W();
    var _ := p.Push();
    pushed := p.W();
    ok, inner := Run(p, body, None);
    if ok {
      ghost var u := p.W();
      p.Pop();
      ScopeKept(w, pushed, u, p.W());
      KeptPrefix(w.live, old(p.guard), w.heap, p.heap);
      LeftoverOf(p.K(), w, p.W());
    }
  }

  lemma ScopeKept(w: World, v: World, u: World, x: World)
    requires |v.live| == |w.live| + 1 && v.live[..|w.live|] == w.live && x.live == w.live
    requires AllKept(w.live, w.heap, v.heap) && AllKept(v.live[..|v.live|], v.heap, u.heap)
    requires AllKept(x.live, u.heap, x.heap)
    ensures AllKept(w.live, w.heap, x.heap)
  {
    forall i | 0 <= i < |w.live| ensures Kept(w.live[i], w.heap, x.heap) {
      assert v.live[..|v.live|][i] == v.live[..|w.live|][i] == w.live[i];
      assert Kept(w.live[i], w.heap, v.heap) && Kept(x.live[i], u.heap, x.heap);
      assert Kept(v.live[..|v.live|][i], v.heap, u.heap);
    }
  }

  /** Every chunk that was not there before is an unused small chunk. */
  ghost predicate Leftover(size: nat, h: Heap, g: Heap, unused: seq<nat>) {
    forall c :: c in g && c !in h ==> c in unused && |g[c]| == size
  }

  lemma LeftoverOf(k: Shape, w: World, v: World)
    requires Inv(k, w) && Inv(k, v) && v.st == w.st
    ensures Leftover(k.chunkSize, w.heap, v.heap, v.unused)
  {
    forall c | c in v.heap && c !in w.heap ensures c in v.unused {
      assert c in multiset(v.heap.Keys) && c !in multiset(w.heap.Keys);
      assert c in multiset(v.st.last0) + multiset(v.st.last1) + multiset(v.unused);
      assert c !in multiset(w.st.last0) + multiset(w.st.last1);
    }
  }

  method Grab(p: Pool, size: nat, aligned: bool) returns (ok: bool, last: Option<Block>)
    requires Ready(p, None)
    modifies p
    ensures ok <==> size <= SIZE_MAX
    ensures ok ==> Effect(p.K(), old(p.W()), Allocate(size, aligned), None, p.W(), last)
    ensures ok ==> Ready(p, last) && Ran(old(p.W()), old(p.guard), p.W(), p.guard)
  {
    hide Inv, AllKept, Kept, Reopenable;
    ghost var w := p.W();
    Sizes(p.K(), w);
    if aligned {
      last := p.Alloc(size);
    } else {
      last := p.AllocNoalign(size);
    }
    ok := last.Some?;
    KeptPrefix(w.live, p.guard, w.heap, p.heap);
  }

  method Assemble(p: Pool, first: nat, size: nat) returns (ok: bool, last: Option<Block>)
    requires Ready(p, None)
    modifies p
    ensures ok <==> !Dies(p.K(), old(p.W()), Build(first, size), None)
    ensures ok ==> Effect(p.K(), old(p.W()), Build(first, size), None, p.W(), last)
    ensures ok ==> Ready(p, last) && Ran(old(p.W()), old(p.guard), p.W(), p.guard)
  {
    hide Inv, AllKept, Kept, Reopenable;
    ghost var w := p.W();
    last := None;
    ok := p.Start(first, true);
    ghost var h := p.heap;
    if ok {
      ok := p.Grow(size);
      if ok {
        KeptTrans(w.live, w.heap, h, p.heap);
        var b := p.End(size);
        last := Some(b);
        KeptPrefix(w.live, p.guard, w.heap, p.heap);
      }
    }
  }

  method Retake(p: Pool, size: nat, last: Option<Block>) returns (ok: bool, last': Option<Block>)
    requires Ready(p, last)
    modifies p
    ensures ok <==> !Dies(p.K(), old(p.W()), Resize(size), last)
    ensures ok ==> Effect(p.K(), old(p.W()), Resize(size), last, p.W(), last')
    ensures ok ==> Ready(p, last') && Ran(old(p.W()), old(p.guard), p.W(), p.guard)
  {
    hide Inv, AllKept, Kept, Reopenable;
    ghost var w, n := p.W(), |p.live| - 1;
    if last.None? {
      KeptSame(p.K(), w);
      KeptPrefix(w.live, p.guard, w.heap, w.heap);
      return true, None;
    }
    last' := p.Realloc(last.value, size);
    ok := last'.Some?;
    if ok {
      KeptPrefix(w.live[..n], p.guard, w.heap, p.heap);
      assert w.live[..n][..p.guard] == w.live[..p.guard] == p.live[..p.guard];
    }
  }

  method Put(p: Pool, off: nat, data: seq<int>, last: Option<Block>) returns (ok: bool, last': Option<Block>)
    requires Ready(p, last)
    modifies p
    ensures ok && Effect(p.K(), old(p.W()), Store(off, data), last, p.W(), last')
    ensures Ready(p, last') && Ran(old(p.W()), old(p.guard), p.W(), p.guard)
  {
    hide Inv, Kept, Reopenable, AllKept, Stored;
    ghost var w, n := p.W(), |p.live| - 1;
    ok, last' := true, last;
    if last.Some? && off + |data| <= last.value.len {
      FreeEnd(p.K(), w, n);
      p.Write(last.value, off, data, n);
      FreeEnd(p.K(), p.W(), n);
      StoredOne(w, p.W(), off, data);
      KeptPrefix(w.live[..n], p.guard, w.heap, p.heap);
      assert w.live[..n][..p.guard] == w.live[..p.guard];
    } else {
      RanSelf(p.K(), w, p.guard);
    }
  }

  lemma StoredOne(w: World, v: World, off: nat, data: seq<int>)
    requires v == w.(heap := v.heap) && w.live != []
    requires var n := |w.live| - 1; var b := w.live[n];
      && off + |data| <= b.len
      && b.chunk in w.heap && b.off + b.len <= |w.heap[b.chunk]|
      && b.chunk in v.heap && b.off + b.len <= |v.heap[b.chunk]|
      && Bytes(v.heap, b) == Splice(Bytes(w.heap, b), off, data)
      && forall j :: 0 <= j < |w.live| && j != n ==> Kept(w.live[j], w.heap, v.heap)
    ensures Stored(w, v, w.live[|w.live| - 1], off, data)
  {
    hide Kept, Splice;
  }

  predicate Covers(b: Block, chunk: nat, at: nat) {
    b.chunk == chunk && b.off <= at < b.off + b.len
  }

  /** What a valid pool state means for addresses: every chunk sits in one chain, once; every
      byte of a live block lies in a chunk in use, before the trailer, outside the pool's own
      structure and outside the free ends; and no byte belongs to two live blocks. */
  lemma SafeLayout(k: Shape, w: World)
    requires Inv(k, w)
    ensures forall c :: c in w.heap ==> multiset(w.st.last0)[c] + multiset(w.st.last1)[c] + multiset(w.unused)[c] == 1
    ensures forall i, c: nat, x: nat {:trigger Covers(w.live[i], c, x)} ::
      0 <= i < |w.live| && Covers(w.live[i], c, x) ==>
      && c in w.heap && x < |w.heap[c]| && c !in w.unused
      && (c == k.home ==> x >= POOL_STRUCT)
      && (c == w.st.last0[0] ==> x < |w.heap[c]| - w.st.free0)
      && (w.st.last1 != [] && c == w.st.last1[0] ==> x < |w.heap[c]| - w.st.free1)
    ensures forall i, j, c: nat, x: nat {:trigger Covers(w.live[i], c, x), Covers(w.live[j], c, x)} ::
      0 <= i < |w.live| && 0 <= j < |w.live| && Covers(w.live[i], c, x) && Covers(w.live[j], c, x) ==> i == j
  {
    forall c | c in w.heap
      ensures multiset(w.st.last0)[c] + multiset(w.st.last1)[c] + multiset(w.unused)[c] == 1
    {
      Once(k, w, c);
    }
    forall i, c: nat, x: nat | 0 <= i < |w.live| && Covers(w.live[i], c, x)
      ensures c in w.heap && x < |w.heap[c]| && c !in w.unused && (c == k.home ==> x >= POOL_STRUCT)
      ensures c == w.st.last0[0] ==> x < |w.heap[c]| - w.st.free0
      ensures w.st.last1 != [] && c == w.st.last1[0] ==> x < |w.heap[c]| - w.st.free1
    {
      assert Fits(w.live[i], k, w.st, w.heap);
      Once(k, w, c);
    }
    forall i, j, c: nat, x: nat |
      0 <= i < |w.live| && 0 <= j < |w.live| && Covers(w.live[i], c, x) && Covers(w.live[j], c, x)
      ensures i == j
    {
      assert i < j ==> Clear(w.live[i], w.live[j], w.st.last1);
      assert j < i ==> Clear(w.live[j], w.live[i], w.st.last1);
    }
  }
}
