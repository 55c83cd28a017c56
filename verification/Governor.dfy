/** The governor of the external sorter (generic/sorter/govern.c): it works off a list of
    buckets by dropping, joining, two-way merging, multi-way merging or radix splitting. */
module Governor {
  import opened Basics
  import opened Ordering
  import opened HashBits
  import opened RadixSort
  import opened Buckets
  import ParallelRadix
  import ArraySort
  import Twoway
  import Multiway

  /** Everything that is fixed during a run. `memory` is the number of bytes that are thought to
      fit in memory; the flags say which strategies exist or are switched off. */
  datatype Config<!T> = Config(
    ctx: Context<T>, lim: ParallelRadix.Limits,
    eltSize: nat, maxKeys: nat, memory: nat,
    haveRadix: bool, haveMultiway: bool, noJoin: bool, noPresort: bool,
    minRadixBits: nat, maxRadixBits: nat, addRadixBits: nat,
    minMultiwayBits: nat, maxMultiwayBits: nat)

  /** What the callers of the sorter guarantee: a monotone hash, and a buffer that holds at most
      as many records as quicksort can index. */
  ghost predicate Proper<T(!new)>(cfg: Config<T>) {
    Monotone(cfg.ctx) && cfg.eltSize >= 1 && cfg.maxKeys <= Quicksort.MAX_ELTS
  }

  const PAGE := 4096                // CPU_PAGE_SIZE
  const WORDS := 0x1_0000_0000_0000_0000

  /** P(internal_num_keys): how many keys fit in the buffer, each with its workspace. */
  function NumKeys(buffer: nat, keySize: nat, workspace: nat): (n: nat)
    requires keySize >= 1 && buffer >= PAGE
  {
    Min((if workspace > 0 then buffer - PAGE else buffer) / (keySize + workspace), 0xFFFF_FFFF)
  }

  /** The configuration belongs to a buffer of this many bytes, of which there are at least two
      pages; the estimate of what fits in memory is unsigned and multiplied by 0.8. */
  predicate Buffered<T>(cfg: Config<T>, buffer: nat, workspace: nat) {
    && cfg.eltSize >= 1 && buffer >= 2 * PAGE && cfg.maxKeys == NumKeys(buffer, cfg.eltSize, workspace)
    && cfg.memory == (cfg.maxKeys * cfg.eltSize + WORDS - 1) % WORDS * 8 / 10
  }

  /** With the smallest buffer and a radix sort in memory, keys over 2048 bytes do not fit. */
  lemma NoRoom<T>(cfg: Config<T>)
    requires Buffered(cfg, 2 * PAGE, cfg.eltSize)
    ensures cfg.maxKeys == 0 <==> cfg.eltSize > PAGE / 2
  {
    var n := cfg.eltSize + cfg.eltSize;
    assert PAGE / n == 0 <==> PAGE < n;
  }

  function Min(a: nat, b: nat): nat {
    if a < b then a else b
  }

  function MakeBucket<T>(cfg: Config<T>, data: seq<T>, runs: nat, hashBits: nat): (b: Bucket<T>) {
    Bucket(data, |data| * cfg.eltSize, runs, hashBits, data != [])
  }

  lemma MakeBucketSize<T>(cfg: Config<T>, data: seq<T>, runs: nat, hashBits: nat)
    requires cfg.eltSize >= 1
    ensures data != [] <==> MakeBucket(cfg, data, runs, hashBits).size > 0
  {
  }

  /** `t` is a sorted permutation of `s`. */
  ghost predicate SortedPerm<T>(t: seq<T>, s: seq<T>, key: T -> int) {
    Sorted(t, key) && multiset(t) == multiset(s)
  }

  lemma AgreeSlice<T>(s: seq<T>, ctx: Context<T>, bits: nat, lo: nat, hi: nat)
    requires Agree(s, ctx, bits) && lo <= hi <= |s|
    ensures Agree(s[lo..hi], ctx, bits)
  {
  }

  /** The presorter (P(internal) in generic/sorter/s-fixint.h): takes as many records as fit,
      sorts them in memory, and reports whether there may be more. */
  method Internal<T(!new)>(cfg: Config<T>, data: seq<T>, hashBits: nat)
    returns (chunk: seq<T>, rest: seq<T>, more: bool)
    requires Proper(cfg) && Agree(data, cfg.ctx, hashBits)
    ensures var n := Min(|data|, cfg.maxKeys);
      && rest == data[n..] && SortedPerm(chunk, data[..n], cfg.ctx.key) && |chunk| == n
      && (more <==> n > 0 && n == cfg.maxKeys)
    ensures Agree(rest, cfg.ctx, hashBits)
  {
    hide Sorted, Agree, Monotone;
    var n := Min(|data|, cfg.maxKeys);
    AgreeSlice(data, cfg.ctx, hashBits, 0, n);
    AgreeSlice(data, cfg.ctx, hashBits, n, |data|);
    assert data[0..n] == data[..n] && data[n..|data|] == data[n..];
    if n == 0 {
      PartsStart<T>(cfg.ctx.key);
      return [], data, false;
    }
    var x := new T[n](i requires 0 <= i < |data| => data[i]);
    var y := new T[n](i requires 0 <= i < |data| => data[i]);
    assert x[..] == data[..n];
    var inBuffer, _ := ArraySort.Run(x, y, cfg.ctx, cfg.lim, hashBits, cfg.haveRadix);
    chunk := if inBuffer then y[..] else x[..];
    rest := data[n..];
    more := n == cfg.maxKeys;
  }

  /** Two sequences of runs: how often each grew. */
  ghost predicate RunsBounded<T>(s: seq<T>, runs: nat, key: T -> int) {
    Twoway.Runs(s, 0, key, false) <= runs && (s == [] <==> runs == 0)
  }

  /** A presorted chunk adds at most one run. */
  lemma AddRun<T>(s: seq<T>, runs: nat, chunk: seq<T>, key: T -> int)
    requires RunsBounded(s, runs, key) && Sorted(chunk, key)
    ensures chunk != [] ==> RunsBounded(s + chunk, runs + 1, key)
    ensures chunk == [] ==> s + chunk == s
  {
    Twoway.RunsConcat(s, chunk, key, false);
    Twoway.OneRunSorted(chunk, 0, key);
  }

  /** How many chunks of at most `room` records there are. */
  ghost function Chunks(n: nat, room: nat): (k: nat)
    requires room >= 1
  {
    if n == 0 then 0 else if n <= room then 1 else 1 + Chunks(n - room, room)
  }

  /** The presorting pass of sorter_twoway: chunks go alternately to two buckets. */
  method PresortTwo<T(!new)>(cfg: Config<T>, first: seq<T>, data: seq<T>, hashBits: nat)
    returns (ins0: seq<T>, ins1: seq<T>, runs0: nat, runs1: nat)
    requires Proper(cfg) && cfg.maxKeys >= 1 && Agree(data, cfg.ctx, hashBits)
    requires Sorted(first, cfg.ctx.key) && first != []
    ensures multiset(ins0) + multiset(ins1) == multiset(first) + multiset(data)
    ensures RunsBounded(ins0, runs0, cfg.ctx.key) && RunsBounded(ins1, runs1, cfg.ctx.key)
    ensures runs1 <= runs0 <= runs1 + 1 && runs0 + runs1 == 1 + Chunks(|data|, cfg.maxKeys)
  {
    hide Sorted, Agree, RunsBounded;
    FirstRun(first, cfg.ctx.key);
    ins0, ins1, runs0, runs1 := first, [], 1, 0;
    var rest, more, second := data, true, true;
    while more
      invariant multiset(ins0) + multiset(ins1) + multiset(rest) == multiset(first) + multiset(data)
      invariant RunsBounded(ins0, runs0, cfg.ctx.key) && RunsBounded(ins1, runs1, cfg.ctx.key)
      invariant Agree(rest, cfg.ctx, hashBits) && (!more ==> rest == [])
      invariant runs1 <= runs0 <= runs1 + 1 && (more ==> (second <==> runs0 == runs1 + 1))
      invariant runs0 + runs1 + Chunks(|rest|, cfg.maxKeys) == 1 + Chunks(|data|, cfg.maxKeys)
      decreases more, |rest|
    {
      var before := rest;
      var chunk;
      chunk, rest, more := Internal(cfg, rest, hashBits);
      ghost var n := |chunk|;
      assert before == before[..n] + rest;
      AddRun(ins0, runs0, chunk, cfg.ctx.key);
      AddRun(ins1, runs1, chunk, cfg.ctx.key);
      if chunk != [] {
        if second {
          ins1, runs1 := ins1 + chunk, runs1 + 1;
        } else {
          ins0, runs0 := ins0 + chunk, runs0 + 1;
        }
      }
      second := !second;
    }
  }

  lemma FirstRun<T>(s: seq<T>, key: T -> int)
    requires Sorted(s, key) && s != []
    ensures RunsBounded(s, 1, key) && RunsBounded<T>([], 0, key)
  {
    Twoway.OneRunSorted(s, 0, key);
  }

  /** The merging passes of sorter_twoway: each pass at least halves the larger run count
      (rounded up), until one sorted run is left. With `join`, the last pass goes straight to
      the output file; `joined` says whether it did. */
  method MergePasses<T>(a0: seq<T>, a1: seq<T>, r0: nat, r1: nat, join: bool, key: T -> int)
    returns (out: seq<T>, runs: nat, joined: bool, ghost passes: nat)
    requires RunsBounded(a0, r0, key) && RunsBounded(a1, r1, key)
    ensures Sorted(out, key) && multiset(out) == multiset(a0) + multiset(a1)
    ensures !joined ==> runs == if out == [] then 0 else 1
    ensures joined ==> join
    ensures join && r0 <= 1 && r1 <= 1 ==> joined && passes == 1
    ensures passes <= 1 + LogUp(Twoway.Max(Twoway.Runs(a0, 0, key, false), Twoway.Runs(a1, 0, key, false)))
  {
    hide Twoway.Runs, LogUp;
    var ins0, ins1, runs0, runs1 := a0, a1, r0, r1;
    ghost var most := Twoway.Max(Twoway.Runs(a0, 0, key, false), Twoway.Runs(a1, 0, key, false));
    passes := 0;
    while true
      invariant RunsBounded(ins0, runs0, key) && RunsBounded(ins1, runs1, key)
      invariant multiset(ins0) + multiset(ins1) == multiset(a0) + multiset(a1)
      invariant passes + LogUp(Twoway.Max(Twoway.Runs(ins0, 0, key, false), Twoway.Runs(ins1, 0, key, false)))
        <= LogUp(most)
      invariant join && r0 <= 1 && r1 <= 1 ==> passes == 0 && runs0 == r0 && runs1 == r1
      decreases Twoway.Max(Twoway.Runs(ins0, 0, key, false), Twoway.Runs(ins1, 0, key, false))
    {
      passes := passes + 1;
      if runs0 <= 1 && runs1 <= 1 && join {
        var outs0, outs1, n0, n1 := Twoway.Merge(ins0, ins1, false, key);
        Twoway.OneRunSorted(outs0, 0, key);
        return outs0, n0, true, passes;
      }
      var outs0, outs1, n0, n1 := Twoway.Merge(ins0, ins1, true, key);
      PassHalves(Twoway.Max(Twoway.Runs(ins0, 0, key, false), Twoway.Runs(ins1, 0, key, false)),
                 Twoway.Max(Twoway.Runs(outs0, 0, key, false), Twoway.Runs(outs1, 0, key, false)));
      ins0, ins1, runs0, runs1 := outs0, outs1, n0, n1;
      if ins1 == [] {
        break;
      }
    }
    Twoway.OneRunSorted(ins0, 0, key);
    out, runs, joined := ins0, runs0, false;
  }

  /** sorter_twoway on the records of one bucket: presort, then merge. The result is one sorted
      run, either for the output file (`joined`) or for a bucket of its own. A buffer without room
      for one record yields nothing. With presorting switched off it fails: the second input of the
      first pass does not exist, and its runs are asked for. */
  method TwowayData<T(!new)>(cfg: Config<T>, data: seq<T>, hashBits: nat)
    returns (ok: bool, out: seq<T>, runs: nat, joined: bool)
    requires Proper(cfg) && Agree(data, cfg.ctx, hashBits)
    ensures ok <==> !cfg.noPresort
    ensures ok && cfg.maxKeys >= 1 ==> SortedPerm(out, data, cfg.ctx.key)
    ensures ok && cfg.maxKeys == 0 ==> out == [] && !joined
    ensures ok && !joined ==> runs == if out == [] then 0 else 1
    ensures ok && joined ==> !cfg.noJoin
    ensures ok && |data| < cfg.maxKeys ==> (joined <==> !cfg.noJoin && data != [])
  {
    hide Agree, RunsBounded, Proper;
    var join := !cfg.noJoin;
    ok := !cfg.noPresort;
    if !ok {
      return false, [], 0, false;
    }
    var chunk, rest, more := Internal(cfg, data, hashBits);
    assert data == data[..|chunk|] + rest;
    if !more {
      out, runs := chunk, if chunk == [] then 0 else 1;
      joined := join && chunk != [];
    } else {
      var ins0, ins1, runs0, runs1 := PresortTwo(cfg, chunk, rest, hashBits);
      ghost var passes;
      out, runs, joined, passes := MergePasses(ins0, ins1, runs0, runs1, join, cfg.ctx.key);
    }
  }

  /** The presorting pass of sorter_multiway. The first chunk goes straight to the output file if
      it is everything there is. */
  method PresortParts<T(!new)>(cfg: Config<T>, data: seq<T>, hashBits: nat)
    returns (parts: seq<seq<T>>, straight: seq<T>)
    requires Proper(cfg) && Agree(data, cfg.ctx, hashBits)
    ensures forall i :: 0 <= i < |parts| ==> Sorted(parts[i], cfg.ctx.key) && parts[i] != []
    ensures Sorted(straight, cfg.ctx.key)
    ensures cfg.maxKeys >= 1 ==> All(parts) + multiset(straight) == multiset(data)
    ensures cfg.maxKeys == 0 ==> parts == [] && straight == []
    ensures straight != [] ==> parts == [] && !cfg.noJoin
    ensures |data| < cfg.maxKeys ==> (straight != [] <==> !cfg.noJoin && data != [])
    ensures |data| >= cfg.maxKeys >= 1 ==> |parts| == Chunks(|data|, cfg.maxKeys)
    ensures |data| < cfg.maxKeys ==> |parts| <= 1
  {
    hide Sorted, Agree, All, Proper;
    parts, straight := [], [];
    var rest, more := data, true;
    PartsStart<T>(cfg.ctx.key);
    while more
      invariant forall i :: 0 <= i < |parts| ==> Sorted(parts[i], cfg.ctx.key) && parts[i] != []
      invariant Sorted(straight, cfg.ctx.key) && All(parts) + multiset(straight) + multiset(rest) == multiset(data)
      invariant straight != [] ==> parts == [] && !cfg.noJoin && !more
      invariant Agree(rest, cfg.ctx, hashBits) && (cfg.maxKeys >= 1 && !more ==> rest == [])
      invariant cfg.maxKeys == 0 ==> parts == [] && straight == []
      invariant |data| < cfg.maxKeys && more ==> parts == [] && straight == [] && rest == data
      invariant |data| < cfg.maxKeys ==> |parts| <= 1
      invariant |data| >= cfg.maxKeys >= 1 ==> straight == []
      invariant |data| >= cfg.maxKeys >= 1 ==> |parts| + Chunks(|rest|, cfg.maxKeys) == Chunks(|data|, cfg.maxKeys)
      invariant |data| >= cfg.maxKeys >= 1 && parts == [] ==> more && rest == data
      invariant |data| < cfg.maxKeys && !more ==> (straight != [] <==> !cfg.noJoin && data != [])
      decreases more, |rest|
    {
      var before := rest;
      var chunk;
      chunk, rest, more := Internal(cfg, rest, hashBits);
      assert before == before[..|chunk|] + rest;
      if !more && parts == [] && !cfg.noJoin {
        straight := chunk;
      } else if chunk != [] {
        AllConcat(parts, [chunk]);
        AllOne(chunk);
        parts := parts + [chunk];
      }
    }
  }

  lemma PartsStart<T>(key: T -> int)
    ensures All<T>([]) == multiset{} && Sorted<T>([], key)
  {
  }

  /** The merging loop of sorter_multiway: up to `ways` parts from the front of the list become
      one part at its end, until one is left. */
  method MergeParts<T>(parts0: seq<seq<T>>, ways: nat, key: T -> int) returns (out: seq<T>)
    requires |parts0| >= 2 && ways >= 2
    requires forall i :: 0 <= i < |parts0| ==> Sorted(parts0[i], key)
    ensures Sorted(out, key) && multiset(out) == All(parts0)
  {
    hide Sorted, All, Multiway.Filter, Multiway.Gather;
    var parts := parts0;
    while true
      invariant |parts| >= 2 && All(parts) == All(parts0)
      invariant forall i :: 0 <= i < |parts| ==> Sorted(parts[i], key)
      decreases |parts|
    {
      var n := Min(ways, |parts|);
      var head, tail := parts[..n], parts[n..];
      assert parts == head + tail;
      AllConcat(head, tail);
      out := Multiway.Merge(head, key);
      if tail == [] {
        assert head == parts;
        return;
      }
      AllConcat(tail, [out]);
      AllOne(out);
      parts := tail + [out];
    }
  }

  /** sorter_multiway on the records of one bucket. */
  method MultiwayData<T(!new)>(cfg: Config<T>, data: seq<T>, hashBits: nat) returns (out: seq<T>, joined: bool)
    requires Proper(cfg) && Agree(data, cfg.ctx, hashBits) && cfg.maxMultiwayBits >= 1
    ensures cfg.maxKeys >= 1 ==> SortedPerm(out, data, cfg.ctx.key)
    ensures cfg.maxKeys == 0 ==> out == [] && !joined
    ensures joined ==> !cfg.noJoin
    ensures cfg.maxKeys >= 1 ==> (joined <==> !cfg.noJoin && data != [] && |data| != cfg.maxKeys)
  {
    hide Sorted, Agree, All, Proper;
    var parts, straight := PresortParts(cfg, data, hashBits);
    if |parts| <= 1 {
      PartsFew(parts, cfg.ctx.key);
      out := if parts == [] then straight else parts[0];
      joined := straight != [];
    } else {
      assert straight == [];
      WaysTwo(cfg.maxMultiwayBits);
      out := MergeParts(parts, Pow2(cfg.maxMultiwayBits), cfg.ctx.key);
      joined := !cfg.noJoin;
    }
  }

  lemma PartsFew<T>(parts: seq<seq<T>>, key: T -> int)
    requires |parts| <= 1
    ensures All(parts) == if parts == [] then multiset{} else multiset(parts[0])
  {
    if parts != [] {
      AllOne(parts[0]);
      assert parts == [parts[0]];
    }
  }

  lemma WaysTwo(bits: nat)
    requires bits >= 1
    ensures Pow2(bits) >= 2
  {
  }

  function BucketDigit<T>(e: T, ctx: Context<T>, bitpos: nat, bits: nat): (d: nat)
    ensures d < Pow2(bits)
  {
    Digit(ctx.hash(e), bitpos, bits)
  }

  /** The records of `s` with digit `d`, in order. */
  ghost function Select<T>(s: seq<T>, ctx: Context<T>, bitpos: nat, bits: nat, d: nat): seq<T> {
    if s == [] then []
    else
      Select(s[..|s| - 1], ctx, bitpos, bits, d)
      + (if BucketDigit(s[|s| - 1], ctx, bitpos, bits) == d then [s[|s| - 1]] else [])
  }

  lemma {:induction false} AllUpdate<T>(ds: seq<seq<T>>, i: nat, x: T)
    requires i < |ds|
    ensures All(ds[i := ds[i] + [x]]) == All(ds) + multiset{x}
  {
    if i == 0 {
      assert ds[0 := ds[0] + [x]][1..] == ds[1..];
    } else {
      AllUpdate(ds[1..], i - 1, x);
      assert ds[i := ds[i] + [x]][1..] == ds[1..][i - 1 := ds[i] + [x]];
    }
  }

  lemma {:induction false} AllEmpty<T>(ds: seq<seq<T>>)
    requires forall i :: 0 <= i < |ds| ==> ds[i] == []
    ensures All(ds) == multiset{}
  {
    if ds != [] {
      AllEmpty(ds[1..]);
    }
  }

  /** P(radix_split) in generic/sorter/s-radix.h: deals the records out by their digit. */
  method SplitByDigit<T>(data: seq<T>, ctx: Context<T>, bitpos: nat, bits: nat) returns (outs: seq<seq<T>>)
    ensures |outs| == Pow2(bits) && All(outs) == multiset(data)
    ensures forall d :: 0 <= d < |outs| ==> outs[d] == Select(data, ctx, bitpos, bits, d)
  {
    hide All, Pow2;
    outs := seq(Pow2(bits), d => []);
    AllEmpty(outs);
    var i := 0;
    while i < |data|
      invariant 0 <= i <= |data| && |outs| == Pow2(bits) && All(outs) == multiset(data[..i])
      invariant forall d :: 0 <= d < |outs| ==> outs[d] == Select(data[..i], ctx, bitpos, bits, d)
    {
      var d := BucketDigit(data[i], ctx, bitpos, bits);
      AllUpdate(outs, d, data[i]);
      assert data[..i + 1] == data[..i] + [data[i]] && data[..i + 1][..i] == data[..i];
      outs := outs[d := outs[d] + [data[i]]];
      i := i + 1;
    }
    assert data[..|data|] == data;
  }

  lemma {:induction false} SelectMember<T>(s: seq<T>, ctx: Context<T>, bitpos: nat, bits: nat, d: nat, x: T)
    requires x in Select(s, ctx, bitpos, bits, d)
    ensures x in s && BucketDigit(x, ctx, bitpos, bits) == d
  {
    if s != [] && x in Select(s[..|s| - 1], ctx, bitpos, bits, d) {
      SelectMember(s[..|s| - 1], ctx, bitpos, bits, d, x);
    }
  }

  /** Digits below the agreeing bits order the selected parts and refine the agreement. */
  lemma SelectRising<T(!new)>(data: seq<T>, ctx: Context<T>, outs: seq<seq<T>>, top: nat, bits: nat)
    requires Monotone(ctx) && Agree(data, ctx, top) && bits <= top
    requires forall d :: 0 <= d < |outs| ==> outs[d] == Select(data, ctx, top - bits, bits, d)
    ensures Rising(outs, ctx.key)
    ensures forall d :: 0 <= d < |outs| ==> Agree(outs[d], ctx, top - bits)
  {
    hide Digit, Shr;
    var shift := top - bits;
    forall i, j | 0 <= i < j < |outs| ensures AtMost(outs[i], outs[j], ctx.key) {
      forall x, y | x in outs[i] && y in outs[j] ensures ctx.key(x) <= ctx.key(y) {
        SelectMember(data, ctx, shift, bits, i, x);
        SelectMember(data, ctx, shift, bits, j, y);
        DigitOrder(ctx.hash(x), ctx.hash(y), top, shift, bits);
      }
    }
    forall d | 0 <= d < |outs| ensures Agree(outs[d], ctx, shift) {
      forall i, j | 0 <= i < |outs[d]| && 0 <= j < |outs[d]|
        ensures Shr(ctx.hash(outs[d][i]), shift) == Shr(ctx.hash(outs[d][j]), shift)
      {
        SelectMember(data, ctx, shift, bits, d, outs[d][i]);
        SelectMember(data, ctx, shift, bits, d, outs[d][j]);
        DigitOrder(ctx.hash(outs[d][i]), ctx.hash(outs[d][j]), top, shift, bits);
      }
    }
  }

  /** The measure of a run: an unsorted bucket weighs `3 * 4^hashBits`, a sorted or empty one 1. */
  ghost function Pow4(n: nat): nat {
    if n == 0 then 1 else 4 * Pow4(n - 1)
  }

  ghost function Weight<T>(b: Bucket<T>): nat {
    if b.runs >= 1 || b.size == 0 then 1 else 3 * Pow4(b.hashBits)
  }

  ghost function Total<T>(bs: seq<Bucket<T>>): nat {
    if bs == [] then 0 else Weight(bs[0]) + Total(bs[1..])
  }

  lemma {:induction false} TotalConcat<T>(a: seq<Bucket<T>>, b: seq<Bucket<T>>)
    ensures Total(a + b) == Total(a) + Total(b)
  {
    if a == [] {
      assert a + b == b;
    } else {
      TotalConcat(a[1..], b);
      assert (a + b)[1..] == a[1..] + b;
    }
  }

  lemma {:induction false} TotalBound<T>(bs: seq<Bucket<T>>, w: nat)
    requires forall i :: 0 <= i < |bs| ==> Weight(bs[i]) <= w
    ensures Total(bs) <= |bs| * w
  {
    if bs != [] {
      TotalBound(bs[1..], w);
      assert |bs| * w == w + |bs[1..]| * w;
    }
  }

  lemma {:induction false} SplitLighter(bits: nat, h: nat)
    requires 1 <= bits <= h
    ensures Pow2(bits) * Pow4(h - bits) * 2 <= Pow4(h)
  {
    var p, q := Pow2(bits - 1), Pow4(h - bits);
    assert Pow2(bits) * q * 2 == p * (4 * q);
    assert Pow4(h - bits + 1) == 4 * q;
    if bits == 1 {
    } else {
      SplitLighter(bits - 1, h);
      assert p * (4 * q) * 2 <= Pow4(h);
    }
  }

  /** Replacing the first waiting bucket by lighter ones makes the list lighter. */
  lemma LighterList<T>(bs: seq<Bucket<T>>, first: Bucket<T>, parts: seq<Bucket<T>>)
    requires |bs| >= 2 && Total(parts) < Weight(bs[1])
    ensures Total(([first] + parts + bs[2..])[1..]) < Total(bs[1..])
  {
    assert ([first] + parts + bs[2..])[1..] == parts + bs[2..];
    assert bs[1..][0] == bs[1] && bs[1..][1..] == bs[2..];
    TotalConcat(parts, bs[2..]);
  }

  /** How many bits of a bucket's size have to go before it fits in memory. */
  function BitsNeeded(size: nat, memory: nat): (bits: nat)
    ensures bits == 0 <==> size <= memory
  {
    if size <= memory then 0 else 1 + BitsNeeded(size / 2, memory)
  }

  lemma {:induction false} BitsNeededShift(size: nat, memory: nat, k: nat)
    requires k <= BitsNeeded(size, memory)
    ensures BitsNeeded(Shr(size, k), memory) == BitsNeeded(size, memory) - k
  {
    if k > 0 {
      BitsNeededShift(size / 2, memory, k - 1);
    }
  }

  /** Needed bits are the least shift that makes the size fit. */
  lemma BitsNeededLeast(size: nat, memory: nat, k: nat)
    ensures k <= BitsNeeded(size, memory) ==> (Shr(size, k) <= memory <==> k == BitsNeeded(size, memory))
  {
    if k <= BitsNeeded(size, memory) {
      BitsNeededShift(size, memory, k);
    }
  }

  /** The counting loop of sorter_decide: the least shift that fits. */
  method CountBits(size: nat, memory: nat) returns (bits: nat)
    ensures Shr(size, bits) <= memory && forall k :: 0 <= k < bits ==> Shr(size, k) > memory
    ensures bits == BitsNeeded(size, memory)
  {
    hide Shr, BitsNeeded;
    bits := 0;
    BitsNeededLeast(size, memory, 0);
    while Shr(size, bits) > memory
      invariant bits <= BitsNeeded(size, memory)
      invariant forall k :: 0 <= k < bits ==> Shr(size, k) > memory
      decreases BitsNeeded(size, memory) - bits
    {
      BitsNeededLeast(size, memory, bits);
      bits := bits + 1;
    }
    BitsNeededLeast(size, memory, bits);
  }

  datatype Strategy = Drop | Join | Twoway | Multiway | Radix(bits: nat)

  /** The decision of sorter_decide for one bucket whose size must shrink by `bits` bits. */
  function ChooseBy<T>(cfg: Config<T>, b: Bucket<T>, bits: nat): (s: Strategy)
    ensures s.Radix? ==> 1 <= s.bits <= Min(b.hashBits, cfg.maxRadixBits) && b.runs == 0 && b.size > 0
    ensures s.Multiway? ==> cfg.maxMultiwayBits >= 1 && !cfg.noPresort && b.runs == 0 && b.size > 0
    ensures s.Twoway? ==> b.runs == 0 && b.size > 0
    ensures s.Join? ==> b.runs >= 1
    ensures s.Drop? <==> b.size == 0
  {
    var r := Min(Min(bits, b.hashBits), cfg.maxRadixBits);
    var radixBits := if !cfg.haveRadix || r < cfg.minRadixBits then 0 else r;
    var m := Min(bits, cfg.maxMultiwayBits);
    var multiwayBits := if !cfg.haveMultiway || cfg.noPresort || m < cfg.minMultiwayBits then 0 else m;
    if b.size == 0 then Drop
    else if b.runs != 0 then Join
    else if bits == 0 then Twoway
    else if radixBits == bits then Radix(radixBits)
    else if multiwayBits == bits then Multiway
    else if radixBits != 0 then Radix(radixBits)
    else if multiwayBits != 0 then Multiway
    else Twoway
  }

  function Choose<T>(cfg: Config<T>, b: Bucket<T>): (s: Strategy) {
    ChooseBy(cfg, b, BitsNeeded(b.size, cfg.memory))
  }

  /** `bits` is the least shift that makes the size fit in memory. */
  ghost predicate Needs(size: nat, memory: nat, bits: nat) {
    Shr(size, bits) <= memory && forall k :: 0 <= k < bits ==> Shr(size, k) > memory
  }

  lemma NeedsIs(size: nat, memory: nat)
    ensures Needs(size, memory, BitsNeeded(size, memory))
  {
    forall k | 0 <= k <= BitsNeeded(size, memory) ensures Shr(size, k) <= memory <==> k == BitsNeeded(size, memory) {
      BitsNeededLeast(size, memory, k);
    }
  }

  /** By how many bits one radix split could reduce a bucket. */
  function SplitBits<T>(cfg: Config<T>, b: Bucket<T>): (r: nat) {
    Min(Min(BitsNeeded(b.size, cfg.memory), b.hashBits), cfg.maxRadixBits)
  }

  predicate Splittable<T>(cfg: Config<T>, b: Bucket<T>) {
    cfg.haveRadix && SplitBits(cfg, b) >= 1 && SplitBits(cfg, b) >= cfg.minRadixBits
  }

  /** By how many bits one multi-way merge could reduce it. */
  function MergeBits<T>(cfg: Config<T>, b: Bucket<T>): (m: nat) {
    Min(BitsNeeded(b.size, cfg.memory), cfg.maxMultiwayBits)
  }

  predicate Mergeable<T>(cfg: Config<T>, b: Bucket<T>) {
    cfg.haveMultiway && !cfg.noPresort && MergeBits(cfg, b) >= 1 && MergeBits(cfg, b) >= cfg.minMultiwayBits
  }

  predicate Unsorted<T>(b: Bucket<T>) {
    b.size > 0 && b.runs == 0
  }

  /** A radix split comes first if it reduces everything in one pass; if it does not, it gives way
      to a multi-way merge that does. */
  predicate Splits<T>(cfg: Config<T>, b: Bucket<T>) {
    var bits := BitsNeeded(b.size, cfg.memory);
    && Unsorted(b) && bits > 0 && Splittable(cfg, b)
    && (Mergeable(cfg, b) && MergeBits(cfg, b) == bits ==> SplitBits(cfg, b) == bits)
  }

  /** The two-way strategy is for what fits in memory and for what cannot be reduced otherwise. */
  predicate Pairs<T>(cfg: Config<T>, b: Bucket<T>) {
    Unsorted(b) && (b.size <= cfg.memory || (!Splittable(cfg, b) && !Mergeable(cfg, b)))
  }

  /** Which strategy a bucket gets. */
  lemma ChoiceExact<T>(cfg: Config<T>, b: Bucket<T>)
    ensures var s := Choose(cfg, b);
      && (s.Drop? <==> b.size == 0) && (s.Join? <==> b.size > 0 && b.runs > 0)
      && (s.Radix? <==> Splits(cfg, b)) && (s.Radix? ==> s.bits == SplitBits(cfg, b))
      && (s.Twoway? <==> Pairs(cfg, b))
      && (s.Multiway? <==> Unsorted(b) && !Splits(cfg, b) && !Pairs(cfg, b)) && (s.Multiway? ==> Mergeable(cfg, b))
  {
  }

  /** The bits that sorter_radix takes: it adds some to those chosen, up to the maximum of the
      configuration, but does not look at the hash bits the bucket has left. */
  function TakenBits<T>(cfg: Config<T>, b: Bucket<T>): (bits: nat) {
    Min(SplitBits(cfg, b) + cfg.addRadixBits, cfg.maxRadixBits)
  }

  predicate Overshoots<T>(cfg: Config<T>, b: Bucket<T>) {
    Splits(cfg, b) && TakenBits(cfg, b) > b.hashBits
  }

  /** The two-way strategy is taken although presorting is switched off. */
  predicate Unpresorted<T>(cfg: Config<T>, b: Bucket<T>) {
    cfg.noPresort && Pairs(cfg, b)
  }

  /** Without additional bits no split overshoots. */
  lemma NoExtraBits<T>(cfg: Config<T>, b: Bucket<T>)
    requires cfg.addRadixBits == 0
    ensures !Overshoots(cfg, b)
  {
  }

  /** With `h` hash bits left, unsorted buckets of some size overshoot exactly when bits are
      added, `h` is enough for a split, and the configuration allows more than `h`. */
  lemma OvershootExact<T>(cfg: Config<T>, h: nat)
    ensures (exists size: nat :: size > 0 && Overshoots(cfg, Bucket([], size, 0, h, true))) <==>
      cfg.haveRadix && cfg.addRadixBits > 0 && 1 <= h && cfg.minRadixBits <= h < cfg.maxRadixBits
  {
    if cfg.haveRadix && cfg.addRadixBits > 0 && 1 <= h && cfg.minRadixBits <= h < cfg.maxRadixBits {
      var size := SizeFor(cfg.memory, h);
      assert Overshoots(cfg, Bucket([], size, 0, h, true));
    }
  }

  /** A size that needs just `h` bits. */
  lemma {:induction false} SizeFor(memory: nat, h: nat) returns (size: nat)
    requires h > 0
    ensures size > 0 && BitsNeeded(size, memory) == h
  {
    if h == 1 {
      size := memory + 1;
    } else {
      var half := SizeFor(memory, h - 1);
      size := 2 * half;
    }
  }

  /** A configuration with the smallest buffer, one-byte keys that are sorted by radix in memory,
      and 4 bits added to every split. */
  function SmallConfig<T>(ctx: Context<T>, lim: ParallelRadix.Limits): (cfg: Config<T>) {
    Config(ctx, lim, 1, 2048, 1637, true, true, false, false, 2, 16, 4, 2, 8)
  }

  /** For example: 65536 such records with 8 hash bits. They need 6 bits, and 10 are taken. */
  lemma OvershootExample<T>(ctx: Context<T>, lim: ParallelRadix.Limits, input: seq<T>)
    requires |input| == 65536
    ensures Buffered(SmallConfig(ctx, lim), 2 * PAGE, 1)
    ensures Overshoots(SmallConfig(ctx, lim), Bucket(input, |input|, 0, 8, true))
  {
    assert BitsNeeded(65536, 1637) == 6 by {
      assert BitsNeeded(1024, 1637) == 0;
      assert BitsNeeded(4096, 1637) == 2;
      assert BitsNeeded(16384, 1637) == 4;
    }
  }

  /** The sort of these records fails in its first step. */
  method OvershootRun<T(!new)>(ctx: Context<T>, lim: ParallelRadix.Limits, input: seq<T>)
    returns (sorter: Sorter<T>, ok: bool)
    requires |input| == 65536 && Monotone(ctx)
    requires forall i :: 0 <= i < |input| ==> ctx.hash(input[i]) < Pow2(8)
    ensures !ok && |sorter.buckets| == 2 && sorter.buckets[1].data == input && sorter.buckets[1].runs == 0
  {
    hide Pow2, Overshoots, Buffered;
    ArraySort.HashesAgree(input, ctx, 8);
    sorter := new Sorter(SmallConfig(ctx, lim), input, |input|, [], false, 8);
    OvershootExample(ctx, lim, input);
    ghost var trace;
    ok, trace := sorter.Run([], multiset(input));
  }

  /** `s` holds exactly the records of `input`, sorted. */
  ghost predicate SortedTo<T>(s: seq<T>, input: multiset<T>, key: T -> int) {
    Sorted(s, key) && multiset(s) == input
  }

  /** Nothing can be sorted: no record fits in the buffer, or presorting is switched off. */
  predicate Idle<T>(cfg: Config<T>) {
    cfg.maxKeys == 0 || cfg.noPresort
  }

  /** When nothing can be sorted, the output stays as it was and every waiting bucket is unsorted. */
  ghost predicate Starved<T>(bs: seq<Bucket<T>>, prefix: seq<T>, ctx: Context<T>) {
    && |bs| >= 1 && bs[0].data == prefix
    && forall i :: 1 <= i < |bs| ==> bs[i].runs == 0 && Agree(bs[i].data, ctx, bs[i].hashBits)
  }

  /** What every step of the governor keeps. */
  ghost predicate Kept<T(!new)>(cfg: Config<T>, bs: seq<Bucket<T>>, prefix: seq<T>, input: multiset<T>) {
    && Proper(cfg)
    && (cfg.maxKeys >= 1 ==> Governed(bs, prefix, input, cfg.ctx))
    && (Idle(cfg) ==> Starved(bs, prefix, cfg.ctx))
  }

  /** The final bucket with a sorted one behind its records. */
  function WithRun<T>(last: Bucket<T>, b: Bucket<T>): (last': Bucket<T>) {
    if !last.hasFile then b.(hasFile := true) else last.(data := last.data + b.data, size := last.size + b.size)
  }

  /** The final bucket with records written to its file. */
  function WithRecords<T>(cfg: Config<T>, last: Bucket<T>, out: seq<T>): (last': Bucket<T>) {
    last.(data := last.data + out, size := last.size + |out| * cfg.eltSize, hasFile := true)
  }

  /** What is sorted in memory by the two-way strategy, and everything but exactly one full buffer
      by a multi-way merge, is joined unless joining is switched off. */
  predicate JoinsWhen<T>(cfg: Config<T>, b: Bucket<T>, joined: bool) {
    && (Pairs(cfg, b) && |b.data| < cfg.maxKeys ==> (joined <==> !cfg.noJoin && |b.data| > 0))
    && (!Pairs(cfg, b) && cfg.maxKeys >= 1 ==> (joined <==> !cfg.noJoin && |b.data| > 0 && |b.data| != cfg.maxKeys))
  }

  /** The first waiting bucket is sorted into `out`, which goes to the final bucket or takes its
      place in the list; a multi-way merge keeps no empty bucket. */
  ghost predicate PutInPlace<T>(cfg: Config<T>, bs: seq<Bucket<T>>, bs': seq<Bucket<T>>, out: seq<T>, joined: bool) {
    && |bs| >= 2
    && (if cfg.maxKeys >= 1 then SortedPerm(out, bs[1].data, cfg.ctx.key) else out == [])
    && (joined ==> !cfg.noJoin) && JoinsWhen(cfg, bs[1], joined)
    && bs' == if joined then [WithRecords(cfg, bs[0], out)] + bs[2..]
              else if out == [] && !Pairs(cfg, bs[1]) then [bs[0]] + [] + bs[2..]
              else [bs[0]] + [MakeBucket(cfg, out, if out == [] then 0 else 1, 0)] + bs[2..]
  }

  ghost predicate SortedInto<T(!new)>(cfg: Config<T>, bs: seq<Bucket<T>>, bs': seq<Bucket<T>>) {
    exists out, joined :: PutInPlace(cfg, bs, bs', out, joined)
  }

  /** The first waiting bucket is dealt out by its next `bits` hash bits. */
  ghost predicate SplitInto<T>(cfg: Config<T>, bs: seq<Bucket<T>>, bs': seq<Bucket<T>>, bits: nat) {
    && |bs| >= 2 && bits <= bs[1].hashBits && |bs'| == Pow2(bits) + |bs| - 1
    && bs'[0] == bs[0] && bs'[Pow2(bits) + 1..] == bs[2..]
    && forall i :: 1 <= i <= Pow2(bits) ==>
         bs'[i] == MakeBucket(cfg, Select(bs[1].data, cfg.ctx, bs[1].hashBits - bits, bits, i - 1), 0,
                              bs[1].hashBits - bits)
  }

  /** One step of the governor that does not fail. */
  ghost predicate Steps<T(!new)>(cfg: Config<T>, bs: seq<Bucket<T>>, bs': seq<Bucket<T>>) {
    && |bs| >= 2 && !Overshoots(cfg, bs[1]) && !Unpresorted(cfg, bs[1])
    && if bs[1].size == 0 then bs' == [bs[0]] + bs[2..]
       else if bs[1].runs > 0 then bs' == [WithRun(bs[0], bs[1])] + bs[2..]
       else if Splits(cfg, bs[1]) then SplitInto(cfg, bs, bs', TakenBits(cfg, bs[1]))
       else SortedInto(cfg, bs, bs')
  }

  /** Each list follows from the one before. */
  ghost predicate Traced<T(!new)>(cfg: Config<T>, trace: seq<seq<Bucket<T>>>) {
    forall i, j :: 0 <= i && j == i + 1 && j < |trace| ==> Steps(cfg, trace[i], trace[j])
  }

  /** The state of a sort: the bucket list, with the final bucket at its head. */
  class Sorter<T(!new)> {
    const cfg: Config<T>
    var buckets: seq<Bucket<T>>

    ghost predicate Valid(prefix: seq<T>, input: multiset<T>)
      reads this
    {
      Kept(cfg, buckets, prefix, input)
    }

    /** The bucket list of sorter_run: the output bucket and the source. */
    constructor (cfg: Config<T>, input: seq<T>, inSize: nat, output: seq<T>, hasOutput: bool, hashBits: nat)
      requires Proper(cfg) && Agree(input, cfg.ctx, hashBits) && (input != [] ==> inSize > 0)
      requires !hasOutput ==> output == []
      ensures this.cfg == cfg && Valid(output, multiset(input))
      ensures |buckets| == 2 && buckets[1] == Bucket(input, inSize, 0, hashBits, true)
    {
      this.cfg := cfg;
      buckets := [Bucket(output, |output| * cfg.eltSize, 1, 0, hasOutput), Bucket(input, inSize, 0, hashBits, true)];
      new;
      StartKept(cfg, buckets, output, input);
    }

    /** A sorted bucket goes to the end of the final one, or replaces it if that has no file. */
    method JoinFirst(ghost prefix: seq<T>, ghost input: multiset<T>)
      requires Valid(prefix, input) && |buckets| >= 2 && buckets[1].runs >= 1 && !Idle(cfg)
      modifies this
      ensures Valid(prefix, input) && Total(buckets[1..]) < old(Total(buckets[1..]))
      ensures buckets == [WithRun(old(buckets)[0], old(buckets)[1])] + old(buckets)[2..]
    {
      hide Rising, All, Monotone, Sorted, Agree;
      var last, b := buckets[0], buckets[1];
      var last' := WithRun(last, b);
      AppendGoverned(buckets, b.data, last', prefix, input, cfg.ctx);
      LighterList(buckets, last', []);
      assert [last'] + [] + buckets[2..] == [last'] + buckets[2..];
      buckets := [last'] + buckets[2..];
    }

    /** Puts the sorted records of the first waiting bucket into the output file or back into the list. */
    method Replace(out: seq<T>, joined: bool, insert: bool, ghost prefix: seq<T>, ghost input: multiset<T>)
      requires Valid(prefix, input) && |buckets| >= 2 && buckets[1].runs == 0 && buckets[1].size > 0
      requires !cfg.noPresort && (cfg.maxKeys >= 1 ==> SortedPerm(out, buckets[1].data, cfg.ctx.key))
      requires (cfg.maxKeys == 0 ==> out == [] && !joined) && (insert <==> out != [] || Pairs(cfg, buckets[1]))
      requires joined ==> !cfg.noJoin
      requires JoinsWhen(cfg, buckets[1], joined)
      modifies this
      ensures Valid(prefix, input) && Total(buckets[1..]) < old(Total(buckets[1..]))
      ensures SortedInto(cfg, old(buckets), buckets)
    {
      hide Governed, Starved, Proper, Pairs;
      var last := buckets[0];
      ghost var was := buckets;
      Heavy(buckets[1]);
      if joined {
        var last' := WithRecords(cfg, last, out);
        AppendKept(cfg, buckets, out, last', prefix, input);
        LighterList(buckets, last', []);
        assert [last'] + [] + buckets[2..] == [last'] + buckets[2..];
        buckets := [last'] + buckets[2..];
      } else {
        var parts := if insert then [MakeBucket(cfg, out, if out == [] then 0 else 1, 0)] else [];
        OnePart(cfg, buckets, out, parts, prefix, input);
        LighterList(buckets, last, parts);
        buckets := [last] + parts + buckets[2..];
      }
      assert PutInPlace(cfg, was, buckets, out, joined);
    }

    /** sorter_twoway: it succeeds exactly when presorting is on. */
    method TwowayFirst(ghost prefix: seq<T>, ghost input: multiset<T>) returns (ok: bool)
      requires Valid(prefix, input) && |buckets| >= 2 && Pairs(cfg, buckets[1])
      modifies this
      ensures ok <==> !cfg.noPresort
      ensures ok ==> Valid(prefix, input) && Total(buckets[1..]) < old(Total(buckets[1..]))
      ensures ok ==> SortedInto(cfg, old(buckets), buckets)
      ensures !ok ==> buckets == old(buckets)
    {
      FirstWaiting(cfg, buckets, prefix, input);
      var out, runs, joined;
      ok, out, runs, joined := TwowayData(cfg, buckets[1].data, buckets[1].hashBits);
      if ok {
        Replace(out, joined, true, prefix, input);
      }
    }

    /** sorter_multiway. */
    method MultiwayFirst(ghost prefix: seq<T>, ghost input: multiset<T>)
      requires Valid(prefix, input) && |buckets| >= 2 && Unsorted(buckets[1])
      requires Mergeable(cfg, buckets[1]) && !Pairs(cfg, buckets[1])
      modifies this
      ensures Valid(prefix, input) && Total(buckets[1..]) < old(Total(buckets[1..]))
      ensures SortedInto(cfg, old(buckets), buckets)
    {
      FirstWaiting(cfg, buckets, prefix, input);
      var out, joined := MultiwayData(cfg, buckets[1].data, buckets[1].hashBits);
      Replace(out, joined, out != [], prefix, input);
    }

    /** sorter_radix: it succeeds exactly when the bucket has as many hash bits as it takes. */
    method RadixFirst(radixBits: nat, ghost prefix: seq<T>, ghost input: multiset<T>) returns (ok: bool)
      requires Valid(prefix, input) && |buckets| >= 2 && buckets[1].runs == 0 && buckets[1].size > 0
      requires 1 <= radixBits <= cfg.maxRadixBits
      modifies this
      ensures ok <==> Min(radixBits + cfg.addRadixBits, cfg.maxRadixBits) <= old(buckets)[1].hashBits
      ensures ok ==> Valid(prefix, input) && Total(buckets[1..]) < old(Total(buckets[1..]))
      ensures ok ==> SplitInto(cfg, old(buckets), buckets, Min(radixBits + cfg.addRadixBits, cfg.maxRadixBits))
      ensures !ok ==> buckets == old(buckets)
    {
      hide Kept, Total, Weight, Rising, Agree, All, Monotone, Select, Pow2;
      var b := buckets[1];
      var bits := Min(radixBits + cfg.addRadixBits, cfg.maxRadixBits);
      ok := bits <= b.hashBits;
      if ok {
        FirstWaiting(cfg, buckets, prefix, input);
        var outs := SplitByDigit(b.data, cfg.ctx, b.hashBits - bits, bits);
        SelectRising(b.data, cfg.ctx, outs, b.hashBits, bits);
        var parts := seq(|outs|, i requires 0 <= i < |outs| => MakeBucket(cfg, outs[i], 0, b.hashBits - bits));
        SplitParts(cfg, buckets, outs, parts, bits, prefix, input);
        LighterList(buckets, buckets[0], parts);
        buckets := [buckets[0]] + parts + buckets[2..];
      }
    }

    /** sorter_decide: one step of the governor. */
    method Decide(ghost prefix: seq<T>, ghost input: multiset<T>) returns (ok: bool)
      requires Valid(prefix, input) && |buckets| >= 2
      modifies this
      ensures ok <==> !Overshoots(cfg, old(buckets)[1]) && !Unpresorted(cfg, old(buckets)[1])
      ensures ok ==> Valid(prefix, input) && Total(buckets[1..]) < old(Total(buckets[1..]))
      ensures ok ==> Steps(cfg, old(buckets), buckets)
      ensures !ok ==> buckets == old(buckets)
    {
      hide Kept, ChooseBy, SplitInto, SortedInto, Splits, Pairs, Mergeable, SplitBits, MergeBits, BitsNeeded;
      ok := true;
      ChoiceExact(cfg, buckets[1]);
      FirstWaiting(cfg, buckets, prefix, input);
      var bits := CountBits(buckets[1].size, cfg.memory);
      match ChooseBy(cfg, buckets[1], bits)
      case Drop =>
        EmptyDrop(cfg, buckets, prefix, input);
        LighterList(buckets, buckets[0], []);
        buckets := [buckets[0]] + [] + buckets[2..];
      case Join =>
        JoinFirst(prefix, input);
      case Twoway =>
        ok := TwowayFirst(prefix, input);
      case Multiway =>
        MultiwayFirst(prefix, input);
      case Radix(radixBits) =>
        ok := RadixFirst(radixBits, prefix, input);
    }

    /** sorter_run: the loop ends with the old output followed by the sorted input, if the buffer
        has room for a record; if not, all records are lost. It fails only in front of a bucket
        that overshoots, and only if extra radix bits are configured; or, with presorting switched
        off, in front of one for the two-way strategy, and then whenever there is a record. */
    method Run(ghost prefix: seq<T>, ghost input: multiset<T>)
      returns (ok: bool, ghost trace: seq<seq<Bucket<T>>>)
      requires Valid(prefix, input)
      modifies this
      ensures trace != [] && trace[0] == old(buckets) && trace[|trace| - 1] == buckets && Traced(cfg, trace)
      ensures ok ==> |buckets| == 1 && prefix <= buckets[0].data
      ensures ok && cfg.maxKeys >= 1 ==> SortedTo(buckets[0].data[|prefix|..], input, cfg.ctx.key)
      ensures ok && cfg.maxKeys == 0 ==> buckets[0].data == prefix
      ensures ok && cfg.noPresort && cfg.maxKeys >= 1 ==> input == multiset{}
      ensures cfg.addRadixBits == 0 && !cfg.noPresort ==> ok
      ensures !ok ==> Valid(prefix, input) && |buckets| >= 2
      ensures !ok ==> Overshoots(cfg, buckets[1]) || Unpresorted(cfg, buckets[1])
      ensures |old(buckets)| >= 2 && Overshoots(cfg, old(buckets)[1]) ==> !ok && buckets == old(buckets)
    {
      hide Kept, Total, Overshoots, Unpresorted, Steps;
      KeptList(cfg, buckets, prefix, input);
      trace := [buckets];
      while |buckets| >= 2
        invariant Valid(prefix, input) && |buckets| >= 1
        invariant trace != [] && trace[0] == old(buckets) && trace[|trace| - 1] == buckets && Traced(cfg, trace)
        invariant |old(buckets)| >= 2 && Overshoots(cfg, old(buckets)[1]) ==> buckets == old(buckets)
        decreases Total(buckets[1..])
      {
        var b := buckets[1];
        ok := Decide(prefix, input);
        if cfg.addRadixBits == 0 {
          NoExtraBits(cfg, b);
        }
        Presorted(cfg, b);
        if !ok {
          return;
        }
        trace := trace + [buckets];
        KeptList(cfg, buckets, prefix, input);
      }
      FinalResult(cfg, buckets, prefix, input);
      ok := true;
    }
  }

  lemma Presorted<T>(cfg: Config<T>, b: Bucket<T>)
    ensures !cfg.noPresort ==> !Unpresorted(cfg, b)
  {
  }

  lemma KeptList<T(!new)>(cfg: Config<T>, bs: seq<Bucket<T>>, prefix: seq<T>, input: multiset<T>)
    requires Kept(cfg, bs, prefix, input)
    ensures |bs| >= 1
  {
  }

  lemma FinalResult<T(!new)>(cfg: Config<T>, bs: seq<Bucket<T>>, prefix: seq<T>, input: multiset<T>)
    requires Kept(cfg, bs, prefix, input) && |bs| == 1
    ensures prefix <= bs[0].data && (cfg.maxKeys == 0 ==> bs[0].data == prefix)
    ensures cfg.maxKeys >= 1 ==> SortedTo(bs[0].data[|prefix|..], input, cfg.ctx.key)
    ensures cfg.maxKeys >= 1 && cfg.noPresort ==> input == multiset{}
  {
    if cfg.maxKeys >= 1 {
      assert Datas(bs[1..]) == [];
      assert Parts(bs, prefix) == [bs[0].data[|prefix|..]];
      AllOne(bs[0].data[|prefix|..]);
    }
  }

  lemma StartKept<T(!new)>(cfg: Config<T>, bs: seq<Bucket<T>>, output: seq<T>, input: seq<T>)
    requires Proper(cfg) && |bs| == 2 && bs[0].data == output && bs[0].runs == 1 && (!bs[0].hasFile ==> output == [])
    requires bs[1].data == input && bs[1].runs == 0 && Agree(input, cfg.ctx, bs[1].hashBits)
    requires input != [] ==> bs[1].size > 0
    ensures Kept(cfg, bs, output, multiset(input))
  {
    if cfg.maxKeys >= 1 {
      StartGoverned(bs, output, input, cfg.ctx);
    }
  }

  /** An unsorted bucket agrees on its upper hash bits; without room nothing is sorted. */
  lemma FirstWaiting<T(!new)>(cfg: Config<T>, bs: seq<Bucket<T>>, prefix: seq<T>, input: multiset<T>)
    requires Kept(cfg, bs, prefix, input) && |bs| >= 2
    ensures Proper(cfg) && (Idle(cfg) ==> bs[1].runs == 0)
    ensures bs[1].runs == 0 ==> Agree(bs[1].data, cfg.ctx, bs[1].hashBits)
  {
    if cfg.maxKeys >= 1 {
      WaitingAgree(bs, prefix, input, cfg.ctx);
    }
  }

  lemma AppendKept<T(!new)>(cfg: Config<T>, bs: seq<Bucket<T>>, out: seq<T>, last: Bucket<T>, prefix: seq<T>,
                            input: multiset<T>)
    requires Kept(cfg, bs, prefix, input) && |bs| >= 2 && !Idle(cfg) && SortedPerm(out, bs[1].data, cfg.ctx.key)
    requires last.data == bs[0].data + out && last.runs == bs[0].runs && last.hasFile
    ensures Kept(cfg, [last] + bs[2..], prefix, input)
  {
    AppendGoverned(bs, out, last, prefix, input, cfg.ctx);
  }

  lemma StartGoverned<T>(bs: seq<Bucket<T>>, output: seq<T>, input: seq<T>, ctx: Context<T>)
    requires |bs| == 2 && bs[0].data == output && bs[0].runs == 1 && (!bs[0].hasFile ==> output == [])
    requires bs[1].data == input && bs[1].runs == 0
    requires Agree(input, ctx, bs[1].hashBits) && (input != [] ==> bs[1].size > 0)
    ensures Governed(bs, output, multiset(input), ctx)
  {
    var p := Parts(bs, output);
    assert output[|output|..] == [];
    assert p == [[]] + [input];
    AllConcat([[]], [input]);
    AllOne(input);
    AllOne<T>([]);
  }

  lemma WaitingAgree<T>(bs: seq<Bucket<T>>, prefix: seq<T>, input: multiset<T>, ctx: Context<T>)
    requires Governed(bs, prefix, input, ctx) && |bs| >= 2
    ensures Waiting(bs[1], ctx) && (bs[1].runs == 0 ==> Agree(bs[1].data, ctx, bs[1].hashBits))
  {
  }

  lemma EmptyDrop<T(!new)>(cfg: Config<T>, bs: seq<Bucket<T>>, prefix: seq<T>, input: multiset<T>)
    requires Kept(cfg, bs, prefix, input) && |bs| >= 2 && bs[1].size == 0
    ensures Kept(cfg, [bs[0]] + [] + bs[2..], prefix, input) && Weight(bs[1]) > 0 && Total<T>([]) == 0
  {
    if cfg.maxKeys >= 1 {
      WaitingAgree(bs, prefix, input, cfg.ctx);
      assert Datas<T>([]) == [];
      ReplaceGoverned(bs, [], prefix, input, cfg.ctx);
    }
  }

  /** Replacing the first waiting bucket in a starved list. */
  lemma ReplaceStarved<T>(bs: seq<Bucket<T>>, parts: seq<Bucket<T>>, prefix: seq<T>, ctx: Context<T>)
    requires Starved(bs, prefix, ctx) && |bs| >= 2
    requires forall i :: 0 <= i < |parts| ==> parts[i].runs == 0 && Agree(parts[i].data, ctx, parts[i].hashBits)
    ensures Starved([bs[0]] + parts + bs[2..], prefix, ctx)
  {
    hide Agree;
    var cs := [bs[0]] + parts + bs[2..];
    forall i | 1 <= i < |cs| ensures cs[i].runs == 0 && Agree(cs[i].data, ctx, cs[i].hashBits) {
      assert cs[i] == if i <= |parts| then parts[i - 1] else bs[i - |parts| + 1];
    }
  }

  lemma {:induction false} Pow4Positive(n: nat)
    ensures Pow4(n) >= 1
  {
    if n > 0 {
      Pow4Positive(n - 1);
    }
  }

  lemma Heavy<T>(b: Bucket<T>)
    requires b.runs == 0 && b.size > 0
    ensures Weight(b) >= 3
  {
    Pow4Positive(b.hashBits);
  }

  lemma OnePart<T(!new)>(cfg: Config<T>, bs: seq<Bucket<T>>, out: seq<T>, parts: seq<Bucket<T>>,
                         prefix: seq<T>, input: multiset<T>)
    requires Kept(cfg, bs, prefix, input) && |bs| >= 2 && Weight(bs[1]) >= 3 && !cfg.noPresort
    requires if cfg.maxKeys >= 1 then SortedPerm(out, bs[1].data, cfg.ctx.key) else out == []
    requires parts == [MakeBucket(cfg, out, if out == [] then 0 else 1, 0)] || (parts == [] && out == [])
    ensures Kept(cfg, [bs[0]] + parts + bs[2..], prefix, input) && Total(parts) < Weight(bs[1])
  {
    MakeBucketSize(cfg, out, if out == [] then 0 else 1, 0);
    if parts != [] {
      assert parts[1..] == [];
    }
    if cfg.maxKeys == 0 {
      ReplaceStarved(bs, parts, prefix, cfg.ctx);
    } else if parts == [] {
      assert Datas(parts) == [];
      assert multiset(bs[1].data) == multiset(out) == multiset{};
      ReplaceGoverned(bs, parts, prefix, input, cfg.ctx);
    } else {
      assert Datas(parts) == [out];
      AllOne(out);
      ReplaceGoverned(bs, parts, prefix, input, cfg.ctx);
    }
  }

  lemma SplitParts<T(!new)>(cfg: Config<T>, bs: seq<Bucket<T>>, outs: seq<seq<T>>, parts: seq<Bucket<T>>, bits: nat,
                            prefix: seq<T>, input: multiset<T>)
    requires Kept(cfg, bs, prefix, input) && |bs| >= 2 && bs[1].runs == 0 && bs[1].size > 0
    requires 1 <= bits <= bs[1].hashBits && |outs| == Pow2(bits) == |parts|
    requires Rising(outs, cfg.ctx.key) && All(outs) == multiset(bs[1].data)
    requires forall d :: 0 <= d < |outs| ==> Agree(outs[d], cfg.ctx, bs[1].hashBits - bits)
    requires forall d :: 0 <= d < |outs| ==> parts[d] == MakeBucket(cfg, outs[d], 0, bs[1].hashBits - bits)
    ensures Kept(cfg, [bs[0]] + parts + bs[2..], prefix, input) && Total(parts) < Weight(bs[1])
  {
    hide Rising, All, Agree, Monotone, Governed, Starved;
    assert Datas(parts) == outs;
    var h := bs[1].hashBits - bits;
    forall d | 0 <= d < |outs| ensures Waiting(parts[d], cfg.ctx) && Weight(parts[d]) <= 3 * Pow4(h) {
      MakeBucketSize(cfg, outs[d], 0, h);
      Pow4Positive(h);
    }
    if Idle(cfg) {
      ReplaceStarved(bs, parts, prefix, cfg.ctx);
    }
    if cfg.maxKeys >= 1 {
      ReplaceGoverned(bs, parts, prefix, input, cfg.ctx);
    }
    SplitTotal(parts, bits, bs[1].hashBits);
  }

  lemma SplitTotal<T>(parts: seq<Bucket<T>>, bits: nat, h: nat)
    requires 1 <= bits <= h && |parts| == Pow2(bits)
    requires forall d :: 0 <= d < |parts| ==> Weight(parts[d]) <= 3 * Pow4(h - bits)
    ensures Total(parts) < 3 * Pow4(h)
  {
    hide Pow2, Pow4, Total, Weight;
    TotalBound(parts, 3 * Pow4(h - bits));
    SplitLighter(bits, h);
    Pow4Positive(h);
    Triple(Pow2(bits), Pow4(h - bits));
  }

  lemma Triple(p: nat, q: nat)
    ensures p * (3 * q) == 3 * (p * q)
  {
  }

  /** The hash bits of integer keys up to `range`, as P(sort) in generic/sorter/sorter.h counts them. */
  method RangeBits(range: nat) returns (bits: nat)
    requires range < Pow2(64)
    ensures bits <= 64 && range < Pow2(bits) && (bits > 0 ==> range >= Pow2(bits - 1))
  {
    hide Pow2;
    bits := 0;
    while bits < 64 && Shr(range, bits) != 0
      invariant bits <= 64 && (bits > 0 ==> range >= Pow2(bits - 1))
    {
      if range < Pow2(bits) {
        ShrSmall(range, bits);
      }
      bits := bits + 1;
    }
    if bits < 64 {
      ShrZero(range, bits);
    }
  }

  lemma {:induction false} ShrZero(h: nat, k: nat)
    requires Shr(h, k) == 0
    ensures h < Pow2(k)
  {
    if k > 0 {
      ShrZero(h / 2, k - 1);
    }
  }

  /** `h` bits are just enough for the range. */
  predicate LeastBits(range: nat, h: nat) {
    range < Pow2(h) && (h > 0 ==> range >= Pow2(h - 1))
  }

  /** P(sort) for integer keys: the output file gets the sorted records after what it held. */
  method SortIntegers<T(!new)>(cfg: Config<T>, input: seq<T>, inSize: nat, output: seq<T>, hasOutput: bool, range: nat)
    returns (result: seq<T>, ok: bool, ghost left: seq<Bucket<T>>, ghost trace: seq<seq<Bucket<T>>>)
    requires Proper(cfg) && range < Pow2(64) && (forall e :: cfg.ctx.hash(e) == cfg.ctx.key(e))
    requires forall i :: 0 <= i < |input| ==> cfg.ctx.key(input[i]) <= range
    requires (input != [] ==> inSize > 0) && (!hasOutput ==> output == [])
    ensures ok && cfg.maxKeys >= 1 ==>
      output <= result && SortedTo(result[|output|..], multiset(input), cfg.ctx.key)
    ensures ok && cfg.maxKeys == 0 ==> result == output
    ensures ok && cfg.noPresort && cfg.maxKeys >= 1 ==> input == []
    ensures |trace| > 0 && left == trace[|trace| - 1] && Traced(cfg, trace) && |trace[0]| == 2
    ensures exists h: nat :: trace[0][1] == Bucket(input, inSize, 0, h, true) && LeastBits(range, h)
    ensures cfg.addRadixBits == 0 && !cfg.noPresort ==> ok
    ensures !ok ==> Kept(cfg, left, output, multiset(input)) && |left| >= 2
    ensures !ok ==> Overshoots(cfg, left[1]) || Unpresorted(cfg, left[1])
  {
    var bits := RangeBits(range);
    ArraySort.HashesAgree(input, cfg.ctx, bits);
    var sorter := new Sorter(cfg, input, inSize, output, hasOutput, bits);
    ok, trace := sorter.Run(output, multiset(input));
    assert trace[0][1] == Bucket(input, inSize, 0, bits, true) && LeastBits(range, bits);
    result, left := if ok then sorter.buckets[0].data else [], sorter.buckets;
  }
}
