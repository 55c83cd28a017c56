/** The presorter of generic/sorter/s-fixint.h with SORT_UNIFY: neighbours with equal keys in the
    sorted buffer are written as one record. The scan for them has no upper bound. */
module InternalUnify {
  import opened Basics
  import opened Ordering
  import opened RadixSort
  import opened TwowayUnify
  import ParallelRadix
  import ArraySort

  /** The original records in the order in which they were written. */
  ghost function Flat<T>(ds: seq<seq<T>>): (s: seq<T>) {
    if ds == [] then [] else Flat(ds[..|ds| - 1]) + ds[|ds| - 1]
  }

  lemma FlatSnoc<T>(ds: seq<seq<T>>, g: seq<T>)
    ensures Flat(ds + [g]) == Flat(ds) + g
  {
    assert (ds + [g])[..|ds|] == ds;
  }

  lemma {:induction false} FlatAll<T>(ds: seq<seq<T>>)
    ensures multiset(Flat(ds)) == All(ds)
  {
    if ds != [] {
      var k := |ds| - 1;
      FlatAll(ds[..k]);
      assert ds == ds[..k] + [ds[k]];
      AllSnoc(ds[..k], ds[k]);
    }
  }

  /** `out` is `s` cut into one record for each of its keys, which rise. */
  ghost predicate Grouped<T>(out: seq<seq<T>>, s: seq<T>, key: T -> int) {
    && Flat(out) == s && AllUniform(out, key) && Strict(out, key)
    && (out == [] <==> s == []) && (s != [] ==> KeyOf(key)(out[|out| - 1]) == key(s[|s| - 1]))
  }

  /** Equal neighbours with a higher key become the next record. */
  lemma GroupedSnoc<T>(out: seq<seq<T>>, s: seq<T>, g: seq<T>, key: T -> int)
    requires Grouped(out, s, key) && Uniform(g, key) && (s != [] ==> key(s[|s| - 1]) < key(g[0]))
    ensures Grouped(out + [g], s + g, key)
  {
    FlatSnoc(out, g);
    if s != [] {
      assert forall i :: 0 <= i < |out| ==> KeyOf(key)(out[i]) <= KeyOf(key)(out[|out| - 1]);
    }
  }

  /** The highest of the `n` sorted keys occurs more than once. */
  predicate Twice<T>(s: seq<T>, n: nat, key: T -> int)
    requires n <= |s|
  {
    n >= 2 && key(s[n - 2]) == key(s[n - 1])
  }

  /** How the writing of the first `n` records of `s` ends. If their highest key occurs more than
      once, what has the same key behind them is taken too, up to `end`; it fails if no other key
      follows. */
  ghost predicate Scanned<T>(s: seq<T>, n: nat, key: T -> int, ok: bool, out: seq<seq<T>>, end: nat)
    requires n <= |s|
  {
    && (ok <==> (Twice(s, n, key) ==> exists k :: n <= k < |s| && key(s[k]) != key(s[n - 1])))
    && (ok ==> n <= end <= |s| && Grouped(out, s[..end], key))
    && (ok && !Twice(s, n, key) ==> end == n)
    && (ok && Twice(s, n, key) ==>
         && end < |s| && key(s[end]) != key(s[n - 1])
         && forall k :: n <= k < end ==> key(s[k]) == key(s[n - 1]))
  }

  /** The writing loop over the `n` sorted records at the start of the buffer. */
  method WriteUnified<T>(buf: array<T>, n: nat, key: T -> int)
    returns (ok: bool, out: seq<seq<T>>, ghost end: nat)
    requires n <= buf.Length && SortedIn(buf[..], 0, n, key)
    ensures ok <==> (Twice(buf[..], n, key) ==> exists k :: n <= k < buf.Length && key(buf[k]) != key(buf[n - 1]))
    ensures ok ==> AllUniform(out, key) && Strict(out, key) && buf[..n] <= Flat(out)
    ensures Scanned(buf[..], n, key, ok, out, end)
  {
    hide Grouped, Uniform;
    GroupedStart<T>(key);
    out := [];
    var i := 0;
    while i < n
      invariant i <= buf.Length && Grouped(out, buf[..i], key)
      invariant 0 < i < n ==> key(buf[i - 1]) != key(buf[i])
      invariant i > n ==> Twice(buf[..], n, key)
      invariant Twice(buf[..], n, key) ==> forall k :: n <= k < i ==> key(buf[k]) == key(buf[n - 1])
      invariant i >= n && Twice(buf[..], n, key) ==> i < buf.Length && key(buf[i]) != key(buf[n - 1])
      decreases n - i
    {
      var m := 1;
      if i < n - 1 && key(buf[i]) == key(buf[i + 1]) {
        m := 2;
        while i + m < buf.Length && key(buf[i]) == key(buf[i + m])
          invariant 2 <= m && i + m <= buf.Length
          invariant forall k :: i <= k < i + m ==> key(buf[k]) == key(buf[i])
        {
          m := m + 1;
        }
        if i + m == buf.Length {
          return false, out, i;
        }
      }
      NextGroup(out, buf[..], i, i + m, key);
      out := out + [buf[i..i + m]];
      i := i + m;
    }
    ok, end := true, i;
    Records(out, buf[..], n, i, key);
  }

  lemma Records<T>(out: seq<seq<T>>, s: seq<T>, n: nat, end: nat, key: T -> int)
    requires n <= end <= |s| && Grouped(out, s[..end], key)
    ensures AllUniform(out, key) && Strict(out, key) && s[..n] <= Flat(out)
  {
  }

  lemma GroupedStart<T>(key: T -> int)
    ensures Grouped<T>([], [], key)
  {
  }

  lemma NextGroup<T>(out: seq<seq<T>>, s: seq<T>, i: nat, j: nat, key: T -> int)
    requires i < j <= |s| && Grouped(out, s[..i], key)
    requires forall k :: i <= k < j ==> key(s[k]) == key(s[i])
    requires i > 0 ==> key(s[i - 1]) < key(s[i])
    ensures Grouped(out + [s[i..j]], s[..j], key)
  {
    hide Grouped;
    assert s[..j] == s[..i] + s[i..j];
    GroupedSnoc(out, s[..i], s[i..j], key);
  }

  /** The highest key occurs at two places, and the first record in the memory behind has it
      too, or there is none. */
  ghost predicate RunsOver<T>(data: seq<T>, behind: seq<T>, key: T -> int) {
    exists i, j :: 0 <= i < j < |data| && Highest(data, i, key) && Highest(data, j, key)
      && (behind == [] || key(behind[0]) == key(data[i]))
  }

  ghost predicate Highest<T>(s: seq<T>, i: nat, key: T -> int) {
    i < |s| && forall k :: 0 <= k < |s| ==> key(s[k]) <= key(s[i])
  }

  /** Two places of a sequence have their places in every permutation. */
  lemma TwoPlaces<T>(s: seq<T>, t: seq<T>, i: nat, j: nat) returns (p: nat, q: nat)
    requires multiset(s) == multiset(t) && i < |s| && j < |s| && i != j
    ensures p < |t| && q < |t| && p != q && t[p] == s[i] && t[q] == s[j]
  {
    hide Without;
    assert s[i] in multiset(t);
    p :| 0 <= p < |t| && t[p] == s[i];
    RemoveOne(s, i);
    RemoveOne(t, p);
    StaysIn(s, i, j);
    q := OtherPlace(t, p, s[j]);
  }

  lemma StaysIn<T>(s: seq<T>, i: nat, j: nat)
    requires i < |s| && j < |s| && i != j
    ensures s[j] in multiset(Without(s, i))
  {
    assert s[j] == Without(s, i)[if j < i then j else j - 1];
  }

  lemma OtherPlace<T>(t: seq<T>, p: nat, x: T) returns (q: nat)
    requires p < |t| && x in multiset(Without(t, p))
    ensures q < |t| && q != p && t[q] == x
  {
    var r :| 0 <= r < |t| - 1 && Without(t, p)[r] == x;
    q := if r < p then r else r + 1;
  }

  lemma RemoveOne<T>(s: seq<T>, i: nat)
    requires i < |s|
    ensures multiset(Without(s, i)) == multiset(s) - multiset{s[i]}
  {
    var a, b := WithoutSplit(s, i);
    assert multiset(s) == multiset(a) + multiset{s[i]} + multiset(b);
  }

  lemma HighestPerm<T>(s: seq<T>, t: seq<T>, i: nat, p: nat, key: T -> int)
    requires multiset(s) == multiset(t) && Highest(s, i, key) && p < |t| && t[p] == s[i]
    ensures Highest(t, p, key)
  {
    forall k | 0 <= k < |t| ensures key(t[k]) <= key(t[p]) {
      assert t[k] in multiset(s);
    }
  }

  /** Whether the scan runs over depends on the records only, not on their order. */
  lemma RunsOverPerm<T>(s: seq<T>, t: seq<T>, behind: seq<T>, key: T -> int)
    requires multiset(s) == multiset(t) && RunsOver(s, behind, key)
    ensures RunsOver(t, behind, key)
  {
    var i, j :| 0 <= i < j < |s| && Highest(s, i, key) && Highest(s, j, key)
      && (behind == [] || key(behind[0]) == key(s[i]));
    var p, q := TwoPlaces(s, t, i, j);
    HighestPerm(s, t, i, p, key);
    HighestPerm(s, t, j, q, key);
    var lo, hi := if p < q then p else q, if p < q then q else p;
    assert lo < hi && Highest(t, lo, key) && Highest(t, hi, key);
  }

  lemma RunsOverSorted<T>(s: seq<T>, behind: seq<T>, key: T -> int)
    requires Sorted(s, key)
    ensures RunsOver(s, behind, key) <==>
      Twice(s, |s|, key) && (behind == [] || key(behind[0]) == key(s[|s| - 1]))
  {
    if Twice(s, |s|, key) && (behind == [] || key(behind[0]) == key(s[|s| - 1])) {
      assert Highest(s, |s| - 2, key) && Highest(s, |s| - 1, key);
    }
    if RunsOver(s, behind, key) {
      var i, j :| 0 <= i < j < |s| && Highest(s, i, key) && Highest(s, j, key)
        && (behind == [] || key(behind[0]) == key(s[i]));
      assert key(s[i]) <= key(s[|s| - 2]) <= key(s[|s| - 1]) <= key(s[i]);
    }
  }

  /** For example: two records with one key, and a third one with it left behind them. The three
      are written as one record. */
  lemma RunsOverExample<T>(x: T, y: T, z: T, key: T -> int)
    requires key(x) == key(y) == key(z)
    ensures RunsOver([x, y], [z], key)
    ensures forall w: T, ok, out, end: nat :: key(w) != key(x) && Scanned([x, y, z, w], 2, key, ok, out, end) ==>
      ok && Flat(out) == [x, y, z]
  {
    assert Highest([x, y], 0, key) && Highest([x, y], 1, key);
    forall w: T, ok, out, end: nat | key(w) != key(x) && Scanned([x, y, z, w], 2, key, ok, out, end)
      ensures ok && Flat(out) == [x, y, z]
    {
      var s := [x, y, z, w];
      assert key(s[3]) != key(s[1]) && key(s[2]) == key(s[1]);
      assert s[..3] == [x, y, z];
    }
  }

  /** The presorter on one bufferful of records, with `behind` in memory behind the sorted ones.
      None is lost, and there is one record for each key; records from behind are taken, or the
      presorter fails, exactly if the scan runs over. */
  method SortUnified<T(!new)>(ctx: Context<T>, lim: ParallelRadix.Limits, data: seq<T>, behind: seq<T>,
                              hashBits: nat, useRadix: bool)
    returns (ok: bool, out: seq<seq<T>>)
    requires Monotone(ctx) && Agree(data, ctx, hashBits) && |data| <= Quicksort.MAX_ELTS
    ensures ok && All(out) == multiset(data) <==> !RunsOver(data, behind, ctx.key)
    ensures ok ==> Strict(out, ctx.key) && AllUniform(out, ctx.key) && multiset(data) <= All(out)
  {
    hide Scanned, Monotone, Agree, RunsOver, Sorted, Strict, AllUniform;
    var n := |data|;
    var x := new T[n](i requires 0 <= i < |data| => data[i]);
    var y := new T[n](i requires 0 <= i < |data| => data[i]);
    assert x[..] == data;
    var s := data;
    if n > 0 {
      var inBuffer, _ := ArraySort.Run(x, y, ctx, lim, hashBits, useRadix);
      s := if inBuffer then y[..] else x[..];
    } else {
      Nothing(data, ctx.key);
    }
    assert |s| == n by {
      assert |multiset(s)| == |multiset(data)|;
    }
    var memory := s + behind;
    var buf := new T[|memory|](i requires 0 <= i < |memory| => memory[i]);
    assert buf[..] == memory;
    SortedStart(s, behind, ctx.key);
    ghost var end;
    ok, out, end := WriteUnified(buf, n, ctx.key);
    Outcome(data, s, behind, ok, out, end, ctx.key);
  }

  lemma Nothing<T>(s: seq<T>, key: T -> int)
    requires s == []
    ensures Sorted(s, key)
  {
  }

  lemma SortedStart<T>(s: seq<T>, behind: seq<T>, key: T -> int)
    requires Sorted(s, key)
    ensures SortedIn(s + behind, 0, |s|, key)
  {
  }

  lemma Outcome<T>(data: seq<T>, s: seq<T>, behind: seq<T>, ok: bool, out: seq<seq<T>>, end: nat, key: T -> int)
    requires multiset(s) == multiset(data) && Sorted(s, key)
    requires Scanned(s + behind, |s|, key, ok, out, end)
    ensures ok && All(out) == multiset(data) <==> !RunsOver(data, behind, key)
    ensures ok ==> Strict(out, key) && AllUniform(out, key) && multiset(data) <= All(out)
  {
    hide RunsOver, Strict, AllUniform, Sorted, Flat, All;
    var memory, n := s + behind, |s|;
    if RunsOver(data, behind, key) {
      RunsOverPerm(data, s, behind, key);
    }
    if RunsOver(s, behind, key) {
      RunsOverPerm(s, data, behind, key);
    }
    RunsOverSorted(s, behind, key);
    assert behind != [] ==> memory[n] == behind[0];
    assert Twice(memory, n, key) <==> Twice(s, n, key);
    assert RunsOver(s, behind, key) <==> ok ==> end > n;
    if ok {
      FlatAll(out);
      assert |multiset(memory[..end])| == end && |multiset(data)| == n;
      assert memory[..n] == s;
      assert memory[..end] == s + memory[n..end];
    }
  }

  /** No bufferful of the records runs over; `behind(k)` is the memory behind the `k`-th one. */
  ghost predicate Clean<T>(data: seq<T>, k: nat, maxKeys: nat, behind: nat -> seq<T>, key: T -> int)
    decreases |data|
  {
    var n := if |data| < maxKeys then |data| else maxKeys;
    n > 0 ==> !RunsOver(data[..n], behind(k), key) && Clean(data[n..], k + 1, maxKeys, behind, key)
  }

  /** One call of the presorter: the next bufferful, and whether there may be more. */
  method Bufferful<T(!new)>(ctx: Context<T>, lim: ParallelRadix.Limits, data: seq<T>, k: nat, maxKeys: nat,
                            behind: nat -> seq<T>, hashBits: nat, useRadix: bool)
    returns (ok: bool, groups: seq<seq<T>>, rest: seq<T>, more: bool)
    requires Monotone(ctx) && Agree(data, ctx, hashBits) && 1 <= maxKeys <= Quicksort.MAX_ELTS
    ensures |rest| <= |data| && rest == data[|data| - |rest|..] && Agree(rest, ctx, hashBits)
    ensures more ==> |rest| < |data|
    ensures !more ==> rest == []
    ensures ok ==> InRuns(groups, 1, ctx.key)
    ensures ok ==> multiset(data[..|data| - |rest|]) <= All(groups)
    ensures Clean(data, k, maxKeys, behind, ctx.key) <==>
      && ok && All(groups) == multiset(data[..|data| - |rest|])
      && Clean(rest, k + 1, maxKeys, behind, ctx.key)
  {
    hide Monotone, Agree, RunsOver, StrictRuns, AllUniform, Strict;
    var n := if |data| < maxKeys then |data| else maxKeys;
    AgreePart(data, ctx, hashBits, n);
    rest, more := data[n..], n == maxKeys;
    ok, groups := SortUnified(ctx, lim, data[..n], behind(k), hashBits, useRadix);
    if ok {
      SingleRun(groups, ctx.key);
    }
    if n == 0 {
      NoneOver<T>(behind(k), ctx.key);
      assert data[..n] == [];
    }
  }

  lemma AgreePart<T>(s: seq<T>, ctx: Context<T>, bits: nat, n: nat)
    requires Agree(s, ctx, bits) && n <= |s|
    ensures Agree(s[..n], ctx, bits) && Agree(s[n..], ctx, bits)
  {
  }

  lemma NoneOver<T>(behind: seq<T>, key: T -> int)
    ensures !RunsOver<T>([], behind, key)
  {
  }

  /** What the first `k` bufferfuls have left in the two inputs of the merge. */
  ghost predicate Presorted<T>(data: seq<T>, rest: seq<T>, k: nat, maxKeys: nat, behind: nat -> seq<T>, key: T -> int,
                               ins0: seq<seq<T>>, ins1: seq<seq<T>>) {
    && |rest| <= |data| && rest == data[|data| - |rest|..]
    && multiset(data[..|data| - |rest|]) <= All(ins0) + All(ins1)
    && (Clean(data, 0, maxKeys, behind, key) <==>
         && All(ins0) + All(ins1) == multiset(data[..|data| - |rest|])
         && Clean(rest, k, maxKeys, behind, key))
  }

  /** One more bufferful goes to the second input, or to the first; the lemma is symmetric. */
  lemma PresortStep<T>(data: seq<T>, rest: seq<T>, rest': seq<T>, k: nat, maxKeys: nat, behind: nat -> seq<T>,
                       key: T -> int, ins0: seq<seq<T>>, ins1: seq<seq<T>>, groups: seq<seq<T>>)
    requires Presorted(data, rest, k, maxKeys, behind, key, ins0, ins1)
    requires |rest'| <= |rest| && rest' == rest[|rest| - |rest'|..]
    requires multiset(rest[..|rest| - |rest'|]) <= All(groups)
    requires Clean(rest, k, maxKeys, behind, key) <==>
      All(groups) == multiset(rest[..|rest| - |rest'|]) && Clean(rest', k + 1, maxKeys, behind, key)
    ensures Presorted(data, rest', k + 1, maxKeys, behind, key, ins0 + groups, ins1)
    ensures Presorted(data, rest', k + 1, maxKeys, behind, key, ins0, ins1 + groups)
  {
    hide Clean, All;
    AllConcat(ins0, groups);
    AllConcat(ins1, groups);
    var m, n := |data| - |rest|, |rest| - |rest'|;
    assert data[..m + n] == data[..m] + rest[..n];
    assert rest' == data[m + n..];
    Supersets(multiset(data[..m]), All(ins0) + All(ins1), multiset(rest[..n]), All(groups));
  }

  lemma Supersets<T>(a: multiset<T>, b: multiset<T>, c: multiset<T>, d: multiset<T>)
    requires a <= b && c <= d
    ensures a + c <= b + d && (a + c == b + d <==> a == b && c == d)
  {
    if a + c == b + d {
      assert forall x :: a[x] <= b[x] && c[x] <= d[x] && (a + c)[x] == (b + d)[x];
    }
  }

  /** The inputs are made of records of equal keys, in at most so many strictly rising runs. */
  ghost predicate InRuns<T>(s: seq<seq<T>>, runs: nat, key: T -> int) {
    AllUniform(s, key) && StrictRuns(s, key) <= runs
  }

  lemma OneMoreRun<T>(s: seq<seq<T>>, groups: seq<seq<T>>, runs: nat, key: T -> int)
    requires InRuns(s, runs, key) && InRuns(groups, 1, key)
    ensures InRuns(s + groups, runs + 1, key)
  {
    hide StrictRuns;
    RunsTogether(s, groups, key);
  }

  lemma RunsTogether<T>(s: seq<seq<T>>, t: seq<seq<T>>, key: T -> int)
    ensures StrictRuns(s + t, key) <= StrictRuns(s, key) + StrictRuns(t, key)
  {
    Twoway.RunsConcat(s, t, KeyOf(key), true);
  }

  /** The presorting passes after the first: bufferfuls go alternately to the two inputs. */
  method PresortUnified<T(!new)>(ctx: Context<T>, lim: ParallelRadix.Limits, first: seq<seq<T>>, rest0: seq<T>,
                                 maxKeys: nat, behind: nat -> seq<T>, hashBits: nat, useRadix: bool,
                                 ghost data: seq<T>)
    returns (ok: bool, ins0: seq<seq<T>>, ins1: seq<seq<T>>, runs0: nat, runs1: nat)
    requires Monotone(ctx) && Agree(rest0, ctx, hashBits) && 1 <= maxKeys <= Quicksort.MAX_ELTS
    requires Presorted(data, rest0, 1, maxKeys, behind, ctx.key, first, []) && InRuns(first, 1, ctx.key)
    ensures ok ==> InRuns(ins0, runs0, ctx.key) && InRuns(ins1, runs1, ctx.key)
    ensures ok ==> multiset(data) <= All(ins0) + All(ins1)
    ensures Clean(data, 0, maxKeys, behind, ctx.key) <==> ok && All(ins0) + All(ins1) == multiset(data)
  {
    hide Monotone, Agree, InRuns, Clean, All, Presorted;
    NoRuns<T>(ctx.key);
    ok, ins0, ins1, runs0, runs1 := true, first, [], 1, 0;
    var rest, more, k, second := rest0, true, 1, true;
    while more
      invariant ok && Agree(rest, ctx, hashBits) && (!more ==> rest == [])
      invariant Presorted(data, rest, k, maxKeys, behind, ctx.key, ins0, ins1)
      invariant InRuns(ins0, runs0, ctx.key) && InRuns(ins1, runs1, ctx.key)
      decreases more, |rest|
    {
      var before := rest;
      var groups;
      ok, groups, rest, more := Bufferful(ctx, lim, rest, k, maxKeys, behind, hashBits, useRadix);
      if !ok {
        NeverClean(data, before, k, maxKeys, behind, ctx.key, ins0, ins1);
        return;
      }
      PresortStep(data, before, rest, k, maxKeys, behind, ctx.key, ins0, ins1, groups);
      if groups == [] {
        assert ins1 + groups == ins1;
      } else if second {
        OneMoreRun(ins1, groups, runs1, ctx.key);
        ins1, runs1 := ins1 + groups, runs1 + 1;
      } else {
        OneMoreRun(ins0, groups, runs0, ctx.key);
        ins0, runs0 := ins0 + groups, runs0 + 1;
      }
      k, second := k + 1, !second;
    }
    PresortEnd(data, rest, k, maxKeys, behind, ctx.key, ins0, ins1);
  }

  lemma NoRuns<T>(key: T -> int)
    ensures InRuns<T>([], 0, key)
  {
  }

  lemma NeverClean<T>(data: seq<T>, rest: seq<T>, k: nat, maxKeys: nat, behind: nat -> seq<T>, key: T -> int,
                      ins0: seq<seq<T>>, ins1: seq<seq<T>>)
    requires Presorted(data, rest, k, maxKeys, behind, key, ins0, ins1) && !Clean(rest, k, maxKeys, behind, key)
    ensures !Clean(data, 0, maxKeys, behind, key)
  {
    hide Clean, All;
  }

  lemma PresortEnd<T>(data: seq<T>, rest: seq<T>, k: nat, maxKeys: nat, behind: nat -> seq<T>, key: T -> int,
                      ins0: seq<seq<T>>, ins1: seq<seq<T>>)
    requires Presorted(data, rest, k, maxKeys, behind, key, ins0, ins1) && rest == []
    ensures multiset(data) <= All(ins0) + All(ins1)
    ensures Clean(data, 0, maxKeys, behind, key) <==> All(ins0) + All(ins1) == multiset(data)
  {
    hide All;
    assert data[..|data|] == data;
  }

  lemma PresortStart<T>(data: seq<T>, rest: seq<T>, maxKeys: nat, behind: nat -> seq<T>, key: T -> int,
                        groups: seq<seq<T>>)
    requires |rest| <= |data| && rest == data[|data| - |rest|..]
    requires multiset(data[..|data| - |rest|]) <= All(groups)
    requires Clean(data, 0, maxKeys, behind, key) <==>
      All(groups) == multiset(data[..|data| - |rest|]) && Clean(rest, 1, maxKeys, behind, key)
    ensures Presorted(data, rest, 1, maxKeys, behind, key, groups, [])
  {
    hide Clean, All;
    NoRecords<T>([], key);
  }

  /** The two-way strategy with SORT_UNIFY: presort bufferfuls into two inputs, then merge them.
      Unless it fails, there is one record for each key, in rising order, and every original
      record is in one; nothing else is exactly if no bufferful runs over. */
  method TwowayUnified<T(!new)>(ctx: Context<T>, lim: ParallelRadix.Limits, data: seq<T>, maxKeys: nat,
                                behind: nat -> seq<T>, hashBits: nat, useRadix: bool, join: bool)
    returns (ok: bool, out: seq<seq<T>>)
    requires Monotone(ctx) && Agree(data, ctx, hashBits) && 1 <= maxKeys <= Quicksort.MAX_ELTS
    ensures ok ==> Strict(out, ctx.key) && AllUniform(out, ctx.key) && multiset(data) <= All(out)
    ensures ok && All(out) == multiset(data) <==> Clean(data, 0, maxKeys, behind, ctx.key)
  {
    hide Monotone, Agree, StrictRuns, AllUniform, Strict, Clean, All, Presorted;
    var rest, more;
    ok, out, rest, more := Bufferful(ctx, lim, data, 0, maxKeys, behind, hashBits, useRadix);
    if !ok {
      return;
    }
    PresortStart(data, rest, maxKeys, behind, ctx.key, out);
    if !more {
      PresortEnd(data, rest, 1, maxKeys, behind, ctx.key, out, []);
      NoRecords<T>([], ctx.key);
      SingleRun(out, ctx.key);
      return;
    }
    var ins0, ins1, runs0, runs1;
    ok, ins0, ins1, runs0, runs1 :=
      PresortUnified(ctx, lim, out, rest, maxKeys, behind, hashBits, useRadix, data);
    if ok {
      ghost var passes;
      out, passes := UnifyPasses(ins0, ins1, runs0, runs1, join, ctx.key);
    }
  }
}
