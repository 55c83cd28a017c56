/** The natural two-way merge of generic/sorter/s-twoway.h. */
module Twoway {
  import opened Ordering

  /** LESS: with unification the keys of a run rise strictly. */
  predicate Less(a: int, b: int, strict: bool) {
    if strict then a < b else a <= b
  }

  /** Number of maximal rising runs in `s[i..]`. */
  function Runs<T>(s: seq<T>, i: nat, key: T -> int, strict: bool): (r: nat)
    requires i <= |s|
    ensures r >= 1 <==> i < |s|
    decreases |s| - i
  {
    if i == |s| then 0
    else if i + 1 == |s| then 1
    else Runs(s, i + 1, key, strict) + (if Less(key(s[i]), key(s[i + 1]), strict) then 0 else 1)
  }

  /** Appending continues the last run or starts a new one. */
  lemma {:induction false} RunsAppend<T>(s: seq<T>, i: nat, x: T, key: T -> int, strict: bool)
    requires i <= |s|
    ensures Runs(s + [x], i, key, strict) ==
      Runs(s, i, key, strict) + (if i < |s| && Less(key(s[|s| - 1]), key(x), strict) then 0 else 1)
    decreases |s| - i
  {
    if i < |s| {
      RunsAppend(s, i + 1, x, key, strict);
    }
  }

  lemma {:induction false} RunsConcat<T>(s: seq<T>, t: seq<T>, key: T -> int, strict: bool)
    ensures Runs(s + t, 0, key, strict) <= Runs(s, 0, key, strict) + Runs(t, 0, key, strict)
  {
    if t == [] {
      assert s + t == s;
    } else {
      var k := |t| - 1;
      RunsConcat(s, t[..k], key, strict);
      assert s + t == (s + t[..k]) + [t[k]] && t == t[..k] + [t[k]];
      RunsAppend(s + t[..k], 0, t[k], key, strict);
      RunsAppend(t[..k], 0, t[k], key, strict);
      if k == 0 {
        assert s + t[..k] == s;
      }
    }
  }

  /** A single run is a sorted sequence, without repeated keys if runs rise strictly. */
  lemma {:induction false} OneRun<T>(s: seq<T>, i: nat, key: T -> int, strict: bool)
    requires i <= |s|
    ensures Runs(s, i, key, strict) <= 1 <==> forall j, k :: i <= j < k < |s| ==> Less(key(s[j]), key(s[k]), strict)
    decreases |s| - i
  {
    if i + 1 < |s| {
      OneRun(s, i + 1, key, strict);
      if Runs(s, i, key, strict) <= 1 {
        forall j | i < j < |s| ensures Less(key(s[i]), key(s[j]), strict) {
          assert Less(key(s[i]), key(s[i + 1]), strict);
        }
      }
    }
  }

  lemma OneRunSorted<T>(s: seq<T>, i: nat, key: T -> int)
    requires i <= |s|
    ensures Runs(s, i, key, false) <= 1 <==> SortedIn(s, i, |s|, key)
  {
    OneRun(s, i, key, false);
    if Runs(s, i, key, false) <= 1 {
      forall j, k | i <= j < k < |s| ensures key(s[j]) <= key(s[k]) {
        assert Less(key(s[j]), key(s[k]), false);
      }
    }
  }

  /** One input stream: `run` says whether its head may still join the current output run. */
  datatype Stream<T> = Stream(s: seq<T>, pos: nat, run: bool)

  predicate Next<T>(f: Stream<T>) {
    f.pos < |f.s|
  }

  ghost predicate Legal<T>(f: Stream<T>) {
    f.pos <= |f.s| && (f.run ==> Next(f))
  }

  /** Runs that have to wait for a later output run. */
  ghost function Waiting<T>(f: Stream<T>, key: T -> int, strict: bool): nat
    requires Legal(f)
  {
    if f.run then Runs(f.s, f.pos, key, strict) - 1 else Runs(f.s, f.pos, key, strict)
  }

  /** Consumes the head; the stream stays in the run if its keys go on rising. */
  function Advance<T>(f: Stream<T>, key: T -> int, strict: bool): (f': Stream<T>)
    requires Next(f)
  {
    var pos := f.pos + 1;
    Stream(f.s, pos, pos < |f.s| && Less(key(f.s[f.pos]), key(f.s[pos]), strict))
  }

  lemma AdvanceWaiting<T>(f: Stream<T>, key: T -> int, strict: bool)
    requires Legal(f) && f.run
    ensures Legal(Advance(f, key, strict)) && Waiting(Advance(f, key, strict), key, strict) == Waiting(f, key, strict)
  {
  }

  function Max(a: int, b: int): int {
    if a < b then b else a
  }

  /** The output side: two files, the ones now selected, and the last key written. */
  datatype Output<T> = Output(out0: seq<T>, out1: seq<T>, fout1: int, fout2: int, runCount: nat)

  /** Which file run number `n` goes to: they alternate if there are two files. */
  function FileOf(n: nat, two: bool): (f: int) {
    if n == 0 then -1 else if two then (n - 1) % 2 else 0
  }

  function Selected<T>(o: Output<T>): (s: seq<T>) {
    if o.fout1 == 0 then o.out0 else o.out1
  }

  ghost predicate OutputOk<T>(o: Output<T>, two: bool, key: T -> int, strict: bool) {
    && o.fout1 == FileOf(o.runCount, two)
    && o.fout2 == (if o.runCount <= 1 then -1 else FileOf(o.runCount - 1, two))
    && (o.runCount > 0 ==> Selected(o) != [])
    && Runs(o.out0, 0, key, strict) <= (if two then (o.runCount + 1) / 2 else o.runCount)
    && Runs(o.out1, 0, key, strict) <= (if two then o.runCount / 2 else 0)
    && (o.runCount == 0 <==> o.out0 == [])
    && (o.out1 == [] <==> !two || o.runCount <= 1)
  }

  /** The switch to the other output file at the start of a run. */
  function NewRun<T>(o: Output<T>, two: bool): (o': Output<T>) {
    var f1, f2 := o.fout2, o.fout1;
    var f1' := if f1 != -1 then f1 else if f2 == -1 then 0 else if two then 1 else f2;
    o.(fout1 := f1', fout2 := f2, runCount := o.runCount + 1)
  }

  function Write<T>(o: Output<T>, x: T): (o': Output<T>) {
    if o.fout1 == 0 then o.(out0 := o.out0 + [x]) else o.(out1 := o.out1 + [x])
  }

  /** Writing a key that goes on rising continues the run. */
  lemma ContinueOk<T>(o: Output<T>, two: bool, x: T, key: T -> int, strict: bool)
    requires OutputOk(o, two, key, strict) && o.runCount > 0
    requires Less(key(Selected(o)[|Selected(o)| - 1]), key(x), strict)
    ensures OutputOk(Write(o, x), two, key, strict)
  {
    hide Runs;
    RunsAppend(o.out0, 0, x, key, strict);
    RunsAppend(o.out1, 0, x, key, strict);
  }

  /** A new run goes to the other file. */
  lemma NewRunOk<T>(o: Output<T>, two: bool, x: T, key: T -> int, strict: bool)
    requires OutputOk(o, two, key, strict)
    ensures OutputOk(Write(NewRun(o, two), x), two, key, strict)
  {
    hide Runs, FileOf, NewRun;
    NewRunFiles(o, two);
    FileParity(o.runCount + 1, two);
    RunsAppend(o.out0, 0, x, key, strict);
    RunsAppend(o.out1, 0, x, key, strict);
  }

  lemma NewRunFiles<T>(o: Output<T>, two: bool)
    requires o.fout1 == FileOf(o.runCount, two)
    requires o.fout2 == if o.runCount <= 1 then -1 else FileOf(o.runCount - 1, two)
    ensures NewRun(o, two) == o.(fout1 := FileOf(o.runCount + 1, two), fout2 := o.fout1, runCount := o.runCount + 1)
    ensures o.runCount == 0 ==> o.fout1 == -1
  {
  }

  /** With two files, odd runs go to the first and even ones to the second. */
  lemma FileParity(n: nat, two: bool)
    requires n > 0
    ensures two ==> (FileOf(n, two) == 0 ==> n / 2 == (n - 1) / 2) && (FileOf(n, two) != 0 ==> n / 2 == n - n / 2)
    ensures FileOf(n, two) == 0 || FileOf(n, two) == 1
    ensures n == 1 || !two ==> FileOf(n, two) == 0
    ensures n == 2 && two ==> FileOf(n, two) == 1
  {
  }

  ghost function Written<T>(o: Output<T>): multiset<T> {
    multiset(o.out0) + multiset(o.out1)
  }

  lemma WriteAdds<T>(o: Output<T>, x: T)
    ensures Written(Write(o, x)) == Written(o) + multiset{x}
    ensures Selected(Write(o, x)) == Selected(o) + [x]
  {
  }

  /** The part of a stream that has been read. */
  ghost function Consumed<T>(f: Stream<T>): multiset<T>
    requires f.pos <= |f.s|
  {
    multiset(f.s[..f.pos])
  }

  lemma ConsumeOne<T>(f: Stream<T>, key: T -> int, strict: bool)
    requires Next(f)
    ensures Consumed(Advance(f, key, strict)) == Consumed(f) + multiset{f.s[f.pos]}
  {
    assert f.s[..f.pos + 1] == f.s[..f.pos] + [f.s[f.pos]];
  }

  /** The last key written is below the heads that are still in the run. */
  ghost predicate Continues<T>(last: int, f: Stream<T>, key: T -> int, strict: bool) {
    f.run && Next(f) ==> Less(last, key(f.s[f.pos]), strict)
  }

  ghost function LastKey<T>(o: Output<T>, key: T -> int): int {
    if Selected(o) == [] then 0 else key(Selected(o)[|Selected(o)| - 1])
  }

  lemma HasSelected<T>(o: Output<T>, two: bool, key: T -> int, strict: bool)
    requires OutputOk(o, two, key, strict)
    ensures o.runCount > 0 ==> Selected(o) != []
  {
    hide Runs;
  }

  /** Writes one record; a new run starts exactly when its key does not go on rising. */
  method Emit<T>(o: Output<T>, two: bool, x: T, key: T -> int, strict: bool) returns (o': Output<T>)
    requires OutputOk(o, two, key, strict)
    ensures OutputOk(o', two, key, strict) && Written(o') == Written(o) + multiset{x}
    ensures (o'.out0 == o.out0 + [x] && o'.out1 == o.out1) || (o'.out0 == o.out0 && o'.out1 == o.out1 + [x])
    ensures Selected(o') != [] && LastKey(o', key) == key(x) && o'.runCount > 0
    ensures o.runCount <= o'.runCount <= o.runCount + 1
    ensures o.runCount > 0 && Less(LastKey(o, key), key(x), strict) ==> o'.runCount == o.runCount
  {
    hide Runs, OutputOk, FileOf, Selected;
    HasSelected(o, two, key, strict);
    if o.runCount == 0 || !Less(key(Selected(o)[|Selected(o)| - 1]), key(x), strict) {
      NewRunOk(o, two, x, key, strict);
      o' := NewRun(o, two);
    } else {
      ContinueOk(o, two, x, key, strict);
      o' := o;
    }
    WriteAdds(o', x);
    o' := Write(o', x);
  }

  /** The loop state after `count` output runs, `last` being the last key written. Waiting runs,
      plus one for an output run that has not begun, plus the runs already written never exceed
      `bound`. Symmetric in the two streams. */
  ghost predicate Merging<T>(f1: Stream<T>, f2: Stream<T>, count: nat, last: int, pristine: bool,
                             key: T -> int, strict: bool, bound: nat) {
    && Legal(f1) && Legal(f2) && (Next(f1) || Next(f2) ==> f1.run || f2.run)
    && count + (if pristine && (Next(f1) || Next(f2)) then 1 else 0) + Waiting(f1, key, strict) <= bound
    && count + (if pristine && (Next(f1) || Next(f2)) then 1 else 0) + Waiting(f2, key, strict) <= bound
    && (!pristine ==> count > 0 && Continues(last, f1, key, strict) && Continues(last, f2, key, strict))
  }

  /** After a record both streams may be at the end of their runs; then a new round begins. */
  function Rounded<T>(f: Stream<T>, other: Stream<T>): (f': Stream<T>) {
    if !f.run && !other.run then f.(run := Next(f)) else f
  }

  /** What a record with key `x` does to the count of runs. */
  ghost predicate Counted(count: nat, last: int, count': nat, x: int, strict: bool) {
    0 < count' <= count + 1 && (count > 0 && Less(last, x, strict) ==> count' == count)
  }

  /** Taking the smaller head keeps the loop state. */
  lemma TakeKeeps<T>(f1: Stream<T>, f2: Stream<T>, count: nat, last: int, count': nat, pristine: bool,
                     key: T -> int, strict: bool, bound: nat)
    requires Merging(f1, f2, count, last, pristine, key, strict, bound) && f1.run
    requires f2.run ==> Less(key(f1.s[f1.pos]), key(f2.s[f2.pos]), strict)
    requires Counted(count, last, count', key(f1.s[f1.pos]), strict)
    ensures var g1 := Advance(f1, key, strict);
      Merging(Rounded(g1, f2), Rounded(f2, g1), count', key(f1.s[f1.pos]), !g1.run && !f2.run, key, strict, bound)
  {
    hide Runs;
    var g1 := Advance(f1, key, strict);
    AdvanceWaiting(f1, key, strict);
    if !g1.run && !f2.run {
      RoundEnd(g1, f2, key, strict);
    }
  }

  /** Taking two equal heads at once keeps it, too. */
  lemma BothKeep<T>(f1: Stream<T>, f2: Stream<T>, count: nat, last: int, count': nat, pristine: bool,
                    key: T -> int, strict: bool, bound: nat)
    requires Merging(f1, f2, count, last, pristine, key, strict, bound) && f1.run && f2.run
    requires key(f1.s[f1.pos]) == key(f2.s[f2.pos]) && Counted(count, last, count', key(f1.s[f1.pos]), strict)
    ensures var g1, g2 := Advance(f1, key, strict), Advance(f2, key, strict);
      Merging(Rounded(g1, g2), Rounded(g2, g1), count', key(f1.s[f1.pos]), !g1.run && !g2.run, key, strict, bound)
  {
    hide Runs;
    var g1, g2 := Advance(f1, key, strict), Advance(f2, key, strict);
    AdvanceWaiting(f1, key, strict);
    AdvanceWaiting(f2, key, strict);
    if !g1.run && !g2.run {
      RoundEnd(g1, g2, key, strict);
    }
  }

  lemma MergingSymmetric<T>(f1: Stream<T>, f2: Stream<T>, count: nat, last: int, pristine: bool,
                            key: T -> int, strict: bool, bound: nat)
    requires Merging(f1, f2, count, last, pristine, key, strict, bound)
    ensures Merging(f2, f1, count, last, pristine, key, strict, bound)
  {
  }

  /** One round of the merging loop: the smaller head in the run is written. */
  method MergeRound<T>(f1: Stream<T>, f2: Stream<T>, o: Output<T>, two: bool, key: T -> int,
                       ghost pristine: bool, ghost bound: nat)
    returns (f1': Stream<T>, f2': Stream<T>, o': Output<T>, ghost pristine': bool)
    requires f1.pos <= |f1.s| && f2.pos <= |f2.s| && (Next(f1) || Next(f2)) && OutputOk(o, two, key, false)
    requires Merging(f1, f2, o.runCount, LastKey(o, key), pristine, key, false, bound)
    ensures OutputOk(o', two, key, false)
    ensures Merging(f1', f2', o'.runCount, LastKey(o', key), pristine', key, false, bound)
    ensures f1'.s == f1.s && f2'.s == f2.s && f1'.pos <= |f1.s|
    ensures f2'.pos <= |f2.s| && f1'.pos + f2'.pos == f1.pos + f2.pos + 1
    ensures Written(o) == Consumed(f1) + Consumed(f2) ==> Written(o') == Consumed(f1') + Consumed(f2')
  {
    hide Runs, OutputOk, Written, Consumed, LastKey, Selected, Merging;
    MergingHead(f1, f2, o.runCount, LastKey(o, key), pristine, key, false, bound);
    var first: bool;  // comp <= 0
    if !f1.run {
      first := false;
    } else if !f2.run {
      first := true;
    } else {
      first := key(f1.s[f1.pos]) <= key(f2.s[f2.pos]);
    }
    o' := Emit(o, two, if first then f1.s[f1.pos] else f2.s[f2.pos], key, false);
    var g1, g2 := f1, f2;
    if first {
      TakeKeeps(f1, f2, o.runCount, LastKey(o, key), o'.runCount, pristine, key, false, bound);
      ConsumeOne(f1, key, false);
      g1 := Advance(f1, key, false);
    } else {
      MergingSymmetric(f1, f2, o.runCount, LastKey(o, key), pristine, key, false, bound);
      TakeKeeps(f2, f1, o.runCount, LastKey(o, key), o'.runCount, pristine, key, false, bound);
      ConsumeOne(f2, key, false);
      g2 := Advance(f2, key, false);
      MergingSymmetric(Rounded(g2, f1), Rounded(f1, g2), o'.runCount, LastKey(o', key), !g2.run && !f1.run,
                       key, false, bound);
    }
    RoundedSame(g1, g2);
    RoundedSame(g2, g1);
    f1', f2', pristine' := Rounded(g1, g2), Rounded(g2, g1), !g1.run && !g2.run;
  }

  /** Merges two streams of runs into one or two files. The number of output runs is at most the
      larger of the two input run counts, and the runs are dealt out alternately. */
  method Merge<T>(s1: seq<T>, s2: seq<T>, two: bool, key: T -> int)
    returns (out0: seq<T>, out1: seq<T>, runs0: nat, runs1: nat)
    ensures multiset(out0) + multiset(out1) == multiset(s1) + multiset(s2)
    ensures two ==> runs0 + runs1 <= Max(Runs(s1, 0, key, false), Runs(s2, 0, key, false))
    ensures two ==> runs1 <= runs0 <= runs1 + 1 && Runs(out0, 0, key, false) <= runs0
    ensures two ==> Runs(out1, 0, key, false) <= runs1
    ensures two ==> (out1 == [] <==> runs1 == 0)
    ensures !two ==> out1 == [] && Runs(out0, 0, key, false) <= Max(Runs(s1, 0, key, false), Runs(s2, 0, key, false))
    ensures !two && Runs(s1, 0, key, false) <= 1 && Runs(s2, 0, key, false) <= 1 ==> runs0 <= 1
    ensures (out0 == [] <==> s1 == [] && s2 == []) && (out0 == [] <==> runs0 == 0)
  {
    hide Runs, OutputOk, Written, Consumed, LastKey, Selected, Merging;
    var f1, f2 := Stream(s1, 0, 0 < |s1|), Stream(s2, 0, 0 < |s2|);
    var o := Output([], [], -1, -1, 0);
    ghost var bound := Max(Runs(s1, 0, key, false), Runs(s2, 0, key, false));
    ghost var pristine := true;  // nothing has been written in the current round
    MergeStart(s1, s2, LastKey(o, key), key, false);
    OutputStart<T>(two, key, false);
    NothingConsumed(f1, f2);
    while Next(f1) || Next(f2)
      invariant f1.s == s1 && f2.s == s2 && f1.pos <= |s1| && f2.pos <= |s2|
      invariant OutputOk(o, two, key, false)
      invariant Merging(f1, f2, o.runCount, LastKey(o, key), pristine, key, false, bound)
      invariant Written(o) == Consumed(f1) + Consumed(f2)
      decreases |s1| - f1.pos + |s2| - f2.pos
    {
      f1, f2, o, pristine := MergeRound(f1, f2, o, two, key, pristine, bound);
    }
    MergeEnd(o, f1, f2, two, LastKey(o, key), pristine, key, key, false, bound);
    AllConsumed(f1, f2, o);
    out0, out1 := o.out0, o.out1;
    runs1 := if o.fout2 != -1 && o.fout2 != o.fout1 then o.runCount / 2 else 0;
    runs0 := if o.fout1 != -1 then (o.runCount + 1) / 2 else 0;
  }

  lemma RoundEnd<T>(f1: Stream<T>, f2: Stream<T>, key: T -> int, strict: bool)
    requires Legal(f1) && Legal(f2) && !f1.run && !f2.run
    ensures var g1, g2 := f1.(run := Next(f1)), f2.(run := Next(f2));
      && Legal(g1) && Legal(g2) && Consumed(g1) == Consumed(f1) && Consumed(g2) == Consumed(f2)
      && Waiting(g1, key, strict) == (if Next(f1) then Waiting(f1, key, strict) - 1 else 0)
      && Waiting(g2, key, strict) == (if Next(f2) then Waiting(f2, key, strict) - 1 else 0)
      && (!Next(f1) ==> Waiting(f1, key, strict) == 0) && (!Next(f2) ==> Waiting(f2, key, strict) == 0)
  {
  }

  lemma RoundedSame<T>(f: Stream<T>, other: Stream<T>)
    requires f.pos <= |f.s|
    ensures Consumed(Rounded(f, other)) == Consumed(f)
  {
  }

  lemma MergingHead<T>(f1: Stream<T>, f2: Stream<T>, count: nat, last: int, pristine: bool,
                       key: T -> int, strict: bool, bound: nat)
    requires Merging(f1, f2, count, last, pristine, key, strict, bound) && (Next(f1) || Next(f2))
    ensures (f1.run || f2.run) && (f1.run ==> Next(f1)) && (f2.run ==> Next(f2))
  {
  }

  lemma MergeStart<T>(s1: seq<T>, s2: seq<T>, last: int, key: T -> int, strict: bool)
    ensures Merging(Stream(s1, 0, 0 < |s1|), Stream(s2, 0, 0 < |s2|), 0, last, true, key, strict,
                    Max(Runs(s1, 0, key, strict), Runs(s2, 0, key, strict)))
  {
  }

  lemma OutputStart<T>(two: bool, key: T -> int, strict: bool)
    ensures OutputOk<T>(Output([], [], -1, -1, 0), two, key, strict)
    ensures Written<T>(Output([], [], -1, -1, 0)) == multiset{}
  {
  }

  lemma NothingConsumed<T>(f1: Stream<T>, f2: Stream<T>)
    requires f1.pos == f2.pos == 0
    ensures Consumed(f1) + Consumed(f2) == multiset{}
  {
  }

  lemma AllConsumed<T>(f1: Stream<T>, f2: Stream<T>, o: Output<T>)
    requires f1.pos == |f1.s| && f2.pos == |f2.s| && Written(o) == Consumed(f1) + Consumed(f2)
    ensures multiset(o.out0) + multiset(o.out1) == multiset(f1.s) + multiset(f2.s)
    ensures o.out0 == [] && o.out1 == [] <==> f1.s == [] && f2.s == []
  {
    assert f1.s[..|f1.s|] == f1.s && f2.s[..|f2.s|] == f2.s;
    assert |multiset(o.out0) + multiset(o.out1)| == |o.out0| + |o.out1|;
    assert |multiset(f1.s) + multiset(f2.s)| == |f1.s| + |f2.s|;
  }

  lemma MergeEnd<T, U>(o: Output<U>, f1: Stream<T>, f2: Stream<T>, two: bool, last: int, pristine: bool,
                       key: T -> int, key': U -> int, strict: bool, bound: nat)
    requires OutputOk(o, two, key', strict) && Merging(f1, f2, o.runCount, last, pristine, key, strict, bound)
    ensures o.runCount <= bound
    ensures Runs(o.out0, 0, key', strict) <= (if two then (o.runCount + 1) / 2 else o.runCount)
    ensures Runs(o.out1, 0, key', strict) <= (if two then o.runCount / 2 else 0)
    ensures o.runCount == 0 <==> o.out0 == []
    ensures o.out1 == [] <==> !two || o.runCount <= 1
    ensures o.fout1 == -1 <==> o.runCount == 0
    ensures o.fout2 != -1 && o.fout2 != o.fout1 <==> two && o.runCount > 1
  {
  }
}
