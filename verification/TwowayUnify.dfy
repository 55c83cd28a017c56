/** The two-way merge of generic/sorter/s-twoway.h with SORT_UNIFY: runs rise strictly, and two
    equal heads become one record. A record is represented by the group of original records it is
    merged from, so that passes can follow each other. */
module TwowayUnify {
  import opened Basics
  import opened Ordering
  import opened Twoway

  /** A record: some original records, all with the same key. */
  ghost predicate Uniform<T>(g: seq<T>, key: T -> int) {
    g != [] && forall i :: 0 <= i < |g| ==> key(g[i]) == key(g[0])
  }

  ghost predicate AllUniform<T>(s: seq<seq<T>>, key: T -> int) {
    forall i :: 0 <= i < |s| ==> Uniform(s[i], key)
  }

  function KeyOf<T>(key: T -> int): (k: seq<T> -> int) {
    (g: seq<T>) => if g == [] then 0 else key(g[0])
  }

  lemma MergedUniform<T>(g: seq<T>, h: seq<T>, key: T -> int)
    requires Uniform(g, key) && Uniform(h, key) && KeyOf(key)(g) == KeyOf(key)(h)
    ensures Uniform(g + h, key) && KeyOf(key)(g + h) == KeyOf(key)(g) && multiset(g + h) == multiset(g) + multiset(h)
  {
  }

  lemma AllSnoc<T>(s: seq<seq<T>>, g: seq<T>)
    ensures All(s + [g]) == All(s) + multiset(g)
  {
    hide All;
    AllConcat(s, [g]);
    AllOne(g);
  }

  /** The original records of what has been read from a stream. */
  ghost function Read<T>(f: Stream<seq<T>>): multiset<T>
    requires f.pos <= |f.s|
  {
    All(f.s[..f.pos])
  }

  lemma ReadOne<T>(f: Stream<seq<T>>, key: seq<T> -> int)
    requires Next(f)
    ensures Read(Advance(f, key, true)) == Read(f) + multiset(f.s[f.pos])
  {
    assert f.s[..f.pos + 1] == f.s[..f.pos] + [f.s[f.pos]];
    AllSnoc(f.s[..f.pos], f.s[f.pos]);
  }

  /** What has been written is made of what has been read. */
  ghost predicate Made<T>(o: Output<seq<T>>, f1: Stream<seq<T>>, f2: Stream<seq<T>>, key: T -> int) {
    && f1.pos <= |f1.s| && f2.pos <= |f2.s|
    && All(o.out0) + All(o.out1) == Read(f1) + Read(f2)
    && AllUniform(o.out0, key) && AllUniform(o.out1, key)
  }

  /** `o'` is `o` with `g` written to one of its files. */
  ghost predicate Appended<T>(o: Output<seq<T>>, o': Output<seq<T>>, g: seq<T>) {
    (o'.out0 == o.out0 + [g] && o'.out1 == o.out1) || (o'.out0 == o.out0 && o'.out1 == o.out1 + [g])
  }

  lemma AppendedAll<T>(o: Output<seq<T>>, o': Output<seq<T>>, g: seq<T>)
    requires Appended(o, o', g)
    ensures All(o'.out0) + All(o'.out1) == All(o.out0) + All(o.out1) + multiset(g)
  {
    hide All;
    AllSnoc(o.out0, g);
    AllSnoc(o.out1, g);
  }

  lemma WriteMade<T>(o: Output<seq<T>>, o': Output<seq<T>>, g: seq<T>, f1: Stream<seq<T>>, f2: Stream<seq<T>>,
                     g1: Stream<seq<T>>, g2: Stream<seq<T>>, key: T -> int)
    requires Made(o, f1, f2, key) && Uniform(g, key) && Appended(o, o', g)
    requires g1.pos <= |g1.s| && g2.pos <= |g2.s|
    ensures Read(g1) + Read(g2) == Read(f1) + Read(f2) + multiset(g) ==> Made(o', g1, g2, key)
  {
    hide All, Read, Uniform;
    AppendedAll(o, o', g);
  }

  /** The heads taken in one round: the smaller one, or both if they are equal. */
  datatype Taken = First | Second | Both

  function Compared<T>(f1: Stream<T>, f2: Stream<T>, key: T -> int): (t: Taken)
    requires f1.run || f2.run
    requires (f1.run ==> Next(f1)) && (f2.run ==> Next(f2))
  {
    if !f1.run then Second
    else if !f2.run then First
    else if key(f1.s[f1.pos]) < key(f2.s[f2.pos]) then First
    else if key(f1.s[f1.pos]) == key(f2.s[f2.pos]) then Both
    else Second
  }

  /** Whatever is taken, the loop state is kept. */
  lemma RoundKeeps<T>(f1: Stream<T>, f2: Stream<T>, count: nat, last: int, count': nat, x: int, pristine: bool,
                      key: T -> int, bound: nat)
    requires (f1.run || f2.run) && (f1.run ==> Next(f1)) && (f2.run ==> Next(f2))
    requires Merging(f1, f2, count, last, pristine, key, true, bound) && Counted(count, last, count', x, true)
    requires x == if Compared(f1, f2, key).Second? then key(f2.s[f2.pos]) else key(f1.s[f1.pos])
    ensures var t := Compared(f1, f2, key);
      var g1 := if t.Second? then f1 else Advance(f1, key, true);
      var g2 := if t.First? then f2 else Advance(f2, key, true);
      Merging(Rounded(g1, g2), Rounded(g2, g1), count', x, !g1.run && !g2.run, key, true, bound)
  {
    hide Merging;
    match Compared(f1, f2, key)
    case First => TakeKeeps(f1, f2, count, last, count', pristine, key, true, bound);
    case Both => BothKeep(f1, f2, count, last, count', pristine, key, true, bound);
    case Second =>
      MergingSymmetric(f1, f2, count, last, pristine, key, true, bound);
      TakeKeeps(f2, f1, count, last, count', pristine, key, true, bound);
      var g2 := Advance(f2, key, true);
      MergingSymmetric(Rounded(g2, f1), Rounded(f1, g2), count', x, !g2.run && !f1.run, key, true, bound);
  }

  /** Takes the heads of one round and makes them one record. */
  method Take<T>(f1: Stream<seq<T>>, f2: Stream<seq<T>>, key: T -> int)
    returns (g: seq<T>, g1: Stream<seq<T>>, g2: Stream<seq<T>>)
    requires (f1.run || f2.run) && (f1.run ==> Next(f1)) && (f2.run ==> Next(f2))
    requires f1.pos <= |f1.s| && f2.pos <= |f2.s| && AllUniform(f1.s, key) && AllUniform(f2.s, key)
    ensures var t := Compared(f1, f2, KeyOf(key));
      && g1 == (if t.Second? then f1 else Advance(f1, KeyOf(key), true))
      && g2 == (if t.First? then f2 else Advance(f2, KeyOf(key), true))
      && KeyOf(key)(g) == KeyOf(key)(if t.Second? then f2.s[f2.pos] else f1.s[f1.pos])
    ensures Uniform(g, key) && Read(g1) + Read(g2) == Read(f1) + Read(f2) + multiset(g)
  {
    hide Uniform, Read;
    g1, g2 := f1, f2;
    match Compared(f1, f2, KeyOf(key))
    case First =>
      g := f1.s[f1.pos];
      ReadOne(f1, KeyOf(key));
      g1 := Advance(f1, KeyOf(key), true);
    case Both =>
      g := f1.s[f1.pos] + f2.s[f2.pos];
      MergedUniform(f1.s[f1.pos], f2.s[f2.pos], key);
      ReadOne(f1, KeyOf(key));
      ReadOne(f2, KeyOf(key));
      g1, g2 := Advance(f1, KeyOf(key), true), Advance(f2, KeyOf(key), true);
    case Second =>
      g := f2.s[f2.pos];
      ReadOne(f2, KeyOf(key));
      g2 := Advance(f2, KeyOf(key), true);
  }

  /** One round of the merging loop. */
  method UnifyRound<T>(f1: Stream<seq<T>>, f2: Stream<seq<T>>, o: Output<seq<T>>, two: bool, key: T -> int,
                       ghost pristine: bool, ghost bound: nat)
    returns (f1': Stream<seq<T>>, f2': Stream<seq<T>>, o': Output<seq<T>>, ghost pristine': bool)
    requires AllUniform(f1.s, key) && AllUniform(f2.s, key) && (Next(f1) || Next(f2))
    requires OutputOk(o, two, KeyOf(key), true) && Made(o, f1, f2, key)
    requires Merging(f1, f2, o.runCount, LastKey(o, KeyOf(key)), pristine, KeyOf(key), true, bound)
    ensures OutputOk(o', two, KeyOf(key), true) && Made(o', f1', f2', key)
    ensures Merging(f1', f2', o'.runCount, LastKey(o', KeyOf(key)), pristine', KeyOf(key), true, bound)
    ensures f1'.s == f1.s && f2'.s == f2.s && f1'.pos <= |f1.s| && f2'.pos <= |f2.s|
    ensures f1'.pos + f2'.pos > f1.pos + f2.pos
  {
    hide Runs, OutputOk, Read, LastKey, Selected, Merging, Uniform, AllUniform, All, Written, KeyOf;
    MergingHead(f1, f2, o.runCount, LastKey(o, KeyOf(key)), pristine, KeyOf(key), true, bound);
    var g, g1, g2 := Take(f1, f2, key);
    o' := Emit(o, two, g, KeyOf(key), true);
    RoundKeeps(f1, f2, o.runCount, LastKey(o, KeyOf(key)), o'.runCount, KeyOf(key)(g), pristine, KeyOf(key), bound);
    f1', f2', pristine' := Rounded(g1, g2), Rounded(g2, g1), !g1.run && !g2.run;
    RoundedRead(g1, g2);
    RoundedRead(g2, g1);
    WriteMade(o, o', g, f1, f2, f1', f2', key);
  }

  lemma RoundedRead<T>(f: Stream<seq<T>>, other: Stream<seq<T>>)
    requires f.pos <= |f.s|
    ensures Read(Rounded(f, other)) == Read(f)
  {
  }

  /** Keys rise strictly from record to record. */
  ghost predicate Strict<T>(s: seq<seq<T>>, key: T -> int) {
    forall i, j :: 0 <= i < j < |s| ==> KeyOf(key)(s[i]) < KeyOf(key)(s[j])
  }

  /** The merge of strictly rising runs: nothing is lost, records stay uniform, and the run counts
      are bounded as without unification. Two single runs become one. */
  method MergeUnified<T>(s1: seq<seq<T>>, s2: seq<seq<T>>, two: bool, key: T -> int)
    returns (out0: seq<seq<T>>, out1: seq<seq<T>>, runs0: nat, runs1: nat)
    requires AllUniform(s1, key) && AllUniform(s2, key)
    ensures All(out0) + All(out1) == All(s1) + All(s2) && AllUniform(out0, key) && AllUniform(out1, key)
    ensures two ==> runs0 + runs1 <= Max(StrictRuns(s1, key), StrictRuns(s2, key)) && runs1 <= runs0 <= runs1 + 1
    ensures two ==> StrictRuns(out0, key) <= runs0 && StrictRuns(out1, key) <= runs1 && (out1 == [] <==> runs1 == 0)
    ensures !two ==> out1 == [] && StrictRuns(out0, key) <= Max(StrictRuns(s1, key), StrictRuns(s2, key))
  {
    hide Runs, OutputOk, Read, LastKey, Selected, Merging, Made, All, Written, KeyOf;
    var f1, f2 := Stream(s1, 0, 0 < |s1|), Stream(s2, 0, 0 < |s2|);
    var o: Output<seq<T>> := Output([], [], -1, -1, 0);
    ghost var bound := Max(StrictRuns(s1, key), StrictRuns(s2, key));
    ghost var pristine := true;
    MergeStart(s1, s2, LastKey(o, KeyOf(key)), KeyOf(key), true);
    OutputStart<seq<T>>(two, KeyOf(key), true);
    MadeStart(o, f1, f2, key);
    while Next(f1) || Next(f2)
      invariant f1.s == s1 && f2.s == s2 && f1.pos <= |s1| && f2.pos <= |s2|
      invariant OutputOk(o, two, KeyOf(key), true) && Made(o, f1, f2, key)
      invariant Merging(f1, f2, o.runCount, LastKey(o, KeyOf(key)), pristine, KeyOf(key), true, bound)
      decreases |s1| - f1.pos + |s2| - f2.pos
    {
      f1, f2, o, pristine := UnifyRound(f1, f2, o, two, key, pristine, bound);
    }
    MergeEnd(o, f1, f2, two, LastKey(o, KeyOf(key)), pristine, KeyOf(key), KeyOf(key), true, bound);
    MadeEnd(o, f1, f2, key);
    out0, out1 := o.out0, o.out1;
    runs1 := if o.fout2 != -1 && o.fout2 != o.fout1 then o.runCount / 2 else 0;
    runs0 := if o.fout1 != -1 then (o.runCount + 1) / 2 else 0;
  }

  function StrictRuns<T>(s: seq<seq<T>>, key: T -> int): (r: nat) {
    Runs(s, 0, KeyOf(key), true)
  }

  lemma MadeStart<T>(o: Output<seq<T>>, f1: Stream<seq<T>>, f2: Stream<seq<T>>, key: T -> int)
    requires o.out0 == o.out1 == [] && f1.pos == f2.pos == 0
    ensures Made(o, f1, f2, key)
  {
  }

  lemma MadeEnd<T>(o: Output<seq<T>>, f1: Stream<seq<T>>, f2: Stream<seq<T>>, key: T -> int)
    requires Made(o, f1, f2, key) && f1.pos == |f1.s| && f2.pos == |f2.s|
    ensures All(o.out0) + All(o.out1) == All(f1.s) + All(f2.s)
    ensures AllUniform(o.out0, key) && AllUniform(o.out1, key)
  {
    assert f1.s[..|f1.s|] == f1.s && f2.s[..|f2.s|] == f2.s;
  }

  lemma SingleRun<T>(s: seq<seq<T>>, key: T -> int)
    ensures StrictRuns(s, key) <= 1 <==> Strict(s, key)
  {
    OneRun(s, 0, KeyOf(key), true);
    if StrictRuns(s, key) <= 1 {
      forall i, j | 0 <= i < j < |s| ensures KeyOf(key)(s[i]) < KeyOf(key)(s[j]) {
        assert Less(KeyOf(key)(s[i]), KeyOf(key)(s[j]), true);
      }
    }
  }

  /** Repeated passes: one strictly rising run of uniform records is left, with every original
      record, after at most one pass more than the rounded-up logarithm of the larger run count. */
  method UnifyPasses<T>(a0: seq<seq<T>>, a1: seq<seq<T>>, r0: nat, r1: nat, join: bool, key: T -> int)
    returns (out: seq<seq<T>>, ghost passes: nat)
    requires AllUniform(a0, key) && AllUniform(a1, key) && StrictRuns(a0, key) <= r0 && StrictRuns(a1, key) <= r1
    ensures Strict(out, key) && AllUniform(out, key) && All(out) == All(a0) + All(a1)
    ensures passes <= 1 + LogUp(Max(StrictRuns(a0, key), StrictRuns(a1, key)))
  {
    hide StrictRuns, LogUp, All, Strict, AllUniform;
    var ins0, ins1, runs0, runs1 := a0, a1, r0, r1;
    passes := 0;
    while true
      invariant AllUniform(ins0, key) && AllUniform(ins1, key)
      invariant StrictRuns(ins0, key) <= runs0 && StrictRuns(ins1, key) <= runs1
      invariant All(ins0) + All(ins1) == All(a0) + All(a1)
      invariant passes + LogUp(Max(StrictRuns(ins0, key), StrictRuns(ins1, key)))
        <= LogUp(Max(StrictRuns(a0, key), StrictRuns(a1, key)))
      decreases Max(StrictRuns(ins0, key), StrictRuns(ins1, key))
    {
      passes := passes + 1;
      ghost var most := Max(StrictRuns(ins0, key), StrictRuns(ins1, key));
      var single := runs0 <= 1 && runs1 <= 1 && join;
      var outs0, outs1, n0, n1 := MergeUnified(ins0, ins1, !single, key);
      if !single {
        PassHalves(most, Max(StrictRuns(outs0, key), StrictRuns(outs1, key)));
      }
      NoRecords(outs1, key);
      if single || outs1 == [] {
        SingleRun(outs0, key);
        return outs0, passes;
      }
      ins0, ins1, runs0, runs1 := outs0, outs1, n0, n1;
    }
  }

  lemma NoRecords<T>(s: seq<seq<T>>, key: T -> int)
    ensures s == [] ==> All(s) == multiset{} && StrictRuns(s, key) == 0 && AllUniform(s, key)
  {
  }

  /** In such a run the record of a key holds every original record with that key. */
  lemma {:induction false} GroupComplete<T>(s: seq<seq<T>>, i: nat, x: T, key: T -> int)
    requires i < |s| && Strict(s, key) && AllUniform(s, key) && key(x) == KeyOf(key)(s[i])
    ensures All(s)[x] == multiset(s[i])[x]
    decreases |s|
  {
    assert forall j, k :: 0 <= j < k < |s| - 1 ==> s[1..][j] == s[j + 1] && s[1..][k] == s[k + 1];
    if i > 0 {
      NotHeld(s[0], x, key);
      GroupComplete(s[1..], i - 1, x, key);
    } else {
      NoneHold(s[1..], x, key);
    }
  }

  lemma NotHeld<T>(g: seq<T>, x: T, key: T -> int)
    requires Uniform(g, key) && KeyOf(key)(g) != key(x)
    ensures x !in multiset(g)
  {
  }

  lemma {:induction false} NoneHold<T>(s: seq<seq<T>>, x: T, key: T -> int)
    requires AllUniform(s, key) && forall i :: 0 <= i < |s| ==> KeyOf(key)(s[i]) != key(x)
    ensures x !in All(s)
  {
    if s != [] {
      NotHeld(s[0], x, key);
      NoneHold(s[1..], x, key);
    }
  }
}
