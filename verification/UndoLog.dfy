/** Undo logs over a memory of words: what cf_journal_swap computes. */
module UndoLog {

  /** A saved copy of the words from `ptr` on. */
  datatype Entry = Entry(ptr: nat, copy: seq<int>)

  predicate Inside(e: Entry, n: nat) {
    e.ptr + |e.copy| <= n
  }

  predicate AllInside(log: seq<Entry>, n: nat) {
    forall i :: 0 <= i < |log| ==> Inside(log[i], n)
  }

  predicate Covers(e: Entry, x: nat) {
    e.ptr <= x < e.ptr + |e.copy|
  }

  function Put(m: seq<int>, e: Entry): (r: seq<int>)
    requires Inside(e, |m|)
    ensures |r| == |m|
    ensures forall x :: 0 <= x < |m| ==> r[x] == if Covers(e, x) then e.copy[x - e.ptr] else m[x]
  {
    m[..e.ptr] + e.copy + m[e.ptr + |e.copy|..]
  }

  /** The words that `e` covers, as they are in `m`. */
  function Taken(m: seq<int>, e: Entry): (r: Entry)
    requires Inside(e, |m|)
    ensures r.ptr == e.ptr && |r.copy| == |e.copy|
  {
    Entry(e.ptr, m[e.ptr..e.ptr + |e.copy|])
  }

  /** Swaps the entries of `log`, newest first, with memory, and stacks them on `done`. */
  function SwapOnto(m: seq<int>, log: seq<Entry>, done: seq<Entry>): (r: (seq<int>, seq<Entry>))
    requires AllInside(log, |m|)
    ensures |r.0| == |m| && |r.1| == |log| + |done|
    decreases |log|
  {
    if log == [] then (m, done)
    else SwapOnto(Put(m, log[0]), log[1..], [Taken(m, log[0])] + done)
  }

  function Undo(m: seq<int>, log: seq<Entry>): (r: seq<int>)
    requires AllInside(log, |m|)
    ensures |r| == |m|
  {
    SwapOnto(m, log, []).0
  }

  lemma {:induction false} SwapInside(m: seq<int>, log: seq<Entry>, done: seq<Entry>, n: nat)
    requires AllInside(log, |m|) && AllInside(log, n) && AllInside(done, n)
    ensures AllInside(SwapOnto(m, log, done).1, n)
    decreases |log|
  {
    if log != [] {
      assert Inside(log[0], n);
      SwapInside(Put(m, log[0]), log[1..], [Taken(m, log[0])] + done, n);
    }
  }

  lemma PutBack(m: seq<int>, e: Entry)
    requires Inside(e, |m|)
    ensures Put(Put(m, e), Taken(m, e)) == m && Taken(Put(m, e), Taken(m, e)) == e
  {
    var p, n := Put(m, e), |e.copy|;
    assert p[e.ptr..e.ptr + n] == e.copy;
    assert p[..e.ptr] == m[..e.ptr] && p[e.ptr + n..] == m[e.ptr + n..];
  }

  /** Swapping back runs the same swaps in reverse. */
  lemma {:induction false} SwapBack(m: seq<int>, log: seq<Entry>, done: seq<Entry>)
    requires AllInside(log, |m|) && AllInside(done, |m|)
    ensures AllInside(SwapOnto(m, log, done).1, |m|)
    ensures SwapOnto(SwapOnto(m, log, done).0, SwapOnto(m, log, done).1, []) == SwapOnto(m, done, log)
    decreases |log|
  {
    hide Put, Taken;
    SwapInside(m, log, done, |m|);
    if log != [] {
      var e := log[0];
      var t, m' := Taken(m, e), Put(m, e);
      SwapBack(m', log[1..], [t] + done);
      PutBack(m, e);
      assert ([t] + done)[1..] == done && [e] + log[1..] == log;
    }
  }

  /** Swapping twice restores both memory and log. */
  lemma {:induction false} SwapTwice(m: seq<int>, log: seq<Entry>)
    requires AllInside(log, |m|)
    ensures AllInside(SwapOnto(m, log, []).1, |m|)
    ensures SwapOnto(SwapOnto(m, log, []).0, SwapOnto(m, log, []).1, []) == (m, log)
  {
    SwapBack(m, log, []);
  }

  /** Memory does not depend on what is already done. */
  lemma {:induction false} SwapMemory(m: seq<int>, log: seq<Entry>, done: seq<Entry>)
    requires AllInside(log, |m|)
    ensures SwapOnto(m, log, done).0 == Undo(m, log)
    decreases |log|
  {
    if log != [] {
      SwapMemory(Put(m, log[0]), log[1..], [Taken(m, log[0])] + done);
      SwapMemory(Put(m, log[0]), log[1..], [Taken(m, log[0])] + []);
    }
  }

  lemma UndoStep(m: seq<int>, log: seq<Entry>)
    requires AllInside(log, |m|) && log != []
    ensures Undo(m, log) == Undo(Put(m, log[0]), log[1..])
  {
    SwapMemory(Put(m, log[0]), log[1..], [Taken(m, log[0])] + []);
  }

  /** Undoing leaves uncovered words alone. */
  lemma {:induction false} UndoOutside(m: seq<int>, log: seq<Entry>, x: nat)
    requires AllInside(log, |m|) && x < |m|
    requires forall i :: 0 <= i < |log| ==> !Covers(log[i], x)
    ensures Undo(m, log)[x] == m[x]
    decreases |log|
  {
    if log != [] {
      UndoStep(m, log);
      assert !Covers(log[0], x);
      UndoOutside(Put(m, log[0]), log[1..], x);
    }
  }

  /** Undoing gives every covered word the value of the oldest copy of it. */
  lemma {:induction false} UndoOldest(m: seq<int>, log: seq<Entry>, x: nat, k: nat)
    requires AllInside(log, |m|) && k < |log| && Covers(log[k], x)
    requires forall i :: k < i < |log| ==> !Covers(log[i], x)
    ensures x < |m| && Undo(m, log)[x] == log[k].copy[x - log[k].ptr]
    decreases |log|
  {
    assert Inside(log[k], |m|);
    UndoStep(m, log);
    if k == 0 {
      forall i | 0 <= i < |log[1..]| ensures !Covers(log[1..][i], x) {
        assert log[1..][i] == log[i + 1];
      }
      UndoOutside(Put(m, log[0]), log[1..], x);
    } else {
      UndoOldest(Put(m, log[0]), log[1..], x, k - 1);
    }
  }

  /** Each word of the undone memory depends on the log and on that word only. */
  lemma {:induction false} UndoLocal(m: seq<int>, m': seq<int>, log: seq<Entry>, x: nat)
    requires AllInside(log, |m|) && AllInside(log, |m'|) && x < |m| && x < |m'|
    requires m[x] == m'[x] || exists i :: 0 <= i < |log| && Covers(log[i], x)
    ensures Undo(m, log)[x] == Undo(m', log)[x]
    decreases |log|
  {
    if log != [] {
      UndoStep(m, log);
      UndoStep(m', log);
      if !Covers(log[0], x) && m[x] != m'[x] {
        var i :| 0 <= i < |log| && Covers(log[i], x);
        assert log[1..][i - 1] == log[i];
      }
      UndoLocal(Put(m, log[0]), Put(m', log[0]), log[1..], x);
    }
  }

  /** Journaling a block before it changes does not change what undoing gives. */
  lemma UndoJournaled(m: seq<int>, log: seq<Entry>, e: Entry)
    requires AllInside(log, |m|) && Inside(e, |m|)
    ensures Undo(m, [Taken(m, e)] + log) == Undo(m, log)
  {
    var t := Taken(m, e);
    UndoStep(m, [t] + log);
    assert Put(m, t) == m;
    assert ([t] + log)[1..] == log;
  }

  /** Undoing a newer log and then an older one is undoing their concatenation. */
  lemma {:induction false} UndoConcat(m: seq<int>, newer: seq<Entry>, older: seq<Entry>)
    requires AllInside(newer, |m|) && AllInside(older, |m|)
    ensures AllInside(newer + older, |m|)
    ensures Undo(m, newer + older) == Undo(Undo(m, newer), older)
    decreases |newer|
  {
    if newer == [] {
      assert newer + older == older;
    } else {
      UndoStep(m, newer);
      UndoStep(m, newer + older);
      assert (newer + older)[1..] == newer[1..] + older;
      UndoConcat(Put(m, newer[0]), newer[1..], older);
    }
  }

  /** Memories that agree below `n` swap alike with a log that stays below `n`. */
  lemma {:induction false} SwapBelow(m: seq<int>, m': seq<int>, log: seq<Entry>, done: seq<Entry>, n: nat)
    requires n <= |m| && n <= |m'| && m[..n] == m'[..n] && AllInside(log, n)
    ensures AllInside(log, |m|) && AllInside(log, |m'|)
    ensures SwapOnto(m, log, done).1 == SwapOnto(m', log, done).1
    ensures SwapOnto(m, log, done).0[..n] == SwapOnto(m', log, done).0[..n]
    decreases |log|
  {
    forall i | 0 <= i < |log| ensures Inside(log[i], |m|) && Inside(log[i], |m'|) {
      assert Inside(log[i], n);
    }
    if log != [] {
      var e := log[0];
      assert Inside(e, n);
      assert forall x :: 0 <= x < n ==> m[x] == m[..n][x] && m'[x] == m'[..n][x];
      assert Taken(m, e) == Taken(m', e);
      assert Put(m, e)[..n] == Put(m', e)[..n];
      SwapBelow(Put(m, e), Put(m', e), log[1..], [Taken(m, e)] + done, n);
    }
  }

  ghost predicate CoveredBy(log: seq<Entry>, x: nat) {
    exists i :: 0 <= i < |log| && Covers(log[i], x)
  }

  /** Writing a covered word, or a word from `n` on, does not change the undone memory below `n`. */
  lemma UndoStore(m: seq<int>, log: seq<Entry>, x: nat, v: int, n: nat)
    requires AllInside(log, |m|) && x < |m| && n <= |m| && (x >= n || CoveredBy(log, x))
    ensures Undo(m[x := v], log)[..n] == Undo(m, log)[..n]
  {
    forall y | 0 <= y < n ensures Undo(m[x := v], log)[y] == Undo(m, log)[y] {
      UndoLocal(m[x := v], m, log, y);
    }
  }

  lemma UndoExtend(m: seq<int>, log: seq<Entry>, words: seq<int>, n: nat)
    requires AllInside(log, |m|) && n <= |m|
    ensures AllInside(log, |m + words|) && Undo(m + words, log)[..n] == Undo(m, log)[..n]
  {
    forall i | 0 <= i < |log| ensures Inside(log[i], |m + words|) {
      assert Inside(log[i], |m|);
    }
    forall y | 0 <= y < n ensures Undo(m + words, log)[y] == Undo(m, log)[y] {
      UndoLocal(m + words, m, log, y);
    }
  }

  /** What loading a configuration does to memory: it saves blocks, writes words, and allocates. */
  datatype Act = Save(ptr: nat, len: nat) | Store(at: nat, value: int) | Extend(words: seq<int>)

  function Range(ptr: nat, len: nat): (r: set<nat>) {
    set x: nat | ptr <= x < ptr + len && InRange(x, ptr, len)
  }

  predicate InRange(x: nat, ptr: nat, len: nat) {
    ptr <= x < ptr + len
  }

  /** Words below `base` are written only after they have been saved. */
  predicate Disciplined(acts: seq<Act>, size: nat, base: nat, saved: set<nat>) {
    acts == [] ||
    match acts[0]
    case Save(ptr, len) => ptr + len <= size && Disciplined(acts[1..], size, base, saved + Range(ptr, len))
    case Store(at, _) => at < size && (at >= base || at in saved) && Disciplined(acts[1..], size, base, saved)
    case Extend(words) => Disciplined(acts[1..], size + |words|, base, saved)
  }

  function Effect(m: seq<int>, act: Act): (r: seq<int>) {
    match act
    case Save(_, _) => m
    case Store(at, value) => if at < |m| then m[at := value] else m
    case Extend(words) => m + words
  }

  /** Memory after the acts. */
  function Done(m: seq<int>, acts: seq<Act>): (r: seq<int>)
    decreases |acts|
  {
    if acts == [] then m else Done(Effect(m, acts[0]), acts[1..])
  }

  /** How many words the acts allocate. */
  function Grown(acts: seq<Act>): (n: nat)
    decreases |acts|
  {
    if acts == [] then 0 else (if acts[0].Extend? then |acts[0].words| else 0) + Grown(acts[1..])
  }

  lemma {:induction false} DoneSize(m: seq<int>, acts: seq<Act>)
    ensures |Done(m, acts)| == |m| + Grown(acts)
    decreases |acts|
  {
    if acts != [] {
      DoneSize(Effect(m, acts[0]), acts[1..]);
    }
  }

  lemma RefusalSize(enabled: bool, m: seq<int>, acts: seq<Act>)
    ensures |AfterRefusal(enabled, m, acts)| == |m| + Grown(acts)
  {
    DoneSize(m, acts);
  }

  /** What the acts journal when journalling is on, newest first. */
  function Written(m: seq<int>, acts: seq<Act>): (log: seq<Entry>)
    decreases |acts|
  {
    if acts == [] then []
    else
      var a := acts[0];
      var rest := Written(Effect(m, a), acts[1..]);
      if a.Save? && a.ptr + a.len <= |m| then rest + [Entry(a.ptr, m[a.ptr..a.ptr + a.len])] else rest
  }

  /** What is done in two parts is done one after the other. */
  lemma {:induction false} DoneConcat(m: seq<int>, a: seq<Act>, b: seq<Act>)
    ensures Done(m, a + b) == Done(Done(m, a), b)
    ensures Written(m, a + b) == Written(Done(m, a), b) + Written(m, a)
    decreases |a|
  {
    hide Effect;
    if a == [] {
      assert a + b == b;
    } else {
      assert (a + b)[0] == a[0] && (a + b)[1..] == a[1..] + b;
      DoneConcat(Effect(m, a[0]), a[1..], b);
    }
  }

  /** Memory after a load that is refused: undone if it was journaled. */
  function AfterRefusal(enabled: bool, m: seq<int>, acts: seq<Act>): (r: seq<int>) {
    var done, log := Done(m, acts), Written(m, acts);
    if enabled && AllInside(log, |done|) then Undo(done, log) else done
  }

  lemma CoveredMore(was: seq<Entry>, e: Entry, saved: set<nat>)
    requires forall x :: x in saved ==> CoveredBy(was, x)
    ensures forall x :: x in saved + Range(e.ptr, |e.copy|) ==> CoveredBy([e] + was, x)
  {
    forall x | x in saved + Range(e.ptr, |e.copy|) ensures CoveredBy([e] + was, x) {
      if x in saved {
        var i :| 0 <= i < |was| && Covers(was[i], x);
        assert ([e] + was)[i + 1] == was[i];
      } else {
        assert Covers(([e] + was)[0], x);
      }
    }
  }

  /** The first of several acts, and what it journals, keep what undoing gives. */
  lemma FirstAct(m: seq<int>, acts: seq<Act>, base: nat, saved: set<nat>, log: seq<Entry>)
    returns (log': seq<Entry>, saved': set<nat>)
    requires acts != [] && AllInside(log, |m|) && base <= |m| && Disciplined(acts, |m|, base, saved)
    requires forall x :: x in saved ==> CoveredBy(log, x)
    ensures var m' := Effect(m, acts[0]);
      && |m| <= |m'| && AllInside(log', |m'|) && Disciplined(acts[1..], |m'|, base, saved')
      && Written(m, acts) + log == Written(m', acts[1..]) + log'
      && Undo(m', log')[..base] == Undo(m, log)[..base]
    ensures forall x :: x in saved' ==> CoveredBy(log', x)
  {
    hide Undo, CoveredBy;
    log', saved' := log, saved;
    match acts[0]
    case Save(ptr, len) =>
      var e := Entry(ptr, m[ptr..ptr + len]);
      UndoJournaled(m, log, e);
      CoveredMore(log, e, saved);
      log', saved' := [e] + log, saved + Range(ptr, len);
    case Store(at, value) => UndoStore(m, log, at, value, base);
    case Extend(words) => UndoExtend(m, log, words, base);
  }

  /** Disciplined acts never change what undoing their journal gives. */
  lemma {:induction false} DoneUndo(m: seq<int>, acts: seq<Act>, base: nat, saved: set<nat>, log: seq<Entry>)
    requires AllInside(log, |m|) && base <= |m| && Disciplined(acts, |m|, base, saved)
    requires forall x :: x in saved ==> CoveredBy(log, x)
    ensures |m| <= |Done(m, acts)| && AllInside(Written(m, acts) + log, |Done(m, acts)|)
    ensures Undo(Done(m, acts), Written(m, acts) + log)[..base] == Undo(m, log)[..base]
    decreases |acts|
  {
    hide Undo, CoveredBy, Disciplined, AllInside, Effect;
    if acts == [] {
      assert [] + log == log;
    } else {
      var log', saved' := FirstAct(m, acts, base, saved, log);
      DoneUndo(Effect(m, acts[0]), acts[1..], base, saved', log');
    }
  }

  /** A journaled load that is refused leaves older memory as it was. */
  lemma RefusalRestores(m: seq<int>, acts: seq<Act>)
    requires Disciplined(acts, |m|, |m|, {})
    ensures |m| <= |AfterRefusal(true, m, acts)| && AfterRefusal(true, m, acts)[..|m|] == m
  {
    DoneUndo(m, acts, |m|, {}, []);
    assert Written(m, acts) + [] == Written(m, acts);
    assert Undo(m, []) == m && m[..|m|] == m;
  }

  /** Without journalling some refused load does not: it changes the first word. */
  lemma RefusalKeeps(m: seq<int>) returns (acts: seq<Act>)
    requires m != []
    ensures Disciplined(acts, |m|, |m|, {}) && AfterRefusal(false, m, acts) == m[0 := m[0] + 1]
  {
    acts := [Save(0, 1), Store(0, m[0] + 1)];
    assert InRange(0, 0, 1);
    assert acts[1..] == [Store(0, m[0] + 1)] && acts[1..][1..] == [];
    assert Disciplined(acts[1..], |m|, |m|, {} + Range(0, 1));
    assert Done(m, acts) == Done(m, acts[1..]) == Done(m[0 := m[0] + 1], []);
  }

  /** Every refused load restores a memory exactly when journalling is on. */
  lemma RestoresExactly(enabled: bool, m: seq<int>)
    requires m != []
    ensures enabled <==> forall acts :: Disciplined(acts, |m|, |m|, {}) ==>
      |m| <= |AfterRefusal(enabled, m, acts)| && AfterRefusal(enabled, m, acts)[..|m|] == m
  {
    hide Disciplined, AfterRefusal;
    if enabled {
      forall acts | Disciplined(acts, |m|, |m|, {})
        ensures |m| <= |AfterRefusal(enabled, m, acts)| && AfterRefusal(enabled, m, acts)[..|m|] == m
      {
        RefusalRestores(m, acts);
      }
    } else {
      var acts := RefusalKeeps(m);
      var after := AfterRefusal(false, m, acts);
      assert after[..|m|][0] == m[0] + 1;
      assert after[..|m|] != m;
    }
  }

  /** For example: one word, saved and set to 7 by a load that is refused. */
  lemma RefusalExample()
    ensures AfterRefusal(false, [0], [Save(0, 1), Store(0, 7)]) == [7]
    ensures AfterRefusal(true, [0], [Save(0, 1), Store(0, 7)]) == [0]
  {
    var acts := [Save(0, 1), Store(0, 7)];
    assert acts[1..] == [Store(0, 7)] && acts[1..][1..] == [];
    assert Done([0], acts) == Done([0], acts[1..]) == Done([7], []);
    assert Disciplined(acts, 1, 1, {}) by {
      assert InRange(0, 0, 1);
      assert Disciplined(acts[1..], 1, 1, {} + Range(0, 1));
    }
    RefusalRestores([0], acts);
    assert |AfterRefusal(true, [0], acts)| == 1;
  }
}
