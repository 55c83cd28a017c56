/** Edits of configuration lists: circular doubly linked lists (mem/list.h) changed under the
    journal (generic/opt/intr.c). A node at address `n` has its next pointer at `n` and its prev
    pointer at `n + 1`. */
module ConfList {
  import opened UndoLog
  import opened Journal

  /** `ring` lists the nodes of a well-formed list in order, the list head first. */
  ghost predicate Ring(m: seq<int>, ring: seq<nat>) {
    && ring != []
    && (forall i :: 0 <= i < |ring| ==> ring[i] + 1 < |m|)
    && AllApart(ring) && Circular(m, ring)
  }

  ghost predicate AllApart(ring: seq<nat>) {
    forall i, j :: 0 <= i < j < |ring| ==> Apart(ring[i], ring[j])
  }

  ghost predicate Circular(m: seq<int>, ring: seq<nat>) {
    && (forall i, j :: 0 <= i && j == i + 1 && j < |ring| ==> Linked(m, ring[i], ring[j]))
    && (ring != [] ==> Linked(m, ring[|ring| - 1], ring[0]))
  }

  /** `b` follows `a`. */
  predicate Linked(m: seq<int>, a: nat, b: nat) {
    a < |m| && b + 1 < |m| && m[a] == b && m[b + 1] == a
  }

  predicate Apart(a: nat, b: nat) {
    a + 1 < b || b + 1 < a
  }

  ghost predicate Outside(ring: seq<nat>, x: nat) {
    forall i :: 0 <= i < |ring| ==> Apart(ring[i], x)
  }

  /** list_insert_after and list_insert_before of `x` between the neighbours `a` and `b`. */
  function Spliced(m: seq<int>, a: nat, x: nat, b: nat): (r: seq<int>)
    requires a + 1 < |m| && x + 1 < |m| && b + 1 < |m|
    ensures |r| == |m|
  {
    m[x := b][x + 1 := a][b + 1 := x][a := x]
  }

  /** list_remove of the node between `a` and `b`. */
  function Closed(m: seq<int>, a: nat, b: nat): (r: seq<int>)
    requires a + 1 < |m| && b + 1 < |m|
    ensures |r| == |m|
  {
    m[a := b][b + 1 := a]
  }

  /** The index of the neighbour after the `i`-th node. */
  function Next(ring: seq<nat>, i: nat): (j: nat)
    requires i < |ring|
    ensures j < |ring|
  {
    if i + 1 == |ring| then 0 else i + 1
  }

  lemma Neighbours(m: seq<int>, ring: seq<nat>, i: nat)
    requires Ring(m, ring) && i < |ring|
    ensures Linked(m, ring[i], ring[Next(ring, i)])
  {
    if i + 1 < |ring| {
      assert Linked(m, ring[i], ring[i + 1]);
    }
  }

  lemma InsertApart(ring: seq<nat>, i: nat, x: nat)
    requires AllApart(ring) && i < |ring| && Outside(ring, x)
    ensures AllApart(ring[..i + 1] + [x] + ring[i + 1..])
  {
    var r := ring[..i + 1] + [x] + ring[i + 1..];
    forall k, l | 0 <= k < l < |r| ensures Apart(r[k], r[l]) {
      if k != i + 1 && l != i + 1 {
        assert Apart(ring[if k <= i then k else k - 1], ring[if l <= i then l else l - 1]);
      }
    }
  }

  lemma RemoveApart(ring: seq<nat>, i: nat)
    requires AllApart(ring) && i < |ring|
    ensures AllApart(ring[..i] + ring[i + 1..])
  {
    var r := ring[..i] + ring[i + 1..];
    forall k, l | 0 <= k < l < |r| ensures Apart(r[k], r[l]) {
      assert Apart(ring[if k < i then k else k + 1], ring[if l < i then l else l + 1]);
    }
  }

  lemma InsertRing(m: seq<int>, ring: seq<nat>, i: nat, x: nat)
    requires Ring(m, ring) && i < |ring| && Outside(ring, x) && x + 1 < |m|
    ensures Ring(Spliced(m, ring[i], x, ring[Next(ring, i)]), ring[..i + 1] + [x] + ring[i + 1..])
  {
    hide Linked, Spliced, AllApart, Apart, Circular;
    var m' := Spliced(m, ring[i], x, ring[Next(ring, i)]);
    NewLinks(m, ring, i, x);
    forall k | 0 <= k < |ring| && k != i ensures Linked(m', ring[k], ring[Next(ring, k)]) {
      StillLinked(m, ring, i, x, k);
    }
    InsertApart(ring, i, x);
    InsertCircular(m', ring, i, x);
  }

  lemma InsertCircular(m: seq<int>, ring: seq<nat>, i: nat, x: nat)
    requires i < |ring| && Linked(m, ring[i], x) && Linked(m, x, ring[Next(ring, i)])
    requires forall k :: 0 <= k < |ring| && k != i ==> Linked(m, ring[k], ring[Next(ring, k)])
    ensures Circular(m, ring[..i + 1] + [x] + ring[i + 1..])
  {
    hide Linked;
    var r := ring[..i + 1] + [x] + ring[i + 1..];
    forall k, l | 0 <= k && l == k + 1 && l < |r| ensures Linked(m, r[k], r[l]) {
      if k < i {
        assert r[k] == ring[k] && r[l] == ring[Next(ring, k)];
      } else if k > i + 1 {
        assert r[k] == ring[k - 1] && r[l] == ring[Next(ring, k - 1)];
      }
    }
    assert i + 1 < |ring| ==> Linked(m, ring[|ring| - 1], ring[Next(ring, |ring| - 1)]);
  }

  lemma NewLinks(m: seq<int>, ring: seq<nat>, i: nat, x: nat)
    requires Ring(m, ring) && i < |ring| && Outside(ring, x) && x + 1 < |m|
    ensures var m' := Spliced(m, ring[i], x, ring[Next(ring, i)]);
      Linked(m', ring[i], x) && Linked(m', x, ring[Next(ring, i)])
  {
    assert Apart(ring[i], x) && Apart(ring[Next(ring, i)], x);
    Distinct(m, ring, i, Next(ring, i));
  }

  /** Links other than the one being opened stay. */
  lemma StillLinked(m: seq<int>, ring: seq<nat>, i: nat, x: nat, k: nat)
    requires Ring(m, ring) && i < |ring| && k < |ring| && k != i && Outside(ring, x) && x + 1 < |m|
    ensures Linked(Spliced(m, ring[i], x, ring[Next(ring, i)]), ring[k], ring[Next(ring, k)])
  {
    Neighbours(m, ring, k);
    assert Apart(ring[k], x) && Apart(ring[Next(ring, k)], x);
    Distinct(m, ring, i, k);
    Distinct(m, ring, Next(ring, i), Next(ring, k));
    Distinct(m, ring, i, Next(ring, k));
    Distinct(m, ring, Next(ring, i), k);
  }

  lemma Distinct(m: seq<int>, ring: seq<nat>, i: nat, j: nat)
    requires Ring(m, ring) && i < |ring| && j < |ring|
    ensures i != j ==> Apart(ring[i], ring[j])
  {
  }

  lemma RemoveRing(m: seq<int>, ring: seq<nat>, i: nat)
    requires Ring(m, ring) && 0 < i < |ring|
    ensures Ring(Closed(m, ring[i - 1], ring[Next(ring, i)]), ring[..i] + ring[i + 1..])
  {
    hide Linked, Closed, AllApart, Apart, Circular;
    var m' := Closed(m, ring[i - 1], ring[Next(ring, i)]);
    forall k | 0 <= k < |ring| && k != i ensures Linked(m', ring[k], ring[Skip(ring, i, k)]) {
      ClosedLink(m, ring, i, k);
    }
    RemoveApart(ring, i);
    RemoveCircular(m', ring, i);
  }

  /** The index of the neighbour after the `k`-th node once the `i`-th is out. */
  function Skip(ring: seq<nat>, i: nat, k: nat): (j: nat)
    requires 0 < i < |ring| && k < |ring|
    ensures j < |ring|
  {
    Next(ring, if k == i - 1 then i else k)
  }

  lemma RemoveCircular(m: seq<int>, ring: seq<nat>, i: nat)
    requires 0 < i < |ring|
    requires forall k :: 0 <= k < |ring| && k != i ==> Linked(m, ring[k], ring[Skip(ring, i, k)])
    ensures Circular(m, ring[..i] + ring[i + 1..])
  {
    hide Linked;
    var r := ring[..i] + ring[i + 1..];
    forall k, l | 0 <= k && l == k + 1 && l < |r| ensures Linked(m, r[k], r[l]) {
      var k' := if k < i then k else k + 1;
      assert r[k] == ring[k'] && r[l] == ring[Skip(ring, i, k')];
    }
    var e := if i == |ring| - 1 then i - 1 else |ring| - 1;
    assert r[|r| - 1] == ring[e] && r[0] == ring[Skip(ring, i, e)];
  }

  lemma ClosedLink(m: seq<int>, ring: seq<nat>, i: nat, k: nat)
    requires Ring(m, ring) && 0 < i < |ring| && k < |ring| && k != i
    ensures var m' := Closed(m, ring[i - 1], ring[Next(ring, i)]);
      Linked(m', ring[k], ring[Skip(ring, i, k)])
  {
    Distinct(m, ring, i - 1, Next(ring, i));
    if k != i - 1 {
      Neighbours(m, ring, k);
      Distinct(m, ring, i - 1, k);
      Distinct(m, ring, Next(ring, i), Next(ring, k));
      Distinct(m, ring, i - 1, Next(ring, k));
      Distinct(m, ring, Next(ring, i), k);
    }
  }

  /** list_init. */
  lemma InitRing(m: seq<int>, head: nat)
    requires head + 1 < |m|
    ensures Ring(m[head := head][head + 1 := head], [head])
  {
  }

  /** The kinds of enum cf_operation that add_to_list tells apart. */
  datatype Op = Edit | Remove | After | Before

  /** The list after add_to_list at its `i`-th node. */
  ghost function Edited(ring: seq<nat>, i: nat, x: nat, op: Op): (r: seq<nat>)
    requires i < |ring|
  {
    match op
    case Edit => ring
    case Remove => ring[..i] + ring[i + 1..]
    case After => ring[..i + 1] + [x] + ring[i + 1..]
    case Before => if i == 0 then ring + [x] else ring[..i] + [x] + ring[i..]
  }

  /** CF_JOURNAL_VAR of one word. */
  method JournalVar(cc: Context, at: nat, ghost base: nat, ghost saved: set<nat>) returns (ghost saved': set<nat>)
    requires cc.Valid() && at < |cc.mem| && base <= |cc.mem| && cc.Logged(saved) && (cc.enabled ==> cc.HasPool())
    modifies cc`mem, cc`journal, cc`items, cc`log
    ensures cc.Valid() && cc.mem == old(cc.mem) && cc.Logged(saved') && at in saved' && saved <= saved'
    ensures cc.enabled ==> Undo(cc.mem, cc.log)[..base] == Undo(old(cc.mem), old(cc.log))[..base]
    ensures forall j :: 0 <= j < |cc.items| ==> cc.items[j] in old(cc.items) || fresh(cc.items[j])
  {
    saved' := cc.PerformOne(Save(at, 1), base, saved);
    assert InRange(at, at, 1);
  }

  /** The two words that an edit changes in older nodes are journaled. */
  method JournalBoth(cc: Context, p: nat, q: nat, ghost base: nat) returns (ghost saved: set<nat>)
    requires cc.Valid() && p < |cc.mem| && q < |cc.mem| && base <= |cc.mem| && (cc.enabled ==> cc.HasPool())
    modifies cc`mem, cc`journal, cc`items, cc`log
    ensures cc.Valid() && cc.mem == old(cc.mem) && cc.Logged(saved) && p in saved && q in saved
    ensures cc.enabled ==> Undo(cc.mem, cc.log)[..base] == Undo(old(cc.mem), old(cc.log))[..base]
    ensures forall j :: 0 <= j < |cc.items| ==> cc.items[j] in old(cc.items) || fresh(cc.items[j])
  {
    hide Undo, Chain, AllInside;
    cc.NothingLogged();
    saved := JournalVar(cc, p, base, {});
    saved := JournalVar(cc, q, base, saved);
  }

  /** list_remove(where) or an insertion of `x`, between `a` and `b`, once both are journaled. */
  method Relink(cc: Context, a: nat, x: nat, b: nat, insert: bool, ghost base: nat, ghost saved: set<nat>)
    requires cc.Valid() && a + 1 < |cc.mem| && x + 1 < |cc.mem| && b + 1 < |cc.mem| && base <= |cc.mem|
    requires cc.Logged(saved) && a in saved && b + 1 in saved && (insert ==> x >= base)
    modifies cc`mem, cc`journal, cc`items, cc`log
    ensures cc.Valid() && cc.mem == if insert then Spliced(old(cc.mem), a, x, b) else Closed(old(cc.mem), a, b)
    ensures cc.enabled ==> Undo(cc.mem, cc.log)[..base] == Undo(old(cc.mem), old(cc.log))[..base]
    ensures forall j :: 0 <= j < |cc.items| ==> cc.items[j] in old(cc.items) || fresh(cc.items[j])
  {
    hide Undo, Chain, AllInside;
    ghost var s := saved;
    if insert {
      s := cc.PerformOne(Store(x, b), base, s);
      s := cc.PerformOne(Store(x + 1, a), base, s);
      s := cc.PerformOne(Store(b + 1, x), base, s);
      s := cc.PerformOne(Store(a, x), base, s);
    } else {
      s := cc.PerformOne(Store(a, b), base, s);
      s := cc.PerformOne(Store(b + 1, a), base, s);
    }
  }

  /** add_to_list at the `i`-th node of the list; `x` is new in this transaction. */
  method AddToList(cc: Context, whr: nat, x: nat, op: Op, ghost ring: seq<nat>, ghost i: nat, ghost base: nat)
    requires cc.Valid() && base <= |cc.mem| && Ring(cc.mem, ring)
    requires i < |ring| && whr == ring[i] && (cc.enabled ==> cc.HasPool())
    requires op == Remove ==> i > 0
    requires op.After? || op.Before? ==> base <= x && x + 1 < |cc.mem| && Outside(ring, x)
    modifies cc`mem, cc`journal, cc`items, cc`log
    ensures cc.Valid() && Ring(cc.mem, Edited(ring, i, x, op)) && |cc.mem| == |old(cc.mem)|
    ensures cc.enabled ==> Undo(cc.mem, cc.log)[..base] == Undo(old(cc.mem), old(cc.log))[..base]
    ensures forall j :: 0 <= j < |cc.items| ==> cc.items[j] in old(cc.items) || fresh(cc.items[j])
  {
    hide Undo, Chain, AllInside, Ring;
    ghost var prev := if i == 0 then |ring| - 1 else i - 1;
    ghost var saved := {};
    InRing(cc.mem, ring, i);
    InRing(cc.mem, ring, prev);
    match op
    case Edit =>
    case Remove =>
      saved := JournalBoth(cc, cc.mem[whr + 1], cc.mem[whr] + 1, base);
      RemoveRing(cc.mem, ring, i);
      Relink(cc, cc.mem[whr + 1], whr, cc.mem[whr], false, base, saved);
    case After =>
      saved := JournalBoth(cc, cc.mem[whr] + 1, whr, base);
      InsertRing(cc.mem, ring, i, x);
      Relink(cc, whr, x, cc.mem[whr], true, base, saved);
    case Before =>
      saved := JournalBoth(cc, cc.mem[whr + 1], whr + 1, base);
      InsertRing(cc.mem, ring, prev, x);
      assert i == 0 ==> ring[..prev + 1] + [x] + ring[prev + 1..] == ring + [x];
      Relink(cc, cc.mem[whr + 1], x, whr, true, base, saved);
  }

  lemma InRing(m: seq<int>, ring: seq<nat>, i: nat)
    requires Ring(m, ring) && i < |ring|
    ensures ring[i] + 1 < |m| && Linked(m, ring[i], ring[Next(ring, i)]) && ring[Next(ring, i)] + 1 < |m|
  {
    Neighbours(m, ring, i);
  }

  /** interpret_set_all clearing a list: the head is journaled and initialised. */
  method Clear(cc: Context, head: nat, ghost base: nat)
    requires cc.Valid() && base <= |cc.mem| && head + 1 < |cc.mem| && (cc.enabled ==> cc.HasPool())
    modifies cc`mem, cc`journal, cc`items, cc`log
    ensures cc.Valid() && Ring(cc.mem, [head]) && |cc.mem| == |old(cc.mem)|
    ensures cc.enabled ==> Undo(cc.mem, cc.log)[..base] == Undo(old(cc.mem), old(cc.log))[..base]
    ensures forall j :: 0 <= j < |cc.items| ==> cc.items[j] in old(cc.items) || fresh(cc.items[j])
  {
    hide Undo, Chain, AllInside;
    ghost var saved := {};
    cc.NothingLogged();
    saved := cc.PerformOne(Save(head, 2), base, saved);
    assert InRange(head, head, 2) && InRange(head + 1, head, 2);
    InitRing(cc.mem, head);
    saved := cc.PerformOne(Store(head, head), base, saved);
    saved := cc.PerformOne(Store(head + 1, head), base, saved);
  }

  /** An edit at the node reached in `steps` steps from the head, or a clear. */
  datatype ListEdit = At(steps: nat, op: Op) | ClearAll

  /** The index reached from the head of a list of `n` nodes in `steps` steps. */
  function Around(n: nat, steps: nat): (i: nat)
    requires n > 0
    ensures i < n
  {
    if steps == 0 then 0
    else
      var i := Around(n, steps - 1);
      if i + 1 == n then 0 else i + 1
  }

  /** The list and the size of memory after an edit; new nodes are at the end of memory. */
  ghost function EditedBy(ring: seq<nat>, size: nat, e: ListEdit): (r: (seq<nat>, nat))
    requires ring != []
    ensures r.0 != [] && r.0[0] == ring[0] && r.1 >= size
  {
    if e.ClearAll? then ([ring[0]], size)
    else
      var i := Around(|ring|, e.steps);
      if e.op.Remove? && i == 0 then (ring, size)
      else (Edited(ring, i, size, e.op), if e.op.After? || e.op.Before? then size + 2 else size)
  }

  /** The list and the size of memory after several edits. */
  ghost function EditedAll(ring: seq<nat>, size: nat, edits: seq<ListEdit>): (r: (seq<nat>, nat))
    requires ring != []
    ensures r.0 != [] && r.0[0] == ring[0] && r.1 >= size
    decreases |edits|
  {
    if edits == [] then (ring, size)
    else
      var s := EditedAll(ring, size, edits[..|edits| - 1]);
      EditedBy(s.0, s.1, edits[|edits| - 1])
  }

  method Walk(cc: Context, head: nat, steps: nat, ghost ring: seq<nat>) returns (n: nat)
    requires Ring(cc.mem, ring) && ring[0] == head
    ensures n == ring[Around(|ring|, steps)] && (n == head <==> Around(|ring|, steps) == 0)
  {
    n := head;
    ghost var i := 0;
    for k := 0 to steps
      invariant i == Around(|ring|, k) && n == ring[i]
    {
      InRing(cc.mem, ring, i);
      n := cc.mem[n];
      i := Next(ring, i);
    }
    Distinct(cc.mem, ring, 0, i);
  }

  /** After any sequence of edits the list is the expected one and well formed, and undoing gives
      what it gave for every word that was there before. */
  method EditList(cc: Context, head: nat, edits: seq<ListEdit>, ghost ring: seq<nat>, ghost base: nat)
    requires cc.Valid() && cc.HasPool() && ring != [] && Ring(cc.mem, ring) && ring[0] == head && base <= |cc.mem|
    modifies cc`mem, cc`journal, cc`items, cc`log
    ensures cc.Valid() && Ring(cc.mem, EditedAll(ring, |old(cc.mem)|, edits).0)
    ensures |cc.mem| == EditedAll(ring, |old(cc.mem)|, edits).1
    ensures cc.enabled ==> Undo(cc.mem, cc.log)[..base] == Undo(old(cc.mem), old(cc.log))[..base]
    ensures forall j :: 0 <= j < |cc.items| ==> cc.items[j] in old(cc.items) || fresh(cc.items[j])
  {
    hide Undo, Chain, AllInside, Ring, EditedBy;
    ghost var size := |cc.mem|;
    for k := 0 to |edits|
      invariant cc.Valid() && Ring(cc.mem, EditedAll(ring, size, edits[..k]).0)
      invariant |cc.mem| == EditedAll(ring, size, edits[..k]).1
      invariant cc.enabled ==> Undo(cc.mem, cc.log)[..base] == Undo(old(cc.mem), old(cc.log))[..base]
      invariant forall j :: 0 <= j < |cc.items| ==> cc.items[j] in old(cc.items) || fresh(cc.items[j])
    {
      assert edits[..k + 1][..k] == edits[..k];
      EditOnce(cc, head, edits[k], EditedAll(ring, size, edits[..k]).0, base);
    }
    assert edits[..|edits|] == edits;
  }

  method EditOnce(cc: Context, head: nat, edit: ListEdit, ghost ring: seq<nat>, ghost base: nat)
    requires cc.Valid() && cc.HasPool() && ring != [] && Ring(cc.mem, ring) && ring[0] == head && base <= |cc.mem|
    modifies cc`mem, cc`journal, cc`items, cc`log
    ensures cc.Valid() && |cc.mem| == EditedBy(ring, |old(cc.mem)|, edit).1
    ensures Ring(cc.mem, EditedBy(ring, |old(cc.mem)|, edit).0)
    ensures cc.enabled ==> Undo(cc.mem, cc.log)[..base] == Undo(old(cc.mem), old(cc.log))[..base]
    ensures forall j :: 0 <= j < |cc.items| ==> cc.items[j] in old(cc.items) || fresh(cc.items[j])
  {
    hide Undo, Chain, AllInside, Circular, AllApart;
    if edit.ClearAll? {
      Clear(cc, head, base);
      return;
    }
    var n := Walk(cc, head, edit.steps, ring);
    if edit.op.Remove? && n == head {
      return;
    }
    var x := |cc.mem|;
    if edit.op.After? || edit.op.Before? {
      cc.NothingLogged();
      RingBelow(cc.mem, cc.mem + [0, 0], ring, x);
      ghost var _ := cc.PerformOne(Extend([0, 0]), base, {});
    }
    AddToList(cc, n, x, edit.op, ring, Around(|ring|, edit.steps), base);
  }

  /** A list that lies below `n` depends on memory below `n` only. */
  lemma RingBelow(m: seq<int>, m': seq<int>, ring: seq<nat>, n: nat)
    requires Ring(m, ring) && n <= |m| && n <= |m'| && m[..n] == m'[..n]
    requires forall i :: 0 <= i < |ring| ==> ring[i] + 1 < n
    ensures Ring(m', ring) && Outside(ring, n)
  {
    assert forall x :: 0 <= x < n ==> m[x] == m[..n][x] && m'[x] == m'[..n][x];
    forall i, j | 0 <= i && j == i + 1 && j < |ring| ensures Linked(m', ring[i], ring[j]) {
      assert Linked(m, ring[i], ring[j]);
    }
  }

  /** Rolling back any sequence of edits restores every link that existed before. */
  method TryEdits(cc: Context, head: nat, edits: seq<ListEdit>, ghost ring: seq<nat>)
    requires cc.Valid() && cc.HasPool() && cc.enabled && Ring(cc.mem, ring) && ring[0] == head
    modifies cc
    ensures cc.Valid() && cc.log == old(cc.log) && |cc.mem| >= |old(cc.mem)|
    ensures cc.mem[..|old(cc.mem)|] == old(cc.mem) && Ring(cc.mem, ring)
  {
    hide Undo, Chain, AllInside, Circular, AllApart;
    ghost var m, its, lg := cc.mem, cc.items, cc.log;
    var oldj := cc.NewTransaction(false);
    EditList(cc, head, edits, ring, |m|);
    RollbackUndo(m, lg, cc.mem, cc.log);
    cc.Rollback(false, oldj, its, lg);
    assert m[..|m|] == m;
    RingBelow(m, cc.mem, ring, |m|);
  }
}
