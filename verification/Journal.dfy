/** The configuration journal of generic/opt/journal.c: a linked list of saved blocks. */
module Journal {
  import opened Basics
  import opened UndoLog

  /** struct cf_journal_item. */
  class Item {
    var prev: Item?
    const ptr: nat
    var copy: seq<int>
    const pool: nat                 // the pool it is allocated from

    constructor (prev: Item?, ptr: nat, copy: seq<int>, pool: nat)
      ensures this.prev == prev && this.ptr == ptr && this.copy == copy && this.pool == pool
    {
      this.prev, this.ptr, this.copy, this.pool := prev, ptr, copy, pool;
    }
  }

  /** `items` is the list at `head`, newest first, all different, with the contents `log`. */
  ghost predicate Chain(head: Item?, items: seq<Item>, log: seq<Entry>)
    reads items
  {
    && head == Nth(items, 0) && |log| == |items| && Forward(items, 0)
    && (forall i :: 0 <= i < |items| ==> items[i].ptr == log[i].ptr && items[i].copy == log[i].copy)
    && Distinct(items)
  }

  /** From the `from`-th on, each item points to the one after it. */
  ghost predicate Forward(items: seq<Item>, from: nat)
    reads items
  {
    && (forall i, j :: from <= i && j == i + 1 && j < |items| ==> items[i].prev == items[j])
    && (from < |items| ==> items[|items| - 1].prev == null)
  }

  /** Each of the first `to` items points to the one before it. */
  ghost predicate Backward(items: seq<Item>, to: nat)
    requires to <= |items|
    reads items
  {
    && (forall i, j :: 0 <= i && j == i + 1 && j < to ==> items[j].prev == items[i])
    && (0 < to ==> items[0].prev == null)
  }

  /** Every item lies in a pool that exists. */
  ghost predicate Housed(items: seq<Item>, alive: set<nat>) {
    forall i :: 0 <= i < |items| ==> items[i].pool in alive
  }

  ghost predicate Distinct(items: seq<Item>) {
    forall i, j :: 0 <= i < j < |items| ==> items[i] != items[j]
  }

  ghost function Nth(items: seq<Item>, i: nat): Item? {
    if i < |items| then items[i] else null
  }

  ghost function Reversed(items: seq<Item>): (r: seq<Item>)
    ensures |r| == |items| && forall i, j :: 0 <= i < |items| && j == |items| - 1 - i ==> r[i] == items[j]
  {
    seq(|items|, i requires 0 <= i < |items| => items[|items| - 1 - i])
  }

  ghost function Before(items: seq<Item>, i: nat): Item?
    requires i <= |items|
  {
    if i == 0 then null else items[i - 1]
  }

  /** The first `i` items point backwards and hold `done`; the others are as in `lg`. */
  ghost predicate Turned(its: seq<Item>, lg: seq<Entry>, done: seq<Entry>, i: nat)
    reads its
  {
    && i <= |its| == |lg| && |done| == i && Forward(its, i) && Backward(its, i)
    && (forall k :: i <= k < |its| ==> its[k].ptr == lg[k].ptr && its[k].copy == lg[k].copy)
    && (forall k, l :: 0 <= k < i && l == i - 1 - k ==> Entry(its[k].ptr, its[k].copy) == done[l])
  }

  lemma TurnStart(its: seq<Item>, lg: seq<Entry>)
    requires Chain(Nth(its, 0), its, lg)
    ensures Turned(its, lg, [], 0) && Distinct(its)
  {
  }

  lemma TurnedOver(its: seq<Item>, lg: seq<Entry>, done: seq<Entry>)
    requires Turned(its, lg, done, |its|) && Distinct(its)
    ensures Chain(Before(its, |its|), Reversed(its), done)
  {
    var r, n := Reversed(its), |its|;
    forall i | 0 <= i < n ensures r[i].ptr == done[i].ptr && r[i].copy == done[i].copy {
      assert r[i] == its[n - 1 - i];
    }
    forall i, j | 0 <= i && j == i + 1 && j < n ensures r[i].prev == r[j] {
      assert r[i] == its[n - 1 - i] && r[j] == its[n - 1 - j];
    }
    forall i, j | 0 <= i < j < n ensures r[i] != r[j] {
      assert r[i] == its[n - 1 - i] && r[j] == its[n - 1 - j];
    }
  }

  lemma SwapStep(m: seq<int>, lg: seq<Entry>, i: nat, done: seq<Entry>)
    requires i < |lg| && AllInside(lg, |m|)
    ensures Inside(lg[i], |m|)
    ensures SwapOnto(m, lg[i..], done) == SwapOnto(Put(m, lg[i]), lg[i + 1..], [Taken(m, lg[i])] + done)
  {
    assert lg[i..][0] == lg[i] && lg[i..][1..] == lg[i + 1..];
    assert Inside(lg[i], |m|);
  }

  lemma SwapEnd(m: seq<int>, lg: seq<Entry>, done: seq<Entry>)
    ensures SwapOnto(m, lg[|lg|..], done) == (m, done)
  {
  }

  /** The first `i` words of a copy, replaced by those of memory. */
  ghost function Mixed(m: seq<int>, p: nat, copy: seq<int>, i: nat): (r: seq<int>)
    requires i <= |copy| && p + |copy| <= |m|
    ensures |r| == |copy|
  {
    m[p..p + i] + copy[i..]
  }

  /** Memory with the first `i` words of a copy put in place. */
  ghost function PutPart(m: seq<int>, p: nat, copy: seq<int>, i: nat): (r: seq<int>)
    requires i <= |copy| && p + |copy| <= |m|
    ensures |r| == |m|
  {
    Put(m, Entry(p, copy[..i]))
  }

  lemma ExchangeStep(m: seq<int>, p: nat, copy: seq<int>, i: nat)
    requires i < |copy| && p + |copy| <= |m|
    ensures PutPart(m, p, copy, i)[p + i] == m[p + i] && Mixed(m, p, copy, i)[i] == copy[i]
    ensures PutPart(m, p, copy, i)[p + i := copy[i]] == PutPart(m, p, copy, i + 1)
    ensures Mixed(m, p, copy, i)[i := m[p + i]] == Mixed(m, p, copy, i + 1)
  {
  }

  lemma ExchangeEnds(m: seq<int>, p: nat, copy: seq<int>)
    requires p + |copy| <= |m|
    ensures PutPart(m, p, copy, 0) == m && Mixed(m, p, copy, 0) == copy
    ensures PutPart(m, p, copy, |copy|) == Put(m, Entry(p, copy)) && Mixed(m, p, copy, |copy|) == m[p..p + |copy|]
  {
    assert copy[..|copy|] == copy;
  }

  /** A list hung behind another. */
  lemma Joined(a: seq<Item>, la: seq<Entry>, b: seq<Item>, lb: seq<Entry>)
    requires a != [] && |la| == |a| && Distinct(a) && Chain(Nth(b, 0), b, lb)
    requires forall i, j :: 0 <= i && j == i + 1 && j < |a| ==> a[i].prev == a[j]
    requires forall i :: 0 <= i < |a| ==> a[i].ptr == la[i].ptr && a[i].copy == la[i].copy
    requires a[|a| - 1].prev == Nth(b, 0)
    requires forall i, j :: 0 <= i < |a| && 0 <= j < |b| ==> a[i] != b[j]
    ensures Chain(a[0], a + b, la + lb)
  {
    var c := a + b;
    forall i, j | 0 <= i && j == i + 1 && j < |c| ensures c[i].prev == c[j] {
      if |a| <= i {
        assert b[i - |a|].prev == b[j - |a|];
      }
    }
    assert b != [] ==> c[|c| - 1] == b[|b| - 1];
    assert Distinct(c);
  }

  lemma Widen(lg: seq<Entry>, n: nat, n': nat)
    requires AllInside(lg, n) && n <= n'
    ensures AllInside(lg, n')
  {
    forall i | 0 <= i < |lg| ensures Inside(lg[i], n') {
      assert Inside(lg[i], n);
    }
  }

  /** Behind a committed transaction the old journal undoes the rest. */
  lemma CommitUndo(m: seq<int>, lg: seq<Entry>, m': seq<int>, lg': seq<Entry>)
    requires AllInside(lg, |m|) && AllInside(lg', |m'|) && |m| <= |m'|
    requires Undo(m', lg')[..|m|] == Undo(m, [])[..|m|]
    ensures AllInside(lg' + lg, |m'|) && Undo(m', lg' + lg)[..|m|] == Undo(m, lg)
  {
    Widen(lg, |m|, |m'|);
    UndoConcat(m', lg', lg);
    assert m[..|m|] == m;
    SwapBelow(Undo(m', lg'), m, lg, [], |m|);
  }

  lemma RollbackUndo(m: seq<int>, lg: seq<Entry>, m': seq<int>, lg': seq<Entry>)
    requires AllInside(lg, |m|) && AllInside(lg', |m'|) && |m| <= |m'|
    requires Undo(m', lg')[..|m|] == Undo(m, [])[..|m|]
    ensures Undo(m', lg')[..|m|] == m && AllInside(lg, |m'|)
    ensures Undo(Undo(m', lg'), lg)[..|m|] == Undo(m, lg)
  {
    assert m[..|m|] == m;
    SwapBelow(Undo(m', lg'), m, lg, [], |m|);
  }

  /** What loading one entry asks for, and whether it is refused. */
  datatype Attempt = Attempt(acts: seq<Act>, fails: bool)

  /** What a reload asks for: attempts up to the first that fails, then the closing commit. */
  function Played(loads: seq<Attempt>, closing: seq<Act>): (r: seq<Act>) {
    if loads == [] then closing
    else loads[0].acts + if loads[0].fails then closing else Played(loads[1..], closing)
  }

  /** The closing acts come last. */
  lemma {:induction false} PlayedClosing(loads: seq<Attempt>, closing: seq<Act>)
    ensures Played(loads, closing) == Played(loads, []) + closing
    decreases |loads|
  {
    if loads != [] && !loads[0].fails {
      PlayedClosing(loads[1..], closing);
      assert loads[0].acts + (Played(loads[1..], []) + closing) == (loads[0].acts + Played(loads[1..], [])) + closing;
    } else if loads != [] {
      assert (loads[0].acts + []) + closing == loads[0].acts + closing;
    }
  }

  /** `m` and an empty journal became `m'` and `lg` by what was done before `acts`. */
  ghost predicate Towards(m: seq<int>, acts: seq<Act>, m': seq<int>, lg: seq<Entry>, rest: seq<Act>) {
    Done(m, acts) == Done(m', rest) && Written(m, acts) == Written(m', rest) + lg
  }

  lemma TowardsNext(m: seq<int>, acts: seq<Act>, m': seq<int>, lg: seq<Entry>, a: seq<Act>, b: seq<Act>)
    requires Towards(m, acts, m', lg, a + b)
    ensures Towards(m, acts, Done(m', a), Written(m', a) + lg, b)
  {
    hide Done, Written;
    DoneConcat(m', a, b);
    assert (Written(Done(m', a), b) + Written(m', a)) + lg == Written(Done(m', a), b) + (Written(m', a) + lg);
  }

  lemma TowardsStart(m: seq<int>, acts: seq<Act>)
    ensures Towards(m, acts, m, [], acts)
  {
    assert Written(m, acts) + [] == Written(m, acts);
  }

  lemma TowardsEnd(m: seq<int>, acts: seq<Act>, m': seq<int>, lg: seq<Entry>)
    requires Towards(m, acts, m', lg, [])
    ensures m' == Done(m, acts) && lg == Written(m, acts)
  {
    assert [] + lg == lg;
  }

  /** Memory and journal after a reload that is refused: undone, loaded, undone and done again. */
  function Redone(m: seq<int>, lg: seq<Entry>, acts: seq<Act>): (r: seq<int>) {
    if !AllInside(lg, |m|) then m
    else
      var s := SwapOnto(m, lg, []);
      var back := AfterRefusal(true, s.0, acts);
      if AllInside(s.1, |back|) then SwapOnto(back, s.1, []).0 else back
  }

  lemma StartLogged(m: seq<int>, lg: seq<Entry>)
    requires lg == []
    ensures AllInside(lg, |m|) && Undo(m, lg) == m && m[..|m|] == m
  {
  }

  lemma UndoIs(m: seq<int>, lg: seq<Entry>)
    requires AllInside(lg, |m|)
    ensures SwapOnto(m, lg, []).0 == Undo(m, lg)
  {
  }

  /** Swapping memory that agrees with the undone one brings everything back. */
  lemma RedoLemma(m0: seq<int>, lg0: seq<Entry>, m: seq<int>, lg: seq<Entry>, m': seq<int>)
    requires AllInside(lg0, |m0|) && (m, lg) == SwapOnto(m0, lg0, []) && |m| <= |m'| && m'[..|m|] == m
    ensures AllInside(lg, |m'|) && |m0| == |m|
    ensures SwapOnto(m', lg, []).0[..|m|] == m0 && SwapOnto(m', lg, []).1 == lg0
    ensures Undo(SwapOnto(m', lg, []).0, lg0)[..|m0|] == Undo(m0, lg0)
  {
    SwapTwice(m0, lg0);
    assert m[..|m|] == m;
    SwapBelow(m', m, lg, [], |m|);
    assert m0[..|m0|] == m0;
    var m'' := SwapOnto(m', lg, []).0;
    SwapBelow(m'', m0, lg0, [], |m0|);
  }

  lemma RedoneIs(m0: seq<int>, lg0: seq<Entry>, m: seq<int>, lg: seq<Entry>, acts: seq<Act>)
    requires AllInside(lg0, |m0|) && (m, lg) == SwapOnto(m0, lg0, [])
    requires AllInside(Written(m, acts), |Done(m, acts)|) && AllInside(lg, |Done(m, acts)|)
    ensures Redone(m0, lg0, acts) == SwapOnto(Undo(Done(m, acts), Written(m, acts)), lg, []).0
  {
  }

  lemma ChainNull(head: Item?, items: seq<Item>, log: seq<Entry>)
    requires Chain(head, items, log)
    ensures |items| == |log| && head == Nth(items, 0)
  {
  }

  lemma TwiceReversed(items: seq<Item>)
    ensures Reversed(Reversed(items)) == items
  {
    var r, n := Reversed(items), |items|;
    forall i | 0 <= i < n ensures Reversed(r)[i] == items[i] {
      assert Reversed(r)[i] == r[n - 1 - i] == items[n - 1 - (n - 1 - i)];
    }
  }

  lemma EmptyChain(n: nat)
    ensures Chain(null, [], []) && AllInside([], n)
  {
  }

  lemma PlayedFrom(loads: seq<Attempt>, k: nat, closing: seq<Act>)
    requires k < |loads|
    ensures Played(loads[k..], closing) ==
      loads[k].acts + if loads[k].fails then closing else Played(loads[k + 1..], closing)
  {
    assert loads[k..][1..] == loads[k + 1..];
  }

  lemma PlayedNone(loads: seq<Attempt>, closing: seq<Act>)
    ensures Played(loads[|loads|..], closing) == closing
  {
  }

  lemma PlayedOne(loads: seq<Attempt>, closing: seq<Act>)
    requires |loads| == 1
    ensures Played(loads, closing) == loads[0].acts + closing
  {
  }

  ghost predicate Different(pools: seq<nat>) {
    forall i, j :: 0 <= i < j < |pools| ==> pools[i] != pools[j]
  }

  function Newest(pools: seq<nat>): (p: Option<nat>) {
    if pools == [] then None else Some(pools[0])
  }

  /** The pools in use. Without journalling the pool of a refused load stays, outside of the list. */
  ghost predicate PoolsFit(pool: Option<nat>, pools: seq<nat>, alive: set<nat>, next: nat, enabled: bool) {
    && Different(pools) && (forall p :: p in pools ==> p in alive) && (forall p :: p in alive ==> p < next)
    && if enabled then alive == (set p | p in pools) && pool == Newest(pools) else pool.Some? ==> pool.value in alive
  }

  /** A pool opened by a transaction is kept, or deleted again, or left alone. */
  lemma OpenedPool(pool: Option<nat>, pools: seq<nat>, alive: set<nat>, next: nat, enabled: bool)
    requires PoolsFit(pool, pools, alive, next, enabled)
    ensures next !in pools && Different(pools) && alive + {next} - {next} == alive
    ensures enabled ==> alive + {next} == (set p | p in pools) + {next}
    ensures PoolsFit(Some(next), [next] + pools, alive + {next}, next + 1, enabled)
    ensures enabled ==> PoolsFit(Newest(pools), pools, alive + {next} - {next}, next + 1, enabled)
    ensures !enabled ==> PoolsFit(Some(next), pools, alive + {next}, next + 1, enabled)
  {
    assert next !in alive;
    assert alive + {next} - {next} == alive;
  }

  lemma PoolListed(pool: Option<nat>, pools: seq<nat>, alive: set<nat>, next: nat, enabled: bool)
    requires PoolsFit(pool, pools, alive, next, enabled)
    ensures enabled ==> (pool.Some? <==> pools != [])
  {
  }

  lemma UndoneSelf(m: seq<int>, lg: seq<Entry>)
    requires AllInside(lg, |m|)
    ensures Undo(m, lg)[..|m|] == Undo(m, lg)
  {
  }

  lemma PoolAlive(pool: Option<nat>, pools: seq<nat>, alive: set<nat>, next: nat, enabled: bool)
    requires PoolsFit(pool, pools, alive, next, enabled)
    ensures pool.Some? ==> pool.value in alive
  {
  }

  /** struct conf_entry: what cf_reload(NULL) loads again. */
  datatype Entered = File(name: string) | Text(text: string)

  /** Last item of a list. */
  lemma LastLink(items: seq<Item>, i: nat)
    requires i < |items| && Forward(items, 0) && Distinct(items)
    ensures items[i].prev == Nth(items, i + 1)
  {
    if i + 1 < |items| {
      assert items[i].prev == items[i + 1];
    }
  }

  /** Does an act allocate from the pool? */
  predicate Takes(enabled: bool, act: Act) {
    act.Extend? || (enabled && act.Save?)
  }

  predicate Allocates(enabled: bool, acts: seq<Act>) {
    exists k :: 0 <= k < |acts| && Takes(enabled, acts[k])
  }

  lemma NoActs(m: seq<int>, lg: seq<Entry>)
    ensures Done(m, []) == m && WrittenIf(true, m, []) + lg == lg && WrittenIf(false, m, []) + lg == lg
  {
  }

  /** What one act adds to the journal and to the saved words. */
  function LogBy(enabled: bool, m: seq<int>, act: Act, lg: seq<Entry>): (r: seq<Entry>) {
    if enabled && act.Save? && act.ptr + act.len <= |m|
    then [Entry(act.ptr, m[act.ptr..act.ptr + act.len])] + lg
    else lg
  }

  ghost function SavedBy(act: Act, saved: set<nat>): (r: set<nat>) {
    if act.Save? then saved + Range(act.ptr, act.len) else saved
  }

  /** An act that Perform may perform next. */
  predicate Fits(act: Act, size: nat, base: nat, saved: set<nat>) {
    match act
    case Save(ptr, len) => ptr + len <= size
    case Store(at, _) => at < size && (at >= base || at in saved)
    case Extend(_) => true
  }

  function WrittenIf(enabled: bool, m: seq<int>, acts: seq<Act>): (lg: seq<Entry>) {
    if enabled then Written(m, acts) else []
  }

  /** The first act and the others. */
  lemma FirstDone(enabled: bool, m: seq<int>, acts: seq<Act>, lg: seq<Entry>)
    requires acts != []
    ensures Done(m, acts) == Done(Effect(m, acts[0]), acts[1..])
    ensures WrittenIf(enabled, m, acts) + lg ==
      WrittenIf(enabled, Effect(m, acts[0]), acts[1..]) + LogBy(enabled, m, acts[0], lg)
  {
    var a, rest := acts[0], Written(Effect(m, acts[0]), acts[1..]);
    if a.Save? && a.ptr + a.len <= |m| {
      var e := Entry(a.ptr, m[a.ptr..a.ptr + a.len]);
      assert (rest + [e]) + lg == rest + ([e] + lg);
    }
  }

  lemma FirstDisciplined(m: seq<int>, acts: seq<Act>, rest: seq<Act>, base: nat, saved: set<nat>)
    requires acts != [] && Disciplined(acts + rest, |m|, base, saved)
    ensures Fits(acts[0], |m|, base, saved) && |m| <= |Effect(m, acts[0])|
    ensures Disciplined(acts[1..] + rest, |Effect(m, acts[0])|, base, SavedBy(acts[0], saved))
  {
    assert (acts + rest)[0] == acts[0] && (acts + rest)[1..] == acts[1..] + rest;
  }

  lemma FirstAllocates(enabled: bool, acts: seq<Act>)
    requires acts != []
    ensures Takes(enabled, acts[0]) || Allocates(enabled, acts[1..]) ==> Allocates(enabled, acts)
  {
    hide Takes;
    if Allocates(enabled, acts[1..]) {
      var k :| 0 <= k < |acts[1..]| && Takes(enabled, acts[1..][k]);
      assert Takes(enabled, acts[k + 1]);
    }
  }

  /** A new item in front of a list. */
  lemma ChainCons(item: Item, items: seq<Item>, log: seq<Entry>)
    requires Chain(item.prev, items, log) && item !in items
    ensures Chain(item, [item] + items, [Entry(item.ptr, item.copy)] + log)
  {
    var its := [item] + items;
    forall i, j | 0 <= i && j == i + 1 && j < |its| ensures its[i].prev == its[j] {
      assert i > 0 ==> items[i - 1].prev == items[j - 1];
    }
    assert items != [] ==> its[|its| - 1] == items[|items| - 1];
    assert Distinct(its);
  }

  /** Does a setting allocate? An accepted one is remembered if journalling is on. */
  predicate NeedsPool(enabled: bool, acts: seq<Act>, fails: bool) {
    Allocates(enabled, acts) || (enabled && !fails)
  }

  /** How a command ends; a crash is an allocation without a pool. */
  datatype Outcome = Accepted | Refused | Crashed | Skipped

  /** The part of struct cf_context that transactions use. `mem` is the memory that holds the
      configuration; it grows as the configuration allocates. */
  class Context {
    var mem: seq<int>
    var journal: Item?
    var enabled: bool
    var pool: Option<nat>
    var pools: seq<nat>
    var alive: set<nat>             // pools that exist
    var nextPool: nat
    var entries: seq<Entered>       // conf_entries
    ghost var items: seq<Item>
    ghost var log: seq<Entry>

    ghost predicate Valid()
      reads this, items
    {
      Chain(journal, items, log) && AllInside(log, |mem|) && (!enabled ==> log == []) && Housed(items, alive)
    }

    /** There is a pool to allocate from. */
    ghost predicate HasPool()
      reads this`pool, this`alive
    {
      pool.Some? && pool.value in alive
    }

    constructor (mem: seq<int>, enabled: bool)
      ensures Valid() && Pooled() && this.mem == mem && this.enabled == enabled
      ensures log == [] && entries == [] && pool == None
    {
      this.mem, this.enabled := mem, enabled;
      journal, items, log, entries := null, [], [], [];
      pool, pools, alive, nextPool := None, [], {}, 0;
    }

    /** cf_journal_block. */
    method JournalBlock(ptr: nat, len: nat)
      requires Valid() && ptr + len <= |mem| && (enabled ==> HasPool())
      modifies this`journal, this`items, this`log
      ensures Valid() && (!enabled ==> log == old(log) && items == old(items))
      ensures enabled ==> log == [Entry(ptr, mem[ptr..ptr + len])] + old(log)
      ensures enabled ==> |items| > 0 && fresh(items[0])
      ensures enabled ==> Some(items[0].pool) == pool && items == [items[0]] + old(items)
    {
      if !enabled {
        return;
      }
      hide Chain;
      var item := new Item(journal, ptr, mem[ptr..ptr + len], pool.value);
      ChainCons(item, items, log);
      journal := item;
      items := [item] + items;
      log := [Entry(ptr, item.copy)] + log;
    }

    /** The inner loop of cf_journal_swap. */
    method Exchange(item: Item)
      requires item.ptr + |item.copy| <= |mem|
      modifies this`mem, item`copy
      ensures mem == Put(old(mem), Entry(item.ptr, old(item.copy)))
      ensures Entry(item.ptr, item.copy) == Taken(old(mem), Entry(item.ptr, old(item.copy)))
    {
      hide Put, PutPart, Mixed;
      var n, p := |item.copy|, item.ptr;
      ExchangeEnds(mem, p, item.copy);
      for i := 0 to n
        invariant |item.copy| == n && mem == PutPart(old(mem), p, old(item.copy), i)
        invariant item.copy == Mixed(old(mem), p, old(item.copy), i)
      {
        ExchangeStep(old(mem), p, old(item.copy), i);
        var x := item.copy[i];
        item.copy := item.copy[i := mem[p + i]];
        mem := mem[p + i := x];
      }
    }

    /** One round of cf_journal_swap. */
    method Turn(curr: Item, next: Item?, ghost its: seq<Item>, ghost lg: seq<Entry>, ghost done: seq<Entry>,
                ghost i: nat)
      returns (prev: Item?)
      requires Turned(its, lg, done, i) && Distinct(its)
      requires i < |its| && curr == its[i] && next == Before(its, i) && Inside(lg[i], |mem|)
      modifies this`mem, curr
      ensures mem == Put(old(mem), lg[i]) && prev == Nth(its, i + 1)
      ensures Turned(its, lg, [Taken(old(mem), lg[i])] + done, i + 1)
    {
      assert forall k :: 0 <= k < |its| && k != i ==> its[k] != curr;
      prev := curr.prev;
      curr.prev := next;
      Exchange(curr);
    }

    /** cf_journal_swap: swaps memory with the journal and reverses the list in place. */
    method Swap()
      requires Valid()
      modifies this`mem, this`journal, this`items, this`log, items
      ensures Valid() && items == Reversed(old(items))
      ensures (mem, log) == SwapOnto(old(mem), old(log), [])
    {
      hide SwapOnto, Put, Taken, Distinct, Turned, Forward, Backward;
      ghost var its, lg := items, log;
      ghost var i, done: seq<Entry> := 0, [];
      var next: Item?, curr := null, journal;
      TurnStart(its, lg);
      assert lg[0..] == lg;
      while curr != null
        invariant i <= |its| && Turned(its, lg, done, i) && curr == Nth(its, i) && next == Before(its, i)
        invariant items == its && |mem| == |old(mem)| && AllInside(lg, |mem|) && AllInside(done, |mem|)
        invariant SwapOnto(mem, lg[i..], done) == SwapOnto(old(mem), lg, [])
        decreases |its| - i
      {
        assert Inside(lg[i], |mem|);
        SwapStep(mem, lg, i, done);
        ghost var t := Taken(mem, lg[i]);
        var prev := Turn(curr, next, its, lg, done, i);
        i, done := i + 1, [t] + done;
        next, curr := curr, prev;
      }
      SwapEnd(mem, lg, done);
      journal := next;
      items, log := Reversed(its), done;
      TurnedOver(its, lg, done);
    }

    ghost predicate Pooled()
      reads this`pool, this`pools, this`alive, this`nextPool, this`enabled
    {
      PoolsFit(pool, pools, alive, nextPool, enabled)
    }

    /** mp_delete of a pool that exists. */
    method DeletePool(p: nat)
      requires p in alive
      modifies this`alive
      ensures alive == old(alive) - {p}
    {
      alive := alive - {p};
    }

    /** cf_journal_new_transaction. */
    method NewTransaction(newPool: bool) returns (oldj: Item?)
      requires Valid()
      modifies this`pool, this`alive, this`nextPool, this`journal, this`items, this`log
      ensures Valid() && items == [] && log == [] && Chain(oldj, old(items), old(log)) && Housed(old(items), old(alive))
      ensures !newPool ==> pool == old(pool) && alive == old(alive) && nextPool == old(nextPool)
      ensures newPool ==> pool == Some(old(nextPool))
      ensures newPool ==> alive == old(alive) + {old(nextPool)} && nextPool == old(nextPool) + 1
    {
      if newPool {
        pool, alive, nextPool := Some(nextPool), alive + {nextPool}, nextPool + 1;
      }
      oldj := journal;
      journal, items, log := null, [], [];
    }

    /** The loop of cf_journal_commit_transaction. */
    method LastItem(head: Item, ghost items: seq<Item>, ghost log: seq<Entry>) returns (j: Item)
      requires Chain(head, items, log)
      ensures items != [] && j == items[|items| - 1]
    {
      j := head;
      ghost var i := 0;
      while j.prev != null
        invariant i < |items| && j == items[i]
        decreases |items| - i
      {
        LastLink(items, i);
        i := i + 1;
        j := j.prev;
      }
      LastLink(items, i);
    }

    /** The end of cf_journal_commit_transaction: the old journal goes behind the new one. */
    method Append(oldj: Item?, ghost oldItems: seq<Item>, ghost oldLog: seq<Entry>)
      requires Chain(journal, items, log) && Chain(oldj, oldItems, oldLog)
      requires forall i, j :: 0 <= i < |items| && 0 <= j < |oldItems| ==> items[i] != oldItems[j]
      modifies this`journal, this`items, this`log, items
      ensures Chain(journal, items, log) && items == old(items) + oldItems && log == old(log) + oldLog
    {
      hide Chain;
      ChainNull(journal, items, log);
      ChainNull(oldj, oldItems, oldLog);
      assert items + [] == items && log + [] == log && [] + oldItems == oldItems && [] + oldLog == oldLog;
      if oldj != null {
        if journal == null {
          journal := oldj;
        } else {
          var j := LastItem(journal, items, log);
          Hang(j, oldj, items, log, oldItems, oldLog);
        }
      }
      items, log := items + oldItems, log + oldLog;
    }

    method Hang(j: Item, oldj: Item?, ghost its: seq<Item>, ghost lg: seq<Entry>, ghost oldItems: seq<Item>,
                ghost oldLog: seq<Entry>)
      requires its != [] && Chain(its[0], its, lg) && j == its[|its| - 1] && Chain(oldj, oldItems, oldLog)
      requires forall i, j :: 0 <= i < |its| && 0 <= j < |oldItems| ==> its[i] != oldItems[j]
      modifies j
      ensures Chain(its[0], its + oldItems, lg + oldLog)
    {
      j.prev := oldj;
      Joined(its, lg, oldItems, oldLog);
    }

    /** cf_journal_commit_transaction. */
    method Commit(newPool: bool, oldj: Item?, ghost oldItems: seq<Item>, ghost oldLog: seq<Entry>)
      requires Valid() && Chain(oldj, oldItems, oldLog) && AllInside(oldLog, |mem|) && (!enabled ==> oldLog == [])
      requires Housed(oldItems, alive)
      requires forall i, j :: 0 <= i < |items| && 0 <= j < |oldItems| ==> items[i] != oldItems[j]
      requires newPool ==> pool.Some?
      modifies this`pools, this`journal, this`items, this`log, items
      ensures Valid() && items == old(items) + oldItems && log == old(log) + oldLog
      ensures pools == if newPool then [pool.value] + old(pools) else old(pools)
    {
      if newPool {
        pools := [pool.value] + pools;
      }
      Append(oldj, oldItems, oldLog);
    }

    /** cf_journal_rollback_transaction. */
    method Rollback(newPool: bool, oldj: Item?, ghost oldItems: seq<Item>, ghost oldLog: seq<Entry>)
      requires Valid() && Chain(oldj, oldItems, oldLog) && AllInside(oldLog, |mem|)
      requires forall i, j :: 0 <= i < |items| && 0 <= j < |oldItems| ==> items[i] != oldItems[j]
      requires if newPool then HasPool() && Housed(oldItems, alive - {pool.value}) else Housed(oldItems, alive)
      modifies this`mem, this`journal, this`items, this`log, this`pool, this`alive, items
      ensures Valid() && (!enabled ==> unchanged(this))
      ensures enabled ==> items == oldItems && log == oldLog && mem == Undo(old(mem), old(log))
      ensures enabled && newPool ==> alive == old(alive) - {old(pool).value}
      ensures enabled && newPool ==> pool == Newest(pools)
      ensures !newPool ==> pool == old(pool) && alive == old(alive)
    {
      hide Chain, SwapOnto, AllInside;
      if !enabled {
        return;
      }
      Swap();
      journal, items, log := oldj, oldItems, oldLog;
      if newPool {
        DeletePool(pool.value);
        pool := Newest(pools);
      }
    }

    /** cf_journal_delete: every old pool is deleted, each once. */
    method DeleteOld(ghost current: nat)
      requires Different(pools) && current !in pools && alive == (set p | p in pools) + {current}
      modifies this`pools, this`alive
      ensures pools == [] && alive == {current}
    {
      while pools != []
        invariant Different(pools) && current !in pools && alive == (set p | p in pools) + {current}
      {
        var p := pools[0];
        assert pools == [p] + pools[1..];
        assert p !in pools[1..];
        pools := pools[1..];
        DeletePool(p);
      }
    }

    /** Runs what a loaded file or string asks for; `rest` is what will be asked for later. */
    method Perform(acts: seq<Act>, ghost rest: seq<Act>, ghost base: nat, ghost saved: set<nat>)
      returns (ghost saved': set<nat>)
      requires Valid() && Disciplined(acts + rest, |mem|, base, saved) && base <= |mem| && Logged(saved)
      requires Allocates(enabled, acts) ==> HasPool()
      modifies this`mem, this`journal, this`items, this`log
      ensures Valid() && |mem| >= |old(mem)| && Disciplined(rest, |mem|, base, saved') && Logged(saved')
      ensures enabled ==> Undo(mem, log)[..base] == Undo(old(mem), old(log))[..base]
      ensures mem == Done(old(mem), acts) && log == WrittenIf(enabled, old(mem), acts) + old(log)
      ensures forall i :: 0 <= i < |items| ==>
        items[i] in old(items) || (fresh(items[i]) && pool == Some(items[i].pool))
      decreases |acts|
    {
      hide Undo, SwapOnto, Chain, AllInside, Logged, Housed, Effect, Done, WrittenIf, Allocates, Takes, Disciplined;
      hide LogBy, SavedBy, Fits;
      NoActs(mem, log);
      if acts == [] {
        assert acts + rest == rest;
        return saved;
      }
      FirstDone(enabled, mem, acts, log);
      FirstAllocates(enabled, acts);
      FirstDisciplined(mem, acts, rest, base, saved);
      saved' := PerformOne(acts[0], base, saved);
      saved' := Perform(acts[1..], rest, base, saved');
    }

    ghost predicate Logged(saved: set<nat>)
      reads this`enabled, this`log
    {
      enabled ==> forall x :: x in saved ==> CoveredBy(log, x)
    }

    lemma NothingLogged()
      ensures Logged({})
    {
    }

    /** One step of a load. */
    method PerformOne(act: Act, ghost base: nat, ghost saved: set<nat>) returns (ghost saved': set<nat>)
      requires Valid() && base <= |mem| && Fits(act, |mem|, base, saved)
      requires Logged(saved) && (Takes(enabled, act) ==> HasPool())
      modifies this`mem, this`journal, this`items, this`log
      ensures Valid() && Logged(saved') && mem == Effect(old(mem), act)
      ensures log == LogBy(enabled, old(mem), act, old(log)) && saved' == SavedBy(act, saved)
      ensures enabled ==> Undo(mem, log)[..base] == Undo(old(mem), old(log))[..base]
      ensures forall i :: 0 <= i < |items| ==>
        items[i] in old(items) || (fresh(items[i]) && pool == Some(items[i].pool))
    {
      hide Undo, SwapOnto, Chain, CoveredBy;
      saved' := saved;
      match act
      case Save(ptr, len) =>
        UndoJournaled(mem, log, Entry(ptr, mem[ptr..ptr + len]));
        saved' := saved + Range(ptr, len);
        ghost var was := log;
        JournalBlock(ptr, len);
        if enabled {
          CoveredMore(was, log[0], saved);
        }
      case Store(at, value) =>
        if enabled {
          UndoStore(mem, log, at, value, base);
        }
        mem := mem[at := value];
      case Extend(words) =>
        UndoExtend(mem, log, words, base);
        mem := mem + words;
    }

    /** The start of a transaction and what it does to memory. */
    method Begin(newPool: bool, acts: seq<Act>) returns (oldj: Item?)
      requires Valid() && Disciplined(acts, |mem|, |mem|, {})
      requires !newPool && Allocates(enabled, acts) ==> HasPool()
      modifies this`mem, this`journal, this`items, this`log, this`pool, this`alive, this`nextPool
      ensures Valid() && |mem| >= |old(mem)| && mem == Done(old(mem), acts)
      ensures log == WrittenIf(enabled, old(mem), acts)
      ensures Chain(oldj, old(items), old(log)) && AllInside(old(log), |mem|)
      ensures Housed(old(items), old(alive)) && Housed(old(items), alive)
      ensures enabled ==> Undo(mem, log)[..|old(mem)|] == Undo(old(mem), [])[..|old(mem)|]
      ensures forall i :: 0 <= i < |items| ==> fresh(items[i])
      ensures !newPool ==> pool == old(pool) && alive == old(alive) && nextPool == old(nextPool)
      ensures newPool ==> pool == Some(old(nextPool))
      ensures newPool ==> alive == old(alive) + {old(nextPool)} && nextPool == old(nextPool) + 1
    {
      hide Undo, SwapOnto, Chain, AllInside, Put, Disciplined, Done, Written, Allocates;
      ghost var m, lg := mem, log;
      oldj := NewTransaction(newPool);
      assert acts + [] == acts;
      ghost var _ := Perform(acts, [], |m|, {});
      assert WrittenIf(enabled, m, acts) + [] == WrittenIf(enabled, m, acts);
      Widen(lg, |m|, |mem|);
    }

    /** The transaction of cf_load, which opens a pool, and of cf_set, which does not. `acts` is
        what the text asks for, `fails` whether it is refused in the end. */
    method Transact(newPool: bool, acts: seq<Act>, fails: bool)
      requires Valid() && Pooled() && Disciplined(acts, |mem|, |mem|, {})
      requires !newPool && Allocates(enabled, acts) ==> pool.Some?
      modifies this`mem, this`journal, this`items, this`log, this`pool, this`pools, this`alive, this`nextPool, items
      ensures mem == if fails then AfterRefusal(enabled, old(mem), acts) else Done(old(mem), acts)
      ensures |mem| == |old(mem)| + Grown(acts) && Valid() && Pooled()
      ensures enabled ==> Undone(old(mem), old(log))
      ensures fails && enabled ==> |old(mem)| <= |mem| && mem[..|old(mem)|] == old(mem)
      ensures fails && enabled ==> items == old(items) && log == old(log)
      ensures log == if fails then old(log) else WrittenIf(enabled, old(mem), acts) + old(log)
      ensures pools == if newPool && !fails then [old(nextPool)] + old(pools) else old(pools)
      ensures !newPool ==> pool == old(pool)
      ensures newPool ==> (pool.Some? <==> !fails || !enabled || old(pools) != [])
      ensures forall i :: 0 <= i < |items| ==> items[i] in old(items) || fresh(items[i])
    {
      hide Undo, SwapOnto, Chain, AllInside, Put, Disciplined, PoolsFit, Different, Done, Written, Housed,
        Allocates, Grown;
      ghost var m, its, lg := mem, items, log;
      OpenedPool(pool, pools, alive, nextPool, enabled);
      PoolAlive(pool, pools, alive, nextPool, enabled);
      DoneSize(m, acts);
      RefusalSize(enabled, m, acts);
      var oldj := Begin(newPool, acts);
      if !fails {
        if enabled {
          CommitUndo(m, lg, mem, log);
        }
        Commit(newPool, oldj, its, lg);
      } else {
        if enabled {
          RollbackUndo(m, lg, mem, log);
        }
        Rollback(newPool, oldj, its, lg);
      }
    }

    /** cf_load. */
    method Load(file: string, acts: seq<Act>, fails: bool) returns (err: bool)
      requires Valid() && Pooled() && Disciplined(acts, |mem|, |mem|, {})
      modifies this, items
      ensures err == fails && enabled == old(enabled) && Valid() && Pooled() && |mem| == |old(mem)| + Grown(acts)
      ensures pool.Some? <==> !err || !enabled || old(pool).Some?
      ensures pools == if err then old(pools) else [old(nextPool)] + old(pools)
      ensures enabled ==> Undone(old(mem), old(log))
      ensures err && enabled ==> AsBefore(old(mem), old(items), old(log), old(entries)) && pools == old(pools)
      ensures mem == if err then AfterRefusal(enabled, old(mem), acts) else Done(old(mem), acts)
      ensures log == if err then old(log) else WrittenIf(enabled, old(mem), acts) + old(log)
      ensures entries == if !err && enabled then old(entries) + [File(file)] else old(entries)
      ensures forall i :: 0 <= i < |items| ==> items[i] in old(items) || fresh(items[i])
    {
      hide Undo, SwapOnto, Chain, AllInside, Disciplined, PoolsFit, Grown;
      PoolListed(pool, pools, alive, nextPool, enabled);
      Transact(true, acts, fails);
      err := fails;
      if !err && enabled {
        entries := entries + [File(file)];
      }
    }

    /** cf_set, which allocates from the pool of the last load. Before any load there is none, and
        a setting that allocates crashes. */
    method Set(text: string, acts: seq<Act>, fails: bool) returns (r: Outcome)
      requires Valid() && Pooled() && Disciplined(acts, |mem|, |mem|, {})
      modifies this, items
      ensures r.Crashed? <==> old(pool).None? && NeedsPool(old(enabled), acts, fails)
      ensures r.Crashed? ==> unchanged(this)
      ensures !r.Crashed? ==> r == if fails then Refused else Accepted
      ensures enabled == old(enabled) && pool == old(pool) && pools == old(pools) && Pooled() && Valid()
      ensures !r.Crashed? ==> |mem| == |old(mem)| + Grown(acts)
      ensures enabled ==> Undone(old(mem), old(log))
      ensures r.Refused? && enabled ==> AsBefore(old(mem), old(items), old(log), old(entries))
      ensures !r.Crashed? ==> mem == if fails then AfterRefusal(enabled, old(mem), acts) else Done(old(mem), acts)
      ensures !r.Crashed? ==> log == if fails then old(log) else WrittenIf(enabled, old(mem), acts) + old(log)
      ensures entries == if r.Accepted? && enabled then old(entries) + [Text(text)] else old(entries)
      ensures forall i :: 0 <= i < |items| ==> items[i] in old(items) || fresh(items[i])
    {
      hide Undo, SwapOnto, Chain, AllInside, Disciplined, PoolsFit, Grown;
      UndoneSelf(mem, log);
      if pool.None? && NeedsPool(enabled, acts, fails) {
        return Crashed;
      }
      Transact(false, acts, fails);
      r := if fails then Refused else Accepted;
      if !fails && enabled {
        entries := entries + [Text(text)];
      }
    }

    /** The loop of cf_reload(NULL): loads the old entries again up to the first that fails. */
    method LoadAgain(olds: seq<Entered>, loads: seq<Attempt>, ghost closing: seq<Act>, ghost base: nat)
      returns (err: bool, ghost saved: set<nat>)
      requires Valid() && enabled && HasPool() && base == |mem| && items == []
      requires log == [] && |loads| == |olds| && entries == []
      requires Disciplined(Played(loads, closing), |mem|, base, {})
      modifies this`mem, this`journal, this`items, this`log, this`entries
      ensures Valid() && |mem| >= base && Disciplined(closing, |mem|, base, saved) && Logged(saved)
      ensures Undo(mem, log)[..base] == old(mem)
      ensures forall i :: 0 <= i < |items| ==> fresh(items[i]) && pool == Some(items[i].pool)
      ensures err <==> exists k :: 0 <= k < |loads| && loads[k].fails
      ensures !err ==> entries == olds
      ensures mem == Done(old(mem), Played(loads, [])) && log == Written(old(mem), Played(loads, []))
    {
      hide Undo, SwapOnto, Chain, AllInside, Put, Disciplined, Logged, Played, Done, Written, Towards;
      ghost var m := mem;
      TowardsStart(m, Played(loads, []));
      err, saved := false, {};
      StartLogged(mem, log);
      NothingLogged();
      assert loads[0..] == loads;
      var k := 0;
      while k < |olds| && !err
        invariant k <= |olds| && Valid() && enabled && base <= |mem| && Logged(saved)
        invariant Disciplined(if err then closing else Played(loads[k..], closing), |mem|, base, saved)
        invariant Undo(mem, log)[..base] == m
        invariant forall i :: 0 <= i < |items| ==> fresh(items[i]) && pool == Some(items[i].pool)
        invariant Towards(m, Played(loads, []), mem, log, if err then [] else Played(loads[k..], []))
        invariant err ==> k > 0 && loads[k - 1].fails
        invariant !err ==> entries == olds[..k] && forall i :: 0 <= i < k ==> !loads[i].fails
        decreases |olds| - k
      {
        PlayedFrom(loads, k, closing);
        PlayedFrom(loads, k, []);
        ghost var rest := if loads[k].fails then closing else Played(loads[k + 1..], closing);
        TowardsNext(m, Played(loads, []), mem, log, loads[k].acts,
                    if loads[k].fails then [] else Played(loads[k + 1..], []));
        saved := Perform(loads[k].acts, rest, base, saved);
        err := loads[k].fails;
        if !err {
          entries := entries + [olds[k]];
        }
        k := k + 1;
      }
      PlayedNone(loads, closing);
      PlayedNone(loads, []);
      TowardsEnd(m, Played(loads, []), mem, log);
    }

    /** The middle of cf_reload: the file or the old entries, and the closing commit. */
    method TryLoads(file: Option<string>, olds: seq<Entered>, loads: seq<Attempt>, closing: Attempt)
      returns (err: bool)
      requires Valid() && enabled && HasPool() && items == [] && log == [] && entries == []
      requires |loads| == (if file.Some? then 1 else |olds|)
      requires Disciplined(Played(loads, closing.acts), |mem|, |mem|, {})
      modifies this`mem, this`journal, this`items, this`log, this`entries
      ensures Valid() && |mem| >= |old(mem)| && Undo(mem, log)[..|old(mem)|] == old(mem)
      ensures Housed(items, {pool.value}) && forall i :: 0 <= i < |items| ==> fresh(items[i])
      ensures err <==> closing.fails || exists k :: 0 <= k < |loads| && loads[k].fails
      ensures !err ==> entries == if file.Some? then [] else olds
      ensures mem == Done(old(mem), Played(loads, closing.acts))
      ensures log == Written(old(mem), Played(loads, closing.acts))
    {
      hide Undo, SwapOnto, Chain, AllInside, Put, Disciplined, Logged, Done, Written, Played;
      ghost var m, saved := mem, {};
      StartLogged(mem, log);
      NothingLogged();
      if file.Some? {
        PlayedOne(loads, closing.acts);
        PlayedOne(loads, []);
        assert loads[0].acts + [] == loads[0].acts;
        assert Written(m, loads[0].acts) + [] == Written(m, loads[0].acts);
        saved := Perform(loads[0].acts, closing.acts, |m|, {});
        err := loads[0].fails;
      } else {
        err, saved := LoadAgain(olds, loads, closing.acts, |m|);
      }
      assert closing.acts + [] == closing.acts;
      PlayedClosing(loads, closing.acts);
      DoneConcat(m, Played(loads, []), closing.acts);
      saved := Perform(closing.acts, [], |m|, saved);
      err := err || closing.fails;
    }

    /** The start of cf_reload: memory before the configuration, and a new transaction. */
    method Rewind() returns (oldj: Item?, ghost m: seq<int>, ghost its: seq<Item>, ghost lg: seq<Entry>)
      requires Valid()
      modifies this`mem, this`journal, this`items, this`log, this`pool, this`alive, this`nextPool, items
      ensures Valid() && items == [] && log == [] && mem == m == Undo(old(mem), old(log))
      ensures (m, lg) == SwapOnto(old(mem), old(log), []) && its == Reversed(old(items))
      ensures Chain(oldj, its, lg) && AllInside(lg, |m|) && Housed(its, old(alive))
      ensures forall i :: 0 <= i < |its| ==> its[i] in old(items)
      ensures pool == Some(old(nextPool)) && alive == old(alive) + {old(nextPool)} && nextPool == old(nextPool) + 1
    {
      hide Undo, SwapOnto, Chain, AllInside, Put;
      UndoIs(mem, log);
      Swap();
      m, its, lg := mem, items, log;
      oldj := NewTransaction(true);
      assert forall i :: 0 <= i < |its| ==> its[i] == old(items)[|its| - 1 - i];
    }

    /** cf_reload: undoes the configuration, tries to load it anew, and redoes it on failure.
        `loads` are the file, or the old entries when there is no file. */
    method Reload(file: Option<string>, loads: seq<Attempt>, closing: Attempt) returns (err: bool)
      requires Valid() && Pooled() && enabled && |loads| == (if file.Some? then 1 else |entries|)
      requires Disciplined(Played(loads, closing.acts), |mem|, |mem|, {})
      modifies this, items
      ensures Valid() && Pooled() && enabled && Undone(old(mem), old(log))
      ensures err <==> closing.fails || exists k :: 0 <= k < |loads| && loads[k].fails
      ensures err ==> AsBefore(old(mem), old(items), old(log), old(entries)) && pools == old(pools)
      ensures !err ==> pools == [old(nextPool)] && entries == if file.Some? then [] else old(entries)
      ensures !err ==> mem == Done(Undo(old(mem), old(log)), Played(loads, closing.acts))
      ensures !err ==> log == Written(Undo(old(mem), old(log)), Played(loads, closing.acts))
      ensures err ==> mem == Redone(old(mem), old(log), Played(loads, closing.acts))
      ensures pool.Some? <==> !err || old(pool).Some?
      ensures forall i :: 0 <= i < |items| ==> items[i] in old(items) || fresh(items[i])
    {
      hide Undo, SwapOnto, Chain, AllInside, Put, Disciplined, Played, PoolsFit, Different, Housed, Done, Written;
      ghost var m0, its0, lg0 := mem, items, log;
      OpenedPool(pool, pools, alive, nextPool, enabled);
      PoolListed(pool, pools, alive, nextPool, enabled);
      var oldj;
      ghost var m, its, lg;
      oldj, m, its, lg := Rewind();
      var olds := entries;
      entries := [];
      err := TryLoads(file, olds, loads, closing);
      if !err {
        Accept();
      } else {
        Widen(lg, |m|, |mem|);
        RedoneIs(m0, lg0, m, lg, Played(loads, closing.acts));
        Redo(oldj, olds, m0, its0, lg0, m, its, lg);
      }
    }

    /** The end of a successful cf_reload. */
    method Accept()
      requires Valid() && pool.Some? && pool.value !in pools && pool.value < nextPool
      requires enabled && Different(pools) && alive == (set p | p in pools) + {pool.value}
      requires Housed(items, {pool.value})
      modifies this`pools, this`alive, this`journal, this`items, this`log, items
      ensures Valid() && Pooled() && pools == [old(pool).value] && pool == old(pool)
      ensures items == old(items) && log == old(log)
    {
      hide AllInside, Chain;
      DeleteOld(pool.value);
      EmptyChain(|mem|);
      assert log + [] == log && items + [] == items;
      Commit(true, null, [], []);
    }

    /** The end of a cf_reload that failed. */
    method Redo(oldj: Item?, olds: seq<Entered>, ghost m0: seq<int>, ghost its0: seq<Item>, ghost lg0: seq<Entry>,
                ghost m: seq<int>, ghost its: seq<Item>, ghost lg: seq<Entry>)
      requires Valid() && enabled && AllInside(lg0, |m0|) && (m, lg) == SwapOnto(m0, lg0, []) && its == Reversed(its0)
      requires Chain(oldj, its, lg) && AllInside(lg, |mem|) && |m| <= |mem| && Undo(mem, log)[..|m|] == m
      requires forall i, j :: 0 <= i < |items| && 0 <= j < |its| ==> items[i] != its[j]
      requires HasPool() && Housed(its, alive - {pool.value})
      modifies this`mem, this`journal, this`items, this`log, this`pool, this`alive, this`entries, items, its
      ensures Valid() && Undone(m0, lg0) && AsBefore(m0, its0, lg0, olds)
      ensures mem == SwapOnto(Undo(old(mem), old(log)), lg, []).0
      ensures alive == old(alive) - {old(pool).value} && pool == Newest(pools)
    {
      hide Undo, SwapOnto, Chain, AllInside, Put;
      Rollback(true, oldj, its, lg);
      RedoLemma(m0, lg0, m, lg, mem);
      Swap();
      TwiceReversed(its0);
      entries := olds;
    }

    /** Undoing the journal gives what undoing the journal `lg` in `m` gave. */
    ghost predicate Undone(m: seq<int>, lg: seq<Entry>)
      requires AllInside(lg, |m|)
      reads this`mem, this`log
    {
      AllInside(log, |mem|) && |m| <= |mem| && Undo(mem, log)[..|m|] == Undo(m, lg)
    }

    ghost predicate AsBefore(m: seq<int>, its: seq<Item>, lg: seq<Entry>, es: seq<Entered>)
      reads this`mem, this`items, this`log, this`entries
    {
      |m| <= |mem| && mem[..|m|] == m && items == its && log == lg && entries == es
    }
  }
}
