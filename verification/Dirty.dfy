/** The index of dirty configuration sections (generic/opt/section.c): a growing array that is
    sorted, compressed and searched by bisection (generic/bsearch.h). */
module Dirty {
  import opened Ordering
  import Quicksort

  const WORD := 0x1_0000_0000_0000_0000

  type Pointer = p: nat | p < WORD

  /** struct dirty_section: a section and the object it describes, both by address. */
  datatype Section = Section(sec: Pointer, ptr: Pointer)

  /** ASORT_LT: by section, then by object. */
  predicate Less(x: Section, y: Section) {
    x.sec < y.sec || (x.sec == y.sec && x.ptr < y.ptr)
  }

  function Rank(x: Section): (r: int) {
    x.sec * WORD + x.ptr
  }

  lemma RankOrder(x: Section, y: Section)
    ensures Less(x, y) <==> Rank(x) < Rank(y)
    ensures x == y <==> Rank(x) == Rank(y)
  {
  }

  ghost predicate Increasing(s: seq<Section>) {
    forall i, j :: 0 <= i < j < |s| ==> Less(s[i], s[j])
  }

  ghost function Elements(s: seq<Section>): (r: set<Section>) {
    set x | x in s
  }

  lemma Ranked(a: seq<Section>, n: nat, s: seq<Section>)
    requires n <= |a| && SortedIn(a, 0, n, Rank) && s == a[..n]
    ensures Ascending(s)
  {
    forall i, j | 0 <= i < j < n ensures s[i] == s[j] || Less(s[i], s[j]) {
      RankOrder(s[i], s[j]);
      assert Rank(a[i]) <= Rank(a[j]);
    }
  }

  lemma Extend(s: seq<Section>, x: Section)
    requires Increasing(s) && (s != [] ==> Less(s[|s| - 1], x))
    ensures Increasing(s + [x]) && Elements(s + [x]) == Elements(s) + {x}
  {
    forall i | 0 <= i < |s| ensures Less(s[i], x) {
      assert i < |s| - 1 ==> Less(s[i], s[|s| - 1]);
    }
  }

  ghost predicate Ascending(s: seq<Section>) {
    forall i, j :: 0 <= i < j < |s| ==> s[i] == s[j] || Less(s[i], s[j])
  }

  /** Compression of the ascending `s`: `a[..write]` stands for `s[..read]`, the rest is as it was. */
  ghost predicate Squeezed(a: seq<Section>, s: seq<Section>, read: nat, write: nat) {
    && 1 <= write <= read <= |s| <= |a|
    && Increasing(a[..write]) && Elements(a[..write]) == Elements(s[..read])
    && a[write - 1] == s[read - 1]
    && forall k :: read - 1 <= k < |s| ==> a[k] == s[k]
  }

  lemma SqueezeStart(a: seq<Section>, s: seq<Section>)
    requires 1 <= |s| <= |a| && a[..|s|] == s
    ensures Squeezed(a, s, 1, 1)
  {
    assert a[..1] == s[..1];
    assert forall k :: 0 <= k < |s| ==> a[k] == a[..|s|][k];
  }

  lemma SqueezeStep(a: seq<Section>, s: seq<Section>, read: nat, write: nat)
    requires Squeezed(a, s, read, write) && read < |s| && Ascending(s)
    ensures a[read] == a[read - 1] ==> Squeezed(a, s, read + 1, write)
    ensures a[read] != a[read - 1] ==> Squeezed(a[write := a[read]], s, read + 1, write + 1)
    ensures read == write ==> a[write := a[read]] == a
  {
    assert s[..read + 1] == s[..read] + [s[read]];
    if a[read] == a[read - 1] {
      assert s[read] == s[..read][read - 1];
      assert Elements(s[..read + 1]) == Elements(s[..read]);
    } else {
      var b := a[write := a[read]];
      assert b[..write + 1] == a[..write] + [s[read]];
      Extend(a[..write], s[read]);
      assert Elements(s[..read + 1]) == Elements(s[..read]) + {s[read]};
    }
  }

  lemma SqueezeEnd(a: seq<Section>, s: seq<Section>, write: nat)
    requires Squeezed(a, s, |s|, write)
    ensures Increasing(a[..write]) && Elements(a[..write]) == Elements(s)
  {
    assert s[..|s|] == s;
  }

  lemma FirstHit(s: seq<Section>, pos: nat, x: Section)
    requires Increasing(s) && pos <= |s|
    requires (forall i :: 0 <= i < pos ==> Less(s[i], x)) && (forall i :: pos <= i < |s| ==> !Less(s[i], x))
    ensures x in s <==> pos < |s| && s[pos] == x
  {
    if x in s {
      var i :| 0 <= i < |s| && s[i] == x;
      assert i >= pos;
    }
  }

  class Index {
    var dirty: array<Section>
    var dirties: nat

    ghost predicate Valid()
      reads this
    {
      dirties <= dirty.Length
    }

    ghost function Contents(): (s: seq<Section>)
      requires Valid()
      reads this, dirty
    {
      dirty[..dirties]
    }

    constructor ()
      ensures Valid() && Contents() == [] && fresh(dirty)
    {
      dirty := new Section[0];
      dirties := 0;
    }

    /** dirtsec_grow to one slot more than is used. */
    method Grow()
      requires Valid()
      modifies this
      ensures Valid() && dirties == old(dirties) < dirty.Length && Contents() == old(Contents())
      ensures dirty == old(dirty) || fresh(dirty)
    {
      if dirties == dirty.Length {
        var more := new Section[2 * dirties + 1](_ => Section(0, 0));
        for i := 0 to dirties
          invariant dirty == old(dirty) && dirties == old(dirties) && more != dirty
          invariant dirty[..] == old(dirty[..]) && more[..i] == dirty[..i]
        {
          more[i] := dirty[i];
        }
        dirty := more;
      }
    }

    /** cf_add_dirty. */
    method Add(x: Section)
      requires Valid()
      modifies this, dirty
      ensures Valid() && Elements(Contents()) == Elements(old(Contents())) + {x}
      ensures var was := old(Contents());
        Contents() == if was != [] && was[|was| - 1] == x then was else was + [x]
      ensures Contents() != [] && Contents()[|Contents()| - 1] == x
      ensures dirties <= old(dirties) + 1 && (dirty == old(dirty) || fresh(dirty))
    {
      Grow();
      if dirties > 0 && dirty[dirties - 1] == x {
        assert x in Contents();
        return;
      }
      ghost var s := Contents();
      dirty[dirties] := x;
      dirties := dirties + 1;
      assert Contents() == s + [x];
    }

    /** The compressing loop of sort_dirty. */
    method Compress()
      requires Valid() && dirties > 1 && SortedIn(dirty[..], 0, dirties, Rank)
      modifies this`dirties, dirty
      ensures Valid() && dirties <= old(dirties)
      ensures Increasing(Contents()) && Elements(Contents()) == Elements(old(Contents()))
    {
      hide Squeezed;
      ghost var s := Contents();
      Ranked(dirty[..], dirties, s);
      SqueezeStart(dirty[..], s);
      var read: nat, write: nat, limit := 1, 1, dirties;
      while read < limit
        invariant 1 <= write <= read <= limit == |s| == dirties <= dirty.Length
        invariant Squeezed(dirty[..], s, read, write)
      {
        SqueezeStep(dirty[..], s, read, write);
        if dirty[read] != dirty[read - 1] {
          if read != write {
            dirty[write] := dirty[read];
          }
          write := write + 1;
        }
        read := read + 1;
      }
      SqueezeEnd(dirty[..], s, write);
      dirties := write;
    }

    /** sort_dirty. */
    method SortDirty()
      requires Valid() && dirties <= Quicksort.MAX_ELTS
      modifies this`dirties, dirty
      ensures Valid() && dirties <= old(dirties) && Increasing(Contents())
      ensures Elements(Contents()) == Elements(old(Contents()))
    {
      if dirties <= 1 {
        return;
      }
      ghost var s := dirty[..];
      var _ := Quicksort.Sort(dirty, 0, dirties, Rank);
      SameElements(s, dirty[..], dirties);
      Compress();
    }

    /** The search of commit_section: was this section marked? */
    method Find(x: Section) returns (found: bool)
      requires Valid() && Increasing(Contents())
      ensures found <==> x in Contents()
    {
      var pos := FirstGe(dirty, dirties, y => Less(y, x));
      found := pos < dirties && dirty[pos] == x;
      FirstHit(Contents(), pos, x);
    }

    /** cf_commit_all: the sections with a commit hook are looked up in a fixed order up to the
        first hook that fails, and the index is reset when none does. One mode calls no hook and
        only sorts, another calls them all. */
    method CommitAll(mode: Mode, sections: seq<Section>, fails: Section -> bool)
      returns (called: seq<Section>, err: bool)
      requires Valid() && dirties <= Quicksort.MAX_ELTS
      modifies this`dirties, dirty
      ensures Valid() && (mode.NoCommit? ==> called == [] && !err && Increasing(Contents()))
      ensures mode.Commit? ==> called == Calls(sections, Elements(old(Contents())), fails)
      ensures mode.CommitEvery? ==> called == Calls(sections, Elements(sections), fails)
      ensures err <==> called != [] && fails(called[|called| - 1])
      ensures if err || mode.NoCommit? then Elements(Contents()) == Elements(old(Contents())) else Contents() == []
    {
      hide Increasing, Elements, Calls;
      SortDirty();
      called, err := [], false;
      if mode.NoCommit? {
        return;
      }
      ghost var marked := if mode.CommitEvery? then Elements(sections) else Elements(Contents());
      ghost var kept := Elements(Contents());
      CallsStart(sections, marked, fails);
      for k := 0 to |sections|
        invariant Valid() && Increasing(Contents()) && Elements(Contents()) == kept
        invariant called + Calls(sections[k..], marked, fails) == Calls(sections, marked, fails)
        invariant called != [] ==> !fails(called[|called| - 1])
      {
        CallsNext(sections, k, marked, fails, called);
        var found := Find(sections[k]);
        InElements(Contents(), sections[k]);
        InElements(sections, sections[k]);
        if mode.CommitEvery? || found {
          called := called + [sections[k]];
          if fails(sections[k]) {
            err := true;
            return;
          }
        }
      }
      CallsEnd(sections, marked, fails, called);
      dirties := 0;
    }
  }

  /** enum cf_commit_mode. */
  datatype Mode = NoCommit | Commit | CommitEvery

  /** The marked sections in their order, up to the first whose hook fails. */
  function Calls(sections: seq<Section>, marked: set<Section>, fails: Section -> bool): (r: seq<Section>) {
    if sections == [] then []
    else if sections[0] !in marked then Calls(sections[1..], marked, fails)
    else if fails(sections[0]) then [sections[0]]
    else [sections[0]] + Calls(sections[1..], marked, fails)
  }

  lemma CallsStart(sections: seq<Section>, marked: set<Section>, fails: Section -> bool)
    ensures [] + Calls(sections[0..], marked, fails) == Calls(sections, marked, fails)
  {
    assert sections[0..] == sections;
  }

  lemma CallsNext(sections: seq<Section>, k: nat, marked: set<Section>, fails: Section -> bool, called: seq<Section>)
    requires k < |sections|
    ensures var x, rest := sections[k], Calls(sections[k + 1..], marked, fails);
      called + Calls(sections[k..], marked, fails) ==
      if x !in marked then called + rest else if fails(x) then called + [x] else (called + [x]) + rest
  {
    assert sections[k..][0] == sections[k] && sections[k..][1..] == sections[k + 1..];
    var x, rest := sections[k], Calls(sections[k + 1..], marked, fails);
    assert called + ([x] + rest) == (called + [x]) + rest;
  }

  lemma CallsEnd(sections: seq<Section>, marked: set<Section>, fails: Section -> bool, called: seq<Section>)
    ensures called + Calls(sections[|sections|..], marked, fails) == called
  {
  }

  lemma InElements(s: seq<Section>, x: Section)
    ensures x in Elements(s) <==> x in s
  {
  }

  /** BIN_SEARCH_FIRST_GE_CMP: the first element that is not lower. */
  method FirstGe<T>(a: array<T>, n: nat, lower: T -> bool) returns (l: nat)
    requires n <= a.Length && forall i, j :: 0 <= i < j < n && lower(a[j]) ==> lower(a[i])
    ensures l <= n && (forall i :: 0 <= i < l ==> lower(a[i])) && (forall i :: l <= i < n ==> !lower(a[i]))
  {
    l := 0;
    var r := n;
    while l < r
      invariant l <= r <= n
      invariant (forall i :: 0 <= i < l ==> lower(a[i])) && (forall i :: r <= i < n ==> !lower(a[i]))
    {
      var m := (l + r) / 2;
      if lower(a[m]) {
        l := m + 1;
      } else {
        r := m;
      }
    }
  }

  lemma SameElements(s: seq<Section>, t: seq<Section>, n: nat)
    requires n <= |s| && PermIn(s, t, 0, n)
    ensures Elements(s[..n]) == Elements(t[..n])
  {
    PermInside(s, t, 0, n);
    forall x ensures x in s[..n] <==> x in t[..n] {
      assert x in s[..n] <==> x in multiset(s[..n]);
      assert x in t[..n] <==> x in multiset(t[..n]);
      assert s[0..n] == s[..n] && t[0..n] == t[..n];
    }
  }

  datatype Event = Mark(x: Section) | Sort

  /** What a plain set remembers of a history. */
  function Marked(history: seq<Event>): (r: set<Section>) {
    if history == [] then {}
    else
      var e := history[|history| - 1];
      Marked(history[..|history| - 1]) + if e.Mark? then {e.x} else {}
  }

  /** After any history of marks and sorts the index agrees with the plain set. */
  method Replay(history: seq<Event>) returns (index: Index)
    requires |history| <= Quicksort.MAX_ELTS
    ensures fresh(index) && fresh(index.dirty) && index.Valid()
    ensures index.dirties <= |history| && Elements(index.Contents()) == Marked(history)
  {
    index := new Index();
    for k := 0 to |history|
      invariant fresh(index) && fresh(index.dirty) && index.Valid() && index.dirties <= k
      invariant Elements(index.Contents()) == Marked(history[..k])
    {
      assert history[..k + 1][..k] == history[..k];
      match history[k]
      case Mark(x) => index.Add(x);
      case Sort => index.SortDirty();
    }
    assert history[..|history|] == history;
  }

  /** The commit-time search finds a section exactly when it was marked. */
  method Lookup(history: seq<Event>, x: Section) returns (found: bool)
    requires |history| <= Quicksort.MAX_ELTS
    ensures found <==> x in Marked(history)
  {
    var index := Replay(history);
    index.SortDirty();
    found := index.Find(x);
    assert x in index.Contents() <==> x in Elements(index.Contents());
  }
}
