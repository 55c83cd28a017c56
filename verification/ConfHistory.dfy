/** What a run of configuration commands leaves, told by its accepted commands: each word holds what
    the last of them stored in it since the last accepted reload, and the remembered entries are
    those accepted since the last accepted reload from a file. */
module ConfHistory {
  import opened Basics
  import opened UndoLog
  import opened Journal
  import opened ConfRun

  /** The last value that the acts store in a word. */
  function LastStored(acts: seq<Act>, x: nat): (v: Option<int>)
    decreases |acts|
  {
    if acts == [] then None
    else
      var a := acts[|acts| - 1];
      if a.Store? && a.at == x then Some(a.value) else LastStored(acts[..|acts| - 1], x)
  }

  /** Does memory keep what the command stored? Refused ones are undone if journalling is on. */
  predicate Counts(enabled: bool, r: Outcome) {
    r.Accepted? || (!enabled && r.Refused?)
  }

  /** The value of a word after the first commands of a run: what the last of them that counts and
      stores in it stored, unless a reload has been accepted since. `before` is the word before the
      configuration and `start` at the start of the run. */
  function Value(enabled: bool, cs: seq<Command>, os: seq<Outcome>, x: nat, before: int, start: int): (v: int)
    requires |os| <= |cs|
    decreases |os|
  {
    if os == [] then start
    else
      var k := |os| - 1;
      var stored := LastStored(Asked(cs[k]), x);
      if !Counts(enabled, os[k]) then Value(enabled, cs, os[..k], x, before, start)
      else if stored.Some? then stored.value
      else if cs[k].ReloadAll? then before
      else Value(enabled, cs, os[..k], x, before, start)
  }

  /** No command from the `k`-th on that counts stores in `x` or is a reload. */
  predicate Untouched(enabled: bool, cs: seq<Command>, os: seq<Outcome>, k: nat, x: nat)
    requires |os| <= |cs|
  {
    forall j :: k <= j < |os| && Counts(enabled, os[j]) ==> LastStored(Asked(cs[j]), x).None? && !cs[j].ReloadAll?
  }

  /** The word holds what the `k`-th command stored, if that counts and none later touches it. */
  lemma {:induction false} ValueStored(enabled: bool, cs: seq<Command>, os: seq<Outcome>, k: nat, x: nat,
                                       before: int, start: int)
    requires k < |os| <= |cs| && Counts(enabled, os[k]) && Untouched(enabled, cs, os, k + 1, x)
    ensures var stored := LastStored(Asked(cs[k]), x);
      && (stored.Some? ==> Value(enabled, cs, os, x, before, start) == stored.value)
      && (stored.None? && cs[k].ReloadAll? ==> Value(enabled, cs, os, x, before, start) == before)
    decreases |os|
  {
    hide LastStored, Counts, Asked;
    if k < |os| - 1 {
      assert forall j :: 0 <= j < |os| - 1 ==> os[..|os| - 1][j] == os[j];
      ValueStored(enabled, cs, os[..|os| - 1], k, x, before, start);
    }
  }

  /** The word is as it was at the start if no command that counts touches it. */
  lemma {:induction false} ValueStart(enabled: bool, cs: seq<Command>, os: seq<Outcome>, x: nat,
                                      before: int, start: int)
    requires |os| <= |cs| && Untouched(enabled, cs, os, 0, x)
    ensures Value(enabled, cs, os, x, before, start) == start
    decreases |os|
  {
    hide LastStored, Counts, Asked;
    if os != [] {
      assert forall j :: 0 <= j < |os| - 1 ==> os[..|os| - 1][j] == os[j];
      ValueStart(enabled, cs, os[..|os| - 1], x, before, start);
    }
  }

  /** One command more at the front. */
  lemma {:induction false} ValueFront(enabled: bool, cs: seq<Command>, os: seq<Outcome>, x: nat,
                                      before: int, start: int)
    requires 0 < |os| <= |cs|
    ensures Value(enabled, cs, os, x, before, start) ==
      Value(enabled, cs[1..], os[1..], x, before, Value(enabled, cs, [os[0]], x, before, start))
    decreases |os|
  {
    hide LastStored, Counts, Asked;
    if |os| == 1 {
      assert os == [os[0]];
    } else {
      var n := |os| - 1;
      ValueFront(enabled, cs, os[..n], x, before, start);
      assert os[1..][..n - 1] == os[..n][1..] && os[..n][0] == os[0];
      assert cs[1..][n - 1] == cs[n] && os[1..][n - 1] == os[n];
    }
  }

  /** Each word after the acts. */
  lemma {:induction false} DoneAt(m: seq<int>, acts: seq<Act>, x: nat)
    requires x < |m|
    ensures |m| <= |Done(m, acts)|
    ensures var v := LastStored(acts, x); Done(m, acts)[x] == if v.Some? then v.value else m[x]
    decreases |acts|
  {
    if acts != [] {
      var n := |acts| - 1;
      DoneAt(m, acts[..n], x);
      assert acts == acts[..n] + [acts[n]];
      DoneConcat(m, acts[..n], [acts[n]]);
      assert Done(Done(m, acts[..n]), [acts[n]]) == Effect(Done(m, acts[..n]), acts[n]);
    }
  }

  /** The states of a context: the journal lies in memory, and is empty without journalling. */
  ghost predicate Sound(enabled: bool, s: State) {
    AllInside(s.log, |s.mem|) && (!enabled ==> s.log == [])
  }

  /** What an accepted command does to a word, and to what undoing gives. */
  lemma AcceptedAt(enabled: bool, s: State, c: Command, x: nat)
    requires Sound(enabled, s) && Legal(s, c) && !Crashes(enabled, s, c) && x < |s.mem|
    ensures var t, v := AfterAccepted(enabled, s, c), LastStored(Asked(c), x);
      && Sound(enabled, t) && |s.mem| <= |t.mem|
      && t.mem[x] == (if v.Some? then v.value else if c.ReloadAll? then Original(s)[x] else s.mem[x])
      && (enabled ==> Original(t)[x] == Original(s)[x])
  {
    hide Undo, Done, Written, Disciplined, LastStored, Played;
    var m, lg := if c.ReloadAll? then Original(s) else s.mem, if c.ReloadAll? then [] else s.log;
    DoneAt(m, Asked(c), x);
    StartLogged(m, []);
    if enabled {
      DoneUndo(m, Asked(c), |m|, {}, lg);
      var t := AfterAccepted(enabled, s, c);
      assert Written(m, Asked(c)) + lg == t.log by {
        assert Written(m, Asked(c)) + [] == Written(m, Asked(c));
      }
      AtOf(Undo(t.mem, t.log), Undo(m, lg), |m|, x);
    }
  }

  lemma AtOf(a: seq<int>, b: seq<int>, n: nat, x: nat)
    requires x < n <= |a| && n <= |b| && a[..n] == b[..n]
    ensures a[x] == b[x]
  {
    assert a[x] == a[..n][x] == b[..n][x];
  }

  /** A refused one leaves the word alone if journalling is on, and keeps its stores if not. */
  lemma RefusedAt(enabled: bool, s: State, c: Command, x: nat)
    requires Sound(enabled, s) && Legal(s, c) && !Crashes(enabled, s, c) && x < |s.mem|
    ensures var t, v := AfterRefused(enabled, s, c), LastStored(Asked(c), x);
      && Sound(enabled, t) && |s.mem| <= |t.mem|
      && t.mem[x] == (if !enabled && v.Some? then v.value else s.mem[x])
      && (enabled ==> Original(t)[x] == Original(s)[x])
  {
    hide Undo, Done, Written, Disciplined, LastStored, Played, Redone, AfterRefusal, AllInside;
    var t := AfterRefused(enabled, s, c);
    if c.ReloadAll? {
      RedoneKeeps(s.mem, s.log, Asked(c));
      AtOf(t.mem, s.mem, |s.mem|, x);
    } else if enabled {
      RefusalRestores(s.mem, c.acts);
      AtOf(t.mem, s.mem, |s.mem|, x);
    } else {
      DoneAt(s.mem, c.acts, x);
      NotUndone(s.mem, c.acts);
      StartLogged(t.mem, t.log);
    }
    if enabled {
      Widen(s.log, |s.mem|, |t.mem|);
      SwapBelow(t.mem, s.mem, s.log, [], |s.mem|);
      UndoIs(t.mem, s.log);
      UndoIs(s.mem, s.log);
      AtOf(Undo(t.mem, t.log), Undo(s.mem, s.log), |s.mem|, x);
    }
  }

  lemma NotUndone(m: seq<int>, acts: seq<Act>)
    ensures AfterRefusal(false, m, acts) == Done(m, acts)
  {
  }

  /** A refused reload leaves older memory as it was. */
  lemma RedoneKeeps(m: seq<int>, lg: seq<Entry>, acts: seq<Act>)
    requires AllInside(lg, |m|) && Disciplined(acts, |m|, |m|, {})
    ensures |m| <= |Redone(m, lg, acts)| && Redone(m, lg, acts)[..|m|] == m
  {
    hide SwapOnto, AfterRefusal, Disciplined, AllInside;
    var s := SwapOnto(m, lg, []);
    RefusalRestores(s.0, acts);
    RedoLemma(m, lg, s.0, s.1, AfterRefusal(true, s.0, acts));
  }

  lemma StepAt(enabled: bool, s: State, c: Command, x: nat, before: int)
    requires Sound(enabled, s) && x < |s.mem| && (enabled ==> before == Original(s)[x])
    ensures var o, t, v := Judge(enabled, s, c), After(enabled, s, c), LastStored(Asked(c), x);
      && Sound(enabled, t) && x < |t.mem| && (enabled ==> before == Original(t)[x])
      && t.mem[x] == if !Counts(enabled, o) then s.mem[x]
                     else if v.Some? then v.value
                     else if c.ReloadAll? then before
                     else s.mem[x]
  {
    hide Legal, Asked, LastStored, AfterAccepted, AfterRefused, Fails, Original, Sound;
    match Judge(enabled, s, c)
    case Accepted => AcceptedAt(enabled, s, c, x);
    case Refused => RefusedAt(enabled, s, c, x);
    case Crashed =>
    case Skipped =>
  }

  /** Each word after a run, with and without journalling. */
  lemma {:induction false} WordsTold(enabled: bool, s: State, cs: seq<Command>, x: nat, before: int)
    requires Sound(enabled, s) && x < |s.mem| && (enabled ==> before == Original(s)[x])
    ensures var r := Story(enabled, s, cs);
      x < |r.1.mem| && r.1.mem[x] == Value(enabled, cs, r.0, x, before, s.mem[x])
    decreases |cs|
  {
    hide Judge, After, Asked, LastStored, Original, Counts;
    var r := Story(enabled, s, cs);
    if cs != [] {
      StepAt(enabled, s, cs[0], x, before);
      var o, t := Judge(enabled, s, cs[0]), After(enabled, s, cs[0]);
      ValueFront(enabled, cs, r.0, x, before, s.mem[x]);
      assert [o][..0] == [];
      if o.Crashed? {
        assert r.0 == [o] && r.0[1..] == [];
        assert t == s by {
          CrashedSame(enabled, s, cs[0]);
        }
      } else {
        WordsTold(enabled, t, cs[1..], x, before);
        assert r.0[1..] == Story(enabled, t, cs[1..]).0;
      }
    }
  }

  lemma CrashedSame(enabled: bool, s: State, c: Command)
    ensures Judge(enabled, s, c).Crashed? ==> After(enabled, s, c) == s
  {
  }

  /** From an empty journal: each word is what the last accepted command that stores in it stored
      since the last accepted reload, or as it was before the configuration. */
  lemma Configured(enabled: bool, s: State, cs: seq<Command>, x: nat)
    requires s.log == [] && x < |s.mem|
    ensures var r := Story(enabled, s, cs);
      x < |r.1.mem| && r.1.mem[x] == Value(enabled, cs, r.0, x, s.mem[x], s.mem[x])
  {
    hide Story, Value;
    StartLogged(s.mem, s.log);
    WordsTold(enabled, s, cs, x, s.mem[x]);
  }

  /** The entries of the first commands: those accepted since the last reload from a file. */
  function Listed(cs: seq<Command>, os: seq<Outcome>, start: seq<Entered>): (es: seq<Entered>)
    requires |os| <= |cs|
    decreases |os|
  {
    if os == [] then start
    else
      var k := |os| - 1;
      var es := Listed(cs, os[..k], start);
      if !os[k].Accepted? then es
      else if !cs[k].ReloadAll? then es + [EntryOf(cs[k])]
      else if cs[k].from.Some? then []
      else es
  }

  lemma {:induction false} ListedFront(cs: seq<Command>, os: seq<Outcome>, start: seq<Entered>)
    requires 0 < |os| <= |cs|
    ensures Listed(cs, os, start) == Listed(cs[1..], os[1..], Listed(cs, [os[0]], start))
    decreases |os|
  {
    hide EntryOf;
    if |os| == 1 {
      assert os == [os[0]];
    } else {
      var n := |os| - 1;
      ListedFront(cs, os[..n], start);
      assert os[1..][..n - 1] == os[..n][1..] && os[..n][0] == os[0];
      assert cs[1..][n - 1] == cs[n] && os[1..][n - 1] == os[n];
    }
  }

  /** The entries after a run, which are remembered for the journal only. */
  lemma {:induction false} EntriesTold(enabled: bool, s: State, cs: seq<Command>)
    ensures var r := Story(enabled, s, cs);
      r.1.entries == if enabled then Listed(cs, r.0, s.entries) else s.entries
    decreases |cs|
  {
    hide Legal, Asked, Original, Fails, EntryOf;
    var r := Story(enabled, s, cs);
    if cs != [] {
      var o, t := Judge(enabled, s, cs[0]), After(enabled, s, cs[0]);
      ListedFront(cs, r.0, s.entries);
      assert [o][..0] == [];
      if o.Crashed? {
        assert r.0 == [o] && r.0[1..] == [];
      } else {
        EntriesTold(enabled, t, cs[1..]);
        assert r.0[1..] == Story(enabled, t, cs[1..]).0;
      }
    }
  }

  /** The `k`-th command is remembered: it was accepted, and no reload from a file since. */
  predicate Remembered(cs: seq<Command>, os: seq<Outcome>, k: nat)
    requires |os| <= |cs|
  {
    && k < |os| && os[k].Accepted? && !cs[k].ReloadAll?
    && forall j :: k < j < |os| && os[j].Accepted? && cs[j].ReloadAll? ==> cs[j].from.None?
  }

  /** A command is still remembered after the last one, or is the last one itself. */
  lemma RememberedLast(cs: seq<Command>, os: seq<Outcome>, k: nat)
    requires 0 < |os| <= |cs|
    ensures var n := |os| - 1;
      Remembered(cs, os, k) <==>
        if k == n then os[n].Accepted? && !cs[n].ReloadAll?
        else Remembered(cs, os[..n], k) && (os[n].Accepted? && cs[n].ReloadAll? ==> cs[n].from.None?)
  {
    var n := |os| - 1;
    assert forall j :: 0 <= j < n ==> os[..n][j] == os[j];
  }

  ghost predicate Rising(ks: seq<nat>) {
    forall i, j :: 0 <= i < j < |ks| ==> ks[i] < ks[j]
  }

  /** `es` are the entries of the commands `ks`. */
  ghost predicate Entries(cs: seq<Command>, ks: seq<nat>, es: seq<Entered>) {
    && |ks| == |es|
    && forall i :: 0 <= i < |ks| ==> ks[i] < |cs| && !cs[ks[i]].ReloadAll? && es[i] == EntryOf(cs[ks[i]])
  }

  /** `ks` names exactly the remembered commands. */
  ghost predicate Names(cs: seq<Command>, os: seq<Outcome>, ks: seq<nat>)
    requires |os| <= |cs|
  {
    forall k: nat :: k in ks <==> Remembered(cs, os, k)
  }

  lemma NamesNext(cs: seq<Command>, os: seq<Outcome>, ks: seq<nat>, ks': seq<nat>)
    requires 0 < |os| <= |cs| && Names(cs, os[..|os| - 1], ks)
    requires var n := |os| - 1;
      ks' == if os[n].Accepted? && !cs[n].ReloadAll? then ks + [n]
             else if os[n].Accepted? && cs[n].from.Some? then []
             else ks
    ensures Names(cs, os, ks')
  {
    var n := |os| - 1;
    forall k: nat ensures k in ks' <==> Remembered(cs, os, k) {
      RememberedLast(cs, os, k);
      BelowLast(cs, os[..n], k);
      BelowLast(cs, os, k);
      hide Remembered;
    }
  }

  lemma BelowLast(cs: seq<Command>, os: seq<Outcome>, k: nat)
    requires |os| <= |cs|
    ensures Remembered(cs, os, k) ==> k < |os|
  {
  }

  lemma RisingNext(cs: seq<Command>, os: seq<Outcome>, ks: seq<nat>)
    requires |os| <= |cs| && Names(cs, os, ks) && Rising(ks)
    ensures Rising(ks + [|os|])
  {
    forall i | 0 <= i < |ks| ensures ks[i] < |os| {
      BelowLast(cs, os, ks[i]);
    }
  }

  lemma EntriesNext(cs: seq<Command>, ks: seq<nat>, es: seq<Entered>, n: nat)
    requires Entries(cs, ks, es) && n < |cs| && !cs[n].ReloadAll?
    ensures Entries(cs, ks + [n], es + [EntryOf(cs[n])])
  {
    hide EntryOf;
  }

  /** The entries are exactly those of the remembered commands, in their order. */
  lemma {:induction false} ListedExactly(cs: seq<Command>, os: seq<Outcome>) returns (ks: seq<nat>)
    requires |os| <= |cs|
    ensures Rising(ks) && Names(cs, os, ks) && Entries(cs, ks, Listed(cs, os, []))
    decreases |os|
  {
    ks := [];
    if os != [] {
      hide Names, Entries, Rising, EntryOf;
      var n := |os| - 1;
      ks := ListedExactly(cs, os[..n]);
      RisingNext(cs, os[..n], ks);
      ghost var was := ks;
      if os[n].Accepted? && !cs[n].ReloadAll? {
        EntriesNext(cs, ks, Listed(cs, os[..n], []), n);
        ks := ks + [n];
      } else if os[n].Accepted? && cs[n].from.Some? {
        ks := [];
        NothingListed(cs);
      }
      NamesNext(cs, os, was, ks);
    }
  }

  lemma NothingListed(cs: seq<Command>)
    ensures Rising([]) && Entries(cs, [], [])
  {
  }
}
