/** Runs of configuration commands (generic/opt/input.c). How each command ends and what it leaves is
    a function of the context, which the methods compute. */
module ConfRun {
  import opened Basics
  import opened UndoLog
  import opened Journal

  /** One command of a run; `fails` and the attempts say what the loaded text asks for and
      whether it is refused. */
  datatype Command =
    | LoadFile(file: string, acts: seq<Act>, fails: bool)
    | SetText(text: string, acts: seq<Act>, fails: bool)
    | ReloadAll(from: Option<string>, loads: seq<Attempt>, closing: Attempt)

  /** Memory, the journal, the remembered entries, and whether there is a pool. */
  datatype State = State(mem: seq<int>, log: seq<Entry>, entries: seq<Entered>, hasPool: bool)

  /** All that a command asks for. */
  function Asked(c: Command): (acts: seq<Act>) {
    if c.ReloadAll? then Played(c.loads, c.closing.acts) else c.acts
  }

  /** The loads save words before they write them, and a reload loads the right entries. */
  predicate Legal(s: State, c: Command) {
    && (c.ReloadAll? ==> |c.loads| == if c.from.Some? then 1 else |s.entries|)
    && Disciplined(Asked(c), |s.mem|, |s.mem|, {})
  }

  predicate Fails(c: Command) {
    if c.ReloadAll? then c.closing.fails || exists k :: 0 <= k < |c.loads| && c.loads[k].fails else c.fails
  }

  /** A setting that allocates needs a pool; a reload needs the journal. */
  predicate Crashes(enabled: bool, s: State, c: Command) {
    match c
    case LoadFile(_, _, _) => false
    case SetText(_, acts, fails) => !s.hasPool && NeedsPool(enabled, acts, fails)
    case ReloadAll(_, _, _) => !enabled
  }

  /** How a command ends. Illegal ones are skipped. */
  function Judge(enabled: bool, s: State, c: Command): (r: Outcome) {
    if !Legal(s, c) then Skipped
    else if Crashes(enabled, s, c) then Crashed
    else if Fails(c) then Refused
    else Accepted
  }

  /** Memory before the configuration. */
  function Original(s: State): (m: seq<int>)
    ensures |m| == |s.mem|
  {
    if AllInside(s.log, |s.mem|) then Undo(s.mem, s.log) else s.mem
  }

  /** What an accepted command leaves. */
  function AfterAccepted(enabled: bool, s: State, c: Command): (t: State) {
    if c.ReloadAll? then
      State(Done(Original(s), Asked(c)), Written(Original(s), Asked(c)), if c.from.Some? then [] else s.entries, true)
    else
      State(Done(s.mem, c.acts), WrittenIf(enabled, s.mem, c.acts) + s.log,
            if enabled then s.entries + [EntryOf(c)] else s.entries, c.LoadFile? || s.hasPool)
  }

  /** How a load or a setting is remembered. */
  function EntryOf(c: Command): (e: Entered)
    requires !c.ReloadAll?
  {
    if c.LoadFile? then File(c.file) else Text(c.text)
  }

  /** What a refused command leaves. */
  function AfterRefused(enabled: bool, s: State, c: Command): (t: State) {
    if c.ReloadAll? then s.(mem := Redone(s.mem, s.log, Asked(c)))
    else s.(mem := AfterRefusal(enabled, s.mem, c.acts), hasPool := s.hasPool || (c.LoadFile? && !enabled))
  }

  /** What the next command finds. */
  function After(enabled: bool, s: State, c: Command): (t: State) {
    match Judge(enabled, s, c)
    case Accepted => AfterAccepted(enabled, s, c)
    case Refused => AfterRefused(enabled, s, c)
    case Crashed => s
    case Skipped => s
  }

  /** A whole run: the outcomes up to a crash, and the state at its end. */
  function Story(enabled: bool, s: State, commands: seq<Command>): (r: (seq<Outcome>, State))
    ensures |r.0| <= |commands|
    decreases |commands|
  {
    if commands == [] then ([], s)
    else
      var o := Judge(enabled, s, commands[0]);
      if o.Crashed? then ([o], s)
      else
        var r := Story(enabled, After(enabled, s, commands[0]), commands[1..]);
        ([o] + r.0, r.1)
  }

  /** A setting that allocates when journalling is on. */
  predicate Allocating(c: Command) {
    c.SetText? && NeedsPool(true, c.acts, c.fails)
  }

  /** Has one of the first `k` commands, a load or a reload, been accepted? */
  predicate Loaded(commands: seq<Command>, outcomes: seq<Outcome>, k: nat)
    requires k <= |outcomes| <= |commands|
  {
    exists j :: 0 <= j < k && outcomes[j].Accepted? && !commands[j].SetText?
  }

  lemma LoadedFirst(commands: seq<Command>, outcomes: seq<Outcome>, k: nat)
    requires 0 < k <= |outcomes| <= |commands|
    ensures Loaded(commands, outcomes, k) <==>
      (outcomes[0].Accepted? && !commands[0].SetText?) || Loaded(commands[1..], outcomes[1..], k - 1)
  {
    if j :| 0 < j < k && outcomes[j].Accepted? && !commands[j].SetText? {
      assert outcomes[1..][j - 1].Accepted? && !commands[1..][j - 1].SetText?;
    }
    if Loaded(commands[1..], outcomes[1..], k - 1) {
      var j :| 0 <= j < k - 1 && outcomes[1..][j].Accepted? && !commands[1..][j].SetText?;
      assert outcomes[j + 1].Accepted? && !commands[j + 1].SetText?;
    }
  }

  /** With journalling there is a pool exactly when there was one or a load or reload has been
      accepted. */
  lemma {:induction false} PoolExactly(f: State, commands: seq<Command>)
    ensures var s := Story(true, f, commands);
      s.1.hasPool <==> f.hasPool || Loaded(commands, s.0, |s.0|)
    decreases |commands|
  {
    hide Judge, Legal;
    var s := Story(true, f, commands);
    if commands != [] && !s.0[0].Crashed? {
      var g := After(true, f, commands[0]);
      PoolExactly(g, commands[1..]);
      assert s.0[1..] == Story(true, g, commands[1..]).0;
      LoadedFirst(commands, s.0, |s.0|);
    }
  }

  /** With journalling a run breaks off exactly at a setting that allocates, is not skipped, and
      finds no pool: there was none and no load or reload has been accepted. */
  lemma {:induction false} CrashExactly(f: State, commands: seq<Command>, k: nat)
    requires k < |Story(true, f, commands).0|
    ensures var o := Story(true, f, commands).0;
      o[k].Crashed? <==> !o[k].Skipped? && Allocating(commands[k]) && !f.hasPool && !Loaded(commands, o, k)
    decreases k
  {
    hide Legal, NeedsPool, Fails;
    var s := Story(true, f, commands);
    if k > 0 {
      var g := After(true, f, commands[0]);
      CrashExactly(g, commands[1..], k - 1);
      assert s.0[1..] == Story(true, g, commands[1..]).0;
      LoadedFirst(commands, s.0, k);
    }
  }

  ghost function StateOf(cc: Context): (s: State)
    reads cc
  {
    State(cc.mem, cc.log, cc.entries, cc.pool.Some?)
  }

  lemma UndoneTrans(m0: seq<int>, lg0: seq<Entry>, m1: seq<int>, lg1: seq<Entry>, m2: seq<int>, lg2: seq<Entry>)
    requires AllInside(lg0, |m0|) && AllInside(lg1, |m1|) && AllInside(lg2, |m2|) && |m0| <= |m1| <= |m2|
    requires Undo(m1, lg1)[..|m0|] == Undo(m0, lg0) && Undo(m2, lg2)[..|m1|] == Undo(m1, lg1)
    ensures Undo(m2, lg2)[..|m0|] == Undo(m0, lg0)
  {
    assert Undo(m2, lg2)[..|m0|] == Undo(m2, lg2)[..|m1|][..|m0|];
  }

  /** One command: it ends as judged and leaves what it should. A refused one leaves older memory,
      journal and remembered entries as they were if journalling is on. */
  method Step(cc: Context, c: Command) returns (r: Outcome)
    requires cc.Valid() && cc.Pooled()
    modifies cc, cc.items
    ensures cc.Valid() && cc.Pooled() && cc.enabled == old(cc.enabled)
    ensures r == Judge(cc.enabled, old(StateOf(cc)), c) && StateOf(cc) == After(cc.enabled, old(StateOf(cc)), c)
    ensures cc.enabled ==> cc.Undone(old(cc.mem), old(cc.log))
    ensures r.Skipped? || r.Crashed? ==> unchanged(cc)
    ensures r.Refused? && cc.enabled ==>
      cc.AsBefore(old(cc.mem), old(cc.items), old(cc.log), old(cc.entries)) && cc.pools == old(cc.pools)
    ensures forall i :: 0 <= i < |cc.items| ==> cc.items[i] in old(cc.items) || fresh(cc.items[i])
  {
    hide Undo, SwapOnto, Chain, Disciplined, Played, NeedsPool, Grown, PoolsFit, Done, AfterRefusal;
    UndoneSelf(cc.mem, cc.log);
    if !Legal(State(cc.mem, [], cc.entries, cc.pool.Some?), c) {
      return Skipped;
    }
    match c
    case LoadFile(file, acts, fails) =>
      var err := cc.Load(file, acts, fails);
      r := if err then Refused else Accepted;
    case SetText(text, acts, fails) =>
      r := cc.Set(text, acts, fails);
    case ReloadAll(file, loads, closing) =>
      if !cc.enabled {
        return Crashed;
      }
      var err := cc.Reload(file, loads, closing);
      r := if err then Refused else Accepted;
  }

  /** Over any run of loads, settings and reloads, each accepted or refused, undoing the
      journal gives what it gave at the start: with an empty journal, the first memory. Outcomes,
      memory, journal and entries are those of the story. */
  method Run(cc: Context, commands: seq<Command>) returns (outcomes: seq<Outcome>)
    requires cc.Valid() && cc.Pooled()
    modifies cc, cc.items
    ensures cc.Valid() && cc.Pooled() && cc.enabled == old(cc.enabled)
    ensures cc.enabled ==> cc.Undone(old(cc.mem), old(cc.log))
    ensures (outcomes, StateOf(cc)) == Story(cc.enabled, old(StateOf(cc)), commands)
  {
    hide Undo, SwapOnto, Chain, Disciplined, PoolsFit, Judge, After;
    UndoneSelf(cc.mem, cc.log);
    outcomes := [];
    ghost var story := Story(cc.enabled, StateOf(cc), commands);
    StoryEnds(cc.enabled, StateOf(cc), commands, story.0);
    for k := 0 to |commands|
      invariant cc.Valid() && cc.Pooled() && cc.enabled == old(cc.enabled)
      invariant cc.enabled ==> cc.Undone(old(cc.mem), old(cc.log))
      invariant forall i :: 0 <= i < |cc.items| ==> cc.items[i] in old(cc.items) || fresh(cc.items[i])
      invariant var s := Story(cc.enabled, StateOf(cc), commands[k..]); story == (outcomes + s.0, s.1)
    {
      ghost var m, lg, f := cc.mem, cc.log, StateOf(cc);
      var outcome := Step(cc, commands[k]);
      if cc.enabled {
        UndoneTrans(old(cc.mem), old(cc.log), m, lg, cc.mem, cc.log);
      }
      StoryNext(cc.enabled, f, commands, k, outcomes);
      outcomes := outcomes + [outcome];
      if outcome.Crashed? {
        return;
      }
    }
    StoryEnds(cc.enabled, StateOf(cc), commands, outcomes);
  }

  lemma StoryEnds(enabled: bool, f: State, commands: seq<Command>, outcomes: seq<Outcome>)
    ensures commands[0..] == commands && [] + outcomes == outcomes
    ensures outcomes + Story(enabled, f, commands[|commands|..]).0 == outcomes
    ensures Story(enabled, f, commands[|commands|..]).1 == f
  {
  }

  lemma StoryNext(enabled: bool, f: State, commands: seq<Command>, k: nat, outcomes: seq<Outcome>)
    requires k < |commands|
    ensures var r := Judge(enabled, f, commands[k]);
      var s, t := Story(enabled, f, commands[k..]), Story(enabled, After(enabled, f, commands[k]), commands[k + 1..]);
      (outcomes + s.0, s.1) == if r.Crashed? then (outcomes + [r], f) else ((outcomes + [r]) + t.0, t.1)
  {
    hide Judge, After;
    assert commands[k..][0] == commands[k] && commands[k..][1..] == commands[k + 1..];
    var r := Judge(enabled, f, commands[k]);
    var t := Story(enabled, After(enabled, f, commands[k]), commands[k + 1..]);
    assert outcomes + ([r] + t.0) == (outcomes + [r]) + t.0;
  }

  /** A setting as the first command, with journalling on as it is by default, crashes. */
  method FirstSetting(mem: seq<int>, text: string) returns (outcomes: seq<Outcome>)
    ensures outcomes == [Crashed]
  {
    var cc := new Context(mem, true);
    outcomes := Run(cc, [SetText(text, [], false)]);
  }
}
