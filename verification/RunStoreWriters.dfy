/** What each store has been shown. A store remembers a revision and guards its commits with it; this says
    exactly when that revision is the one of the state it was last given or wrote itself. */
module RunStoreWriters {
  import opened RunStoreModel
  import opened RunStoreFiles
  import opened RunStoreProjection
  import opened RunStoreSteps
  import opened RunStoreTheorems
  import opened Wrappers

  /** `seen` is how many transitions lie below the state that the store's own load or commit returned last;
      `skipped` says that its remembered revision was last moved by a compaction that found a newer one. */
  datatype Writer = Writer(seen: Option<nat>, skipped: bool)

  datatype Watched = Watched(system: System, writers: seq<Writer>)

  predicate Matches(w: Watched) { |w.writers| == |w.system.stores| }

  /** The guard that a caller can check: a compaction that returns meets a revision other than the one remembered. */
  predicate Skips(c: Config, first: RunState, s: System, i: nat, fault: Fault)
    requires i < |s.stores|
  {
    Compact(c, s.disk, s.stores[i], fault).result.Ok? && s.stores[i].lastRevision != Durable(first, s).revision
  }

  function WatchedNext(c: Config, first: RunState, w: Watched, step: Step): Watched
    requires Matches(w) && Enabled(w.system, step)
  {
    var s, t := w.system, Next(c, w.system, step);
    Watched(t,
            match step
            case StepOpen => w.writers + [Writer(None, false)]
            case StepCommit(i, input, fault) =>
              if Commit(c, s.disk, s.stores[i], input, fault).result.Ok?
              then w.writers[i := Writer(Some(|t.history|), false)]
              else w.writers
            case StepLoad(i, fault) =>
              if Load(c, s.disk, s.stores[i], fault).result.Ok? then w.writers[i := Writer(Some(|s.history|), false)]
              else w.writers
            case StepCompact(i, fault) =>
              if Skips(c, first, s, i, fault) then w.writers[i := w.writers[i].(skipped := true)] else w.writers)
  }

  /** The store that created and saved the run has seen what it saved. */
  function WatchedInit(c: Config, first: RunState): Watched {
    Watched(Init(c, first), [Writer(Some(0), false)])
  }

  /** The first save is only accepted with a revision above the -1 of an empty run. */
  ghost predicate WatchedRun(c: Config, first: RunState, ws: seq<Watched>, steps: seq<Step>) {
    first.runId == c.runId && first.revision >= 0 && |ws| == |steps| + 1 && ws[0] == WatchedInit(c, first) &&
    forall n :: 0 <= n < |steps| ==>
      Matches(ws[n]) && Enabled(ws[n].system, steps[n]) && ws[n + 1] == WatchedNext(c, first, ws[n], steps[n])
  }

  ghost predicate WatchedReachable(c: Config, first: RunState, w: Watched) {
    exists ws, steps :: WatchedRun(c, first, ws, steps) && ws[|ws| - 1] == w
  }

  // ---------------------------------------------------------------- every reachable state

  /** The remembered revision is that of the state seen, or, after a skip, a later one; -1 if there is none. */
  ghost predicate WriterOk(first: RunState, s: System, store: Instance, w: Writer) {
    (w.seen.Some? ==> w.seen.value <= |s.history| && first.revision + w.seen.value <= store.lastRevision) &&
    (!w.skipped ==> store.lastRevision == if w.seen.Some? then first.revision + w.seen.value else -1) &&
    (w.skipped ==>
       first.revision <= store.lastRevision &&
       (w.seen.Some? ==> first.revision + w.seen.value < store.lastRevision)) &&
    store.lastRevision <= first.revision + |s.history|
  }

  ghost predicate WatchedOk(c: Config, first: RunState, w: Watched) {
    first.revision >= 0 && Matches(w) && Reachable(c, first, w.system) &&
    forall i :: 0 <= i < |w.writers| ==> WriterOk(first, w.system, w.system.stores[i], w.writers[i])
  }

  lemma WatchedNextKeeps(c: Config, first: RunState, w: Watched, step: Step)
    requires WatchedOk(c, first, w) && Enabled(w.system, step)
    ensures WatchedOk(c, first, WatchedNext(c, first, w, step))
  {
    hide Reachable, Commit, Load, Compact, Good;
    var s, t := w.system, Next(c, w.system, step);
    ReachableGoesOn(c, first, s, step);
    ReachableIsSafe(c, first, s);
    NextKeeps(c, first, s, step);
    RevisionsAreUnique(c, first, s, |s.history|, |s.history|);
    match step
    case StepOpen =>
    case StepCommit(i, input, fault) =>
      CommitKeeps(c, first, s.history, s.disk, s.stores[i], input, fault);
      CommitIsExact(c, first, s, i, input, fault);
    case StepLoad(i, fault) => LoadKeeps(c, first, s.history, s.disk, s.stores[i], fault);
    case StepCompact(i, fault) => CompactMoves(c, first, s, i, fault);
  }

  /** What a compaction does to the memory of its store. */
  lemma CompactMoves(c: Config, first: RunState, s: System, i: nat, fault: Fault)
    requires SystemOk(c, first, s) && i < |s.stores|
    ensures var out := Compact(c, s.disk, s.stores[i], fault);
            out.store ==
            if out.result.Ok? then s.stores[i].(lastRevision := Durable(first, s).revision) else s.stores[i]
  {
    hide Good, Compact, CompactWrites, Between, AllProjected;
    CompactKeeps(c, first, s.history, s.disk, s.stores[i], fault);
  }

  lemma {:induction false} WatchedRunIsSafe(c: Config, first: RunState, ws: seq<Watched>, steps: seq<Step>, n: nat)
    requires WatchedRun(c, first, ws, steps) && n < |ws|
    ensures WatchedOk(c, first, ws[n])
    decreases n
  {
    hide WatchedOk, WatchedNext, Enabled;
    if n == 0 {
      InitIsWatched(c, first);
    } else {
      WatchedRunIsSafe(c, first, ws, steps, n - 1);
      WatchedNextKeeps(c, first, ws[n - 1], steps[n - 1]);
    }
  }

  lemma InitIsWatched(c: Config, first: RunState)
    requires first.runId == c.runId && first.revision >= 0
    ensures WatchedOk(c, first, WatchedInit(c, first))
  {
    var s := Init(c, first);
    assert Run(c, first, [s], []) && [s][|[s]| - 1] == s;
  }

  lemma WatchedIsSafe(c: Config, first: RunState, w: Watched)
    requires WatchedReachable(c, first, w)
    ensures WatchedOk(c, first, w)
  {
    hide WatchedOk, WatchedNext, Enabled;
    var ws, steps :| WatchedRun(c, first, ws, steps) && ws[|ws| - 1] == w;
    WatchedRunIsSafe(c, first, ws, steps, |ws| - 1);
  }

  lemma WatchedGoesOn(c: Config, first: RunState, w: Watched, step: Step)
    requires WatchedReachable(c, first, w) && Matches(w) && Enabled(w.system, step)
    ensures WatchedReachable(c, first, WatchedNext(c, first, w, step))
  {
    hide WatchedNext, Enabled, Matches, WatchedInit;
    var ws, steps :| WatchedRun(c, first, ws, steps) && ws[|ws| - 1] == w;
    var longer, more := ws + [WatchedNext(c, first, w, step)], steps + [step];
    forall n | 0 <= n < |more|
      ensures Matches(longer[n]) && Enabled(longer[n].system, more[n])
      ensures longer[n + 1] == WatchedNext(c, first, longer[n], more[n])
    {
      if n < |steps| {
        assert longer[n] == ws[n] && longer[n + 1] == ws[n + 1] && more[n] == steps[n];
      }
    }
    assert WatchedRun(c, first, longer, more) && longer[|longer| - 1] == WatchedNext(c, first, w, step);
  }

  // ---------------------------------------------------------------- which writers saw what they replace

  /** A commit whose record reaches the journal replaces the very state its store was last given, or wrote,
      exactly if the revision the store remembers was not last moved by a compaction that found a newer one. */
  lemma CommitSawCurrent(c: Config, first: RunState, w: Watched, i: nat, input: Input, fault: Fault)
    requires WatchedReachable(c, first, w) && Matches(w) && i < |w.writers|
    requires Next(c, w.system, StepCommit(i, input, fault)).history != w.system.history
    ensures w.writers[i].seen == Some(|w.system.history|) <==> !w.writers[i].skipped
  {
    hide Reachable, Commit, Good;
    var s := w.system;
    WatchedIsSafe(c, first, w);
    ReachableIsSafe(c, first, s);
    CommitKeeps(c, first, s.history, s.disk, s.stores[i], input, fault);
    RevisionsAreUnique(c, first, s, |s.history|, |s.history|);
    assert WriterOk(first, s, s.stores[i], w.writers[i]);
  }

  /** A successful commit is such a commit. */
  lemma SuccessIsJournalled(c: Config, first: RunState, s: System, i: nat, input: Input, fault: Fault)
    requires Reachable(c, first, s) && i < |s.stores| && Commit(c, s.disk, s.stores[i], input, fault).result.Ok?
    ensures Next(c, s, StepCommit(i, input, fault)).history != s.history
  {
    hide Reachable, Commit;
    CommitIsExact(c, first, s, i, input, fault);
  }

  /** Whatever a store has seen, after a compaction of its own it may commit over the last durable state. */
  lemma CompactThenCommit(c: Config, first: RunState, s: System, i: nat, input: Input)
    requires Reachable(c, first, s) && i < |s.stores| && s.stores[i].loaded && Healthy(s.disk)
    requires input.state.runId == c.runId && EffectsOk(c, input.effects)
    requires input.expectedRevision == Durable(first, s).revision && input.state.revision == input.expectedRevision + 1
    ensures var t := Next(c, s, StepCompact(i, NoFault)); Commit(c, t.disk, t.stores[i], input, NoFault).result.Ok?
  {
    hide Good, Compact, Commit, EffectsOk, Reachable, CompactWrites, Between, AllProjected;
    var t := Next(c, s, StepCompact(i, NoFault));
    ReachableIsSafe(c, first, s);
    CompactKeeps(c, first, s.history, s.disk, s.stores[i], NoFault);
    ReachableGoesOn(c, first, s, StepCompact(i, NoFault));
    CommitIsExact(c, first, t, i, input, NoFault);
  }

  function Blank(c: Config, revision: int): Input {
    Input("", revision, RunState(c.runId, revision + 1, ""), [])
  }

  /** Such a commit happens: store 0 holds the first state, store 1 commits the next one, store 0 compacts and
      commits on top of a state that it was never given. */
  lemma StaleStoreCommits(c: Config, first: RunState) returns (w: Watched)
    requires first.runId == c.runId && first.revision >= 0 && EffectsOk(c, [])
    ensures WatchedReachable(c, first, w) && Matches(w) && |w.writers| == 2 && |w.system.history| == 1
    ensures w.writers[0] == Writer(Some(0), true)
    ensures Commit(c, w.system.disk, w.system.stores[0], Blank(c, first.revision + 1), NoFault).result.Ok?
  {
    hide Good, Commit, Compact, Load, EffectsOk, Reachable, WatchedReachable, CompactWrites, Between, AllProjected;
    var w0 := WatchedInit(c, first);
    StartIsReachable(c, first);
    var w1 := Follow(c, first, w0, StepOpen);
    var w2 := Follow(c, first, w1, StepLoad(1, NoFault));
    LoadKeeps(c, first, [], w1.system.disk, w1.system.stores[1], NoFault);
    var w3 := Follow(c, first, w2, StepCommit(1, Blank(c, first.revision), NoFault));
    CommitIsExact(c, first, w2.system, 1, Blank(c, first.revision), NoFault);
    CommitKeeps(c, first, [], w2.system.disk, w2.system.stores[1], Blank(c, first.revision), NoFault);
    w := Follow(c, first, w3, StepCompact(0, NoFault));
    CompactKeeps(c, first, w3.system.history, w3.system.disk, w3.system.stores[0], NoFault);
    CompactThenCommit(c, first, w3.system, 0, Blank(c, first.revision + 1));
  }

  lemma StartIsReachable(c: Config, first: RunState)
    requires first.runId == c.runId && first.revision >= 0
    ensures WatchedReachable(c, first, WatchedInit(c, first)) && Healthy(Init(c, first).disk)
  {
    var w := WatchedInit(c, first);
    assert WatchedRun(c, first, [w], []) && [w][|[w]| - 1] == w;
  }

  lemma Follow(c: Config, first: RunState, w: Watched, step: Step) returns (next: Watched)
    requires WatchedReachable(c, first, w) && Matches(w) && Enabled(w.system, step)
    ensures next == WatchedNext(c, first, w, step) && WatchedReachable(c, first, next) && Matches(next)
    ensures SystemOk(c, first, w.system) && Reachable(c, first, w.system)
    ensures SystemOk(c, first, next.system) && Reachable(c, first, next.system)
  {
    hide WatchedReachable, WatchedNext, Enabled, Good;
    next := WatchedNext(c, first, w, step);
    WatchedGoesOn(c, first, w, step);
    WatchedIsSafe(c, first, w);
    WatchedIsSafe(c, first, next);
    ReachableIsSafe(c, first, w.system);
    ReachableIsSafe(c, first, next.system);
  }
}
