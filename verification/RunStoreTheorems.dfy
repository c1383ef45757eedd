/** What the run store guarantees over every run: any interleaving of its operations by several instances,
    each stopped by any fault. */
module RunStoreTheorems {
  import opened RunStoreModel
  import opened RunStoreFiles
  import opened RunStoreProjection
  import opened RunStoreSteps
  import opened Wrappers

  // ---------------------------------------------------------------- every reachable state

  ghost predicate SystemOk(c: Config, first: RunState, s: System) { Good(c, first, s.history, s.disk) }

  lemma NextKeeps(c: Config, first: RunState, s: System, step: Step)
    requires SystemOk(c, first, s) && Enabled(s, step)
    ensures SystemOk(c, first, Next(c, s, step))
    ensures s.history <= Next(c, s, step).history
  {
    hide Good, Commit, Load, Compact;
    match step
    case StepOpen =>
    case StepCommit(i, input, fault) => CommitKeeps(c, first, s.history, s.disk, s.stores[i], input, fault);
    case StepLoad(i, fault) => LoadKeeps(c, first, s.history, s.disk, s.stores[i], fault);
    case StepCompact(i, fault) => CompactKeeps(c, first, s.history, s.disk, s.stores[i], fault);
  }

  /** In every run the files stay consistent with the history of journalled records, and that history only grows. */
  lemma {:induction false} RunIsSafe(c: Config, first: RunState, states: seq<System>, steps: seq<Step>, m: nat, n: nat)
    requires Run(c, first, states, steps) && m <= n < |states|
    ensures SystemOk(c, first, states[n])
    ensures states[m].history <= states[n].history
    decreases n
  {
    hide Good, Next, Enabled;
    if n == 0 {
      InitIsGood(c, first);
    } else if m < n {
      RunIsSafe(c, first, states, steps, m, n - 1);
      NextKeeps(c, first, states[n - 1], steps[n - 1]);
    } else {
      RunIsSafe(c, first, states, steps, m - 1, n - 1);
      NextKeeps(c, first, states[n - 1], steps[n - 1]);
    }
  }

  lemma ReachableIsSafe(c: Config, first: RunState, s: System)
    requires Reachable(c, first, s)
    ensures SystemOk(c, first, s)
  {
    hide Good, Next, Enabled;
    var states, steps :| Run(c, first, states, steps) && states[|states| - 1] == s;
    RunIsSafe(c, first, states, steps, 0, |states| - 1);
  }

  lemma ReachableGoesOn(c: Config, first: RunState, s: System, step: Step)
    requires Reachable(c, first, s) && Enabled(s, step)
    ensures Reachable(c, first, Next(c, s, step))
  {
    hide Next, Enabled, Init;
    var states, steps :| Run(c, first, states, steps) && states[|states| - 1] == s;
    var longer, more := states + [Next(c, s, step)], steps + [step];
    forall n | 0 <= n < |more|
      ensures Enabled(longer[n], more[n]) && longer[n + 1] == Next(c, longer[n], more[n])
    {
      if n < |steps| {
        assert longer[n] == states[n] && longer[n + 1] == states[n + 1] && more[n] == steps[n];
      }
    }
    assert Run(c, first, longer, more) && longer[|longer| - 1] == Next(c, s, step);
  }

  // ---------------------------------------------------------------- recovery

  function Durable(first: RunState, s: System): RunState { StateAt(first, s.history, |s.history|) }

  /** From every reachable state, crash or no crash, a load that is not stopped returns exactly the state
      that was journalled last, if and only if the journal is readable; and then every effect of every
      transition is on disk. */
  lemma LoadRecovers(c: Config, first: RunState, s: System, store: Instance)
    requires Reachable(c, first, s)
    ensures var out := Load(c, s.disk, store, NoFault);
            (out.result.Ok? <==> Healthy(s.disk)) &&
            (out.result.Ok? ==>
               out.result.value == Durable(first, s) && out.store == Instance(true, Durable(first, s).revision) &&
                                ExactlyOnce(c, s.history, out.disk))
  {
    hide Good, Load;
    ReachableIsSafe(c, first, s);
    LoadKeeps(c, first, s.history, s.disk, store, NoFault);
    if Healthy(s.disk) {
      AllMeansExactlyOnce(c, first, s.history, Load(c, s.disk, store, NoFault).disk);
    }
  }

  /** A load that is stopped loses nothing: the next one still returns the same state. */
  lemma StoppedLoadIsHarmless(c: Config, first: RunState, s: System, i: nat, fault: Fault, store: Instance)
    requires Reachable(c, first, s) && i < |s.stores|
    ensures var t := Next(c, s, StepLoad(i, fault));
            (Load(c, s.disk, store, NoFault).result.Ok? <==> Load(c, t.disk, store, NoFault).result.Ok?) &&
            (Load(c, s.disk, store, NoFault).result.Ok? ==>
              Load(c, t.disk, store, NoFault).result == Load(c, s.disk, store, NoFault).result)
  {
    hide Good, Load;
    var t := Next(c, s, StepLoad(i, fault));
    ReachableIsSafe(c, first, s);
    LoadKeeps(c, first, s.history, s.disk, s.stores[i], fault);
    ReachableGoesOn(c, first, s, StepLoad(i, fault));
    LoadRecovers(c, first, s, store);
    LoadRecovers(c, first, t, store);
  }

  // ---------------------------------------------------------------- commits

  /** The record of a transition: all of the input, the next number, and sealed onto what was there before. */
  predicate Carries(c: Config, history: seq<Record>, record: Record, input: Input) {
    record.transitionId == input.transitionId && record.expectedRevision == input.expectedRevision &&
    record.revision == input.state.revision && record.state == input.state && record.effects == input.effects &&
    record.sequence == |history| + 1 && record.hash == c.digest(record.(hash := "")) &&
    record.previousHash == if history == [] then c.genesis else history[|history| - 1].hash
  }

  /** A commit succeeds exactly for a store and a caller that name the revision of the last durable state,
      unless a fault stops its first two writes; it adds exactly one record, one revision higher. */
  lemma CommitIsExact(c: Config, first: RunState, s: System, i: nat, input: Input, fault: Fault)
    requires Reachable(c, first, s) && i < |s.stores|
    ensures var out := Commit(c, s.disk, s.stores[i], input, fault); var t := Next(c, s, StepCommit(i, input, fault));
            (out.result.Ok? <==>
               Acceptable(c, first, s.history, s.disk, s.stores[i], input) && !(fault.Fault? && fault.at < 2)) &&
            (out.result.Ok? ==>
              t.history == s.history + [out.result.value] && Durable(first, t) == input.state &&
              Durable(first, t).revision == Durable(first, s).revision + 1) &&
            (t.history == s.history ||
             (|t.history| == |s.history| + 1 && Durable(first, t) == input.state &&
              Carries(c, s.history, t.history[|s.history|], input)))
  {
    hide Good, Commit, Acceptable, Carries, NextRecord;
    ReachableIsSafe(c, first, s);
    CommitKeeps(c, first, s.history, s.disk, s.stores[i], input, fault);
    RevisionsAreUnique(c, first, s, |s.history|, |s.history|);
    NextCarries(c, first, s, input);
    var t := Next(c, s, StepCommit(i, input, fault));
    ReachableGoesOn(c, first, s, StepCommit(i, input, fault));
    RevisionsAreUnique(c, first, t, |t.history|, |t.history|);
  }

  lemma NextCarries(c: Config, first: RunState, s: System, input: Input)
    requires SystemOk(c, first, s)
    ensures var record := NextRecord(c, HeadAt(c, s.history, |s.history|), input);
            Carries(c, s.history, record, input) && record.state == input.state
  {
    hide ChainOk, FilesOk, EventsOk;
    var head := HeadAt(c, s.history, |s.history|);
    assert NextRecord(c, head, input).(hash := "") ==
      Record(head.sequence + 1, input.transitionId, input.expectedRevision, input.state.revision, head.hash,
             input.state, input.effects, "");
  }

  /** Along the history revisions rise by exactly one, so a revision names one durable state. */
  lemma RevisionsAreUnique(c: Config, first: RunState, s: System, m: nat, n: nat)
    requires Reachable(c, first, s) && m <= |s.history| && n <= |s.history|
    ensures StateAt(first, s.history, n).revision == first.revision + n
    ensures StateAt(first, s.history, m).revision == StateAt(first, s.history, n).revision ==> m == n
  {
    ReachableIsSafe(c, first, s);
    hide ChainOk, FilesOk, EventsOk;
  }

  /** No lost update: a commit replaces the one durable state whose revision its caller names. */
  lemma NoLostUpdate(c: Config, first: RunState, s: System, i: nat, input: Input, fault: Fault, named: nat)
    requires Reachable(c, first, s) && i < |s.stores| && named <= |s.history|
    requires input.expectedRevision == StateAt(first, s.history, named).revision
    requires Next(c, s, StepCommit(i, input, fault)).history != s.history
    ensures StateAt(first, s.history, named) == Durable(first, s)
    ensures s.stores[i].lastRevision == input.expectedRevision
  {
    hide Good, Commit;
    ReachableIsSafe(c, first, s);
    CommitKeeps(c, first, s.history, s.disk, s.stores[i], input, fault);
    RevisionsAreUnique(c, first, s, named, |s.history|);
  }

  /** After a load, the next revision can be committed. */
  lemma LoadThenCommit(c: Config, first: RunState, s: System, i: nat, input: Input)
    requires Reachable(c, first, s) && i < |s.stores| && Healthy(s.disk)
    requires input.state.runId == c.runId && EffectsOk(c, input.effects)
    requires input.expectedRevision == Durable(first, s).revision && input.state.revision == input.expectedRevision + 1
    ensures var t := Next(c, s, StepLoad(i, NoFault)); Commit(c, t.disk, t.stores[i], input, NoFault).result.Ok?
  {
    hide Good, Load, Commit, EffectsOk;
    var t := Next(c, s, StepLoad(i, NoFault));
    ReachableIsSafe(c, first, s);
    LoadKeeps(c, first, s.history, s.disk, s.stores[i], NoFault);
    ReachableGoesOn(c, first, s, StepLoad(i, NoFault));
    CommitIsExact(c, first, t, i, input, NoFault);
  }

  // ---------------------------------------------------------------- effects

  ghost predicate ExactlyOnce(c: Config, history: seq<Record>, d: Disk) {
    DistinctIds(Events(d.events)) &&
    forall k, i :: 0 <= k < |history| && 0 <= i < |history[k].effects| ==>
      HasEvent(d.events, c.eventId(history[k].effects[i].key))
  }

  lemma {:induction false} IntentIn(c: Config, history: seq<Record>, k: nat, i: nat) returns (n: nat)
    requires k < |history| && i < |history[k].effects|
    ensures n < |Intents(c, history)| && Intents(c, history)[n] == IntentOf(c, history[k], i)
    decreases k
  {
    if k == 0 {
      n := i;
    } else {
      n := IntentIn(c, history[1..], k - 1, i);
      n := n + |history[0].effects|;
    }
  }

  lemma {:induction false} IntentFrom(c: Config, history: seq<Record>, n: nat) returns (k: nat, i: nat)
    requires n < |Intents(c, history)|
    ensures k < |history| && i < |history[k].effects| && Intents(c, history)[n] == IntentOf(c, history[k], i)
    decreases |history|
  {
    if n < |history[0].effects| {
      k, i := 0, n;
    } else {
      k, i := IntentFrom(c, history[1..], n - |history[0].effects|);
      k := k + 1;
    }
  }

  lemma AllMeansExactlyOnce(c: Config, first: RunState, history: seq<Record>, d: Disk)
    requires Good(c, first, history, d) && AllProjected(c, history, d)
    ensures ExactlyOnce(c, history, d)
  {
    hide HistoryOk, FilesOk, Intents, Events, HasEvent;
    forall k, i | 0 <= k < |history| && 0 <= i < |history[k].effects|
      ensures HasEvent(d.events, c.eventId(history[k].effects[i].key))
    {
      var n := IntentIn(c, history, k, i);
    }
  }

  /** In every reachable state no event is on disk twice, and each one there stands for an effect of a
      journalled transition, with its revision and transition id. */
  lemma EventsAreGenuine(c: Config, first: RunState, s: System)
    requires Reachable(c, first, s)
    ensures DistinctIds(Events(s.disk.events))
    ensures forall n :: 0 <= n < |Events(s.disk.events)| ==> StandsForEffect(c, s.history, Events(s.disk.events)[n])
  {
    ReachableIsSafe(c, first, s);
    hide HistoryOk, FilesOk, Intents, Events, HasEvent, IsIntended, StandsForEffect, CursorOk, Settled;
    forall n | 0 <= n < |Events(s.disk.events)|
      ensures StandsForEffect(c, s.history, Events(s.disk.events)[n])
    {
      assert IsIntended(Intents(c, s.history), Events(s.disk.events)[n]);
      IntendedStands(c, s.history, Events(s.disk.events)[n]);
    }
  }

  lemma IntendedStands(c: Config, history: seq<Record>, event: Event)
    requires IsIntended(Intents(c, history), event)
    ensures StandsForEffect(c, history, event)
  {
    hide Intents;
    var j :| 0 <= j < |Intents(c, history)| && Intents(c, history)[j].event == event;
    var k, i := IntentFrom(c, history, j);
  }

  ghost predicate StandsForEffect(c: Config, history: seq<Record>, event: Event) {
    exists k, i :: 0 <= k < |history| && 0 <= i < |history[k].effects| &&
      IsEventOf(c, history[k], history[k].effects[i], event)
  }

  /** The event of an effect has the id made from the key of the effect, the revision and the id of the transition, and
      the body of the effect. */
  predicate IsEventOf(c: Config, record: Record, effect: Effect, event: Event) {
    event.id == c.eventId(effect.key) && event.revision == record.revision &&
    event.transitionId == record.transitionId && event.body == effect.event
  }

  /** A successful compaction has every effect of every transition on disk, exactly once. */
  lemma CompactProjects(c: Config, first: RunState, s: System, i: nat, fault: Fault)
    requires Reachable(c, first, s) && i < |s.stores| && Compact(c, s.disk, s.stores[i], fault).result.Ok?
    ensures var t := Next(c, s, StepCompact(i, fault));
            ExactlyOnce(c, t.history, t.disk) && t.disk.journal == [] && t.disk.snapshot.state == Durable(first, s)
  {
    hide Good, Compact;
    ReachableIsSafe(c, first, s);
    CompactKeeps(c, first, s.history, s.disk, s.stores[i], fault);
    AllMeansExactlyOnce(c, first, s.history, Compact(c, s.disk, s.stores[i], fault).disk);
  }

  /** No record leaves the journal file before all its effects are on disk. */
  lemma NothingIsDiscarded(c: Config, first: RunState, s: System, k: nat, i: nat)
    requires Reachable(c, first, s) && k < |s.history| && i < |s.history[k].effects|
    ensures s.history[k] in s.disk.journal || HasEvent(s.disk.events, c.eventId(s.history[k].effects[i].key))
  {
    ReachableIsSafe(c, first, s);
    var start := |s.history| - |s.disk.journal|;
    if k >= start {
      hide Good, Intents, Events;
      InJournal(c, first, s, k);
    } else {
      hide Intents, Events, HasEvent, ChainOk;
      var n := IntentIn(c, s.history, k, i);
      assert Settled(s.disk, Intents(c, s.history)[n]);
    }
  }

  lemma InJournal(c: Config, first: RunState, s: System, k: nat)
    requires SystemOk(c, first, s) && |s.history| - |s.disk.journal| <= k < |s.history|
    ensures s.history[k] in s.disk.journal
  {
    hide HistoryOk, EventsOk;
    assert s.disk.journal[k - (|s.history| - |s.disk.journal|)] == s.history[k];
  }

  // ---------------------------------------------------------------- when the journal stays readable

  /** Exactly two kinds of faults make the journal unreadable: one that tears the append of a record, and
      one that stops a compaction between its checkpoint and the emptying of a journal that had already
      been compacted before. */
  lemma ReadableUnless(c: Config, first: RunState, s: System, step: Step)
    requires Reachable(c, first, s) && Enabled(s, step) && Healthy(s.disk)
    ensures Healthy(Next(c, s, step).disk) <==> !Breaks(c, first, s, step)
  {
    hide Good, Commit, Load, Compact, Acceptable, Between;
    ReachableIsSafe(c, first, s);
    match step
    case StepOpen =>
    case StepCommit(i, input, fault) => CommitKeeps(c, first, s.history, s.disk, s.stores[i], input, fault);
    case StepLoad(i, fault) => LoadKeeps(c, first, s.history, s.disk, s.stores[i], fault);
    case StepCompact(i, fault) => CompactBreaks(c, first, s, i, fault);
  }

  ghost predicate Breaks(c: Config, first: RunState, s: System, step: Step)
    requires Enabled(s, step)
  {
    match step
    case StepOpen => false
    case StepCommit(i, input, fault) =>
      Acceptable(c, first, s.history, s.disk, s.stores[i], input) && TearsJournal(fault)
    case StepLoad(_, _) => false
    case StepCompact(i, fault) =>
      s.stores[i].loaded && SecondCompaction(s.disk) && Between(fault, CompactCost(c, s.disk))
  }

  /** The number of writes of a compaction. */
  function CompactCost(c: Config, d: Disk): nat {
    match (ReadSuffix(c, d, Some(d.snapshot.head)), ReadSuffix(c, d, None))
    case (Ok(suffix), Ok(pending)) => |CompactWrites(c, d, suffix, pending)|
    case _ => 0
  }

  lemma CompactBreaks(c: Config, first: RunState, s: System, i: nat, fault: Fault)
    requires SystemOk(c, first, s) && i < |s.stores| && Healthy(s.disk)
    ensures Healthy(Compact(c, s.disk, s.stores[i], fault).disk) <==>
              !(s.stores[i].loaded && SecondCompaction(s.disk) && Between(fault, CompactCost(c, s.disk)))
  {
    hide Good, ReadSuffix, Compact, CompactWrites, Between;
    BothSuffixes(c, first, s.history, s.disk);
    CompactKeeps(c, first, s.history, s.disk, s.stores[i], fault);
  }

  /** An unreadable journal stays as it is: every later operation of every store fails and changes no file. */
  lemma UnreadableForever(c: Config, first: RunState, s: System, step: Step)
    requires Reachable(c, first, s) && Enabled(s, step) && !Healthy(s.disk)
    ensures Next(c, s, step).disk == s.disk && Next(c, s, step).history == s.history
    ensures step.StepLoad? ==> Load(c, s.disk, s.stores[step.i], step.fault).result.Err?
    ensures step.StepCommit? ==> Commit(c, s.disk, s.stores[step.i], step.input, step.fault).result.Err?
    ensures step.StepCompact? ==> Compact(c, s.disk, s.stores[step.i], step.fault).result.Err?
  {
    hide Good, Commit, Load, Compact;
    ReachableIsSafe(c, first, s);
    match step
    case StepOpen =>
    case StepCommit(i, input, fault) => CommitKeeps(c, first, s.history, s.disk, s.stores[i], input, fault);
    case StepLoad(i, fault) => LoadKeeps(c, first, s.history, s.disk, s.stores[i], fault);
    case StepCompact(i, fault) => CompactKeeps(c, first, s.history, s.disk, s.stores[i], fault);
  }

  ghost predicate Ready(c: Config, first: RunState, s: System) {
    Reachable(c, first, s) && Healthy(s.disk) && |s.stores| > 0 &&
    s.stores[0] == Instance(true, Durable(first, s).revision)
  }

  lemma CommitNothing(c: Config, first: RunState, s: System) returns (t: System)
    requires Ready(c, first, s) && EffectsOk(c, [])
    ensures Ready(c, first, t) && |t.history| == |s.history| + 1 && 1 <= |t.disk.journal| <= |s.disk.journal| + 1
  {
    hide Good, Commit, EffectsOk, Reachable;
    var revision := Durable(first, s).revision;
    var input := Input("", revision, RunState(c.runId, revision + 1, ""), []);
    t := Next(c, s, StepCommit(0, input, NoFault));
    ReachableIsSafe(c, first, s);
    ReachableGoesOn(c, first, s, StepCommit(0, input, NoFault));
    CommitKeeps(c, first, s.history, s.disk, s.stores[0], input, NoFault);
    CommitIsExact(c, first, s, 0, input, NoFault);
  }

  lemma CompactReady(c: Config, first: RunState, s: System) returns (t: System)
    requires Ready(c, first, s)
    ensures Ready(c, first, t) && t.history == s.history && t.disk.journal == []
  {
    hide Good, Compact, Reachable, CompactCost;
    t := Next(c, s, StepCompact(0, NoFault));
    ReachableIsSafe(c, first, s);
    CompactKeeps(c, first, s.history, s.disk, s.stores[0], NoFault);
    ReachableGoesOn(c, first, s, StepCompact(0, NoFault));
    ReadableUnless(c, first, s, StepCompact(0, NoFault));
  }

  lemma SecondRecord(c: Config, first: RunState, s: System)
    requires SystemOk(c, first, s) && |s.history| == 2 && |s.disk.journal| == 1
    ensures SecondCompaction(s.disk)
  {
    hide EventsOk, ChainOk;
  }

  lemma CostIsPositive(c: Config, first: RunState, s: System)
    requires SystemOk(c, first, s) && Healthy(s.disk)
    ensures CompactCost(c, s.disk) > 0
  {
    hide Good, ReadSuffix;
    BothSuffixes(c, first, s.history, s.disk);
  }

  /** Such a crash can happen: commit, compact, commit, and a compaction that is stopped between its last two
      writes. No load ever succeeds again, although two transitions were durably journalled. */
  lemma SecondCompactionCanBreak(c: Config, first: RunState) returns (s: System)
    requires first.runId == c.runId && EffectsOk(c, [])
    ensures Reachable(c, first, s) && |s.history| == 2 && !s.disk.torn
    ensures forall store :: Load(c, s.disk, store, NoFault).result.Err?
  {
    var s0 := Init(c, first);
    assert Run(c, first, [s0], []) && [s0][|[s0]| - 1] == s0;
    hide Good, Load, Commit, Compact, EffectsOk, Reachable, CompactCost;
    var s1 := CommitNothing(c, first, s0);
    var s2 := CompactReady(c, first, s1);
    var s3 := CommitNothing(c, first, s2);
    ReachableIsSafe(c, first, s3);
    SecondRecord(c, first, s3);
    CostIsPositive(c, first, s3);
    var crash := StepCompact(0, Fault(CompactCost(c, s3.disk) - 1, Nothing));
    s := Next(c, s3, crash);
    ReadableUnless(c, first, s3, crash);
    ReachableGoesOn(c, first, s3, crash);
    CompactKeeps(c, first, s3.history, s3.disk, s3.stores[0], crash.fault);
    forall store
      ensures Load(c, s.disk, store, NoFault).result.Err?
    {
      LoadRecovers(c, first, s, store);
    }
  }
}
