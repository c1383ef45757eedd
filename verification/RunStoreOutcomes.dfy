/** What the operations of a store answer and leave on disk. */
module RunStoreOutcomes {
  import opened RunStoreModel
  import opened RunStoreFiles
  import opened RunStoreProjection
  import opened RunStoreReading
  import opened RunStoreSteps
  import opened RunStoreTheorems
  import opened Wrappers

  // ---------------------------------------------------------------- commits

  /** Why a commit is refused: the first of these that applies, and then nothing changes. */
  lemma CommitRefusalIs(c: Config, first: RunState, s: System, i: nat, input: Input, fault: Fault)
    requires Reachable(c, first, s) && i < |s.stores|
    ensures var out, store := Commit(c, s.disk, s.stores[i], input, fault), s.stores[i];
            if input.state.runId != c.runId then out == Outcome(s.disk, store, Err(WrongRun))
            else if !store.loaded then out == Outcome(s.disk, store, Err(NotLoaded))
            else if !Healthy(s.disk) then out == Outcome(s.disk, store, out.result) && out.result.Err?
            else if !(input.expectedRevision == store.lastRevision == Durable(first, s).revision)
            then out == Outcome(s.disk, store, Err(StaleRevision))
            else if input.state.revision != input.expectedRevision + 1
            then out == Outcome(s.disk, store, Err(BadRevision))
            else if !EffectsBounded(c, input.effects) then out == Outcome(s.disk, store, Err(BadEffects))
            else if fault.Fault? && fault.at < 2 then out.store == store && out.result == Err(Interrupted)
            else out.store == Instance(true, input.state.revision) && out.result.Ok?
  {
    hide Good, ReadSuffix, EffectsOk, EffectsBounded, CommitWrites, NextRecord, LastHead;
    ReachableIsSafe(c, first, s);
    EffectsOkIs(c, input.effects);
    BothSuffixes(c, first, s.history, s.disk);
    CommitKeeps(c, first, s.history, s.disk, s.stores[i], input, fault);
    LastStateIs(c, first, s);
  }

  lemma LastStateIs(c: Config, first: RunState, s: System)
    requires SystemOk(c, first, s)
    ensures s.disk.snapshot.head.sequence <= |s.history|
    ensures LastState(s.history[s.disk.snapshot.head.sequence..], s.disk) == Durable(first, s)
  {
    hide HistoryOk, EventsOk;
    LastIs(c, first, s.history, s.disk);
  }

  /** A commit that succeeds leaves the new state in the snapshot, with the head of its record. */
  lemma CommitLeaves(c: Config, first: RunState, s: System, i: nat, input: Input, fault: Fault)
    requires Reachable(c, first, s) && i < |s.stores| && Commit(c, s.disk, s.stores[i], input, fault).result.Ok?
    ensures var out := Commit(c, s.disk, s.stores[i], input, fault); var record := out.result.value;
            out.disk.snapshot == Snapshot(input.state, Head(record.sequence, record.hash)) &&
            out.disk.journal == s.disk.journal + [record] && out.disk.checkpoint == s.disk.checkpoint &&
            !out.disk.torn
  {
    hide Good, EffectsOk, CommitWrites, Projection, Intents, HeadAt, ReadSuffix;
    ReachableIsSafe(c, first, s);
    CommitKeeps(c, first, s.history, s.disk, s.stores[i], input, fault);
    PlanCommitIs(c, first, s.history, s.disk, s.stores[i], input);
    CoveredWithin(c, first, s.history, s.disk);
    hide PlanCommit, Perform;
    var record := NextRecord(c, HeadAt(c, s.history, |s.history|), input);
    var pending := s.history[Covered(s.disk)..];
    CommitShape(c, s.disk, record, pending, fault);
    var d2 := Apply(Apply(s.disk, AppendRecord(record)), WriteSnapshot(Snapshot(record.state, HeadOf(record))));
    ProjectionFrame(d2, Intents(c, pending + [record]), Shifted(fault, 2));
  }

  /** A projection touches the events and the cursor only. */
  lemma {:induction false} ProjectionFrame(d: Disk, intents: seq<Intent>, fault: Fault)
    ensures var e := Perform(d, Projection(d, intents), fault); e == d.(events := e.events, cursor := e.cursor)
    decreases |intents|
  {
    if intents != [] {
      var one := ProjectOne(d, intents[0]);
      var next := Perform(d, one, NoFault);
      var rest := Projection(next, intents[1..]);
      OneFrame(d, intents[0], fault);
      OneFrame(d, intents[0], NoFault);
      ProjectionFrame(next, intents[1..], Shifted(fault, |one|));
      hide Perform, ProjectOne;
      PerformBoth(d, one, rest, fault);
    } else {
      PerformNone(d, fault);
    }
  }

  lemma OneFrame(d: Disk, intent: Intent, fault: Fault)
    ensures var e := Perform(d, ProjectOne(d, intent), fault); e == d.(events := e.events, cursor := e.cursor)
  {
    hide HasEvent, Applied, Terminated;
    PerformNone(d, fault);
    PerformOne(d, WriteCursor(intent.at), fault);
    PerformPair(d, AppendEvent(intent.event), WriteCursor(intent.at), fault);
  }

  // ---------------------------------------------------------------- load

  /** A load that succeeds leaves the state it returns in the snapshot. */
  lemma LoadLeaves(c: Config, first: RunState, s: System, store: Instance, fault: Fault)
    requires Reachable(c, first, s) && Load(c, s.disk, store, fault).result.Ok?
    ensures var out := Load(c, s.disk, store, fault);
            out.disk.snapshot.state == out.result.value == Durable(first, s) &&
            out.disk.snapshot.head.sequence == |s.history| &&
            out.disk.journal == s.disk.journal && out.disk.checkpoint == s.disk.checkpoint
  {
    hide Good, ReadSuffix, AllProjected, Projection, Intents, Perform, LastState, LastHead;
    ReachableIsSafe(c, first, s);
    LoadKeeps(c, first, s.history, s.disk, store, fault);
    BothSuffixes(c, first, s.history, s.disk);
    CoveredWithin(c, first, s.history, s.disk);
    assert LoadWrites(c, s.disk, s.history[s.disk.snapshot.head.sequence..], s.history[Covered(s.disk)..]) ==
      CatchUp(c, first, s.history, s.disk, false);
    CatchUpKeeps(c, first, s.history, s.disk, false, fault);
    SnapshotOfAll(c, first, s);
  }

  lemma SnapshotOfAll(c: Config, first: RunState, s: System)
    requires SystemOk(c, first, s)
    ensures LastSnapshot(c, first, s.history).state == Durable(first, s)
    ensures LastSnapshot(c, first, s.history).head.sequence == |s.history|
  {
    hide ChainOk, FilesOk, EventsOk;
  }

  // ---------------------------------------------------------------- compaction

  /** A compaction succeeds exactly for a loaded store and a readable journal, if no fault hits its writes; then the
      last state is in the snapshot, its head and revision are in the checkpoint, and the journal is empty. */
  lemma CompactLeaves(c: Config, first: RunState, s: System, i: nat, fault: Fault)
    requires Reachable(c, first, s) && i < |s.stores|
    ensures var out, store := Compact(c, s.disk, s.stores[i], fault), s.stores[i];
            (fault.NoFault? ==> (out.result.Ok? <==> store.loaded && Healthy(s.disk))) &&
            (out.result.Err? ==> out.store == store) &&
            (out.result.Ok? ==>
               var head := if s.history == [] then Head(0, c.genesis)
                           else Head(|s.history|, s.history[|s.history| - 1].hash);
               out.store == store.(lastRevision := Durable(first, s).revision) &&
               out.disk.snapshot == Snapshot(Durable(first, s), head) &&
               out.disk.checkpoint == Some(Checkpoint(head, Durable(first, s).revision)) &&
               out.disk.journal == [] && !out.disk.torn)
  {
    hide Good, ReadSuffix, AllProjected, Perform, CompactWrites, LastState, LastHead, Between;
    ReachableIsSafe(c, first, s);
    CompactKeeps(c, first, s.history, s.disk, s.stores[i], fault);
    BothSuffixes(c, first, s.history, s.disk);
    LastHeadIs(c, first, s);
    if Compact(c, s.disk, s.stores[i], fault).result.Ok? {
      CompactEnd(c, first, s, fault);
    }
  }

  lemma LastHeadIs(c: Config, first: RunState, s: System)
    requires SystemOk(c, first, s)
    ensures HeadAt(c, s.history, |s.history|) ==
              if s.history == [] then Head(0, c.genesis) else Head(|s.history|, s.history[|s.history| - 1].hash)
  {
    hide ChainOk, FilesOk, EventsOk;
  }

  lemma CompactEnd(c: Config, first: RunState, s: System, fault: Fault)
    requires SystemOk(c, first, s) && Healthy(s.disk)
    requires Covered(s.disk) <= s.disk.snapshot.head.sequence <= |s.history|
    requires !Hits(fault, CompactWrites(c, s.disk, s.history[s.disk.snapshot.head.sequence..],
                                        s.history[Covered(s.disk)..]))
    ensures var e := Perform(s.disk, CompactWrites(c, s.disk, s.history[s.disk.snapshot.head.sequence..],
                                                   s.history[Covered(s.disk)..]), fault);
            e.checkpoint == Some(Checkpoint(HeadAt(c, s.history, |s.history|), Durable(first, s).revision)) &&
            e.journal == [] && !e.torn
  {
    hide Good, CompactWrites, CatchUp, HeadAt, Perform;
    CompactWritesAre(c, first, s.history, s.disk);
    var last := LastSnapshot(c, first, s.history);
    var checkpoint := WriteCheckpoint(Checkpoint(last.head, last.state.revision));
    var catchUp := CatchUp(c, first, s.history, s.disk, true);
    FaultBeyond(s.disk, catchUp + [checkpoint, EmptyJournal], fault);
    PerformBoth(s.disk, catchUp, [checkpoint, EmptyJournal], NoFault);
    PerformPair(Perform(s.disk, catchUp, NoFault), checkpoint, EmptyJournal, NoFault);
  }

  // ---------------------------------------------------------------- loading twice

  ghost predicate AllApplied(intents: seq<Intent>, cursor: Option<Cursor>) {
    forall k :: 0 <= k < |intents| ==> Applied(cursor, intents[k].at)
  }

  /** Cursors only move up. */
  lemma {:induction false} ProjectionApplies(d: Disk, intents: seq<Intent>, done: Cursor)
    ensures var e := Perform(d, Projection(d, intents), NoFault);
            AllApplied(intents, e.cursor) && (Applied(d.cursor, done) ==> Applied(e.cursor, done))
    decreases |intents|
  {
    if intents != [] {
      var one := ProjectOne(d, intents[0]);
      var next := Perform(d, one, NoFault);
      var rest := Projection(next, intents[1..]);
      PerformOne(d, WriteCursor(intents[0].at), NoFault);
      PerformPair(d, AppendEvent(intents[0].event), WriteCursor(intents[0].at), NoFault);
      PerformNone(d, NoFault);
      assert Applied(next.cursor, intents[0].at);
      ProjectionApplies(next, intents[1..], done);
      ProjectionApplies(next, intents[1..], intents[0].at);
      PerformBoth(d, one, rest, NoFault);
    }
  }

  lemma {:induction false} NothingToProject(d: Disk, intents: seq<Intent>)
    requires AllApplied(intents, d.cursor)
    ensures Projection(d, intents) == []
    decreases |intents|
  {
    if intents != [] {
      PerformNone(d, NoFault);
      NothingToProject(d, intents[1..]);
    }
  }

  /** A second load right after a first one finds nothing left to write, and changes nothing. */
  lemma SecondLoadWritesNothing(c: Config, first: RunState, s: System, store: Instance)
    requires Reachable(c, first, s) && Healthy(s.disk)
    ensures var d := Load(c, s.disk, store, NoFault).disk;
            d.snapshot.head.sequence <= |s.history| && Covered(d) <= |s.history| &&
            LoadWrites(c, d, s.history[d.snapshot.head.sequence..], s.history[Covered(d)..]) == [] &&
            Load(c, d, store, NoFault).disk == d
  {
    hide Good, ReadSuffix, AllProjected, Projection, Intents, Perform, LastState, LastHead;
    ReachableIsSafe(c, first, s);
    var d := Load(c, s.disk, store, NoFault).disk;
    LoadKeeps(c, first, s.history, s.disk, store, NoFault);
    LoadLeaves(c, first, s, store, NoFault);
    BothSuffixes(c, first, s.history, s.disk);
    BothSuffixes(c, first, s.history, d);
    CoveredWithin(c, first, s.history, d);
    var pending := s.history[Covered(s.disk)..];
    var snapshot := if s.disk.snapshot.head.sequence == |s.history| then []
                    else [WriteSnapshot(LastSnapshot(c, first, s.history))];
    var e := Perform(s.disk, snapshot, NoFault);
    PerformBoth(s.disk, snapshot, Projection(e, Intents(c, pending)), NoFault);
    ProjectionApplies(e, Intents(c, pending), Cursor(0, 0));
    NothingToProject(d, Intents(c, pending));
    PerformNone(d, NoFault);
  }
}
