/** Every operation of a run store, stopped by any fault, keeps the files, the history and the projection
    consistent. */
module RunStoreSteps {
  import opened RunStoreModel
  import opened RunStoreFiles
  import opened RunStoreProjection
  import opened Wrappers

  ghost predicate Good(c: Config, first: RunState, history: seq<Record>, d: Disk) {
    HistoryOk(c, first, history) && FilesOk(c, first, history, d) && EventsOk(Intents(c, history), d)
  }

  ghost predicate AllProjected(c: Config, history: seq<Record>, d: Disk) {
    ProjectedUpTo(Intents(c, history), d, |Intents(c, history)|)
  }

  lemma InitIsGood(c: Config, first: RunState)
    ensures Good(c, first, [], Init(c, first).disk)
  {}

  // ---------------------------------------------------------------- single writes

  lemma MoreIntents(c: Config, history: seq<Record>, record: Record, d: Disk)
    requires Numbered(history, 0) && record.sequence == |history| + 1 && Covered(d) <= |history|
    requires EventsOk(Intents(c, history), d)
    ensures EventsOk(Intents(c, history + [record]), d)
  {
    hide Events, HasEvent, Intents;
    var less, more := Intents(c, history), Intents(c, history + [record]);
    IntentsConcat(c, history, [record]);
    IntentsInOrder(c, history, 0);
    IntentsInOrder(c, [record], |history|);
    forall k | 0 <= k < |more| && Settled(d, more[k])
      ensures HasEvent(d.events, more[k].event.id)
    {
      assert k < |less|;
    }
    forall i | 0 <= i < |Events(d.events)|
      ensures IsIntended(more, Events(d.events)[i])
    {
      var k :| 0 <= k < |less| && less[k].event == Events(d.events)[i];
      assert more[k].event == Events(d.events)[i];
    }
    if d.cursor.Some? {
      var k :| 0 <= k < |less| && less[k].at == d.cursor.value;
      assert more[k].at == d.cursor.value;
    }
  }

  lemma HistoryGrows(c: Config, first: RunState, history: seq<Record>, record: Record)
    requires HistoryOk(c, first, history) && RecordOk(c, record, HeadAt(c, history, |history|))
    requires record.revision == first.revision + |history| + 1
    ensures HistoryOk(c, first, history + [record])
  {
    ChainExtends(c, Genesis(c), history, record);
    hide ChainOk, EffectsOk;
  }

  lemma JournalGrows(c: Config, first: RunState, history: seq<Record>, d: Disk, record: Record)
    requires FilesOk(c, first, history, d)
    ensures FilesOk(c, first, history + [record], Apply(d, AppendRecord(record)))
  {
    var e, longer := Apply(d, AppendRecord(record)), history + [record];
    assert longer[|longer| - |e.journal|..] == history[|history| - |d.journal|..] + [record];
  }

  lemma AppendKeeps(c: Config, first: RunState, history: seq<Record>, d: Disk, record: Record)
    requires Good(c, first, history, d) && RecordOk(c, record, HeadAt(c, history, |history|))
    requires record.revision == first.revision + |history| + 1
    ensures Good(c, first, history + [record], Apply(d, AppendRecord(record)))
    ensures Healthy(d) ==> Healthy(Apply(d, AppendRecord(record)))
  {
    HistoryGrows(c, first, history, record);
    JournalGrows(c, first, history, d, record);
    hide ChainOk, EventsOk, EffectsOk;
    MoreIntents(c, history, record, d);
    SameEvents(Intents(c, history + [record]), d, Apply(d, AppendRecord(record)));
  }

  /** What the projection says depends on the event file, the cursor and the checkpoint only. */
  lemma SameEvents(intents: seq<Intent>, d: Disk, e: Disk)
    requires EventsOk(intents, d) && d.events == e.events && d.cursor == e.cursor && Covered(d) == Covered(e)
    ensures EventsOk(intents, e)
  {}

  function LastSnapshot(c: Config, first: RunState, history: seq<Record>): Snapshot {
    Snapshot(StateAt(first, history, |history|), HeadAt(c, history, |history|))
  }

  lemma SnapshotKeeps(c: Config, first: RunState, history: seq<Record>, d: Disk)
    requires Good(c, first, history, d)
    ensures Good(c, first, history, Apply(d, WriteSnapshot(LastSnapshot(c, first, history))))
  {
    hide ChainOk, EventsOk, RecordOk;
    SameEvents(Intents(c, history), d, Apply(d, WriteSnapshot(LastSnapshot(c, first, history))));
  }

  /** The effects of a history, split at the checkpoint. */
  lemma SplitAt(c: Config, history: seq<Record>, n: nat)
    requires Numbered(history, 0) && n <= |history|
    ensures var intents, below := Intents(c, history), |Intents(c, history[..n])|;
            InOrder(intents) && below <= |intents| && intents[below..] == Intents(c, history[n..]) &&
            forall k :: 0 <= k < below ==> intents[k].at.sequence <= n
  {
    hide Intents;
    assert history == history[..n] + history[n..];
    IntentsConcat(c, history[..n], history[n..]);
    IntentsInOrder(c, history, 0);
    IntentsInOrder(c, history[..n], 0);
    forall k | 0 <= k < |Intents(c, history[..n])|
      ensures Intents(c, history)[k] == Intents(c, history[..n])[k]
    {
    }
  }

  /** The projection of everything above the checkpoint. */
  lemma ProjectVisible(c: Config, first: RunState, history: seq<Record>, d: Disk, fault: Fault)
    requires Good(c, first, history, d)
    ensures Covered(d) <= |history|
    ensures var writes := Projection(d, Intents(c, history[Covered(d)..])); var e := Perform(d, writes, fault);
            e == d.(events := e.events, cursor := e.cursor) && Good(c, first, history, e) &&
            (!Hits(fault, writes) ==> AllProjected(c, history, e))
  {
    hide ChainOk, RecordOk, Events, HasEvent, Projection, Perform, Intents, Healthy, Applied;
    SplitAt(c, history, Covered(d));
    ProjectionKeeps(Intents(c, history), d, |Intents(c, history[..Covered(d)])|, fault);
  }

  /** A checkpoint of the whole history may be written once everything is projected. */
  lemma CheckpointKeeps(c: Config, first: RunState, history: seq<Record>, d: Disk, revision: int)
    requires Good(c, first, history, d) && AllProjected(c, history, d) && d.snapshot == LastSnapshot(c, first, history)
    ensures var e := Apply(d, WriteCheckpoint(Checkpoint(HeadAt(c, history, |history|), revision)));
            Good(c, first, history, e) && Good(c, first, history, Apply(e, EmptyJournal))
  {
    hide ChainOk, RecordOk, Events, HasEvent;
    var e := Apply(d, WriteCheckpoint(Checkpoint(HeadAt(c, history, |history|), revision)));
    assert EventsOk(Intents(c, history), e);
    SameEvents(Intents(c, history), e, Apply(e, EmptyJournal));
    assert history[|history|..] == [];
    assert Covered(e) == |history|;
  }

  // ---------------------------------------------------------------- commit

  /** A commit is accepted exactly under these conditions, all of which the caller can check. */
  ghost predicate Acceptable(c: Config, first: RunState, history: seq<Record>, d: Disk, store: Instance, input: Input) {
    Healthy(d) && store.loaded && input.state.runId == c.runId && EffectsOk(c, input.effects) &&
    StateAt(first, history, |history|).revision == input.expectedRevision == store.lastRevision &&
    input.state.revision == input.expectedRevision + 1
  }

  lemma PlanCommitIs(c: Config, first: RunState, history: seq<Record>, d: Disk, store: Instance, input: Input)
    requires Good(c, first, history, d)
    ensures var plan := PlanCommit(c, d, store, input);
            if Acceptable(c, first, history, d, store, input)
            then plan == Ok((NextRecord(c, HeadAt(c, history, |history|), input), history[Covered(d)..]))
            else plan.Err?
  {
    hide ReadSuffix, HistoryOk, EventsOk, EffectsOk, LastState, LastHead;
    if Healthy(d) {
      SuffixIs(c, first, history, d);
      LastIs(c, first, history, d);
    } else {
      UnhealthyIsUnreadable(c, first, history, d, Some(d.snapshot.head));
    }
  }

  lemma NextRecordIsOk(c: Config, head: Head, input: Input)
    requires input.state.runId == c.runId && EffectsOk(c, input.effects) &&
             input.state.revision == input.expectedRevision + 1
    ensures RecordOk(c, NextRecord(c, head, input), head)
  {
    hide EffectsOk;
    var record := NextRecord(c, head, input);
    assert record.(hash := "") ==
      Record(head.sequence + 1, input.transitionId, input.expectedRevision, input.state.revision,
                                         head.hash, input.state, input.effects, "");
  }

  /** Which fault leaves the journal without its last newline. */
  predicate TearsJournal(fault: Fault) {
    fault.Fault? && fault.at == 0 && (fault.tear.PartOfLine? || fault.tear.AllButNewline?)
  }

  /** Which fault stops a commit before its record is in the journal. */
  predicate BeforeRecord(fault: Fault) {
    fault.Fault? && fault.at == 0 && !fault.tear.Everything?
  }

  lemma CommitKeeps(c: Config, first: RunState, history: seq<Record>, d: Disk, store: Instance, input: Input,
      fault: Fault)
    requires Good(c, first, history, d)
    ensures var out := Commit(c, d, store, input, fault); var after := Recorded(history, d, out.disk);
            Good(c, first, after, out.disk) && |out.disk.journal| <= |d.journal| + 1 &&
            (!Acceptable(c, first, history, d, store, input) ==>
               out.disk == d && out.store == store && out.result.Err?) &&
            (Acceptable(c, first, history, d, store, input) ==>
               after == (if BeforeRecord(fault) then history
                         else history + [NextRecord(c, HeadAt(c, history, |history|), input)]) &&
               (Healthy(out.disk) <==> !TearsJournal(fault)) &&
               out.result == (if fault.Fault? && fault.at < 2 then Err(Interrupted) else Ok(after[|after| - 1])) &&
               out.store == (if fault.Fault? && fault.at < 2 then store
                             else store.(lastRevision := input.state.revision)) &&
               (fault.NoFault? ==> AllProjected(c, after, out.disk)))
  {
    hide Good, PlanCommit, Acceptable, HeadAt, AllProjected;
    PlanCommitIs(c, first, history, d, store, input);
    if Acceptable(c, first, history, d, store, input) {
      CommitWritesKeep(c, first, history, d, store, input, fault);
    }
  }

  /** The disk after the journal append, after the snapshot as well, and after an append that failed. */
  lemma FirstWritesKeep(c: Config, first: RunState, history: seq<Record>, d: Disk, record: Record, tear: Tear)
    requires Good(c, first, history, d) && Healthy(d) && RecordOk(c, record, HeadAt(c, history, |history|))
    requires record.revision == first.revision + |history| + 1
    ensures var d1 := Apply(d, AppendRecord(record));
            var d2 := Apply(d1, WriteSnapshot(Snapshot(record.state, HeadOf(record))));
            var torn := ApplyTorn(d, AppendRecord(record), tear);
            Good(c, first, history + [record], d1) && Healthy(d1) && Good(c, first, history + [record], d2) &&
            Healthy(d2) &&
            (!tear.Everything? ==>
               Good(c, first, history, torn) && (Healthy(torn) <==> tear.Nothing? || tear.LinePrefix?)) &&
            history[Covered(d)..] + [record] == (history + [record])[Covered(d2)..]
  {
    hide Good, RecordOk, HistoryOk, FilesOk;
    AppendKeeps(c, first, history, d, record);
    SnapshotKeeps(c, first, history + [record], Apply(d, AppendRecord(record)));
    assert LastSnapshot(c, first, history + [record]) == Snapshot(record.state, HeadOf(record));
    CoveredWithin(c, first, history, d);
    if !tear.Everything? {
      TornAppendKeeps(c, first, history, d, ApplyTorn(d, AppendRecord(record), tear));
    }
  }

  lemma CommitWritesKeep(c: Config, first: RunState, history: seq<Record>, d: Disk, store: Instance, input: Input,
      fault: Fault)
    requires Good(c, first, history, d) && Acceptable(c, first, history, d, store, input)
    ensures var record := NextRecord(c, HeadAt(c, history, |history|), input);
            Covered(d) <= |history| &&
            var e := Perform(d, CommitWrites(c, d, record, history[Covered(d)..]), fault);
            Good(c, first, if BeforeRecord(fault) then history else history + [record], e) &&
            |e.journal| == |d.journal| + (if BeforeRecord(fault) then 0 else 1) &&
            (!BeforeRecord(fault) ==> e.journal[|e.journal| - 1] == record) &&
            (Healthy(e) <==> !TearsJournal(fault)) &&
            (fault.NoFault? ==> AllProjected(c, history + [record], e))
  {
    hide Good, RecordOk, HeadAt, StateAt, EffectsOk, Projection, AllProjected, Covered, Intents, CommitWrites, Perform,
         NextRecord;
    var record := NextRecord(c, HeadAt(c, history, |history|), input);
    NextRecordFits(c, first, history, d, store, input);
    CoveredWithin(c, first, history, d);
    FirstWritesKeep(c, first, history, d, record, if fault.Fault? then fault.tear else Nothing);
    CommitShape(c, d, record, history[Covered(d)..], fault);
    var d2 := Apply(Apply(d, AppendRecord(record)), WriteSnapshot(Snapshot(record.state, HeadOf(record))));
    ProjectVisible(c, first, history + [record], d2, Shifted(fault, 2));
  }

  /** A commit is stopped at its first write, at its second one, or in its projection. */
  lemma CommitShape(c: Config, d: Disk, record: Record, pending: seq<Record>, fault: Fault)
    ensures var append, snapshot := AppendRecord(record), WriteSnapshot(Snapshot(record.state, HeadOf(record)));
            var d1 := Apply(d, append);
            var d2 := Apply(d1, snapshot);
            Perform(d, CommitWrites(c, d, record, pending), fault) ==
              if fault.Fault? && fault.at == 0 then ApplyTorn(d, append, fault.tear)
              else if fault.Fault? && fault.at == 1 then ApplyTorn(d1, snapshot, fault.tear)
              else Perform(d2, Projection(d2, Intents(c, pending + [record])), Shifted(fault, 2))
  {
    var append, snapshot := AppendRecord(record), WriteSnapshot(Snapshot(record.state, HeadOf(record)));
    PerformPair(d, append, snapshot, NoFault);
    PerformPair(d, append, snapshot, fault);
    var d2 := Perform(d, [append, snapshot], NoFault);
    PerformBoth(d, [append, snapshot], Projection(d2, Intents(c, pending + [record])), fault);
    hide Perform, Projection, Intents, Apply, ApplyTorn;
  }

  lemma NextRecordFits(c: Config, first: RunState, history: seq<Record>, d: Disk, store: Instance, input: Input)
    requires Good(c, first, history, d) && Acceptable(c, first, history, d, store, input)
    ensures var record := NextRecord(c, HeadAt(c, history, |history|), input);
            Healthy(d) && RecordOk(c, record, HeadAt(c, history, |history|)) &&
            record.revision == first.revision + |history| + 1
  {
    hide EffectsOk, RecordOk, ChainOk, FilesOk, EventsOk;
    NextRecordIsOk(c, HeadAt(c, history, |history|), input);
  }

  lemma CoveredWithin(c: Config, first: RunState, history: seq<Record>, d: Disk)
    requires Good(c, first, history, d)
    ensures Covered(d) <= |history|
  {}

  lemma TornAppendKeeps(c: Config, first: RunState, history: seq<Record>, d: Disk, e: Disk)
    requires Good(c, first, history, d) && e == d.(torn := e.torn)
    ensures Good(c, first, history, e)
  {
    hide ChainOk, RecordOk;
    SameEvents(Intents(c, history), d, e);
  }

  // ---------------------------------------------------------------- load

  lemma SnapshotIsLast(c: Config, first: RunState, history: seq<Record>, d: Disk)
    requires Good(c, first, history, d) && d.snapshot.head.sequence == |history|
    ensures d.snapshot == LastSnapshot(c, first, history)
  {}

  /** The records above the checkpoint. */
  function Visible(history: seq<Record>, d: Disk): seq<Record> {
    if Covered(d) <= |history| then history[Covered(d)..] else []
  }

  /** Bringing the snapshot up to date, unless it is and that will do, and then projecting what is visible. */
  function CatchUp(c: Config, first: RunState, history: seq<Record>, d: Disk, always: bool): seq<Write> {
    var snapshot := if !always && d.snapshot.head.sequence == |history| then []
      else [WriteSnapshot(LastSnapshot(c, first, history))];
    snapshot + Projection(Perform(d, snapshot, NoFault), Intents(c, Visible(history, d)))
  }

  lemma PerformNone(d: Disk, fault: Fault)
    ensures Perform(d, [], fault) == d
  {}

  lemma PerformOne(d: Disk, w: Write, fault: Fault)
    ensures Perform(d, [w], fault) == if fault.Fault? && fault.at == 0 then ApplyTorn(d, w, fault.tear) else Apply(d, w)
  {}

  lemma CatchUpKeeps(c: Config, first: RunState, history: seq<Record>, d: Disk, always: bool, fault: Fault)
    requires Good(c, first, history, d)
    ensures var writes := CatchUp(c, first, history, d, always); var e := Perform(d, writes, fault);
            e == d.(snapshot := e.snapshot, events := e.events, cursor := e.cursor) && Good(c, first, history, e) &&
            (!Hits(fault, writes) ==> AllProjected(c, history, e) && e.snapshot == LastSnapshot(c, first, history))
  {
    hide Good, AllProjected, Projection, Intents, LastSnapshot;
    CoveredWithin(c, first, history, d);
    var last := WriteSnapshot(LastSnapshot(c, first, history));
    SnapshotKeeps(c, first, history, d);
    if d.snapshot.head.sequence == |history| {
      SnapshotIsLast(c, first, history, d);
    }
    var snapshot := if !always && d.snapshot.head.sequence == |history| then [] else [last];
    var e := Perform(d, snapshot, NoFault);
    PerformOne(d, last, NoFault);
    PerformOne(d, last, fault);
    hide Perform;
    assert snapshot == [] ==> e == d && !Hits(fault, snapshot) by {
      PerformNone(d, NoFault);
    }
    ProjectVisible(c, first, history, e, Shifted(fault, |snapshot|));
    PerformBoth(d, snapshot, Projection(e, Intents(c, history[Covered(d)..])), fault);
  }

  lemma LoadKeeps(c: Config, first: RunState, history: seq<Record>, d: Disk, store: Instance, fault: Fault)
    requires Good(c, first, history, d)
    ensures var out := Load(c, d, store, fault);
            out.disk == d.(snapshot := out.disk.snapshot, events := out.disk.events, cursor := out.disk.cursor) &&
            Good(c, first, history, out.disk) &&
            (!Healthy(d) ==> out.disk == d && out.result.Err? && out.store == store.(loaded := true)) &&
            (Healthy(d) ==>
               var last := StateAt(first, history, |history|);
               (fault.NoFault? ==> out.result.Ok?) &&
               if out.result.Ok?
               then out.result == Ok(last) && out.store == Instance(true, last.revision) &&
                    AllProjected(c, history, out.disk)
               else out.result == Err(Interrupted) && out.store == store.(loaded := true))
  {
    hide Good, ReadSuffix, AllProjected, Projection, Intents, Perform, LastState, LastHead;
    CoveredWithin(c, first, history, d);
    if Healthy(d) {
      BothSuffixes(c, first, history, d);
      assert LoadWrites(c, d, history[d.snapshot.head.sequence..], history[Covered(d)..]) ==
        CatchUp(c, first, history, d, false);
      CatchUpKeeps(c, first, history, d, false, fault);
    } else {
      BothSuffixes(c, first, history, d);
    }
  }

  /** What the operations read before they write. */
  lemma BothSuffixes(c: Config, first: RunState, history: seq<Record>, d: Disk)
    requires Good(c, first, history, d)
    ensures Covered(d) <= d.snapshot.head.sequence <= |history|
    ensures Healthy(d) ==>
              ReadSuffix(c, d, Some(d.snapshot.head)) == Ok(history[d.snapshot.head.sequence..]) &&
              ReadSuffix(c, d, None) == Ok(history[Covered(d)..]) &&
              Snapshot(LastState(history[d.snapshot.head.sequence..], d),
                       LastHead(history[d.snapshot.head.sequence..], d)) ==
                LastSnapshot(c, first, history)
    ensures !Healthy(d) ==> ReadSuffix(c, d, Some(d.snapshot.head)).Err?
  {
    hide ReadSuffix, ChainOk, EventsOk, HistoryOk;
    if Healthy(d) {
      SuffixIs(c, first, history, d);
      LastIs(c, first, history, d);
    } else {
      UnhealthyIsUnreadable(c, first, history, d, Some(d.snapshot.head));
    }
  }

  // ---------------------------------------------------------------- compact

  /** A fault that leaves the new checkpoint beside the old journal, in an operation of n writes. */
  predicate Between(fault: Fault, n: nat) {
    fault.Fault? && ((fault.at == n - 1 && !fault.tear.Everything?) || (fault.at == n - 2 && fault.tear.Everything?))
  }

  /** A journal that has been compacted before no longer starts at sequence 1. */
  predicate SecondCompaction(d: Disk) { d.journal != [] && d.journal[0].sequence != 1 }

  lemma CompactKeeps(c: Config, first: RunState, history: seq<Record>, d: Disk, store: Instance, fault: Fault)
    requires Good(c, first, history, d)
    ensures Covered(d) <= d.snapshot.head.sequence <= |history|
    ensures var out := Compact(c, d, store, fault);
            Good(c, first, history, out.disk) && |out.disk.journal| <= |d.journal| && (out.disk.torn ==> d.torn) &&
            (!Healthy(d) || !store.loaded ==> out == Outcome(d, store, out.result) && out.result.Err?) &&
            (Healthy(d) && store.loaded ==>
               var writes := CompactWrites(c, d, history[d.snapshot.head.sequence..], history[Covered(d)..]);
               (Healthy(out.disk) <==> !(Between(fault, |writes|) && SecondCompaction(d))) &&
               if Hits(fault, writes) then out.result == Err(Interrupted) && out.store == store
               else out.result == Ok(()) &&
                    out.store == store.(lastRevision := StateAt(first, history, |history|).revision) &&
                    AllProjected(c, history, out.disk) && out.disk.journal == [] &&
                    out.disk.snapshot == LastSnapshot(c, first, history))
  {
    hide Good, ReadSuffix, AllProjected, Perform, CompactWrites, LastState, LastHead, Between;
    BothSuffixes(c, first, history, d);
    if Healthy(d) && store.loaded {
      CompactWritesKeep(c, first, history, d, fault);
    }
  }

  lemma CompactWritesKeep(c: Config, first: RunState, history: seq<Record>, d: Disk, fault: Fault)
    requires Good(c, first, history, d) && Healthy(d)
    ensures Covered(d) <= d.snapshot.head.sequence <= |history|
    ensures var writes := CompactWrites(c, d, history[d.snapshot.head.sequence..], history[Covered(d)..]);
            var e := Perform(d, writes, fault);
            Good(c, first, history, e) && |e.journal| <= |d.journal| && (e.torn ==> d.torn) &&
            (Healthy(e) <==> !(Between(fault, |writes|) && SecondCompaction(d))) &&
            (!Hits(fault, writes) ==>
               AllProjected(c, history, e) && e.journal == [] && e.snapshot == LastSnapshot(c, first, history))
  {
    hide Good, AllProjected, Projection, Intents, Perform, LastSnapshot, HeadAt, CatchUp, CompactWrites, Visible;
    BothSuffixes(c, first, history, d);
    var last := LastSnapshot(c, first, history);
    var catchUp := CatchUp(c, first, history, d, true);
    var checkpoint := WriteCheckpoint(Checkpoint(last.head, last.state.revision));
    CompactWritesAre(c, first, history, d);
    CatchUpKeeps(c, first, history, d, true, NoFault);
    CatchUpKeeps(c, first, history, d, true, fault);
    var e := Perform(d, catchUp, NoFault);
    CheckpointAt(c, first, history, d, e);
    PerformBoth(d, catchUp, [checkpoint, EmptyJournal], fault);
    PerformPair(e, checkpoint, EmptyJournal, Shifted(fault, |catchUp|));
  }

  lemma CompactWritesAre(c: Config, first: RunState, history: seq<Record>, d: Disk)
    requires Good(c, first, history, d) && Healthy(d) && Covered(d) <= d.snapshot.head.sequence <= |history|
    ensures var last := LastSnapshot(c, first, history);
            CompactWrites(c, d, history[d.snapshot.head.sequence..], history[Covered(d)..]) ==
            CatchUp(c, first, history, d, true) +
            [WriteCheckpoint(Checkpoint(last.head, last.state.revision)), EmptyJournal]
  {
    hide Good, AllProjected, Projection, Intents, Perform, LastState, LastHead, LastSnapshot, HeadAt;
    BothSuffixes(c, first, history, d);
  }

  /** The two last writes of a compaction, and what lies between them. */
  lemma CheckpointAt(c: Config, first: RunState, history: seq<Record>, d: Disk, e: Disk)
    requires Good(c, first, history, d) && Good(c, first, history, e) && AllProjected(c, history, e) && Healthy(d)
    requires e == d.(snapshot := e.snapshot, events := e.events, cursor := e.cursor) &&
             e.snapshot == LastSnapshot(c, first, history)
    ensures var last := LastSnapshot(c, first, history);
            var between := Apply(e, WriteCheckpoint(Checkpoint(last.head, last.state.revision)));
            var after := Apply(between, EmptyJournal);
            Good(c, first, history, between) && (Healthy(between) <==> !SecondCompaction(d)) &&
            Good(c, first, history, after) && Healthy(after) && AllProjected(c, history, after)
  {
    hide Good, Events, Intents, ProjectedUpTo;
    CheckpointKeeps(c, first, history, e, LastSnapshot(c, first, history).state.revision);
    JournalStart(c, first, history, d);
    var checkpoint := Checkpoint(HeadAt(c, history, |history|), LastSnapshot(c, first, history).state.revision);
    SameProjected(c, history, e, Apply(Apply(e, WriteCheckpoint(checkpoint)), EmptyJournal));
  }

  lemma SameProjected(c: Config, history: seq<Record>, d: Disk, e: Disk)
    requires AllProjected(c, history, d) && e.events == d.events
    ensures AllProjected(c, history, e)
  {}

  lemma JournalStart(c: Config, first: RunState, history: seq<Record>, d: Disk)
    requires Good(c, first, history, d)
    ensures HeadAt(c, history, |history|).sequence == |history|
    ensures d.journal != [] ==> 1 <= d.journal[0].sequence <= |history|
  {
    hide EventsOk, ChainOk;
    if d.journal != [] {
      assert d.journal[0] == history[|history| - |d.journal|];
    }
  }
}
