/** The store object and the run directory it works on. Every method performs its writes one by one, and the
    directory makes one of them fail when a fault is due. */
module RunStore {
  import opened RunStoreModel
  import opened RunStoreProjection
  import opened RunStoreSteps
  import opened Wrappers

  /** The files of one run, and the fault that waits for one of the next writes. */
  class RunDirectory {
    var disk: Disk
    var fault: Fault

    constructor (d: Disk, f: Fault)
      ensures disk == d && fault == f
    {
      disk, fault := d, f;
    }

    method Write(w: Write) returns (ok: bool)
      modifies this
      ensures ok <==> !(old(fault).Fault? && old(fault).at == 0)
      ensures disk == if ok then Apply(old(disk), w) else ApplyTorn(old(disk), w, old(fault).tear)
      ensures fault == Later(old(fault))
    {
      if fault.Fault? && fault.at == 0 {
        disk := ApplyTorn(disk, w, fault.tear);
        return false;
      }
      disk := Apply(disk, w);
      fault := Later(fault);
      return true;
    }
  }

  class AtomicRunStore {
    const config: Config
    const files: RunDirectory
    var loaded: bool
    var lastRevision: int

    function View(): Instance
      reads this
    {
      Instance(loaded, lastRevision)
    }

    constructor (c: Config, directory: RunDirectory)
      ensures config == c && files == directory && View() == Instance(false, -1)
    {
      config, files, loaded, lastRevision := c, directory, false, -1;
    }

    // ---------------------------------------------------------------- reading

    method FindHead(records: seq<Record>, head: Head) returns (n: nat)
      ensures n == Position(records, head)
    {
      n := 0;
      while n < |records| && HeadOf(records[n]) != head
        invariant n <= |records|
        invariant Position(records, head) == n + Position(records[n..], head)
      {
        n := n + 1;
      }
    }

    method FilterAbove(records: seq<Record>, sequence: nat) returns (visible: seq<Record>)
      ensures visible == Above(records, sequence)
    {
      visible := [];
      for i := 0 to |records|
        invariant Above(records, sequence) == visible + Above(records[i..], sequence)
      {
        assert records[i..][0] == records[i] && records[i..][1..] == records[i + 1..];
        if records[i].sequence > sequence {
          visible := visible + [records[i]];
        }
      }
    }

    method ReadSuffix(head: Option<Head>) returns (result: Result<seq<Record>, Failure>)
      ensures result == RunStoreModel.ReadSuffix(config, files.disk, head)
    {
      var d := files.disk;
      var base := Base(config, d);
      if d.journal == [] && !d.torn {
        return if head.Some? && head.value != base then Err(HeadMissing) else Ok([]);
      }
      if d.torn { return Err(JournalTruncated); }
      var start := if d.checkpoint.Some? && d.journal[0].sequence == 1 then Genesis(config) else base;
      var cursor := start;
      for i := 0 to |d.journal|
        invariant ChainOk(config, start, d.journal) <==> ChainOk(config, cursor, d.journal[i..])
      {
        if !RecordOk(config, d.journal[i], cursor) { return Err(ChainCorrupt); }
        cursor := HeadOf(d.journal[i]);
        assert d.journal[i..][1..] == d.journal[i + 1..];
      }
      var visible := d.journal;
      if d.checkpoint.Some? {
        var at := FindHead(d.journal, base);
        if at < |d.journal| {
          visible := FilterAbove(d.journal, base.sequence);
        } else if d.journal[0].sequence <= base.sequence {
          return Err(CheckpointMissing);
        }
      }
      if head.None? || head.value == base { return Ok(visible); }
      var n := FindHead(d.journal, head.value);
      return if n == |d.journal| then Err(HeadMissing) else Ok(d.journal[n + 1..]);
    }

    method PersistedEventIds() returns (ids: set<EventId>)
      ensures forall id :: id in ids <==> HasEvent(files.disk.events, id)
    {
      ids := {};
      var lines := Terminated(files.disk.events);
      hide Mentions;
      NothingMentioned();
      for i := 0 to |lines|
        invariant forall id :: id in ids <==> Mentions(ParsedLines(lines[..i]), id)
      {
        ghost var before := ParsedLines(lines[..i]);
        EventsAppend(lines[..i], lines[i]);
        assert lines[..i + 1] == lines[..i] + [lines[i]];
        if lines[i].Parsed? {
          assert ParsedLines(lines[..i + 1]) == before + [lines[i].event];
          forall id
            ensures Mentions(ParsedLines(lines[..i + 1]), id) <==> Mentions(before, id) || id == lines[i].event.id
          {
            MentionsOneMore(before, lines[i].event, id);
          }
          ids := ids + {lines[i].event.id};
        } else {
          assert ParsedLines(lines[..i + 1]) == before + [] == before;
        }
      }
      assert lines[..|lines|] == lines;
    }

    // ---------------------------------------------------------------- projecting

    /** One effect: appended unless it is there, then the cursor; nothing if the cursor is past it. */
    method ProjectEffect(intent: Intent) returns (ok: bool)
      modifies files
      ensures ok <==> !Hits(old(files.fault), ProjectOne(old(files.disk), intent))
      ensures files.disk == Perform(old(files.disk), ProjectOne(old(files.disk), intent), old(files.fault))
      ensures ok ==> files.fault == Shifted(old(files.fault), |ProjectOne(old(files.disk), intent)|)
    {
      ghost var d, fault := files.disk, files.fault;
      if Applied(files.disk.cursor, intent.at) { return true; }
      var ids := PersistedEventIds();
      if intent.event.id !in ids {
        PerformPair(d, AppendEvent(intent.event), WriteCursor(intent.at), fault);
        ok := files.Write(AppendEvent(intent.event));
        if !ok { return; }
      }
      ok := files.Write(WriteCursor(intent.at));
    }

    method ProjectOutbox(records: seq<Record>) returns (ok: bool)
      modifies files
      ensures var writes := Projection(old(files.disk), Intents(config, records));
              files.disk == Perform(old(files.disk), writes, old(files.fault)) &&
              (ok <==> !Hits(old(files.fault), writes)) &&
              (ok ==> files.fault == Shifted(old(files.fault), |writes|))
    {
      ghost var start, first, whole := files.disk, files.fault, Intents(config, records);
      ghost var rest: seq<Intent>, cost: nat := whole, 0;
      hide Perform, Projection, ProjectOne, LeadsOn;
      LeadsFromStart(start, first, whole);
      for k := 0 to |records|
        invariant rest == Intents(config, records[k..])
        invariant LeadsOn(files.disk, files.fault, rest, cost, start, first, whole)
      {
        assert records[k..][0] == records[k] && records[k..][1..] == records[k + 1..];
        for i := 0 to |records[k].effects|
          invariant rest == IntentsOf(config, records[k])[i..] + Intents(config, records[k + 1..])
          invariant LeadsOn(files.disk, files.fault, rest, cost, start, first, whole)
        {
          assert rest[0] == IntentOf(config, records[k], i);
          assert rest[1..] == IntentsOf(config, records[k])[i + 1..] + Intents(config, records[k + 1..]);
          LeadsOneFurther(files.disk, files.fault, rest, cost, start, first, whole);
          ghost var one := ProjectOne(files.disk, rest[0]);
          ok := ProjectEffect(IntentOf(config, records[k], i));
          if !ok { return; }
          rest, cost := rest[1..], cost + |one|;
        }
      }
      LeadsToEnd(files.disk, files.fault, cost, start, first, whole);
      return true;
    }

    // ---------------------------------------------------------------- the operations

    /** Journals a transition, moves the snapshot, and projects what is due; a failure of the projection is
        left to a later operation. */
    method CommitTransition(input: Input) returns (result: Result<Record, Failure>)
      modifies this, files
      ensures Outcome(files.disk, View(), result) ==
              Commit(config, old(files.disk), old(View()), input, old(files.fault))
    {
      if input.state.runId != config.runId { return Err(WrongRun); }
      if !loaded { return Err(NotLoaded); }
      var d := files.disk;
      ghost var fault := files.fault;
      var read := ReadSuffix(Some(d.snapshot.head));
      if read.Err? { return Err(read.error); }
      var suffix := read.value;
      read := ReadSuffix(None);
      if read.Err? { return Err(read.error); }
      var pending := read.value;
      if LastState(suffix, d).revision != input.expectedRevision || lastRevision != input.expectedRevision {
        return Err(StaleRevision);
      }
      if input.state.revision != input.expectedRevision + 1 { return Err(BadRevision); }
      if !EffectsOk(config, input.effects) { return Err(BadEffects); }
      var record := NextRecord(config, LastHead(suffix, d), input);
      assert PlanCommit(config, d, View(), input) == Ok((record, pending));
      CommitShape(config, d, record, pending, fault);
      hide PlanCommit, CommitWrites, Perform, Projection;
      var ok := files.Write(AppendRecord(record));
      if !ok { return Err(Interrupted); }
      ok := files.Write(WriteSnapshot(Snapshot(record.state, HeadOf(record))));
      if !ok { return Err(Interrupted); }
      var _ := ProjectOutbox(pending + [record]);
      lastRevision := record.revision;
      return Ok(record);
    }

    method Load() returns (result: Result<RunState, Failure>)
      modifies this, files
      ensures Outcome(files.disk, View(), result) ==
              RunStoreModel.Load(config, old(files.disk), old(View()), old(files.fault))
    {
      var d := files.disk;
      ghost var fault := files.fault;
      loaded := true;
      var read := ReadSuffix(Some(d.snapshot.head));
      if read.Err? { return Err(read.error); }
      var suffix := read.value;
      read := ReadSuffix(None);
      if read.Err? { return Err(read.error); }
      ghost var first :=
        if suffix == [] then [] else [WriteSnapshot(Snapshot(LastState(suffix, d), LastHead(suffix, d)))];
      PerformBoth(d, first, Projection(Perform(d, first, NoFault), Intents(config, read.value)), fault);
      if suffix != [] {
        var ok := files.Write(WriteSnapshot(Snapshot(LastState(suffix, d), LastHead(suffix, d))));
        if !ok { return Err(Interrupted); }
      }
      var ok := ProjectOutbox(read.value);
      if !ok { return Err(Interrupted); }
      lastRevision := LastState(suffix, d).revision;
      return Ok(LastState(suffix, d));
    }

    /** Brings snapshot and projection up to date, writes a checkpoint, and starts an empty journal. */
    method CompactTransitions() returns (result: Result<(), Failure>)
      modifies this, files
      ensures Outcome(files.disk, View(), result) == Compact(config, old(files.disk), old(View()), old(files.fault))
    {
      if !loaded { return Err(NotLoaded); }
      var d := files.disk;
      var read := ReadSuffix(Some(d.snapshot.head));
      if read.Err? { return Err(read.error); }
      var suffix := read.value;
      read := ReadSuffix(None);
      if read.Err? { return Err(read.error); }
      var ok := WriteCompaction(suffix, read.value);
      if !ok { return Err(Interrupted); }
      lastRevision := LastState(suffix, d).revision;
      return Ok(());
    }

    method WriteCompaction(suffix: seq<Record>, pending: seq<Record>) returns (ok: bool)
      modifies files
      ensures var writes := CompactWrites(config, old(files.disk), suffix, pending);
              files.disk == Perform(old(files.disk), writes, old(files.fault)) &&
              (ok <==> !Hits(old(files.fault), writes))
    {
      ghost var d, fault := files.disk, files.fault;
      var state, head := LastState(suffix, files.disk), LastHead(suffix, files.disk);
      CompactShape(config, d, suffix, pending, fault);
      hide Perform, Projection, CompactWrites, LastState, LastHead, Apply, ApplyTorn, Intents;
      ok := files.Write(WriteSnapshot(Snapshot(state, head)));
      if !ok { return; }
      ghost var d1, projection := files.disk, Projection(files.disk, Intents(config, pending));
      ok := ProjectOutbox(pending);
      if !ok { return; }
      FaultBeyond(d1, projection, Later(fault));
      ok := files.Write(WriteCheckpoint(Checkpoint(head, state.revision)));
      if !ok { return; }
      ok := files.Write(EmptyJournal);
    }
  }

  lemma NothingMentioned()
    ensures forall id :: !Mentions([], id)
  {}

  lemma MentionsOneMore(events: seq<Event>, event: Event, id: EventId)
    ensures Mentions(events + [event], id) <==> Mentions(events, id) || id == event.id
  {
    var more := events + [event];
    assert more[|events|] == event;
    if Mentions(events, id) {
      var k :| 0 <= k < |events| && events[k].id == id;
      assert more[k].id == id;
    }
  }

  /** After `cost` writes: what remains to be done from here leads where the whole projection leads from the start. */
  ghost predicate LeadsOn(d: Disk, fault: Fault, rest: seq<Intent>, cost: nat, start: Disk, first: Fault,
      whole: seq<Intent>) {
    Perform(d, Projection(d, rest), fault) == Perform(start, Projection(start, whole), first) &&
    fault == Shifted(first, cost) && Reaches(first, cost) &&
    cost + |Projection(d, rest)| == |Projection(start, whole)|
  }

  lemma LeadsFromStart(start: Disk, first: Fault, whole: seq<Intent>)
    ensures LeadsOn(start, first, whole, 0, start, first, whole)
  {}

  lemma LeadsToEnd(d: Disk, fault: Fault, cost: nat, start: Disk, first: Fault, whole: seq<Intent>)
    requires LeadsOn(d, fault, [], cost, start, first, whole)
    ensures var writes := Projection(start, whole);
            d == Perform(start, writes, first) && !Hits(first, writes) && fault == Shifted(first, |writes|)
  {}

  lemma LeadsOneFurther(d: Disk, fault: Fault, rest: seq<Intent>, cost: nat, start: Disk, first: Fault,
      whole: seq<Intent>)
    requires rest != [] && LeadsOn(d, fault, rest, cost, start, first, whole)
    ensures var one := ProjectOne(d, rest[0]);
            if Hits(fault, one)
            then Perform(d, one, fault) == Perform(start, Projection(start, whole), first) &&
            Hits(first, Projection(start, whole))
            else LeadsOn(Perform(d, one, fault), Shifted(fault, |one|), rest[1..], cost + |one|, start, first, whole)
  {
    hide Perform, ProjectOne;
    var one := ProjectOne(d, rest[0]);
    PerformBoth(d, one, Projection(Perform(d, one, NoFault), rest[1..]), fault);
    if !Hits(fault, one) {
      FaultBeyond(d, one, fault);
    }
  }

  /** A compaction is stopped at its first write, in its projection, or at one of its two last writes. */
  lemma CompactShape(c: Config, d: Disk, suffix: seq<Record>, pending: seq<Record>, fault: Fault)
    ensures var state, head := LastState(suffix, d), LastHead(suffix, d);
            var snapshot, checkpoint :=
              WriteSnapshot(Snapshot(state, head)), WriteCheckpoint(Checkpoint(head, state.revision));
            var d1 := Apply(d, snapshot);
            var projection := Projection(d1, Intents(c, pending));
            var d2 := Perform(d1, projection, NoFault);
            var n := |projection|;
            var writes := CompactWrites(c, d, suffix, pending);
            |writes| == n + 3 &&
            Perform(d, writes, fault) ==
              if fault.Fault? && fault.at == 0 then ApplyTorn(d, snapshot, fault.tear)
              else if fault.Fault? && fault.at < n + 1 then Perform(d1, projection, Shifted(fault, 1))
              else if fault.Fault? && fault.at == n + 1 then ApplyTorn(d2, checkpoint, fault.tear)
              else if fault.Fault? && fault.at == n + 2 then ApplyTorn(Apply(d2, checkpoint), EmptyJournal, fault.tear)
              else Apply(Apply(d2, checkpoint), EmptyJournal)
  {
    hide LastState, LastHead, Apply, ApplyTorn, Intents, Projection;
    var state, head := LastState(suffix, d), LastHead(suffix, d);
    var snapshot, checkpoint := WriteSnapshot(Snapshot(state, head)), WriteCheckpoint(Checkpoint(head, state.revision));
    PerformOne(d, snapshot, NoFault);
    PerformOne(d, snapshot, fault);
    hide Perform;
    var d1 := Apply(d, snapshot);
    var projection := Projection(d1, Intents(c, pending));
    var d2 := Perform(d1, projection, NoFault);
    var rest := Shifted(fault, 1);
    assert CompactWrites(c, d, suffix, pending) == [snapshot] + (projection + [checkpoint, EmptyJournal]);
    PerformBoth(d, [snapshot], projection + [checkpoint, EmptyJournal], fault);
    PerformBoth(d1, projection, [checkpoint, EmptyJournal], rest);
    PerformPair(d2, checkpoint, EmptyJournal, Shifted(rest, |projection|));
  }
}
