/** The run store: a journal of transitions, a snapshot of the state and a projection of events, kept in
    step by single durable writes. An operation is the list of writes it makes, and a fault may stop it at
    any of them. */
module RunStoreModel {
  import opened Wrappers

  type Hash = string
  type EventId = string

  datatype RunState = RunState(runId: string, revision: int, body: string)

  datatype EventBody = EventBody(runId: string, body: string)

  datatype Effect = Effect(key: string, event: EventBody)

  datatype Event = Event(id: EventId, revision: int, transitionId: string, body: EventBody)

  datatype Head = Head(sequence: nat, hash: Hash)

  datatype Record = Record(
    sequence: nat, transitionId: string, expectedRevision: int, revision: int, previousHash: Hash,
    state: RunState, effects: seq<Effect>, hash: Hash)

  datatype Checkpoint = Checkpoint(head: Head, revision: int)

  datatype Snapshot = Snapshot(state: RunState, head: Head)

  datatype Cursor = Cursor(sequence: nat, index: nat)

  /** `digest` seals a record without its own hash; nothing is assumed about it, nor about `eventId`. */
  datatype Config = Config(
    runId: string, genesis: Hash, digest: Record -> Hash, eventId: string -> EventId, effectBytes: seq<Effect> -> nat)

  const MAX_EFFECTS: nat := 256
  const MAX_EFFECT_BYTES: nat := 256 * 1024
  const MAX_KEY_LENGTH: nat := 160

  // ---------------------------------------------------------------- files

  datatype Line = Parsed(event: Event) | Garbled

  /** Terminated lines, and the unterminated rest of the file. */
  datatype EventFile = EventFile(lines: seq<Line>, tail: Option<Line>)

  /** `torn` says that the journal does not end in a newline. */
  datatype Disk = Disk(
    journal: seq<Record>, torn: bool, checkpoint: Option<Checkpoint>, snapshot: Snapshot, cursor: Option<Cursor>,
    events: EventFile)

  datatype Write =
    | AppendRecord(record: Record)
    | WriteSnapshot(snapshot: Snapshot)
    | AppendEvent(event: Event)
    | WriteCursor(cursor: Cursor)
    | WriteCheckpoint(checkpoint: Checkpoint)
    | EmptyJournal

  /** How much of a write reaches the disk when it fails. Replacing a file is all or nothing. */
  datatype Tear = Nothing | LinePrefix | PartOfLine | AllButNewline | Everything

  function Terminated(file: EventFile): seq<Line> {
    file.lines + if file.tail.Some? then [file.tail.value] else []
  }

  function Apply(d: Disk, w: Write): Disk {
    match w
    case AppendRecord(record) => d.(journal := d.journal + [record])
    case WriteSnapshot(snapshot) => d.(snapshot := snapshot)
    case AppendEvent(event) => d.(events := EventFile(Terminated(d.events) + [Parsed(event)], None))
    case WriteCursor(cursor) => d.(cursor := Some(cursor))
    case WriteCheckpoint(checkpoint) => d.(checkpoint := Some(checkpoint))
    case EmptyJournal => d.(journal := [], torn := false)
  }

  function ApplyTorn(d: Disk, w: Write, tear: Tear): Disk {
    if tear.Everything? then Apply(d, w)
    else
      match w
      case AppendRecord(_) => if tear.PartOfLine? || tear.AllButNewline? then d.(torn := true) else d
      case AppendEvent(event) =>
        (match tear
         case LinePrefix => d.(events := EventFile(Terminated(d.events), None))
         case PartOfLine => d.(events := EventFile(Terminated(d.events), Some(Garbled)))
         case AllButNewline => d.(events := EventFile(Terminated(d.events), Some(Parsed(event))))
         case _ => d)
      case _ => d
  }

  /** The write number `at` fails. */
  datatype Fault = NoFault | Fault(at: nat, tear: Tear)

  predicate Hits(fault: Fault, writes: seq<Write>) { fault.Fault? && fault.at < |writes| }

  function Later(fault: Fault): Fault {
    if fault.Fault? && fault.at > 0 then fault.(at := fault.at - 1) else fault
  }

  function Perform(d: Disk, writes: seq<Write>, fault: Fault): Disk
    decreases |writes|
  {
    if writes == [] then d
    else if fault.Fault? && fault.at == 0 then ApplyTorn(d, writes[0], fault.tear)
    else Perform(Apply(d, writes[0]), writes[1..], Later(fault))
  }

  // ---------------------------------------------------------------- reading the journal

  datatype Failure =
    | WrongRun | NotLoaded | JournalTruncated | ChainCorrupt | HeadMissing | CheckpointMissing
    | StaleRevision | BadRevision | BadEffects | Interrupted

  function HeadOf(record: Record): Head { Head(record.sequence, record.hash) }

  predicate EffectsOk(c: Config, effects: seq<Effect>) {
    |effects| <= MAX_EFFECTS && c.effectBytes(effects) <= MAX_EFFECT_BYTES &&
    (forall i :: 0 <= i < |effects| ==> 1 <= |effects[i].key| <= MAX_KEY_LENGTH && effects[i].event.runId == c.runId) &&
    forall i, j :: 0 <= i < j < |effects| ==> effects[i].key != effects[j].key
  }

  predicate RecordOk(c: Config, record: Record, previous: Head) {
    record.sequence == previous.sequence + 1 && record.previousHash == previous.hash &&
    record.expectedRevision == record.revision - 1 &&
    record.state.runId == c.runId && record.state.revision == record.revision &&
    record.hash == c.digest(record.(hash := "")) && EffectsOk(c, record.effects)
  }

  predicate ChainOk(c: Config, previous: Head, records: seq<Record>)
    decreases |records|
  {
    records == [] || (RecordOk(c, records[0], previous) && ChainOk(c, HeadOf(records[0]), records[1..]))
  }

  function Genesis(c: Config): Head { Head(0, c.genesis) }

  function Base(c: Config, d: Disk): Head {
    if d.checkpoint.Some? then d.checkpoint.value.head else Genesis(c)
  }

  /** The index of the record with this head, or the number of records. */
  function Position(records: seq<Record>, head: Head): (n: nat)
    ensures n <= |records|
    ensures n < |records| ==> HeadOf(records[n]) == head
    ensures forall k :: 0 <= k < n ==> HeadOf(records[k]) != head
  {
    if records == [] || HeadOf(records[0]) == head then 0 else 1 + Position(records[1..], head)
  }

  function Above(records: seq<Record>, sequence: nat): seq<Record> {
    if records == [] then []
    else (if records[0].sequence > sequence then [records[0]] else []) + Above(records[1..], sequence)
  }

  /** What is still to be replayed above `head`, or above the checkpoint if no head is given. */
  function ReadSuffix(c: Config, d: Disk, head: Option<Head>): Result<seq<Record>, Failure> {
    var base := Base(c, d);
    if d.torn then Err(JournalTruncated)
    else if d.journal == [] then
      if head.Some? && head.value != base then Err(HeadMissing) else Ok([])
    else if !ChainOk(c, if d.checkpoint.Some? && d.journal[0].sequence == 1 then Genesis(c) else base, d.journal)
    then Err(ChainCorrupt)
    else
      var covered := d.checkpoint.Some? && Position(d.journal, base) < |d.journal|;
      if d.checkpoint.Some? && !covered && d.journal[0].sequence <= base.sequence then Err(CheckpointMissing)
      else if head.None? || head.value == base then
        Ok(if covered then Above(d.journal, base.sequence) else d.journal)
      else
        var n := Position(d.journal, head.value);
        if n == |d.journal| then Err(HeadMissing) else Ok(d.journal[n + 1..])
  }

  // ---------------------------------------------------------------- projecting effects

  /** An effect with its place in the journal and the event that stands for it. */
  datatype Intent = Intent(at: Cursor, event: Event)

  function IntentOf(c: Config, record: Record, i: nat): Intent
    requires i < |record.effects|
  {
    Intent(Cursor(record.sequence, i),
           Event(c.eventId(record.effects[i].key), record.revision, record.transitionId, record.effects[i].event))
  }

  function IntentsOf(c: Config, record: Record): seq<Intent> {
    seq(|record.effects|, i requires 0 <= i < |record.effects| => IntentOf(c, record, i))
  }

  function Intents(c: Config, records: seq<Record>): seq<Intent> {
    if records == [] then [] else IntentsOf(c, records[0]) + Intents(c, records[1..])
  }

  /** The parseable lines, in order; a last line that only lacks its newline is one of them. */
  function Events(file: EventFile): seq<Event> { ParsedLines(Terminated(file)) }

  function ParsedLines(lines: seq<Line>): seq<Event> {
    if lines == [] then []
    else ParsedLines(lines[..|lines| - 1]) + match lines[|lines| - 1] case Parsed(event) => [event] case Garbled => []
  }

  predicate Mentions(events: seq<Event>, id: EventId) {
    exists i :: 0 <= i < |events| && events[i].id == id
  }

  predicate HasEvent(file: EventFile, id: EventId) { Mentions(Events(file), id) }

  predicate Applied(cursor: Option<Cursor>, at: Cursor) {
    cursor.Some? &&
    (cursor.value.sequence > at.sequence || (cursor.value.sequence == at.sequence && cursor.value.index >= at.index))
  }

  /** The writes that project `intents`: nothing for what the cursor covers, else the event unless it is
      already there, and then the cursor. */
  function Projection(d: Disk, intents: seq<Intent>): seq<Write>
    decreases |intents|
  {
    if intents == [] then []
    else
      var writes := ProjectOne(d, intents[0]);
      writes + Projection(Perform(d, writes, NoFault), intents[1..])
  }

  function ProjectOne(d: Disk, intent: Intent): seq<Write> {
    if Applied(d.cursor, intent.at) then []
    else if HasEvent(d.events, intent.event.id) then [WriteCursor(intent.at)]
    else [AppendEvent(intent.event), WriteCursor(intent.at)]
  }

  // ---------------------------------------------------------------- the operations of one store

  /** What a store instance remembers; `loaded` says that it knows the generation of the run. */
  datatype Instance = Instance(loaded: bool, lastRevision: int)

  datatype Input = Input(transitionId: string, expectedRevision: int, state: RunState, effects: seq<Effect>)

  datatype Outcome<+T> = Outcome(disk: Disk, store: Instance, result: Result<T, Failure>)

  function NextRecord(c: Config, head: Head, input: Input): Record {
    var record := Record(head.sequence + 1, input.transitionId, input.expectedRevision, input.state.revision, head.hash,
                         input.state, input.effects, "");
    record.(hash := c.digest(record))
  }

  function LastState(suffix: seq<Record>, d: Disk): RunState {
    if suffix == [] then d.snapshot.state else suffix[|suffix| - 1].state
  }

  function LastHead(suffix: seq<Record>, d: Disk): Head {
    if suffix == [] then d.snapshot.head else HeadOf(suffix[|suffix| - 1])
  }

  /** The record a commit would journal, or why it is refused; `pending` are the records whose effects are
      projected before its own. */
  function PlanCommit(c: Config, d: Disk, store: Instance, input: Input): Result<(Record, seq<Record>), Failure> {
    if input.state.runId != c.runId then Err(WrongRun)
    else if !store.loaded then Err(NotLoaded)
    else
      match ReadSuffix(c, d, Some(d.snapshot.head))
      case Err(failure) => Err(failure)
      case Ok(suffix) =>
        match ReadSuffix(c, d, None)
        case Err(failure) => Err(failure)
        case Ok(pending) =>
          if LastState(suffix, d).revision != input.expectedRevision || store.lastRevision != input.expectedRevision
          then Err(StaleRevision)
          else if input.state.revision != input.expectedRevision + 1 then Err(BadRevision)
          else if !EffectsOk(c, input.effects) then Err(BadEffects)
          else Ok((NextRecord(c, LastHead(suffix, d), input), pending))
  }

  function CommitWrites(c: Config, d: Disk, record: Record, pending: seq<Record>): seq<Write> {
    var first := [AppendRecord(record), WriteSnapshot(Snapshot(record.state, HeadOf(record)))];
    first + Projection(Perform(d, first, NoFault), Intents(c, pending + [record]))
  }

  /** Journal, snapshot, projection; a fault in the projection does not undo the commit. */
  function Commit(c: Config, d: Disk, store: Instance, input: Input, fault: Fault): Outcome<Record> {
    match PlanCommit(c, d, store, input)
    case Err(failure) => Outcome(d, store, Err(failure))
    case Ok((record, pending)) =>
      var writes := CommitWrites(c, d, record, pending);
      var after := Perform(d, writes, fault);
      if fault.Fault? && fault.at < 2 then Outcome(after, store, Err(Interrupted))
      else Outcome(after, store.(lastRevision := record.revision), Ok(record))
  }

  function LoadWrites(c: Config, d: Disk, suffix: seq<Record>, pending: seq<Record>): seq<Write> {
    var first := if suffix == [] then [] else [WriteSnapshot(Snapshot(LastState(suffix, d), LastHead(suffix, d)))];
    first + Projection(Perform(d, first, NoFault), Intents(c, pending))
  }

  function Load(c: Config, d: Disk, store: Instance, fault: Fault): Outcome<RunState> {
    var known := store.(loaded := true);
    match ReadSuffix(c, d, Some(d.snapshot.head))
    case Err(failure) => Outcome(d, known, Err(failure))
    case Ok(suffix) =>
      match ReadSuffix(c, d, None)
      case Err(failure) => Outcome(d, known, Err(failure))
      case Ok(pending) =>
        var writes := LoadWrites(c, d, suffix, pending);
        var after := Perform(d, writes, fault);
        if Hits(fault, writes) then Outcome(after, known, Err(Interrupted))
        else Outcome(after, known.(lastRevision := LastState(suffix, d).revision), Ok(LastState(suffix, d)))
  }

  function CompactWrites(c: Config, d: Disk, suffix: seq<Record>, pending: seq<Record>): seq<Write> {
    var state, head := LastState(suffix, d), LastHead(suffix, d);
    var first := [WriteSnapshot(Snapshot(state, head))];
    first + Projection(Perform(d, first, NoFault), Intents(c, pending)) +
    [WriteCheckpoint(Checkpoint(head, state.revision)), EmptyJournal]
  }

  function Compact(c: Config, d: Disk, store: Instance, fault: Fault): Outcome<()> {
    if !store.loaded then Outcome(d, store, Err(NotLoaded))
    else
      match ReadSuffix(c, d, Some(d.snapshot.head))
      case Err(failure) => Outcome(d, store, Err(failure))
      case Ok(suffix) =>
        match ReadSuffix(c, d, None)
        case Err(failure) => Outcome(d, store, Err(failure))
        case Ok(pending) =>
          var writes := CompactWrites(c, d, suffix, pending);
          var after := Perform(d, writes, fault);
          if Hits(fault, writes) then Outcome(after, store, Err(Interrupted))
          else Outcome(after, store.(lastRevision := LastState(suffix, d).revision), Ok(()))
  }

  // ---------------------------------------------------------------- several stores on one run

  /** `history` lists every record that ever became part of the journal file. */
  datatype System = System(disk: Disk, stores: seq<Instance>, history: seq<Record>)

  datatype Step =
    | StepOpen
    | StepCommit(i: nat, input: Input, fault: Fault)
    | StepLoad(i: nat, fault: Fault)
    | StepCompact(i: nat, fault: Fault)

  predicate Enabled(s: System, step: Step) { step.StepOpen? || step.i < |s.stores| }

  /** The history once the journal file has gone from `before` to `after`. */
  function Recorded(history: seq<Record>, before: Disk, after: Disk): seq<Record> {
    if |after.journal| > |before.journal| then history + [after.journal[|after.journal| - 1]] else history
  }

  /** The state lock makes every operation, or its fragment before a fault, one step. */
  function Next(c: Config, s: System, step: Step): System
    requires Enabled(s, step)
  {
    match step
    case StepOpen => s.(stores := s.stores + [Instance(false, -1)])
    case StepCommit(i, input, fault) =>
      var out := Commit(c, s.disk, s.stores[i], input, fault);
      System(out.disk, s.stores[i := out.store], Recorded(s.history, s.disk, out.disk))
    case StepLoad(i, fault) =>
      var out := Load(c, s.disk, s.stores[i], fault);
      s.(disk := out.disk, stores := s.stores[i := out.store])
    case StepCompact(i, fault) =>
      var out := Compact(c, s.disk, s.stores[i], fault);
      s.(disk := out.disk, stores := s.stores[i := out.store])
  }

  /** A run that has just been created and saved once, by the one store that is open. */
  function Init(c: Config, first: RunState): System {
    System(Disk([], false, None, Snapshot(first, Genesis(c)), None, EventFile([], None)),
           [Instance(true, first.revision)], [])
  }

  ghost predicate Run(c: Config, first: RunState, states: seq<System>, steps: seq<Step>) {
    first.runId == c.runId && |states| == |steps| + 1 && states[0] == Init(c, first) &&
    forall n :: 0 <= n < |steps| ==> Enabled(states[n], steps[n]) && states[n + 1] == Next(c, states[n], steps[n])
  }

  ghost predicate Reachable(c: Config, first: RunState, s: System) {
    exists states, steps :: Run(c, first, states, steps) && states[|states| - 1] == s
  }
}
