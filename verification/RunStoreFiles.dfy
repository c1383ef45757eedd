/** What the files of a run store hold in every reachable state, and what reading the journal gives. */
module RunStoreFiles {
  import opened RunStoreModel
  import opened Wrappers

  function HeadAt(c: Config, history: seq<Record>, n: nat): Head
    requires n <= |history|
  {
    if n == 0 then Genesis(c) else HeadOf(history[n - 1])
  }

  /** The state after the first n transitions. */
  function StateAt(first: RunState, history: seq<Record>, n: nat): RunState
    requires n <= |history|
  {
    if n == 0 then first else history[n - 1].state
  }

  /** The record after number n. */
  ghost predicate Numbered(records: seq<Record>, n: nat) {
    forall k :: 0 <= k < |records| ==> records[k].sequence == n + k + 1
  }

  /** A genuine history: numbered from 1, chained, and rising by one revision at a time. */
  ghost predicate HistoryOk(c: Config, first: RunState, history: seq<Record>) {
    Numbered(history, 0) && ChainOk(c, Genesis(c), history) &&
    forall k :: 0 <= k < |history| ==> history[k].revision == first.revision + k + 1 == history[k].state.revision
  }

  function Covered(d: Disk): nat {
    if d.checkpoint.Some? then d.checkpoint.value.head.sequence else 0
  }

  /** The journal file is the end of the history, and it, the checkpoint and the snapshot overlap. */
  ghost predicate FilesOk(c: Config, first: RunState, history: seq<Record>, d: Disk) {
    |d.journal| <= |history| && d.journal == history[|history| - |d.journal|..] &&
    |history| - |d.journal| <= Covered(d) <= d.snapshot.head.sequence <= |history| &&
    Base(c, d) == HeadAt(c, history, Covered(d)) && SnapshotOk(c, first, history, d.snapshot)
  }

  /** A checkpoint that is neither just below the first record of the journal, nor above a journal that
      goes back to the beginning, makes the journal unreadable; so does a missing last newline. */
  predicate Healthy(d: Disk) {
    !d.torn &&
    (d.checkpoint.None? || d.journal == [] || d.journal[0].sequence in {1, d.checkpoint.value.head.sequence + 1})
  }

  // ---------------------------------------------------------------- chains

  lemma {:induction false} ChainFrom(c: Config, previous: Head, records: seq<Record>, n: nat)
    requires ChainOk(c, previous, records) && n <= |records|
    ensures ChainOk(c, if n == 0 then previous else HeadOf(records[n - 1]), records[n..])
    decreases n
  {
    if n == 0 {
      assert records[0..] == records;
    } else {
      ChainFrom(c, HeadOf(records[0]), records[1..], n - 1);
      assert records[1..][n - 1..] == records[n..];
    }
  }

  lemma {:induction false} ChainExtends(c: Config, previous: Head, records: seq<Record>, record: Record)
    requires ChainOk(c, previous, records)
    requires RecordOk(c, record, if records == [] then previous else HeadOf(records[|records| - 1]))
    ensures ChainOk(c, previous, records + [record])
    decreases |records|
  {
    if records != [] {
      ChainExtends(c, HeadOf(records[0]), records[1..], record);
      assert (records + [record])[1..] == records[1..] + [record];
    }
  }

  lemma {:induction false} AboveNumbered(records: seq<Record>, n: nat, covered: nat)
    requires Numbered(records, n) && n <= covered <= n + |records|
    ensures Above(records, covered) == records[covered - n..]
    decreases |records|
  {
    if records != [] {
      if covered == n {
        AboveNumbered(records[1..], n + 1, n + 1);
        AboveAll(records[1..], covered);
      } else {
        AboveNumbered(records[1..], n + 1, covered);
      }
    }
  }

  lemma {:induction false} AboveAll(records: seq<Record>, covered: nat)
    requires forall k :: 0 <= k < |records| ==> records[k].sequence > covered
    ensures Above(records, covered) == records
    decreases |records|
  {
    if records != [] {
      AboveAll(records[1..], covered);
    }
  }

  // ---------------------------------------------------------------- reading

  /** What the search for heads finds in a journal that can be read. */
  lemma Readable(c: Config, first: RunState, history: seq<Record>, d: Disk)
    requires HistoryOk(c, first, history) && FilesOk(c, first, history, d) && Healthy(d) && d.journal != []
    ensures var start, covered, seen := |history| - |d.journal|, Covered(d), d.snapshot.head.sequence;
            start in {0, covered} && d.journal[0].sequence == start + 1 &&
            ChainOk(c, HeadAt(c, history, start), d.journal) &&
            Position(d.journal, Base(c, d)) == (if covered == start then |d.journal| else covered - 1 - start) &&
            Position(d.journal, d.snapshot.head) == (if seen == start then |d.journal| else seen - 1 - start) &&
            Above(d.journal, covered) == history[covered..]
  {
    hide ChainOk, Position, Above, RecordOk, EffectsOk;
    var start := |history| - |d.journal|;
    assert d.journal[0] == history[start];
    ChainFrom(c, Genesis(c), history, start);
    assert Numbered(d.journal, start);
    FindsHead(c, history, start, Covered(d));
    FindsHead(c, history, start, d.snapshot.head.sequence);
    AboveNumbered(d.journal, start, Covered(d));
    assert d.journal[Covered(d) - start..] == history[Covered(d)..];
  }

  /** A readable journal gives exactly what lies above the snapshot, and above the checkpoint. */
  lemma SuffixIs(c: Config, first: RunState, history: seq<Record>, d: Disk)
    requires HistoryOk(c, first, history) && FilesOk(c, first, history, d) && Healthy(d)
    ensures ReadSuffix(c, d, Some(d.snapshot.head)) == Ok(history[d.snapshot.head.sequence..])
    ensures ReadSuffix(c, d, None) == Ok(history[Covered(d)..])
  {
    hide ChainOk, Position, Above, HistoryOk;
    if d.journal != [] {
      Readable(c, first, history, d);
    }
  }

  lemma FindsHead(c: Config, history: seq<Record>, start: nat, n: nat)
    requires Numbered(history, 0) && start <= n <= |history|
    ensures Position(history[start..], HeadAt(c, history, n)) == if n == start then |history| - start else n - 1 - start
  {
    var records := history[start..];
    var p := Position(records, HeadAt(c, history, n));
    if n > start {
      assert records[n - 1 - start] == history[n - 1];
    }
    assert p < |records| ==> records[p].sequence == start + p + 1;
  }

  lemma UnhealthyIsUnreadable(c: Config, first: RunState, history: seq<Record>, d: Disk, head: Option<Head>)
    requires HistoryOk(c, first, history) && FilesOk(c, first, history, d) && !Healthy(d)
    ensures ReadSuffix(c, d, head).Err?
  {}

  ghost predicate SnapshotOk(c: Config, first: RunState, history: seq<Record>, snapshot: Snapshot) {
    snapshot.head.sequence <= |history| &&
    snapshot == Snapshot(StateAt(first, history, snapshot.head.sequence), HeadAt(c, history, snapshot.head.sequence))
  }

  /** What lies above the snapshot ends in the state of the whole history. */
  lemma LastIs(c: Config, first: RunState, history: seq<Record>, d: Disk)
    requires SnapshotOk(c, first, history, d.snapshot)
    ensures var suffix := history[d.snapshot.head.sequence..];
            LastState(suffix, d) == StateAt(first, history, |history|) &&
            LastHead(suffix, d) == HeadAt(c, history, |history|)
  {
    var suffix := history[d.snapshot.head.sequence..];
    if suffix != [] {
      assert suffix[|suffix| - 1] == history[|history| - 1];
    }
  }
}
