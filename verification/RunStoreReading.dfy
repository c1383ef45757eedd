/** Reading the journal from any disk whatever, tampered with or not: exactly when it succeeds, and what it gives. */
module RunStoreReading {
  import opened RunStoreModel
  import opened Wrappers

  /** A record that is sealed, follows the given head, belongs to the run and keeps the limits of effects. */
  ghost predicate Sealed(c: Config, record: Record, previous: Head) {
    && record.sequence == previous.sequence + 1
    && record.previousHash == previous.hash
    && record.hash == c.digest(record.(hash := ""))
    && record.state.runId == c.runId
    && record.state.revision == record.revision == record.expectedRevision + 1
    && EffectsBounded(c, record.effects)
  }

  ghost predicate EffectsBounded(c: Config, effects: seq<Effect>) {
    && |effects| <= 256
    && c.effectBytes(effects) <= 262_144
    && (forall e :: e in effects ==> 1 <= |e.key| <= 160 && e.event.runId == c.runId)
    && (forall i, j :: 0 <= i < |effects| && 0 <= j < |effects| && effects[i].key == effects[j].key ==> i == j)
  }

  lemma EffectsOkIs(c: Config, effects: seq<Effect>)
    ensures EffectsOk(c, effects) <==> EffectsBounded(c, effects)
  {
    if EffectsBounded(c, effects) {
      forall i | 0 <= i < |effects|
        ensures 1 <= |effects[i].key| <= MAX_KEY_LENGTH && effects[i].event.runId == c.runId
      {
        assert effects[i] in effects;
      }
    }
  }

  lemma RecordOkIs(c: Config, record: Record, previous: Head)
    ensures RecordOk(c, record, previous) <==> Sealed(c, record, previous)
  {
    hide EffectsOk, EffectsBounded;
    EffectsOkIs(c, record.effects);
  }

  /** Every record is sealed onto the one before it, and the first onto `start`. */
  ghost predicate SealedFrom(c: Config, start: Head, records: seq<Record>) {
    forall k :: 0 <= k < |records| ==> SealedAt(c, start, records, k)
  }

  ghost predicate SealedAt(c: Config, start: Head, records: seq<Record>, k: nat)
    requires k < |records|
  {
    Sealed(c, records[k], if k == 0 then start else Head(records[k - 1].sequence, records[k - 1].hash))
  }

  lemma {:induction false} ChainIs(c: Config, start: Head, records: seq<Record>)
    ensures ChainOk(c, start, records) <==> SealedFrom(c, start, records)
    decreases |records|
  {
    hide RecordOk, Sealed;
    if records != [] {
      var rest := records[1..];
      RecordOkIs(c, records[0], start);
      ChainIs(c, HeadOf(records[0]), rest);
      forall k | 0 <= k < |rest|
        ensures SealedAt(c, HeadOf(records[0]), rest, k) <==> SealedAt(c, start, records, k + 1)
      {
      }
      if SealedFrom(c, start, records) {
        assert SealedAt(c, start, records, 0);
      } else {
        var k :| 0 <= k < |records| && !SealedAt(c, start, records, k);
        assert k > 0 ==> !SealedAt(c, HeadOf(records[0]), rest, k - 1);
      }
    }
  }

  /** The head below the first record: the checkpoint if there is one, unless the journal goes back to the start. */
  function Start(c: Config, d: Disk): Head {
    if d.checkpoint.None? || (d.journal != [] && d.journal[0].sequence == 1) then Head(0, c.genesis)
    else d.checkpoint.value.head
  }

  predicate HasHead(records: seq<Record>, head: Head) {
    exists k :: 0 <= k < |records| && Head(records[k].sequence, records[k].hash) == head
  }

  /** The head of the checkpoint, or of the empty journal. */
  function BaseHead(c: Config, d: Disk): Head {
    if d.checkpoint.Some? then d.checkpoint.value.head else Head(0, c.genesis)
  }

  /** Reading succeeds exactly if the journal ends in a newline, is sealed from its start on, holds the checkpoint if
      it begins at or below it, and holds the head that is asked for, unless that is the checkpoint. */
  lemma ReadSucceeds(c: Config, d: Disk, head: Option<Head>)
    ensures ReadSuffix(c, d, head).Ok? <==>
              (d.journal == [] || SealedFrom(c, Start(c, d), d.journal)) && !d.torn &&
              (d.checkpoint.Some? && d.journal != [] && d.journal[0].sequence <= d.checkpoint.value.head.sequence ==>
                 HasHead(d.journal, d.checkpoint.value.head)) &&
              (head.None? || head.value == BaseHead(c, d) || HasHead(d.journal, head.value))
  {
    hide ChainOk, SealedFrom;
    ChainIs(c, Start(c, d), d.journal);
    HasHeadIs(d.journal, BaseHead(c, d));
    if head.Some? {
      HasHeadIs(d.journal, head.value);
    }
  }

  lemma HasHeadIs(records: seq<Record>, head: Head)
    ensures HasHead(records, head) <==> Position(records, head) < |records|
  {}

  /** What it gives is the end of the journal: what follows the head asked for, or, if that is none or the checkpoint,
      exactly the records above the checkpoint. */
  lemma ReadGives(c: Config, d: Disk, head: Option<Head>) returns (n: nat)
    requires ReadSuffix(c, d, head).Ok?
    ensures n <= |d.journal| && ReadSuffix(c, d, head) == Ok(d.journal[n..])
    ensures if head.Some? && head.value != BaseHead(c, d)
            then n > 0 && Head(d.journal[n - 1].sequence, d.journal[n - 1].hash) == head.value
            else forall k :: 0 <= k < |d.journal| ==> (d.journal[k].sequence > BaseHead(c, d).sequence <==> k >= n)
  {
    n := 0;
    ReadSucceeds(c, d, head);
    if d.journal != [] {
      hide ChainOk, Above;
      SequencesRise(c, Start(c, d), d.journal);
      hide SealedFrom;
      if head.Some? && head.value != BaseHead(c, d) {
        HasHeadIs(d.journal, head.value);
        n := Position(d.journal, head.value) + 1;
      } else {
        n := AboveIs(d.journal, BaseHead(c, d).sequence, d.journal[0].sequence - 1);
        HasHeadIs(d.journal, BaseHead(c, d));
        if Position(d.journal, BaseHead(c, d)) == |d.journal| || d.checkpoint.None? {
          assert d.journal[0].sequence > BaseHead(c, d).sequence;
          assert n == 0;
        }
      }
    }
  }

  lemma {:induction false} SequencesRise(c: Config, start: Head, records: seq<Record>)
    requires SealedFrom(c, start, records)
    ensures forall k :: 0 <= k < |records| ==> records[k].sequence == start.sequence + k + 1
    decreases |records|
  {
    hide EffectsBounded;
    if records != [] {
      var shorter := records[..|records| - 1];
      forall k | 0 <= k < |shorter|
        ensures SealedAt(c, start, shorter, k)
      {
        assert SealedAt(c, start, records, k);
      }
      SequencesRise(c, start, shorter);
      assert SealedAt(c, start, records, |records| - 1);
    }
  }

  lemma {:induction false} AboveIs(records: seq<Record>, sequence: nat, from: int) returns (n: nat)
    requires forall k :: 0 <= k < |records| ==> records[k].sequence == from + k + 1
    ensures n <= |records| && Above(records, sequence) == records[n..]
    ensures forall k :: 0 <= k < |records| ==> (records[k].sequence > sequence <==> k >= n)
    decreases |records|
  {
    n := 0;
    if records != [] {
      var m := AboveIs(records[1..], sequence, from + 1);
      n := if records[0].sequence > sequence then 0 else m + 1;
      assert records[0].sequence > sequence && |records| > 1 ==> records[1..][0].sequence > sequence;
      assert records[0].sequence > sequence ==> records[1..][m..] == records[1..];
    }
  }
}
