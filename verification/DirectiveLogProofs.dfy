/** The directive log survives appends that are cut short anywhere, loses and repeats nothing, and takes
    nothing while its gate is closed. */
module DirectiveLogProofs {
  import opened DirectiveLog
  import opened Wrappers

  // ---------------------------------------------------------------- lines

  lemma SplitNewline(text: Bytes)
    ensures Split(text + [NEWLINE]) == Split(text) + [[]]
  {
    assert (text + [NEWLINE])[..|text|] == text;
  }

  lemma {:induction false} SplitMore(text: Bytes, more: Bytes)
    requires NEWLINE !in more
    ensures var lines := Split(text); Split(text + more) == lines[|lines| - 1 := lines[|lines| - 1] + more]
    decreases |more|
  {
    if more == [] {
      assert text + more == text && Tail(text) + more == Tail(text);
    } else {
      var shorter := more[..|more| - 1];
      SplitMore(text, shorter);
      assert (text + more)[..|text + more| - 1] == text + shorter;
      assert (text + more)[|text + more| - 1] == more[|more| - 1] && more[|more| - 1] in more;
      assert Tail(text) + more == Tail(text) + shorter + [more[|more| - 1]];
    }
  }

  lemma NoTail(text: Bytes)
    requires text == [] || EndsInNewline(text)
    ensures Tail(text) == []
  {}

  lemma {:induction false} WithoutTailIs(text: Bytes)
    ensures Split(WithoutTail(text)) == Terminated(text) + [[]]
    ensures text == WithoutTail(text) + Tail(text) && NEWLINE !in Tail(text)
    ensures WithoutTail(text) == [] || EndsInNewline(WithoutTail(text))
    decreases |text|
  {
    if text == [] || EndsInNewline(text) {
      NoTail(text);
    } else {
      WithoutTailIs(text[..|text| - 1]);
      assert Tail(text) == Tail(text[..|text| - 1]) + [text[|text| - 1]];
    }
  }

  lemma {:induction false} ReadOneMore(c: Codec, lines: seq<Bytes>, line: Bytes)
    ensures ReadTerminated(c, lines + [line]) ==
              match ReadTerminated(c, lines)
              case Err(failure) => Err(failure)
              case Ok(directives) => ReadLine(c, directives, StripReturn(line), true)
  {
    assert (lines + [line])[..|lines|] == lines;
  }

  /** The text in which every line is terminated reads like its lines. */
  lemma ReadWhole(c: Codec, text: Bytes)
    requires text == [] || EndsInNewline(text)
    ensures Read(c, text) == ReadTerminated(c, Terminated(text))
  {
    NoTail(text);
  }

  lemma ReturnIsNothing(c: Codec, line: Bytes)
    requires Lawful(c)
    ensures c.parse(StripReturn(line)) == c.parse(line) && IsBlank(c, StripReturn(line)) == IsBlank(c, line)
  {
    if line != [] && line[|line| - 1] == RETURN {
      assert line == line[..|line| - 1] + [RETURN];
    }
  }

  // ---------------------------------------------------------------- repair

  lemma RepairEndsLines(c: Codec, text: Bytes)
    ensures Repair(c, text) == [] || EndsInNewline(Repair(c, text))
    ensures Repair(c, Repair(c, text)) == Repair(c, text)
  {
    WithoutTailIs(text);
  }

  /** JSON after the last newline that is not a directive of this run: reading refuses it, repair drops it. */
  predicate ForeignTail(c: Codec, text: Bytes) {
    !IsBlank(c, Tail(text)) && c.parse(Tail(text)).Foreign? && ReadTerminated(c, Terminated(text)).Ok?
  }

  /** Reading gives the same before and after the repair, failures included, unless a foreign value is cut off. */
  lemma RepairAgrees(c: Codec, text: Bytes)
    requires Lawful(c)
    ensures Read(c, Repair(c, text)) == Read(c, text) <==> !ForeignTail(c, text)
  {
    RepairEndsLines(c, text);
    hide Lawful, Split;
    ReadWhole(c, Repair(c, text));
    if text == [] || EndsInNewline(text) {
      NoTail(text);
      NoForeignTail(c, text);
    } else if c.parse(Tail(text)).Is? {
      SplitNewline(text);
      assert Terminated(text + [NEWLINE]) == Split(text) == Terminated(text) + [Tail(text)];
      ReadOneMore(c, Terminated(text), Tail(text));
      ReturnIsNothing(c, Tail(text));
    } else {
      WithoutTailIs(text);
      assert Terminated(WithoutTail(text)) == Terminated(text);
    }
  }

  lemma NoForeignTail(c: Codec, text: Bytes)
    requires Tail(text) == []
    ensures !ForeignTail(c, text)
  {}

  // ---------------------------------------------------------------- a cut append

  lemma TailOfPart(text: Bytes, part: Bytes)
    requires NEWLINE !in part && (text == [] || EndsInNewline(text))
    ensures Tail(text + part) == part && WithoutTail(text + part) == text && Terminated(text + part) == Terminated(text)
  {
    NoTail(text);
    SplitMore(text, part);
    assert [] + part == part;
    WithoutTailIs(text + part);
    hide Split;
    assert |WithoutTail(text + part)| == |text|;
    assert (text + part)[..|text|] == text;
  }

  lemma LineAdded(text: Bytes, body: Bytes)
    requires NEWLINE !in body && (text == [] || EndsInNewline(text))
    ensures Terminated(text + (body + [NEWLINE])) == Terminated(text) + [body]
  {
    TailOfPart(text, body);
    SplitNewline(text + body);
    hide Split;
    assert text + (body + [NEWLINE]) == (text + body) + [NEWLINE];
    assert Terminated(text + body + [NEWLINE]) == Split(text + body) == Terminated(text + body) + [Tail(text + body)];
  }

  /** After any number of the bytes of a record the log reads as before, until the record is complete but
      for its newline. */
  lemma CutRecordReads(c: Codec, text: Bytes, d: Directive, k: nat)
    requires Lawful(c) && c.valid(d) && k <= |Record(c, d)|
    requires text == [] || EndsInNewline(text)
    requires Read(c, text).Ok? && !HasId(Read(c, text).value, d.id)
    ensures Read(c, text + Record(c, d)[..k]) ==
            Ok(if k < |c.encode(d)| then Read(c, text).value else Read(c, text).value + [d])
  {
    var body := c.encode(d);
    assert Encodes(c, d);
    ReadWhole(c, text);
    hide Lawful, Split, Tail, Terminated, HasId;
    if k <= |body| {
      var part := body[..k];
      assert Record(c, d)[..k] == part;
      TailOfPart(text, part);
      assert k == |body| ==> part == body;
    } else {
      var whole := text + (body + [NEWLINE]);
      assert Record(c, d)[..k] == body + [NEWLINE];
      LineAdded(text, body);
      ReadOneMore(c, Terminated(text), body);
      assert StripReturn(body) == body by {
        assert body != [] ==> body[|body| - 1] in body;
      }
      assert whole[|whole| - 1] == NEWLINE;
      ReadWhole(c, whole);
    }
  }

  /** The bytes of a log that was never cut. */
  function CompleteLog(c: Codec, directives: seq<Directive>): Bytes {
    if directives == [] then []
    else CompleteLog(c, directives[..|directives| - 1]) + Record(c, directives[|directives| - 1])
  }

  lemma CompleteLogEnds(c: Codec, directives: seq<Directive>)
    ensures CompleteLog(c, directives) == [] || EndsInNewline(CompleteLog(c, directives))
  {}

  /** The repair of an append that was cut short leaves exactly the complete records. */
  lemma CutRecordIsRepaired(c: Codec, directives: seq<Directive>, d: Directive, k: nat)
    requires Lawful(c) && c.valid(d) && k <= |Record(c, d)|
    ensures Repair(c, CompleteLog(c, directives) + Record(c, d)[..k]) ==
              CompleteLog(c, if k < |c.encode(d)| then directives else directives + [d])
  {
    CompleteLogEnds(c, directives);
    CompleteLogStep(c, directives, d);
    hide CompleteLog, Lawful;
    RepairCut(c, CompleteLog(c, directives), d, k);
  }

  lemma RepairCut(c: Codec, text: Bytes, d: Directive, k: nat)
    requires Lawful(c) && c.valid(d) && k <= |Record(c, d)|
    requires text == [] || EndsInNewline(text)
    ensures Repair(c, text + Record(c, d)[..k]) == if k < |c.encode(d)| then text else text + Record(c, d)
  {
    assert Encodes(c, d);
    hide Lawful, Split, Tail, WithoutTail;
    var body := c.encode(d);
    if k == 0 {
      assert text + Record(c, d)[..k] == text;
    } else if k <= |body| {
      var part := body[..k];
      assert Record(c, d)[..k] == part;
      TailOfPart(text, part);
      assert (text + part)[|text + part| - 1] == part[k - 1] == body[k - 1] && body[k - 1] in body;
      if k == |body| {
        assert part == body && text + part + [NEWLINE] == text + Record(c, d);
      }
    } else {
      assert Record(c, d)[..k] == Record(c, d);
      assert (text + Record(c, d))[|text + Record(c, d)| - 1] == NEWLINE;
    }
  }

  lemma CompleteLogStep(c: Codec, directives: seq<Directive>, d: Directive)
    ensures CompleteLog(c, directives + [d]) == CompleteLog(c, directives) + Record(c, d)
  {
    assert (directives + [d])[..|directives|] == directives;
  }

  // ---------------------------------------------------------------- every step

  function Directives(c: Codec, log: Log): seq<Directive> {
    match Read(c, log.text) case Ok(directives) => directives case Err(_) => []
  }

  ghost predicate LogOk(c: Codec, log: Log) {
    Read(c, log.text).Ok? && |Directives(c, log)| <= MAX_DIRECTIVES
  }

  /** Exactly then a step adds its directive. */
  predicate Adds(c: Codec, log: Log, step: Step) {
    step.StepAppend? && c.valid(step.d) && !log.closed && !HasId(Directives(c, log), step.d.id) &&
    |Directives(c, log)| < MAX_DIRECTIVES && !step.crash.AtOnce? &&
    (step.crash.After? ==> step.crash.bytes >= |c.encode(step.d)|)
  }

  lemma RepairKeeps(c: Codec, text: Bytes)
    requires Lawful(c) && Read(c, text).Ok?
    ensures Read(c, Repair(c, text)) == Read(c, text)
    ensures Repair(c, text) == [] || EndsInNewline(Repair(c, text))
  {
    hide Lawful, Repair;
    RepairAgrees(c, text);
    RepairEndsLines(c, text);
  }

  /** An append returns exactly when its request is in the log or could be added. */
  predicate Accepts(c: Codec, log: Log, d: Directive) {
    c.valid(d) && !log.closed &&
    if HasId(Directives(c, log), d.id) then Same(Directives(c, log), d) else |Directives(c, log)| < MAX_DIRECTIVES
  }

  lemma AppendIs(c: Codec, log: Log, d: Directive, crash: Crash)
    requires Lawful(c) && LogOk(c, log)
    ensures var (after, result) := Append(c, log, d, crash); var all := Directives(c, log);
            after.closed == log.closed && (result.Ok? <==> Accepts(c, log, d) && crash.Never?) &&
            Read(c, after.text) == Ok(if Adds(c, log, StepAppend(d, crash)) then all + [d] else all)
  {
    hide Lawful, Repair, Read, HasId, Same;
    var repaired, all := Repair(c, log.text), Directives(c, log);
    RepairKeeps(c, log.text);
    assert Latest(all, MAX_DIRECTIVES) == all;
    if c.valid(d) && !HasId(all, d.id) {
      var record := Record(c, d);
      var k := if crash.After? && crash.bytes < |record| then crash.bytes else |record|;
      assert Cut(record, crash) == record[..k];
      CutRecordReads(c, repaired, d, k);
    }
  }

  /** What one operation does to the log, crash or no crash: it stays readable, and gains at most the one
      directive that was to be appended. */
  lemma StepIs(c: Codec, log: Log, step: Step)
    requires Lawful(c) && LogOk(c, log)
    ensures LogOk(c, Next(c, log, step))
    ensures Directives(c, Next(c, log, step)) == Directives(c, log) + if Adds(c, log, step) then [step.d] else []
    ensures Next(c, log, step).closed == if step.StepGate? && step.crash.Never? then step.closed else log.closed
  {
    hide Lawful, Repair, Read, HasId, Append;
    RepairKeeps(c, log.text);
    if step.StepAppend? {
      AppendIs(c, log, step.d, step.crash);
    }
  }

  lemma {:induction false} SameIsThere(directives: seq<Directive>, d: Directive)
    requires Same(directives, d)
    ensures exists i :: 0 <= i < |directives| && SameRequest(directives[i], d)
  {
    if directives[0].id != d.id {
      SameIsThere(directives[1..], d);
      var i :| 0 <= i < |directives[1..]| && SameRequest(directives[1..][i], d);
      assert SameRequest(directives[i + 1], d);
    }
  }

  ghost predicate Holds(c: Codec, log: Log, d: Directive) {
    exists i :: 0 <= i < |Directives(c, log)| && SameRequest(Directives(c, log)[i], d)
  }

  /** An append that returns has its request in the log; and repeating it, after a success or after any
      crash that let the record through, changes nothing. */
  lemma AppendIsIdempotent(c: Codec, log: Log, d: Directive, again: Crash)
    requires Lawful(c) && LogOk(c, log) && Append(c, log, d, Never).1.Ok?
    ensures var after := Append(c, log, d, Never).0;
            Holds(c, after, d) && Directives(c, Append(c, after, d, again).0) == Directives(c, after)
  {
    hide Lawful, Read, Append;
    var after, all := Append(c, log, d, Never).0, Directives(c, log);
    AppendIs(c, log, d, Never);
    AppendIs(c, after, d, again);
    if HasId(all, d.id) {
      SameIsThere(all, d);
    } else {
      assert Directives(c, after)[|all|] == d;
    }
  }

  ghost predicate DistinctIds(directives: seq<Directive>) {
    forall i, j :: 0 <= i < j < |directives| ==> directives[i].id != directives[j].id
  }

  lemma {:induction false} TerminatedDistinct(c: Codec, lines: seq<Bytes>)
    requires ReadTerminated(c, lines).Ok?
    ensures DistinctIds(ReadTerminated(c, lines).value)
    decreases |lines|
  {
    if lines != [] {
      TerminatedDistinct(c, lines[..|lines| - 1]);
      var before := ReadTerminated(c, lines[..|lines| - 1]).value;
    }
  }

  /** What can be read has distinct ids. */
  lemma ReadDistinct(c: Codec, text: Bytes)
    requires Read(c, text).Ok?
    ensures DistinctIds(Read(c, text).value)
  {
    TerminatedDistinct(c, Terminated(text));
  }

  // ---------------------------------------------------------------- every run

  /** Over any run, with crashes anywhere and any retries: the log can always be read, its ids are distinct,
      and no directive that was ever in it disappears or moves. */
  lemma {:induction false} RunIsSafe(c: Codec, logs: seq<Log>, steps: seq<Step>, m: nat, n: nat)
    requires Lawful(c) && Run(c, logs, steps) && m <= n < |logs|
    ensures LogOk(c, logs[n]) && DistinctIds(Directives(c, logs[n]))
    ensures Directives(c, logs[m]) <= Directives(c, logs[n])
    decreases n
  {
    hide Next, Read, DistinctIds;
    if n == 0 {
      EmptyReads(c);
    } else {
      RunIsSafe(c, logs, steps, if m < n then m else n - 1, n - 1);
      StepIs(c, logs[n - 1], steps[n - 1]);
    }
    ReadDistinct(c, logs[n].text);
  }

  lemma EmptyReads(c: Codec)
    ensures Read(c, []) == Ok([])
  {}

  ghost predicate NeverOpened(steps: seq<Step>, m: nat, n: nat) {
    forall k :: m <= k < n && k < |steps| ==> !(steps[k].StepGate? && !steps[k].closed)
  }

  /** Between the closing of the gate and the next attempt to open it the log stays exactly as it is. */
  lemma {:induction false} ClosedLogIsFrozen(c: Codec, logs: seq<Log>, steps: seq<Step>, m: nat, n: nat)
    requires Lawful(c) && Run(c, logs, steps) && m <= n < |logs| && logs[m].closed && NeverOpened(steps, m, n)
    ensures logs[n].closed && Directives(c, logs[n]) == Directives(c, logs[m])
    decreases n
  {
    hide Next, Read;
    if m < n {
      ClosedLogIsFrozen(c, logs, steps, m, n - 1);
      RunIsSafe(c, logs, steps, n - 1, n - 1);
      StepIs(c, logs[n - 1], steps[n - 1]);
    }
  }
}
