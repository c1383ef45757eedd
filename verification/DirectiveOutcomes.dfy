/** What the directive log reads and answers, in terms of its lines and of the directives in it. */
module DirectiveOutcomes {
  import opened DirectiveLog
  import opened DirectiveLogProofs
  import opened Wrappers

  // ---------------------------------------------------------------- lines

  function Joined(lines: seq<Bytes>): Bytes {
    if lines == [] then [] else Joined(lines[..|lines| - 1]) + lines[|lines| - 1] + [NEWLINE]
  }

  /** Every text is its complete lines, each with its newline, and a rest; no line has a newline in it. */
  lemma {:induction false} SplitIs(text: Bytes)
    ensures text == Joined(Terminated(text)) + Tail(text)
    ensures forall line :: line in Split(text) ==> NEWLINE !in line
    decreases |text|
  {
    if text != [] {
      var shorter := text[..|text| - 1];
      SplitIs(shorter);
      var lines := Split(shorter);
      var last := |lines| - 1;
      assert text == shorter + [text[|text| - 1]];
      assert lines[last] in lines;
      if text[|text| - 1] == NEWLINE {
        assert Terminated(text) == lines;
        assert lines == lines[..last] + [lines[last]];
      } else {
        assert Terminated(text) == lines[..last];
        assert Tail(text) == lines[last] + [text[|text| - 1]];
        forall line | line in Split(text)
          ensures NEWLINE !in line
        {
          assert line in lines || line == Tail(text);
        }
      }
    }
  }

  // ---------------------------------------------------------------- reading

  /** The lines, blank ones left out, are these directives, one each and in order. */
  predicate Spell(c: Codec, lines: seq<Bytes>, directives: seq<Directive>)
    decreases |lines|
  {
    if lines == [] then directives == []
    else if lines[0] == [] || c.blank(lines[0]) then Spell(c, lines[1..], directives)
    else directives != [] && c.parse(lines[0]) == Is(directives[0]) && Spell(c, lines[1..], directives[1..])
  }

  ghost predicate NoIdTwice(directives: seq<Directive>) {
    forall i, j :: 0 <= i < |directives| && 0 <= j < |directives| && directives[i].id == directives[j].id ==> i == j
  }

  lemma {:induction false} SpellAtEnd(c: Codec, lines: seq<Bytes>, line: Bytes, directives: seq<Directive>)
    ensures Spell(c, lines + [line], directives) <==>
              if line == [] || c.blank(line) then Spell(c, lines, directives)
              else directives != [] && c.parse(line) == Is(directives[|directives| - 1]) &&
                   Spell(c, lines, directives[..|directives| - 1])
    decreases |lines|
  {
    var more := lines + [line];
    if lines == [] {
      assert more[1..] == [];
    } else {
      assert more[1..] == lines[1..] + [line];
      if lines[0] == [] || c.blank(lines[0]) {
        SpellAtEnd(c, lines[1..], line, directives);
      } else if directives != [] {
        SpellAtEnd(c, lines[1..], line, directives[1..]);
        if |directives| > 1 {
          var shorter := directives[..|directives| - 1];
          assert shorter[1..] == directives[1..][..|directives[1..]| - 1];
        }
      }
    }
  }

  lemma {:induction false} CompleteLinesAre(c: Codec, lines: seq<Bytes>, directives: seq<Directive>)
    requires Lawful(c)
    ensures ReadTerminated(c, lines) == Ok(directives) <==> Spell(c, lines, directives) && NoIdTwice(directives)
    decreases |lines|
  {
    hide Lawful;
    if lines != [] {
      var last := |lines| - 1;
      var line := lines[last];
      assert lines == lines[..last] + [line];
      ReturnIsNothing(c, line);
      SpellAtEnd(c, lines[..last], line, directives);
      CompleteLinesAre(c, lines[..last], directives);
      if directives != [] {
        CompleteLinesAre(c, lines[..last], directives[..|directives| - 1]);
        LastIdIsNew(directives);
        assert directives == directives[..|directives| - 1] + [directives[|directives| - 1]];
      }
      hide Spell, StripReturn;
    }
  }

  lemma LastIdIsNew(directives: seq<Directive>)
    requires directives != []
    ensures var n := |directives| - 1;
            NoIdTwice(directives) <==>
              NoIdTwice(directives[..n]) && !HasId(directives[..n], directives[n].id)
  {
    var n := |directives| - 1;
    if HasId(directives[..n], directives[n].id) {
      var i :| 0 <= i < n && directives[..n][i].id == directives[n].id;
      assert directives[i].id == directives[n].id;
    }
    if NoIdTwice(directives[..n]) && !HasId(directives[..n], directives[n].id) {
      forall i, j | 0 <= i < |directives| && 0 <= j < |directives| && directives[i].id == directives[j].id
        ensures i == j
      {
        assert i < n ==> directives[..n][i].id == directives[i].id;
        assert j < n ==> directives[..n][j].id == directives[j].id;
      }
    }
  }

  /** A last line without its newline, unless it is blank or no JSON. */
  function OpenLine(c: Codec, text: Bytes): seq<Bytes> {
    if Tail(text) == [] || c.blank(Tail(text)) || c.parse(Tail(text)) == NotJson then [] else [Tail(text)]
  }

  /** A text reads as these directives exactly if its complete lines, and the open one if it counts, are these in
      order, and no two of them share an id. */
  lemma ReadIs(c: Codec, text: Bytes, directives: seq<Directive>)
    requires Lawful(c)
    ensures Read(c, text) == Ok(directives) <==>
              Spell(c, Terminated(text) + OpenLine(c, text), directives) && NoIdTwice(directives)
  {
    hide Lawful, Split, Spell, NoIdTwice;
    CompleteLinesAre(c, Terminated(text), directives);
    var tail := Tail(text);
    if OpenLine(c, text) == [] {
      assert Terminated(text) + [] == Terminated(text);
    } else {
      SpellAtEnd(c, Terminated(text), tail, directives);
      if directives != [] {
        CompleteLinesAre(c, Terminated(text), directives[..|directives| - 1]);
        LastIdIsNew(directives);
        assert directives == directives[..|directives| - 1] + [directives[|directives| - 1]];
      }
    }
  }

  /** The last `limit` directives, in order. */
  lemma LatestIs(directives: seq<Directive>, limit: nat)
    ensures var latest := Latest(directives, limit);
            |latest| == (if |directives| < limit then |directives| else limit) &&
            latest == directives[|directives| - |latest|..]
  {}

  // ---------------------------------------------------------------- operations

  predicate HasRequest(directives: seq<Directive>, d: Directive) {
    exists e :: e in directives && e.id == d.id && e.runId == d.runId && e.text == d.text && e.source == d.source &&
      e.scope == d.scope
  }

  lemma {:induction false} SameIs(directives: seq<Directive>, d: Directive)
    requires DistinctIds(directives)
    ensures Same(directives, d) <==> HasRequest(directives, d)
    decreases |directives|
  {
    if directives != [] {
      var rest := directives[1..];
      assert directives == [directives[0]] + rest;
      SameIs(rest, d);
      forall e: Directive
        ensures e in directives <==> e == directives[0] || e in rest
      {
      }
      if directives[0].id == d.id {
        forall e | e in rest
          ensures e.id != d.id
        {
          var k :| 0 <= k < |rest| && rest[k] == e;
          assert directives[k + 1] == e;
        }
      }
    }
  }

  /** Why an append is refused, in the order of the checks; a request that is there already is answered as done; and a
      new one is in the log exactly if its record got there in full. Otherwise the log reads as before. */
  lemma AppendMeans(c: Codec, log: Log, d: Directive, crash: Crash)
    requires Lawful(c) && LogOk(c, log)
    ensures var (after, result) := Append(c, log, d, crash); var all := Directives(c, log);
            after.closed == log.closed &&
            if !c.valid(d) then after == log && result == Err(InvalidDirective)
            else if log.closed then after == log && result == Err(GateClosed)
            else if crash.AtOnce? then after == log && result == Err(Crashed)
            else if exists e :: e in all && e.id == d.id then
              Read(c, after.text) == Ok(all) &&
              result == if !HasRequest(all, d) then Err(IdTaken) else if crash.Never? then Ok(()) else Err(Crashed)
            else if |all| >= 10_000 then Read(c, after.text) == Ok(all) && result == Err(LimitReached)
            else if crash.Never? then Read(c, after.text) == Ok(all + [d]) && result == Ok(())
            else
              Read(c, after.text) == Ok(if crash.bytes >= |c.encode(d)| then all + [d] else all) &&
              result == Err(Crashed)
  {
    AppendIs(c, log, d, crash);
    ReadDistinct(c, log.text);
    RepairKeeps(c, log.text);
    var all := Directives(c, log);
    SameIs(all, d);
    HasIdIs(all, d.id);
    hide Lawful, Read, Repair, HasId, Same, HasRequest;
    assert Latest(all, MAX_DIRECTIVES) == all;
  }

  lemma HasIdIs(directives: seq<Directive>, id: string)
    ensures HasId(directives, id) <==> exists e :: e in directives && e.id == id
  {}

  /** Opening and closing work on every readable log; the marker moves only if nothing crashes, and the directives
      stay. */
  lemma SetGateMeans(c: Codec, log: Log, closed: bool, crash: Crash)
    requires Lawful(c) && LogOk(c, log)
    ensures var (after, result) := SetGate(c, log, closed, crash);
            Read(c, after.text) == Read(c, log.text) &&
            (result.Ok? <==> crash.Never?) && (result.Err? ==> result == Err(Crashed)) &&
            after.closed == if crash.Never? then closed else log.closed
  {
    RepairKeeps(c, log.text);
    hide Lawful, Read, Repair;
  }
}
