/** The command log of a run, as an object over its file and its gate marker. */
module DirectiveStore {
  import opened DirectiveLog
  import opened DirectiveLogProofs
  import opened Wrappers

  class CommandLog {
    const codec: Codec
    var text: Bytes
    var closed: bool

    function View(): Log
      reads this
    {
      Log(text, closed)
    }

    constructor (c: Codec)
      ensures codec == c && View() == Log([], false)
    {
      codec, text, closed := c, [], false;
    }

    /** The last `limit` directives. A last line without a newline may be no JSON; any other line may not. */
    method ReadDirectives(limit: int) returns (result: Result<seq<Directive>, Failure>)
      ensures result == if limit < 1 || limit > MAX_DIRECTIVES then Err(BadLimit)
                        else match Read(codec, text)
                             case Ok(all) => Ok(Latest(all, limit))
                             case Err(failure) => Err(failure)
    {
      if limit < 1 || limit > MAX_DIRECTIVES { return Err(BadLimit); }
      var lines := Split(text);
      var terminated := EndsInNewline(text);
      var directives, ids := [], {};
      var last := |lines| - 1;
      assert terminated ==> lines[last] == [];
      hide Split, Read, ReadTerminated, HasId;
      ReadTerminatedNone(codec);
      for i := 0 to |lines|
        invariant forall id :: id in ids <==> HasId(directives, id)
        invariant i <= last ==> ReadTerminated(codec, lines[..i]) == Ok(directives)
        invariant i > last ==> Read(codec, text) == Ok(directives)
      {
        var line := if i < last then StripReturn(lines[i]) else lines[i];
        LineDecides(codec, text, directives, i);
        if !IsBlank(codec, line) {
          match codec.parse(line) {
            case NotJson =>
              if terminated || i != last { return Err(InvalidJson); }
            case Foreign =>
              return Err(InvalidDirective);
            case Is(d) =>
              if d.id in ids { return Err(DuplicateId); }
              ids := ids + {d.id};
              HasOneMoreId(directives, d);
              directives := directives + [d];
          }
        }
      }
      return Ok(Latest(directives, limit));
    }

    /** Ends a complete last record, and cuts off an incomplete one. */
    method RepairTruncatedTail()
      modifies `text
      ensures text == Repair(codec, old(text))
    {
      if text == [] || EndsInNewline(text) { return; }
      var end := |text|;
      assert text[..end] == text;
      while end > 0 && text[end - 1] != NEWLINE
        invariant 0 <= end <= |text| && text == old(text)
        invariant WithoutTail(text) == WithoutTail(text[..end])
      {
        assert text[..end][..end - 1] == text[..end - 1];
        end := end - 1;
      }
      WithoutTailIs(text);
      assert WithoutTail(text) == text[..end];
      var tail := text[end..];
      assert tail == Tail(text);
      if codec.parse(tail).Is? {
        text := text + [NEWLINE];
      } else {
        text := text[..end];
      }
    }

    method AppendDirective(d: Directive, crash: Crash) returns (result: Result<(), Failure>)
      modifies this
      ensures (View(), result) == Append(codec, old(View()), d, crash)
    {
      hide Read, Repair, SameRequest;
      if !codec.valid(d) { return Err(InvalidDirective); }
      if closed { return Err(GateClosed); }
      if crash.AtOnce? { return Err(Crashed); }
      RepairTruncatedTail();
      var read := ReadDirectives(MAX_DIRECTIVES);
      if read.Err? { return Err(read.error); }
      var existing := read.value;
      var n := 0;
      while n < |existing| && existing[n].id != d.id
        invariant n <= |existing|
        invariant forall i :: 0 <= i < n ==> existing[i].id != d.id
        invariant Same(existing, d) == Same(existing[n..], d)
      {
        n := n + 1;
      }
      if n < |existing| {
        assert HasId(existing, d.id);
        if !SameRequest(existing[n], d) { return Err(IdTaken); }
      } else {
        if |existing| >= MAX_DIRECTIVES { return Err(LimitReached); }
        text := text + Cut(Record(codec, d), crash);
      }
      return if crash.Never? then Ok(()) else Err(Crashed);
    }

    method OpenGate(crash: Crash) returns (result: Result<(), Failure>)
      modifies this
      ensures (View(), result) == SetGate(codec, old(View()), false, crash)
    {
      if crash.AtOnce? { return Err(Crashed); }
      RepairTruncatedTail();
      var read := ReadDirectives(MAX_DIRECTIVES);
      if read.Err? { return Err(read.error); }
      if crash.After? { return Err(Crashed); }
      closed := false;
      return Ok(());
    }

    method CloseGate(crash: Crash) returns (result: Result<(), Failure>)
      modifies this
      ensures (View(), result) == SetGate(codec, old(View()), true, crash)
    {
      if crash.AtOnce? { return Err(Crashed); }
      RepairTruncatedTail();
      var read := ReadDirectives(MAX_DIRECTIVES);
      if read.Err? { return Err(read.error); }
      if crash.After? { return Err(Crashed); }
      closed := true;
      return Ok(());
    }
  }

  lemma ReadTerminatedNone(c: Codec)
    ensures ReadTerminated(c, []) == Ok([]) && forall id :: !HasId([], id)
  {}

  /** Reading a text goes on, or fails, line by line. */
  lemma LineDecides(c: Codec, text: Bytes, directives: seq<Directive>, i: nat)
    requires i < |Split(text)| && ReadTerminated(c, Split(text)[..i]) == Ok(directives)
    ensures var lines := Split(text);
            if i < |lines| - 1
            then var step := ReadLine(c, directives, StripReturn(lines[i]), true);
                 ReadTerminated(c, lines[..i + 1]) == step && (step.Err? ==> Read(c, text) == step)
            else Read(c, text) == ReadLine(c, directives, lines[i], false)
  {
    hide Split, ReadTerminated, ReadLine;
    var lines := Split(text);
    if i < |lines| - 1 {
      assert lines[..i + 1] == lines[..i] + [lines[i]];
      ReadOneMore(c, lines[..i], lines[i]);
      assert Terminated(text)[..i + 1] == lines[..i + 1];
      FailuresStay(c, text, i + 1);
    }
  }

  lemma HasOneMoreId(directives: seq<Directive>, d: Directive)
    ensures forall id :: HasId(directives + [d], id) <==> HasId(directives, id) || id == d.id
  {
    var more := directives + [d];
    assert more[|directives|] == d;
    forall id | HasId(directives, id)
      ensures HasId(more, id)
    {
      var i :| 0 <= i < |directives| && directives[i].id == id;
      assert more[i].id == id;
    }
  }

  /** A line that cannot be read makes the whole text unreadable, for the same reason. */
  lemma {:induction false} FailuresStay(c: Codec, text: Bytes, n: nat)
    requires n <= |Terminated(text)|
    ensures ReadTerminated(c, Terminated(text)[..n]).Err? ==>
              Read(c, text) == Err(ReadTerminated(c, Terminated(text)[..n]).error)
    decreases |Terminated(text)| - n
  {
    var lines := Terminated(text);
    if n == |lines| {
      assert lines[..n] == lines;
    } else {
      assert lines[..n + 1] == lines[..n] + [lines[n]];
      ReadOneMore(c, lines[..n], lines[n]);
      FailuresStay(c, text, n + 1);
    }
  }
}
