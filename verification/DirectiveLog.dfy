/** The log of directives: one record a line, appends that may be cut short at any byte, the repair of the
    unterminated tail, and the gate that closes the log. */
module DirectiveLog {
  import opened Wrappers

  type Bytes = seq<bv8>

  const NEWLINE: bv8 := 10
  const RETURN: bv8 := 13
  const MAX_DIRECTIVES: nat := 10_000

  datatype Directive = Directive(id: string, at: string, runId: string, text: string, source: string, scope: string)

  predicate SameRequest(a: Directive, b: Directive) {
    a.id == b.id && a.runId == b.runId && a.text == b.text && a.source == b.source && a.scope == b.scope
  }

  /** How a line reads: not JSON at all, JSON that is no directive of this run, or a directive. */
  datatype Reading = NotJson | Foreign | Is(directive: Directive)

  /** The text form of directives. */
  datatype Codec =
    Codec(valid: Directive -> bool, encode: Directive -> Bytes, parse: Bytes -> Reading, blank: Bytes -> bool)

  /** What is assumed of JSON: a valid directive reads back, its text has no line break, none of its strict
      prefixes is JSON or blank, and a carriage return at the end of a line does not matter. */
  ghost predicate Lawful(c: Codec) {
    c.blank([]) &&
    (forall d: Directive :: c.valid(d) ==> Encodes(c, d)) &&
    (forall line: Bytes :: c.parse(line + [RETURN]) == c.parse(line) && c.blank(line + [RETURN]) == c.blank(line))
  }

  ghost predicate Encodes(c: Codec, d: Directive) {
    c.parse(c.encode(d)) == Is(d) && NEWLINE !in c.encode(d) && RETURN !in c.encode(d) && !IsBlank(c, c.encode(d)) &&
    forall k :: 0 < k < |c.encode(d)| ==> !c.blank(c.encode(d)[..k]) && c.parse(c.encode(d)[..k]) == NotJson
  }

  datatype Failure =
    | InvalidJson | InvalidDirective | DuplicateId
    | GateClosed | IdTaken | LimitReached | BadLimit | Crashed

  // ---------------------------------------------------------------- lines

  /** The lines of a text; the last one is what follows the last newline. */
  function Split(text: Bytes): (lines: seq<Bytes>)
    ensures |lines| > 0
  {
    if text == [] then [[]]
    else
      var rest := Split(text[..|text| - 1]);
      var last := |rest| - 1;
      if text[|text| - 1] == NEWLINE then rest + [[]] else rest[last := rest[last] + [text[|text| - 1]]]
  }

  function Tail(text: Bytes): Bytes { var lines := Split(text); lines[|lines| - 1] }

  function Terminated(text: Bytes): seq<Bytes> { var lines := Split(text); lines[..|lines| - 1] }

  function StripReturn(line: Bytes): Bytes {
    if line != [] && line[|line| - 1] == RETURN then line[..|line| - 1] else line
  }

  // ---------------------------------------------------------------- reading

  predicate HasId(directives: seq<Directive>, id: string) {
    exists i :: 0 <= i < |directives| && directives[i].id == id
  }

  predicate IsBlank(c: Codec, line: Bytes) { line == [] || c.blank(line) }

  /** One more line; an unterminated last line may be something that is not JSON. */
  function ReadLine(c: Codec, directives: seq<Directive>, line: Bytes, terminated: bool)
    : Result<seq<Directive>, Failure>
  {
    if IsBlank(c, line) then Ok(directives)
    else
      match c.parse(line)
      case NotJson => if terminated then Err(InvalidJson) else Ok(directives)
      case Foreign => Err(InvalidDirective)
      case Is(d) => if HasId(directives, d.id) then Err(DuplicateId) else Ok(directives + [d])
  }

  function ReadTerminated(c: Codec, lines: seq<Bytes>): Result<seq<Directive>, Failure> {
    if lines == [] then Ok([])
    else
      match ReadTerminated(c, lines[..|lines| - 1])
      case Err(failure) => Err(failure)
      case Ok(directives) => ReadLine(c, directives, StripReturn(lines[|lines| - 1]), true)
  }

  /** All directives of a text. */
  function Read(c: Codec, text: Bytes): Result<seq<Directive>, Failure> {
    match ReadTerminated(c, Terminated(text))
    case Err(failure) => Err(failure)
    case Ok(directives) => ReadLine(c, directives, Tail(text), false)
  }

  // ---------------------------------------------------------------- repair

  predicate EndsInNewline(text: Bytes) { text != [] && text[|text| - 1] == NEWLINE }

  /** A complete last record gets its newline; anything else after the last newline is cut off. */
  function Repair(c: Codec, text: Bytes): (repaired: Bytes)
  {
    if text == [] || EndsInNewline(text) then text
    else if c.parse(Tail(text)).Is? then text + [NEWLINE]
    else WithoutTail(text)
  }

  function WithoutTail(text: Bytes): Bytes {
    if text == [] || EndsInNewline(text) then text else WithoutTail(text[..|text| - 1])
  }

  // ---------------------------------------------------------------- operations

  /** A crash before anything is written, or after the repair and so many bytes of an append. */
  datatype Crash = Never | AtOnce | After(bytes: nat)

  datatype Log = Log(text: Bytes, closed: bool)

  function Record(c: Codec, d: Directive): Bytes { c.encode(d) + [NEWLINE] }

  function Cut(bytes: Bytes, crash: Crash): Bytes {
    if crash.After? && crash.bytes < |bytes| then bytes[..crash.bytes] else bytes
  }

  function Latest(directives: seq<Directive>, limit: nat): seq<Directive> {
    if |directives| <= limit then directives else directives[|directives| - limit..]
  }

  /** Every operation first repairs the tail. */
  function Repaired(c: Codec, log: Log): Log { log.(text := Repair(c, log.text)) }

  function Append(c: Codec, log: Log, d: Directive, crash: Crash): (Log, Result<(), Failure>) {
    if !c.valid(d) then (log, Err(InvalidDirective))
    else if log.closed then (log, Err(GateClosed))
    else if crash.AtOnce? then (log, Err(Crashed))
    else
      var repaired := Repaired(c, log);
      match Read(c, repaired.text)
      case Err(failure) => (repaired, Err(failure))
      case Ok(directives) =>
        var existing := Latest(directives, MAX_DIRECTIVES);
        if HasId(existing, d.id) then
          (repaired, if Same(existing, d) then (if crash.Never? then Ok(()) else Err(Crashed)) else Err(IdTaken))
        else if |existing| >= MAX_DIRECTIVES then (repaired, Err(LimitReached))
        else (repaired.(text := repaired.text + Cut(Record(c, d), crash)),
              if crash.Never? then Ok(()) else Err(Crashed))
  }

  /** The first directive with the id of d is the same request. */
  predicate Same(directives: seq<Directive>, d: Directive) {
    directives != [] && if directives[0].id == d.id then SameRequest(directives[0], d) else Same(directives[1..], d)
  }

  /** Opening and closing the gate repair the tail, read the log, and then move the marker. */
  function SetGate(c: Codec, log: Log, closed: bool, crash: Crash): (Log, Result<(), Failure>) {
    if crash.AtOnce? then (log, Err(Crashed))
    else
      var repaired := Repaired(c, log);
      match Read(c, repaired.text)
      case Err(failure) => (repaired, Err(failure))
      case Ok(_) => if crash.After? then (repaired, Err(Crashed)) else (repaired.(closed := closed), Ok(()))
  }

  datatype Step = StepAppend(d: Directive, crash: Crash) | StepGate(closed: bool, crash: Crash)

  function Next(c: Codec, log: Log, step: Step): Log {
    match step
    case StepAppend(d, crash) => Append(c, log, d, crash).0
    case StepGate(closed, crash) => SetGate(c, log, closed, crash).0
  }

  ghost predicate Run(c: Codec, logs: seq<Log>, steps: seq<Step>) {
    |logs| == |steps| + 1 && logs[0] == Log([], false) &&
    forall n :: 0 <= n < |steps| ==> logs[n + 1] == Next(c, logs[n], steps[n])
  }
}
