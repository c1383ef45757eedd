/** The bounded writer in front of a stream that may take a message, take it and ask for a pause, or fail. */
module WriterModel {

  /** A message with the number under which its cancel function knows it. */
  datatype Message = Message(id: nat, text: string, bytes: nat)

  datatype Reply = Taken | TakenAndFull | Fails

  datatype LimitValues =
    Limits(maxMessageBytes: nat, maxQueueBytes: nat, maxQueueMessages: nat, byteLength: string -> nat)

  type Limits = l: LimitValues | l.maxMessageBytes > 0 && l.maxQueueBytes > 0 && l.maxQueueMessages > 0
    witness Limits(1, 1, 1, _ => 0)

  /** `script` is what the stream will answer, `sent` what it has been given, `listeners` how often the
      writer waits for its drain event. `accepted` and `cancelled` record what callers were told. */
  datatype Writer = Writer(
    queue: seq<Message>, queuedBytes: int, backpressured: bool, closed: bool,
    sent: seq<Message>, script: seq<Reply>, listeners: int, fatal: nat,
    accepted: seq<Message>, cancelled: set<nat>, next: nat)

  function Init(script: seq<Reply>): Writer {
    Writer([], 0, false, false, [], script, 0, 0, [], {}, 0)
  }

  function Close(w: Writer): Writer {
    if w.closed then w
    else w.(closed := true, listeners := if w.backpressured then w.listeners - 1 else w.listeners,
            backpressured := false, queue := [], queuedBytes := 0)
  }

  function Send(w: Writer, m: Message): Writer {
    var reply := if w.script == [] then Taken else w.script[0];
    var told := w.(script := if w.script == [] then [] else w.script[1..]);
    match reply
    case Taken => told.(sent := told.sent + [m])
    case TakenAndFull => told.(sent := told.sent + [m], backpressured := true, listeners := told.listeners + 1)
    case Fails => var closed := Close(told); closed.(fatal := closed.fatal + 1)
  }

  function Pop(w: Writer): Writer
    requires w.queue != []
  {
    w.(queue := w.queue[1..], queuedBytes := w.queuedBytes - w.queue[0].bytes)
  }

  lemma SendShrinks(w: Writer, m: Message)
    ensures |Send(w, m).queue| <= |w.queue|
  {}

  function Flush(w: Writer): Writer
    decreases |w.queue|
  {
    if w.closed || w.backpressured || w.queue == [] then w
    else
      SendShrinks(Pop(w), w.queue[0]);
      Flush(Send(Pop(w), w.queue[0]))
  }

  datatype Rejection = WriterClosed | TooLarge | Unavailable | OverCapacity | SendFailed

  /** `Passed` went to the stream at once and cannot be cancelled any more. */
  datatype Answer = Rejected(reason: Rejection) | Passed | Queued(id: nat)

  function Write(l: Limits, w: Writer, text: string, destroyed: bool): (Writer, Answer) {
    var m := Message(w.next, text, l.byteLength(text));
    if w.closed then (w, Rejected(WriterClosed))
    else if m.bytes > l.maxMessageBytes then (w, Rejected(TooLarge))
    else if destroyed then var closed := Close(w); (closed.(fatal := closed.fatal + 1), Rejected(Unavailable))
    else if !w.backpressured && w.queue == [] then
      var after := Send(w, m);
      if after.closed then (after, Rejected(SendFailed))
      else (after.(accepted := w.accepted + [m], next := w.next + 1), Passed)
    else if |w.queue| >= l.maxQueueMessages || w.queuedBytes + m.bytes > l.maxQueueBytes
    then (w, Rejected(OverCapacity))
    else
      (w.(queue := w.queue + [m], queuedBytes := w.queuedBytes + m.bytes,
          accepted := w.accepted + [m], next := w.next + 1),
       Queued(m.id))
  }

  /** The place of message `id` in the queue, or its length. */
  function IndexOf(queue: seq<Message>, id: nat): (n: nat)
    ensures n <= |queue|
    ensures n < |queue| ==> queue[n].id == id
    ensures forall i :: 0 <= i < n ==> queue[i].id != id
  {
    if queue == [] || queue[0].id == id then 0 else 1 + IndexOf(queue[1..], id)
  }

  function Cancel(w: Writer, id: nat): (Writer, bool) {
    var n := IndexOf(w.queue, id);
    if w.closed || n == |w.queue| then (w, false)
    else
      (w.(queue := w.queue[..n] + w.queue[n + 1..], queuedBytes := w.queuedBytes - w.queue[n].bytes,
          cancelled := w.cancelled + {id}),
       true)
  }

  /** The stream reports that it has drained; its listener is called once. */
  function Drain(w: Writer): Writer {
    if w.listeners <= 0 then w
    else
      var told := w.(listeners := w.listeners - 1);
      if told.closed then told else Flush(told.(backpressured := false))
  }

  datatype Step = StepWrite(text: string, destroyed: bool) | StepCancel(id: nat) | StepDrain | StepClose

  function Next(l: Limits, w: Writer, step: Step): Writer {
    match step
    case StepWrite(text, destroyed) => Write(l, w, text, destroyed).0
    case StepCancel(id) => Cancel(w, id).0
    case StepDrain => Drain(w)
    case StepClose => Close(w)
  }

  ghost predicate Run(l: Limits, script: seq<Reply>, writers: seq<Writer>, steps: seq<Step>) {
    |writers| == |steps| + 1 && writers[0] == Init(script) &&
    forall n :: 0 <= n < |steps| ==> writers[n + 1] == Next(l, writers[n], steps[n])
  }
}
