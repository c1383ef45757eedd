/** Order, accounting, back-pressure and closing of the bounded writer, over every run. */
module WriterProofs {
  import opened WriterModel

  function Bytes(queue: seq<Message>): nat {
    if queue == [] then 0 else queue[0].bytes + Bytes(queue[1..])
  }

  /** The messages that were not cancelled, in order. */
  function Kept(messages: seq<Message>, cancelled: set<nat>): seq<Message> {
    if messages == [] then []
    else (if messages[0].id in cancelled then [] else [messages[0]]) + Kept(messages[1..], cancelled)
  }

  ghost predicate Numbered(messages: seq<Message>, next: nat) {
    (forall i :: 0 <= i < |messages| ==> messages[i].id < next) && Increasing(messages)
  }

  /** Between two calls: nothing is lost, doubled, reordered or miscounted, and nothing waits without reason. */
  ghost predicate WriterOk(l: Limits, w: Writer) {
    Numbered(w.accepted, w.next) && (forall id :: id in w.cancelled ==> id < w.next) &&
    (!w.closed ==> w.sent + w.queue == Kept(w.accepted, w.cancelled)) &&
    (w.closed ==> w.queue == [] && w.sent <= Kept(w.accepted, w.cancelled) && !w.backpressured) &&
    w.queuedBytes == Bytes(w.queue) <= l.maxQueueBytes && |w.queue| <= l.maxQueueMessages &&
    (!w.backpressured ==> w.queue == []) &&
    w.listeners == if w.backpressured then 1 else 0
  }

  // ---------------------------------------------------------------- lists

  lemma {:induction false} KeptAppend(messages: seq<Message>, m: Message, cancelled: set<nat>)
    ensures Kept(messages + [m], cancelled) == Kept(messages, cancelled) + if m.id in cancelled then [] else [m]
    decreases |messages|
  {
    if messages != [] {
      KeptAppend(messages[1..], m, cancelled);
      assert (messages + [m])[1..] == messages[1..] + [m];
    }
  }

  lemma {:induction false} BytesConcat(a: seq<Message>, b: seq<Message>)
    ensures Bytes(a + b) == Bytes(a) + Bytes(b)
    decreases |a|
  {
    if a == [] {
      assert a + b == b;
    } else {
      BytesConcat(a[1..], b);
      assert (a + b)[1..] == a[1..] + b;
    }
  }

  ghost predicate Increasing(messages: seq<Message>) {
    forall i, j :: 0 <= i < j < |messages| ==> messages[i].id < messages[j].id
  }

  lemma {:induction false} KeptTwice(messages: seq<Message>, cancelled: set<nat>, more: set<nat>)
    ensures Kept(Kept(messages, cancelled), more) == Kept(messages, cancelled + more)
    decreases |messages|
  {
    if messages != [] {
      KeptTwice(messages[1..], cancelled, more);
      assert Kept(messages, cancelled)[|Kept(messages, cancelled)| - |Kept(messages[1..], cancelled)|..] ==
        Kept(messages[1..], cancelled);
    }
  }

  lemma {:induction false} KeptIncreasing(messages: seq<Message>, cancelled: set<nat>, low: nat)
    requires Increasing(messages) && forall i :: 0 <= i < |messages| ==> low <= messages[i].id
    ensures Increasing(Kept(messages, cancelled))
    ensures forall i :: 0 <= i < |Kept(messages, cancelled)| ==> low <= Kept(messages, cancelled)[i].id
    decreases |messages|
  {
    if messages != [] {
      KeptIncreasing(messages[1..], cancelled, messages[0].id + 1);
    }
  }

  lemma {:induction false} AllKept(messages: seq<Message>, cancelled: set<nat>)
    requires forall i :: 0 <= i < |messages| ==> messages[i].id !in cancelled
    ensures Kept(messages, cancelled) == messages
    decreases |messages|
  {
    if messages != [] {
      AllKept(messages[1..], cancelled);
    }
  }

  lemma {:induction false} OneDropped(messages: seq<Message>, n: nat)
    requires Increasing(messages) && n < |messages|
    ensures Kept(messages, {messages[n].id}) == messages[..n] + messages[n + 1..]
    decreases |messages|
  {
    if n == 0 {
      AllKept(messages[1..], {messages[0].id});
      assert messages[..0] + messages[1..] == messages[1..];
    } else {
      OneDropped(messages[1..], n - 1);
      assert messages[..n] + messages[n + 1..] == [messages[0]] + (messages[1..][..n - 1] + messages[1..][n..]);
    }
  }

  /** What is kept after one more cancellation. */
  lemma KeptWithout(messages: seq<Message>, cancelled: set<nat>, n: nat)
    requires Increasing(messages) && n < |Kept(messages, cancelled)|
    ensures var kept := Kept(messages, cancelled); Kept(messages, cancelled + {kept[n].id}) == kept[..n] + kept[n + 1..]
  {
    KeptIncreasing(messages, cancelled, 0);
    OneDropped(Kept(messages, cancelled), n);
    KeptTwice(messages, cancelled, {Kept(messages, cancelled)[n].id});
  }

  lemma {:induction false} KeptFrom(messages: seq<Message>, cancelled: set<nat>, n: nat)
    requires n < |Kept(messages, cancelled)|
    ensures Kept(messages, cancelled)[n].id !in cancelled
    ensures exists i :: 0 <= i < |messages| && messages[i] == Kept(messages, cancelled)[n]
    decreases |messages|
  {
    if messages[0].id in cancelled {
      KeptFrom(messages[1..], cancelled, n);
      var i :| 0 <= i < |messages[1..]| && messages[1..][i] == Kept(messages[1..], cancelled)[n];
      assert messages[i + 1] == Kept(messages, cancelled)[n];
    } else if n > 0 {
      KeptFrom(messages[1..], cancelled, n - 1);
      var i :| 0 <= i < |messages[1..]| && messages[1..][i] == Kept(messages[1..], cancelled)[n - 1];
      assert messages[i + 1] == Kept(messages, cancelled)[n];
    } else {
      assert messages[0] == Kept(messages, cancelled)[0];
    }
  }

  // ---------------------------------------------------------------- steps

  /** While the queue is being flushed it need not be empty. */
  ghost predicate Flushing(l: Limits, w: Writer) {
    Numbered(w.accepted, w.next) && (forall id :: id in w.cancelled ==> id < w.next) &&
    !w.closed && !w.backpressured && w.listeners == 0 &&
    w.sent + w.queue == Kept(w.accepted, w.cancelled) &&
    w.queuedBytes == Bytes(w.queue) <= l.maxQueueBytes && |w.queue| <= l.maxQueueMessages
  }

  lemma {:induction false} FlushKeeps(l: Limits, w: Writer)
    requires Flushing(l, w)
    ensures WriterOk(l, Flush(w)) && w.sent <= Flush(w).sent && Flush(w).accepted == w.accepted &&
            Flush(w).cancelled == w.cancelled
    decreases |w.queue|
  {
    if w.queue != [] {
      var m := w.queue[0];
      var after := Send(Pop(w), m);
      assert w.sent + w.queue == (w.sent + [m]) + w.queue[1..];
      if !after.closed && !after.backpressured {
        FlushKeeps(l, after);
      } else {
        assert Flush(after) == after;
      }
    }
  }

  lemma PassKeeps(l: Limits, w: Writer, m: Message)
    requires WriterOk(l, w) && !w.closed && w.queue == [] && !w.backpressured && m.id == w.next
    ensures var after := Send(w, m);
            w.sent <= after.sent &&
            WriterOk(l, if after.closed then after else after.(accepted := w.accepted + [m], next := w.next + 1))
  {
    KeptAppend(w.accepted, m, w.cancelled);
    NumberedAppend(w.accepted, m);
    SendIs(w, m);
    assert Bytes([]) == 0 && m.id !in w.cancelled;
    hide Kept, Bytes, Numbered, Send;
    assert w.sent + w.queue == w.sent && w.sent + [m] + [] == w.sent + [m];
    var after := Send(w, m);
    if !after.closed {
      var done := after.(accepted := w.accepted + [m], next := w.next + 1);
      assert Kept(done.accepted, done.cancelled) == done.sent + done.queue;
      assert WriterOk(l, done);
    } else {
      assert WriterOk(l, after);
    }
  }

  /** A message sent while nothing waits: the writer closes, or the message is out. */
  lemma SendIs(w: Writer, m: Message)
    requires !w.closed && w.queue == [] && !w.backpressured
    ensures var after := Send(w, m);
            after.queue == [] && after.accepted == w.accepted && after.cancelled == w.cancelled &&
            after.next == w.next &&
            if after.closed
            then after.sent == w.sent && after.queuedBytes == 0 && !after.backpressured &&
                 after.listeners == w.listeners
            else after.sent == w.sent + [m] && after.queuedBytes == w.queuedBytes &&
                 after.listeners == w.listeners + if after.backpressured then 1 else 0
  {}

  lemma NumberedAppend(messages: seq<Message>, m: Message)
    requires Numbered(messages, m.id)
    ensures Numbered(messages + [m], m.id + 1)
  {}

  lemma QueueKeeps(l: Limits, w: Writer, m: Message)
    requires WriterOk(l, w) && !w.closed && w.backpressured && m.id == w.next
    requires |w.queue| < l.maxQueueMessages && w.queuedBytes + m.bytes <= l.maxQueueBytes
    ensures WriterOk(l, w.(queue := w.queue + [m], queuedBytes := w.queuedBytes + m.bytes,
                           accepted := w.accepted + [m], next := w.next + 1))
  {
    KeptAppend(w.accepted, m, w.cancelled);
    BytesConcat(w.queue, [m]);
    assert Bytes([m]) == m.bytes;
    hide Kept, Bytes;
    assert w.sent + (w.queue + [m]) == w.sent + w.queue + [m];
  }

  lemma WriteKeeps(l: Limits, w: Writer, text: string, destroyed: bool)
    requires WriterOk(l, w)
    ensures WriterOk(l, Write(l, w, text, destroyed).0) && w.sent <= Write(l, w, text, destroyed).0.sent
  {
    hide Kept, Bytes, Numbered, Send;
    var m := Message(w.next, text, l.byteLength(text));
    CloseKeeps(l, w);
    if !w.closed && !w.backpressured && w.queue == [] {
      PassKeeps(l, w, m);
    } else if !w.closed && |w.queue| < l.maxQueueMessages && w.queuedBytes + m.bytes <= l.maxQueueBytes {
      QueueKeeps(l, w, m);
    }
  }

  lemma CancelledBytes(queue: seq<Message>, n: nat)
    requires n < |queue|
    ensures Bytes(queue[..n] + queue[n + 1..]) == Bytes(queue) - queue[n].bytes
  {
    assert Bytes([queue[n]]) == queue[n].bytes;
    hide Bytes;
    assert queue == queue[..n] + ([queue[n]] + queue[n + 1..]);
    BytesConcat(queue[..n], [queue[n]] + queue[n + 1..]);
    BytesConcat([queue[n]], queue[n + 1..]);
    BytesConcat(queue[..n], queue[n + 1..]);
  }

  lemma CancelKeeps(l: Limits, w: Writer, id: nat)
    requires WriterOk(l, w)
    ensures WriterOk(l, Cancel(w, id).0)
  {
    var n := IndexOf(w.queue, id);
    hide IndexOf;
    if !w.closed && n < |w.queue| {
      var kept, at := w.sent + w.queue, |w.sent| + n;
      var rest := w.queue[..n] + w.queue[n + 1..];
      assert Increasing(w.accepted) && kept == Kept(w.accepted, w.cancelled);
      hide Bytes, Kept, Numbered, Increasing;
      assert kept[at] == w.queue[n];
      KeptFrom(w.accepted, w.cancelled, at);
      KeptWithout(w.accepted, w.cancelled, at);
      CancelledBytes(w.queue, n);
      assert w.sent + rest == kept[..at] + kept[at + 1..];
      CancelledId(w, kept, at);
      assert w.queue != [] && w.backpressured;
    }
  }

  /** A message that is kept has a number that was given out. */
  lemma CancelledId(w: Writer, kept: seq<Message>, at: nat)
    requires Numbered(w.accepted, w.next) && kept == Kept(w.accepted, w.cancelled) && at < |kept|
    ensures kept[at].id < w.next
  {
    KeptFrom(w.accepted, w.cancelled, at);
  }

  /** Every call keeps the writer in order; nothing that was sent is taken back, and no cancellation is forgotten. */
  lemma NextKeeps(l: Limits, w: Writer, step: Step)
    requires WriterOk(l, w)
    ensures var after := Next(l, w, step);
            WriterOk(l, after) && w.sent <= after.sent && w.cancelled <= after.cancelled &&
            (w.closed ==> after.closed && after.sent == w.sent)
  {
    hide Kept, Bytes, Flush, Write, Cancel;
    match step
    case StepWrite(text, destroyed) =>
      WriteKeeps(l, w, text, destroyed);
      WriteCancelsNothing(l, w, text, destroyed);
    case StepCancel(id) =>
      CancelKeeps(l, w, id);
      CancelSendsNothing(l, w, id);
    case StepDrain =>
      if w.listeners > 0 && !w.closed {
        FlushKeeps(l, w.(listeners := w.listeners - 1, backpressured := false));
      }
    case StepClose => CloseKeeps(l, w);
  }

  lemma WriteCancelsNothing(l: Limits, w: Writer, text: string, destroyed: bool)
    ensures Write(l, w, text, destroyed).0.cancelled == w.cancelled
    ensures w.closed ==> Write(l, w, text, destroyed).0 == w
  {}

  lemma CancelSendsNothing(l: Limits, w: Writer, id: nat)
    ensures var (after, done) := Cancel(w, id);
            after.sent == w.sent && after.closed == w.closed && w.cancelled <= after.cancelled &&
            (done ==> id in after.cancelled)
  {}

  lemma CloseKeeps(l: Limits, w: Writer)
    requires WriterOk(l, w)
    ensures WriterOk(l, Close(w)) && Close(w).closed && Close(w).sent == w.sent
  {
    assert w.sent <= w.sent + w.queue;
  }

  /** Over every run of calls and stream answers the accounting holds; what was sent stays sent; after a
      close nothing more is sent; and a message whose cancel returned true is never sent. */
  lemma {:induction false} RunIsSafe(l: Limits, script: seq<Reply>, writers: seq<Writer>, steps: seq<Step>, m: nat,
      n: nat)
    requires Run(l, script, writers, steps) && m <= n < |writers|
    ensures WriterOk(l, writers[n])
    ensures writers[m].sent <= writers[n].sent
    ensures writers[m].closed ==> writers[n].closed && writers[n].sent == writers[m].sent
    ensures forall id, i :: id in writers[m].cancelled && 0 <= i < |writers[n].sent| ==> writers[n].sent[i].id != id
    decreases n
  {
    hide Next, WriterOk;
    CancelledStay(l, script, writers, steps, m, n);
    CancelledIsNotSent(l, writers[n]);
  }

  lemma {:induction false} CancelledStay(l: Limits, script: seq<Reply>, writers: seq<Writer>, steps: seq<Step>, m: nat,
      n: nat)
    requires Run(l, script, writers, steps) && m <= n < |writers|
    ensures WriterOk(l, writers[n]) && writers[m].sent <= writers[n].sent &&
            writers[m].cancelled <= writers[n].cancelled
    ensures writers[m].closed ==> writers[n].closed && writers[n].sent == writers[m].sent
    decreases n
  {
    hide Next, WriterOk;
    if n == 0 {
      InitIsOk(l, script);
    } else {
      CancelledStay(l, script, writers, steps, if m < n then m else n - 1, n - 1);
      NextKeeps(l, writers[n - 1], steps[n - 1]);
    }
  }

  lemma InitIsOk(l: Limits, script: seq<Reply>)
    ensures WriterOk(l, Init(script))
  {}

  lemma CancelledIsNotSent(l: Limits, w: Writer)
    requires WriterOk(l, w)
    ensures forall i :: 0 <= i < |w.sent| ==> w.sent[i].id !in w.cancelled
  {
    forall i | 0 <= i < |w.sent|
      ensures w.sent[i].id !in w.cancelled
    {
      assert w.sent[i] == Kept(w.accepted, w.cancelled)[i];
      KeptFrom(w.accepted, w.cancelled, i);
    }
  }

  /** As long as the stream does not fail, every accepted message that is not cancelled is sent or waiting,
      and once the stream has taken everything nothing waits: an open writer is never stuck. */
  lemma NeverStuck(l: Limits, w: Writer)
    requires WriterOk(l, w) && !w.closed && w.queue != []
    ensures w.listeners == 1 && w.backpressured
    ensures !(w.script != [] && w.script[0].Fails?) ==> w.sent + [w.queue[0]] <= Drain(w).sent
  {
    var told := w.(listeners := 0, backpressured := false);
    var after := Send(Pop(told), w.queue[0]);
    if !after.closed && !after.backpressured {
      assert w.sent + w.queue == (w.sent + [w.queue[0]]) + w.queue[1..];
      FlushKeeps(l, after);
    } else {
      assert Flush(after) == after;
    }
  }
}
