/** The bounded writer as an object in front of a stream object. */
module BoundedWriter {
  import opened WriterModel
  import opened WriterProofs

  /** The writable end: what it will answer, what it was given, and who waits for it to drain. */
  class Stdin {
    var script: seq<Reply>
    var sent: seq<Message>
    var listeners: int

    constructor (answers: seq<Reply>)
      ensures script == answers && sent == [] && listeners == 0
    {
      script, sent, listeners := answers, [], 0;
    }

    method Write(m: Message) returns (reply: Reply)
      modifies `script, `sent
      ensures reply == if old(script) == [] then Taken else old(script)[0]
      ensures script == if old(script) == [] then [] else old(script)[1..]
      ensures sent == if reply.Fails? then old(sent) else old(sent) + [m]
    {
      reply := Taken;
      if script != [] {
        reply, script := script[0], script[1..];
      }
      if !reply.Fails? {
        sent := sent + [m];
      }
    }
  }

  class BoundedStdioWriter {
    const limits: Limits
    const stream: Stdin
    var queue: seq<Message>
    var queuedBytes: int
    var backpressured: bool
    var closed: bool
    var fatal: nat
    var next: nat
    ghost var accepted: seq<Message>
    ghost var cancelled: set<nat>

    ghost function View(): Writer
      reads this, stream
    {
      Writer(queue, queuedBytes, backpressured, closed, stream.sent, stream.script, stream.listeners, fatal,
             accepted, cancelled, next)
    }

    ghost predicate Valid()
      reads this, stream
    {
      WriterOk(limits, View())
    }

    constructor (l: Limits, s: Stdin)
      requires s.sent == [] && s.listeners == 0
      ensures limits == l && stream == s && View() == Init(s.script) && Valid()
    {
      limits, stream := l, s;
      queue, queuedBytes, backpressured, closed, fatal, next := [], 0, false, false, 0, 0;
      accepted, cancelled := [], {};
      new;
      InitIsOk(l, s.script);
    }

    /** Hands a message over; a failing stream closes the writer. */
    method Send(m: Message) returns (ok: bool)
      modifies this, stream
      ensures View() == WriterModel.Send(old(View()), m)
      ensures ok ==> closed == old(closed)
      ensures !ok ==> closed
    {
      var reply := stream.Write(m);
      match reply {
        case Fails =>
          DoClose();
          fatal := fatal + 1;
          return false;
        case TakenAndFull =>
          backpressured := true;
          stream.listeners := stream.listeners + 1;
        case Taken =>
      }
      return true;
    }

    method DoClose()
      modifies this, stream
      ensures View() == WriterModel.Close(old(View()))
    {
      if closed { return; }
      closed := true;
      if backpressured {
        stream.listeners := stream.listeners - 1;
      }
      backpressured := false;
      queue := [];
      queuedBytes := 0;
    }

    method Close()
      requires Valid()
      modifies this, stream
      ensures Valid() && View() == WriterModel.Close(old(View()))
    {
      CloseKeeps(limits, View());
      DoClose();
    }

    /** Hands over what waits, for as long as the stream takes it. */
    method Flush()
      modifies this, stream
      ensures View() == WriterModel.Flush(old(View()))
    {
      hide WriterModel.Send;
      ghost var whole := WriterModel.Flush(View());
      while !closed && !backpressured && |queue| > 0
        invariant WriterModel.Flush(View()) == whole
        decreases |queue|
      {
        var m := queue[0];
        queue := queue[1..];
        queuedBytes := queuedBytes - m.bytes;
        SendShrinks(View(), m);
        var ok := Send(m);
        if !ok { break; }
      }
    }

    method OnDrain()
      requires Valid() && stream.listeners > 0
      modifies this, stream
      ensures Valid() && View() == Drain(old(View()))
    {
      NextKeeps(limits, View(), StepDrain);
      hide WriterOk;
      stream.listeners := stream.listeners - 1;
      if closed { return; }
      backpressured := false;
      Flush();
    }

    /** Passes the message on, queues it, or refuses it. */
    method Write(text: string, destroyed: bool) returns (answer: Answer)
      requires Valid()
      modifies this, stream
      ensures Valid() && (View(), answer) == WriterModel.Write(limits, old(View()), text, destroyed)
    {
      WriteKeeps(limits, View(), text, destroyed);
      hide WriterOk, WriterModel.Send, WriterModel.Close;
      if closed { return Rejected(WriterClosed); }
      var m := Message(next, text, limits.byteLength(text));
      if m.bytes > limits.maxMessageBytes { return Rejected(TooLarge); }
      if destroyed {
        DoClose();
        fatal := fatal + 1;
        return Rejected(Unavailable);
      }
      if !backpressured && |queue| == 0 {
        var ok := Send(m);
        if !ok { return Rejected(SendFailed); }
        accepted, next := accepted + [m], next + 1;
        return Passed;
      }
      if |queue| >= limits.maxQueueMessages || queuedBytes + m.bytes > limits.maxQueueBytes {
        return Rejected(OverCapacity);
      }
      queue := queue + [m];
      queuedBytes := queuedBytes + m.bytes;
      accepted, next := accepted + [m], next + 1;
      return Queued(m.id);
    }

    /** The cancel function of a queued message: true exactly if it still waited. */
    method Cancel(id: nat) returns (done: bool)
      requires Valid()
      modifies this
      ensures Valid() && (View(), done) == WriterModel.Cancel(old(View()), id)
    {
      CancelKeeps(limits, View(), id);
      hide WriterOk;
      if closed { return false; }
      var n := 0;
      while n < |queue| && queue[n].id != id
        invariant n <= |queue|
        invariant IndexOf(queue, id) == n + IndexOf(queue[n..], id)
      {
        n := n + 1;
      }
      if n == |queue| { return false; }
      queuedBytes := queuedBytes - queue[n].bytes;
      queue := queue[..n] + queue[n + 1..];
      cancelled := cancelled + {id};
      return true;
    }
  }
}
