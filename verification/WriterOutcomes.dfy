/** What each call to the bounded writer answers and does, in terms of the limits, the queue and the replies of the
    stream. */
module WriterOutcomes {
  import opened WriterModel
  import opened WriterProofs

  /** What the stream says to the message number k from now; it takes everything once its script is over. */
  function ReplyTo(w: Writer, k: nat): Reply {
    if k < |w.script| then w.script[k] else Taken
  }

  /** Closed for good, with nothing queued and nobody waiting for the stream. */
  predicate Shut(before: Writer, after: Writer, fatal: nat) {
    after.closed && after.queue == [] && after.queuedBytes == 0 && !after.backpressured && after.listeners == 0 &&
    after.sent == before.sent && after.accepted == before.accepted && after.cancelled == before.cancelled &&
    after.fatal == fatal
  }

  lemma CloseIs(l: Limits, w: Writer)
    requires WriterOk(l, w)
    ensures if w.closed then Close(w) == w else Shut(w, Close(w), w.fatal)
  {}

  /** The answer names the first thing that is wrong; a message that is passed on or queued takes the next number. */
  lemma WriteIs(l: Limits, w: Writer, text: string, destroyed: bool)
    requires WriterOk(l, w)
    ensures var (after, answer) := Write(l, w, text, destroyed);
            var m := Message(w.next, text, l.byteLength(text));
            if w.closed then after == w && answer == Rejected(WriterClosed)
            else if m.bytes > l.maxMessageBytes then after == w && answer == Rejected(TooLarge)
            else if destroyed then Shut(w, after, w.fatal + 1) && answer == Rejected(Unavailable)
            else if w.backpressured then
              if |w.queue| >= l.maxQueueMessages || Bytes(w.queue) + m.bytes > l.maxQueueBytes
              then after == w && answer == Rejected(OverCapacity)
              else answer == Queued(w.next) && after.queue == w.queue + [m] && after.sent == w.sent &&
                   Numbers(w, m, after)
            else if ReplyTo(w, 0).Fails? then Shut(w, after, w.fatal + 1) && answer == Rejected(SendFailed)
            else answer == Passed && after.sent == w.sent + [m] && after.queue == [] && Numbers(w, m, after) &&
                 (after.backpressured <==> ReplyTo(w, 0).TakenAndFull?)
  {}

  predicate Numbers(before: Writer, m: Message, after: Writer) {
    after.accepted == before.accepted + [m] && after.next == before.next + 1 && !after.closed &&
    after.cancelled == before.cancelled && after.fatal == before.fatal
  }

  /** Cancelling works exactly for a message that still waits, and takes that one out. */
  lemma CancelIs(l: Limits, w: Writer, id: nat)
    requires WriterOk(l, w)
    ensures var (after, done) := Cancel(w, id);
            (done <==> exists m :: m in w.queue && m.id == id) &&
            (!done ==> after == w) &&
            (done ==> |after.queue| == |w.queue| - 1 && after.sent == w.sent && after.cancelled == w.cancelled + {id} &&
                      after.closed == w.closed && after.accepted == w.accepted &&
                      forall m :: m in w.queue ==> (m in after.queue <==> m.id != id))
  {
    var n := IndexOf(w.queue, id);
    if n < |w.queue| {
      assert w.queue[n] in w.queue;
      QueueIncreases(l, w);
      var rest := w.queue[..n] + w.queue[n + 1..];
      forall m | m in w.queue
        ensures m in rest <==> m.id != id
      {
        var i :| 0 <= i < |w.queue| && w.queue[i] == m;
        assert i < n ==> rest[i] == m;
        assert i > n ==> rest[i - 1] == m;
      }
    }
  }

  lemma QueueIncreases(l: Limits, w: Writer)
    requires WriterOk(l, w)
    ensures Increasing(w.queue)
  {
    KeptIncreasing(w.accepted, w.cancelled, 0);
    if !w.closed {
      assert forall i :: 0 <= i < |w.queue| ==> w.queue[i] == (w.sent + w.queue)[|w.sent| + i];
    }
  }

  /** The first k messages of the queue were simply taken, and message k, if there is one, was not. */
  ghost predicate HandedOver(w: Writer, after: Writer, k: nat) {
    k <= |w.queue| && (forall i :: 0 <= i < k ==> ReplyTo(w, i).Taken?) && after.accepted == w.accepted &&
    if k == |w.queue|
    then !after.closed && !after.backpressured && after.queue == [] && after.sent == w.sent + w.queue
    else if ReplyTo(w, k).TakenAndFull?
    then !after.closed && after.backpressured && after.queue == w.queue[k + 1..] &&
         after.sent == w.sent + w.queue[..k + 1] && after.listeners == w.listeners + 1
    else ReplyTo(w, k).Fails? && after.closed && after.queue == [] && after.sent == w.sent + w.queue[..k] &&
         after.fatal == w.fatal + 1
  }

  /** Handing over goes on in order up to the first reply that is not plain acceptance: a full stream has taken its
      message and keeps the rest waiting, a failing one has not and closes the writer. */
  lemma {:induction false} FlushIs(w: Writer) returns (k: nat)
    requires !w.closed && !w.backpressured
    ensures HandedOver(w, Flush(w), k)
    decreases |w.queue|
  {
    k := 0;
    if w.queue != [] && ReplyTo(w, 0).Taken? {
      var next := Send(Pop(w), w.queue[0]);
      var m := FlushIs(next);
      assert Flush(w) == Flush(next);
      hide Flush;
      OneMoreTaken(w, next, Flush(next), m);
      k := m + 1;
    }
  }

  lemma OneMoreTaken(w: Writer, next: Writer, after: Writer, m: nat)
    requires w.queue != [] && ReplyTo(w, 0).Taken? && next == Send(Pop(w), w.queue[0]) && HandedOver(next, after, m)
    ensures HandedOver(w, after, m + 1)
  {
    var first := w.queue[0];
    assert next.queue == w.queue[1..] && next.sent == w.sent + [first] && next.accepted == w.accepted &&
      next.listeners == w.listeners && next.fatal == w.fatal;
    Replies(w, next);
    hide Send, Pop, ReplyTo;
    forall i | 0 <= i < m + 1
      ensures ReplyTo(w, i).Taken?
    {
      assert i > 0 ==> ReplyTo(next, i - 1).Taken?;
    }
    assert w.sent + w.queue == w.sent + [first] + next.queue;
    if m < |next.queue| {
      assert w.sent + w.queue[..m + 1] == w.sent + [first] + next.queue[..m];
      assert w.sent + w.queue[..m + 2] == w.sent + [first] + next.queue[..m + 1];
      assert w.queue[m + 2..] == next.queue[m + 1..];
    }
  }

  lemma Replies(w: Writer, next: Writer)
    requires w.queue != [] && next == Send(Pop(w), w.queue[0])
    ensures forall i: nat :: ReplyTo(next, i) == ReplyTo(w, i + 1)
  {}

  /** When the stream has drained, an open writer hands over from its queue; a closed one does nothing. */
  lemma DrainIs(l: Limits, w: Writer)
    requires WriterOk(l, w) && w.listeners > 0
    ensures !w.closed && w.backpressured && Drain(w) == Flush(w.(listeners := 0, backpressured := false))
  {}
}
