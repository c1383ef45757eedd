/** Projecting effects: what every single write keeps, and what a projection that is not interrupted achieves. */
module RunStoreProjection {
  import opened RunStoreModel
  import opened RunStoreFiles
  import opened Wrappers

  // ---------------------------------------------------------------- performing writes

  predicate Reaches(fault: Fault, n: nat) { fault.NoFault? || fault.at >= n }

  function Shifted(fault: Fault, n: nat): Fault {
    if fault.Fault? && fault.at >= n then fault.(at := fault.at - n) else fault
  }

  /** A fault falls either into the first writes, or into the rest, which starts where the first ones end. */
  lemma {:induction false} PerformBoth(d: Disk, a: seq<Write>, b: seq<Write>, fault: Fault)
    ensures Perform(d, a + b, fault) ==
              if Reaches(fault, |a|) then Perform(Perform(d, a, NoFault), b, Shifted(fault, |a|))
              else Perform(d, a, fault)
    decreases |a|
  {
    if a == [] {
      assert a + b == b;
      assert Shifted(fault, 0) == fault;
    } else {
      assert (a + b)[1..] == a[1..] + b;
      if !(fault.Fault? && fault.at == 0) {
        PerformBoth(Apply(d, a[0]), a[1..], b, Later(fault));
      }
    }
  }

  lemma {:induction false} FaultBeyond(d: Disk, writes: seq<Write>, fault: Fault)
    requires !Hits(fault, writes)
    ensures Perform(d, writes, fault) == Perform(d, writes, NoFault)
    decreases |writes|
  {
    if writes != [] {
      FaultBeyond(Apply(d, writes[0]), writes[1..], Later(fault));
    }
  }

  // ---------------------------------------------------------------- the event file

  lemma EventsAppend(lines: seq<Line>, line: Line)
    ensures ParsedLines(lines + [line]) ==
            ParsedLines(lines) + match line case Parsed(event) => [event] case Garbled => []
  {
    assert (lines + [line])[..|lines|] == lines;
  }

  /** Appending an event, whole or torn, adds that event or nothing to the parseable lines. */
  lemma AppendedEvents(d: Disk, event: Event, tear: Tear)
    ensures Events(Apply(d, AppendEvent(event)).events) == Events(d.events) + [event]
    ensures var torn := ApplyTorn(d, AppendEvent(event), tear);
            torn == d.(events := torn.events) &&
            (Events(torn.events) == Events(d.events) || Events(torn.events) == Events(d.events) + [event])
  {
    var lines := Terminated(d.events);
    EventsAppend(lines, Parsed(event));
    EventsAppend(lines, Garbled);
    hide ParsedLines;
    assert Terminated(EventFile(lines, None)) == lines;
    assert Terminated(EventFile(lines, Some(Garbled))) == lines + [Garbled];
    assert Terminated(EventFile(lines, Some(Parsed(event)))) == lines + [Parsed(event)];
    assert Terminated(EventFile(lines + [Parsed(event)], None)) == lines + [Parsed(event)];
  }

  // ---------------------------------------------------------------- the order of effects

  predicate Before(a: Cursor, b: Cursor) {
    a.sequence < b.sequence || (a.sequence == b.sequence && a.index < b.index)
  }

  ghost predicate InOrder(intents: seq<Intent>) {
    forall i, j :: 0 <= i < j < |intents| ==> Before(intents[i].at, intents[j].at)
  }

  lemma {:induction false} IntentsInOrder(c: Config, records: seq<Record>, n: nat)
    requires Numbered(records, n)
    ensures InOrder(Intents(c, records))
    ensures forall k :: 0 <= k < |Intents(c, records)| ==> n < Intents(c, records)[k].at.sequence <= n + |records|
    decreases |records|
  {
    if records != [] {
      assert Numbered(records[1..], n + 1);
      IntentsInOrder(c, records[1..], n + 1);
    }
  }

  lemma {:induction false} IntentsConcat(c: Config, a: seq<Record>, b: seq<Record>)
    ensures Intents(c, a + b) == Intents(c, a) + Intents(c, b)
    decreases |a|
  {
    if a == [] {
      assert a + b == b;
    } else {
      assert (a + b)[1..] == a[1..] + b;
      IntentsConcat(c, a[1..], b);
    }
  }

  // ---------------------------------------------------------------- the invariant of the projection

  ghost predicate DistinctIds(events: seq<Event>) {
    forall i, j :: 0 <= i < j < |events| ==> events[i].id != events[j].id
  }

  ghost predicate IsIntended(intents: seq<Intent>, event: Event) {
    exists k :: 0 <= k < |intents| && intents[k].event == event
  }

  /** An intent that must be on disk: below the checkpoint, or passed by the cursor. */
  predicate Settled(d: Disk, intent: Intent) {
    intent.at.sequence <= Covered(d) || Applied(d.cursor, intent.at)
  }

  ghost predicate CursorOk(intents: seq<Intent>, cursor: Option<Cursor>) {
    cursor.Some? ==> exists k :: 0 <= k < |intents| && intents[k].at == cursor.value
  }

  /** No event twice, none that was not intended, and everything settled is there. */
  ghost predicate EventsOk(intents: seq<Intent>, d: Disk) {
    CursorOk(intents, d.cursor) &&
    DistinctIds(Events(d.events)) &&
    (forall i :: 0 <= i < |Events(d.events)| ==> IsIntended(intents, Events(d.events)[i])) &&
    forall k :: 0 <= k < |intents| && Settled(d, intents[k]) ==> HasEvent(d.events, intents[k].event.id)
  }

  /** The first n intents are on disk. */
  ghost predicate ProjectedUpTo(intents: seq<Intent>, d: Disk, n: nat) {
    forall k :: 0 <= k < |intents| && k < n ==> HasEvent(d.events, intents[k].event.id)
  }

  lemma MoreEvents(intents: seq<Intent>, d: Disk, k: nat, e: Disk)
    requires EventsOk(intents, d) && k < |intents| && !HasEvent(d.events, intents[k].event.id)
    requires e == d.(events := e.events)
    requires Events(e.events) == Events(d.events) || Events(e.events) == Events(d.events) + [intents[k].event]
    ensures EventsOk(intents, e)
    ensures forall id :: HasEvent(d.events, id) ==> HasEvent(e.events, id)
    ensures Events(e.events) == Events(d.events) + [intents[k].event] ==> HasEvent(e.events, intents[k].event.id)
  {
    hide Events;
    var before, after := Events(d.events), Events(e.events);
    forall id | HasEvent(d.events, id)
      ensures HasEvent(e.events, id)
    {
      var i :| 0 <= i < |before| && before[i].id == id;
      assert after[i].id == id;
    }
    if |after| > |before| {
      assert after[|before|].id == intents[k].event.id;
      assert IsIntended(intents, after[|before|]);
    }
  }

  lemma MoveCursor(intents: seq<Intent>, d: Disk, k: nat)
    requires InOrder(intents) && EventsOk(intents, d) && k < |intents| && ProjectedUpTo(intents, d, k + 1)
    ensures EventsOk(intents, Apply(d, WriteCursor(intents[k].at)))
  {
    hide Events, HasEvent;
    var e := Apply(d, WriteCursor(intents[k].at));
    forall j | 0 <= j < |intents| && Settled(e, intents[j])
      ensures HasEvent(e.events, intents[j].event.id)
    {
      if j > k {
        assert Before(intents[k].at, intents[j].at);
        assert Settled(d, intents[j]);
      }
    }
  }

  /** One effect, stopped anywhere or not. */
  lemma ProjectOneKeeps(intents: seq<Intent>, d: Disk, k: nat, fault: Fault)
    requires InOrder(intents) && EventsOk(intents, d) && k < |intents| && ProjectedUpTo(intents, d, k)
    ensures var e := Perform(d, ProjectOne(d, intents[k]), fault);
            e == d.(events := e.events, cursor := e.cursor) && EventsOk(intents, e) &&
            (!Hits(fault, ProjectOne(d, intents[k])) ==> ProjectedUpTo(intents, e, k + 1))
  {
    hide Events, HasEvent;
    var intent := intents[k];
    if Applied(d.cursor, intent.at) {
      assert Settled(d, intent);
    } else if HasEvent(d.events, intent.event.id) {
      MoveCursor(intents, d, k);
    } else {
      var tear := if fault.Fault? then fault.tear else Everything;
      AppendedEvents(d, intent.event, tear);
      MoreEvents(intents, d, k, ApplyTorn(d, AppendEvent(intent.event), tear));
      var e := Apply(d, AppendEvent(intent.event));
      MoreEvents(intents, d, k, e);
      MoveCursor(intents, e, k);
      PerformPair(d, AppendEvent(intent.event), WriteCursor(intent.at), fault);
    }
  }

  lemma PerformPair(d: Disk, a: Write, b: Write, fault: Fault)
    ensures Perform(d, [a, b], fault) ==
              if fault.Fault? && fault.at == 0 then ApplyTorn(d, a, fault.tear)
              else if fault.Fault? && fault.at == 1 then ApplyTorn(Apply(d, a), b, fault.tear)
              else Apply(Apply(d, a), b)
  {
    hide Apply, ApplyTorn;
    assert [a, b][1..] == [b] && [b][1..] == [];
    if !(fault.Fault? && fault.at == 0) {
      assert Perform(d, [a, b], fault) == Perform(Apply(d, a), [b], Later(fault));
      PerformSingle(Apply(d, a), b, Later(fault));
    }
  }

  lemma PerformSingle(d: Disk, w: Write, fault: Fault)
    ensures Perform(d, [w], fault) ==
              if fault.Fault? && fault.at == 0 then ApplyTorn(d, w, fault.tear) else Apply(d, w)
  {
    hide Apply, ApplyTorn;
    assert [w][1..] == [];
  }

  /** A projection, stopped anywhere or not, adds no event twice and skips none; one that is not stopped
      puts every intent on disk. */
  lemma {:induction false} ProjectionKeeps(intents: seq<Intent>, d: Disk, k: nat, fault: Fault)
    requires InOrder(intents) && EventsOk(intents, d) && k <= |intents| && ProjectedUpTo(intents, d, k)
    ensures var writes := Projection(d, intents[k..]); var e := Perform(d, writes, fault);
            e == d.(events := e.events, cursor := e.cursor) && EventsOk(intents, e) &&
            (!Hits(fault, writes) ==> ProjectedUpTo(intents, e, |intents|))
    decreases |intents| - k
  {
    hide EventsOk, ProjectedUpTo, ProjectOne, InOrder;
    if k < |intents| {
      var first := ProjectOne(d, intents[k]);
      var e := Perform(d, first, NoFault);
      assert intents[k..][0] == intents[k] && intents[k..][1..] == intents[k + 1..];
      assert Projection(d, intents[k..]) == first + Projection(e, intents[k + 1..]);
      ProjectOneKeeps(intents, d, k, NoFault);
      ProjectOneKeeps(intents, d, k, fault);
      ProjectionKeeps(intents, e, k + 1, Shifted(fault, |first|));
      var rest := Projection(e, intents[k + 1..]);
      PerformBoth(d, first, rest, fault);
    } else {
      assert intents[k..] == [];
    }
  }
}
