/** The server's reader: each completion of async_read_until handles exactly one line. */
module LineReader {
  import opened Models
  import opened Text
  import opened Protocol
  import opened Lines

  /** m_buffer, and the messages handed to handleMessage so far. */
  datatype Reader = Reader(buffer: string, handled: seq<WireMessage>)

  const FRESH := Reader("", [])

  datatype Event = Arrive(bytes: string) | Complete

  function CompleteRead(r: Reader): Reader
    requires HasNewline(r.buffer)
  {
    var i := Find(r.buffer, "\n", 0).value;
    Reader(r.buffer[i + 1..],
           r.handled + match Decode(r.buffer[..i]) case None => [] case Some(m) => [m])
  }

  function Step(r: Reader, e: Event): Reader {
    match e
    case Arrive(bytes) => r.(buffer := r.buffer + bytes)
    case Complete => if HasNewline(r.buffer) then CompleteRead(r) else r
  }

  function Run(events: seq<Event>): Reader {
    if events == [] then FRESH else Step(Run(events[..|events| - 1]), events[|events| - 1])
  }

  function Arrived(events: seq<Event>): string {
    if events == [] then ""
    else
      Arrived(events[..|events| - 1]) +
      match events[|events| - 1]
      case Arrive(bytes) => bytes
      case Complete => ""
  }

  lemma CompleteReadTakesOne(r: Reader)
    requires HasNewline(r.buffer)
    ensures var q := CompleteRead(r);
            q.handled + Messages(q.buffer) == r.handled + Messages(r.buffer)
            && Remainder(q.buffer) == Remainder(r.buffer)
  {
  }

  lemma ArriveExtends(r: Reader, all: string, bytes: string)
    requires r.handled + Messages(r.buffer) == Messages(all)
    requires Remainder(r.buffer) == Remainder(all)
    ensures r.handled + Messages(r.buffer + bytes) == Messages(all + bytes)
    ensures Remainder(r.buffer + bytes) == Remainder(all + bytes)
  {
    MessagesResume(r.buffer, bytes);
    MessagesResume(all, bytes);
    Associative(r.handled, Messages(r.buffer), Messages(Remainder(all) + bytes));
  }

  /** In any interleaving of arrivals and completions nothing is lost, repeated or reordered. */
  lemma {:induction false} HandledSoFar(events: seq<Event>)
    ensures var r := Run(events);
            r.handled + Messages(r.buffer) == Messages(Arrived(events))
            && Remainder(r.buffer) == Remainder(Arrived(events))
  {
    if events != [] {
      var before, e := events[..|events| - 1], events[|events| - 1];
      HandledSoFar(before);
      match e
      case Arrive(bytes) =>
        ArriveExtends(Run(before), Arrived(before), bytes);
      case Complete =>
        assert Arrived(before) + "" == Arrived(before);
        if HasNewline(Run(before).buffer) {
          CompleteReadTakesOne(Run(before));
        }
    } else {
    }
  }

  /**
    When no completion is due, this reader has handled exactly the messages the client's
    drain-all reader would emit for the same bytes, and keeps the same remainder.
   */
  lemma SameAsDrainAll(events: seq<Event>)
    requires !HasNewline(Run(events).buffer)
    ensures Run(events) == Reader(Remainder(Arrived(events)), Messages(Arrived(events)))
  {
    HandledSoFar(events);
    assert Run(events).handled + [] == Run(events).handled;
  }

  function Completes(n: nat): seq<Event> { seq(n, _ => Complete) }

  lemma OneMore(events: seq<Event>, n: nat)
    ensures events + Completes(n + 1) == (events + [Complete]) + Completes(n)
    ensures Run(events + [Complete]) == Step(Run(events), Complete)
    ensures Arrived(events + [Complete]) == Arrived(events)
  {
    assert Arrived(events) + "" == Arrived(events);
  }

  lemma OneLess(r: Reader)
    requires HasNewline(r.buffer)
    ensures |SplitLines(r.buffer).lines| == |SplitLines(CompleteRead(r).buffer).lines| + 1
    ensures |CompleteRead(r).buffer| < |r.buffer|
  {
  }

  /** As many completions as there are complete lines handle everything that has arrived. */
  lemma {:induction false} CatchesUp(events: seq<Event>, n: nat)
    requires n == |SplitLines(Run(events).buffer).lines|
    ensures Run(events + Completes(n)) == Reader(Remainder(Arrived(events)), Messages(Arrived(events)))
    decreases n
  {
    if HasNewline(Run(events).buffer) {
      OneLess(Run(events));
      OneMore(events, n - 1);
      CatchesUp(events + [Complete], n - 1);
    } else {
      SameAsDrainAll(events);
      assert events + Completes(n) == events;
    }
  }
}
