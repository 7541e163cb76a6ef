/** The server's send path: posted messages, the outgoing deque, one asynchronous write. */
module WriteQueue {
  import opened Models
  import opened Protocol
  import opened Lines

  /** The part of a session that the strand serialises. */
  datatype Writer = Writer(
    posted: seq<WireMessage>,    // handed to the strand, not yet run
    outgoing: seq<string>,       // m_outgoing
    writes: nat,                 // asynchronous writes started and not completed
    stopped: bool,
    completed: seq<string>)      // frames whose write completed

  const FRESH := Writer([], [], 0, false, [])

  function Post(w: Writer, m: WireMessage): Writer {
    w.(posted := w.posted + [m])
  }

  function DoWrite(w: Writer): Writer {
    if w.outgoing == [] || w.stopped then w else w.(writes := w.writes + 1)
  }

  /** The strand runs the oldest posted message. */
  function RunPosted(w: Writer): Writer
    requires w.posted != []
  {
    var wasEmpty := w.outgoing == [];
    var pushed := w.(posted := w.posted[1..], outgoing := w.outgoing + [Encode(w.posted[0])]);
    if wasEmpty then DoWrite(pushed) else pushed
  }

  function Stop(w: Writer): Writer {
    if w.stopped then w else w.(stopped := true)
  }

  function WriteFailed(w: Writer): Writer
    requires w.writes > 0
  {
    Stop(w.(writes := w.writes - 1))
  }

  function WriteCompleted(w: Writer): Writer
    requires w.writes > 0 && w.outgoing != []
  {
    var popped := w.(writes := w.writes - 1, completed := w.completed + [w.outgoing[0]],
                     outgoing := w.outgoing[1..]);
    if popped.outgoing != [] then DoWrite(popped) else popped
  }

  // ---- Runs ----

  datatype Event = Posted(m: WireMessage) | PostedRuns | WriteCompletes | WriteFails | Stops

  /** One event; an event that cannot happen in `w` changes nothing. */
  function Step(w: Writer, e: Event): Writer {
    match e
    case Posted(m) => Post(w, m)
    case PostedRuns => if w.posted != [] then RunPosted(w) else w
    case WriteCompletes => if w.writes > 0 && w.outgoing != [] then WriteCompleted(w) else w
    case WriteFails => if w.writes > 0 then WriteFailed(w) else w
    case Stops => Stop(w)
  }

  function Run(events: seq<Event>): Writer {
    if events == [] then FRESH else Step(Run(events[..|events| - 1]), events[|events| - 1])
  }

  /** Everything handed to sendMessage during a run, in order. */
  function Sent(events: seq<Event>): seq<WireMessage> {
    if events == [] then []
    else
      Sent(events[..|events| - 1]) +
      match events[|events| - 1]
      case Posted(m) => [m]
      case _ => []
  }

  /** `sent` is everything posted so far. */
  predicate Consistent(w: Writer, sent: seq<WireMessage>) {
    && w.writes <= 1
    && (w.writes == 1 ==> w.outgoing != [])
    && (!w.stopped ==> (w.writes == 1 <==> w.outgoing != []))
    && |w.posted| <= |sent|
    && w.posted == sent[|sent| - |w.posted|..]
    && w.completed + w.outgoing == Frames(sent[..|sent| - |w.posted|])
  }

  lemma PostConsistent(w: Writer, sent: seq<WireMessage>, m: WireMessage)
    requires Consistent(w, sent)
    ensures Consistent(Post(w, m), sent + [m])
  {
  }

  lemma RunPostedConsistent(w: Writer, sent: seq<WireMessage>)
    requires Consistent(w, sent) && w.posted != []
    ensures Consistent(RunPosted(w), sent)
  {
    var k, frame := |sent| - |w.posted|, [Encode(w.posted[0])];
    assert sent[k] == w.posted[0];
    assert (w.completed + w.outgoing) + frame == w.completed + (w.outgoing + frame);
  }

  lemma WriteCompletedConsistent(w: Writer, sent: seq<WireMessage>)
    requires Consistent(w, sent) && w.writes > 0
    ensures Consistent(WriteCompleted(w), sent)
  {
  }

  lemma StepConsistent(w: Writer, sent: seq<WireMessage>, e: Event)
    requires Consistent(w, sent)
    ensures Consistent(Step(w, e), sent + if e.Posted? then [e.m] else [])
  {
    assert sent + [] == sent;
    match e
    case Posted(m) => PostConsistent(w, sent, m);
    case PostedRuns =>
      if w.posted != [] {
        RunPostedConsistent(w, sent);
      }
    case WriteCompletes =>
      if w.writes > 0 {
        WriteCompletedConsistent(w, sent);
      }
    case WriteFails =>
    case Stops =>
  }

  /** One write at a time, in the order of the posts, in every interleaving. */
  lemma {:induction false} AlwaysConsistent(events: seq<Event>)
    ensures Consistent(Run(events), Sent(events))
  {
    if events != [] {
      AlwaysConsistent(events[..|events| - 1]);
      StepConsistent(Run(events[..|events| - 1]), Sent(events[..|events| - 1]), events[|events| - 1]);
      assert Sent(events[..|events| - 1]) + [] == Sent(events[..|events| - 1]);
    }
  }

  /** A stop takes effect at once, whatever the writer was doing, and touches nothing else. */
  lemma StopStops(before: seq<Event>)
    ensures Run(before + [Stops]) == Run(before).(stopped := true)
  {
  }

  /** So does the failure of a write that was in flight. */
  lemma FailureStops(before: seq<Event>)
    requires Run(before).writes > 0
    ensures Run(before + [WriteFails]) == Run(before).(stopped := true, writes := 0)
  {
    AlwaysConsistent(before);
  }

  predicate EndsAt(events: seq<Event>, i: nat)
    requires i < |events|
  {
    events[i].Stops? || (events[i].WriteFails? && Run(events[..i]).writes > 0)
  }

  /** The session has been told to stop, or a write failed. */
  predicate Ended(events: seq<Event>) { exists i: nat | i < |events| :: EndsAt(events, i) }

  lemma EndedStep(before: seq<Event>, e: Event)
    ensures Ended(before + [e]) <==> Ended(before) || e.Stops? || (e.WriteFails? && Run(before).writes > 0)
  {
    var events := before + [e];
    assert events[..|before|] == before;
    forall i: nat | i < |before|
      ensures EndsAt(events, i) == EndsAt(before, i)
    {
      assert events[..i] == before[..i];
    }
    assert EndsAt(events, |before|) <==> e.Stops? || (e.WriteFails? && Run(before).writes > 0);
  }

  /** Nothing else stops a session, and nothing revives it. */
  lemma {:induction false} StoppedIffEnded(events: seq<Event>)
    ensures Run(events).stopped <==> Ended(events)
  {
    if events != [] {
      var before, e := events[..|events| - 1], events[|events| - 1];
      assert events == before + [e];
      StoppedIffEnded(before);
      EndedStep(before, e);
    }
  }

  lemma {:induction false} StoppedStays(before: seq<Event>, after: seq<Event>)
    requires Run(before).stopped
    ensures var w, w' := Run(before), Run(before + after);
            w'.stopped && |w'.completed| + w'.writes <= |w.completed| + w.writes
    decreases |after|
  {
    if after == [] {
      assert before + after == before;
    } else {
      var most, last := after[..|after| - 1], after[|after| - 1];
      assert before + after == (before + most) + [last];
      StoppedStays(before, most);
    }
  }

  /** Whatever comes before and after a stop, no further write is started: at most the one in flight completes. */
  lemma StoppedStartsNothing(before: seq<Event>, after: seq<Event>)
    ensures var w, w' := Run(before), Run(before + [Stops] + after);
            w'.stopped && |w'.completed| + w'.writes <= |w.completed| + w.writes <= |w.completed| + 1
  {
    AlwaysConsistent(before);
    StopStops(before);
    StoppedStays(before + [Stops], after);
  }

  /** Everything that can have left through the socket: completed frames, then a part of the front one. */
  function Wire(w: Writer): string {
    Concat(w.completed) + if w.outgoing == [] then "" else w.outgoing[0]
  }

  lemma {:induction false} ConcatPrefix(parts: seq<string>, k: nat)
    requires k <= |parts|
    ensures Concat(parts[..k]) <= Concat(parts)
  {
    ConcatAppend(parts[..k], parts[k..]);
    assert parts[..k] + parts[k..] == parts;
  }

  lemma WireIsPrefix(w: Writer, sent: seq<WireMessage>)
    requires Consistent(w, sent)
    ensures Wire(w) <= Concat(Frames(sent))
    ensures w.outgoing == [] && w.posted == [] ==> Wire(w) == Concat(Frames(sent))
  {
    var frames, k := Frames(sent), |w.completed|;
    assert frames[..|sent| - |w.posted|] == w.completed + w.outgoing;
    assert frames[..k] == w.completed;
    if w.outgoing == [] {
      ConcatPrefix(frames, k);
      assert Concat(w.completed) + "" == Concat(w.completed);
      assert w.posted == [] ==> frames[..k] == frames;
    } else {
      ConcatPrefix(frames, k + 1);
      assert frames[..k + 1] == w.completed + [w.outgoing[0]];
      ConcatAppend(w.completed, [w.outgoing[0]]);
      assert [w.outgoing[0]][1..] == [];
      assert Concat([w.outgoing[0]]) == w.outgoing[0] + Concat([]);
    }
  }

  // ---- Nothing waits for ever ----

  function Repeated(e: Event, n: nat): seq<Event> { seq(n, _ => e) }

  lemma OneMore(events: seq<Event>, e: Event, n: nat)
    ensures events + Repeated(e, n + 1) == (events + [e]) + Repeated(e, n)
    ensures Run(events + [e]) == Step(Run(events), e)
    ensures Sent(events + [e]) == Sent(events) + if e.Posted? then [e.m] else []
  {
  }

  lemma {:induction false} PostsRun(events: seq<Event>)
    requires !Run(events).stopped
    ensures var all := events + Repeated(PostedRuns, |Run(events).posted|);
            !Run(all).stopped && Run(all).posted == [] && Sent(all) == Sent(events)
    decreases |Run(events).posted|
  {
    var n := |Run(events).posted|;
    if n == 0 {
      assert events + Repeated(PostedRuns, n) == events;
    } else {
      OneMore(events, PostedRuns, n - 1);
      PostsRun(events + [PostedRuns]);
    }
  }

  lemma {:induction false} WritesComplete(events: seq<Event>)
    requires !Run(events).stopped && Run(events).posted == []
    ensures var all := events + Repeated(WriteCompletes, |Run(events).outgoing|);
            !Run(all).stopped && Run(all).posted == [] && Run(all).outgoing == [] && Sent(all) == Sent(events)
    decreases |Run(events).outgoing|
  {
    var n := |Run(events).outgoing|;
    AlwaysConsistent(events);
    if n == 0 {
      assert events + Repeated(WriteCompletes, n) == events;
    } else {
      OneMore(events, WriteCompletes, n - 1);
      WritesComplete(events + [WriteCompletes]);
    }
  }

  /** Unless it is stopped, a session that runs what was posted and completes its writes has written everything. */
  lemma CatchesUp(events: seq<Event>)
    requires !Run(events).stopped
    ensures var posted := events + Repeated(PostedRuns, |Run(events).posted|);
            var all := posted + Repeated(WriteCompletes, |Run(posted).outgoing|);
            Wire(Run(all)) == Concat(Frames(Sent(events)))
  {
    var posted := events + Repeated(PostedRuns, |Run(events).posted|);
    var all := posted + Repeated(WriteCompletes, |Run(posted).outgoing|);
    PostsRun(events);
    WritesComplete(posted);
    AlwaysConsistent(all);
    WireIsPrefix(Run(all), Sent(all));
  }
}
