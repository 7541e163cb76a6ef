/** The outbox protocol's queues of snapshots, carried by the byte stream. */
module EndToEndMetrics {
  import opened Models
  import opened Protocol
  import opened Lines
  import opened MetricsJson
  import opened MetricsPayload
  import opened ClientChannels
  import opened Handlers
  import LineReader
  import EndToEndStream

  /** Snapshots as they can leave a client: finite readings and a 64-bit id. */
  predicate Sendable(xs: seq<MetricsSnapshot>, show: real -> string) {
    forall x | x in xs :: Prints(x.readings, show) && -LONG_BOUND <= x.localId < LONG_BOUND
  }

  lemma MessagesAreFramable(xs: seq<MetricsSnapshot>, show: real -> string)
    requires Sendable(xs, show)
    ensures AllFramable(MetricsMessages(xs, show))
  {
    forall m | m in MetricsMessages(xs, show)
      ensures Framable(m)
    {
      var i :| 0 <= i < |xs| && m == MetricsMessage(xs[i], show);
      assert xs[i] in xs;
      PayloadIsFramable(xs[i], show);
    }
  }

  /** The `k`-th message a session handles is the `k`-th snapshot written. */
  ghost predicate HandledAre(handled: seq<WireMessage>, xs: seq<MetricsSnapshot>, show: real -> string, now: string)
    requires Sendable(xs, show)
  {
    |handled| <= |xs| && forall k | 0 <= k < |handled| ::
      && handled[k].kind == METRICS && xs[k] in xs
      && ReadPayload(handled[k].payload, now) == Some(Transmitted(xs[k], show))
  }

  /**
    A session that has received any part of the bytes written for some snapshots, in any pieces, has
    handled exactly the first of them, each as it was but for its identity; and all of them once
    everything has arrived and no completion is due.
   */
  lemma SessionHandlesSnapshots(xs: seq<MetricsSnapshot>, show: real -> string, now: string,
                                events: seq<LineReader.Event>)
    requires Sendable(xs, show)
    requires LineReader.Arrived(events) <= MetricsBytes(xs, show)
    ensures HandledAre(LineReader.Run(events).handled, xs, show, now)
    ensures LineReader.Arrived(events) == MetricsBytes(xs, show) && !HasNewline(LineReader.Run(events).buffer)
            ==> |LineReader.Run(events).handled| == |xs|
  {
    var handled := LineReader.Run(events).handled;
    MessagesAreFramable(xs, show);
    EndToEndStream.ClientToServer(MetricsMessages(xs, show), events);
    forall k | 0 <= k < |handled|
      ensures handled[k].kind == METRICS && ReadPayload(handled[k].payload, now) == Some(Transmitted(xs[k], show))
    {
      assert handled[k] == MetricsMessages(xs, show)[k] && xs[k] in xs;
      PayloadRoundTrip(xs[k], show, now);
    }
  }

  /** The ACK for a snapshot carries, over the wire and back, the id under which the client stored it. */
  lemma AckClosesLoop(x: MetricsSnapshot, show: real -> string, now: string)
    requires Prints(x.readings, show) && -LONG_BOUND <= x.localId < LONG_BOUND
    ensures var read := ReadPayload(PayloadText(x, show), now);
            && read.Some?
            && Messages(Encode(AckReply(read.value.localId))) == [AckReply(x.localId)]
            && SignalsOf(AckReply(read.value.localId)) == [MessageReceived(AckReply(x.localId)), AckReceived(x.localId)]
  {
    PayloadRoundTrip(x, show, now);
    AckRoundTrip(x.localId);
    var m := AckReply(x.localId);
    FrameFirst(m, "");
    assert Encode(m) + "" == Encode(m);
    NewlineAbsent("");
    assert [m] + Messages("") == [m];
  }
}
