/** In what order a connection carries the items of the outbox. */
module OutboxOrder {
  import opened Models
  import opened Text
  import opened Sync
  import opened OutboxProtocol

  function Ids(xs: seq<MetricsSnapshot>): seq<int> {
    seq(|xs|, i requires 0 <= i < |xs| => xs[i].localId)
  }

  predicate NonDecreasing(ids: seq<int>) { forall i, j | 0 <= i < j < |ids| :: ids[i] <= ids[j] }

  /** What session `n` has handled. */
  function HandledBy(log: seq<Entry>, n: nat): seq<MetricsSnapshot> {
    if log == [] then []
    else
      HandledBy(log[..|log| - 1], n) +
      if log[|log| - 1].session == n then [log[|log| - 1].snapshot] else []
  }

  lemma HandledByIsDelivered(log: seq<Entry>, n: nat)
    ensures forall x | x in HandledBy(log, n) :: x in Delivered(log)
  {
    if log != [] {
      HandledByIsDelivered(log[..|log| - 1], n);
      assert Delivered(log) == Delivered(log[..|log| - 1]) + [log[|log| - 1].snapshot];
    }
  }

  lemma HandledByNobody(log: seq<Entry>, n: nat)
    requires forall i | 0 <= i < |log| :: log[i].session != n
    ensures HandledBy(log, n) == []
  {
  }

  /** Everything ever carried to session `n` that was not lost: handled, then still to be handled. */
  function Traffic(s: System, n: nat): seq<MetricsSnapshot>
    requires n < |s.sessions|
  {
    HandledBy(s.log, n) + s.sessions[n]
  }

  predicate TrafficOrdered(s: System) {
    forall n | 0 <= n < |s.sessions| :: NonDecreasing(Ids(Traffic(s, n)))
  }

  lemma AppendTop(xs: seq<MetricsSnapshot>, ys: seq<MetricsSnapshot>, top: int)
    requires NonDecreasing(Ids(xs))
    requires (forall x | x in xs :: x.localId <= top) && (forall y | y in ys :: y.localId == top)
    ensures NonDecreasing(Ids(xs + ys))
  {
    var zs := xs + ys;
    forall i, j | 0 <= i < j < |zs|
      ensures Ids(zs)[i] <= Ids(zs)[j]
    {
      assert zs[i] in xs || zs[i] in ys;
      if j < |xs| {
        assert Ids(xs)[i] <= Ids(xs)[j];
      } else {
        assert zs[j] in ys;
      }
    }
  }

  lemma Shorten(xs: seq<MetricsSnapshot>, ys: seq<MetricsSnapshot>, keep: nat)
    requires NonDecreasing(Ids(xs + ys))
    ensures NonDecreasing(Ids(xs + Take(ys, keep)))
  {
    var whole, part := Ids(xs + ys), Ids(xs + Take(ys, keep));
    assert forall i | 0 <= i < |part| :: part[i] == whole[i];
  }

  lemma TransmitKeepsTraffic(s: System, t: System, o: Outcome)
    requires Inv(s) && TrafficOrdered(s)
    requires SlotDone(s, t, o)
    ensures TrafficOrdered(t)
  {
    forall n | 0 <= n < |t.sessions|
      ensures NonDecreasing(Ids(Traffic(t, n)))
    {
      assert NonDecreasing(Ids(Traffic(s, n)));
      if t.sessions[n] != s.sessions[n] {
        HandledByIsDelivered(s.log, n);
        assert AllGenuine(s, s.sessions[n]);
        AppendTop(Traffic(s, n), o.sent, Erased(t) + 1);
        Associative(HandledBy(s.log, n), s.sessions[n], o.sent);
      }
    }
  }

  lemma HandleKeepsTraffic(s: System, k: nat, identity: Identity, stored: bool)
    requires TrafficOrdered(s) && k < |s.sessions| && s.sessions[k] != []
    ensures TrafficOrdered(Handle(s, k, identity, stored))
  {
    var t, m := Handle(s, k, identity, stored), s.sessions[k][0];
    forall n | 0 <= n < |t.sessions|
      ensures NonDecreasing(Ids(Traffic(t, n)))
    {
      assert NonDecreasing(Ids(Traffic(s, n)));
      if n == k {
        Associative(HandledBy(s.log, n), [m], s.sessions[k][1..]);
        assert [m] + s.sessions[k][1..] == s.sessions[k];
      } else {
        assert HandledBy(s.log, n) + [] == HandledBy(s.log, n);
      }
    }
  }

  lemma LinkKeepsTraffic(h: nat, s: System, step: Step)
    requires Inv(s) && TrafficOrdered(s) && Enabled(s, step)
    requires step.Connect? || step.Drop? || step.LoseAck? || step.LoseMetrics?
    ensures TrafficOrdered(Apply(h, s, step))
  {
    var t := Apply(h, s, step);
    forall n | 0 <= n < |t.sessions|
      ensures NonDecreasing(Ids(Traffic(t, n)))
    {
      if n == |s.sessions| {
        HandledByNobody(s.log, n);
      } else {
        assert NonDecreasing(Ids(Traffic(s, n)));
        match step
        case Drop(keep) => Shorten(HandledBy(s.log, n), s.sessions[n], keep);
        case LoseMetrics(_, keep) => Shorten(HandledBy(s.log, n), s.sessions[n], keep);
        case _ =>
      }
    }
  }

  lemma {:induction false} TrafficAlwaysOrdered(h: nat, steps: seq<Step>)
    ensures TrafficOrdered(Run(h, steps))
  {
    if steps != [] {
      var s, step := Run(h, steps[..|steps| - 1]), steps[|steps| - 1];
      TrafficAlwaysOrdered(h, steps[..|steps| - 1]);
      Invariant(h, steps[..|steps| - 1]);
      if Enabled(s, step) {
        var t := Apply(h, s, step);
        match step
        case Collect(p) =>
          CollectSlot(h, s, p);
          TransmitKeepsTraffic(s, t, OnSnapshot(s.client, p));
        case ReceiveAck =>
          AckSlot(h, s, s.acks[0], s.acks[1..]);
          TransmitKeepsTraffic(s, t, OnAckTimes(h, s.client, s.acks[0]));
        case ReceiveBadAck(id) =>
          AckSlot(h, s, id, s.acks);
          TransmitKeepsTraffic(s, t, OnAckTimes(h, s.client, id));
        case Serve(n, identity, stored) =>
          HandleKeepsTraffic(s, n, identity, stored);
        case _ =>
          LinkKeepsTraffic(h, s, step);
      }
    }
  }

  // ---- The pipeline of the live connection ----

  /** ACKs under way to the client, then METRICS under way to the server. */
  function Pipeline(s: System): seq<int> { s.acks + Ids(Live(s)) }

  predicate Within(ids: seq<int>, low: int) {
    NonDecreasing(ids) && forall i | 0 <= i < |ids| :: low <= ids[i] <= low + 1
  }

  /** Only the item erased last and the current head are under way, in this order. */
  predicate PipelineOrdered(s: System) {
    Connected(s) ==> Within(Pipeline(s), Erased(s))
  }

  /** A slot appends what it sends behind what is still under way. */
  lemma PipelineGrows(s: System, t: System, o: Outcome, handled: nat)
    requires Connected(s) && handled <= |s.acks|
    requires t == Transmit(s, o).(history := t.history, acks := s.acks[handled..])
    ensures Pipeline(t) == Pipeline(s)[handled..] + Ids(o.sent)
  {
    Associative(t.acks, Ids(Live(s)), Ids(o.sent));
    assert t.acks + Ids(Live(s)) == Pipeline(s)[handled..];
  }

  lemma WithinAppend(ids: seq<int>, xs: seq<MetricsSnapshot>, low: int)
    requires Within(ids, low) && forall x | x in xs :: x.localId == low + 1
    ensures Within(ids + Ids(xs), low)
  {
    assert forall i | 0 <= i < |xs| :: xs[i] in xs && Ids(xs)[i] == low + 1;
  }

  lemma TransmitKeepsPipeline(s: System, t: System, o: Outcome, handled: nat)
    requires Connected(s) && PipelineOrdered(s) && handled <= |s.acks|
    requires t == Transmit(s, o).(history := t.history, acks := s.acks[handled..])
    requires o.client.connected
    requires forall i | handled <= i < |Pipeline(s)| :: Erased(t) <= Pipeline(s)[i] <= Erased(t) + 1
    requires forall x | x in o.sent :: x.localId == Erased(t) + 1
    ensures PipelineOrdered(t)
    ensures Pipeline(t) == Pipeline(s)[handled..] + Ids(o.sent)
  {
    PipelineGrows(s, t, o, handled);
    WithinAppend(Pipeline(s)[handled..], o.sent, Erased(t));
  }

  lemma HandleKeepsPipeline(s: System, n: nat, identity: Identity, stored: bool)
    requires s.sessions != [] && n < |s.sessions| && s.sessions[n] != []
    requires Connected(s)
    ensures Pipeline(Handle(s, n, identity, stored)) == Pipeline(s)
  {
  }

  lemma WithinAfterLoss(acks: seq<int>, ids: seq<int>, at: nat, low: int)
    requires Within(acks + ids, low) && at < |acks|
    ensures Within(acks[..at] + acks[at + 1..] + ids, low)
  {
    var whole, part := acks + ids, acks[..at] + acks[at + 1..] + ids;
    assert forall i | 0 <= i < |part| :: part[i] == whole[if i < at then i else i + 1];
  }

  lemma WithinAfterCut(acks: seq<int>, xs: seq<MetricsSnapshot>, keep: nat, low: int)
    requires Within(acks + Ids(xs), low)
    ensures Within(acks + Ids(Take(xs, keep)), low)
  {
    var whole, part := acks + Ids(xs), acks + Ids(Take(xs, keep));
    assert forall i | 0 <= i < |part| :: part[i] == whole[i];
  }

  lemma LoseAckKeepsPipeline(h: nat, s: System, at: nat)
    requires PipelineOrdered(s) && Enabled(s, LoseAck(at))
    ensures PipelineOrdered(Apply(h, s, LoseAck(at)))
  {
    if Connected(s) {
      WithinAfterLoss(s.acks, Ids(Live(s)), at, Erased(s));
    }
  }

  lemma LoseMetricsKeepsPipeline(h: nat, s: System, n: nat, keep: nat)
    requires PipelineOrdered(s) && Enabled(s, LoseMetrics(n, keep))
    ensures PipelineOrdered(Apply(h, s, LoseMetrics(n, keep)))
  {
    if Connected(s) && n == |s.sessions| - 1 {
      WithinAfterCut(s.acks, Live(s), keep, Erased(s));
    }
  }

  lemma ConnectStartsPipeline(h: nat, s: System)
    requires Enabled(s, Connect)
    ensures Pipeline(Apply(h, s, Connect)) == []
  {
  }

  lemma AckKeepsPipeline(h: nat, s: System)
    requires Inv(s) && PipelineOrdered(s) && Enabled(s, ReceiveAck)
    ensures PipelineOrdered(Apply(h, s, ReceiveAck))
    ensures var c := AfterAck(h, s, s.acks[0]);
            Pipeline(Apply(h, s, ReceiveAck)) == Pipeline(s)[1..] + Ids(Copies(h, Flush(c)))
  {
    var t := Apply(h, s, ReceiveAck);
    AckEffect(h, s, s.acks[0]);
    AckSlot(h, s, s.acks[0], s.acks[1..]);
    assert Pipeline(s)[0] == s.acks[0];
    TransmitKeepsPipeline(s, t, OnAckTimes(h, s.client, s.acks[0]), 1);
  }

  lemma OtherSlotKeepsPipeline(h: nat, s: System, step: Step)
    requires Inv(s) && PipelineOrdered(s) && Enabled(s, step) && (step.Collect? || step.ReceiveBadAck?)
    ensures PipelineOrdered(Apply(h, s, step))
  {
    var t := Apply(h, s, step);
    if Connected(s) {
      assert s.acks[0..] == s.acks;
      match step
      case Collect(p) =>
        CollectSlot(h, s, p);
        TransmitKeepsPipeline(s, t, OnSnapshot(s.client, p), 0);
      case ReceiveBadAck(id) =>
        AckEffect(h, s, id);
        AckSlot(h, s, id, s.acks);
        TransmitKeepsPipeline(s, t, OnAckTimes(h, s.client, id), 0);
    }
  }

  lemma {:induction false} NextKeepsPipeline(h: nat, s: System, step: Step)
    requires Inv(s) && PipelineOrdered(s)
    ensures PipelineOrdered(Next(h, s, step))
  {
    if Enabled(s, step) {
      match step
      case Collect(_) => OtherSlotKeepsPipeline(h, s, step);
      case ReceiveBadAck(_) => OtherSlotKeepsPipeline(h, s, step);
      case ReceiveAck => AckKeepsPipeline(h, s);
      case Serve(n, identity, stored) =>
        if Connected(s) {
          HandleKeepsPipeline(s, n, identity, stored);
        }
      case LoseAck(at) => LoseAckKeepsPipeline(h, s, at);
      case LoseMetrics(n, keep) => LoseMetricsKeepsPipeline(h, s, n, keep);
      case Connect => ConnectStartsPipeline(h, s);
      case Drop(_) =>
    }
  }

  lemma {:induction false} PipelineAlwaysOrdered(h: nat, steps: seq<Step>)
    ensures PipelineOrdered(Run(h, steps))
  {
    if steps != [] {
      PipelineAlwaysOrdered(h, steps[..|steps| - 1]);
      Invariant(h, steps[..|steps| - 1]);
      NextKeepsPipeline(h, Run(h, steps[..|steps| - 1]), steps[|steps| - 1]);
    }
  }
}
