/**
  How the outbox empties while the client stays connected and collects nothing: every
  interleaving, steps of stale sessions included, ends after the same number of steps.
 */
module Draining {
  import opened Models
  import opened Sync
  import opened OutboxProtocol
  import opened OutboxOrder

  /** Any session handles its next line, or the client receives its next ACK. */
  predicate IsDrainStep(s: System, step: Step) {
    Connected(s) && Enabled(s, step) && (step.ReceiveAck? || step.Serve?)
  }

  predicate IsDrainRun(h: nat, s: System, steps: seq<Step>)
    decreases |steps|
  {
    steps == [] || (IsDrainStep(s, steps[0]) && IsDrainRun(h, Apply(h, s, steps[0]), steps[1..]))
  }

  function DrainRun(h: nat, s: System, steps: seq<Step>): System
    requires IsDrainRun(h, s, steps)
    decreases |steps|
  {
    if steps == [] then s else DrainRun(h, Apply(h, s, steps[0]), steps[1..])
  }

  /** Prices: `serve` for each METRICS handled, `ack` for each ACK received. */
  datatype Price = Price(serve: nat, ack: nat)

  /** The total price of everything an ACK for item `id` will cause when there are `n` items. */
  function AckCost(h: nat, n: nat, id: int, p: Price): nat
    decreases n - id
  {
    p.ack + if id < n then h * (p.serve + AckCost(h, n, id + 1, p)) else 0
  }

  function MetricsCost(h: nat, n: nat, id: int, p: Price): nat { p.serve + AckCost(h, n, id, p) }

  function AcksCost(h: nat, n: nat, ids: seq<int>, p: Price): nat {
    if ids == [] then 0 else AckCost(h, n, ids[0], p) + AcksCost(h, n, ids[1..], p)
  }

  function AllMetricsCost(h: nat, n: nat, xs: seq<MetricsSnapshot>, p: Price): nat {
    if xs == [] then 0 else MetricsCost(h, n, xs[0].localId, p) + AllMetricsCost(h, n, xs[1..], p)
  }

  function Lines(sessions: seq<seq<MetricsSnapshot>>): nat {
    if sessions == [] then 0 else |sessions[0]| + Lines(sessions[1..])
  }

  /** The lines that stale sessions have not handled. */
  function StaleLines(s: System): nat {
    if s.sessions == [] then 0 else Lines(s.sessions[..|s.sessions| - 1])
  }

  /** The price of everything that will still happen on the live connection. */
  function LiveWork(h: nat, s: System, p: Price): nat {
    AcksCost(h, |s.history|, s.acks, p) + AllMetricsCost(h, |s.history|, Live(s), p)
  }

  /** The price of everything that will still happen. A stale session only handles what it has. */
  function Work(h: nat, s: System, p: Price): nat { LiveWork(h, s, p) + p.serve * StaleLines(s) }

  lemma {:induction false} LinesServed(sessions: seq<seq<MetricsSnapshot>>, n: nat)
    requires n < |sessions| && sessions[n] != []
    ensures Lines(sessions) == 1 + Lines(sessions[n := sessions[n][1..]])
  {
    var served := sessions[n := sessions[n][1..]];
    if n == 0 {
      assert served[1..] == sessions[1..];
    } else {
      LinesServed(sessions[1..], n - 1);
      assert served[1..] == sessions[1..][n - 1 := sessions[1..][n - 1][1..]];
    }
  }

  lemma {:induction false} SomeLine(sessions: seq<seq<MetricsSnapshot>>)
    ensures Lines(sessions) > 0 <==> exists n :: 0 <= n < |sessions| && sessions[n] != []
  {
    if sessions != [] {
      SomeLine(sessions[1..]);
      assert forall n | 1 <= n < |sessions| :: sessions[n] == sessions[1..][n - 1];
    }
  }

  lemma AcksCostAppend(h: nat, n: nat, ids: seq<int>, id: int, p: Price)
    ensures AcksCost(h, n, ids + [id], p) == AcksCost(h, n, ids, p) + AckCost(h, n, id, p)
  {
    if ids == [] {
      assert ([] + [id])[1..] == [];
    } else {
      assert (ids + [id])[1..] == ids[1..] + [id];
      AcksCostAppend(h, n, ids[1..], id, p);
    }
  }

  lemma MetricsCostAppend(h: nat, n: nat, xs: seq<MetricsSnapshot>, ys: seq<MetricsSnapshot>, p: Price)
    ensures AllMetricsCost(h, n, xs + ys, p) == AllMetricsCost(h, n, xs, p) + AllMetricsCost(h, n, ys, p)
  {
    if xs == [] {
      assert xs + ys == ys;
    } else {
      assert (xs + ys)[1..] == xs[1..] + ys;
      MetricsCostAppend(h, n, xs[1..], ys, p);
    }
  }

  lemma CopiesCost(h: nat, n: nat, k: nat, x: MetricsSnapshot, p: Price)
    ensures AllMetricsCost(h, n, Copies(k, [x]), p) == k * MetricsCost(h, n, x.localId, p)
  {
  }

  /** A session's step pays exactly its own price. */
  lemma ServePays(h: nat, s: System, step: Step, p: Price)
    requires IsDrainStep(s, step) && step.Serve?
    ensures Work(h, s, p) == p.serve + Work(h, Apply(h, s, step), p)
  {
    var t, last := Apply(h, s, step), |s.sessions| - 1;
    if step.session == last {
      AcksCostAppend(h, |s.history|, s.acks, Live(s)[0].localId, p);
      assert t.sessions[..last] == s.sessions[..last];
    } else {
      LinesServed(s.sessions[..last], step.session);
      assert t.sessions[..last] == s.sessions[..last][step.session := s.sessions[step.session][1..]];
      assert p.serve * StaleLines(s) == p.serve + p.serve * StaleLines(t);
    }
  }

  /** What an ACK for the item before the current head, or for the head, sets off. */
  lemma AckSetsOff(h: nat, s: System, id: int, p: Price)
    requires OutboxIsTail(s) && Connected(s) && Erased(s) <= id <= Erased(s) + 1
    requires id <= |s.history|
    ensures var sent := Copies(h, Flush(AfterAck(h, s, id)));
            AckCost(h, |s.history|, id, p) == p.ack + AllMetricsCost(h, |s.history|, sent, p)
  {
    var n, next := |s.history|, AfterAck(h, s, id);
    if h == 0 {
    } else if id < n {
      var head := next.outbox.rows[0];
      assert head.id == id + 1;
      CopiesCost(h, n, h, Stamp(head), p);
    } else {
    }
  }

  /** Receiving an ACK pays exactly its own price, whatever it makes the client send. */
  lemma AckPays(h: nat, s: System, p: Price)
    requires Inv(s) && PipelineOrdered(s) && IsDrainStep(s, ReceiveAck)
    ensures Work(h, s, p) == p.ack + Work(h, Apply(h, s, ReceiveAck), p)
  {
    assert Pipeline(s)[0] == s.acks[0];
    var t := Apply(h, s, ReceiveAck);
    assert t.sessions[..|t.sessions| - 1] == s.sessions[..|s.sessions| - 1];
    AckSetsOff(h, s, s.acks[0], p);
    AckEffect(h, s, s.acks[0]);
    MetricsCostAppend(h, |s.history|, Live(s), Copies(h, Flush(AfterAck(h, s, s.acks[0]))), p);
  }

  /** While something is stored, something is under way. */
  predicate Flushing(s: System) {
    Connected(s) && (s.client.outbox.rows != [] ==> Pipeline(s) != [])
  }

  lemma {:induction false} CopiesOfSome(k: nat, xs: seq<MetricsSnapshot>)
    requires k > 0 && xs != []
    ensures Copies(k, xs) != []
  {
  }

  /**
    A connected client has something under way for what it stores as soon as it collects a snapshot
    or receives an ACK, usable or not. Connecting alone sends nothing.
   */
  lemma FlushingBegins(h: nat, steps: seq<Step>, step: Step)
    requires h > 0 && Connected(Run(h, steps)) && Enabled(Run(h, steps), step)
    requires step.Collect? || step.ReceiveAck? || step.ReceiveBadAck?
    ensures Flushing(Run(h, steps + [step]))
  {
    var s := Run(h, steps);
    var t := Apply(h, s, step);
    Invariant(h, steps);
    assert Run(h, steps + [step]) == t;
    if step.Collect? {
      assert OnSnapshot(s.client, step.snapshot).sent == Flush(t.client);
    } else {
      var id := if step.ReceiveAck? then s.acks[0] else step.localId;
      AckEffect(h, s, id);
      if t.client.outbox.rows != [] {
        CopiesOfSome(h, Flush(t.client));
      }
    }
  }

  /** A client that has just connected waits for that: what it had stored is not yet under way. */
  lemma ConnectWaits(h: nat, steps: seq<Step>)
    requires Enabled(Run(h, steps), Connect)
    ensures Quiet(Run(h, steps + [Connect]))
    ensures Flushing(Run(h, steps + [Connect])) <==> Run(h, steps).client.outbox.rows == []
  {
    var s := Run(h, steps);
    assert Run(h, steps + [Connect]) == Apply(h, s, Connect);
  }

  /** What holds along a drain run. */
  ghost predicate Draining(s: System) { Inv(s) && PipelineOrdered(s) && Connected(s) }

  lemma DrainStepServe(h: nat, s: System, step: Step)
    requires Draining(s) && IsDrainStep(s, step) && step.Serve?
    ensures var t := Apply(h, s, step);
            && Draining(t) && t.history == s.history && |t.log| == |s.log| + 1
            && (Flushing(s) ==> Flushing(t))
  {
    NextKeepsInv(h, s, step);
    HandleKeepsPipeline(s, step.session, step.identity, step.stored);
  }

  lemma DrainStepAck(h: nat, s: System)
    requires Draining(s) && IsDrainStep(s, ReceiveAck)
    ensures var t := Apply(h, s, ReceiveAck);
            && Draining(t) && t.history == s.history && |t.log| == |s.log|
            && (h > 0 ==> Flushing(t))
  {
    var c, t := AfterAck(h, s, s.acks[0]), Apply(h, s, ReceiveAck);
    NextKeepsInv(h, s, ReceiveAck);
    AckKeepsPipeline(h, s);
    AckEffect(h, s, s.acks[0]);
    assert t.client == c;
    if h > 0 && c.outbox.rows != [] {
      assert |Ids(Copies(h, Flush(c)))| == h;
    }
  }

  /** The price of a drain run is the difference in outstanding work: no choice of order matters. */
  lemma {:induction false} DrainRunPays(h: nat, s: System, steps: seq<Step>)
    requires Draining(s) && IsDrainRun(h, s, steps)
    ensures var t := DrainRun(h, s, steps);
            && Draining(t) && t.history == s.history
            && |steps| + Work(h, t, Price(1, 1)) == Work(h, s, Price(1, 1))
            && |t.log| - |s.log| + Work(h, t, Price(1, 0)) == Work(h, s, Price(1, 0))
            && (h > 0 && Flushing(s) ==> Flushing(t))
    decreases |steps|
  {
    if steps != [] {
      if steps[0].Serve? {
        DrainStepServe(h, s, steps[0]);
        ServePays(h, s, steps[0], Price(1, 1));
        ServePays(h, s, steps[0], Price(1, 0));
      } else {
        DrainStepAck(h, s);
        AckPays(h, s, Price(1, 1));
        AckPays(h, s, Price(1, 0));
      }
      DrainRunPays(h, Apply(h, s, steps[0]), steps[1..]);
    }
  }

  /** Nothing is under way on the live connection. */
  predicate Quiet(s: System) { s.acks == [] && Live(s) == [] }

  /** Some message is under way, so a session or the client can move. */
  predicate CanDrain(s: System) { !Quiet(s) || StaleLines(s) > 0 }

  lemma CanDrainMeansEnabled(s: System, identity: Identity, stored: bool)
    requires Connected(s)
    ensures CanDrain(s) <==>
            IsDrainStep(s, ReceiveAck) || exists n: nat :: IsDrainStep(s, Serve(n, identity, stored))
  {
    var last := |s.sessions| - 1;
    SomeLine(s.sessions[..last]);
    if Live(s) != [] {
      assert IsDrainStep(s, Serve(last, identity, stored));
    }
    if StaleLines(s) > 0 {
      var n :| 0 <= n < last && s.sessions[..last][n] != [];
      assert IsDrainStep(s, Serve(n, identity, stored));
    }
    if n: nat :| IsDrainStep(s, Serve(n, identity, stored)) {
      assert n < last ==> s.sessions[..last][n] == s.sessions[n];
    }
  }

  lemma LiveWorkIsUnderWay(h: nat, s: System)
    ensures LiveWork(h, s, Price(1, 1)) > 0 <==> !Quiet(s)
    ensures Quiet(s) ==> LiveWork(h, s, Price(1, 0)) == 0
  {
  }

  lemma NothingLeft(s: System)
    requires Draining(s) && Flushing(s) && Quiet(s)
    ensures s.client.outbox.rows == []
    ensures FirstDeliveries(Delivered(s.log)) == Stamped(s.history, |s.history|)
  {
  }

  /**
    From any reachable connected state with a message under way, a run of drain steps has at most
    Work steps, and stops only after exactly that many. As soon as the live connection is quiet, the
    outbox is empty and every collected snapshot has been handled, first deliveries in order.
   */
  lemma {:induction false} Drains(h: nat, steps: seq<Step>, drain: seq<Step>)
    requires h > 0
    requires Flushing(Run(h, steps)) && IsDrainRun(h, Run(h, steps), drain)
    ensures var s, t := Run(h, steps), DrainRun(h, Run(h, steps), drain);
            && |drain| <= Work(h, s, Price(1, 1))
            && (|drain| == Work(h, s, Price(1, 1)) <==> !CanDrain(t))
            && (!CanDrain(t) ==> |t.log| == |s.log| + Work(h, s, Price(1, 0)))
            && (Quiet(t) ==>
                  && t.client.outbox.rows == []
                  && FirstDeliveries(Delivered(t.log)) == Stamped(s.history, |s.history|))
  {
    var s, t := Run(h, steps), DrainRun(h, Run(h, steps), drain);
    Invariant(h, steps);
    PipelineAlwaysOrdered(h, steps);
    DrainRunPays(h, s, drain);
    LiveWorkIsUnderWay(h, t);
    if Quiet(t) {
      NothingLeft(t);
    }
  }

  /** Draining can always be completed, whatever the identity and the fate of the inserts. */
  lemma {:induction false} DrainCanFinish(h: nat, s: System, identity: Identity, stored: bool)
    returns (drain: seq<Step>)
    requires Draining(s)
    ensures IsDrainRun(h, s, drain) && !CanDrain(DrainRun(h, s, drain))
    decreases Work(h, s, Price(1, 1))
  {
    drain := [];
    if CanDrain(s) {
      CanDrainMeansEnabled(s, identity, stored);
      var step := ReceiveAck;
      if s.acks == [] {
        var n: nat :| IsDrainStep(s, Serve(n, identity, stored));
        step := Serve(n, identity, stored);
      }
      if step.Serve? {
        DrainStepServe(h, s, step);
        ServePays(h, s, step, Price(1, 1));
      } else {
        DrainStepAck(h, s);
        AckPays(h, s, Price(1, 1));
      }
      var rest := DrainCanFinish(h, Apply(h, s, step), identity, stored);
      drain := [step] + rest;
      assert drain[1..] == rest;
    }
  }

  // ---- What a second connection of the ACK slot costs ----

  /** 1 + h + h^2 + ... with `n` terms. */
  function Geometric(h: nat, n: nat): nat { if n == 0 then 0 else 1 + h * Geometric(h, n - 1) }

  function Pow2(n: nat): nat { if n == 0 then 1 else 2 * Pow2(n - 1) }

  lemma GeometricOfOne(n: nat)
    ensures Geometric(1, n) == n
  {
  }

  lemma GeometricOfTwo(n: nat)
    ensures Geometric(2, n) + 1 == Pow2(n)
  {
  }

  lemma {:induction false} CostIsGeometric(h: nat, n: nat, id: int)
    requires id <= n
    ensures MetricsCost(h, n, id, Price(1, 0)) == Geometric(h, n - id + 1)
    decreases n - id
  {
    if id < n {
      CostIsGeometric(h, n, id + 1);
    } else {
      assert Geometric(h, 1) == 1 + h * Geometric(h, 0);
    }
  }

  lemma WorkOfOneHead(h: nat, s: System)
    requires OutboxIsTail(s) && s.client.outbox.rows != []
    requires s.acks == [] && Connected(s) && Live(s) == Flush(s.client)
    ensures LiveWork(h, s, Price(1, 0)) == Geometric(h, |s.client.outbox.rows|)
  {
    var head, p := Stamp(s.client.outbox.rows[0]), Price(1, 0);
    assert Live(s) == [head] && Live(s)[1..] == [];
    assert AllMetricsCost(h, |s.history|, Live(s), p) == MetricsCost(h, |s.history|, head.localId, p);
    CostIsGeometric(h, |s.history|, head.localId);
  }

  /**
    Emptying an outbox of `n` items whose head has just been sent once: the server handles
    1 + h + ... + h^(n-1) METRICS messages, so `n` if the slot is connected once, and
    2^n - 1 as it is wired, in every interleaving; and what stale sessions still held.
   */
  lemma {:induction false} DrainAmplification(h: nat, steps: seq<Step>, drain: seq<Step>)
    requires h > 0
    requires var s := Run(h, steps);
             Connected(s) && s.acks == [] && s.client.outbox.rows != [] && Live(s) == Flush(s.client)
    requires IsDrainRun(h, Run(h, steps), drain) && !CanDrain(DrainRun(h, Run(h, steps), drain))
    ensures var s, t := Run(h, steps), DrainRun(h, Run(h, steps), drain);
            var n, handled := |s.client.outbox.rows|, |t.log| - |s.log| - StaleLines(s);
            && handled == Geometric(h, n)
            && (h == 1 ==> handled == n)
            && (h == 2 ==> handled == Pow2(n) - 1)
  {
    var s := Run(h, steps);
    var n := |s.client.outbox.rows|;
    Invariant(h, steps);
    Drains(h, steps, drain);
    WorkOfOneHead(h, s);
    GeometricOfOne(n);
    GeometricOfTwo(n);
  }
}
