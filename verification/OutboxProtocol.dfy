/**
  The store-and-forward protocol between one outbox and the server, as a state machine.
  The parameter `h` is the number of times onAckReceived runs for one ACK.
 */
module OutboxProtocol {
  import opened Models
  import opened LocalStore
  import opened Sync

  /** One METRICS message handled by a server session; `stored` is false when the insert threw. */
  datatype Entry = Entry(session: nat, identity: Identity, snapshot: MetricsSnapshot, stored: bool)

  datatype System = System(
    client: Client,
    history: seq<MetricsSnapshot>,          // every snapshot ever enqueued
    sessions: seq<seq<MetricsSnapshot>>,    // per connection, METRICS written and not yet handled
    acks: seq<int>,                         // ACKs on the live connection not yet received
    log: seq<Entry>)                        // every METRICS handled, in order

  const INITIAL := System(Client(Outbox([], 0), false), [], [], [], [])

  datatype Step =
    | Collect(snapshot: MetricsSnapshot)
    | Connect
    | Drop(keep: nat)                       // disconnect or client restart; unsent bytes are lost
    | Serve(session: nat, identity: Identity, stored: bool)
    | ReceiveAck
    | ReceiveBadAck(localId: int)           // an ACK line without a usable id
    | LoseAck(at: nat)
    | LoseMetrics(session: nat, keep: nat)  // a session stops with lines unread

  /** What the client has written to the newest connection and its session has not handled. */
  function Live(s: System): seq<MetricsSnapshot> {
    if s.sessions == [] then [] else s.sessions[|s.sessions| - 1]
  }

  predicate Connected(s: System) { s.client.connected && s.sessions != [] }

  /** The client has run a slot with the given outcome. */
  function Transmit(s: System, o: Outcome): System {
    var s' := s.(client := o.client);
    if Connected(s) then s'.(sessions := s.sessions[|s.sessions| - 1 := Live(s) + o.sent]) else s'
  }

  function Take(xs: seq<MetricsSnapshot>, n: nat): seq<MetricsSnapshot> { if n < |xs| then xs[..n] else xs }

  /** The session handles its next line: insert, then acknowledge in any case. */
  function Handle(s: System, session: nat, identity: Identity, stored: bool): System
    requires session < |s.sessions| && s.sessions[session] != []
  {
    var m := s.sessions[session][0];
    s.(sessions := s.sessions[session := s.sessions[session][1..]],
       log := s.log + [Entry(session, identity, m, stored)],
       acks := if Connected(s) && session == |s.sessions| - 1 then s.acks + [m.localId] else s.acks)
  }

  predicate Enabled(s: System, step: Step) {
    match step
    case Collect(_) => true
    case Connect => !s.client.connected
    case Drop(_) => Connected(s)
    case Serve(n, _, _) => n < |s.sessions| && s.sessions[n] != []
    case ReceiveAck => Connected(s) && s.acks != []
    case ReceiveBadAck(id) => Connected(s) && id <= 0
    case LoseAck(at) => at < |s.acks|
    case LoseMetrics(n, _) => n < |s.sessions|
  }

  function Apply(h: nat, s: System, step: Step): System
    requires Enabled(s, step)
  {
    match step
    case Collect(p) => Transmit(s, OnSnapshot(s.client, p)).(history := s.history + [p])
    case Connect => s.(client := s.client.(connected := true), sessions := s.sessions + [[]], acks := [])
    case Drop(keep) =>
      s.(client := s.client.(connected := false), acks := [],
         sessions := s.sessions[|s.sessions| - 1 := Take(Live(s), keep)])
    case Serve(n, identity, stored) => Handle(s, n, identity, stored)
    case ReceiveAck => Transmit(s, OnAckTimes(h, s.client, s.acks[0])).(acks := s.acks[1..])
    case ReceiveBadAck(id) => Transmit(s, OnAckTimes(h, s.client, id))
    case LoseAck(at) => s.(acks := s.acks[..at] + s.acks[at + 1..])
    case LoseMetrics(n, keep) => s.(sessions := s.sessions[n := Take(s.sessions[n], keep)])
  }

  /** A step that is not possible is skipped, so every list of steps describes a run. */
  function Next(h: nat, s: System, step: Step): System {
    if Enabled(s, step) then Apply(h, s, step) else s
  }

  function Run(h: nat, steps: seq<Step>): System {
    if steps == [] then INITIAL else Next(h, Run(h, steps[..|steps| - 1]), steps[|steps| - 1])
  }

  // ---- First deliveries ----

  ghost predicate HasId(xs: seq<MetricsSnapshot>, id: int) { exists x | x in xs :: x.localId == id }

  /** `xs` without the snapshots whose id occurred earlier. */
  ghost function FirstDeliveries(xs: seq<MetricsSnapshot>): seq<MetricsSnapshot> {
    if xs == [] then []
    else
      var before, x := xs[..|xs| - 1], xs[|xs| - 1];
      if HasId(before, x.localId) then FirstDeliveries(before) else FirstDeliveries(before) + [x]
  }

  /** Dropping repeats adds nothing and loses no id. */
  lemma {:induction false} FirstDeliveriesIds(xs: seq<MetricsSnapshot>, id: int)
    ensures forall x | x in FirstDeliveries(xs) :: x in xs
    ensures HasId(FirstDeliveries(xs), id) <==> HasId(xs, id)
  {
    if xs != [] {
      var before, x := xs[..|xs| - 1], xs[|xs| - 1];
      assert xs == before + [x];
      FirstDeliveriesIds(before, id);
      var first := FirstDeliveries(before);
    }
  }

  function Delivered(log: seq<Entry>): seq<MetricsSnapshot> {
    seq(|log|, i requires 0 <= i < |log| => log[i].snapshot)
  }

  /** The first `k` snapshots of the history as they go on the wire. */
  function Stamped(history: seq<MetricsSnapshot>, k: nat): seq<MetricsSnapshot>
    requires k <= |history|
  {
    seq(k, i requires 0 <= i < k => history[i].(localId := i + 1))
  }

  // ---- The invariant ----

  /** How many items have been erased. */
  function Erased(s: System): int { |s.history| - |s.client.outbox.rows| }

  /** The outbox is the tail of the history that starts after the erased items. */
  predicate OutboxIsTail(s: System) {
    var rows := s.client.outbox.rows;
    && s.client.outbox.lastId == |s.history| >= |rows|
    && forall i | 0 <= i < |rows| :: rows[i] == Item(Erased(s) + i + 1, s.history[Erased(s) + i])
  }

  /** A stamped item of the history, no later than the current head. */
  predicate Genuine(s: System, x: MetricsSnapshot) {
    && 0 < x.localId <= |s.history| && x.localId <= Erased(s) + 1
    && x == s.history[x.localId - 1].(localId := x.localId)
  }

  predicate AllGenuine(s: System, xs: seq<MetricsSnapshot>) { forall x | x in xs :: Genuine(s, x) }

  /** How many items have been delivered at least once. */
  ghost function Reached(s: System): nat { |FirstDeliveries(Delivered(s.log))| }

  /** First deliveries are a prefix of the history, ahead of the erased items by at most one. */
  ghost predicate PrefixDelivered(xs: seq<MetricsSnapshot>, history: seq<MetricsSnapshot>, erased: int) {
    var first := FirstDeliveries(xs);
    && erased <= |first| <= erased + 1 && |first| <= |history|
    && first == Stamped(history, |first|)
  }

  ghost predicate DeliveredIsPrefix(s: System) { PrefixDelivered(Delivered(s.log), s.history, Erased(s)) }

  ghost predicate Inv(s: System) {
    && OutboxIsTail(s)
    && (s.client.connected ==> s.sessions != [])
    && (forall n | 0 <= n < |s.sessions| :: AllGenuine(s, s.sessions[n]))
    && AllGenuine(s, Delivered(s.log))
    && (forall i | 0 <= i < |s.log| :: s.log[i].session < |s.sessions|)
    && DeliveredIsPrefix(s)
    && (forall i | 0 <= i < |s.acks| :: 0 < s.acks[i] <= Reached(s))
    && (!s.client.connected ==> s.acks == [])
  }

  function Copies(n: nat, xs: seq<MetricsSnapshot>): (r: seq<MetricsSnapshot>)
    ensures forall x | x in r :: x in xs
    ensures |r| == n * |xs|
  {
    if n == 0 then [] else xs + Copies(n - 1, xs)
  }

  predicate SameItems(s: System, t: System) {
    t.history == s.history && t.client.outbox == s.client.outbox
  }

  /** The client after an ACK for `id`: the head is erased, or nothing. */
  function AfterAck(h: nat, s: System, id: int): Client {
    var rows := s.client.outbox.rows;
    if h > 0 && rows != [] && id == rows[0].id
    then s.client.(outbox := s.client.outbox.(rows := rows[1..]))
    else s.client
  }

  lemma {:induction false} AckEffect(h: nat, s: System, id: int)
    requires OutboxIsTail(s) && id <= Erased(s) + 1
    ensures OnAckTimes(h, s.client, id) == Outcome(AfterAck(h, s, id), Copies(h, Flush(AfterAck(h, s, id))))
  {
    if h > 0 {
      var t := s.(client := AfterAck(1, s, id));
      AckOnce(s, id);
      SecondAckIsIdle(h - 1, s, id);
      AckEffect(h - 1, t, id);
    }
  }

  /** One run of the slot erases the head or nothing. */
  lemma AckOnce(s: System, id: int)
    requires OutboxIsTail(s) && id <= Erased(s) + 1
    ensures OnAck(s.client, id) == Outcome(AfterAck(1, s, id), Flush(AfterAck(1, s, id)))
  {
    var rows := s.client.outbox.rows;
    if rows != [] && id == rows[0].id {
      EraseCutsOne(rows, 0);
      assert rows[..0] + rows[1..] == rows[1..];
    } else {
      WithoutAbsent(rows, id);
    }
  }

  /** The next run for the same ACK erases nothing. */
  lemma SecondAckIsIdle(k: nat, s: System, id: int)
    requires OutboxIsTail(s) && id <= Erased(s) + 1
    ensures var t := s.(client := AfterAck(1, s, id));
            OutboxIsTail(t) && id <= Erased(t) + 1 && AfterAck(k, t, id) == t.client
  {
  }

  /** A slot leaves a tail of the history and writes nothing but its first item. */
  predicate SlotDone(s: System, t: System, o: Outcome) {
    && t == Transmit(s, o).(history := t.history, acks := t.acks)
    && s.history <= t.history && OutboxIsTail(t) && Erased(s) <= Erased(t)
    && AllGenuine(t, o.sent) && (forall x | x in o.sent :: x.localId == Erased(t) + 1)
    && o.client.connected == s.client.connected
  }

  lemma CollectSlot(h: nat, s: System, p: MetricsSnapshot)
    requires OutboxIsTail(s)
    ensures SlotDone(s, Apply(h, s, Collect(p)), OnSnapshot(s.client, p))
    ensures Erased(Apply(h, s, Collect(p))) == Erased(s)
  {
  }

  lemma AfterAckIsTail(h: nat, s: System, id: int)
    requires OutboxIsTail(s)
    ensures var t := s.(client := AfterAck(h, s, id));
            && OutboxIsTail(t) && Erased(s) <= Erased(t) && (Erased(t) == Erased(s) || Erased(t) == id)
            && AllGenuine(t, Copies(h, Flush(t.client)))
            && forall x | x in Copies(h, Flush(t.client)) :: x.localId == Erased(t) + 1
  {
  }

  lemma AckSlot(h: nat, s: System, id: int, acks: seq<int>)
    requires OutboxIsTail(s) && id <= Erased(s) + 1
    ensures var o := OnAckTimes(h, s.client, id);
            var t := Transmit(s, o).(acks := acks);
            SlotDone(s, t, o) && (Erased(t) == Erased(s) || Erased(t) == id)
  {
    var next := AfterAck(h, s, id);
    AckEffect(h, s, id);
    AfterAckIsTail(h, s, id);
  }

  lemma SlotKeepsInv(s: System, t: System, o: Outcome)
    requires Inv(s) && SlotDone(s, t, o) && Erased(t) <= Reached(s)
    requires |t.acks| <= |s.acks| && t.acks == s.acks[|s.acks| - |t.acks|..]
    ensures Inv(t)
  {
  }

  /** The ids delivered are those of the prefix. */
  lemma DeliveredIds(xs: seq<MetricsSnapshot>, history: seq<MetricsSnapshot>, erased: int, id: int)
    requires PrefixDelivered(xs, history, erased) && id > 0
    ensures HasId(xs, id) <==> id <= |FirstDeliveries(xs)|
  {
    var first := FirstDeliveries(xs);
    FirstDeliveriesIds(xs, id);
    if id <= |first| {
      assert first[id - 1] in first;
    }
  }

  /** Delivering the next genuine message either repeats an id or extends the prefix by one. */
  lemma {:induction false} DeliveryExtendsPrefix(xs: seq<MetricsSnapshot>, m: MetricsSnapshot,
                                                 history: seq<MetricsSnapshot>, erased: int)
    requires PrefixDelivered(xs, history, erased)
    requires 0 < m.localId <= |history| && m.localId <= erased + 1
    requires m == history[m.localId - 1].(localId := m.localId)
    ensures PrefixDelivered(xs + [m], history, erased)
    ensures |FirstDeliveries(xs)| <= |FirstDeliveries(xs + [m])| && m.localId <= |FirstDeliveries(xs + [m])|
  {
    DeliveredIds(xs, history, erased, m.localId);
  }

  lemma HandleExtendsPrefix(s: System, t: System, n: nat, identity: Identity, stored: bool)
    requires DeliveredIsPrefix(s) && n < |s.sessions| && s.sessions[n] != [] && Genuine(s, s.sessions[n][0])
    requires t == Handle(s, n, identity, stored)
    ensures DeliveredIsPrefix(t) && Reached(s) <= Reached(t) && s.sessions[n][0].localId <= Reached(t)
  {
    assert Delivered(t.log) == Delivered(s.log) + [s.sessions[n][0]];
    DeliveryExtendsPrefix(Delivered(s.log), s.sessions[n][0], s.history, Erased(s));
  }

  /** A session may lose or hand on messages without making the others less genuine. */
  lemma SessionShrinks(s: System, t: System, n: nat, xs: seq<MetricsSnapshot>)
    requires SameItems(s, t) && n < |s.sessions| && t.sessions == s.sessions[n := xs]
    requires forall k | 0 <= k < |s.sessions| :: AllGenuine(s, s.sessions[k])
    requires forall x | x in xs :: x in s.sessions[n]
    ensures forall k | 0 <= k < |t.sessions| :: AllGenuine(t, t.sessions[k])
  {
  }

  lemma HandleKeepsInv(s: System, n: nat, identity: Identity, stored: bool)
    requires Inv(s) && n < |s.sessions| && s.sessions[n] != []
    ensures Inv(Handle(s, n, identity, stored))
  {
    var t := Handle(s, n, identity, stored);
    var m := s.sessions[n][0];
    assert AllGenuine(s, s.sessions[n]);
    assert Genuine(s, m);
    SessionShrinks(s, t, n, s.sessions[n][1..]);
    HandleExtendsPrefix(s, t, n, identity, stored);
    LogStaysGenuine(s, t, t.log[|s.log|]);
  }

  lemma LogStaysGenuine(s: System, t: System, entry: Entry)
    requires SameItems(s, t) && t.log == s.log + [entry]
    requires AllGenuine(s, Delivered(s.log)) && Genuine(s, entry.snapshot)
    ensures AllGenuine(t, Delivered(t.log))
  {
    assert Delivered(t.log) == Delivered(s.log) + [entry.snapshot];
  }

  lemma ConnectKeepsInv(h: nat, s: System)
    requires Inv(s) && Enabled(s, Connect)
    ensures Inv(Apply(h, s, Connect))
  {
  }

  /** Every way of losing messages in flight. */
  lemma LossKeepsInv(h: nat, s: System, step: Step)
    requires Inv(s) && Enabled(s, step)
    requires step.Drop? || step.LoseAck? || step.LoseMetrics?
    ensures Inv(Apply(h, s, step))
  {
    var t := Apply(h, s, step);
    match step
    case Drop(keep) => SessionShrinks(s, t, |s.sessions| - 1, Take(Live(s), keep));
    case LoseMetrics(n, keep) => SessionShrinks(s, t, n, Take(s.sessions[n], keep));
    case LoseAck(at) => SessionsSame(s, t);
  }

  lemma SessionsSame(s: System, t: System)
    requires SameItems(s, t) && t.sessions == s.sessions
    requires forall k | 0 <= k < |s.sessions| :: AllGenuine(s, s.sessions[k])
    ensures forall k | 0 <= k < |t.sessions| :: AllGenuine(t, t.sessions[k])
  {
  }

  lemma NextKeepsInv(h: nat, s: System, step: Step)
    requires Inv(s)
    ensures Inv(Next(h, s, step))
  {
    if Enabled(s, step) {
      match step
      case Collect(p) =>
        CollectSlot(h, s, p);
        SlotKeepsInv(s, Apply(h, s, step), OnSnapshot(s.client, p));
      case Serve(n, identity, stored) => HandleKeepsInv(s, n, identity, stored);
      case ReceiveAck =>
        AckSlot(h, s, s.acks[0], s.acks[1..]);
        SlotKeepsInv(s, Apply(h, s, step), OnAckTimes(h, s.client, s.acks[0]));
      case ReceiveBadAck(id) =>
        AckSlot(h, s, id, s.acks);
        SlotKeepsInv(s, Apply(h, s, step), OnAckTimes(h, s.client, id));
      case Connect => ConnectKeepsInv(h, s);
      case _ => LossKeepsInv(h, s, step);
    }
  }

  lemma {:induction false} Invariant(h: nat, steps: seq<Step>)
    ensures Inv(Run(h, steps))
  {
    if steps == [] {
      assert Delivered([]) == [];
    } else {
      Invariant(h, steps[..|steps| - 1]);
      NextKeepsInv(h, Run(h, steps[..|steps| - 1]), steps[|steps| - 1]);
    }
  }
}
