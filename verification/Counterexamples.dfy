/** Two short runs in which more was hoped for than the protocol gives. */
module Counterexamples {
  import opened Models
  import opened Text
  import opened LocalStore
  import opened Sync
  import opened Repository
  import opened OutboxProtocol
  import opened OutboxTheorems
  import opened Redelivery

  lemma RunExtend(h: nat, steps: seq<Step>, step: Step, s: System)
    requires Next(h, Run(h, steps), step) == s
    ensures Run(h, steps + [step]) == s
  {
  }

  function OnWire(p: MetricsSnapshot, id: int): MetricsSnapshot { p.(localId := id) }

  function Started(p: MetricsSnapshot): System {
    System(Client(Outbox([Item(1, p)], 1), true), [p], [[OnWire(p, 1)]], [], [])
  }

  /** A first snapshot collected while connected. */
  lemma Start(h: nat, p: MetricsSnapshot)
    ensures Run(h, [Connect] + [Collect(p)]) == Started(p)
  {
    var s1 := System(Client(Outbox([], 0), true), [], [[]], [], []);
    assert Run(h, []) == INITIAL && [] + [Connect] == [Connect];
    RunExtend(h, [], Connect, s1);
    assert [] + [OnWire(p, 1)] == [OnWire(p, 1)];
    RunExtend(h, [Connect], Collect(p), Started(p));
  }

  function FailedSteps(p: MetricsSnapshot, identity: Identity): seq<Step> {
    [Connect] + [Collect(p)] + [Serve(0, identity, false)] + [ReceiveAck]
  }

  lemma FailedRun(h: nat, p: MetricsSnapshot, identity: Identity)
    requires h > 0
    ensures var s := Run(h, FailedSteps(p, identity));
            && s.history == [p] && s.client.outbox.rows == []
            && s.log == [Entry(0, identity, OnWire(p, 1), false)]
  {
    var steps := [Connect] + [Collect(p)];
    var served := Handle(Started(p), 0, identity, false);
    Start(h, p);
    RunExtend(h, steps, Serve(0, identity, false), served);
    AckEffect(h, served, 1);
    RunExtend(h, steps + [Serve(0, identity, false)], ReceiveAck, Apply(h, served, ReceiveAck));
  }

  /** The server acknowledges an insert that threw, so a single failure loses the item for good. */
  lemma FailedInsertLosesItem(h: nat, p: MetricsSnapshot, identity: Identity)
    requires h > 0
    ensures var s := Run(h, FailedSteps(p, identity));
            s.history == [p] && !Waiting(s, 0) && !Stored(s, 0)
  {
    FailedRun(h, p, identity);
    LostIff(h, FailedSteps(p, identity), 0);
  }

  // ---- A stale session and equal timestamps ----

  /** The state with the given outbox rows, connection, sessions, ACKs and log, after collecting p and q. */
  function Two(p: MetricsSnapshot, q: MetricsSnapshot, rows: seq<Item>, stale: seq<MetricsSnapshot>,
               live: seq<MetricsSnapshot>, acks: seq<int>, log: seq<Entry>): System
  {
    System(Client(Outbox(rows, 2), true), [p, q], [stale, live], acks, log)
  }

  function ReconnectSteps(p: MetricsSnapshot, q: MetricsSnapshot): seq<Step> {
    [Connect] + [Collect(p)] + [Drop(1)] + [Connect] + [Collect(q)]
  }

  /** Disconnected with the METRICS still unread; reconnected; a second snapshot collected. */
  lemma Reconnect(h: nat, p: MetricsSnapshot, q: MetricsSnapshot)
    ensures var w := OnWire(p, 1);
            Run(h, ReconnectSteps(p, q)) == Two(p, q, [Item(1, p), Item(2, q)], [w], [w], [], [])
  {
    var steps, w := [Connect] + [Collect(p)], OnWire(p, 1);
    var dropped := System(Client(Outbox([Item(1, p)], 1), false), [p], [[w]], [], []);
    var again := System(Client(Outbox([Item(1, p)], 1), true), [p], [[w], []], [], []);
    Start(h, p);
    DropAndConnect(h, p, dropped, again);
    SecondCollected(h, p, q, again);
    RunExtend(h, steps, Drop(1), dropped);
    RunExtend(h, steps + [Drop(1)], Connect, again);
    RunExtend(h, steps + [Drop(1)] + [Connect], Collect(q), Two(p, q, [Item(1, p), Item(2, q)], [w], [w], [], []));
  }

  lemma DropAndConnect(h: nat, p: MetricsSnapshot, dropped: System, again: System)
    requires dropped == System(Client(Outbox([Item(1, p)], 1), false), [p], [[OnWire(p, 1)]], [], [])
    requires again == System(Client(Outbox([Item(1, p)], 1), true), [p], [[OnWire(p, 1)], []], [], [])
    ensures Next(h, Started(p), Drop(1)) == dropped && Next(h, dropped, Connect) == again
  {
  }

  lemma SecondCollected(h: nat, p: MetricsSnapshot, q: MetricsSnapshot, again: System)
    requires again == System(Client(Outbox([Item(1, p)], 1), true), [p], [[OnWire(p, 1)], []], [], [])
    ensures var w := OnWire(p, 1);
            Next(h, again, Collect(q)) == Two(p, q, [Item(1, p), Item(2, q)], [w], [w], [], [])
  {
    var w, o := OnWire(p, 1), OnSnapshot(again.client, q);
    assert [Item(1, p)] + [Item(2, q)] == [Item(1, p), Item(2, q)] && [p] + [q] == [p, q];
    assert o == Outcome(Client(Outbox([Item(1, p), Item(2, q)], 2), true), [w]);
    assert [] + [w] == [w] && [[w], []][1 := [w]] == [[w], [w]];
  }

  /** A session handles the first of its messages; only an ACK from the live one is on its way. */
  lemma Served(h: nat, s: System, n: nat, identity: Identity, p: MetricsSnapshot, q: MetricsSnapshot)
    requires n < 2 && |s.sessions| == 2 && s.sessions[n] != [] && s.client.connected
    requires s == Two(p, q, s.client.outbox.rows, s.sessions[0], s.sessions[1], [], s.log)
    ensures Next(h, s, Serve(n, identity, true))
         == Two(p, q, s.client.outbox.rows,
                if n == 0 then s.sessions[0][1..] else s.sessions[0],
                if n == 1 then s.sessions[1][1..] else s.sessions[1],
                if n == 1 then [s.sessions[1][0].localId] else [],
                s.log + [Entry(n, identity, s.sessions[n][0], true)])
  {
    var m, t := s.sessions[n][0], Next(h, s, Serve(n, identity, true));
    assert t.sessions == [if n == 0 then s.sessions[0][1..] else s.sessions[0],
                          if n == 1 then s.sessions[1][1..] else s.sessions[1]];
    assert [] + [m.localId] == [m.localId];
  }

  /** On the ACK of item 1 the client sends item 2, once for every run of the slot. */
  lemma SecondItemSent(h: nat, p: MetricsSnapshot, q: MetricsSnapshot, stale: seq<MetricsSnapshot>, log: seq<Entry>)
    requires h > 0
    ensures Next(h, Two(p, q, [Item(1, p), Item(2, q)], stale, [], [1], log), ReceiveAck)
         == Two(p, q, [Item(2, q)], stale, Copies(h, [OnWire(q, 2)]), [], log)
  {
    var s, w := Two(p, q, [Item(1, p), Item(2, q)], stale, [], [1], log), OnWire(q, 2);
    assert [Item(1, p), Item(2, q)][1..] == [Item(2, q)];
    AckEffect(h, s, 1);
    assert Flush(AfterAck(h, s, 1)) == [w];
    assert [] + Copies(h, [w]) == Copies(h, [w]) && [stale, []][1 := Copies(h, [w])] == [stale, Copies(h, [w])];
  }

  /** The live session handles both items; then the stale one handles its copy of the first. */
  function Late(p: MetricsSnapshot, q: MetricsSnapshot, identity: Identity): seq<Entry> {
    [] + [Entry(1, identity, OnWire(p, 1), true)] + [Entry(1, identity, OnWire(q, 2), true)]
    + [Entry(0, identity, OnWire(p, 1), true)]
  }

  function LateSteps(p: MetricsSnapshot, q: MetricsSnapshot, identity: Identity): seq<Step> {
    ReconnectSteps(p, q) + [Serve(1, identity, true)] + [ReceiveAck] + [Serve(1, identity, true)]
    + [LoseAck(0)] + [Serve(0, identity, true)]
  }

  lemma FirstItemDone(h: nat, p: MetricsSnapshot, q: MetricsSnapshot, identity: Identity)
    requires h > 0
    ensures Run(h, ReconnectSteps(p, q) + [Serve(1, identity, true)] + [ReceiveAck])
         == Two(p, q, [Item(2, q)], [OnWire(p, 1)], Copies(h, [OnWire(q, 2)]), [],
                [] + [Entry(1, identity, OnWire(p, 1), true)])
  {
    var steps, serve := ReconnectSteps(p, q), Serve(1, identity, true);
    var w1, both := OnWire(p, 1), [Item(1, p), Item(2, q)];
    var log1 := [] + [Entry(1, identity, w1, true)];
    Reconnect(h, p, q);
    Served(h, Two(p, q, both, [w1], [w1], [], []), 1, identity, p, q);
    assert [w1][1..] == [];
    RunExtend(h, steps, serve, Two(p, q, both, [w1], [], [1], log1));
    SecondItemSent(h, p, q, [w1], log1);
    RunExtend(h, steps + [serve], ReceiveAck, Two(p, q, [Item(2, q)], [w1], Copies(h, [OnWire(q, 2)]), [], log1));
  }

  /** However often the slot runs, the stale session can handle its copy of item 1 last. */
  lemma LateRun(h: nat, p: MetricsSnapshot, q: MetricsSnapshot, identity: Identity)
    requires h > 0
    ensures Run(h, LateSteps(p, q, identity)).log == Late(p, q, identity)
    ensures Run(h, LateSteps(p, q, identity)).history == [p, q]
  {
    var serve := Serve(1, identity, true);
    var steps := ReconnectSteps(p, q) + [serve] + [ReceiveAck];
    var w1, w2, rest := OnWire(p, 1), OnWire(q, 2), [Item(2, q)];
    var log1 := [] + [Entry(1, identity, w1, true)];
    var log2 := log1 + [Entry(1, identity, w2, true)];
    var live := Copies(h, [w2]);
    FirstItemDone(h, p, q, identity);
    assert live[0] == w2 && live[1..] == Copies(h - 1, [w2]);
    Served(h, Two(p, q, rest, [w1], live, [], log1), 1, identity, p, q);
    RunExtend(h, steps, serve, Two(p, q, rest, [w1], live[1..], [2], log2));
    RunExtend(h, steps + [serve], LoseAck(0), Two(p, q, rest, [w1], live[1..], [], log2));
    Served(h, Two(p, q, rest, [w1], live[1..], [], log2), 0, identity, p, q);
    assert [w1][1..] == [];
    RunExtend(h, steps + [serve] + [LoseAck(0)], Serve(0, identity, true),
              Two(p, q, rest, [], live[1..], [], log2 + [Entry(0, identity, w1, true)]));
  }

  lemma {:induction false} TableExtends(log: seq<Entry>, e: Entry)
    requires e.stored
    ensures Table(log + [e]) == Table(log) + [RowFrom(|Table(log)| + 1, e)]
  {
  }

  /** What the query answers in this run, with the repeat and without it. */
  function Answer(h: nat, p: MetricsSnapshot, q: MetricsSnapshot, identity: Identity): Option<MetricRow> {
    Latest(Table(Run(h, LateSteps(p, q, identity)).log), identity.nodeName)
  }

  ghost function AnswerWithoutRepeat(h: nat, p: MetricsSnapshot, q: MetricsSnapshot, identity: Identity)
    : Option<MetricRow>
  {
    AnswerWithoutRepeats(Run(h, LateSteps(p, q, identity)).log, identity.nodeName)
  }

  lemma LateTable(p: MetricsSnapshot, q: MetricsSnapshot, identity: Identity)
    ensures Table(Late(p, q, identity))
         == [] + [RowFrom(1, Entry(1, identity, OnWire(p, 1), true))]
            + [RowFrom(2, Entry(1, identity, OnWire(q, 2), true))]
            + [RowFrom(3, Entry(0, identity, OnWire(p, 1), true))]
  {
    var e1, e2 := Entry(1, identity, OnWire(p, 1), true), Entry(1, identity, OnWire(q, 2), true);
    assert Table([]) == [];
    TableExtends([], e1);
    TableExtends([] + [e1], e2);
    TableExtends([] + [e1] + [e2], Entry(0, identity, OnWire(p, 1), true));
  }

  lemma TiedAnswers(h: nat, p: MetricsSnapshot, q: MetricsSnapshot, identity: Identity)
    requires h > 0 && p.timestampUtc == q.timestampUtc
    ensures Answer(h, p, q, identity).Some? && Answer(h, p, q, identity).value.clientId == 1
    ensures AnswerWithoutRepeat(h, p, q, identity).Some? && AnswerWithoutRepeat(h, p, q, identity).value.clientId == 2
  {
    var r1 := RowFrom(1, Entry(1, identity, OnWire(p, 1), true));
    var r2 := RowFrom(2, Entry(1, identity, OnWire(q, 2), true));
    var r3 := RowFrom(3, Entry(0, identity, OnWire(p, 1), true));
    LateRun(h, p, q, identity);
    LateTable(p, q, identity);
    OneNode([] + [r1] + [r2] + [r3], identity.nodeName);
    TiedRepeatWins(r1, r2, r3);
  }

  /**
    However often the slot runs, a stale session can put an older snapshot in front of a newer one in
    this run, exactly when the two carry the same timestamp: then the query answers with item 1.
   */
  lemma StaleSessionHidesNewest(h: nat, p: MetricsSnapshot, q: MetricsSnapshot, identity: Identity)
    requires h > 0
    ensures Content(Answer(h, p, q, identity)) == Content(AnswerWithoutRepeat(h, p, q, identity))
       <==> p.timestampUtc != q.timestampUtc
  {
    if p.timestampUtc == q.timestampUtc {
      TiedAnswers(h, p, q, identity);
    } else {
      LateRun(h, p, q, identity);
      DistinctTimesSuffice(h, LateSteps(p, q, identity), identity.nodeName, identity.userId);
    }
  }

  lemma OneNode(rows: seq<MetricRow>, node: string)
    requires forall x | x in rows :: x.nodeName == node
    ensures OfNode(rows, node) == rows
  {
  }

  lemma TiedRepeatWins(r1: MetricRow, r2: MetricRow, r3: MetricRow)
    requires r1.clientId == r3.clientId != r2.clientId && r1.id < r2.id < r3.id
    requires r1.nodeName == r2.nodeName == r3.nodeName
    requires r1.timestampUtc == r2.timestampUtc == r3.timestampUtc
    ensures Latest([] + [r1] + [r2] + [r3], r1.nodeName) == Some(r3)
    ensures Latest(FirstRows([] + [r1] + [r2] + [r3]), r1.nodeName) == Some(r2)
  {
    var two := [] + [r1] + [r2];
    assert two == [r1, r2] && two + [r3] == [r1, r2, r3];
    LexIrreflexive(r1.timestampUtc);
    InsertedIsLatest([] + [r1], r2);
    InsertedIsLatest(two, r3);
    FirstRowsExtend([], r1);
    FirstRowsExtend([] + [r1], r2);
    FirstRowsExtend(two, r3);
    assert r1 in two;
  }
}
