/** From the collector of one client to the screen of the administrator. */
module EndToEndSnapshots {
  import opened Models
  import opened Text
  import opened Protocol
  import opened Lines
  import opened JsonDecoder
  import opened ProcessList
  import opened MetricsJson
  import opened EndToEndProcesses
  import opened ResponseTexts
  import opened EndToEndResponses
  import opened Accounts
  import opened Repository
  import opened Handlers
  import opened OutboxProtocol
  import opened OutboxTheorems
  import opened Redelivery
  import opened Draining

  /** The last collected snapshot, as it goes on the wire. */
  function Last(history: seq<MetricsSnapshot>): MetricsSnapshot
    requires history != []
  {
    history[|history| - 1].(localId := |history|)
  }

  predicate LastIsNewest(history: seq<MetricsSnapshot>) {
    history != [] && forall i | 0 <= i < |history| - 1 :: LexLess(history[i].timestampUtc, Last(history).timestampUtc)
  }

  /** The last item was stored each time it was handled, for this node. */
  predicate LastIsStored(s: System, node: string) {
    forall e | e in s.log && e.snapshot.localId == |s.history| :: e.stored && e.identity.nodeName == node
  }

  /** A row with the newest timestamp, or a later one, is the last item's. */
  lemma NewestRowIsLast(s: System, r: MetricRow)
    requires Inv(s) && LastIsNewest(s.history) && r in Table(s.log)
    requires !LexLess(r.timestampUtc, Last(s.history).timestampUtc)
    ensures Holds(r, Last(s.history))
  {
    var e := RowHasEntry(s.log, r);
    EntryIsGenuine(s, e);
    assert e.snapshot.localId - 1 == |s.history| - 1;
  }

  /** When every item has been handled, the latest row of the node is the last item's. */
  lemma LatestIsLast(s: System, node: string)
    requires Inv(s) && LastIsNewest(s.history) && LastIsStored(s, node)
    requires Tried(s, |s.history| - 1, true) || Tried(s, |s.history| - 1, false)
    ensures Latest(Table(s.log), node).Some?
    ensures Holds(Latest(Table(s.log), node).value, Last(s.history))
  {
    var e :| e in s.log && e.snapshot.localId == |s.history|;
    EntryIsGenuine(s, e);
    var row := TableHasEntry(s.log, e);
    LatestIsFirst(Table(s.log), node);
    var r := Latest(Table(s.log), node).value;
    assert !Outranks(row, r);
    NewestRowIsLast(s, r);
  }

  /** Once the live connection is quiet, the query for the node finds the last collected snapshot. */
  lemma DrainedRow(h: nat, steps: seq<Step>, drain: seq<Step>, node: string)
    requires h > 0
    requires Flushing(Run(h, steps)) && IsDrainRun(h, Run(h, steps), drain)
    requires var t := DrainRun(h, Run(h, steps), drain);
             Quiet(t) && LastIsNewest(t.history) && LastIsStored(t, node)
    ensures var t := DrainRun(h, Run(h, steps), drain);
            Latest(Table(t.log), node).Some? && Holds(Latest(Table(t.log), node).value, Last(t.history))
  {
    var s, t := Run(h, steps), DrainRun(h, Run(h, steps), drain);
    Drains(h, steps, drain);
    DrainKeeps(h, steps, drain);
    ErasedWasTried(t, |t.history| - 1);
    LatestIsLast(t, node);
  }

  lemma {:induction false} DrainKeeps(h: nat, steps: seq<Step>, drain: seq<Step>)
    requires Flushing(Run(h, steps)) && IsDrainRun(h, Run(h, steps), drain)
    ensures Inv(DrainRun(h, Run(h, steps), drain))
  {
    Invariant(h, steps);
    OutboxOrder.PipelineAlwaysOrdered(h, steps);
    DrainRunPays(h, Run(h, steps), drain);
  }

  // ---- What the administrator gets ----

  /** The item under the name of the node that was asked for. */
  function Named(item: MetricsSnapshot, userId: int, node: string): MetricsSnapshot {
    item.(userId := userId, nodeName := node)
  }

  lemma ReadHeld(t: Tables, node: string, item: MetricsSnapshot) returns (userId: int)
    requires Latest(t.metrics, node).Some? && Holds(Latest(t.metrics, node).value, item)
    ensures LatestSnapshot(t, node) == Found(Named(item, userId, node).(processes := Survivors(item.processes)))
  {
    var r := Latest(t.metrics, node).value;
    userId := r.userId;
    LatestIsFirst(t.metrics, node);
    ReadWritten(r.id, Named(item, userId, node));
  }

  lemma NoDataPieces()
    ensures "{\"error\":\"no data\"}" == "{" + Keyed("error", QuotedText("no data") + "}")
  {
    var text := "no data";
    QuotedThen(text, "}");
    assert "{\"error\":\"no data\"}" == "{\"error\":" + ("\"" + (text + ("\"" + "}")));
  }

  lemma ErrorObject(text: string)
    requires Plain(text) && Plain("error")
    ensures ParseObject("{" + Keyed("error", QuotedText(text) + "}")) == [Member("error", Str(text))]
  {
    ParsePlainValue(text, "}");
    LastMember("error", QuotedText(text), Str(text));
    ObjectOfMembers(Keyed("error", QuotedText(text) + "}"));
  }

  lemma NoDataIsError(show: real -> string)
    ensures Lookup(ParseObject(MetricsReply(NoData, show).payload), "error").Some?
  {
    NoDataPieces();
    ErrorObject("no data");
    OneMember(Member("error", Str("no data")));
  }

  lemma NoDataIsWhole(reply: WireMessage)
    requires reply == WireMessage(GET_METRICS_RESP, "{\"error\":\"no data\"}")
    ensures Messages(Encode(reply)) == [reply]
  {
    AnswerKind();
    assert NoNewline(reply.payload);
    assert FirstMessage(reply) == reply;
  }

  /** The answer to a request with no data arrives whole and raises no metrics on the client. */
  lemma NoDataIsNoMetrics(a: Account, show: real -> string)
    ensures var reply := MetricsReply(NoData, show); Messages(Encode(reply)) == [reply] && Signals(a, reply) == []
  {
    NoDataIsError(show);
    NoDataIsWhole(MetricsReply(NoData, show));
  }

  /** What the administrator is shown of a snapshot. */
  function Shown(s: MetricsSnapshot, show: real -> string): MetricsSnapshot
    requires Prints(s.readings, show)
  {
    if AllLegible(NonNegative(s.processes)) then SeenAs(s, show) else NOTHING_READ
  }

  /** The one signal that the client raises for the first message of the answer with a stored item. */
  lemma AnswerRaises(a: Account, item: MetricsSnapshot, show: real -> string)
    requires Clear(item.nodeName) && Clear(item.timestampUtc) && Prints(item.readings, show)
    ensures Raised(a, item, show) == [NodeMetricsReceived(Shown(item, show))]
  {
    ResponseIs(item, show);
    ResponseIsNoError(item, show);
  }

  /**
    The whole way: whatever was sent twice, lost and resent, and whatever other clients store, once
    the live connection is quiet the administrator who asks for the node is shown the snapshot
    collected last, as printed; or an empty one if a process name in it is illegible.
   */
  lemma AdministratorSeesLast(h: nat, steps: seq<Step>, drain: seq<Step>, node: string, t: Tables,
                              show: real -> string, a: Account)
    requires h > 0
    requires Flushing(Run(h, steps)) && IsDrainRun(h, Run(h, steps), drain)
    requires var s := DrainRun(h, Run(h, steps), drain);
             && Quiet(s) && LastIsNewest(s.history) && LastIsStored(s, node)
             && IdsIncreasing(t.metrics) && SameRows(OfNode(t.metrics, node), OfNode(Table(s.log), node))
             && Clear(node) && Clear(Last(s.history).timestampUtc) && Prints(Last(s.history).readings, show)
    ensures var s := DrainRun(h, Run(h, steps), drain);
            && LatestSnapshot(t, node).Found? && IsWord(GET_METRICS_RESP)
            && Signals(a, FirstMessage(MetricsReply(LatestSnapshot(t, node), show)))
               == [NodeMetricsReceived(Shown(Last(s.history).(nodeName := node), show))]
  {
    var s := DrainRun(h, Run(h, steps), drain);
    DrainedRow(h, steps, drain, node);
    TableSpec(s.log);
    LatestAmongOthers(t.metrics, Table(s.log), node);
    var userId := ReadHeld(t, node, Last(s.history));
    AnswerKind();
    AnswerRaises(a, Named(Last(s.history), userId, node), show);
  }
}
