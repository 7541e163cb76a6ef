/** Redelivered snapshots and the latest-snapshot query. */
module Redelivery {
  import opened Models
  import opened Text
  import opened Repository
  import opened Handlers
  import opened OutboxProtocol
  import opened OutboxOrder

  /** A row without its row id. */
  function Content(row: Option<MetricRow>): Option<MetricRow> {
    match row
    case None => None
    case Some(r) => Some(r.(id := 0))
  }

  predicate SameContent(a: MetricRow, b: MetricRow) { a.(id := b.id) == b }

  ghost predicate Seen(rows: seq<MetricRow>, clientId: int) { exists x | x in rows :: x.clientId == clientId }

  /** The rows whose client id did not occur earlier. */
  ghost function FirstRows(rows: seq<MetricRow>): (r: seq<MetricRow>)
    ensures forall x | x in r :: x in rows
  {
    if rows == [] then []
    else
      var before, row := rows[..|rows| - 1], rows[|rows| - 1];
      assert rows == before + [row];
      if Seen(before, row.clientId) then FirstRows(before) else FirstRows(before) + [row]
  }

  /** Rows with one client id are copies of one snapshot. */
  predicate Faithful(rows: seq<MetricRow>) {
    forall x, y | x in rows && y in rows && x.clientId == y.clientId :: SameContent(x, y)
  }

  predicate ClientOrder(rows: seq<MetricRow>) {
    forall i, j | 0 <= i < j < |rows| :: rows[i].clientId <= rows[j].clientId
  }

  /** Different snapshots of one node never carry the same timestamp. */
  predicate NoTies(rows: seq<MetricRow>) {
    forall x, y | x in rows && y in rows && x.nodeName == y.nodeName && x.timestampUtc == y.timestampUtc ::
      x.clientId == y.clientId
  }

  // ---- First copies ----

  lemma PrefixIncreasing(rows: seq<MetricRow>, row: MetricRow)
    requires IdsIncreasing(rows + [row])
    ensures IdsIncreasing(rows) && forall x | x in rows :: x.id < row.id
  {
    var all := rows + [row];
    assert forall i | 0 <= i < |rows| :: all[i] == rows[i] && all[i].id < all[|rows|].id;
  }

  lemma {:induction false} FirstRowsIncreasing(rows: seq<MetricRow>)
    requires IdsIncreasing(rows)
    ensures IdsIncreasing(FirstRows(rows))
  {
    if rows != [] {
      var before, row := rows[..|rows| - 1], rows[|rows| - 1];
      assert rows == before + [row];
      PrefixIncreasing(before, row);
      FirstRowsIncreasing(before);
      assert forall i | 0 <= i < |FirstRows(before)| :: FirstRows(before)[i] in before;
    }
  }

  /** An item has no two first rows. */
  lemma {:induction false} FirstRowIsUnique(rows: seq<MetricRow>, f: MetricRow, g: MetricRow)
    requires f in FirstRows(rows) && g in FirstRows(rows) && f.clientId == g.clientId
    ensures f == g
  {
    var before, row := rows[..|rows| - 1], rows[|rows| - 1];
    if f in FirstRows(before) && g in FirstRows(before) {
      FirstRowIsUnique(before, f, g);
    }
  }

  /** Every row has a first row, which is no later. */
  lemma {:induction false} FirstRowOf(rows: seq<MetricRow>, x: MetricRow) returns (f: MetricRow)
    requires IdsIncreasing(rows) && x in rows
    ensures f in FirstRows(rows) && f.clientId == x.clientId && f.id <= x.id
  {
    var before, row := rows[..|rows| - 1], rows[|rows| - 1];
    assert rows == before + [row];
    PrefixIncreasing(before, row);
    if x in before {
      f := FirstRowOf(before, x);
    } else if Seen(before, row.clientId) {
      var y :| y in before && y.clientId == row.clientId;
      f := FirstRowOf(before, y);
    } else {
      f := row;
    }
  }

  lemma FirstRowsExtend(rows: seq<MetricRow>, row: MetricRow)
    ensures FirstRows(rows + [row])
         == if Seen(rows, row.clientId) then FirstRows(rows) else FirstRows(rows) + [row]
  {
    assert (rows + [row])[..|rows|] == rows;
  }

  // ---- When repeats show ----

  /** No other item with the timestamp of `r` has its first row behind the first row of `r`'s item. */
  ghost predicate FirstIsLast(rows: seq<MetricRow>, r: MetricRow) {
    exists f | f in FirstRows(rows) :: f.clientId == r.clientId &&
      forall x | x in FirstRows(rows) && x.nodeName == r.nodeName && x.timestampUtc == r.timestampUtc :: x.id <= f.id
  }

  lemma FirstOfLatest(rows: seq<MetricRow>, node: string, r: MetricRow, f: MetricRow)
    requires IdsIncreasing(rows) && Faithful(rows) && IsLatest(rows, node, r)
    requires f in FirstRows(rows) && f.clientId == r.clientId
    requires forall x | x in FirstRows(rows) && x.nodeName == node && x.timestampUtc == r.timestampUtc :: x.id <= f.id
    ensures Latest(FirstRows(rows), node) == Some(f) && SameContent(f, r)
  {
    FirstRowsIncreasing(rows);
    assert SameContent(f, r);
    LexIrreflexive(r.timestampUtc);
    LatestIsUnique(FirstRows(rows), node, f);
  }

  /**
    The query answers as if nothing had been stored twice if and only if the item it answers with is,
    by its first copy, the last of the node's items with that timestamp.
   */
  lemma {:induction false} RepeatsAreInvisibleIff(rows: seq<MetricRow>, node: string)
    requires IdsIncreasing(rows) && Faithful(rows)
    ensures Content(Latest(rows, node)) == Content(Latest(FirstRows(rows), node))
       <==> (Latest(rows, node).Some? ==> FirstIsLast(rows, Latest(rows, node).value))
  {
    LatestIsFirst(rows, node);
    LatestIsFirst(FirstRows(rows), node);
    if Latest(rows, node).Some? {
      var r := Latest(rows, node).value;
      if FirstIsLast(rows, r) {
        var f :| f in FirstRows(rows) && f.clientId == r.clientId &&
          forall x | x in FirstRows(rows) && x.nodeName == r.nodeName && x.timestampUtc == r.timestampUtc ::
            x.id <= f.id;
        FirstOfLatest(rows, node, r, f);
      }
      if Content(Latest(rows, node)) == Content(Latest(FirstRows(rows), node)) {
        var q := Latest(FirstRows(rows), node).value;
        assert q.clientId == r.clientId && q.timestampUtc == r.timestampUtc;
      }
    }
  }

  /** Ordered client ids, or distinct timestamps, are enough. */
  lemma {:induction false} RepeatsAreInvisible(rows: seq<MetricRow>, node: string)
    requires IdsIncreasing(rows) && Faithful(rows)
    requires ClientOrder(rows) || NoTies(rows)
    ensures Content(Latest(rows, node)) == Content(Latest(FirstRows(rows), node))
  {
    LatestIsFirst(rows, node);
    RepeatsAreInvisibleIff(rows, node);
    if Latest(rows, node).Some? {
      EnoughForFirstIsLast(rows, Latest(rows, node).value);
    }
  }

  lemma EnoughForFirstIsLast(rows: seq<MetricRow>, r: MetricRow)
    requires IdsIncreasing(rows) && (ClientOrder(rows) || NoTies(rows)) && IsLatest(rows, r.nodeName, r)
    ensures FirstIsLast(rows, r)
  {
    var f := FirstRowOf(rows, r);
    forall x | x in FirstRows(rows) && x.nodeName == r.nodeName && x.timestampUtc == r.timestampUtc
      ensures x.id <= f.id
    {
      if f.id < x.id {
        TiedIsSame(rows, r, f, x);
        FirstRowIsUnique(rows, x, f);
      }
    }
  }

  lemma TiedIsSame(rows: seq<MetricRow>, r: MetricRow, f: MetricRow, x: MetricRow)
    requires IdsIncreasing(rows) && (ClientOrder(rows) || NoTies(rows)) && IsLatest(rows, r.nodeName, r)
    requires f in rows && f.clientId == r.clientId && f.id < x.id
    requires x in rows && x.nodeName == r.nodeName && x.timestampUtc == r.timestampUtc
    ensures x.clientId == f.clientId
  {
    assert !Outranks(x, r);
    if ClientOrder(rows) {
      InClientOrder(rows, f, x);
      InClientOrder(rows, x, r);
    }
  }

  lemma InClientOrder(rows: seq<MetricRow>, x: MetricRow, y: MetricRow)
    requires IdsIncreasing(rows) && ClientOrder(rows) && x in rows && y in rows && x.id <= y.id
    ensures x.clientId <= y.clientId
  {
    var i :| 0 <= i < |rows| && rows[i] == x;
    var j :| 0 <= j < |rows| && rows[j] == y;
  }

  // ---- The rows of one node ----

  function OfNode(rows: seq<MetricRow>, node: string): (r: seq<MetricRow>)
    ensures forall x :: x in r <==> x in rows && x.nodeName == node
  {
    if rows == [] then []
    else
      var before, row := rows[..|rows| - 1], rows[|rows| - 1];
      assert rows == before + [row];
      if row.nodeName == node then OfNode(before, node) + [row] else OfNode(before, node)
  }

  lemma OfNodeExtends(rows: seq<MetricRow>, row: MetricRow, node: string)
    ensures OfNode(rows + [row], node)
         == if row.nodeName == node then OfNode(rows, node) + [row] else OfNode(rows, node)
  {
    assert (rows + [row])[..|rows|] == rows;
  }

  lemma IncreasingExtends(rows: seq<MetricRow>, row: MetricRow)
    requires IdsIncreasing(rows) && forall x | x in rows :: x.id < row.id
    ensures IdsIncreasing(rows + [row])
  {
    var all := rows + [row];
    assert forall i | 0 <= i < |rows| :: all[i] == rows[i] && rows[i] in rows;
  }

  lemma {:induction false} OfNodeIncreasing(rows: seq<MetricRow>, node: string)
    requires IdsIncreasing(rows)
    ensures IdsIncreasing(OfNode(rows, node))
  {
    if rows != [] {
      var before, row := rows[..|rows| - 1], rows[|rows| - 1];
      assert rows == before + [row];
      PrefixIncreasing(before, row);
      OfNodeIncreasing(before, node);
      IncreasingExtends(OfNode(before, node), row);
    }
  }

  /** The query sees the rows of its node and no others. */
  lemma {:induction false} LatestOfNode(rows: seq<MetricRow>, node: string)
    ensures Latest(OfNode(rows, node), node) == Latest(rows, node)
  {
    if rows != [] {
      var before, row := rows[..|rows| - 1], rows[|rows| - 1];
      assert rows == before + [row];
      LatestOfNode(before, node);
      OfNodeExtends(before, row, node);
    }
  }

  /** The same rows, perhaps under other row ids. */
  predicate SameRows(a: seq<MetricRow>, b: seq<MetricRow>) {
    |a| == |b| && forall i | 0 <= i < |a| :: SameContent(a[i], b[i])
  }

  /** The query answers with the same content, whatever ids the rows have, as long as they increase. */
  lemma {:induction false} LatestIgnoresIds(a: seq<MetricRow>, b: seq<MetricRow>, node: string)
    requires IdsIncreasing(a) && IdsIncreasing(b) && SameRows(a, b)
    ensures Content(Latest(a, node)) == Content(Latest(b, node))
  {
    if Latest(a, node).Some? {
      LatestIsFirst(a, node);
      var i :| 0 <= i < |a| && a[i] == Latest(a, node).value;
      assert SameContent(a[i], b[i]);
      forall x | x in b && x.nodeName == node
        ensures !Outranks(x, b[i])
      {
        var j :| 0 <= j < |b| && b[j] == x;
        assert SameContent(a[j], b[j]) && a[j] in a;
        assert !Outranks(a[j], a[i]);
      }
      assert b[i] in b;
      LatestIsUnique(b, node, b[i]);
    } else {
      LatestIsFirst(a, node);
      LatestIsFirst(b, node);
      forall x | x in b
        ensures x.nodeName != node
      {
        var j :| 0 <= j < |b| && b[j] == x;
        assert SameContent(a[j], b[j]) && a[j] in a;
      }
    }
  }

  /** So rows of other nodes in between do not matter. */
  lemma LatestAmongOthers(a: seq<MetricRow>, b: seq<MetricRow>, node: string)
    requires IdsIncreasing(a) && IdsIncreasing(b) && SameRows(OfNode(a, node), OfNode(b, node))
    ensures Content(Latest(a, node)) == Content(Latest(b, node))
  {
    OfNodeIncreasing(a, node);
    OfNodeIncreasing(b, node);
    LatestIgnoresIds(OfNode(a, node), OfNode(b, node), node);
    LatestOfNode(a, node);
    LatestOfNode(b, node);
  }

  // ---- The rows of a run ----

  /** The row written for a handled message. */
  function RowFrom(id: int, e: Entry): MetricRow { RowOf(id, Attributed(e.identity, e.snapshot)) }

  /** The metrics table after the handling of `log`. */
  function Table(log: seq<Entry>): seq<MetricRow> {
    if log == [] then []
    else
      var rows, e := Table(log[..|log| - 1]), log[|log| - 1];
      if e.stored then rows + [RowFrom(|rows| + 1, e)] else rows
  }

  /** The server's tables after the inserts for `log`. */
  function Inserts(t: Tables, log: seq<Entry>): Tables {
    if log == [] then t
    else
      var before, e := Inserts(t, log[..|log| - 1]), log[|log| - 1];
      if e.stored then Insert(before, Attributed(e.identity, e.snapshot)) else before
  }

  /** On a fresh database the inserts for a log leave exactly its table behind. */
  lemma {:induction false} TableIsInserted(log: seq<Entry>)
    ensures var t := Inserts(FRESH, log); t.metrics == Table(log) && t.lastMetricId == |Table(log)|
  {
    if log != [] {
      TableIsInserted(log[..|log| - 1]);
    }
  }

  /** Those of its rows that were written by session `n`. */
  function SessionRows(log: seq<Entry>, n: nat): seq<MetricRow> {
    if log == [] then []
    else
      var before, e := log[..|log| - 1], log[|log| - 1];
      if e.stored && e.session == n then SessionRows(before, n) + [RowFrom(|Table(before)| + 1, e)]
      else SessionRows(before, n)
  }

  /** Row `r` was written for some entry of `log`, by session `n`. */
  predicate WrittenBy(r: MetricRow, log: seq<Entry>, n: nat) {
    exists e | e in log :: e.session == n && r == RowFrom(r.id, e)
  }

  lemma {:induction false} SessionRowsSpec(log: seq<Entry>, n: nat)
    ensures IdsIncreasing(SessionRows(log, n))
    ensures forall r | r in SessionRows(log, n) :: r in Table(log) && r.id <= |Table(log)| && WrittenBy(r, log, n)
  {
    if log != [] {
      var before, e := log[..|log| - 1], log[|log| - 1];
      SessionRowsSpec(before, n);
      assert log == before + [e];
      assert e in log;
      forall r | r in SessionRows(log, n)
        ensures r in Table(log) && r.id <= |Table(log)| && WrittenBy(r, log, n)
      {
        if r in SessionRows(before, n) {
          var e' :| e' in before && e'.session == n && r == RowFrom(r.id, e');
          assert e' in log;
        }
      }
    }
  }

  lemma NonDecreasingPrefix(xs: seq<MetricsSnapshot>, x: MetricsSnapshot)
    requires NonDecreasing(Ids(xs + [x]))
    ensures NonDecreasing(Ids(xs)) && forall y | y in xs :: y.localId <= x.localId
  {
    var ids := Ids(xs + [x]);
    assert forall i | 0 <= i < |xs| :: ids[i] == xs[i].localId;
    assert ids[|xs|] == x.localId;
  }

  lemma {:induction false} SessionRowsOrdered(log: seq<Entry>, n: nat)
    requires NonDecreasing(Ids(HandledBy(log, n)))
    ensures ClientOrder(SessionRows(log, n))
    ensures forall r | r in SessionRows(log, n) :: exists x | x in HandledBy(log, n) :: x.localId == r.clientId
  {
    if log != [] {
      var before, e := log[..|log| - 1], log[|log| - 1];
      if e.session == n {
        NonDecreasingPrefix(HandledBy(before, n), e.snapshot);
        assert e.snapshot in HandledBy(log, n);
      } else {
        assert HandledBy(log, n) == HandledBy(before, n);
      }
      SessionRowsOrdered(before, n);
      var rows := SessionRows(before, n);
      forall r | r in SessionRows(log, n)
        ensures exists x | x in HandledBy(log, n) :: x.localId == r.clientId
      {
        if r in rows {
          var x :| x in HandledBy(before, n) && x.localId == r.clientId;
          assert x in HandledBy(log, n);
        }
      }
      if e.stored && e.session == n {
        forall i | 0 <= i < |rows|
          ensures rows[i].clientId <= e.snapshot.localId
        {
          assert rows[i] in rows;
        }
      }
    }
  }

  /** Session `n` was logged in as one identity throughout. */
  predicate FixedIdentity(log: seq<Entry>, n: nat, identity: Identity) {
    forall e | e in log && e.session == n :: e.identity == identity
  }

  predicate DistinctTimes(history: seq<MetricsSnapshot>) {
    forall i, j | 0 <= i < j < |history| :: history[i].timestampUtc != history[j].timestampUtc
  }

  lemma SessionRowsFaithful(s: System, n: nat, identity: Identity)
    requires AllGenuine(s, Delivered(s.log)) && FixedIdentity(s.log, n, identity)
    ensures Faithful(SessionRows(s.log, n))
  {
    SessionRowsSpec(s.log, n);
    forall x, y | x in SessionRows(s.log, n) && y in SessionRows(s.log, n) && x.clientId == y.clientId
      ensures SameContent(x, y)
    {
      var ex :| ex in s.log && ex.session == n && x == RowFrom(x.id, ex);
      var ey :| ey in s.log && ey.session == n && y == RowFrom(y.id, ey);
      EntryIsGenuine(s, ex);
      EntryIsGenuine(s, ey);
    }
  }

  lemma EntryIsGenuine(s: System, e: Entry)
    requires AllGenuine(s, Delivered(s.log)) && e in s.log
    ensures Genuine(s, e.snapshot)
  {
    var i :| 0 <= i < |s.log| && s.log[i] == e;
    assert Delivered(s.log)[i] == e.snapshot;
    assert e.snapshot in Delivered(s.log);
  }

  /**
    In every run, for every session of fixed identity: its rows arrive with non-decreasing client
    ids, and the latest snapshot among them is the one among its first deliveries, ties included.
   */
  lemma RedeliveryIsInvisible(h: nat, steps: seq<Step>, n: nat, identity: Identity, node: string)
    requires n < |Run(h, steps).sessions| && FixedIdentity(Run(h, steps).log, n, identity)
    ensures var rows := SessionRows(Run(h, steps).log, n);
            ClientOrder(rows) && Content(Latest(rows, node)) == Content(Latest(FirstRows(rows), node))
  {
    var s := Run(h, steps);
    Invariant(h, steps);
    TrafficAlwaysOrdered(h, steps);
    var handled := HandledBy(s.log, n);
    assert NonDecreasing(Ids(Traffic(s, n)));
    assert forall i | 0 <= i < |handled| :: Ids(handled)[i] == Ids(Traffic(s, n))[i];
    SessionRowsOrdered(s.log, n);
    SessionRowsSpec(s.log, n);
    SessionRowsFaithful(s, n, identity);
    RepeatsAreInvisible(SessionRows(s.log, n), node);
  }

  predicate Recorded(r: MetricRow, log: seq<Entry>) { exists e | e in log :: r == RowFrom(r.id, e) }

  lemma {:induction false} TableSpec(log: seq<Entry>)
    ensures IdsIncreasing(Table(log))
    ensures forall r | r in Table(log) :: r.id <= |Table(log)| && Recorded(r, log)
  {
    if log != [] {
      var before, e := log[..|log| - 1], log[|log| - 1];
      TableSpec(before);
      assert log == before + [e];
      forall r | r in Table(log)
        ensures Recorded(r, log)
      {
        if r in Table(before) {
        } else {
          assert e in log;
        }
      }
    }
  }

  /** Rows with this node name carry this user id: what a session sends under a name is that user's. */
  predicate NodeIsUser(log: seq<Entry>, node: string, userId: int) {
    forall e | e in log && e.identity.nodeName == node :: e.identity.userId == userId
  }

  /** What the query would find for a node had no item been stored twice. */
  ghost function AnswerWithoutRepeats(log: seq<Entry>, node: string): Option<MetricRow> {
    Latest(FirstRows(OfNode(Table(log), node)), node)
  }

  lemma RowsAgree(s: System, node: string, userId: int, x: MetricRow, y: MetricRow)
    requires AllGenuine(s, Delivered(s.log)) && NodeIsUser(s.log, node, userId)
    requires Recorded(x, s.log) && Recorded(y, s.log) && x.nodeName == node && y.nodeName == node
    ensures x.clientId == y.clientId ==> SameContent(x, y)
    ensures DistinctTimes(s.history) && x.timestampUtc == y.timestampUtc ==> x.clientId == y.clientId
  {
    var ex :| ex in s.log && x == RowFrom(x.id, ex);
    var ey :| ey in s.log && y == RowFrom(y.id, ey);
    EntryIsGenuine(s, ex);
    EntryIsGenuine(s, ey);
  }

  lemma TableFaithful(s: System, node: string, userId: int)
    requires AllGenuine(s, Delivered(s.log)) && NodeIsUser(s.log, node, userId)
    ensures Faithful(OfNode(Table(s.log), node))
  {
    var rows := OfNode(Table(s.log), node);
    forall x, y | x in rows && y in rows && x.clientId == y.clientId
      ensures SameContent(x, y)
    {
      TableSpec(s.log);
      RowsAgree(s, node, userId, x, y);
    }
  }

  lemma {:induction false} TableHasNoTies(s: System, node: string, userId: int)
    requires AllGenuine(s, Delivered(s.log)) && NodeIsUser(s.log, node, userId) && DistinctTimes(s.history)
    ensures NoTies(OfNode(Table(s.log), node))
  {
    var rows := OfNode(Table(s.log), node);
    forall x, y | x in rows && y in rows && x.nodeName == y.nodeName && x.timestampUtc == y.timestampUtc
      ensures x.clientId == y.clientId
    {
      TableSpec(s.log);
      RowsAgree(s, node, userId, x, y);
    }
  }

  /**
    Across all sessions, current and stale, of every run: redelivery is invisible if and only if the
    answering item is, by its first copy, the last of the node's items with that timestamp.
   */
  lemma {:induction false} RedeliveryAcrossSessions(h: nat, steps: seq<Step>, node: string, userId: int)
    requires NodeIsUser(Run(h, steps).log, node, userId)
    ensures var log := Run(h, steps).log;
            var answer := Latest(Table(log), node);
            Content(answer) == Content(AnswerWithoutRepeats(log, node))
            <==> (answer.Some? ==> FirstIsLast(OfNode(Table(log), node), answer.value))
  {
    var s := Run(h, steps);
    Invariant(h, steps);
    TableSpec(s.log);
    TableFaithful(s, node, userId);
    OfNodeIncreasing(Table(s.log), node);
    LatestOfNode(Table(s.log), node);
    RepeatsAreInvisibleIff(OfNode(Table(s.log), node), node);
  }

  /** In particular it is invisible when no two collected snapshots carry the same timestamp. */
  lemma DistinctTimesSuffice(h: nat, steps: seq<Step>, node: string, userId: int)
    requires NodeIsUser(Run(h, steps).log, node, userId) && DistinctTimes(Run(h, steps).history)
    ensures var log := Run(h, steps).log;
            Content(Latest(Table(log), node)) == Content(AnswerWithoutRepeats(log, node))
  {
    var s := Run(h, steps);
    Invariant(h, steps);
    TableSpec(s.log);
    TableFaithful(s, node, userId);
    TableHasNoTies(s, node, userId);
    OfNodeIncreasing(Table(s.log), node);
    LatestOfNode(Table(s.log), node);
    RepeatsAreInvisible(OfNode(Table(s.log), node), node);
  }
}
