/** The server's database: users, metric rows, the latest-snapshot query and the purge. */
module Repository {
  import opened Models
  import opened Text
  import opened Timestamps
  import opened ProcessList

  datatype UserRow = UserRow(id: int, username: string, password: string, role: Role, nodeName: string)

  datatype MetricRow = MetricRow(
    id: int,
    userId: int,
    nodeName: string,
    clientId: int,
    timestampUtc: string,
    readings: Readings,
    processesJson: string)

  /** Both tables with their AUTOINCREMENT counters. */
  datatype Tables = Tables(
    users: seq<UserRow>,
    metrics: seq<MetricRow>,
    lastUserId: nat,
    lastMetricId: nat)

  // ---- Users ----

  predicate UserExists(t: Tables, username: string) { exists u | u in t.users :: u.username == username }

  /** INSERT OR IGNORE INTO users */
  function AddUser(t: Tables, username: string, password: string, role: Role, nodeName: string): Tables {
    if UserExists(t, username) then t
    else t.(users := t.users + [UserRow(t.lastUserId + 1, username, password, role, nodeName)],
            lastUserId := t.lastUserId + 1)
  }

  const ADMIN := "admin"

  /** What opening the database does, on a fresh file as on an existing one. */
  function InitUsers(t: Tables): Tables { AddUser(t, ADMIN, "admin", Admin, "admin-node") }

  const FRESH := InitUsers(Tables([], [], 0, 0))

  function NodeNameOf(username: string): string { username + "-node" }

  function InfoOf(u: UserRow): UserInfo { UserInfo(u.id, u.username, u.nodeName, u.role) }

  /** SELECT ... FROM users WHERE username = ? AND password = ? */
  function Authenticate(users: seq<UserRow>, username: string, password: string): (r: Option<UserInfo>)
    ensures r.Some? <==> exists u | u in users :: u.username == username && u.password == password
    ensures r.Some? ==>
              exists u | u in users :: u.username == username && u.password == password && r.value == InfoOf(u)
  {
    if users == [] then None
    else if users[0].username == username && users[0].password == password then Some(InfoOf(users[0]))
    else Authenticate(users[1..], username, password)
  }

  datatype Registration = Registration(tables: Tables, user: Option<UserInfo>)

  function Register(t: Tables, username: string, password: string): Registration {
    if UserExists(t, username) then Registration(t, None)
    else
      var t' := AddUser(t, username, password, User, NodeNameOf(username));
      Registration(t', Some(UserInfo(t'.lastUserId, username, NodeNameOf(username), User)))
  }

  /** Registration succeeds exactly if the name is free, and then adds one row of the User role. */
  lemma RegisterSucceedsIff(t: Tables, username: string, password: string)
    ensures var r := Register(t, username, password);
            && (r.user.Some? <==> forall u | u in t.users :: u.username != username)
            && (r.user.None? ==> r.tables == t)
            && (r.user.Some? ==>
                  var row := UserRow(t.lastUserId + 1, username, password, User, username + "-node");
                  && r.tables == Tables(t.users + [row], t.metrics, t.lastUserId + 1, t.lastMetricId)
                  && r.user == Some(UserInfo(row.id, username, row.nodeName, User)))
  {
  }

  // ---- Metric rows ----

  function RowOf(id: int, s: MetricsSnapshot): MetricRow {
    MetricRow(id, s.userId, s.nodeName, s.localId, s.timestampUtc, s.readings, ProcessesText(s.processes))
  }

  function Insert(t: Tables, s: MetricsSnapshot): Tables {
    t.(metrics := t.metrics + [RowOf(t.lastMetricId + 1, s)], lastMetricId := t.lastMetricId + 1)
  }

  predicate IdsIncreasing(rows: seq<MetricRow>) {
    forall i, j | 0 <= i < j < |rows| :: rows[i].id < rows[j].id
  }

  /** `a` comes before `b` in ORDER BY timestamp_utc DESC, id DESC. */
  predicate Outranks(a: MetricRow, b: MetricRow) {
    LexLess(b.timestampUtc, a.timestampUtc) || (a.timestampUtc == b.timestampUtc && b.id < a.id)
  }

  function Latest(rows: seq<MetricRow>, node: string): Option<MetricRow> {
    if rows == [] then None
    else
      var best, row := Latest(rows[..|rows| - 1], node), rows[|rows| - 1];
      if row.nodeName == node && (best.None? || Outranks(row, best.value)) then Some(row) else best
  }

  predicate IsLatest(rows: seq<MetricRow>, node: string, r: MetricRow) {
    r in rows && r.nodeName == node && forall x | x in rows && x.nodeName == node :: !Outranks(x, r)
  }

  lemma NotOutrankedTransitive(a: MetricRow, b: MetricRow, c: MetricRow)
    requires !Outranks(a, b) && !Outranks(b, c)
    ensures !Outranks(a, c)
  {
    LexTrichotomy(a.timestampUtc, b.timestampUtc);
    LexTrichotomy(b.timestampUtc, c.timestampUtc);
    LexIrreflexive(a.timestampUtc);
    if LexLess(a.timestampUtc, b.timestampUtc) {
      if LexLess(b.timestampUtc, c.timestampUtc) {
        LexTransitive(a.timestampUtc, b.timestampUtc, c.timestampUtc);
      }
      LexAsymmetric(a.timestampUtc, c.timestampUtc);
    } else if LexLess(b.timestampUtc, c.timestampUtc) {
      LexAsymmetric(a.timestampUtc, c.timestampUtc);
    }
  }

  lemma OutranksAsymmetric(a: MetricRow, b: MetricRow)
    ensures !(Outranks(a, b) && Outranks(b, a))
  {
    LexIrreflexive(a.timestampUtc);
    if LexLess(a.timestampUtc, b.timestampUtc) {
      LexAsymmetric(a.timestampUtc, b.timestampUtc);
    }
  }

  /** The query's result is the first row of the node in the query's order, and exists if any row does. */
  lemma {:induction false} LatestIsFirst(rows: seq<MetricRow>, node: string)
    ensures Latest(rows, node).None? <==> forall x | x in rows :: x.nodeName != node
    ensures Latest(rows, node).Some? ==> IsLatest(rows, node, Latest(rows, node).value)
  {
    if rows != [] {
      var before, row := rows[..|rows| - 1], rows[|rows| - 1];
      LatestIsFirst(before, node);
      assert rows == before + [row];
      var best, r := Latest(before, node), Latest(rows, node);
      if r.Some? {
        OutranksAsymmetric(row, row);
        if best.Some? {
          OutranksAsymmetric(row, best.value);
        }
        forall x | x in rows && x.nodeName == node
          ensures !Outranks(x, r.value)
        {
          if x in before && best.Some? {
            assert !Outranks(x, best.value);
            if r == Some(row) {
              NotOutrankedTransitive(x, best.value, row);
            }
          }
        }
      }
    }
  }

  lemma LatestIsUnique(rows: seq<MetricRow>, node: string, r: MetricRow)
    requires IdsIncreasing(rows) && IsLatest(rows, node, r)
    ensures Latest(rows, node) == Some(r)
  {
    LatestIsFirst(rows, node);
    var q := Latest(rows, node).value;
    assert !Outranks(q, r) && !Outranks(r, q);
    LexTrichotomy(q.timestampUtc, r.timestampUtc);
    var i :| 0 <= i < |rows| && rows[i] == q;
    var j :| 0 <= j < |rows| && rows[j] == r;
    assert i == j;
  }

  /** A row just inserted is the latest exactly when no row of its node has a later timestamp. */
  lemma InsertedIsLatest(rows: seq<MetricRow>, row: MetricRow)
    requires IdsIncreasing(rows + [row])
    ensures Latest(rows + [row], row.nodeName) == Some(row)
       <==> forall x | x in rows && x.nodeName == row.nodeName :: !LexLess(row.timestampUtc, x.timestampUtc)
  {
    var all := rows + [row];
    LatestIsFirst(all, row.nodeName);
    assert row in all;
    if forall x | x in rows && x.nodeName == row.nodeName :: !LexLess(row.timestampUtc, x.timestampUtc) {
      forall x | x in all && x.nodeName == row.nodeName
        ensures !Outranks(x, row)
      {
        LexIrreflexive(row.timestampUtc);
        if x in rows {
          var i :| 0 <= i < |rows| && rows[i] == x;
          assert all[i].id < all[|rows|].id;
        }
      }
      LatestIsUnique(all, row.nodeName, row);
    }
    assert forall x | x in rows :: x in all;
  }

  // ---- Reading a snapshot back ----

  /** NoData, a snapshot, or the exception of std::stoi leaving the query. */
  datatype Reading = NoData | Found(snapshot: MetricsSnapshot) | Failed

  function ReadRow(row: MetricRow, node: string): Reading {
    match ScanFrom(row.processesJson, 0)
    case OutOfRange => Failed
    case Scanned(processes) =>
      Found(MetricsSnapshot(row.clientId, row.userId, node, row.timestampUtc, row.readings, processes))
  }

  function LatestSnapshot(t: Tables, node: string): Reading {
    match Latest(t.metrics, node)
    case None => NoData
    case Some(row) => ReadRow(row, node)
  }

  /** Every row was written by `Insert`. */
  ghost predicate Written(t: Tables) {
    && IdsIncreasing(t.metrics)
    && (forall x | x in t.metrics :: x.id <= t.lastMetricId)
    && (forall x | x in t.metrics :: exists s: MetricsSnapshot :: x == RowOf(x.id, s))
  }

  lemma ReadWritten(id: int, s: MetricsSnapshot)
    ensures ReadRow(RowOf(id, s), s.nodeName) == Found(s.(processes := Survivors(s.processes)))
  {
    ScanOfPrint(s.processes);
  }

  /** On rows this server wrote, the query never throws, and answers with one of them. */
  lemma LatestNeverFails(t: Tables, node: string)
    requires Written(t)
    ensures LatestSnapshot(t, node) != Failed
    ensures LatestSnapshot(t, node).Found? ==>
            exists id, s: MetricsSnapshot :: RowOf(id, s) in t.metrics && s.nodeName == node
              && LatestSnapshot(t, node).snapshot == s.(processes := Survivors(s.processes))
  {
    LatestIsFirst(t.metrics, node);
    if Latest(t.metrics, node).Some? {
      var row := Latest(t.metrics, node).value;
      var s: MetricsSnapshot :| row == RowOf(row.id, s);
      ReadWritten(row.id, s);
      assert RowOf(row.id, s) in t.metrics;
    }
  }

  lemma InsertKeepsWritten(t: Tables, s: MetricsSnapshot)
    requires Written(t)
    ensures Written(Insert(t, s))
  {
  }

  // ---- Purging ----

  const SEVEN_DAYS: nat := 604800

  /** `datetime` is SQLite's function of that name; it is known on the timestamps the programs write. */
  ghost predicate IsDatetime(datetime: string -> Option<string>) {
    forall t: nat | t < END_OF_YEAR_9999 :: datetime(Iso8601(t)) == Some(SqliteDateTime(t))
  }

  /** The WHERE clause of the purge is not true of `row`. A NULL comparison is not true. */
  predicate Kept(row: MetricRow, datetime: string -> Option<string>, cutoff: string) {
    match datetime(row.timestampUtc)
    case None => true
    case Some(text) => !LexLess(text, cutoff)
  }

  function Purge(rows: seq<MetricRow>, datetime: string -> Option<string>, cutoff: string): (r: seq<MetricRow>)
    ensures forall x :: x in r <==> x in rows && Kept(x, datetime, cutoff)
  {
    if rows == [] then []
    else
      var rest := Purge(rows[..|rows| - 1], datetime, cutoff);
      var row := rows[|rows| - 1];
      assert rows == rows[..|rows| - 1] + [row];
      if Kept(row, datetime, cutoff) then rest + [row] else rest
  }

  lemma {:induction false} PurgeKeepsOrder(rows: seq<MetricRow>, datetime: string -> Option<string>, cutoff: string)
    requires IdsIncreasing(rows)
    ensures IdsIncreasing(Purge(rows, datetime, cutoff))
  {
    if rows != [] {
      var before, row := rows[..|rows| - 1], rows[|rows| - 1];
      PurgeKeepsOrder(before, datetime, cutoff);
      var rest := Purge(before, datetime, cutoff);
      forall i | 0 <= i < |rest|
        ensures rest[i].id < row.id
      {
        assert rest[i] in before;
        var k :| 0 <= k < |before| && before[k] == rest[i];
        assert rows[k].id < rows[|before|].id;
      }
    }
  }

  ghost predicate WellTimed(row: MetricRow) {
    exists t: nat :: t < END_OF_YEAR_9999 && row.timestampUtc == Iso8601(t)
  }

  /** The purge keeps a row exactly when it is not older than the cutoff. */
  lemma KeptIsRecent(row: MetricRow, t: nat, datetime: string -> Option<string>, cutoff: nat)
    requires IsDatetime(datetime) && cutoff < END_OF_YEAR_9999
    requires t < END_OF_YEAR_9999 && row.timestampUtc == Iso8601(t)
    ensures Kept(row, datetime, SqliteDateTime(cutoff)) <==> cutoff <= t
  {
    TextOrderIsTimeOrder(t, cutoff);
  }

  /** A purge at `now` keeps a row exactly until a week after its timestamp. */
  lemma KeptForAWeek(row: MetricRow, t: nat, now: nat, cutoff: nat, datetime: string -> Option<string>)
    requires IsDatetime(datetime) && now == cutoff + SEVEN_DAYS && cutoff < END_OF_YEAR_9999
    requires t < END_OF_YEAR_9999 && row.timestampUtc == Iso8601(t)
    ensures Kept(row, datetime, SqliteDateTime(cutoff)) <==> now <= t + SEVEN_DAYS
  {
    KeptIsRecent(row, t, datetime, cutoff);
  }

  /** Seven days on, the clock shows the same time, on a date seven days later. */
  lemma AWeekIsSevenDays(t: nat)
    ensures var c, d := GmTime(t), GmTime(t + SEVEN_DAYS);
            && c.hour == d.hour && c.minute == d.minute && c.second == d.second
            && 1 <= c.month <= 12 && 1 <= d.month <= 12 && DayNumber(d) == DayNumber(c) + 7
  {
    DaysLater(t, 7);
  }

  /** A row that is not outranked by another is at least as recent. */
  lemma {:induction false} KeptIsMonotone(x: MetricRow, r: MetricRow, datetime: string -> Option<string>, cutoff: nat)
    requires IsDatetime(datetime) && cutoff < END_OF_YEAR_9999
    requires WellTimed(x) && WellTimed(r) && !Outranks(x, r)
    ensures Kept(x, datetime, SqliteDateTime(cutoff)) ==> Kept(r, datetime, SqliteDateTime(cutoff))
  {
    var tx: nat :| tx < END_OF_YEAR_9999 && x.timestampUtc == Iso8601(tx);
    var tr: nat :| tr < END_OF_YEAR_9999 && r.timestampUtc == Iso8601(tr);
    TextOrderIsTimeOrder(tr, tx);
    KeptIsRecent(x, tx, datetime, cutoff);
    KeptIsRecent(r, tr, datetime, cutoff);
  }

  function IfKept(row: Option<MetricRow>, datetime: string -> Option<string>, cutoff: string): Option<MetricRow> {
    match row
    case None => None
    case Some(r) => if Kept(r, datetime, cutoff) then Some(r) else None
  }

  /** The latest row of the node survives the purge, or no row of the node does. */
  predicate LatestSurvivesFirst(rows: seq<MetricRow>, node: string, datetime: string -> Option<string>,
                                cutoff: string)
  {
    Latest(rows, node).Some? ==>
      Kept(Latest(rows, node).value, datetime, cutoff)
      || forall x | x in rows && x.nodeName == node :: !Kept(x, datetime, cutoff)
  }

  /**
    Purging leaves a node's latest snapshot, or removes all of the node's rows, if and only if it does
    not delete the latest row while keeping another; whatever datetime() and the cutoff are.
   */
  lemma {:induction false} PurgeExposesNothingIff(rows: seq<MetricRow>, node: string,
                                                  datetime: string -> Option<string>, cutoff: string)
    requires IdsIncreasing(rows)
    ensures Latest(Purge(rows, datetime, cutoff), node) == IfKept(Latest(rows, node), datetime, cutoff)
       <==> LatestSurvivesFirst(rows, node, datetime, cutoff)
  {
    var kept := Purge(rows, datetime, cutoff);
    LatestIsFirst(rows, node);
    LatestIsFirst(kept, node);
    PurgeKeepsOrder(rows, datetime, cutoff);
    if Latest(rows, node).Some? && Kept(Latest(rows, node).value, datetime, cutoff) {
      LatestIsUnique(kept, node, Latest(rows, node).value);
    }
  }

  /** With the timestamps the programs write, a purge exposes no older row. */
  lemma {:induction false} PurgeCommutesWithLatest(rows: seq<MetricRow>, node: string,
                                                   datetime: string -> Option<string>, cutoff: nat)
    requires IdsIncreasing(rows) && IsDatetime(datetime) && cutoff < END_OF_YEAR_9999
    requires forall x | x in rows && x.nodeName == node :: WellTimed(x)
    ensures Latest(Purge(rows, datetime, SqliteDateTime(cutoff)), node)
         == IfKept(Latest(rows, node), datetime, SqliteDateTime(cutoff))
  {
    LatestIsFirst(rows, node);
    if Latest(rows, node).Some? {
      var r := Latest(rows, node).value;
      forall x | x in rows && x.nodeName == node
        ensures Kept(x, datetime, SqliteDateTime(cutoff)) ==> Kept(r, datetime, SqliteDateTime(cutoff))
      {
        KeptIsMonotone(x, r, datetime, cutoff);
      }
    }
    PurgeExposesNothingIff(rows, node, datetime, SqliteDateTime(cutoff));
  }

  /**
    With a timestamp SQLite cannot read, purging does expose an older row: the unreadable row
    stays while the later, readable one is removed.
   */
  lemma PurgeExposesUnreadable(a: MetricRow, datetime: string -> Option<string>)
    requires IsDatetime(datetime) && datetime("") == None
    ensures var old_, new_ := a.(id := 1, timestampUtc := ""), a.(id := 2, timestampUtc := Iso8601(0));
            && Latest([old_, new_], a.nodeName) == Some(new_)
            && Latest(Purge([old_, new_], datetime, SqliteDateTime(SEVEN_DAYS)), a.nodeName) == Some(old_)
  {
    var stamp, cutoff := Iso8601(0), SqliteDateTime(SEVEN_DAYS);
    var old_, new_ := a.(id := 1, timestampUtc := ""), a.(id := 2, timestampUtc := stamp);
    KeptIsRecent(new_, 0, datetime, SEVEN_DAYS);
    UnreadableStays(old_, new_, datetime, cutoff);
  }

  lemma UnreadableStays(old_: MetricRow, new_: MetricRow, datetime: string -> Option<string>, cutoff: string)
    requires old_.id < new_.id && old_.nodeName == new_.nodeName && old_.timestampUtc == ""
    requires Kept(old_, datetime, cutoff) && !Kept(new_, datetime, cutoff)
    ensures Latest([old_, new_], new_.nodeName) == Some(new_)
    ensures Latest(Purge([old_, new_], datetime, cutoff), new_.nodeName) == Some(old_)
  {
    var rows := [old_, new_];
    assert rows == [old_] + [new_];
    InsertedIsLatest([old_], new_);
    var kept := Purge(rows, datetime, cutoff);
    assert new_ !in kept && old_ in rows && old_ in kept;
    LexIrreflexive("");
    PurgeKeepsOrder(rows, datetime, cutoff);
    LatestIsUnique(kept, new_.nodeName, old_);
  }

  // ---- The repository object ----

  class MetricRepository {
    var users: seq<UserRow>
    var metrics: seq<MetricRow>
    var userSequence: nat
    var metricSequence: nat
    const datetime: string -> Option<string>

    ghost function Contents(): Tables
      reads this
    {
      Tables(users, metrics, userSequence, metricSequence)
    }

    /** Opening a fresh database. */
    constructor (datetime: string -> Option<string>)
      ensures Contents() == FRESH && Written(Contents())
      ensures this.datetime == datetime
    {
      users, metrics, userSequence, metricSequence := [], [], 0, 0;
      this.datetime := datetime;
      new;
      AddUserRow(ADMIN, "admin", Admin, "admin-node");
    }

    method AddUserRow(username: string, password: string, role: Role, nodeName: string)
      modifies this`users, this`userSequence
      ensures Contents() == AddUser(old(Contents()), username, password, role, nodeName)
    {
      if exists u | u in users :: u.username == username {
        return;
      }
      userSequence := userSequence + 1;
      users := users + [UserRow(userSequence, username, password, role, nodeName)];
    }

    method AuthenticateUser(username: string, password: string) returns (user: Option<UserInfo>)
      ensures user == Authenticate(users, username, password)
    {
      for i := 0 to |users|
        invariant Authenticate(users[i..], username, password) == Authenticate(users, username, password)
      {
        var u := users[i];
        assert users[i..][0] == u && users[i..][1..] == users[i + 1..];
        if u.username == username && u.password == password {
          return Some(UserInfo(u.id, u.username, u.nodeName, u.role));
        }
      }
      user := None;
    }

    method RegisterUser(username: string, password: string) returns (user: Option<UserInfo>)
      modifies this`users, this`userSequence
      ensures Registration(Contents(), user) == Register(old(Contents()), username, password)
    {
      if exists u | u in users :: u.username == username {
        return None;
      }
      var nodeName := username + "-node";
      userSequence := userSequence + 1;
      users := users + [UserRow(userSequence, username, password, User, nodeName)];
      user := Some(UserInfo(userSequence, username, nodeName, User));
    }

    /** `fails` is SQLite reporting an error, which becomes an exception. */
    method InsertSnapshot(snapshot: MetricsSnapshot, fails: bool) returns (stored: bool)
      modifies this`metrics, this`metricSequence
      ensures stored == !fails
      ensures Contents() == if stored then Insert(old(Contents()), snapshot) else old(Contents())
    {
      var processesJson := PrintProcesses(snapshot.processes);
      if fails {
        return false;
      }
      metricSequence := metricSequence + 1;
      metrics := metrics + [MetricRow(metricSequence, snapshot.userId, snapshot.nodeName, snapshot.localId,
                                      snapshot.timestampUtc, snapshot.readings, processesJson)];
      stored := true;
    }

    method GetLatestSnapshotForNode(node: string) returns (reading: Reading)
      ensures reading == LatestSnapshot(Contents(), node)
    {
      var row := Latest(metrics, node);
      if row == None {
        return NoData;
      }
      var scan := ScanProcesses(row.value.processesJson);
      if scan == OutOfRange {
        return Failed;
      }
      reading := Found(MetricsSnapshot(row.value.clientId, row.value.userId, node, row.value.timestampUtc,
                                       row.value.readings, scan.processes));
    }

    method PurgeOldMetrics(now: nat)
      requires SEVEN_DAYS <= now
      modifies this`metrics
      ensures Contents() == old(Contents()).(metrics := Purge(old(metrics), datetime, SqliteDateTime(now - SEVEN_DAYS)))
    {
      metrics := Purge(metrics, datetime, SqliteDateTime(now - SEVEN_DAYS));
    }
  }
}
