/** What requests bring about on the server, over whole runs: nothing that was asked for is left out. */
module ServerEffects {
  import opened Models
  import opened Text
  import opened Protocol
  import opened ProcessList
  import opened Repository
  import opened Handlers
  import opened ServerMachine

  lemma RunStep(steps: seq<Step>, i: nat)
    requires i < |steps|
    ensures Run(steps[..i + 1]) == Next(Run(steps[..i]), steps[i])
  {
    assert steps[..i + 1][..i] == steps[..i];
  }

  // ---- One request ----

  /** The step by which session `n` handles a request. */
  function StepOf(n: nat, r: Request, fails: bool, recipients: set<nat>, names: seq<string>, show: real -> string): Step
    requires r.Order? ==> NoNewline(r.payload) && EndsClean(r.payload)
  {
    match r
    case LogInAs(c) => Login(n, c.username, c.password)
    case RegisterAs(c) => SignUp(n, c.username, c.password)
    case Store(s) => Metrics(n, s, !fails)
    case Order(payload) => Command(n, payload, recipients)
    case ListAll => ListNodes(n, names)
    case ShowNode(node) => Query(n, node, show)
  }

  predicate IsRequest(step: Step, n: nat) {
    match step
    case Login(k, _, _) => k == n
    case SignUp(k, _, _) => k == n
    case Metrics(k, _, _) => k == n
    case Command(k, _, _) => k == n
    case Query(k, _, _) => k == n
    case ListNodes(k, _) => k == n
    case _ => false
  }

  function Answered(state: SessionState, identity: Identity, reply: Option<WireMessage>, n: nat): SessionState {
    SessionState(identity, state.frames + if reply.Some? then [Frame(reply.value, n)] else [], state.present)
  }

  /** The machine does with a request what a session's handler does, and leaves all other sessions alone. */
  lemma NextIsEffect(s: Server, n: nat, r: Request, fails: bool, names: seq<string>, show: real -> string)
    requires IsPresent(s, n) && !r.Order?
    ensures var e := Effects(s.sessions[n].identity, s.tables, r, fails, names, show);
            Server(e.tables, s.sessions[n := Answered(s.sessions[n], e.identity, e.reply, n)])
            == Next(s, StepOf(n, r, fails, {}, names, show))
  {
    var e := Effects(s.sessions[n].identity, s.tables, r, fails, names, show);
    if e.reply.None? {
      assert s.sessions[n].frames + [] == s.sessions[n].frames;
      assert s.sessions[n := s.sessions[n]] == s.sessions;
    }
  }

  // ---- What stays ----

  lemma NextKeepsFrames(s: Server, step: Step, n: nat)
    requires n < |s.sessions|
    ensures n < |Next(s, step).sessions| && s.sessions[n].frames <= Next(s, step).sessions[n].frames
  {
  }

  /** What was posted to a session is never taken back. */
  lemma {:induction false} FramesStay(steps: seq<Step>, i: nat, n: nat)
    requires i <= |steps| && n < |Run(steps[..i]).sessions|
    ensures n < |Run(steps).sessions| && Run(steps[..i]).sessions[n].frames <= Run(steps).sessions[n].frames
    decreases |steps|
  {
    if i == |steps| {
      assert steps[..i] == steps;
    } else {
      var before := steps[..|steps| - 1];
      assert before[..i] == steps[..i];
      FramesStay(before, i, n);
      NextKeepsFrames(Run(before), steps[|steps| - 1], n);
    }
  }

  /** Every purge among the steps from the `i`-th on spares the row. */
  predicate Spared(steps: seq<Step>, i: nat, row: MetricRow) {
    forall k | i <= k < |steps| && steps[k].PurgeOld? :: Kept(row, steps[k].datetime, steps[k].cutoff)
  }

  lemma SparedStep(before: seq<Step>, step: Step, i: nat, row: MetricRow)
    requires i <= |before|
    ensures Spared(before + [step], i, row)
       <==> Spared(before, i, row) && (step.PurgeOld? ==> Kept(row, step.datetime, step.cutoff))
  {
    var steps := before + [step];
    assert forall k | i <= k < |before| :: steps[k] == before[k];
    assert steps[|before|] == step;
  }

  lemma NextRow(s: Server, step: Step, row: MetricRow)
    requires Written(s.tables) && row.id <= s.tables.lastMetricId
    ensures row.id <= Next(s, step).tables.lastMetricId
    ensures row in Next(s, step).tables.metrics
       <==> row in s.tables.metrics && (step.PurgeOld? ==> Kept(row, step.datetime, step.cutoff))
  {
  }

  lemma {:induction false} RowStays(steps: seq<Step>, i: nat, row: MetricRow)
    requires i <= |steps| && row in Run(steps[..i]).tables.metrics
    ensures row.id <= Run(steps).tables.lastMetricId
    ensures row in Run(steps).tables.metrics <==> Spared(steps, i, row)
    decreases |steps|
  {
    if i == |steps| {
      assert steps[..i] == steps;
      AlwaysWritten(steps);
    } else {
      var before, step := steps[..|steps| - 1], steps[|steps| - 1];
      assert before[..i] == steps[..i] && steps == before + [step];
      RowStays(before, i, row);
      AlwaysWritten(before);
      NextRow(Run(before), step, row);
      SparedStep(before, step, i, row);
    }
  }

  // ---- METRICS ----

  /** The row holds what was sent, under the sender's identity; read back, names cut as the scanner cuts them. */
  predicate Records(row: MetricRow, identity: Identity, m: MetricsSnapshot) {
    && row.userId == identity.userId && row.nodeName == identity.nodeName
    && row.clientId == m.localId && row.timestampUtc == m.timestampUtc && row.readings == m.readings
    && ReadRow(row, row.nodeName)
       == Found(MetricsSnapshot(m.localId, identity.userId, identity.nodeName, m.timestampUtc, m.readings,
                                Survivors(m.processes)))
  }

  /** A METRICS request that SQLite accepts leaves a new row; it is acknowledged in any case. */
  lemma MetricsAreStored(steps: seq<Step>, i: nat) returns (row: MetricRow)
    requires i < |steps| && steps[i].Metrics? && IsPresent(Run(steps[..i]), steps[i].session)
    ensures var s, t, n := Run(steps[..i]), Run(steps[..i + 1]), steps[i].session;
            && n < |t.sessions|
            && t.sessions[n].frames == s.sessions[n].frames + [Frame(AckReply(steps[i].snapshot.localId), n)]
            && (steps[i].stored ==>
                  && t.tables.metrics == s.tables.metrics + [row] && row !in s.tables.metrics
                  && Records(row, s.sessions[n].identity, steps[i].snapshot))
            && (!steps[i].stored ==> t.tables == s.tables)
  {
    var s, n, m := Run(steps[..i]), steps[i].session, steps[i].snapshot;
    var written := Attributed(s.sessions[n].identity, m);
    row := RowOf(s.tables.lastMetricId + 1, written);
    RunStep(steps, i);
    AlwaysWritten(steps[..i]);
    ReadWritten(row.id, written);
  }

  /** And the row is in the table from then on, exactly until a purge that does not keep it. */
  lemma StoredIffSpared(steps: seq<Step>, i: nat) returns (row: MetricRow)
    requires i < |steps| && steps[i].Metrics? && steps[i].stored && IsPresent(Run(steps[..i]), steps[i].session)
    ensures Records(row, Run(steps[..i]).sessions[steps[i].session].identity, steps[i].snapshot)
    ensures row in Run(steps).tables.metrics <==> Spared(steps, i + 1, row)
  {
    row := MetricsAreStored(steps, i);
    RowStays(steps, i + 1, row);
  }

  // ---- Commands ----

  /** The administrator's command is posted once to each recipient and to nobody else, and stays posted. */
  lemma CommandIsPosted(steps: seq<Step>, i: nat, r: nat)
    requires i < |steps| && steps[i].Command? && AdminActs(Run(steps[..i]), steps[i].session)
    requires r < |Run(steps[..i]).sessions|
    ensures var s, t := Run(steps[..i]), Run(steps[..i + 1]);
            var f := Frame(WireMessage(COMMAND, steps[i].payload), steps[i].session);
            && r < |t.sessions|
            && t.sessions[r].frames == s.sessions[r].frames + (if r in steps[i].recipients then [f] else [])
            && r < |Run(steps).sessions|
            && (r in steps[i].recipients ==> f in Run(steps).sessions[r].frames)
  {
    var t := Run(steps[..i + 1]);
    RunStep(steps, i);
    FramesStay(steps, i + 1, r);
    if r in steps[i].recipients {
      var f := t.sessions[r].frames[|t.sessions[r].frames| - 1];
      assert f in Run(steps).sessions[r].frames[..|t.sessions[r].frames|];
    }
  }

  /** Nobody else's command is posted to anybody. */
  lemma OthersCannotCommand(steps: seq<Step>, i: nat)
    requires i < |steps| && steps[i].Command? && !AdminActs(Run(steps[..i]), steps[i].session)
    ensures Run(steps[..i + 1]) == Run(steps[..i])
  {
    var s, n := Run(steps[..i]), steps[i].session;
    RunStep(steps, i);
    if IsPresent(s, n) && s.sessions[n].identity.isAdmin {
      AdminSessionIsAdmin(steps[..i], n);
    }
  }

  // ---- Logging in and registering ----

  /** A login with a user's name and password makes the session act for that user; any other changes nothing. */
  lemma LoginTakesEffect(steps: seq<Step>, i: nat)
    requires i < |steps| && steps[i].Login? && IsPresent(Run(steps[..i]), steps[i].session)
    ensures var s, t, n := Run(steps[..i]), Run(steps[..i + 1]), steps[i].session;
            && t.tables == s.tables && n < |t.sessions|
            && (forall u | u in s.tables.users && u.username == steps[i].username && u.password == steps[i].password ::
                  t.sessions[n] == Answered(s.sessions[n], IdentityOf(u), Some(LoginReply(Some(InfoOf(u)))), n))
            && ((forall u | u in s.tables.users ::
                   u.username != steps[i].username || u.password != steps[i].password) ==>
                  t.sessions[n] == Answered(s.sessions[n], s.sessions[n].identity, Some(LoginReply(None)), n))
  {
    var s, t, n := Run(steps[..i]), Run(steps[..i + 1]), steps[i].session;
    RunStep(steps, i);
    UsersAlwaysOk(steps[..i]);
    forall u | u in s.tables.users && u.username == steps[i].username && u.password == steps[i].password
      ensures t.sessions[n] == Answered(s.sessions[n], IdentityOf(u), Some(LoginReply(Some(InfoOf(u)))), n)
    {
      var info := Authenticate(s.tables.users, steps[i].username, steps[i].password).value;
      var v :| v in s.tables.users && v.username == steps[i].username && info == InfoOf(v);
      UserIsUnique(s.tables, u, v);
    }
  }

  /** A registration under a free name adds the user and logs the session in; any other changes nothing. */
  lemma SignUpTakesEffect(steps: seq<Step>, i: nat)
    requires i < |steps| && steps[i].SignUp? && IsPresent(Run(steps[..i]), steps[i].session)
    ensures var s, t, n := Run(steps[..i]), Run(steps[..i + 1]), steps[i].session;
            var name := steps[i].username;
            var u := UserRow(s.tables.lastUserId + 1, name, steps[i].password, User, name + "-node");
            && n < |t.sessions| && t.tables.metrics == s.tables.metrics
            && ((forall x | x in s.tables.users :: x.username != name) ==>
                  && t.tables.users == s.tables.users + [u]
                  && t.sessions[n] == Answered(s.sessions[n], IdentityOf(u), Some(RegisterReply(Some(InfoOf(u)))), n))
            && ((exists x | x in s.tables.users :: x.username == name) ==>
                  && t.tables == s.tables
                  && t.sessions[n] == Answered(s.sessions[n], s.sessions[n].identity, Some(RegisterReply(None)), n))
  {
    RunStep(steps, i);
    RegisterSucceedsIff(Run(steps[..i]).tables, steps[i].username, steps[i].password);
  }

  /** Whoever registered under a free name can log in from then on, on any session, with that password and no other. */
  lemma RegisteredCanLogIn(steps: seq<Step>, i: nat, j: nat)
    requires i < j < |steps| && steps[i].SignUp? && IsPresent(Run(steps[..i]), steps[i].session)
    requires forall x | x in Run(steps[..i]).tables.users :: x.username != steps[i].username
    requires steps[j].Login? && IsPresent(Run(steps[..j]), steps[j].session) && steps[j].username == steps[i].username
    ensures var s, t, n := Run(steps[..j]), Run(steps[..j + 1]), steps[j].session;
            && n < |t.sessions|
            && t.sessions[n].identity
               == if steps[j].password == steps[i].password
                  then Identity(Run(steps[..i]).tables.lastUserId + 1, steps[i].username + "-node", false)
                  else s.sessions[n].identity
  {
    var before, name := Run(steps[..i]).tables, steps[i].username;
    var u := UserRow(before.lastUserId + 1, name, steps[i].password, User, name + "-node");
    SignUpTakesEffect(steps, i);
    assert u in Run(steps[..i + 1]).tables.users;
    assert steps[..j][..i + 1] == steps[..i + 1];
    UsersPersist(steps[..j], i + 1);
    UsersAlwaysOk(steps[..j]);
    LoginTakesEffect(steps, j);
    forall x | x in Run(steps[..j]).tables.users && x.username == name
      ensures x == u
    {
      UserIsUnique(Run(steps[..j]).tables, x, u);
    }
  }

  /** The built-in account always opens an administrator's session. */
  lemma AdminCanLogIn(steps: seq<Step>, j: nat)
    requires j < |steps| && steps[j].Login? && IsPresent(Run(steps[..j]), steps[j].session)
    requires steps[j].username == "admin" && steps[j].password == "admin"
    ensures AdminActs(Run(steps[..j + 1]), steps[j].session)
  {
    UsersAlwaysOk(steps[..j]);
    LoginTakesEffect(steps, j);
    var t := Run(steps[..j]).tables;
    var u :| u in t.users && u.username == ADMIN && u.password == "admin";
    assert u.role == Admin;
  }

  // ---- Questions ----

  /** An administrator's question is always answered: with the latest snapshot of the node, or that there is none. */
  lemma QueryIsAnswered(steps: seq<Step>, i: nat)
    requires i < |steps| && steps[i].Query? && AdminActs(Run(steps[..i]), steps[i].session)
    ensures var s, t, n := Run(steps[..i]), Run(steps[..i + 1]), steps[i].session;
            var reading := LatestSnapshot(s.tables, steps[i].node);
            && !reading.Failed? && n < |t.sessions|
            && t.sessions[n].frames == s.sessions[n].frames + [Frame(MetricsReply(reading, steps[i].show), n)]
            && (reading.NoData? <==> forall row | row in s.tables.metrics :: row.nodeName != steps[i].node)
  {
    RunStep(steps, i);
    AlwaysWritten(steps[..i]);
    LatestNeverFails(Run(steps[..i]).tables, steps[i].node);
    LatestIsFirst(Run(steps[..i]).tables.metrics, steps[i].node);
  }

  /** So a stored snapshot makes its node known to the administrator, until it is purged. */
  lemma StoredIsFound(steps: seq<Step>, i: nat, j: nat)
    requires i < j < |steps| && steps[i].Metrics? && steps[i].stored && IsPresent(Run(steps[..i]), steps[i].session)
    requires steps[j].Query? && AdminActs(Run(steps[..j]), steps[j].session)
    requires steps[j].node == Run(steps[..i]).sessions[steps[i].session].identity.nodeName
    requires forall k | i < k < j :: !steps[k].PurgeOld?
    ensures LatestSnapshot(Run(steps[..j]).tables, steps[j].node).Found?
    ensures !LexLess(LatestSnapshot(Run(steps[..j]).tables, steps[j].node).snapshot.timestampUtc,
                     steps[i].snapshot.timestampUtc)
  {
    assert steps[..j][..i] == steps[..i];
    var row := StoredIffSpared(steps[..j], i);
    QueryIsAnswered(steps, j);
    assert row in Run(steps[..j]).tables.metrics;
    LatestIsFirst(Run(steps[..j]).tables.metrics, steps[j].node);
  }

  // ---- The life of sessions ----

  /** A connection is always accepted, as the next session, anonymous and with nothing posted to it. */
  lemma AcceptOpens(steps: seq<Step>)
    ensures Run(steps + [Accept])
         == Run(steps).(sessions := Run(steps).sessions + [SessionState(ANONYMOUS, [], true)])
  {
    assert (steps + [Accept])[..|steps|] == steps;
  }

  /** A session that was there is there still, exactly if it was not closed and the server not restarted. */
  lemma {:induction false} PresentIff(steps: seq<Step>, i: nat, n: nat)
    requires i <= |steps| && IsPresent(Run(steps[..i]), n)
    ensures IsPresent(Run(steps), n)
       <==> forall k | i <= k < |steps| :: steps[k] != Close(n) && steps[k] != Restart
    decreases |steps|
  {
    if i == |steps| {
      assert steps[..i] == steps;
    } else {
      var before, step := steps[..|steps| - 1], steps[|steps| - 1];
      assert before[..i] == steps[..i] && steps == before + [step];
      PresentIff(before, i, n);
      FramesStay(before, i, n);
      NextPresent(Run(before), step, n);
    }
  }

  lemma NextPresent(s: Server, step: Step, n: nat)
    requires n < |s.sessions|
    ensures IsPresent(Next(s, step), n) <==> IsPresent(s, n) && step != Close(n) && step != Restart
  {
  }

  lemma NextAbsent(s: Server, step: Step, n: nat)
    requires n < |s.sessions| && !s.sessions[n].present
    ensures n < |Next(s, step).sessions| && !Next(s, step).sessions[n].present
    ensures IsRequest(step, n) ==> Next(s, step) == s
  {
  }

  lemma {:induction false} AbsentStays(steps: seq<Step>, i: nat, n: nat)
    requires i <= |steps| && n < |Run(steps[..i]).sessions| && !Run(steps[..i]).sessions[n].present
    ensures n < |Run(steps).sessions| && !Run(steps).sessions[n].present
    decreases |steps|
  {
    if i == |steps| {
      assert steps[..i] == steps;
    } else {
      var before := steps[..|steps| - 1];
      assert before[..i] == steps[..i];
      AbsentStays(before, i, n);
      NextAbsent(Run(before), steps[|steps| - 1], n);
    }
  }

  /** Once a session is closed, or the server restarted, no request of it does anything any more. */
  lemma ClosedIsSilent(steps: seq<Step>, i: nat, j: nat, n: nat)
    requires i < j < |steps| && n < |Run(steps[..i]).sessions| && (steps[i] == Close(n) || steps[i] == Restart)
    requires IsRequest(steps[j], n)
    ensures Run(steps[..j + 1]) == Run(steps[..j])
  {
    RunStep(steps, i);
    RunStep(steps, j);
    assert steps[..j][..i + 1] == steps[..i + 1];
    AbsentStays(steps[..j], i + 1, n);
    NextAbsent(Run(steps[..j]), steps[j], n);
  }

  /** A restart loses no user and no row. */
  lemma RestartKeepsTables(steps: seq<Step>)
    ensures Run(steps + [Restart]).tables == Run(steps).tables
  {
    UsersAlwaysOk(steps);
    assert (steps + [Restart])[..|steps|] == steps;
  }
}
