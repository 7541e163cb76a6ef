/** The server over whole runs: who may be behind a stored row or a broadcast command. */
module ServerMachine {
  import opened Models
  import opened Protocol
  import opened Repository
  import opened Handlers

  /** A message posted to a session, with the session whose request caused it. */
  datatype Frame = Frame(message: WireMessage, origin: nat)

  /** `present` ends when the session's last handler has run, or with the server process. */
  datatype SessionState = SessionState(identity: Identity, frames: seq<Frame>, present: bool)

  datatype Server = Server(tables: Tables, sessions: seq<SessionState>)

  const BOOT := Server(Repository.FRESH, [])

  datatype Step =
    | Accept
    | Login(session: nat, username: string, password: string)
    | SignUp(session: nat, username: string, password: string)
    | Metrics(session: nat, snapshot: MetricsSnapshot, stored: bool)
    | Command(session: nat, payload: LineText, recipients: set<nat>)
    | Query(session: nat, node: string, show: real -> string)
    | ListNodes(session: nat, names: seq<string>)
    | Close(session: nat)
    | PurgeOld(datetime: string -> Option<string>, cutoff: string)
    | Restart

  predicate IsPresent(s: Server, n: nat) { n < |s.sessions| && s.sessions[n].present }

  function Post(state: SessionState, message: WireMessage, origin: nat): SessionState {
    state.(frames := state.frames + [Frame(message, origin)])
  }

  /** A broadcast reaches some of the sessions, each once. */
  function Deliver(sessions: seq<SessionState>, recipients: set<nat>, message: WireMessage, origin: nat)
    : seq<SessionState>
  {
    seq(|sessions|, i requires 0 <= i < |sessions| =>
      if i in recipients then Post(sessions[i], message, origin) else sessions[i])
  }

  function Gone(sessions: seq<SessionState>): seq<SessionState> {
    seq(|sessions|, i requires 0 <= i < |sessions| => sessions[i].(present := false))
  }

  /** Requests of sessions that are not present are skipped. */
  function Next(s: Server, step: Step): Server {
    match step
    case Accept => s.(sessions := s.sessions + [SessionState(ANONYMOUS, [], true)])
    case Login(n, u, p) =>
      if !IsPresent(s, n) then s
      else
        var user := Authenticate(s.tables.users, u, p);
        var state := s.sessions[n].(identity := AfterLogin(s.sessions[n].identity, user));
        s.(sessions := s.sessions[n := Post(state, LoginReply(user), n)])
    case SignUp(n, u, p) =>
      if !IsPresent(s, n) then s
      else
        var r := Register(s.tables, u, p);
        var state := s.sessions[n].(identity := AfterRegister(s.sessions[n].identity, r.user));
        Server(r.tables, s.sessions[n := Post(state, RegisterReply(r.user), n)])
    case Metrics(n, m, stored) =>
      if !IsPresent(s, n) then s
      else
        var identity := s.sessions[n].identity;
        Server(if stored then Insert(s.tables, Attributed(identity, m)) else s.tables,
               s.sessions[n := Post(s.sessions[n], AckReply(m.localId), n)])
    case Command(n, payload, recipients) =>
      if !IsPresent(s, n) || !s.sessions[n].identity.isAdmin then s
      else s.(sessions := Deliver(s.sessions, recipients, WireMessage(COMMAND, payload), n))
    case Query(n, node, show) =>
      if !IsPresent(s, n) || !s.sessions[n].identity.isAdmin || LatestSnapshot(s.tables, node).Failed? then s
      else s.(sessions := s.sessions[n := Post(s.sessions[n], MetricsReply(LatestSnapshot(s.tables, node), show), n)])
    case ListNodes(n, names) =>
      if !IsPresent(s, n) || !s.sessions[n].identity.isAdmin then s
      else s.(sessions := s.sessions[n := Post(s.sessions[n], NodesReply(names), n)])
    case Close(n) =>
      if !IsPresent(s, n) then s else s.(sessions := s.sessions[n := s.sessions[n].(present := false)])
    case PurgeOld(datetime, cutoff) =>
      s.(tables := s.tables.(metrics := Purge(s.tables.metrics, datetime, cutoff)))
    case Restart => Server(InitUsers(s.tables), Gone(s.sessions))
  }

  function Run(steps: seq<Step>): Server {
    if steps == [] then BOOT else Next(Run(steps[..|steps| - 1]), steps[|steps| - 1])
  }

  // ---- Users ----

  predicate UsersOk(t: Tables) {
    && (forall i | 0 <= i < |t.users| :: 0 < t.users[i].id <= t.lastUserId)
    && (forall i, j | 0 <= i < j < |t.users| :: t.users[i].id < t.users[j].id)
    && (forall i, j | 0 <= i < j < |t.users| :: t.users[i].username != t.users[j].username)
    && (forall u | u in t.users :: u.nodeName == NodeNameOf(u.username))
    && (forall u | u in t.users :: u.role == Admin <==> u.username == ADMIN)
    && (exists u | u in t.users :: u.username == ADMIN && u.password == "admin")
  }

  lemma AppendKeepsAdmin(t: Tables, u: UserRow)
    requires UsersOk(t)
    ensures exists x | x in t.users + [u] :: x.username == ADMIN && x.password == "admin"
  {
    var admin :| admin in t.users && admin.username == ADMIN && admin.password == "admin";
    assert admin in t.users + [u];
  }

  lemma AppendKeepsOrder(t: Tables, u: UserRow)
    requires UsersOk(t) && u.id == t.lastUserId + 1 && !UserExists(t, u.username)
    ensures var users := t.users + [u];
            && (forall i | 0 <= i < |users| :: 0 < users[i].id <= u.id)
            && (forall i, j | 0 <= i < j < |users| ::
                  users[i].id < users[j].id && users[i].username != users[j].username)
  {
    var users := t.users + [u];
    assert forall i | 0 <= i < |t.users| :: users[i] == t.users[i] && t.users[i] in t.users;
  }

  lemma AppendKeepsOk(t: Tables, u: UserRow)
    requires UsersOk(t) && u.id == t.lastUserId + 1 && !UserExists(t, u.username)
    requires u.nodeName == NodeNameOf(u.username) && (u.role == Admin <==> u.username == ADMIN)
    ensures UsersOk(t.(users := t.users + [u], lastUserId := u.id))
  {
    AppendKeepsAdmin(t, u);
    AppendKeepsOrder(t, u);
  }

  lemma AddUserKeepsOk(t: Tables, username: string, password: string)
    requires UsersOk(t)
    ensures UsersOk(AddUser(t, username, password, User, NodeNameOf(username)))
  {
    if !UserExists(t, username) {
      AppendKeepsOk(t, UserRow(t.lastUserId + 1, username, password, User, NodeNameOf(username)));
    }
  }

  lemma BootUsersOk()
    ensures UsersOk(BOOT.tables)
  {
    assert NodeNameOf(ADMIN) == "admin-node";
  }

  lemma {:induction false} UsersAlwaysOk(steps: seq<Step>)
    ensures UsersOk(Run(steps).tables)
  {
    if steps == [] {
      BootUsersOk();
    } else {
      var s, step := Run(steps[..|steps| - 1]), steps[|steps| - 1];
      UsersAlwaysOk(steps[..|steps| - 1]);
      if Next(s, step).tables.users == s.tables.users && Next(s, step).tables.lastUserId == s.tables.lastUserId {
      } else {
        AddUserKeepsOk(s.tables, step.username, step.password);
      }
    }
  }

  /** Node names identify users, and none of them is the name of an anonymous session. */
  lemma NodeNamesAreUnique(a: string, b: string)
    ensures NodeNameOf(a) == NodeNameOf(b) ==> a == b
    ensures NodeNameOf(a) != "unknown"
  {
    if NodeNameOf(a) == NodeNameOf(b) {
      assert a == NodeNameOf(a)[..|NodeNameOf(a)| - 5];
      assert b == NodeNameOf(b)[..|NodeNameOf(b)| - 5];
    }
    assert NodeNameOf(a)[|NodeNameOf(a)| - 1] == 'e';
    assert "unknown"[6] == 'n';
  }

  // ---- Sessions ----

  function IdentityOf(u: UserRow): Identity { Identity(u.id, u.nodeName, u.role == Admin) }

  /** The run contains a request on session `n` that proves knowledge of the user's password. */
  ghost predicate Authenticated(steps: seq<Step>, n: nat, u: UserRow) {
    Login(n, u.username, u.password) in steps || SignUp(n, u.username, u.password) in steps
  }

  /** `identity` is that of a user who authenticated on session `n`. */
  ghost predicate Earned(steps: seq<Step>, t: Tables, n: nat, identity: Identity) {
    exists u | u in t.users :: identity == IdentityOf(u) && Authenticated(steps, n, u)
  }

  ghost predicate IdentitiesEarned(steps: seq<Step>, s: Server) {
    forall n | 0 <= n < |s.sessions| ::
      s.sessions[n].identity == ANONYMOUS || Earned(steps, s.tables, n, s.sessions[n].identity)
  }

  lemma SignUpEarns(steps: seq<Step>, s: Server, n: nat, username: string, password: string)
    requires UsersOk(s.tables) && Register(s.tables, username, password).user.Some?
    ensures var r := Register(s.tables, username, password);
            Earned(steps + [SignUp(n, username, password)], r.tables, n, AfterRegister(ANONYMOUS, r.user))
  {
    var r := Register(s.tables, username, password);
    var u := UserRow(s.tables.lastUserId + 1, username, password, User, NodeNameOf(username));
    assert u in r.tables.users;
    assert SignUp(n, username, password) in steps + [SignUp(n, username, password)];
  }

  /** What a step leaves of the identities. */
  lemma NextIdentity(s: Server, step: Step, n: nat)
    requires n < |Next(s, step).sessions|
    ensures var identity := Next(s, step).sessions[n].identity;
            || (n == |s.sessions| && identity == ANONYMOUS)
            || (n < |s.sessions| && identity == s.sessions[n].identity)
            || (step.Login? && step.session == n && Authenticate(s.tables.users, step.username, step.password).Some?
                && identity == LoginIdentity(Authenticate(s.tables.users, step.username, step.password).value))
            || (step.SignUp? && step.session == n && Register(s.tables, step.username, step.password).user.Some?
                && identity == AfterRegister(ANONYMOUS, Register(s.tables, step.username, step.password).user)
                && Next(s, step).tables == Register(s.tables, step.username, step.password).tables)
  {
  }

  /** A session is anonymous or carries exactly the identity of a user who authenticated on it. */
  lemma {:induction false} IdentitiesAlwaysEarned(steps: seq<Step>)
    ensures IdentitiesEarned(steps, Run(steps))
  {
    if steps != [] {
      var before, step := steps[..|steps| - 1], steps[|steps| - 1];
      var s, t := Run(before), Run(steps);
      IdentitiesAlwaysEarned(before);
      UsersAlwaysOk(before);
      assert steps == before + [step];
      forall n | 0 <= n < |t.sessions|
        ensures t.sessions[n].identity == ANONYMOUS || Earned(steps, t.tables, n, t.sessions[n].identity)
      {
        NextIdentity(s, step, n);
        if n < |s.sessions| && t.sessions[n].identity == s.sessions[n].identity {
          if t.sessions[n].identity != ANONYMOUS {
          }
        } else if step.Login? && step.session == n {
        } else if step.SignUp? && step.session == n {
          SignUpEarns(before, s, n, step.username, step.password);
        }
      }
    }
  }

  // ---- Commands ----

  lemma UserIsUnique(t: Tables, u: UserRow, v: UserRow)
    requires UsersOk(t) && u in t.users && v in t.users && u.username == v.username
    ensures u == v
  {
  }

  /** Only the password of the built-in account opens an administrator's session. */
  lemma AdminLoginIs(t: Tables, username: string, password: string)
    requires UsersOk(t) && Authenticate(t.users, username, password).Some?
    requires LoginIdentity(Authenticate(t.users, username, password).value).isAdmin
    ensures username == ADMIN && password == "admin"
  {
    var info := Authenticate(t.users, username, password).value;
    var u :| u in t.users && u.username == username && u.password == password && info == InfoOf(u);
    var admin :| admin in t.users && admin.username == ADMIN && admin.password == "admin";
    UserIsUnique(t, u, admin);
  }

  ghost predicate AdminsLoggedIn(steps: seq<Step>, s: Server) {
    forall n | 0 <= n < |s.sessions| && s.sessions[n].identity.isAdmin :: Login(n, ADMIN, "admin") in steps
  }

  lemma {:induction false} AdminsAlwaysLoggedIn(steps: seq<Step>)
    ensures AdminsLoggedIn(steps, Run(steps))
  {
    if steps != [] {
      var before, step := steps[..|steps| - 1], steps[|steps| - 1];
      var s, t := Run(before), Run(steps);
      AdminsAlwaysLoggedIn(before);
      UsersAlwaysOk(before);
      assert steps == before + [step];
      forall n | 0 <= n < |t.sessions| && t.sessions[n].identity.isAdmin
        ensures Login(n, ADMIN, "admin") in steps
      {
        NextIdentity(s, step, n);
        if n == |s.sessions| || t.sessions[n].identity != s.sessions[n].identity {
          AdminLoginIs(s.tables, step.username, step.password);
        }
      }
    }
  }

  /** A session with administrator rights carries the identity of the one Admin-role user. */
  lemma {:induction false} AdminSessionIsAdmin(steps: seq<Step>, n: nat)
    requires n < |Run(steps).sessions| && Run(steps).sessions[n].identity.isAdmin
    ensures exists u | u in Run(steps).tables.users ::
              u.username == ADMIN && u.role == Admin && Run(steps).sessions[n].identity == IdentityOf(u)
    ensures forall u, v | u in Run(steps).tables.users && v in Run(steps).tables.users
              && u.role == Admin && v.role == Admin :: u == v
  {
    var t := Run(steps).tables;
    UsersAlwaysOk(steps);
    IdentitiesAlwaysEarned(steps);
    forall u, v | u in t.users && v in t.users && u.role == Admin && v.role == Admin
      ensures u == v
    {
      UserIsUnique(t, u, v);
    }
  }

  /** Session `n` exists and acts, at this moment, under the identity of the Admin-role user. */
  ghost predicate AdminActs(s: Server, n: nat) {
    && IsPresent(s, n)
    && exists u | u in s.tables.users ::
         u.username == ADMIN && u.role == Admin && s.sessions[n].identity == IdentityOf(u)
  }

  /** Step `i` of the run put the command `f` into the queue of session `n`, on behalf of the administrator. */
  ghost predicate Commanded(steps: seq<Step>, i: nat, n: nat, f: Frame)
    requires i < |steps|
  {
    && steps[i].Command? && steps[i].session == f.origin && steps[i].payload == f.message.payload
    && n in steps[i].recipients
    && AdminActs(Run(steps[..i]), f.origin) && Login(f.origin, ADMIN, "admin") in steps[..i]
  }

  ghost predicate Authorised(steps: seq<Step>, n: nat, f: Frame) {
    exists i: nat :: i < |steps| && Commanded(steps, i, n, f)
  }

  lemma AuthorisedPersists(steps: seq<Step>, step: Step, n: nat, f: Frame)
    requires Authorised(steps, n, f)
    ensures Authorised(steps + [step], n, f)
  {
    var i: nat :| i < |steps| && Commanded(steps, i, n, f);
    assert (steps + [step])[..i] == steps[..i];
    assert Commanded(steps + [step], i, n, f);
  }

  /** What a step can add to a session's frames. */
  lemma NextFrames(s: Server, step: Step, n: nat, f: Frame)
    requires n < |Next(s, step).sessions| && f in Next(s, step).sessions[n].frames && f.message.kind == COMMAND
    ensures || (n < |s.sessions| && f in s.sessions[n].frames)
            || (step.Command? && f.origin == step.session && f.message.payload == step.payload
                && n in step.recipients
                && IsPresent(s, step.session) && s.sessions[step.session].identity.isAdmin)
  {
  }

  /**
    In every run, a COMMAND queued at any session was put there by a step of a session that acted
    under the identity of the Admin-role user when it did so.
   */
  lemma {:induction false} CommandsAlwaysAuthorised(steps: seq<Step>, n: nat, f: Frame)
    requires n < |Run(steps).sessions| && f in Run(steps).sessions[n].frames && f.message.kind == COMMAND
    ensures Authorised(steps, n, f)
  {
    if steps != [] {
      var before, step := steps[..|steps| - 1], steps[|steps| - 1];
      var s := Run(before);
      assert steps == before + [step];
      NextFrames(s, step, n, f);
      if n < |s.sessions| && f in s.sessions[n].frames {
        CommandsAlwaysAuthorised(before, n, f);
        AuthorisedPersists(before, step, n, f);
      } else {
        AdminSessionIsAdmin(before, f.origin);
        AdminsAlwaysLoggedIn(before);
        assert Commanded(steps, |before|, n, f);
      }
    }
  }

  // ---- Stored rows ----

  /** Step `i` of the run wrote `row`, with the identity its session had at that moment. */
  predicate Wrote(steps: seq<Step>, i: nat, row: MetricRow)
    requires i < |steps|
  {
    var s := Run(steps[..i]);
    && steps[i].Metrics? && steps[i].stored && IsPresent(s, steps[i].session)
    && row == RowOf(row.id, Attributed(s.sessions[steps[i].session].identity, steps[i].snapshot))
  }

  ghost predicate Traced(steps: seq<Step>, row: MetricRow) { exists i: nat :: i < |steps| && Wrote(steps, i, row) }

  lemma TracedPersists(steps: seq<Step>, step: Step, row: MetricRow)
    requires Traced(steps, row)
    ensures Traced(steps + [step], row)
  {
    var i: nat :| i < |steps| && Wrote(steps, i, row);
    assert (steps + [step])[..i] == steps[..i];
    assert Wrote(steps + [step], i, row);
  }

  lemma {:induction false} RowsAlwaysTraced(steps: seq<Step>)
    ensures forall row | row in Run(steps).tables.metrics :: Traced(steps, row)
  {
    if steps != [] {
      var before, step := steps[..|steps| - 1], steps[|steps| - 1];
      RowsAlwaysTraced(before);
      assert steps == before + [step];
      forall row | row in Run(steps).tables.metrics
        ensures Traced(steps, row)
      {
        if row in Run(before).tables.metrics {
          TracedPersists(before, step, row);
        } else {
          assert Wrote(steps, |before|, row);
        }
      }
    }
  }

  lemma NextKeepsWritten(s: Server, step: Step)
    requires Written(s.tables)
    ensures Written(Next(s, step).tables)
  {
    match step
    case Metrics(n, m, stored) =>
      if IsPresent(s, n) && stored {
        InsertKeepsWritten(s.tables, Attributed(s.sessions[n].identity, m));
      }
    case PurgeOld(datetime, cutoff) => PurgeKeepsOrder(s.tables.metrics, datetime, cutoff);
    case _ => SameRowsWritten(s.tables, Next(s, step).tables);
  }

  lemma SameRowsWritten(t: Tables, t': Tables)
    requires Written(t) && t'.metrics == t.metrics && t'.lastMetricId == t.lastMetricId
    ensures Written(t')
  {
  }

  lemma {:induction false} AlwaysWritten(steps: seq<Step>)
    ensures Written(Run(steps).tables)
  {
    if steps != [] {
      AlwaysWritten(steps[..|steps| - 1]);
      NextKeepsWritten(Run(steps[..|steps| - 1]), steps[|steps| - 1]);
    }
  }

  /** A row with a user's node name was sent on a session on which that user had authenticated. */
  ghost predicate SentBy(steps: seq<Step>, i: nat, row: MetricRow, u: UserRow)
    requires i < |steps|
  {
    Wrote(steps, i, row) && Authenticated(steps[..i], steps[i].session, u)
  }

  lemma {:induction false} RowAttribution(steps: seq<Step>, row: MetricRow, u: UserRow)
    requires row in Run(steps).tables.metrics && u in Run(steps).tables.users && row.nodeName == u.nodeName
    ensures row.userId == u.id
    ensures exists i: nat :: i < |steps| && SentBy(steps, i, row, u)
  {
    RowsAlwaysTraced(steps);
    var i: nat :| i < |steps| && Wrote(steps, i, row);
    var v := WriterIsUser(steps, i, row, u);
    UsersAlwaysOk(steps);
    UserIsUnique(Run(steps).tables, u, v);
    assert SentBy(steps, i, row, u);
  }

  /** Whoever wrote a row with the node name of `u` has the user name of `u`. */
  lemma WriterIsUser(steps: seq<Step>, i: nat, row: MetricRow, u: UserRow) returns (v: UserRow)
    requires i < |steps| && Wrote(steps, i, row)
    requires u in Run(steps).tables.users && row.nodeName == u.nodeName
    ensures v in Run(steps).tables.users && v.username == u.username && row.userId == v.id
    ensures Authenticated(steps[..i], steps[i].session, v)
  {
    var n, s := steps[i].session, Run(steps[..i]);
    UsersAlwaysOk(steps);
    NodeNamesAreUnique(u.username, u.username);
    IdentitiesAlwaysEarned(steps[..i]);
    v :| v in s.tables.users && s.sessions[n].identity == IdentityOf(v) && Authenticated(steps[..i], n, v);
    UsersPersist(steps, i);
    NodeNamesAreUnique(u.username, v.username);
  }

  lemma {:induction false} UsersPersist(steps: seq<Step>, i: nat)
    requires i <= |steps|
    ensures forall u | u in Run(steps[..i]).tables.users :: u in Run(steps).tables.users
    decreases |steps|
  {
    if i == |steps| {
      assert steps[..i] == steps;
    } else {
      var before := steps[..|steps| - 1];
      UsersPersist(before, i);
      assert before[..i] == steps[..i];
    }
  }

  /** The latest snapshot of a user's node is readable, carries the user's id and came from that user. */
  lemma {:induction false} LatestIsFromUser(steps: seq<Step>, u: UserRow)
    requires u in Run(steps).tables.users
    ensures var reading := LatestSnapshot(Run(steps).tables, u.nodeName);
            && reading != Failed
            && (reading.Found? ==>
                  && reading.snapshot.userId == u.id
                  && exists i: nat, row :: i < |steps| && SentBy(steps, i, row, u)
                       && reading == ReadRow(row, u.nodeName))
  {
    var t := Run(steps).tables;
    AlwaysWritten(steps);
    LatestNeverFails(t, u.nodeName);
    LatestIsFirst(t.metrics, u.nodeName);
    if LatestSnapshot(t, u.nodeName).Found? {
      var row := Latest(t.metrics, u.nodeName).value;
      RowAttribution(steps, row, u);
    }
  }

  /** Every stored row carries the anonymous pair or the exact pair of an existing user. */
  lemma RowIdentity(steps: seq<Step>, row: MetricRow)
    requires row in Run(steps).tables.metrics
    ensures || (row.userId == 0 && row.nodeName == "unknown")
            || exists u | u in Run(steps).tables.users :: row.userId == u.id && row.nodeName == u.nodeName
  {
    RowsAlwaysTraced(steps);
    var i: nat :| i < |steps| && Wrote(steps, i, row);
    var n, s := steps[i].session, Run(steps[..i]);
    IdentitiesAlwaysEarned(steps[..i]);
    UsersPersist(steps, i);
    if s.sessions[n].identity != ANONYMOUS {
      var v :| v in s.tables.users && s.sessions[n].identity == IdentityOf(v) && Authenticated(steps[..i], n, v);
      assert v in Run(steps).tables.users;
    }
  }
}
