/** Commands over whole runs: from the administrator's request to the clients that act on it. */
module CommandRuns {
  import opened Models
  import opened Text
  import opened Protocol
  import opened Lines
  import opened ClientChannels
  import opened ProcessList
  import opened MetricsJson
  import opened NodeLists
  import opened EndToEndProcesses
  import opened ResponseTexts
  import opened EndToEndResponses
  import opened Repository
  import opened Handlers
  import opened LoginAnswers
  import opened NodeNames
  import opened ServerMachine
  import opened ServerEffects
  import opened EndToEndCommands

  /** No string in the request can put a line feed into an answer. */
  ghost predicate NoLineFeed(step: Step) {
    match step
    case SignUp(n, username, password) => NoNewline(username)
    case Metrics(n, snapshot, stored) =>
      NoNewline(snapshot.timestampUtc) && forall p | p in snapshot.processes :: NoNewline(p.name)
    case Query(n, node, show) => forall x: real :: NoNewline(show(x))
    case _ => true
  }

  // ---- Node names ----

  lemma NextUsers(s: Server, step: Step)
    requires UsersOk(s.tables)
    ensures var users := Next(s, step).tables.users;
            || users == s.tables.users
            || (step.SignUp? && |users| == |s.tables.users| + 1 && users[..|s.tables.users|] == s.tables.users
                && users[|s.tables.users|].username == step.username)
  {
  }

  lemma {:induction false} UsersOnOneLine(steps: seq<Step>)
    requires forall step | step in steps :: NoLineFeed(step)
    ensures forall u | u in Run(steps).tables.users :: NoNewline(u.username)
  {
    if steps != [] {
      var before, step := steps[..|steps| - 1], steps[|steps| - 1];
      assert steps == before + [step];
      assert step in steps && NoLineFeed(step);
      UsersOnOneLine(before);
      UsersAlwaysOk(before);
      NextUsers(Run(before), step);
    }
  }

  lemma SessionsOnOneLine(steps: seq<Step>, n: nat)
    requires n < |Run(steps).sessions| && forall step | step in steps :: NoLineFeed(step)
    ensures NoNewline(Run(steps).sessions[n].identity.nodeName)
  {
    IdentitiesAlwaysEarned(steps);
    UsersAlwaysOk(steps);
    UsersOnOneLine(steps);
    var identity := Run(steps).sessions[n].identity;
    if identity != ANONYMOUS {
      var u :| u in Run(steps).tables.users && identity == IdentityOf(u);
      NodeNameEnds(u.username);
    }
  }

  // ---- Snapshots ----

  lemma CutOnOneLine(name: string)
    requires NoNewline(name)
    ensures NoNewline(CutAtQuote(Escape(name)))
  {
    EscapeKeepsLines(name);
  }

  lemma {:induction false} SurvivorsOnOneLine(ps: seq<ProcessInfo>)
    requires forall p | p in ps :: NoNewline(p.name)
    ensures forall p | p in Survivors(ps) :: NoNewline(p.name)
  {
    if ps != [] {
      assert ps[0] in ps;
      CutOnOneLine(ps[0].name);
      SurvivorsOnOneLine(ps[1..]);
    }
  }

  predicate SnapshotOnOneLine(s: MetricsSnapshot) {
    NoNewline(s.nodeName) && NoNewline(s.timestampUtc) && forall p | p in s.processes :: NoNewline(p.name)
  }

  /** Every row holds a snapshot without line feeds. */
  lemma RowOnOneLine(steps: seq<Step>, row: MetricRow) returns (s: MetricsSnapshot)
    requires (forall step | step in steps :: NoLineFeed(step)) && row in Run(steps).tables.metrics
    ensures row == RowOf(row.id, s) && SnapshotOnOneLine(s)
  {
    RowsAlwaysTraced(steps);
    var i: nat :| i < |steps| && Wrote(steps, i, row);
    s := Attributed(Run(steps[..i]).sessions[steps[i].session].identity, steps[i].snapshot);
    assert steps[i] in steps && NoLineFeed(steps[i]);
    SessionsOnOneLine(steps[..i], steps[i].session);
  }

  /** The answer to a query in a run without line feeds is one line. */
  lemma AnswerOnOneLine(steps: seq<Step>, node: string, show: real -> string)
    requires (forall step | step in steps :: NoLineFeed(step)) && forall x: real :: NoNewline(show(x))
    requires LatestSnapshot(Run(steps).tables, node).Found?
    ensures NoNewline(MetricsText(LatestSnapshot(Run(steps).tables, node).snapshot, show))
  {
    var t := Run(steps).tables;
    LatestIsFirst(t.metrics, node);
    var row := Latest(t.metrics, node).value;
    var s := RowOnOneLine(steps, row);
    ReadWritten(row.id, s);
    SurvivorsOnOneLine(s.processes);
    ShownOnOneLine(FromRow(s), show);
    NoNewlineInText(FromRow(s), show);
  }

  lemma ShownOnOneLine(s: MetricsSnapshot, show: real -> string)
    requires SnapshotOnOneLine(s) && forall x: real :: NoNewline(show(x))
    ensures OneLine(s, show)
  {
    HeaderOnOneLine(s, show);
  }

  // ---- Everything a session is sent ----

  /** The message that a step posts, if any. */
  function Posted(s: Server, step: Step): Option<WireMessage> {
    match step
    case Login(n, u, p) => Some(LoginReply(Authenticate(s.tables.users, u, p)))
    case SignUp(n, u, p) => Some(RegisterReply(Register(s.tables, u, p).user))
    case Metrics(n, m, stored) => Some(AckReply(m.localId))
    case Command(n, payload, recipients) => Some(WireMessage(COMMAND, payload))
    case Query(n, node, show) =>
      if LatestSnapshot(s.tables, node).Failed? then None else Some(MetricsReply(LatestSnapshot(s.tables, node), show))
    case ListNodes(n, names) => Some(NodesReply(names))
    case _ => None
  }

  lemma NewFrame(s: Server, step: Step, n: nat, f: Frame)
    requires n < |Next(s, step).sessions| && f in Next(s, step).sessions[n].frames
    ensures (n < |s.sessions| && f in s.sessions[n].frames) || Posted(s, step) == Some(f.message)
  {
  }

  /** A message that is one line and is read as what it is. */
  predicate Upright(m: WireMessage) { Sayable(m) && NoNewline(m.payload) }

  lemma KindsAreWords()
    ensures IsWord(LOGIN_RESP) && IsWord(REGISTER_RESP) && IsWord(ACK) && IsWord(COMMAND)
    ensures IsWord(GET_METRICS_RESP) && IsWord(NODES_LIST_RESP)
  {
  }

  lemma AnswersUpright(user: UserInfo)
    requires NoNewline(user.nodeName)
    ensures Upright(LoginReply(Some(user))) && Upright(RegisterReply(Some(user)))
  {
    KindsAreWords();
    AnswersAreText(user);
    WholeAnswer(LoginReply(Some(user)), user.role == Admin, user.nodeName, user.id);
    WholeAnswer(RegisterReply(Some(user)), false, user.nodeName, user.id);
  }

  lemma RefusalsUpright()
    ensures Upright(LoginReply(None)) && Upright(RegisterReply(None))
  {
    KindsAreWords();
    assert NoNewline("{\"status\":\"fail\",\"message\":\"") && NoNewline(TAKEN) && NoNewline("\"}");
  }

  lemma PostedUpright(steps: seq<Step>, step: Step)
    requires (forall x | x in steps :: NoLineFeed(x)) && NoLineFeed(step)
    requires Posted(Run(steps), step).Some?
    ensures Upright(Posted(Run(steps), step).value)
  {
    match step
    case Login(n, u, p) => LoginUpright(steps, u, p);
    case SignUp(n, u, p) => SignUpUpright(Run(steps).tables, u, p);
    case Metrics(n, m, stored) => AckIsFramable(m.localId);
    case Query(n, node, show) => QueryUpright(steps, node, show);
    case ListNodes(n, names) => NodesUpright(names);
    case _ => KindsAreWords();
  }

  lemma NodesUpright(names: seq<string>)
    ensures Upright(NodesReply(names))
  {
    KindsAreWords();
    NodesOnOneLine(names);
  }

  lemma LoginUpright(steps: seq<Step>, username: string, password: string)
    requires forall x | x in steps :: NoLineFeed(x)
    ensures Upright(LoginReply(Authenticate(Run(steps).tables.users, username, password)))
  {
    var user := Authenticate(Run(steps).tables.users, username, password);
    RefusalsUpright();
    if user.Some? {
      LoginNamesOnOneLine(steps, username, password);
      AnswersUpright(user.value);
    }
  }

  lemma SignUpUpright(t: Tables, username: string, password: string)
    requires NoNewline(username)
    ensures Upright(RegisterReply(Register(t, username, password).user))
  {
    var user := Register(t, username, password).user;
    RefusalsUpright();
    if user.Some? {
      NodeNameEnds(username);
      AnswersUpright(user.value);
    }
  }

  lemma QueryUpright(steps: seq<Step>, node: string, show: real -> string)
    requires (forall x | x in steps :: NoLineFeed(x)) && forall x: real :: NoNewline(show(x))
    requires !LatestSnapshot(Run(steps).tables, node).Failed?
    ensures Upright(MetricsReply(LatestSnapshot(Run(steps).tables, node), show))
  {
    KindsAreWords();
    if LatestSnapshot(Run(steps).tables, node).Found? {
      AnswerOnOneLine(steps, node, show);
    } else {
      NoDataUpright(show);
    }
  }

  lemma NoDataUpright(show: real -> string)
    ensures Upright(MetricsReply(NoData, show))
  {
    KindsAreWords();
    assert NoNewline("{\"error\":\"no data\"}");
  }

  lemma LoginNamesOnOneLine(steps: seq<Step>, username: string, password: string)
    requires forall x | x in steps :: NoLineFeed(x)
    requires Authenticate(Run(steps).tables.users, username, password).Some?
    ensures NoNewline(Authenticate(Run(steps).tables.users, username, password).value.nodeName)
  {
    UsersAlwaysOk(steps);
    UsersOnOneLine(steps);
    NodeNameEnds(username);
  }

  lemma {:induction false} FramesUpright(steps: seq<Step>, n: nat, f: Frame)
    requires forall step | step in steps :: NoLineFeed(step)
    requires n < |Run(steps).sessions| && f in Run(steps).sessions[n].frames
    ensures Upright(f.message)
  {
    if steps != [] {
      var before, step := steps[..|steps| - 1], steps[|steps| - 1];
      assert steps == before + [step];
      NewFrame(Run(before), step, n, f);
      if n < |Run(before).sessions| && f in Run(before).sessions[n].frames {
        FramesUpright(before, n, f);
      } else {
        PostedUpright(before, step);
      }
    }
  }

  // ---- The clients ----

  function MessagesOf(frames: seq<Frame>): seq<WireMessage> {
    seq(|frames|, i requires 0 <= i < |frames| => frames[i].message)
  }

  /**
    In every run whose requests carry no line feeds in names, timestamps and numbers: whatever command
    a client acts on, having received any part of what its session wrote, was broadcast by a step of
    the administrator.
   */
  lemma {:induction false} CommandsComeFromAdmin(steps: seq<Step>, n: nat, events: seq<WriteQueue.Event>,
                                                 chunks: seq<string>, c: string) returns (f: Frame)
    requires n < |Run(steps).sessions| && forall step | step in steps :: NoLineFeed(step)
    requires WriteQueue.Sent(events) == MessagesOf(Run(steps).sessions[n].frames)
    requires Concat(chunks) <= WriteQueue.Wire(WriteQueue.Run(events)) && CommandReceived(c) in Feed("", chunks)
    ensures f in Run(steps).sessions[n].frames && f.message == WireMessage(COMMAND, c) && Authorised(steps, n, f)
  {
    var frames := Run(steps).sessions[n].frames;
    forall m | m in MessagesOf(frames)
      ensures Sayable(m) && !HidesCommand(m)
    {
      var i :| 0 <= i < |frames| && m == frames[i].message;
      FramesUpright(steps, n, frames[i]);
      OneLineHidesNothing(m);
    }
    ReceivedWasSent(events, chunks, c);
    var i :| 0 <= i < |frames| && frames[i].message == WireMessage(COMMAND, c);
    f := frames[i];
    CommandsAlwaysAuthorised(steps, n, f);
  }

  lemma {:induction false} DeliveredCommand(ms: seq<WireMessage>, c: string)
    requires WireMessage(COMMAND, c) in ms && NoNewline(c) && EndsClean(c)
    ensures c in Commands(Delivered(ms))
  {
    var m := WireMessage(COMMAND, c);
    CommandsAppend(Messages(Encode(ms[0])), Delivered(ms[1..]));
    if ms[0] == m {
      KindsAreWords();
      FrameCommands(m);
      assert Commands([m])[0] == c;
    } else {
      assert ms == [ms[0]] + ms[1..];
      DeliveredCommand(ms[1..], c);
    }
  }

  /**
    And every command of the administrator reaches each session it was broadcast to: once that session
    has written all it was sent and the bytes have arrived, in any chunks, its client acts on it.
   */
  lemma {:induction false} CommandArrives(steps: seq<Step>, i: nat, r: nat, events: seq<WriteQueue.Event>,
                                          chunks: seq<string>)
    requires i < |steps| && steps[i].Command? && AdminActs(Run(steps[..i]), steps[i].session)
    requires r < |Run(steps[..i]).sessions| && r in steps[i].recipients && r < |Run(steps).sessions|
    requires WriteQueue.Sent(events) == MessagesOf(Run(steps).sessions[r].frames)
    requires var w := WriteQueue.Run(events);
             w.posted == [] && w.outgoing == [] && Concat(chunks) == WriteQueue.Wire(w)
    ensures CommandReceived(steps[i].payload) in Feed("", chunks)
  {
    var sent, c := WriteQueue.Sent(events), steps[i].payload;
    CommandIsPosted(steps, i, r);
    var k :| 0 <= k < |Run(steps).sessions[r].frames|
             && Run(steps).sessions[r].frames[k] == Frame(WireMessage(COMMAND, c), steps[i].session);
    assert sent[k] == WireMessage(COMMAND, c);
    DeliveredCommand(sent, c);
    WriteQueue.AlwaysConsistent(events);
    WriteQueue.WireIsPrefix(WriteQueue.Run(events), sent);
    FramesApart(sent);
    ChunkingInvariance("", chunks);
    assert "" + Concat(chunks) == Concat(chunks);
    CommandIsReceived(Delivered(sent), c);
  }

  // ---- A user name with line feeds ----

  function Lined(x: string, c: string, y: string): string { x + ("\n" + ((COMMAND + " " + c) + ("\n" + y))) }

  lemma SecondLine(head: string, x: string, c: string, end: string)
    requires NoNewline(head + x) && NoNewline(c) && EndsClean(c)
    ensures c in Commands(Messages(LaterLines(head + (Lined(x, c, "") + end))))
  {
    var m := WireMessage(COMMAND, c);
    var line := head + x;
    var later := (COMMAND + " " + c) + ("\n" + end);
    assert head + (Lined(x, c, "") + end) == line + "\n" + later;
    FirstNewline(line, later);
    assert (line + "\n" + later)[|line| + 1..] == later;
    assert later + "\n" == Encode(m) + (end + "\n");
    KindsAreWords();
    FrameFirst(m, end + "\n");
  }

  lemma LinedEnd(x: string, c: string, y: string, end: string)
    ensures Lined(x, c, y) + end == Lined(x, c, "") + (y + end)
  {
    assert "\n" + y + end == "\n" + "" + (y + end);
  }

  lemma AnswerHidesCommand(user: UserInfo, x: string, c: string)
    requires NoNewline(x) && NoNewline(c) && EndsClean(c) && Lined(x, c, "") <= user.nodeName
    ensures c in Commands(Messages(LaterLines(RegisterReply(Some(user)).payload)))
  {
    var role, y := RoleText(false), user.nodeName[|Lined(x, c, "")|..];
    AnswersAreText(user);
    AnswerParts(role, user.nodeName, user.id);
    NoLineEndsAround(false, user.id);
    assert user.nodeName == Lined(x, c, "") + y;
    Associative(Lined(x, c, ""), y, IdEnding(user.id));
    PartsOnOneLine(AnswerHead(role), x);
    SecondLine(AnswerHead(role), x, c, y + IdEnding(user.id));
  }

  /** A node name with such lines makes a command of every answer about the node. */
  lemma QueryHidesCommand(s: MetricsSnapshot, show: real -> string, x: string, c: string)
    requires NoNewline(x) && NoNewline(c) && EndsClean(c) && Lined(x, c, "") <= s.nodeName
    ensures c in Commands(Messages(LaterLines(Answer(s, show).payload)))
  {
    var y := s.nodeName[|Lined(x, c, "")|..];
    NodeFirst(FromRow(s), show);
    assert s.nodeName == Lined(x, c, "") + y;
    Associative(Lined(x, c, ""), y, AfterNode(FromRow(s), show));
    TimeHeadIsKept("");
    PartsOnOneLine(NodeHead(), x);
    SecondLine(NodeHead(), x, c, y + AfterNode(FromRow(s), show));
  }

  /** Without that condition it is not so: in this run nobody is the administrator, and a client gets a command. */
  lemma CommandInName(x: string, c: string, y: string, password: string)
    requires NoNewline(x) && NoNewline(c) && EndsClean(c)
    ensures Run([Accept] + [SignUp(0, Lined(x, c, y), password)]).sessions != []
    ensures var sent := MessagesOf(Run([Accept] + [SignUp(0, Lined(x, c, y), password)]).sessions[0].frames);
            && (forall m | m in sent :: m.kind != COMMAND)
            && c in Commands(Messages(Concat(Frames(sent))))
  {
    var name := Lined(x, c, y);
    var user := UserInfo(2, name, NodeNameOf(name), User);
    assert name[|x|] == '\n' && NoNewline(ADMIN);
    NamedSignUp(name, password, user);
    LinedEnd(x, c, y, "-node");
    assert NodeNameOf(name) == Lined(x, c, "") + (y + "-node");
    AnswerHidesCommand(user, x, c);
    KindsAreWords();
    var m := RegisterReply(Some(user));
    FrameCommands(m);
    FramesApart([m]);
    assert Delivered([m]) == Messages(Encode(m)) + [] == Messages(Encode(m));
  }

  lemma RunExtends(steps: seq<Step>, step: Step)
    ensures Run(steps + [step]) == Next(Run(steps), step)
  {
  }

  lemma FreshUsers()
    ensures BOOT.tables.lastUserId == 1 && BOOT.tables.users == [UserRow(1, ADMIN, "admin", Admin, "admin-node")]
  {
  }

  lemma FreshRegister(name: string, password: string)
    requires name != ADMIN
    ensures Register(BOOT.tables, name, password).user == Some(UserInfo(2, name, NodeNameOf(name), User))
  {
    FreshUsers();
  }

  lemma FirstSignUp(s: Server, name: string, password: string)
    requires s.sessions == [SessionState(ANONYMOUS, [], true)]
    ensures var t := Next(s, SignUp(0, name, password));
            t.sessions != [] && MessagesOf(t.sessions[0].frames)
              == [RegisterReply(Register(s.tables, name, password).user)]
  {
    var reply := RegisterReply(Register(s.tables, name, password).user);
    assert Next(s, SignUp(0, name, password)).sessions[0].frames == [] + [Frame(reply, 0)];
  }

  lemma FirstSession()
    ensures Run([Accept]).sessions == [SessionState(ANONYMOUS, [], true)] && Run([Accept]).tables == BOOT.tables
  {
    assert Run([]) == BOOT && [] + [Accept] == [Accept];
    RunExtends([], Accept);
    assert BOOT.sessions + [SessionState(ANONYMOUS, [], true)] == [SessionState(ANONYMOUS, [], true)];
  }

  lemma NamedSignUp(name: string, password: string, user: UserInfo)
    requires user == UserInfo(2, name, NodeNameOf(name), User) && name != ADMIN
    ensures Run([Accept] + [SignUp(0, name, password)]).sessions != []
    ensures MessagesOf(Run([Accept] + [SignUp(0, name, password)]).sessions[0].frames) == [RegisterReply(Some(user))]
  {
    FirstSession();
    RunExtends([Accept], SignUp(0, name, password));
    FirstSignUp(Run([Accept]), name, password);
    FreshRegister(name, password);
  }
}
