/** The requests of a client, as a session reads them. */
module Requests {
  import opened Models
  import opened Text
  import opened Protocol
  import opened Lines
  import opened JsonDecoder
  import opened MetricsJson
  import opened MetricsPayload
  import opened PropertyTrees
  import opened Handlers
  import LineReader
  import EndToEndStream

  // ---- Payloads ----

  lemma RequestKeys()
    ensures Plain("username") && Plain("password") && Plain("nodeName")
  {
  }

  lemma LastText(key: string, text: string)
    requires Plain(key)
    ensures AllMembers(Keyed(key, QtText(text) + "}")) == Some([Member(key, Str(text))])
  {
    ParseQtText(text, "}");
    LastMember(key, QtText(text), Str(text));
  }

  /** The tree of a document whose members are known. */
  lemma TreeOf(s: string, ms: seq<Member>)
    requires s != "" && s[0] == '"' && AllMembers(s) == Some(ms)
    ensures ReadTree("{" + s) == Some(ms)
  {
    ParseObjectText(s);
  }

  lemma CredentialMembers(username: string, password: string)
    ensures ReadTree(CredentialsText(username, password))
         == Some([Member("password", Str(password)), Member("username", Str(username))])
  {
    var last := Keyed("username", QtText(username) + "}");
    RequestKeys();
    LastText("username", username);
    ParseQtText(password, "," + last);
    MemberThen("password", QtText(password), Str(password), last);
    assert [Member("password", Str(password))] + [Member("username", Str(username))]
        == [Member("password", Str(password)), Member("username", Str(username))];
    TreeOf(Keyed("password", QtText(password) + ("," + last)),
           [Member("password", Str(password)), Member("username", Str(username))]);
  }

  /** The user name is read as the user name and the password as the password, whatever is in them. */
  lemma CredentialsAreRead(username: string, password: string)
    ensures ReadCredentials(CredentialsText(username, password)) == Some(Credentials(username, password))
  {
    var ms := [Member("password", Str(password)), Member("username", Str(username))];
    CredentialMembers(username, password);
    ChildIs(ms, 0);
    ChildIs(ms, 1);
  }

  lemma TargetIsRead(node: string)
    ensures ReadTarget(TargetText(node)) == Some(node)
  {
    var ms := [Member("nodeName", Str(node))];
    RequestKeys();
    LastText("nodeName", node);
    TreeOf(Keyed("nodeName", QtText(node) + "}"), ms);
    ChildIs(ms, 0);
  }

  lemma EmptyTree()
    ensures ReadTree("{}") == Some([])
  {
    assert "{}"[1..] == "}" && "}"[1..] == "";
  }

  /** What is missing in a request is read as its default; a missing timestamp as the time of arrival. */
  lemma DefaultsAreRead(now: string)
    ensures ReadCredentials("{}") == Some(Credentials("", "")) && ReadTarget("{}") == Some("")
    ensures ReadPayload("{}", now) == Some(NOTHING_READ.(timestampUtc := now))
  {
    EmptyTree();
    NoChildren(now);
  }

  lemma NoChildren(now: string)
    ensures GetSnapshot([], now) == NOTHING_READ.(timestampUtc := now)
  {
    assert IntegerEnd("") == None;
    assert GetDouble(None) == 0.0 && GetInteger(None, LONG_BOUND) == 0 && !GetBool(None);
    assert GetProcesses([]) == [];
  }

  // ---- Messages ----

  /** The message a client writes for a request. */
  function RequestMessage(r: Request, show: real -> string): WireMessage {
    match r
    case LogInAs(c) => WireMessage(LOGIN, CredentialsText(c.username, c.password))
    case RegisterAs(c) => WireMessage(REGISTER, CredentialsText(c.username, c.password))
    case Store(s) => WireMessage(METRICS, PayloadText(s, show))
    case Order(payload) => WireMessage(COMMAND, payload)
    case ListAll => WireMessage(NODES_LIST, "{}")
    case ShowNode(node) => WireMessage(GET_METRICS, TargetText(node))
  }

  /** A request as it can be sent: numbers that print, and a command of one line. */
  predicate CanSend(r: Request, show: real -> string) {
    match r
    case Store(s) => Prints(s.readings, show) && -LONG_BOUND <= s.localId < LONG_BOUND
    case Order(payload) => NoNewline(payload) && EndsClean(payload)
    case _ => true
  }

  /** The request as it arrives: a snapshot without identity, its readings as printed. */
  function Arrived(r: Request, show: real -> string): Request
    requires CanSend(r, show)
  {
    match r
    case Store(s) => Store(Transmitted(s, show))
    case _ => r
  }

  /** Every request is understood by the session as what the client asked. */
  lemma RequestIsRead(r: Request, show: real -> string, now: string)
    requires CanSend(r, show)
    ensures ReadRequest(RequestMessage(r, show), now) == Some(Arrived(r, show))
  {
    match r
    case LogInAs(c) => CredentialsAreRead(c.username, c.password);
    case RegisterAs(c) => CredentialsAreRead(c.username, c.password);
    case Store(s) => PayloadRoundTrip(s, show, now);
    case ShowNode(node) => TargetIsRead(node);
    case _ =>
  }

  lemma CredentialsOnOneLine(username: string, password: string)
    ensures NoNewline(CredentialsText(username, password)) && EndsClean(CredentialsText(username, password))
  {
    var last := Keyed("username", QtText(username) + "}");
    assert NoNewline("username") && NoNewline("password");
    NoNewlineInQtText(username);
    NoNewlineInQtText(password);
    NoNewlineInKeyed("username", QtText(username) + "}");
    NoNewlineInKeyed("password", QtText(password) + ("," + last));
    var s := CredentialsText(username, password);
    assert s[|s| - 1] == last[|last| - 1] == '}';
  }

  lemma TargetOnOneLine(node: string)
    ensures NoNewline(TargetText(node)) && EndsClean(TargetText(node))
  {
    assert NoNewline("nodeName");
    NoNewlineInQtText(node);
    NoNewlineInKeyed("nodeName", QtText(node) + "}");
    var s := TargetText(node);
    assert s[|s| - 1] == '}';
  }

  lemma RequestKindsAreWords()
    ensures IsWord(LOGIN) && IsWord(REGISTER) && IsWord(METRICS) && IsWord(COMMAND)
    ensures IsWord(NODES_LIST) && IsWord(GET_METRICS)
  {
  }

  lemma RequestIsFramable(r: Request, show: real -> string)
    requires CanSend(r, show)
    ensures Framable(RequestMessage(r, show))
  {
    RequestKindsAreWords();
    match r
    case LogInAs(c) => CredentialsOnOneLine(c.username, c.password);
    case RegisterAs(c) => CredentialsOnOneLine(c.username, c.password);
    case Store(s) => PayloadIsFramable(s, show);
    case ListAll => assert NoNewline("{}");
    case ShowNode(node) => TargetOnOneLine(node);
    case _ =>
  }

  function RequestMessages(rs: seq<Request>, show: real -> string): seq<WireMessage> {
    seq(|rs|, i requires 0 <= i < |rs| => RequestMessage(rs[i], show))
  }

  /**
    From any part of the bytes a client has written for its requests, in any pieces, a session reads
    the first of these requests, in order; and all of them once everything has arrived and is handled.
   */
  lemma RequestsArrive(rs: seq<Request>, show: real -> string, now: string, events: seq<LineReader.Event>)
    requires forall r | r in rs :: CanSend(r, show)
    requires LineReader.Arrived(events) <= Concat(Frames(RequestMessages(rs, show)))
    ensures var handled := LineReader.Run(events).handled;
            |handled| <= |rs| && forall k | 0 <= k < |handled| ::
              rs[k] in rs && ReadRequest(handled[k], now) == Some(Arrived(rs[k], show))
    ensures LineReader.Arrived(events) == Concat(Frames(RequestMessages(rs, show)))
            && !HasNewline(LineReader.Run(events).buffer)
            ==> |LineReader.Run(events).handled| == |rs|
  {
    var ms, handled := RequestMessages(rs, show), LineReader.Run(events).handled;
    forall m | m in ms
      ensures Framable(m)
    {
      var i :| 0 <= i < |rs| && m == RequestMessage(rs[i], show);
      assert rs[i] in rs;
      RequestIsFramable(rs[i], show);
    }
    EndToEndStream.ClientToServer(ms, events);
    forall k | 0 <= k < |handled|
      ensures rs[k] in rs && ReadRequest(handled[k], now) == Some(Arrived(rs[k], show))
    {
      assert handled[k] == ms[k];
      RequestIsRead(rs[k], show, now);
    }
  }
}
