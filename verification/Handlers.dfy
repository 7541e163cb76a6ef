/** What a session does with the requests it decodes. */
module Handlers {
  import opened Models
  import opened Text
  import opened ClientChannels
  import opened MetricsJson
  import opened MetricsPayload
  import opened NodeLists
  import opened PropertyTrees
  import opened Repository

  datatype Credentials = Credentials(username: string, password: string)

  /** What a LOGIN or REGISTER request asks with; None if its payload does not parse. */
  function ReadCredentials(payload: string): Option<Credentials> {
    match ReadTree(payload)
    case None => None
    case Some(tree) => Some(Credentials(Data(Child(tree, "username"), ""), Data(Child(tree, "password"), "")))
  }

  /** The node a GET_METRICS request names. */
  function ReadTarget(payload: string): Option<string> {
    match ReadTree(payload)
    case None => None
    case Some(tree) => Some(Data(Child(tree, "nodeName"), ""))
  }

  /** What a message asks the session to do. */
  datatype Request =
    | LogInAs(credentials: Credentials)
    | RegisterAs(credentials: Credentials)
    | Store(snapshot: MetricsSnapshot)
    | Order(payload: string)
    | ListAll
    | ShowNode(node: string)

  /** None for an unknown type, and for a payload on which the handler throws. */
  function ReadRequest(m: WireMessage, now: string): Option<Request> {
    if m.kind == LOGIN then
      (match ReadCredentials(m.payload) case None => None case Some(c) => Some(LogInAs(c)))
    else if m.kind == REGISTER then
      (match ReadCredentials(m.payload) case None => None case Some(c) => Some(RegisterAs(c)))
    else if m.kind == METRICS then
      (match ReadPayload(m.payload, now) case None => None case Some(s) => Some(Store(s)))
    else if m.kind == COMMAND then Some(Order(m.payload))
    else if m.kind == NODES_LIST then Some(ListAll)
    else if m.kind == GET_METRICS then
      (match ReadTarget(m.payload) case None => None case Some(node) => Some(ShowNode(node)))
    else None
  }

  /** A session nobody has logged in on. */
  const ANONYMOUS := Identity(0, "unknown", false)

  function LoginIdentity(user: UserInfo): Identity { Identity(user.id, user.nodeName, user.role == Admin) }

  function AfterLogin(identity: Identity, user: Option<UserInfo>): Identity {
    if user.Some? then LoginIdentity(user.value) else identity
  }

  function LoginReply(user: Option<UserInfo>): WireMessage {
    WireMessage(LOGIN_RESP,
      match user
      case None => "{\"status\":\"fail\"}"
      case Some(u) =>
        "{\"status\":\"ok\",\"role\":\"" + (if u.role == Admin then "admin" else "user")
        + "\",\"nodeName\":\"" + u.nodeName + "\",\"userId\":" + DecimalInt(u.id) + "}")
  }

  function AfterRegister(identity: Identity, user: Option<UserInfo>): Identity {
    if user.Some? then Identity(user.value.id, user.value.nodeName, false) else identity
  }

  const TAKEN := "Username already taken"

  function RegisterReply(user: Option<UserInfo>): WireMessage {
    WireMessage(REGISTER_RESP,
      match user
      case None => "{\"status\":\"fail\",\"message\":\"" + TAKEN + "\"}"
      case Some(u) =>
        "{\"status\":\"ok\",\"role\":\"user\",\"nodeName\":\"" + u.nodeName
        + "\",\"userId\":" + DecimalInt(u.id) + "}")
  }

  /** The snapshot a session stores: identity from the session, the rest from the message. */
  function Attributed(identity: Identity, s: MetricsSnapshot): MetricsSnapshot {
    s.(userId := identity.userId, nodeName := identity.nodeName)
  }

  function AckReply(localId: int): WireMessage { WireMessage(ACK, AckPayload(localId)) }

  function NodesReply(names: seq<string>): WireMessage { WireMessage(NODES_LIST_RESP, NodesText(names)) }

  /** The answer to a metrics request; `show` prints numbers. */
  function MetricsReply(reading: Reading, show: real -> string): WireMessage
    requires !reading.Failed?
  {
    WireMessage(GET_METRICS_RESP,
      match reading
      case NoData => "{\"error\":\"no data\"}"
      case Found(snapshot) => MetricsText(snapshot, show))
  }

  // ---- What a request does to its session ----

  datatype Effect = Effect(identity: Identity, tables: Tables, reply: Option<WireMessage>)

  /** `fails` is the insert throwing, `names` the nodes that are present; a broadcast is not an effect here. */
  function Effects(identity: Identity, t: Tables, r: Request, fails: bool, names: seq<string>,
                   show: real -> string): Effect
  {
    match r
    case LogInAs(c) =>
      var user := Authenticate(t.users, c.username, c.password);
      Effect(AfterLogin(identity, user), t, Some(LoginReply(user)))
    case RegisterAs(c) =>
      var done := Register(t, c.username, c.password);
      Effect(AfterRegister(identity, done.user), done.tables, Some(RegisterReply(done.user)))
    case Store(s) =>
      Effect(identity, if fails then t else Insert(t, Attributed(identity, s)), Some(AckReply(s.localId)))
    case Order(_) => Effect(identity, t, None)
    case ListAll => Effect(identity, t, if identity.isAdmin then Some(NodesReply(names)) else None)
    case ShowNode(node) =>
      var reading := LatestSnapshot(t, node);
      Effect(identity, t,
             if identity.isAdmin && !reading.Failed? then Some(MetricsReply(reading, show)) else None)
  }
}
