/** What the client makes of the server's answers: its account, and the signals it raises. */
module Accounts {
  import opened Models
  import opened JsonDecoder
  import opened MetricsJson

  /** m_isAdmin, m_nodeName, m_userId and m_worker: the node name of the running collector. */
  datatype Account = Account(isAdmin: bool, nodeName: string, userId: int, worker: Option<string>)

  const NOBODY := Account(false, "", 0, None)

  datatype ServiceSignal =
    | LoginResult(status: string, role: string, nodeName: string, userId: int)
    | RegisterResult(status: string, message: string, nodeName: string, userId: int)
    | AdminStatusChanged(isAdmin: bool)
    | NodesListReceived(nodes: seq<string>)
    | NodeMetricsReceived(snapshot: MetricsSnapshot)

  function Field(payload: string, key: string): string { ToString(Lookup(ParseObject(payload), key)) }

  function UserId(payload: string): int { ToLong(Lookup(ParseObject(payload), "userId")) }

  function StartWorker(a: Account, nodeName: string): Account {
    if a.worker.Some? then a else a.(nodeName := nodeName, worker := Some(nodeName))
  }

  /** A positive answer is believed as it stands; a running collector is left alone. */
  function Adopt(a: Account, payload: string, isAdmin: bool): Account {
    var nodeName := Field(payload, "nodeName");
    StartWorker(a.(isAdmin := isAdmin, nodeName := nodeName, userId := UserId(payload)), nodeName)
  }

  function OnMessage(a: Account, m: WireMessage): Account {
    if Field(m.payload, "status") != "ok" then a
    else if m.kind == LOGIN_RESP then Adopt(a, m.payload, Field(m.payload, "role") == "admin")
    else if m.kind == REGISTER_RESP then Adopt(a, m.payload, false)
    else a
  }

  /** The client's account after some messages. */
  function Follow(a: Account, ms: seq<WireMessage>): Account
    decreases |ms|
  {
    if ms == [] then a else Follow(OnMessage(a, ms[0]), ms[1..])
  }

  function LogOut(a: Account): Account { a.(isAdmin := false) }

  function Stop(a: Account): Account { a.(isAdmin := false, worker := None) }

  // ---- Signals ----

  function AdminSignal(was: bool, becomes: bool): seq<ServiceSignal> {
    if was != becomes then [AdminStatusChanged(becomes)] else []
  }

  function Strings(elements: seq<Json>): seq<string> {
    seq(|elements|, i requires 0 <= i < |elements| => ToString(Some(elements[i])))
  }

  /** The signals for a message, in order. The change of rights is announced after the result. */
  function Signals(a: Account, m: WireMessage): seq<ServiceSignal> {
    var p := m.payload;
    var change := AdminSignal(a.isAdmin, OnMessage(a, m).isAdmin);
    if m.kind == LOGIN_RESP then
      [LoginResult(Field(p, "status"), Field(p, "role"), Field(p, "nodeName"), UserId(p))] + change
    else if m.kind == REGISTER_RESP then
      [RegisterResult(Field(p, "status"), Field(p, "message"), Field(p, "nodeName"), UserId(p))] + change
    else if m.kind == NODES_LIST_RESP then [NodesListReceived(Strings(ToArray(Lookup(ParseObject(p), "nodes"))))]
    else if m.kind == GET_METRICS_RESP then
      if Lookup(ParseObject(p), "error").Some? then [] else [NodeMetricsReceived(ReadSnapshot(p))]
    else []
  }

  /** The rights announced last are the rights held. */
  function Announced(held: bool, signals: seq<ServiceSignal>): bool {
    if signals == [] then held
    else
      var last := signals[|signals| - 1];
      if last.AdminStatusChanged? then last.isAdmin else Announced(held, signals[..|signals| - 1])
  }

  /** The signals for several messages. */
  function AllSignals(a: Account, ms: seq<WireMessage>): seq<ServiceSignal>
    decreases |ms|
  {
    if ms == [] then [] else Signals(a, ms[0]) + AllSignals(OnMessage(a, ms[0]), ms[1..])
  }

  lemma AnnouncedOne(a: Account, m: WireMessage)
    ensures Announced(a.isAdmin, Signals(a, m)) == OnMessage(a, m).isAdmin
  {
    var signals := Signals(a, m);
    if |signals| == 2 {
      assert signals[1] == AdminStatusChanged(OnMessage(a, m).isAdmin);
    } else if |signals| == 1 {
      assert signals[..0] == [];
    }
  }

  lemma AnnouncedAppend(held: bool, a: seq<ServiceSignal>, b: seq<ServiceSignal>)
    ensures Announced(held, a + b) == Announced(Announced(held, a), b)
  {
    if b == [] {
      assert a + b == a;
    } else {
      assert (a + b)[..|a + b| - 1] == a + b[..|b| - 1];
      AnnouncedAppend(held, a, b[..|b| - 1]);
    }
  }

  /** Whatever messages arrive, the rights announced last are the rights the client holds. */
  lemma {:induction false} AnnouncedRights(a: Account, ms: seq<WireMessage>)
    ensures Announced(a.isAdmin, AllSignals(a, ms)) == Follow(a, ms).isAdmin
    decreases |ms|
  {
    if ms != [] {
      AnnouncedOne(a, ms[0]);
      AnnouncedAppend(a.isAdmin, Signals(a, ms[0]), AllSignals(OnMessage(a, ms[0]), ms[1..]));
      AnnouncedRights(OnMessage(a, ms[0]), ms[1..]);
    }
  }
}
