/** One server session: its identity, its reader and its write queue. */
module Sessions {
  import opened Models
  import opened Text
  import opened Protocol
  import opened Lines
  import LineReader
  import WriteQueue
  import opened Repository
  import opened Registry
  import opened Handlers
  import opened MetricsJson
  import opened MetricsPayload
  import opened NodeLists
  import opened PropertyTrees

  class Session {
    const key: nat
    const repository: MetricRepository
    const registry: SessionRegistry
    var posted: seq<WireMessage>
    var outgoing: seq<string>
    var writes: nat
    var completed: seq<string>
    var stopped: bool
    var isAdmin: bool
    var userId: int
    var nodeName: string
    var buffer: string

    ghost function Writer(): WriteQueue.Writer
      reads this
    {
      WriteQueue.Writer(posted, outgoing, writes, stopped, completed)
    }

    ghost function Who(): Identity
      reads this
    {
      Identity(userId, nodeName, isAdmin)
    }

    constructor (key: nat, repository: MetricRepository, registry: SessionRegistry)
      ensures this.key == key && this.repository == repository && this.registry == registry
      ensures Writer() == WriteQueue.FRESH && Who() == ANONYMOUS && buffer == ""
    {
      this.key, this.repository, this.registry := key, repository, registry;
      posted, outgoing, writes, completed, stopped := [], [], 0, [], false;
      isAdmin, userId, nodeName, buffer := false, 0, "unknown", "";
    }

    method Start()
      modifies registry
      ensures registry.sessions == old(registry.sessions) + [key]
    {
      registry.Join(key);
    }

    method Stop(dead: set<nat>)
      modifies this`stopped, registry
      ensures Writer() == WriteQueue.Stop(old(Writer()))
      ensures registry.sessions
           == if old(stopped) then old(registry.sessions) else Registry.Without(old(registry.sessions), dead + {key})
    {
      if stopped {
        return;
      }
      stopped := true;
      registry.Leave(key, dead);
    }

    // ---- Reading ----

    /** What had arrived completely stays as it was; the bytes continue the unfinished line. */
    method BytesArrive(bytes: string)
      modifies this`buffer
      ensures buffer == old(buffer) + bytes
      ensures Messages(buffer) == Messages(old(buffer)) + Messages(Remainder(old(buffer)) + bytes)
      ensures Remainder(buffer) == Remainder(Remainder(old(buffer)) + bytes)
    {
      MessagesResume(buffer, bytes);
      buffer := buffer + bytes;
    }

    /** Completion of async_read_until: one line, decoded if it is a message. */
    method OnRead() returns (message: Option<WireMessage>)
      requires HasNewline(buffer)
      modifies this`buffer
      ensures var r := LineReader.CompleteRead(LineReader.Reader(old(buffer), []));
              buffer == r.buffer && r.handled == if message.Some? then [message.value] else []
    {
      var newline := Find(buffer, "\n", 0).value;
      var line := buffer[..newline];
      buffer := buffer[newline + 1..];
      message := DecodeWireMessage(line);
    }

    // ---- Writing ----

    method SendMessage(m: WireMessage)
      modifies this`posted
      ensures Writer() == WriteQueue.Post(old(Writer()), m)
    {
      posted := posted + [m];
    }

    method DoWrite()
      modifies this`writes
      ensures Writer() == WriteQueue.DoWrite(old(Writer()))
    {
      if outgoing == [] || stopped {
        return;
      }
      writes := writes + 1;
    }

    /** The strand runs the oldest posted message. */
    method RunPosted()
      requires posted != []
      modifies this`posted, this`outgoing, this`writes
      ensures Writer() == WriteQueue.RunPosted(old(Writer()))
    {
      var data := EncodeWireMessage(posted[0]);
      posted := posted[1..];
      var wasEmpty := outgoing == [];
      outgoing := outgoing + [data];
      if wasEmpty {
        DoWrite();
      }
    }

    method WriteCompleted()
      requires writes > 0 && outgoing != []
      modifies this`outgoing, this`writes, this`completed
      ensures Writer() == WriteQueue.WriteCompleted(old(Writer()))
    {
      writes := writes - 1;
      completed := completed + [outgoing[0]];
      outgoing := outgoing[1..];
      if outgoing != [] {
        DoWrite();
      }
    }

    method WriteFailed(dead: set<nat>)
      requires writes > 0
      modifies this`writes, this`stopped, registry
      ensures Writer() == WriteQueue.WriteFailed(old(Writer()))
    {
      writes := writes - 1;
      Stop(dead);
    }

    // ---- Requests ----

    method HandleLogin(payload: string)
      modifies this
      ensures buffer == old(buffer)
      ensures match ReadCredentials(payload)
              case None => Who() == old(Who()) && Writer() == old(Writer())
              case Some(c) =>
                var user := Authenticate(repository.users, c.username, c.password);
                Who() == AfterLogin(old(Who()), user) && Writer() == WriteQueue.Post(old(Writer()), LoginReply(user))
    {
      var tree := ReadTree(payload);
      if tree == None {
        return;
      }
      var username, password := Data(Child(tree.value, "username"), ""), Data(Child(tree.value, "password"), "");
      var user := repository.AuthenticateUser(username, password);
      if user == None {
        SendMessage(WireMessage(LOGIN_RESP, "{\"status\":\"fail\"}"));
        return;
      }
      userId := user.value.id;
      nodeName := user.value.nodeName;
      isAdmin := user.value.role == Admin;
      SendMessage(WireMessage(LOGIN_RESP,
        "{\"status\":\"ok\",\"role\":\"" + (if isAdmin then "admin" else "user")
        + "\",\"nodeName\":\"" + nodeName + "\",\"userId\":" + DecimalInt(userId) + "}"));
    }

    method HandleRegister(payload: string)
      modifies this, repository
      ensures buffer == old(buffer)
      ensures match ReadCredentials(payload)
              case None =>
                Who() == old(Who()) && Writer() == old(Writer()) && repository.Contents() == old(repository.Contents())
              case Some(c) =>
                var r := Register(old(repository.Contents()), c.username, c.password);
                && repository.Contents() == r.tables
                && Who() == AfterRegister(old(Who()), r.user)
                && Writer() == WriteQueue.Post(old(Writer()), RegisterReply(r.user))
    {
      var tree := ReadTree(payload);
      if tree == None {
        return;
      }
      var username, password := Data(Child(tree.value, "username"), ""), Data(Child(tree.value, "password"), "");
      var user := repository.RegisterUser(username, password);
      if user == None {
        SendMessage(WireMessage(REGISTER_RESP, "{\"status\":\"fail\",\"message\":\"" + TAKEN + "\"}"));
        return;
      }
      SendMessage(WireMessage(REGISTER_RESP,
        "{\"status\":\"ok\",\"role\":\"user\",\"nodeName\":\"" + user.value.nodeName
        + "\",\"userId\":" + DecimalInt(user.value.id) + "}"));
      userId := user.value.id;
      nodeName := user.value.nodeName;
      isAdmin := false;
    }

    /**
      `fails` is the insert throwing; the ACK is sent either way. A payload that is no JSON document
      throws out of the handler before that.
     */
    method HandleMetrics(payload: string, now: string, fails: bool)
      modifies this`posted, repository
      ensures var snapshot := ReadPayload(payload, now);
              && repository.Contents()
                 == (if fails || snapshot.None? then old(repository.Contents())
                     else Insert(old(repository.Contents()), Attributed(Who(), snapshot.value)))
              && Writer()
                 == (if snapshot.None? then old(Writer())
                     else WriteQueue.Post(old(Writer()), AckReply(snapshot.value.localId)))
    {
      var parsed := ReadPayload(payload, now);
      if parsed == None {
        return;
      }
      var snapshot := parsed.value.(userId := userId, nodeName := nodeName);
      var _ := repository.InsertSnapshot(snapshot, fails);
      SendMessage(WireMessage(ACK, "{\"localId\":" + DecimalInt(snapshot.localId) + "}"));
    }

    /** Only an administrator's command is broadcast; the result lists who gets it. */
    method HandleCommand(payload: string, gone: seq<set<nat>>) returns (recipients: seq<nat>)
      requires |gone| == 2 * |registry.sessions| && OnlyGrows(gone)
      modifies registry
      ensures recipients == if isAdmin then Locked(old(registry.sessions), gone, |old(registry.sessions)|) else []
      ensures registry.sessions == if isAdmin then recipients else old(registry.sessions)
    {
      if !isAdmin {
        return [];
      }
      recipients := registry.Broadcast(gone);
    }

    /**
      A payload that does not parse, and a numeral the scanner cannot hold, throw out of the handler,
      and nothing is answered. `reading` is what was found for the administrator.
     */
    method HandleGetMetrics(payload: string, show: real -> string) returns (reading: Reading)
      modifies this`posted
      ensures reading
           == (match ReadTarget(payload)
               case Some(node) => if isAdmin then LatestSnapshot(repository.Contents(), node) else NoData
               case None => if isAdmin then Failed else NoData)
      ensures Writer()
           == if !isAdmin || reading.Failed? then old(Writer())
              else WriteQueue.Post(old(Writer()), MetricsReply(reading, show))
    {
      if !isAdmin {
        return NoData;
      }
      var tree := ReadTree(payload);
      if tree == None {
        return Failed;
      }
      reading := repository.GetLatestSnapshotForNode(Data(Child(tree.value, "nodeName"), ""));
      match reading
      case NoData => SendMessage(WireMessage(GET_METRICS_RESP, "{\"error\":\"no data\"}"));
      case Found(snapshot) =>
        var json := BuildMetricsJson(snapshot, show);
        SendMessage(WireMessage(GET_METRICS_RESP, json));
      case Failed =>
    }

    /** `nodeName` is what the other sessions are called, `dead` the references nobody holds any more. */
    method HandleNodesList(nodeNames: nat -> string, dead: set<nat>) returns (names: seq<string>)
      modifies this`posted
      ensures isAdmin ==> |names| == |Registry.Without(registry.sessions, dead)|
      ensures isAdmin ==> forall i | 0 <= i < |names| ::
                names[i] == nodeNames(Registry.Without(registry.sessions, dead)[i])
      ensures Writer() == if isAdmin then WriteQueue.Post(old(Writer()), NodesReply(names)) else old(Writer())
    {
      if !isAdmin {
        return [];
      }
      names := registry.Nodes(nodeNames, dead);
      SendMessage(WireMessage(NODES_LIST_RESP, NodesText(names)));
    }

    /** A message goes to its handler by its type; one of unknown type is ignored. */
    method HandleMessage(m: WireMessage, now: string, fails: bool, show: real -> string, gone: seq<set<nat>>,
                         nodeNames: nat -> string, dead: set<nat>)
      returns (recipients: seq<nat>, names: seq<string>)
      requires |gone| == 2 * |registry.sessions| && OnlyGrows(gone)
      modifies this, repository, registry
      ensures buffer == old(buffer)
      ensures match ReadRequest(m, now)
              case None =>
                Who() == old(Who()) && Writer() == old(Writer()) && repository.Contents() == old(repository.Contents())
              case Some(r) =>
                var e := Effects(old(Who()), old(repository.Contents()), r, fails, names, show);
                && Who() == e.identity && repository.Contents() == e.tables
                && Writer() == if e.reply.Some? then WriteQueue.Post(old(Writer()), e.reply.value) else old(Writer())
      ensures recipients
           == if m.kind == COMMAND && old(isAdmin) then Locked(old(registry.sessions), gone, |old(registry.sessions)|)
              else []
    {
      recipients, names := [], [];
      if m.kind == LOGIN {
        HandleLogin(m.payload);
      } else if m.kind == REGISTER {
        HandleRegister(m.payload);
      } else if m.kind == METRICS {
        HandleMetrics(m.payload, now, fails);
      } else if m.kind == COMMAND {
        recipients := HandleCommand(m.payload, gone);
      } else if m.kind == NODES_LIST {
        names := HandleNodesList(nodeNames, dead);
      } else if m.kind == GET_METRICS {
        var _ := HandleGetMetrics(m.payload, show);
      }
    }
  }
}
