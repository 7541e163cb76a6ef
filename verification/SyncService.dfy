/** The client's service: the outbox protocol, and the account it learns from the server's answers. */
module Sync {
  import opened Models
  import opened JsonDecoder
  import opened Accounts
  import opened MetricsJson
  import opened MetricsPayload
  import opened Protocol
  import opened LocalStore
  import opened ClientChannels

  /** What the outbox protocol depends on: the stored items and whether the socket is connected. */
  datatype Client = Client(outbox: Outbox, connected: bool)

  /** The client after a slot has run, and the snapshots it wrote to the socket. */
  datatype Outcome = Outcome(client: Client, sent: seq<MetricsSnapshot>)

  /** The snapshot that goes on the wire for a stored item. */
  function Stamp(item: Item): MetricsSnapshot { item.payload.(localId := item.id) }

  /** What flushOutbox writes: the oldest item, and only while connected. */
  function Flush(c: Client): seq<MetricsSnapshot> {
    match PeekOldest(c.outbox)
    case Some(item) => if c.connected then [Stamp(item)] else []
    case None => []
  }

  /** Nothing is written while disconnected or with nothing stored; else the stored item that is oldest. */
  lemma FlushIsOldest(c: Client)
    requires WellFormed(c.outbox)
    ensures Flush(c) == [] <==> !c.connected || c.outbox.rows == []
    ensures Flush(c) != [] ==>
              |Flush(c)| == 1 && exists item | item in c.outbox.rows ::
                Flush(c)[0] == Stamp(item) && forall other | other in c.outbox.rows :: item.id <= other.id
  {
    if c.connected && c.outbox.rows != [] {
      var item := c.outbox.rows[0];
      assert Flush(c) == [Stamp(item)] && item in c.outbox.rows;
    }
  }

  function OnSnapshot(c: Client, snapshot: MetricsSnapshot): Outcome {
    var c' := c.(outbox := Enqueue(c.outbox, snapshot));
    Outcome(c', Flush(c'))
  }

  function OnAck(c: Client, localId: int): Outcome {
    var c' := if localId > 0 then c.(outbox := Erase(c.outbox, localId)) else c;
    Outcome(c', Flush(c'))
  }

  /** One ackReceived signal that is connected to `onAckReceived` `h` times. */
  function OnAckTimes(h: nat, c: Client, localId: int): Outcome {
    if h == 0 then Outcome(c, [])
    else
      var first := OnAck(c, localId);
      var rest := OnAckTimes(h - 1, first.client, localId);
      Outcome(rest.client, first.sent + rest.sent)
  }

  method ReadStrings(elements: seq<Json>) returns (out: seq<string>)
    ensures out == Strings(elements)
  {
    out := [];
    for i := 0 to |elements|
      invariant out == Strings(elements[..i])
    {
      out := out + [ToString(Some(elements[i]))];
    }
    assert elements[..|elements|] == elements;
  }

  class SyncService {
    const store: LocalMetricsStore
    const channel: ClientChannel
    const show: real -> string                // how Qt prints a number
    var isAdmin: bool
    var nodeName: string
    var userId: int
    var worker: Option<string>                // the node name the running collector was started with
    var raised: seq<ServiceSignal>            // signals raised so far, log messages aside

    constructor (store: LocalMetricsStore, channel: ClientChannel, show: real -> string)
      ensures this.store == store && this.channel == channel && this.show == show
      ensures Self() == NOBODY && raised == []
    {
      this.store, this.channel, this.show := store, channel, show;
      isAdmin, nodeName, userId, worker, raised := false, "", 0, None, [];
    }

    ghost function Self(): Account
      reads this
    {
      Account(isAdmin, nodeName, userId, worker)
    }

    ghost function State(): Client
      reads this, store, channel
    {
      Client(store.Contents(), channel.connected)
    }

    ghost predicate Valid()
      reads this, store, channel
    {
      WellFormed(store.Contents()) && (channel.connected ==> channel.open)
    }

    ghost function Bytes(snapshots: seq<MetricsSnapshot>): string { MetricsBytes(snapshots, show) }

    method FlushOutbox()
      requires Valid()
      modifies channel`written
      ensures Valid() && State() == old(State())
      ensures channel.written == old(channel.written) + Bytes(Flush(State()))
    {
      if !channel.connected {
        return;
      }
      var next := store.Peek();
      if next == None {
        return;
      }
      BytesOfOne(Stamp(next.value), show);
      channel.SendWireMessage(WireMessage(METRICS, PayloadText(Stamp(next.value), show)));
    }

    method OnSnapshotFromWorker(snapshot: MetricsSnapshot)
      requires Valid()
      modifies store, channel`written
      ensures Valid() && State() == OnSnapshot(old(State()), snapshot).client
      ensures channel.written == old(channel.written) + Bytes(OnSnapshot(old(State()), snapshot).sent)
    {
      var _ := store.EnqueueItem(snapshot);
      FlushOutbox();
    }

    method OnAckReceived(localId: int)
      requires Valid()
      modifies store, channel`written
      ensures Valid() && State() == OnAck(old(State()), localId).client
      ensures channel.written == old(channel.written) + Bytes(OnAck(old(State()), localId).sent)
    {
      if localId > 0 {
        store.EraseItem(localId);
      }
      FlushOutbox();
    }

    // ---- The account ----

    method StartCollecting(node: string)
      modifies this`nodeName, this`worker
      ensures Self() == StartWorker(old(Self()), node)
    {
      if worker.Some? {
        return;
      }
      nodeName := node;
      worker := Some(node);
    }

    method SetAdmin(becomes: bool)
      modifies this`isAdmin, this`raised
      ensures isAdmin == becomes && raised == old(raised) + AdminSignal(old(isAdmin), becomes)
    {
      if isAdmin != becomes {
        isAdmin := becomes;
        raised := raised + [AdminStatusChanged(becomes)];
      }
    }

    method StopCollecting()
      modifies this`isAdmin, this`worker, this`raised
      ensures Self() == Accounts.Stop(old(Self())) && raised == old(raised) + AdminSignal(old(isAdmin), false)
    {
      if worker.Some? {
        worker := None;
      }
      SetAdmin(false);
    }

    method LogOut()
      modifies this`isAdmin, this`raised
      ensures Self() == Accounts.LogOut(old(Self())) && raised == old(raised) + AdminSignal(old(isAdmin), false)
    {
      SetAdmin(false);
    }

    /** A positive answer has been received. */
    method Believe(payload: string, becomes: bool)
      modifies this`isAdmin, this`nodeName, this`userId, this`worker, this`raised
      ensures Self() == Adopt(old(Self()), payload, becomes)
      ensures raised == old(raised) + AdminSignal(old(isAdmin), becomes)
    {
      SetAdmin(becomes);
      nodeName := ToString(Lookup(ParseObject(payload), "nodeName"));
      userId := ToLong(Lookup(ParseObject(payload), "userId"));
      StartCollecting(nodeName);
    }

    method OnMessageReceived(m: WireMessage)
      modifies this`isAdmin, this`nodeName, this`userId, this`worker, this`raised
      ensures Self() == OnMessage(old(Self()), m)
      ensures raised == old(raised) + Signals(old(Self()), m)
    {
      var members := ParseObject(m.payload);
      var status, node := ToString(Lookup(members, "status")), ToString(Lookup(members, "nodeName"));
      var id := ToLong(Lookup(members, "userId"));
      if m.kind == LOGIN_RESP {
        var role := ToString(Lookup(members, "role"));
        raised := raised + [LoginResult(status, role, node, id)];
        if status == "ok" {
          Believe(m.payload, role == "admin");
        }
      } else if m.kind == REGISTER_RESP {
        raised := raised + [RegisterResult(status, ToString(Lookup(members, "message")), node, id)];
        if status == "ok" {
          Believe(m.payload, false);
        }
      } else if m.kind == NODES_LIST_RESP {
        var nodes := ReadStrings(ToArray(Lookup(members, "nodes")));
        raised := raised + [NodesListReceived(nodes)];
      } else if m.kind == GET_METRICS_RESP {
        if Lookup(members, "error") == None {
          var snapshot := FromJson(m.payload);
          raised := raised + [NodeMetricsReceived(snapshot)];
        }
      }
    }

    /** Only a client that believes it is the administrator asks for the list of nodes. */
    method RequestNodesList()
      modifies channel`written
      ensures channel.written
           == if isAdmin && channel.open then old(channel.written) + Encode(WireMessage(NODES_LIST, "{}"))
              else old(channel.written)
    {
      if !isAdmin {
        return;
      }
      channel.SendWireMessage(WireMessage(NODES_LIST, "{}"));
    }

    /** And for the metrics of one. */
    method RequestNodeMetrics(node: string)
      modifies channel`written
      ensures channel.written
           == if isAdmin && channel.open then old(channel.written) + Encode(WireMessage(GET_METRICS, TargetText(node)))
              else old(channel.written)
    {
      if !isAdmin {
        return;
      }
      channel.SendWireMessage(WireMessage(GET_METRICS, "{" + Keyed("nodeName", QtText(node) + "}")));
    }
  }
}
