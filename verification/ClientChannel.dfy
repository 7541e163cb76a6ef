/** The client's end of the connection: framing of outgoing messages, incremental reading. */
module ClientChannels {
  import opened Models
  import opened Text
  import opened Protocol
  import opened Lines
  import opened JsonDecoder

  datatype Signal =
    | MessageReceived(message: WireMessage)
    | AckReceived(localId: int)
    | CommandReceived(payload: string)

  const ACK_HEAD := "{\"localId\":"

  /** The payload the server writes into an ACK. */
  function AckPayload(localId: int): string { ACK_HEAD + DecimalInt(localId) + "}" }

  /** The `localId` of an ACK payload; 0 when it cannot be found. */
  function AckLocalId(payload: string): int { ToLong(Lookup(ParseObject(payload), "localId")) }

  /** The signals emitted for one decoded message, in order. */
  function SignalsOf(m: WireMessage): seq<Signal> {
    [MessageReceived(m)] +
    if m.kind == ACK then [AckReceived(AckLocalId(m.payload))]
    else if m.kind == COMMAND then [CommandReceived(m.payload)]
    else []
  }

  function SignalsOfAll(ms: seq<WireMessage>): seq<Signal> {
    if ms == [] then [] else SignalsOf(ms[0]) + SignalsOfAll(ms[1..])
  }

  lemma SignalsAppend(a: seq<WireMessage>, b: seq<WireMessage>)
    ensures SignalsOfAll(a + b) == SignalsOfAll(a) + SignalsOfAll(b)
  {
    if a == [] {
      assert a + b == b;
    } else {
      assert (a + b)[1..] == a[1..] + b;
      SignalsAppend(a[1..], b);
    }
  }

  function SignalsOfLine(line: string): seq<Signal> {
    match Decode(line)
    case None => []
    case Some(m) => SignalsOf(m)
  }

  lemma SignalsTakeLine(s: string, i: nat)
    requires Find(s, "\n", 0) == Some(i)
    ensures SignalsOfAll(Messages(s)) == SignalsOfLine(s[..i]) + SignalsOfAll(Messages(s[i + 1..]))
  {
  }

  /** The messages announced by some signals. */
  function Announced(signals: seq<Signal>): seq<WireMessage> {
    if signals == [] then []
    else (if signals[0].MessageReceived? then [signals[0].message] else []) + Announced(signals[1..])
  }

  /** The ids that they acknowledge. */
  function Acknowledged(signals: seq<Signal>): seq<int> {
    if signals == [] then []
    else (if signals[0].AckReceived? then [signals[0].localId] else []) + Acknowledged(signals[1..])
  }

  lemma {:induction false} AnnouncedAppend(a: seq<Signal>, b: seq<Signal>)
    ensures Announced(a + b) == Announced(a) + Announced(b)
  {
    if a == [] {
      assert a + b == b;
    } else {
      assert (a + b)[1..] == a[1..] + b;
      AnnouncedAppend(a[1..], b);
      Associative(if a[0].MessageReceived? then [a[0].message] else [], Announced(a[1..]), Announced(b));
    }
  }

  lemma {:induction false} AcknowledgedAppend(a: seq<Signal>, b: seq<Signal>)
    ensures Acknowledged(a + b) == Acknowledged(a) + Acknowledged(b)
  {
    if a == [] {
      assert a + b == b;
    } else {
      assert (a + b)[1..] == a[1..] + b;
      AcknowledgedAppend(a[1..], b);
      Associative(if a[0].AckReceived? then [a[0].localId] else [], Acknowledged(a[1..]), Acknowledged(b));
    }
  }

  /** The ids in the ACKs among some messages. */
  function AckIds(ms: seq<WireMessage>): seq<int> {
    if ms == [] then [] else (if ms[0].kind == ACK then [AckLocalId(ms[0].payload)] else []) + AckIds(ms[1..])
  }

  lemma MessageIsAnnounced(m: WireMessage)
    ensures Announced(SignalsOf(m)) == [m]
  {
    var signals := SignalsOf(m);
    assert signals[0] == MessageReceived(m);
    assert signals[1..] != [] ==> signals[1..][1..] == [] && !signals[1..][0].MessageReceived?;
    assert Announced(signals[1..]) == [];
  }

  lemma AckIsAnnounced(m: WireMessage)
    ensures Acknowledged(SignalsOf(m)) == if m.kind == ACK then [AckLocalId(m.payload)] else []
  {
    var signals := SignalsOf(m);
    if m.kind == ACK {
      assert signals[1..] == [AckReceived(AckLocalId(m.payload))];
      assert Acknowledged(signals[1..][1..]) == [];
    } else {
      assert signals[1..] != [] ==> signals[1..][1..] == [] && !signals[1..][0].AckReceived?;
      assert Acknowledged(signals[1..]) == [];
    }
  }

  /** Every message is announced and every ACK passed on, each once and in the order received. */
  lemma {:induction false} EverythingIsSignalled(ms: seq<WireMessage>)
    ensures Announced(SignalsOfAll(ms)) == ms && Acknowledged(SignalsOfAll(ms)) == AckIds(ms)
  {
    if ms != [] {
      EverythingIsSignalled(ms[1..]);
      MessageIsAnnounced(ms[0]);
      AckIsAnnounced(ms[0]);
      AnnouncedAppend(SignalsOf(ms[0]), SignalsOfAll(ms[1..]));
      AcknowledgedAppend(SignalsOf(ms[0]), SignalsOfAll(ms[1..]));
      assert [ms[0]] + ms[1..] == ms;
    }
  }

  class ClientChannel {
    var open: bool               // m_socket.isOpen()
    var connected: bool          // m_socket is in ConnectedState
    var buffer: string
    var written: string          // bytes handed to the socket
    var emitted: seq<Signal>     // signals raised so far

    constructor ()
      ensures !open && !connected && buffer == "" && written == "" && emitted == []
    {
      open, connected, buffer, written, emitted := false, false, "", "", [];
    }

    method SendWireMessage(m: WireMessage)
      modifies this`written
      ensures written == if open then old(written) + Encode(m) else old(written)
    {
      if !open {
        return;
      }
      var line := EncodeWireMessage(m);
      written := written + line;
    }

    /** Raise the signals of one received line; a line that is no message raises none. */
    method Dispatch(line: string)
      modifies this`emitted
      ensures emitted == old(emitted) + SignalsOfLine(line)
    {
      var message := DecodeWireMessage(line);
      if message == None {
        return;
      }
      var m := message.value;
      emitted := emitted + [MessageReceived(m)];
      if m.kind == ACK {
        emitted := emitted + [AckReceived(AckLocalId(m.payload))];
      } else if m.kind == COMMAND {
        emitted := emitted + [CommandReceived(m.payload)];
      }
    }

    /** The socket has delivered `bytes`: emit every message that is now complete. */
    method OnReadyRead(bytes: string)
      modifies this`buffer, this`emitted
      ensures buffer == Remainder(old(buffer) + bytes)
      ensures emitted == old(emitted) + SignalsOfAll(Messages(old(buffer) + bytes))
    {
      buffer := buffer + bytes;
      ghost var remainder, todo := Remainder(buffer), SignalsOfAll(Messages(buffer));
      ghost var goal := emitted + todo;
      while true
        invariant Remainder(buffer) == remainder && SignalsOfAll(Messages(buffer)) == todo
        invariant emitted + todo == goal
        decreases |buffer|
      {
        var newline := Find(buffer, "\n", 0);
        if newline == None {
          NoLine(buffer);
          break;
        }
        MessagesTakeLine(buffer, newline.value);
        SignalsTakeLine(buffer, newline.value);
        var line := buffer[..newline.value];
        buffer := buffer[newline.value + 1..];
        todo := SignalsOfAll(Messages(buffer));
        Associative(emitted, SignalsOfLine(line), todo);
        Dispatch(line);
      }
    }
  }

  /** What `OnReadyRead` emits when called once per chunk, starting with `buffer` unread. */
  function Feed(buffer: string, chunks: seq<string>): seq<Signal>
    decreases |chunks|
  {
    if chunks == [] then []
    else SignalsOfAll(Messages(buffer + chunks[0])) + Feed(Remainder(buffer + chunks[0]), chunks[1..])
  }

  function FeedRemainder(buffer: string, chunks: seq<string>): string
    decreases |chunks|
  {
    if chunks == [] then buffer else FeedRemainder(Remainder(buffer + chunks[0]), chunks[1..])
  }

  /** How the network cuts the stream into chunks does not matter. */
  lemma {:induction false} ChunkingInvariance(buffer: string, chunks: seq<string>)
    requires '\n' !in buffer
    ensures Feed(buffer, chunks) == SignalsOfAll(Messages(buffer + Concat(chunks)))
    ensures FeedRemainder(buffer, chunks) == Remainder(buffer + Concat(chunks))
    decreases |chunks|
  {
    NewlineAbsent(buffer);
    if chunks == [] {
      assert buffer + Concat(chunks) == buffer;
    } else {
      var seen, later := buffer + chunks[0], Concat(chunks[1..]);
      SplitIsExact(seen);
      ChunkingInvariance(Remainder(seen), chunks[1..]);
      MessagesResume(seen, later);
      SignalsAppend(Messages(seen), Messages(Remainder(seen) + later));
      assert buffer + Concat(chunks) == seen + later;
    }
  }

  lemma AckIsFramable(localId: int)
    ensures Framable(WireMessage(ACK, AckPayload(localId)))
  {
  }

  lemma AckPieces(localId: int)
    ensures AckPayload(localId) == "{" + Keyed("localId", DecimalInt(localId) + "}")
  {
    Associative(ACK_HEAD, DecimalInt(localId), "}");
    assert ACK_HEAD == "{" + ("\"" + ("localId" + ("\"" + ":")));
  }

  lemma AckObject(localId: int)
    ensures NumeralEnd(DecimalInt(localId)) == Some(|DecimalInt(localId)|)
    ensures ParseObject(AckPayload(localId)) == [Member("localId", Num(DecimalInt(localId)))]
  {
    IntegerIsNumeral(localId);
    NumberLast("localId", DecimalInt(localId));
    AckPieces(localId);
    ObjectOfMembers(Keyed("localId", DecimalInt(localId) + "}"));
  }

  lemma AckIsRead(localId: int)
    ensures AckLocalId(AckPayload(localId)) == localId
  {
    AckObject(localId);
    LongOfInteger(localId);
    OneMember(Member("localId", Num(DecimalInt(localId))));
  }

  /** The server's ACK for any id is framable and read back as that id. */
  lemma AckRoundTrip(localId: int)
    ensures Framable(WireMessage(ACK, AckPayload(localId)))
    ensures AckLocalId(AckPayload(localId)) == localId
  {
    AckIsFramable(localId);
    AckIsRead(localId);
  }
}
