/** From sendMessage on the server to the signals on the client, across any chunking. */
module EndToEndStream {
  import opened Models
  import opened Text
  import opened Protocol
  import opened Lines
  import WriteQueue
  import opened ClientChannels
  import LineReader

  lemma SignalsOfPrefix(a: seq<WireMessage>, b: seq<WireMessage>)
    requires a <= b
    ensures SignalsOfAll(a) <= SignalsOfAll(b)
  {
  }

  /**
    A client that connects with an empty buffer and has received any part of the byte stream,
    cut in any way, has emitted the signals of a prefix of the messages sent; and of all of them
    once the session has nothing left to write and the bytes have all arrived.
   */
  lemma {:induction false} ServerToClient(events: seq<WriteQueue.Event>, chunks: seq<string>)
    requires AllFramable(WriteQueue.Sent(events))
    requires Concat(chunks) <= WriteQueue.Wire(WriteQueue.Run(events))
    ensures Messages(Concat(chunks)) <= WriteQueue.Sent(events)
    ensures Feed("", chunks) == SignalsOfAll(Messages(Concat(chunks)))
    ensures Feed("", chunks) <= SignalsOfAll(WriteQueue.Sent(events))
    ensures var w := WriteQueue.Run(events);
            w.posted == [] && w.outgoing == [] && Concat(chunks) == WriteQueue.Wire(w)
            ==> Feed("", chunks) == SignalsOfAll(WriteQueue.Sent(events))
  {
    var sent, w := WriteQueue.Sent(events), WriteQueue.Run(events);
    WriteQueue.AlwaysConsistent(events);
    WriteQueue.WireIsPrefix(w, sent);
    FramesRoundTrip(sent);
    PrefixGivesPrefix(Concat(chunks), Concat(Frames(sent)));
    ChunkingInvariance("", chunks);
    assert "" + Concat(chunks) == Concat(chunks);
    SignalsOfPrefix(Messages(Concat(chunks)), sent);
  }

  /**
    The client does not clear its buffer when it reconnects. Whatever unfinished line was left
    there, it can spoil the first message of the new connection and no other.
   */
  lemma ReconnectSpoilsAtMostFirst(leftover: string, sent: seq<WireMessage>)
    requires '\n' !in leftover && AllFramable(sent) && sent != []
    ensures Messages(leftover + Concat(Frames(sent)))
         == DecodeAll([leftover + (sent[0].kind + " " + sent[0].payload)]) + sent[1..]
  {
    var m, rest := sent[0], Concat(Frames(sent[1..]));
    assert m in sent && forall x | x in sent[1..] :: x in sent;
    assert Frames(sent)[1..] == Frames(sent[1..]);
    var line := leftover + (m.kind + " " + m.payload);
    Associative(m.kind + " " + m.payload, "\n", rest);
    Associative(leftover, m.kind + " " + m.payload, "\n" + rest);
    Associative(line, "\n", rest);
    assert '\n' !in line;
    FirstNewline(line, rest);
    MessagesTakeLine(line + "\n" + rest, |line|);
    assert (line + "\n" + rest)[..|line|] == line && (line + "\n" + rest)[|line| + 1..] == rest;
    FramesRoundTrip(sent[1..]);
  }

  /** Client to server: what a session handles is a prefix of what the client wrote. */
  lemma {:induction false} ClientToServer(sent: seq<WireMessage>, events: seq<LineReader.Event>)
    requires AllFramable(sent)
    requires LineReader.Arrived(events) <= Concat(Frames(sent))
    ensures LineReader.Run(events).handled <= sent
    ensures LineReader.Arrived(events) == Concat(Frames(sent)) && !HasNewline(LineReader.Run(events).buffer)
            ==> LineReader.Run(events).handled == sent
  {
    var arrived, r := LineReader.Arrived(events), LineReader.Run(events);
    LineReader.HandledSoFar(events);
    FramesRoundTrip(sent);
    PrefixGivesPrefix(arrived, Concat(Frames(sent)));
    if !HasNewline(r.buffer) {
      LineReader.SameAsDrainAll(events);
    }
  }

  /** A command read from an admin's connection reaches every listener unchanged. */
  lemma RelayedCommandSurvives(line: string)
    requires '\n' !in line && Decode(line).Some?
    ensures var payload := Decode(line).value.payload;
            var frame := Encode(WireMessage(COMMAND, payload));
            Messages(frame) == [WireMessage(COMMAND, payload)]
  {
    DecodedIsFramable(line);
    var m := WireMessage(COMMAND, Decode(line).value.payload);
    FramesRoundTrip([m]);
    assert Frames([m]) == [Encode(m)];
    assert [Encode(m)][1..] == [];
    assert Concat([Encode(m)]) == Encode(m) + "" == Encode(m);
  }
}
