/** Which commands a client receives, and who is behind them. */
module EndToEndCommands {
  import opened Models
  import opened Text
  import opened Protocol
  import opened Lines
  import opened ClientChannels
  import WriteQueue

  // ---- The commands in a stream of frames ----

  function Commands(ms: seq<WireMessage>): seq<string> {
    if ms == [] then [] else (if ms[0].kind == COMMAND then [ms[0].payload] else []) + Commands(ms[1..])
  }

  lemma CommandsAppend(a: seq<WireMessage>, b: seq<WireMessage>)
    ensures Commands(a + b) == Commands(a) + Commands(b)
  {
    if a == [] {
      assert a + b == b;
    } else {
      assert (a + b)[1..] == a[1..] + b;
      CommandsAppend(a[1..], b);
      Associative(if a[0].kind == COMMAND then [a[0].payload] else [], Commands(a[1..]), Commands(b));
    }
  }

  lemma {:induction false} CommandIsReceived(ms: seq<WireMessage>, c: string)
    ensures CommandReceived(c) in SignalsOfAll(ms) <==> c in Commands(ms)
  {
    if ms != [] {
      CommandIsReceived(ms[1..], c);
      assert CommandReceived(c) in SignalsOf(ms[0]) <==> ms[0].kind == COMMAND && ms[0].payload == c;
    }
  }

  lemma {:induction false} CommandIsMessage(ms: seq<WireMessage>, c: string)
    ensures c in Commands(ms) <==> WireMessage(COMMAND, c) in ms
  {
    if ms != [] {
      CommandIsMessage(ms[1..], c);
      assert ms == [ms[0]] + ms[1..];
    }
  }

  /** A command is relayed as it was decoded from a line. */
  predicate Sayable(m: WireMessage) {
    IsWord(m.kind) && (m.kind == COMMAND ==> NoNewline(m.payload) && EndsClean(m.payload))
  }

  /** The payload has line feeds, and a line behind the first is read as a command. */
  predicate HidesCommand(m: WireMessage) { Commands(Messages(LaterLines(m.payload))) != [] }

  lemma OneLineHidesNothing(m: WireMessage)
    requires NoNewline(m.payload)
    ensures !HidesCommand(m)
  {
    FirstLineIs(m.payload);
    NewlineAbsent(m.payload);
    NewlineAbsent("");
  }

  lemma FrameCommands(m: WireMessage)
    requires Sayable(m)
    ensures Commands(Messages(Encode(m))) == Commands([m]) + Commands(Messages(LaterLines(m.payload)))
  {
    FrameMessages(m);
    var first := Messages(Encode(m))[0];
    CommandsAppend([first], Messages(LaterLines(m.payload)));
    FirstLineIs(m.payload);
    assert m.kind == COMMAND ==> first == m;
    assert [first][1..] == [] && [m][1..] == [];
  }

  lemma DeliveredStep(ms: seq<WireMessage>)
    requires ms != [] && Sayable(ms[0])
    ensures Commands(ms) == Commands([ms[0]]) + Commands(ms[1..])
    ensures Commands(Delivered(ms))
         == Commands([ms[0]]) + Commands(Messages(LaterLines(ms[0].payload))) + Commands(Delivered(ms[1..]))
  {
    assert ms == [ms[0]] + ms[1..];
    CommandsAppend([ms[0]], ms[1..]);
    FrameCommands(ms[0]);
    CommandsAppend(Messages(Encode(ms[0])), Delivered(ms[1..]));
  }

  lemma {:induction false} NothingHidden(ms: seq<WireMessage>)
    requires forall m | m in ms :: Sayable(m) && !HidesCommand(m)
    ensures Commands(Delivered(ms)) == Commands(ms)
  {
    if ms != [] {
      assert ms[0] in ms;
      DeliveredStep(ms);
      NothingHidden(ms[1..]);
    }
  }

  lemma {:induction false} HiddenIsExtra(ms: seq<WireMessage>)
    requires forall m | m in ms :: Sayable(m)
    ensures |Commands(ms)| <= |Commands(Delivered(ms))|
    ensures (exists m | m in ms :: HidesCommand(m)) ==> |Commands(ms)| < |Commands(Delivered(ms))|
  {
    if ms != [] {
      assert ms[0] in ms;
      DeliveredStep(ms);
      HiddenIsExtra(ms[1..]);
    }
  }

  /** The commands read from a stream of frames are those that were sent exactly if no payload hides one. */
  lemma CommandsAreThoseSent(ms: seq<WireMessage>)
    requires forall m | m in ms :: Sayable(m)
    ensures Commands(Messages(Concat(Frames(ms)))) == Commands(ms) <==> forall m | m in ms :: !HidesCommand(m)
  {
    FramesApart(ms);
    HiddenIsExtra(ms);
    if forall m | m in ms :: !HidesCommand(m) {
      NothingHidden(ms);
    }
  }

  lemma CommandsOfPrefix(a: seq<WireMessage>, b: seq<WireMessage>)
    requires a <= b
    ensures Commands(a) <= Commands(b)
  {
    assert b == a + b[|a|..];
    CommandsAppend(a, b[|a|..]);
  }

  /**
    A client that has received any part of what a session wrote, cut in any way, acts on commands that
    were handed to sendMessage and no others, if no payload hides one.
   */
  lemma {:induction false} ReceivedWasSent(events: seq<WriteQueue.Event>, chunks: seq<string>, c: string)
    requires forall m | m in WriteQueue.Sent(events) :: Sayable(m) && !HidesCommand(m)
    requires Concat(chunks) <= WriteQueue.Wire(WriteQueue.Run(events))
    requires CommandReceived(c) in Feed("", chunks)
    ensures WireMessage(COMMAND, c) in WriteQueue.Sent(events)
  {
    var sent, stream := WriteQueue.Sent(events), Concat(chunks);
    WriteQueue.AlwaysConsistent(events);
    WriteQueue.WireIsPrefix(WriteQueue.Run(events), sent);
    CommandsAreThoseSent(sent);
    PrefixGivesPrefix(stream, Concat(Frames(sent)));
    CommandsOfPrefix(Messages(stream), Messages(Concat(Frames(sent))));
    ChunkingInvariance("", chunks);
    assert "" + stream == stream;
    CommandIsReceived(Messages(stream), c);
    CommandIsMessage(sent, c);
  }
}
