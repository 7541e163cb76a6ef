/** Splitting a byte stream into lines: the one specification both readers meet. */
module Lines {
  import opened Models
  import opened Text
  import opened Protocol

  datatype Split = Split(lines: seq<string>, rest: string)

  predicate HasNewline(s: string) { Find(s, "\n", 0).Some? }

  /** The complete lines of `s`, without their newlines, and what follows the last newline. */
  function SplitLines(s: string): Split {
    match Find(s, "\n", 0)
    case None => Split([], s)
    case Some(i) =>
      var tail := SplitLines(s[i + 1..]);
      Split([s[..i]] + tail.lines, tail.rest)
  }

  function Unlines(lines: seq<string>): string {
    if lines == [] then "" else lines[0] + "\n" + Unlines(lines[1..])
  }

  predicate NewlineFree(lines: seq<string>) { forall l | l in lines :: '\n' !in l }

  lemma FirstNewline(line: string, rest: string)
    requires '\n' !in line
    ensures Find(line + "\n" + rest, "\n", 0) == Some(|line|)
  {
    var s := line + "\n" + rest;
    forall i | 0 <= i < |line|
      ensures !MatchesAt(s, "\n", i)
    {
      assert s[i..i + 1] == [line[i]];
      assert line[i] in line;
    }
    assert s[|line|..|line| + 1] == "\n";
    FindIs(s, "\n", 0, |line|);
  }

  lemma NewlineAbsent(s: string)
    ensures HasNewline(s) <==> '\n' in s
  {
    if HasNewline(s) {
      var i := Find(s, "\n", 0).value;
      assert s[i] == s[i..i + 1][0];
    } else if '\n' in s {
      var i :| 0 <= i < |s| && s[i] == '\n';
      assert s[i..i + 1] == "\n";
      assert MatchesAt(s, "\n", i);
      assert false;
    }
  }

  lemma CutAtFirstNewline(s: string, i: nat)
    requires Find(s, "\n", 0) == Some(i)
    ensures '\n' !in s[..i] && s == s[..i] + "\n" + s[i + 1..]
  {
    assert s[i] == s[i..i + 1][0];
    forall k | 0 <= k < i
      ensures s[k] != '\n'
    {
      assert !MatchesAt(s, "\n", k);
      assert s[k..k + 1] == [s[k]];
    }
  }

  lemma UnlinesCons(line: string, lines: seq<string>)
    ensures Unlines([line] + lines) == line + "\n" + Unlines(lines)
  {
  }

  lemma UnlinesAppend(a: seq<string>, b: seq<string>)
    ensures Unlines(a + b) == Unlines(a) + Unlines(b)
  {
    if a == [] {
      assert a + b == b;
    } else {
      assert (a + b)[1..] == a[1..] + b;
      UnlinesAppend(a[1..], b);
    }
  }

  /** Splitting forgets nothing and cuts at every newline. */
  lemma {:induction false} SplitIsExact(s: string)
    ensures Unlines(SplitLines(s).lines) + SplitLines(s).rest == s
    ensures NewlineFree(SplitLines(s).lines) && '\n' !in SplitLines(s).rest
  {
    match Find(s, "\n", 0)
    case None =>
      NewlineAbsent(s);
    case Some(i) =>
      var tail := SplitLines(s[i + 1..]);
      SplitIsExact(s[i + 1..]);
      CutAtFirstNewline(s, i);
      UnlinesCons(s[..i], tail.lines);
      Associative(s[..i] + "\n", Unlines(tail.lines), tail.rest);
  }

  /** No other list of lines and remainder makes up the same bytes. */
  lemma {:induction false} SplitIsUnique(lines: seq<string>, rest: string)
    requires NewlineFree(lines) && '\n' !in rest
    ensures SplitLines(Unlines(lines) + rest) == Split(lines, rest)
  {
    var s := Unlines(lines) + rest;
    NewlineAbsent(s);
    if lines == [] {
      assert s == rest;
    } else {
      var tail := Unlines(lines[1..]) + rest;
      assert s == lines[0] + "\n" + tail;
      FirstNewline(lines[0], tail);
      assert s[|lines[0]| + 1..] == tail && s[..|lines[0]|] == lines[0];
      SplitIsUnique(lines[1..], rest);
    }
  }

  /** Splitting can be resumed: only the unfinished remainder matters. */
  lemma SplitResumes(a: string, b: string)
    ensures var first := SplitLines(a);
            var second := SplitLines(first.rest + b);
            SplitLines(a + b) == Split(first.lines + second.lines, second.rest)
  {
    var first := SplitLines(a);
    var second := SplitLines(first.rest + b);
    SplitIsExact(a);
    SplitIsExact(first.rest + b);
    UnlinesAppend(first.lines, second.lines);
    var u, v := Unlines(first.lines), Unlines(second.lines);
    Associative(u, first.rest, b);
    Associative(u, v, second.rest);
    SplitIsUnique(first.lines + second.lines, second.rest);
  }

  // ---- Messages ----

  function DecodeAll(lines: seq<string>): seq<WireMessage> {
    if lines == [] then []
    else
      match Decode(lines[0])
      case None => DecodeAll(lines[1..])
      case Some(m) => [m] + DecodeAll(lines[1..])
  }

  lemma DecodeAllAppend(a: seq<string>, b: seq<string>)
    ensures DecodeAll(a + b) == DecodeAll(a) + DecodeAll(b)
  {
    if a == [] {
      assert a + b == b;
    } else {
      assert (a + b)[1..] == a[1..] + b;
      DecodeAllAppend(a[1..], b);
    }
  }

  /** The messages carried by the complete lines of a byte string. */
  function Messages(s: string): seq<WireMessage> { DecodeAll(SplitLines(s).lines) }

  /** Taking one line off the front takes its message, if it has one, off the front. */
  lemma MessagesTakeLine(s: string, i: nat)
    requires Find(s, "\n", 0) == Some(i)
    ensures Messages(s) == DecodeAll([s[..i]]) + Messages(s[i + 1..])
    ensures Remainder(s) == Remainder(s[i + 1..])
  {
    DecodeAllAppend([s[..i]], SplitLines(s[i + 1..]).lines);
  }

  lemma NoLine(s: string)
    requires Find(s, "\n", 0) == None
    ensures Messages(s) == [] && Remainder(s) == s
  {
  }

  function Remainder(s: string): string { SplitLines(s).rest }

  lemma MessagesResume(a: string, b: string)
    ensures Messages(a + b) == Messages(a) + Messages(Remainder(a) + b)
    ensures Remainder(a + b) == Remainder(Remainder(a) + b)
  {
    SplitResumes(a, b);
    DecodeAllAppend(SplitLines(a).lines, SplitLines(Remainder(a) + b).lines);
  }

  function Concat(parts: seq<string>): string {
    if parts == [] then "" else parts[0] + Concat(parts[1..])
  }

  lemma ConcatAppend(a: seq<string>, b: seq<string>)
    ensures Concat(a + b) == Concat(a) + Concat(b)
  {
    if a == [] {
      assert a + b == b;
    } else {
      assert (a + b)[1..] == a[1..] + b;
      ConcatAppend(a[1..], b);
    }
  }

  function Frames(ms: seq<WireMessage>): seq<string> { seq(|ms|, i requires 0 <= i < |ms| => Encode(ms[i])) }

  predicate AllFramable(ms: seq<WireMessage>) { forall m | m in ms :: Framable(m) }

  /** A frame in front of anything yields its message first. */
  lemma FrameFirst(m: WireMessage, rest: string)
    requires Framable(m)
    ensures Messages(Encode(m) + rest) == [m] + Messages(rest) && Remainder(Encode(m) + rest) == Remainder(rest)
  {
    var line := m.kind + " " + m.payload;
    var s := line + "\n" + rest;
    FirstNewline(line, rest);
    assert s[..|line|] == line && s[|line| + 1..] == rest;
    MessagesTakeLine(s, |line|);
    DecodeEncoded(m);
    StripIsIdentity(m.payload);
    assert [line][1..] == [];
  }

  // ---- One frame whose payload may have line feeds ----

  predicate IsWord(kind: string) { kind != "" && ' ' !in kind && NoNewline(kind) }

  function FirstLine(s: string): string {
    match Find(s, "\n", 0)
    case None => s
    case Some(i) => s[..i]
  }

  /** The lines behind the first. */
  function LaterLines(s: string): string {
    match Find(s, "\n", 0)
    case None => ""
    case Some(i) => s[i + 1..] + "\n"
  }

  lemma FirstLineIs(s: string)
    ensures FirstLine(s) <= s && NoNewline(FirstLine(s))
    ensures FirstLine(s) != s ==> s[|FirstLine(s)|] == '\n'
    ensures NoNewline(s) <==> FirstLine(s) == s
    ensures s + "\n" == FirstLine(s) + "\n" + LaterLines(s)
  {
    NewlineAbsent(s);
    if HasNewline(s) {
      var i := Find(s, "\n", 0).value;
      CutAtFirstNewline(s, i);
      Associative(s[..i] + "\n", s[i + 1..], "\n");
    }
  }

  /** Reading one frame: its first line is the message sent, cut short; whatever follows is read as further messages. */
  lemma FrameMessages(m: WireMessage)
    requires IsWord(m.kind)
    ensures Messages(Encode(m))
         == [m.(payload := StripLineEnds(FirstLine(m.payload)))] + Messages(LaterLines(m.payload))
    ensures Remainder(Encode(m)) == Remainder(LaterLines(m.payload))
    ensures NoNewline(m.payload) ==> LaterLines(m.payload) == "" && Messages("") == []
  {
    var first, later := FirstLine(m.payload), LaterLines(m.payload);
    var line := m.kind + " " + first;
    FirstLineIs(m.payload);
    NewlineAbsent("");
    NewlineAbsent(m.payload);
    Associative(m.kind + " ", m.payload, "\n");
    Associative(m.kind + " ", first, "\n" + later);
    Associative(first, "\n", later);
    Associative(line, "\n", later);
    assert Encode(m) == line + "\n" + later;
    assert '\n' !in line;
    FirstNewline(line, later);
    MessagesTakeLine(Encode(m), |line|);
    assert Encode(m)[..|line|] == line && Encode(m)[|line| + 1..] == later;
    DecodeEncoded(m.(payload := first));
    assert [line][1..] == [];
  }

  /** What the client reads first of a frame. */
  function FirstMessage(m: WireMessage): (r: WireMessage)
    requires IsWord(m.kind)
    ensures r.kind == m.kind && r.payload <= m.payload
    ensures NoNewline(m.payload) && EndsClean(m.payload) ==> r == m && Messages(Encode(m)) == [m]
  {
    FrameMessages(m);
    FirstLineIs(m.payload);
    Messages(Encode(m))[0]
  }

  /** If it is not the whole payload, the payload was cut before a line end. */
  lemma FirstMessageIsCut(m: WireMessage)
    requires IsWord(m.kind)
    ensures var r := FirstMessage(m).payload; r != m.payload ==> |r| < |m.payload| && IsLineEnd(m.payload[|r|])
    ensures NoNewline(FirstMessage(m).payload)
  {
    FrameMessages(m);
    FirstLineIs(m.payload);
  }

  predicate NoLineEnds(s: string) { forall i | 0 <= i < |s| :: !IsLineEnd(s[i]) }

  /** The front of a payload, up to its first line feed, is kept as far as it does not end in a line end. */
  lemma FrontIsKept(m: WireMessage, front: string)
    requires IsWord(m.kind) && front <= m.payload && NoNewline(front) && EndsClean(front)
    ensures front <= FirstMessage(m).payload
  {
    var first := FirstLine(m.payload);
    FrameMessages(m);
    FirstLineIs(m.payload);
    assert forall i | 0 <= i < |front| :: front[i] == m.payload[i];
    assert front != "" ==> first[|front| - 1] == front[|front| - 1];
  }

  /** A payload is cut within `text`, or kept at least up to the mark behind it. */
  lemma KeptWithin(m: WireMessage, head: string, text: string, end: string, mark: string) returns (j: nat)
    requires IsWord(m.kind) && m.payload == head + (text + end) && mark <= end && mark != ""
    requires NoNewline(head) && EndsClean(head) && NoLineEnds(mark)
    ensures j <= |text + end| && FirstMessage(m).payload == head + (text + end)[..j]
    ensures j < |text| || (j >= |text| + |mark| && NoNewline(text))
  {
    var r := FirstMessage(m).payload;
    FrontIsKept(m, head);
    j := |r| - |head|;
    assert r == m.payload[..|r|];
    if j >= |text| {
      FirstMessageIsCut(m);
      assert forall i | 0 <= i < |text| :: text[i] == r[|head| + i];
      var front := head + (text + mark);
      assert front[|front| - 1] == mark[|mark| - 1];
      FrontIsKept(m, front);
    }
  }

  /** The messages a client reads from frames, each read by itself. */
  function Delivered(ms: seq<WireMessage>): seq<WireMessage> {
    if ms == [] then [] else Messages(Encode(ms[0])) + Delivered(ms[1..])
  }

  lemma FrameEndsLine(m: WireMessage)
    ensures Remainder(Encode(m)) == ""
  {
    var s := m.kind + " " + m.payload;
    SplitIsExact(s);
    var last := SplitLines(s).rest;
    UnlinesAppend(SplitLines(s).lines, [last]);
    UnlinesCons(last, []);
    Associative(Unlines(SplitLines(s).lines), last, "\n");
    assert Encode(m) == Unlines(SplitLines(s).lines + [last]) + "";
    SplitIsUnique(SplitLines(s).lines + [last], "");
  }

  /** Every frame ends its last line, so a stream of frames is read frame by frame. */
  lemma {:induction false} FramesApart(ms: seq<WireMessage>)
    ensures Messages(Concat(Frames(ms))) == Delivered(ms) && Remainder(Concat(Frames(ms))) == ""
  {
    if ms == [] {
      assert Frames(ms) == [];
      NewlineAbsent("");
    } else {
      var rest := Concat(Frames(ms[1..]));
      assert Frames(ms)[1..] == Frames(ms[1..]);
      FramesApart(ms[1..]);
      FrameEndsLine(ms[0]);
      MessagesResume(Encode(ms[0]), rest);
      assert "" + rest == rest;
    }
  }

  lemma NewlineInMiddle(head: string, text: string, end: string)
    requires NoLineEnds(head) && NoLineEnds(end)
    ensures NoNewline(head + (text + end)) <==> NoNewline(text)
    ensures end != "" ==> EndsClean(head + (text + end))
  {
    var s := head + (text + end);
    assert forall i | 0 <= i < |text| :: s[|head| + i] == text[i];
    assert end != "" ==> s[|s| - 1] == end[|end| - 1];
  }

  /** A cut before a line end falls into the one part that can have line ends. */
  lemma CutFallsInto(head: string, text: string, end: string, r: string)
    requires NoLineEnds(head) && NoLineEnds(end)
    requires r <= head + (text + end) && |r| < |head + (text + end)| && IsLineEnd((head + (text + end))[|r|])
    ensures |head| <= |r| < |head| + |text| && r == head + text[..|r| - |head|]
  {
    var s := head + (text + end);
    assert forall k | 0 <= k < |s| :: s[k] == if k < |head| then head[k] else (text + end)[k - |head|];
    assert forall k | |text| <= k < |text + end| :: (text + end)[k] == end[k - |text|];
    assert r == s[..|r|];
  }

  /** Reading the concatenated frames gives the messages back and leaves nothing over. */
  lemma {:induction false} FramesRoundTrip(ms: seq<WireMessage>)
    requires AllFramable(ms)
    ensures Messages(Concat(Frames(ms))) == ms && Remainder(Concat(Frames(ms))) == ""
  {
    if ms == [] {
      assert Frames(ms) == [];
      NewlineAbsent("");
    } else {
      FramesRoundTrip(ms[1..]);
      assert ms[0] in ms && Frames(ms)[1..] == Frames(ms[1..]);
      assert Concat(Frames(ms)) == Encode(ms[0]) + Concat(Frames(ms[1..]));
      FrameFirst(ms[0], Concat(Frames(ms[1..])));
      assert [ms[0]] + ms[1..] == ms;
    }
  }

  /** Having only part of the stream gives only part of the messages, never different ones. */
  lemma PrefixGivesPrefix(part: string, whole: string)
    requires part <= whole
    ensures Messages(part) <= Messages(whole)
  {
    var missing := whole[|part|..];
    assert whole == part + missing;
    MessagesResume(part, missing);
  }
}
