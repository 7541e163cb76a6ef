/** The line framing of the wire protocol: one `KIND payload` line per message. */
module Protocol {
  import opened Models
  import opened Text

  predicate IsLineEnd(c: char) { c == '\r' || c == '\n' }

  predicate EndsClean(s: string) { s == "" || !IsLineEnd(s[|s| - 1]) }

  /** The longest prefix that does not end in CR or LF. */
  function StripLineEnds(s: string): (r: string)
    ensures r <= s && EndsClean(r)
    ensures forall i | |r| <= i < |s| :: IsLineEnd(s[i])
  {
    if EndsClean(s) then s else StripLineEnds(s[..|s| - 1])
  }

  function Encode(m: WireMessage): string {
    m.kind + " " + m.payload + "\n"
  }

  function Decode(line: string): Option<WireMessage> {
    match Find(line, " ", 0)
    case None => None
    case Some(space) =>
      if space == 0 then None
      else Some(WireMessage(line[..space], StripLineEnds(line[space + 1..])))
  }

  method EncodeWireMessage(m: WireMessage) returns (out: string)
    ensures out == Encode(m)
  {
    out := "";
    out := out + m.kind;
    out := out + [' '];
    out := out + m.payload;
    out := out + ['\n'];
  }

  method DecodeWireMessage(line: string) returns (r: Option<WireMessage>)
    ensures r == Decode(line)
  {
    if line == "" {
      return None;
    }
    var space := Find(line, " ", 0);
    if space == None {
      return None;
    }
    var kind, payload := line[..space.value], line[space.value + 1..];
    while payload != "" && IsLineEnd(payload[|payload| - 1])
      invariant StripLineEnds(payload) == StripLineEnds(line[space.value + 1..])
      decreases |payload|
    {
      payload := payload[..|payload| - 1];
    }
    if kind == "" {
      return None;
    }
    return Some(WireMessage(kind, payload));
  }

  lemma FindSpace(kind: string, rest: string)
    requires ' ' !in kind
    ensures Find(kind + " " + rest, " ", 0) == Some(|kind|)
  {
    var s := kind + " " + rest;
    forall i | 0 <= i < |kind|
      ensures !MatchesAt(s, " ", i)
    {
      assert s[i] == kind[i];
      assert s[i..i + 1] == [kind[i]];
      assert kind[i] in kind;
    }
    assert s[|kind|..|kind| + 1] == " ";
    FindIs(s, " ", 0, |kind|);
  }

  lemma StripIsIdentity(s: string)
    ensures StripLineEnds(s) == s <==> EndsClean(s)
  {
  }

  lemma DecodeLine(kind: string, rest: string)
    requires kind != "" && ' ' !in kind
    ensures Decode(kind + " " + rest) == Some(WireMessage(kind, StripLineEnds(rest)))
  {
    var line := kind + " " + rest;
    FindSpace(kind, rest);
    assert line[..|kind|] == kind && line[|kind| + 1..] == rest;
  }

  lemma StripNewline(s: string)
    ensures StripLineEnds(s + "\n") == StripLineEnds(s)
  {
  }

  /** What decoding yields for every encoded message whose kind is a non-empty word. */
  lemma DecodeEncoded(m: WireMessage)
    requires m.kind != "" && ' ' !in m.kind
    ensures Decode(Encode(m)) == Some(m.(payload := StripLineEnds(m.payload)))
    ensures Decode(m.kind + " " + m.payload) == Some(m.(payload := StripLineEnds(m.payload)))
  {
    DecodeLine(m.kind, m.payload);
    DecodeLine(m.kind, m.payload + "\n");
    StripNewline(m.payload);
    Associative(m.kind + " ", m.payload, "\n");
  }

  /** The exact domain on which a message survives framing. */
  lemma RoundTrip(m: WireMessage)
    ensures Decode(Encode(m)) == Some(m)
       <==> m.kind != "" && ' ' !in m.kind && EndsClean(m.payload)
  {
    if m.kind != "" && ' ' !in m.kind {
      DecodeEncoded(m);
    } else if Decode(Encode(m)).Some? {
      KindIsWord(Encode(m));
    }
  }

  /** Exactly the lines without a space, or with nothing before it, are no messages. */
  lemma DecodeFailsIff(line: string)
    ensures Decode(line) == None <==> ' ' !in line || line[0] == ' '
  {
    match Find(line, " ", 0)
    case None =>
      forall i | 0 <= i < |line|
        ensures line[i] != ' '
      {
        assert !MatchesAt(line, " ", i);
        assert line[i..i + 1] == [line[i]];
      }
    case Some(space) =>
      assert line[space] == line[space..space + 1][0];
      if line[0] == ' ' {
        assert line[0..1] == " ";
        assert MatchesAt(line, " ", 0);
      }
  }

  /** A message is the line up to its first space, and what follows without trailing line ends. */
  lemma DecodedParts(line: string)
    requires Decode(line).Some?
    ensures var m := Decode(line).value;
            && m.kind + " " + m.payload <= line && EndsClean(m.payload)
            && forall i | |m.kind| + 1 + |m.payload| <= i < |line| :: IsLineEnd(line[i])
  {
    var m, space := Decode(line).value, Find(line, " ", 0).value;
    var rest := line[space + 1..];
    assert line[space] == line[space..space + 1][0];
    assert line == m.kind + " " + rest && rest == m.payload + rest[|m.payload|..];
    assert forall i | |m.payload| <= i < |rest| :: rest[i] == line[space + 1 + i];
    assert forall i | space + 1 + |m.payload| <= i < |line| :: line[i] == rest[i - space - 1];
  }

  /** The decoder cuts at the first space, so a decoded kind is non-empty and contains none. */
  lemma KindIsWord(line: string)
    requires Decode(line).Some?
    ensures Decode(line).value.kind != "" && ' ' !in Decode(line).value.kind
  {
    var kind := Decode(line).value.kind;
    forall i | 0 <= i < |kind|
      ensures kind[i] != ' '
    {
      assert !MatchesAt(line, " ", i);
      assert line[i..i + 1] == [kind[i]];
    }
  }

  /** Messages whose frame occupies exactly one line. */
  predicate Framable(m: WireMessage) {
    && m.kind != "" && ' ' !in m.kind && '\n' !in m.kind
    && '\n' !in m.payload && EndsClean(m.payload)
  }

  /** A payload as decoding leaves it. */
  type LineText = s: string | NoNewline(s) && EndsClean(s) witness ""

  /** Whatever was decoded from a line can be relayed without loss. */
  lemma DecodedIsFramable(line: string)
    requires '\n' !in line && Decode(line).Some?
    ensures Framable(Decode(line).value)
  {
    var m, space := Decode(line).value, Find(line, " ", 0).value;
    KindIsWord(line);
    assert forall i | 0 <= i < |m.kind| :: m.kind[i] == line[i] && line[i] in line;
    assert forall i | 0 <= i < |m.payload| :: m.payload[i] == line[space + 1 + i] && line[space + 1 + i] in line;
  }
}
