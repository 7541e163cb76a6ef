/** The answer to a metrics request on its way over the wire to the administrator's client. */
module EndToEndResponses {
  import opened Models
  import opened Text
  import opened Protocol
  import opened Lines
  import opened JsonDecoder
  import opened JsonPrefixes
  import opened RawFields
  import opened MetricsJson
  import opened EndToEndProcesses
  import opened ResponseTexts
  import opened Accounts
  import opened Repository
  import opened Handlers

  // ---- What the client receives ----

  lemma AnswerKind()
    ensures IsWord(GET_METRICS_RESP)
  {
  }

  /** The answer about a stored snapshot. */
  function Answer(s: MetricsSnapshot, show: real -> string): WireMessage {
    AnswerKind();
    MetricsReply(Found(FromRow(s)), show)
  }

  /** The payload of the first message that the client makes of the answer's frame. */
  function Received(s: MetricsSnapshot, show: real -> string): string {
    AnswerKind();
    FirstMessage(Answer(s, show)).payload
  }

  lemma EndsInList(s: MetricsSnapshot, show: real -> string)
    ensures EndsDark(AfterTime(s, show)) && EndsDark(AfterNode(s, show)) && EndsDark(MetricsText(s, show))
  {
    EndsInBrace(Header(s, show)[2..], ListText(s.processes));
    RawPair(s.nodeName, s.timestampUtc, AfterTime(s, show));
    TimeSecond(s, show);
  }

  /** How far the answer was kept, measured from the opening quote of its node name. */
  lemma NodeKept(s: MetricsSnapshot, show: real -> string) returns (j: nat)
    ensures j <= |s.nodeName + AfterNode(FromRow(s), show)|
    ensures Received(s, show) == NodeHead() + (s.nodeName + AfterNode(FromRow(s), show))[..j]
    ensures j < |s.nodeName| || (j > |s.nodeName| + 3 && NoNewline(s.nodeName))
  {
    AnswerKind();
    TimeHeadIsKept("");
    NodeFirst(FromRow(s), show);
    TimeStarts(FromRow(s), show);
    assert AfterNode(FromRow(s), show)[..4] == "\",\"t";
    j := KeptWithin(Answer(s, show), NodeHead(), s.nodeName, AfterNode(FromRow(s), show), "\",\"t");
  }

  lemma TimeHeadIsKept(node: string)
    requires NoNewline(node)
    ensures NoNewline(TimeHead(node)) && EndsClean(TimeHead(node)) && NoNewline(NodeHead()) && EndsClean(NodeHead())
  {
    assert NoNewline("timestampUtc") && NoNewline("nodeName");
    assert TimeHead(node)[|TimeHead(node)| - 1] == '"' == NodeHead()[|NodeHead()| - 1];
  }

  lemma TimeKept(s: MetricsSnapshot, show: real -> string) returns (j: nat)
    requires NoNewline(s.nodeName)
    ensures j <= |s.timestampUtc + AfterTime(FromRow(s), show)|
    ensures Received(s, show) == TimeHead(s.nodeName) + (s.timestampUtc + AfterTime(FromRow(s), show))[..j]
    ensures j < |s.timestampUtc| || (j > |s.timestampUtc| + 3 && NoNewline(s.timestampUtc))
  {
    AnswerKind();
    TimeSecond(FromRow(s), show);
    TimeHeadIsKept(s.nodeName);
    LoadStarts(FromRow(s), show);
    assert AfterTime(FromRow(s), show)[..4] == "\",\"c";
    j := KeptWithin(Answer(s, show), TimeHead(s.nodeName), s.timestampUtc, AfterTime(FromRow(s), show), "\",\"c");
  }

  /** A node name that is read was not cut. */
  lemma CutNodeIsLost(node: string, e: string, j: nat)
    requires j < |node|
    ensures Lookup(ParseObject(NodeHead() + (node + e)[..j]), "nodeName") != Some(Str(node))
  {
    var part := node[..j] + "";
    assert (node + e)[..j] == part;
    HeadIsKeyed(part);
    ObjectOfMembers(Keyed("nodeName", "\"" + part));
    NameKeys();
    CutIsSafe();
    if Lookup(ParseObject(NodeHead() + part), "nodeName") == Some(Str(node)) {
      RawReadsBack("nodeName", node[..j], Cut(), node);
    }
  }

  lemma ReadNodeIsOneLine(s: MetricsSnapshot, show: real -> string)
    requires Lookup(ParseObject(Received(s, show)), "nodeName") == Some(Str(s.nodeName))
    ensures NoNewline(s.nodeName)
  {
    var j := NodeKept(s, show);
    if j < |s.nodeName| {
      CutNodeIsLost(s.nodeName, AfterNode(FromRow(s), show), j);
    }
  }

  /** A text that is cut at `j` behind the opening quote of its node name. */
  lemma NodeReadBack(node: string, e: string, j: nat)
    requires Ending(e) && EndsDark(e) && j <= |node + e| && (j < |node| || j > |node| + 3)
    requires forall m | m in Later(e) :: m.key != "nodeName"
    requires Lookup(ParseObject(NodeHead() + (node + e)[..j]), "nodeName") == Some(Str(node))
    ensures Plain(node)
  {
    var part, b := CutRegion(node, e, j);
    HeadIsKeyed(part + b.end);
    ObjectOfMembers(Keyed("nodeName", "\"" + (part + b.end)));
    NameKeys();
    RawReadsBack("nodeName", part, b, node);
  }

  /** With a plain timestamp the node name is read only if it is plain too. */
  lemma NodeIsPlain(s: MetricsSnapshot, show: real -> string)
    requires Prints(s.readings, show) && Plain(s.timestampUtc)
    requires Lookup(ParseObject(Received(s, show)), "nodeName") == Some(Str(s.nodeName))
    ensures Plain(s.nodeName)
  {
    var j := NodeKept(s, show);
    NodeEnding(s, show);
    EndsInList(FromRow(s), show);
    NodeReadBack(s.nodeName, AfterNode(FromRow(s), show), j);
  }

  lemma TimeReadBack(node: string, ts: string, e: string, j: nat)
    requires Plain(node) && Ending(e) && EndsDark(e) && j <= |ts + e| && (j < |ts| || j > |ts| + 3)
    requires forall m | m in Later(e) :: m.key != "timestampUtc"
    requires Lookup(ParseObject(TimeHead(node) + (ts + e)[..j]), "timestampUtc") == Some(Str(ts))
    ensures j > |ts| && Plain(ts)
  {
    NamedObject(node, (ts + e)[..j]);
    NameKeys();
    var part, b := CutRegion(ts, e, j);
    RawReadsBack("timestampUtc", part, b, ts);
  }

  /** And behind a clear node name the timestamp is read only if it is clear. */
  lemma TimeArrives(s: MetricsSnapshot, show: real -> string)
    requires Prints(s.readings, show) && Clear(s.nodeName)
    requires Lookup(ParseObject(Received(s, show)), "timestampUtc") == Some(Str(s.timestampUtc))
    ensures Clear(s.timestampUtc)
  {
    var j := TimeKept(s, show);
    TimeEnding(s, show);
    EndsInList(FromRow(s), show);
    TimeReadBack(s.nodeName, s.timestampUtc, AfterTime(FromRow(s), show), j);
  }

  /** Behind a plain node name the members from the timestamp on decide the timestamp. */
  lemma NamedObject(node: string, raw: string)
    requires Plain(node)
    ensures var ms := AllMembers(Keyed("timestampUtc", "\"" + raw));
            Lookup(ParseObject(TimeHead(node) + raw), "timestampUtc")
            == if ms.Some? then Lookup(ms.value, "timestampUtc") else None
  {
    var time := Keyed("timestampUtc", "\"" + raw);
    var first := [Member("nodeName", Str(node))];
    NameKeys();
    RawPair(node, raw, "");
    assert raw + "" == raw;
    QuotedThen(node, "," + time);
    ParsePlainValue(node, "," + time);
    MemberThen("nodeName", QuotedText(node), Str(node), time);
    ObjectOfMembers(Keyed("nodeName", QuotedText(node) + ("," + time)));
    LookupAbsent(first, "timestampUtc");
    if AllMembers(time).Some? {
      LookupAppend(first, AllMembers(time).value, "timestampUtc");
    }
  }

  /** With neither plain, each would have to be read inside the other, and so be the shorter one. */
  lemma OnePlainAtLeast(s: MetricsSnapshot, show: real -> string)
    requires Prints(s.readings, show)
    requires var root := ParseObject(Received(s, show));
             && Lookup(root, "nodeName") == Some(Str(s.nodeName))
             && Lookup(root, "timestampUtc") == Some(Str(s.timestampUtc))
    ensures Plain(s.nodeName) || Plain(s.timestampUtc)
  {
    ReadNodeIsOneLine(s, show);
    var j := TimeKept(s, show);
    TimeEnding(s, show);
    EndsInList(FromRow(s), show);
    var part, b := CutRegion(s.timestampUtc, AfterTime(FromRow(s), show), j);
    OneOfTwo(s.nodeName, s.timestampUtc, part, b);
  }

  lemma OneOfTwo(node: string, ts: string, part: string, b: Behind)
    requires Safe(b) && part <= ts && forall m | b.later(m) :: LaterKey(m.key)
    requires var root := ParseObject(TimeHead(node) + (part + b.end));
             Lookup(root, "nodeName") == Some(Str(node)) && Lookup(root, "timestampUtc") == Some(Str(ts))
    ensures Plain(node) || Plain(ts)
  {
    var second := Second("timestampUtc", part, b);
    NameKeys();
    RawPair(node, part, b.end);
    ObjectOfMembers(Keyed("nodeName", "\"" + (node + second.end)));
    SecondIsSafe("timestampUtc", part, b);
    RawReadsBack("nodeName", node, second, node);
    OtherReadsBack("nodeName", node, second, "timestampUtc", ts);
  }

  // ---- The exact response ----

  lemma TextIsAllOrNothing(s: MetricsSnapshot, show: real -> string)
    requires Prints(s.readings, show) && Plain(s.nodeName) && Plain(s.timestampUtc)
    ensures AllOrNothing(MetricsText(FromRow(s), show))
  {
    var fields, last := Header(FromRow(s), show), ListText(FromRow(s).processes);
    HeaderMeans(FromRow(s), show);
    AnyListCloses(s);
    FieldsClose(fields, last);
    assert ("{" + FieldsText(fields, last))[1..] == FieldsText(fields, last);
  }

  lemma CutResponse(s: MetricsSnapshot, show: real -> string)
    requires Prints(s.readings, show) && Plain(s.nodeName) && Plain(s.timestampUtc)
    requires Received(s, show) != MetricsText(FromRow(s), show)
    ensures ParseObject(Received(s, show)) == [] && ReadSnapshot(Received(s, show)) == NOTHING_READ
  {
    ReceivedIsPrefix(s, show);
    EndsInList(FromRow(s), show);
    TextIsAllOrNothing(s, show);
    ProperPrefixIsNothing(Received(s, show), MetricsText(FromRow(s), show));
    NothingIsRead();
  }

  lemma ReceivedIsPrefix(s: MetricsSnapshot, show: real -> string)
    ensures Received(s, show) <= MetricsText(FromRow(s), show)
  {
    AnswerKind();
  }

  lemma WholeResponse(s: MetricsSnapshot, show: real -> string)
    requires NoNewline(MetricsText(FromRow(s), show))
    ensures Received(s, show) == MetricsText(FromRow(s), show)
    ensures Messages(Encode(Answer(s, show))) == [Answer(s, show)]
  {
    AnswerKind();
    EndsInList(FromRow(s), show);
    var m := Answer(s, show);
    assert FirstMessage(m) == m;
  }

  lemma TextIsCut(s: MetricsSnapshot, show: real -> string)
    requires !NoNewline(MetricsText(FromRow(s), show))
    ensures Received(s, show) != MetricsText(FromRow(s), show)
  {
    AnswerKind();
    FirstMessageIsCut(Answer(s, show));
  }

  /**
    What the client reads of the answer, for every process list: the snapshot with the entries of
    non-negative pid, unless one of them has an illegible name; then nothing at all.
   */
  lemma {:induction false} ResponseIs(s: MetricsSnapshot, show: real -> string)
    requires Clear(s.nodeName) && Clear(s.timestampUtc) && Prints(s.readings, show)
    ensures ReadSnapshot(Received(s, show))
         == if AllLegible(NonNegative(s.processes)) then SeenAs(s, show) else NOTHING_READ
    ensures AllLegible(NonNegative(s.processes)) ==> Messages(Encode(Answer(s, show))) == [Answer(s, show)]
  {
    if AllDecodable(NonNegative(s.processes)) {
      TextOnOneLine(s, show);
    }
    if NoNewline(MetricsText(FromRow(s), show)) {
      WholeResponse(s, show);
      TextReads(s, show);
    } else {
      TextIsCut(s, show);
      CutResponse(s, show);
    }
  }

  /** The administrator sees the client's list exactly when no pid is negative and every name is legible. */
  lemma ResponseIsIdentity(s: MetricsSnapshot, show: real -> string)
    requires Clear(s.nodeName) && Clear(s.timestampUtc) && Prints(s.readings, show)
    ensures ReadSnapshot(Received(s, show)).processes == s.processes
       <==> Counting(s.processes) && AllLegible(s.processes)
  {
    ResponseIs(s, show);
    NonNegativeIsAll(s.processes);
  }

  // ---- And what the client shows ----

  /** The signals for the first message that comes of the answer. */
  function Raised(a: Account, s: MetricsSnapshot, show: real -> string): seq<ServiceSignal> {
    Signals(a, WireMessage(GET_METRICS_RESP, Received(s, show)))
  }

  /** Nothing in the snapshot is damaged on the way. */
  predicate Intact(s: MetricsSnapshot) {
    Clear(s.nodeName) && Clear(s.timestampUtc) && AllLegible(NonNegative(s.processes))
  }

  lemma ReadsNames(s: MetricsSnapshot, show: real -> string)
    requires Prints(s.readings, show) && ReadSnapshot(Received(s, show)) == SeenAs(s, show)
    ensures var root := ParseObject(Received(s, show));
            && (s.nodeName != "" ==> Lookup(root, "nodeName") == Some(Str(s.nodeName)))
            && (s.timestampUtc != "" ==> Lookup(root, "timestampUtc") == Some(Str(s.timestampUtc)))
  {
  }

  lemma OnlyClearNamesAreRead(s: MetricsSnapshot, show: real -> string)
    requires Prints(s.readings, show) && ReadSnapshot(Received(s, show)) == SeenAs(s, show)
    ensures Clear(s.nodeName) && Clear(s.timestampUtc)
  {
    ReadsNames(s, show);
    if s.nodeName != "" {
      if s.timestampUtc != "" {
        OnePlainAtLeast(s, show);
      }
      ReadNodeIsOneLine(s, show);
      if Plain(s.timestampUtc) {
        NodeIsPlain(s, show);
      }
    }
    if s.timestampUtc != "" {
      TimeArrives(s, show);
    }
  }

  lemma OnlyIntactIsShown(s: MetricsSnapshot, show: real -> string)
    requires Prints(s.readings, show) && ReadSnapshot(Received(s, show)) == SeenAs(s, show)
    ensures Intact(s)
  {
    OnlyClearNamesAreRead(s, show);
    ResponseIs(s, show);
  }

  /** With clear header strings the answer is never taken for an error message. */
  lemma ResponseIsNoError(s: MetricsSnapshot, show: real -> string)
    requires Clear(s.nodeName) && Clear(s.timestampUtc) && Prints(s.readings, show)
    ensures Lookup(ParseObject(Received(s, show)), "error") == None
  {
    if NoNewline(MetricsText(FromRow(s), show)) {
      WholeResponse(s, show);
      TextIsNoError(s, show);
    } else {
      TextIsCut(s, show);
      CutResponse(s, show);
    }
  }

  lemma IntactIsShown(a: Account, s: MetricsSnapshot, show: real -> string)
    requires Prints(s.readings, show) && Intact(s)
    ensures Raised(a, s, show) == [NodeMetricsReceived(SeenAs(s, show))]
  {
    ResponseIs(s, show);
    ResponseIsNoError(s, show);
  }

  /**
    The exact snapshots that the administrator is shown, and shown as they were: quotes, backslashes
    and line feeds in the node name or timestamp are never harmless, whatever they are followed by.
   */
  lemma {:induction false} ShownIffIntact(a: Account, s: MetricsSnapshot, show: real -> string)
    requires Prints(s.readings, show)
    ensures Raised(a, s, show) == [NodeMetricsReceived(SeenAs(s, show))] <==> Intact(s)
  {
    if Intact(s) {
      IntactIsShown(a, s, show);
    } else if Raised(a, s, show) == [NodeMetricsReceived(SeenAs(s, show))] {
      OnlyIntactIsShown(s, show);
    }
  }

  // ---- A name that reads as an error message ----

  /** A node name that closes its quote and goes on with a member of its own. */
  function Injected(x: string, y: string): string { x + ("\"" + ("," + Keyed("error", "\"" + y))) }

  lemma ErrorKey()
    ensures Clear("error")
  {
  }

  lemma InjectedMembers(x: string, y: string, time: string)
    requires Plain(x) && Plain(y) && AllMembers(time).Some?
    ensures ParseObject(NodeHead() + (Injected(x, y) + ("\"" + ("," + time))))
         == [Member("nodeName", Str(x))] + ([Member("error", Str(y))] + AllMembers(time).value)
  {
    var error := Keyed("error", QuotedText(y) + ("," + time));
    NameKeys();
    ErrorKey();
    InjectedPieces(x, y, time);
    ParsePlainValue(y, "," + time);
    MemberThen("error", QuotedText(y), Str(y), time);
    ParsePlainValue(x, "," + error);
    MemberThen("nodeName", QuotedText(x), Str(x), error);
    ObjectOfMembers(Keyed("nodeName", QuotedText(x) + ("," + error)));
  }

  lemma InjectedPieces(x: string, y: string, time: string)
    ensures NodeHead() + (Injected(x, y) + ("\"" + ("," + time)))
         == "{" + Keyed("nodeName", QuotedText(x) + ("," + Keyed("error", QuotedText(y) + ("," + time))))
  {
    var e := "\"" + ("," + time);
    QuotedThen(y, "," + time);
    OpeningIs("error", y);
    OpeningIs("error", y + e);
    Associative(Opening("error"), y, e);
    Associative(",", Keyed("error", "\"" + y), e);
    Associative("\"", "," + Keyed("error", "\"" + y), e);
    Associative(x, "\"" + ("," + Keyed("error", "\"" + y)), e);
    QuotedThen(x, "," + Keyed("error", QuotedText(y) + ("," + time)));
    HeadIsKeyed(Injected(x, y) + e);
  }

  lemma InjectedIsOneLine(x: string, y: string)
    requires NoNewline(x) && NoNewline(y)
    ensures NoNewline(Injected(x, y))
  {
    ErrorKey();
    NoNewlineInKeyed("error", "\"" + y);
  }

  lemma TimeIsRead(s: MetricsSnapshot, show: real -> string)
    requires Prints(s.readings, show) && Plain(s.timestampUtc) && AllDecodable(NonNegative(s.processes))
    ensures AllMembers(TimeOn(FromRow(s), show)).Some?
    ensures forall m | m in AllMembers(TimeOn(FromRow(s), show)).value :: m.key != "error" && m.key != "nodeName"
  {
    SurvivorsOfNonNegative(s.processes);
    ListReads(NonNegative(s.processes));
    LoadMeans(FromRow(s), show);
    ReadFields(Header(FromRow(s), show)[2..], ListText(FromRow(s).processes));
    TimeCloses(s, show);
    TimeMembers(s, show);
  }

  lemma InjectedObject(s: MetricsSnapshot, show: real -> string, x: string, y: string) returns (ms: seq<Member>)
    requires Clear(x) && Clear(y) && s.nodeName == Injected(x, y)
    requires Clear(s.timestampUtc) && AllLegible(NonNegative(s.processes)) && Prints(s.readings, show)
    ensures forall m | m in ms :: m.key != "error" && m.key != "nodeName"
    ensures ParseObject(Received(s, show)) == [Member("nodeName", Str(x))] + ([Member("error", Str(y))] + ms)
  {
    var time := TimeOn(FromRow(s), show);
    InjectedIsOneLine(x, y);
    TextOnOneLine(s, show);
    WholeResponse(s, show);
    NodeFirst(FromRow(s), show);
    TimeIsRead(s, show);
    InjectedMembers(x, y, time);
    ms := AllMembers(time).value;
  }

  /** Such a node name leaves the answer readable, but as an error message of a node with a shorter name. */
  lemma ErrorInName(a: Account, s: MetricsSnapshot, show: real -> string, x: string, y: string)
    requires Clear(x) && Clear(y) && s.nodeName == Injected(x, y)
    requires Clear(s.timestampUtc) && AllLegible(NonNegative(s.processes)) && Prints(s.readings, show)
    ensures ReadSnapshot(Received(s, show)).nodeName == x && Raised(a, s, show) == []
  {
    var ms := InjectedObject(s, show, x, y);
    InjectedLookup(x, y, ms);
  }

  lemma InjectedLookup(x: string, y: string, ms: seq<Member>)
    requires forall m | m in ms :: m.key != "error" && m.key != "nodeName"
    ensures var root := [Member("nodeName", Str(x))] + ([Member("error", Str(y))] + ms);
            Lookup(root, "nodeName") == Some(Str(x)) && Lookup(root, "error") == Some(Str(y))
  {
    var node, error := [Member("nodeName", Str(x))], [Member("error", Str(y))];
    LookupAbsent(ms, "error");
    LookupAbsent(ms, "nodeName");
    LookupAbsent(error, "nodeName");
    LookupAppend(error, ms, "error");
    LookupAppend(error, ms, "nodeName");
    LookupAppend(node, error + ms, "error");
    LookupAppend(node, error + ms, "nodeName");
    OneMember(Member("nodeName", Str(x)));
    OneMember(Member("error", Str(y)));
  }

  // ---- From the table to the client ----

  /** A stored snapshot that no row of its node is later than is the one found. */
  lemma StoredIsFound(t: Tables, s: MetricsSnapshot)
    requires Written(t)
    requires forall x | x in t.metrics && x.nodeName == s.nodeName :: !LexLess(s.timestampUtc, x.timestampUtc)
    ensures LatestSnapshot(Insert(t, s), s.nodeName) == Found(FromRow(s))
  {
    var row := RowOf(t.lastMetricId + 1, s);
    InsertKeepsWritten(t, s);
    InsertedIsLatest(t.metrics, row);
    ReadWritten(row.id, s);
  }

  /** It is shown as it was exactly if it is intact. */
  lemma StoredSnapshotComesBack(t: Tables, s: MetricsSnapshot, show: real -> string, a: Account)
    requires Written(t) && Prints(s.readings, show)
    requires forall x | x in t.metrics && x.nodeName == s.nodeName :: !LexLess(s.timestampUtc, x.timestampUtc)
    ensures var reading := LatestSnapshot(Insert(t, s), s.nodeName);
            && IsWord(GET_METRICS_RESP) && reading.Found?
            && (Signals(a, FirstMessage(MetricsReply(reading, show))) == [NodeMetricsReceived(SeenAs(s, show))]
                <==> Intact(s))
  {
    AnswerKind();
    StoredIsFound(t, s);
    ShownIffIntact(a, s, show);
  }
}
