/** The text of a metrics response: its two raw strings, what stands behind them, and its line feeds. */
module ResponseTexts {
  import opened Models
  import opened Text
  import opened JsonDecoder
  import opened RawFields
  import opened ProcessList
  import opened MetricsJson
  import opened ProcessEntries
  import opened EndToEndProcesses

  // ---- The text of the answer around its two raw strings ----

  function LoadOn(s: MetricsSnapshot, show: real -> string): string {
    FieldsText(Header(s, show)[2..], ListText(s.processes))
  }

  function AfterTime(s: MetricsSnapshot, show: real -> string): string { "\"" + ("," + LoadOn(s, show)) }

  function TimeOn(s: MetricsSnapshot, show: real -> string): string {
    Keyed("timestampUtc", "\"" + (s.timestampUtc + AfterTime(s, show)))
  }

  function AfterNode(s: MetricsSnapshot, show: real -> string): string { "\"" + ("," + TimeOn(s, show)) }

  /** A key up to the opening quote of its value. */
  function Opening(key: string): string { "\"" + (key + ("\"" + (":" + "\""))) }

  function NodeHead(): string { "{" + Opening("nodeName") }

  function TimeMark(): string { "\"" + ("," + Opening("timestampUtc")) }

  function TimeHead(node: string): string { NodeHead() + (node + TimeMark()) }

  lemma OpeningIs(key: string, tail: string)
    ensures Opening(key) + tail == Keyed(key, "\"" + tail)
  {
    Associative(":", "\"", tail);
    Associative("\"", ":" + "\"", tail);
    Associative(key, "\"" + (":" + "\""), tail);
    Associative("\"", key + ("\"" + (":" + "\"")), tail);
  }

  lemma HeadIsKeyed(tail: string)
    ensures "{" + Keyed("nodeName", "\"" + tail) == NodeHead() + tail
  {
    OpeningIs("nodeName", tail);
    Associative("{", Opening("nodeName"), tail);
  }

  lemma TimeIsField(s: MetricsSnapshot, show: real -> string)
    ensures TimeOn(s, show) == FieldsText(Header(s, show)[1..], ListText(s.processes))
  {
    QuotedThen(s.timestampUtc, "," + LoadOn(s, show));
    assert Header(s, show)[1..][1..] == Header(s, show)[2..];
  }

  lemma NodeFirst(s: MetricsSnapshot, show: real -> string)
    ensures MetricsText(s, show) == NodeHead() + (s.nodeName + AfterNode(s, show))
  {
    TimeIsField(s, show);
    QuotedThen(s.nodeName, "," + TimeOn(s, show));
    HeadIsKeyed(s.nodeName + AfterNode(s, show));
  }

  /** The node name and the timestamp, as two raw texts. */
  lemma RawPair(node: string, t: string, e: string)
    ensures SecondEnd("timestampUtc", t, e) == TimeMark() + (t + e)
    ensures "{" + Keyed("nodeName", "\"" + (node + SecondEnd("timestampUtc", t, e))) == TimeHead(node) + (t + e)
  {
    OpeningIs("timestampUtc", t + e);
    Associative(",", Opening("timestampUtc"), t + e);
    Associative("\"", "," + Opening("timestampUtc"), t + e);
    HeadIsKeyed(node + (TimeMark() + (t + e)));
    Associative(node, TimeMark(), t + e);
    Associative(NodeHead(), node + TimeMark(), t + e);
  }

  lemma TimeSecond(s: MetricsSnapshot, show: real -> string)
    ensures MetricsText(s, show) == TimeHead(s.nodeName) + (s.timestampUtc + AfterTime(s, show))
  {
    NodeFirst(s, show);
    RawPair(s.nodeName, s.timestampUtc, AfterTime(s, show));
    HeadIsKeyed(s.nodeName + AfterNode(s, show));
  }

  // ---- The rest of the answer is read to its end or not at all ----

  lemma ClosesBehind(key: string, text: string, value: Json, more: string)
    requires Plain(key) && ParseValue(text + ("," + more)) == Some(Parsed(value, "," + more)) && Closes(more)
    ensures Closes(Keyed(key, text + ("," + more)))
  {
    ParseKeyed(key, text + ("," + more));
    assert ("," + more)[1..] == more;
  }

  lemma {:induction false} FieldsClose(fields: seq<MetricsJson.Field>, last: string)
    requires (forall f | f in fields :: Means(f)) && Closes(last)
    ensures Closes(FieldsText(fields, last))
  {
    if fields != [] {
      var f := fields[0];
      assert f in fields && Means(f);
      FieldsClose(fields[1..], last);
      ClosesBehind(f.key, f.text, f.value, FieldsText(fields[1..], last));
    }
  }

  lemma ListCloses(kept: seq<ProcessInfo>)
    requires Counting(kept)
    ensures Closes(ListText(Survivors(kept)))
  {
    var ss := Survivors(kept);
    if kept != [] {
      SurvivorsCons(kept);
    }
    ListReads(kept);
    if !AllDecodable(kept) {
      BadItems(kept);
      ListKey();
      ArrayOfItems(ss);
      ParseKeyed("processes", "[" + (RawItems(ss) + "}"));
    }
  }

  lemma AnyListCloses(s: MetricsSnapshot)
    ensures Closes(ListText(FromRow(s).processes))
  {
    SurvivorsOfNonNegative(s.processes);
    ListCloses(NonNegative(s.processes));
  }

  lemma LoadMeans(s: MetricsSnapshot, show: real -> string)
    requires Prints(s.readings, show)
    ensures forall f | f in Header(s, show)[2..] :: Means(f)
  {
    ReadingsMean(s.readings, show);
  }

  /** The keys that the printer writes behind the first two. */
  predicate LaterKey(key: string) { key != "nodeName" && key != "timestampUtc" && key != "error" }

  lemma HeaderKeys(s: MetricsSnapshot, show: real -> string)
    ensures forall m | m in MembersOfFields(Header(s, show)[2..]) :: LaterKey(m.key)
  {
  }

  lemma LoadMembers(s: MetricsSnapshot, show: real -> string)
    requires Prints(s.readings, show) && AllMembers(LoadOn(FromRow(s), show)).Some?
    ensures forall m | m in AllMembers(LoadOn(FromRow(s), show)).value :: LaterKey(m.key)
  {
    var kept := NonNegative(s.processes);
    SurvivorsOfNonNegative(s.processes);
    ListReads(kept);
    LoadMeans(FromRow(s), show);
    HeaderKeys(FromRow(s), show);
    ReadFields(Header(FromRow(s), show)[2..], ListText(FromRow(s).processes));
  }

  lemma LoadStarts(s: MetricsSnapshot, show: real -> string)
    ensures exists value :: LoadOn(s, show) == Keyed("cpuUsage", value)
    ensures LoadOn(s, show)[0] == '"' && LoadOn(s, show)[1] == 'c'
  {
    var fields := Header(s, show)[2..];
    var more := FieldsText(fields[1..], ListText(s.processes));
    assert LoadOn(s, show) == Keyed("cpuUsage", fields[0].text + ("," + more));
  }

  lemma LoadCloses(s: MetricsSnapshot, show: real -> string)
    requires Prints(s.readings, show)
    ensures Closes(LoadOn(FromRow(s), show))
  {
    AnyListCloses(s);
    LoadMeans(FromRow(s), show);
    FieldsClose(Header(FromRow(s), show)[2..], ListText(FromRow(s).processes));
  }

  lemma TimeEnding(s: MetricsSnapshot, show: real -> string)
    requires Prints(s.readings, show)
    ensures Ending(AfterTime(FromRow(s), show))
    ensures forall m | m in Later(AfterTime(FromRow(s), show)) :: LaterKey(m.key)
  {
    var load := LoadOn(FromRow(s), show);
    LoadStarts(FromRow(s), show);
    var value :| load == Keyed("cpuUsage", value);
    LoadKeys();
    StartsNoElement("cpuUsage", value);
    LoadCloses(s, show);
    KeyAfter(load);
    if AllMembers(load).Some? {
      LoadMembers(s, show);
    }
  }

  lemma TimeCloses(s: MetricsSnapshot, show: real -> string)
    requires Prints(s.readings, show) && Plain(s.timestampUtc)
    ensures Closes(TimeOn(FromRow(s), show))
    ensures var load := AllMembers(LoadOn(FromRow(s), show));
            AllMembers(TimeOn(FromRow(s), show)) == Prefixed(Member("timestampUtc", Str(s.timestampUtc)), load)
  {
    var load, ts := LoadOn(FromRow(s), show), s.timestampUtc;
    NameKeys();
    LoadCloses(s, show);
    QuotedThen(ts, "," + load);
    ParsePlainValue(ts, "," + load);
    ClosesBehind("timestampUtc", QuotedText(ts), Str(ts), load);
    MemberThen("timestampUtc", QuotedText(ts), Str(ts), load);
  }

  lemma TimeStarts(s: MetricsSnapshot, show: real -> string)
    ensures ParseElements(TimeOn(s, show)) == None && TimeOn(s, show)[..2] == "\"t"
  {
    NameKeys();
    StartsNoElement("timestampUtc", "\"" + (s.timestampUtc + AfterTime(s, show)));
  }

  lemma TimeMembers(s: MetricsSnapshot, show: real -> string)
    requires Prints(s.readings, show) && Plain(s.timestampUtc) && AllMembers(TimeOn(FromRow(s), show)).Some?
    ensures forall m | m in AllMembers(TimeOn(FromRow(s), show)).value :: m.key != "nodeName" && m.key != "error"
  {
    TimeCloses(s, show);
    LoadMembers(s, show);
  }

  /** A key follows a closed text, if the text behind it starts with one. */
  lemma KeyAfter(text: string)
    requires |text| > 1 && text[0] == '"' && Odd(text[1])
    ensures KeyFollows("\"" + ("," + text)) && ("\"" + ("," + text))[2..] == text
  {
  }

  lemma NodeEnding(s: MetricsSnapshot, show: real -> string)
    requires Prints(s.readings, show) && Plain(s.timestampUtc)
    ensures Ending(AfterNode(FromRow(s), show))
    ensures forall m | m in Later(AfterNode(FromRow(s), show)) :: m.key != "nodeName"
  {
    var time := TimeOn(FromRow(s), show);
    TimeCloses(s, show);
    TimeStarts(FromRow(s), show);
    assert time[0] == time[..2][0] && time[1] == time[..2][1];
    KeyAfter(time);
    if AllMembers(time).Some? {
      TimeMembers(s, show);
    }
  }

  // ---- Lines ----

  /** A name that comes through: it can be decoded, and does not cut the frame. */
  predicate Legible(name: string) { Decodable(name) && NoNewline(name) }

  predicate AllLegible(ps: seq<ProcessInfo>) { forall p | p in ps :: Legible(p.name) }

  lemma {:induction false} EscapeKeepsLines(s: string)
    ensures NoNewline(Escape(s)) <==> NoNewline(s)
  {
    if s != "" {
      EscapeKeepsLines(s[1..]);
      assert Escape(s) == EscapeChar(s[0]) + Escape(s[1..]);
      assert forall i | 0 <= i < |s[1..]| :: s[1..][i] == s[i + 1];
      assert forall i | 0 <= i < |Escape(s[1..])| :: Escape(s)[|EscapeChar(s[0])| + i] == Escape(s[1..])[i];
      assert Escape(s)[|EscapeChar(s[0])| - 1] == s[0];
    }
  }

  lemma PartsOnOneLine(a: string, b: string)
    ensures NoNewline(a + b) <==> NoNewline(a) && NoNewline(b)
  {
    assert forall i | 0 <= i < |a| :: (a + b)[i] == a[i];
    assert forall i | 0 <= i < |b| :: (a + b)[|a| + i] == b[i];
  }

  /** The printed list of decodable names is one line exactly if the names are. */
  lemma {:induction false} ItemsOnOneLine(kept: seq<ProcessInfo>)
    requires Counting(kept) && AllDecodable(kept)
    ensures NoNewline(RawItems(Survivors(kept))) <==> AllLegible(kept)
  {
    if kept != [] {
      var ss, name := Survivors(kept), kept[0].name;
      SurvivorsCons(kept);
      assert kept[0] in kept;
      EscapeOfUnquoted(name);
      EscapeKeepsLines(name);
      ItemsOnOneLine(kept[1..]);
      NoNewlineInHead(kept[0].pid);
      PartsOnOneLine(EntryHead(kept[0].pid), Escape(name));
      PartsOnOneLine(EntryHead(kept[0].pid) + Escape(name), "\"}");
      PartsOnOneLine(RawEntry(ss[0]), Separator(ss));
      PartsOnOneLine(RawEntry(ss[0]) + Separator(ss), RawItems(ss[1..]));
      assert AllLegible(kept) <==> Legible(name) && AllLegible(kept[1..]);
    }
  }

  lemma {:induction false} LastIsOnLine(fields: seq<MetricsJson.Field>, last: string)
    requires NoNewline(FieldsText(fields, last))
    ensures NoNewline(last)
  {
    if fields != [] {
      var f, more := fields[0], FieldsText(fields[1..], last);
      var front := "\"" + (f.key + ("\"" + (":" + (f.text + ","))));
      assert FieldsText(fields, last) == front + more;
      PartsOnOneLine(front, more);
      LastIsOnLine(fields[1..], last);
    }
  }

  lemma TextHasItems(s: MetricsSnapshot, show: real -> string)
    requires NoNewline(MetricsText(s, show))
    ensures NoNewline(RawItems(s.processes))
  {
    PartsOnOneLine("{", FieldsText(Header(s, show), ListText(s.processes)));
    LastIsOnLine(Header(s, show), ListText(s.processes));
    ListTextIs(s.processes);
    PartsOnOneLine("\"processes\":[", RawItems(s.processes) + "}");
    PartsOnOneLine(RawItems(s.processes), "}");
  }

  predicate PrintsOnOneLine(r: Readings, show: real -> string) {
    && NoNewline(show(r.cpuUsage)) && NoNewline(show(r.ramUsage)) && NoNewline(show(r.diskFreePercent))
    && NoNewline(show(r.diskFreeGb)) && NoNewline(show(r.temperatureC))
  }

  lemma NumbersOnOneLine(r: Readings, show: real -> string)
    requires Prints(r, show)
    ensures PrintsOnOneLine(r, show)
  {
    NoNewlineInNumeral(show(r.cpuUsage));
    NoNewlineInNumeral(show(r.ramUsage));
    NoNewlineInNumeral(show(r.diskFreePercent));
    NoNewlineInNumeral(show(r.diskFreeGb));
    NoNewlineInNumeral(show(r.temperatureC));
  }

  lemma QuotedOnOneLine(s: string)
    requires NoNewline(s)
    ensures NoNewline(QuotedText(s))
  {
  }

  lemma HeaderOnOneLine(s: MetricsSnapshot, show: real -> string)
    requires PrintsOnOneLine(s.readings, show) && NoNewline(s.nodeName) && NoNewline(s.timestampUtc)
    ensures forall i | 0 <= i < 8 :: NoNewline(Header(s, show)[i].text)
  {
    QuotedOnOneLine(s.nodeName);
    QuotedOnOneLine(s.timestampUtc);
    FlagOnOneLine(s.readings.smartPredictFailure);
  }

  lemma FlagOnOneLine(flag: bool)
    ensures NoNewline(FlagText(flag))
  {
  }

  /** A text with clear header strings and decodable names is one line exactly if the names are. */
  lemma TextOnOneLine(s: MetricsSnapshot, show: real -> string)
    requires Prints(s.readings, show) && NoNewline(s.nodeName) && NoNewline(s.timestampUtc)
    requires AllDecodable(NonNegative(s.processes))
    ensures NoNewline(MetricsText(FromRow(s), show)) <==> AllLegible(NonNegative(s.processes))
  {
    SurvivorsOfNonNegative(s.processes);
    ItemsOnOneLine(NonNegative(s.processes));
    NumbersOnOneLine(s.readings, show);
    HeaderOnOneLine(FromRow(s), show);
    if NoNewline(MetricsText(FromRow(s), show)) {
      TextHasItems(FromRow(s), show);
    }
    if NoNewline(RawItems(FromRow(s).processes)) {
      NoNewlineInHeaderAndItems(FromRow(s), show);
    }
  }
}
