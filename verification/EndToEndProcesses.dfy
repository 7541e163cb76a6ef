/** A snapshot on its way from the server's tables to the administrator. */
module EndToEndProcesses {
  import opened Models
  import opened Text
  import opened Protocol
  import opened JsonDecoder
  import opened ProcessList
  import opened MetricsJson
  import opened ProcessEntries
  import opened Repository

  /** A name that can be decoded: no quote, and no character that the decoder rejects. */
  predicate Decodable(name: string) { Readable(name) && NoQuote(name) }

  predicate AllDecodable(ps: seq<ProcessInfo>) { forall p | p in ps :: Decodable(p.name) }

  predicate Counting(ps: seq<ProcessInfo>) { forall p | p in ps :: p.pid >= 0 }

  function NonNegative(ps: seq<ProcessInfo>): (r: seq<ProcessInfo>)
    ensures Counting(r) && |r| <= |ps|
    ensures forall p | p in r :: p in ps
  {
    if ps == [] then []
    else if ps[0].pid < 0 then NonNegative(ps[1..])
    else [ps[0]] + NonNegative(ps[1..])
  }

  lemma NonNegativeIsAll(ps: seq<ProcessInfo>)
    ensures NonNegative(ps) == ps <==> Counting(ps)
    ensures !Counting(ps) ==> |NonNegative(ps)| < |ps|
  {
  }

  lemma SurvivorsOfNonNegative(ps: seq<ProcessInfo>)
    ensures Survivors(ps) == Survivors(NonNegative(ps))
  {
  }

  lemma SurvivorsCons(ps: seq<ProcessInfo>)
    requires ps != [] && Counting(ps)
    ensures Survivors(ps) != [] && Survivors(ps)[1..] == Survivors(ps[1..])
    ensures Survivors(ps)[0] == ProcessInfo(ps[0].pid, CutAtQuote(Escape(ps[0].name)))
    ensures |Survivors(ps)| > 1 <==> |ps| > 1
  {
  }

  function Objects(ps: seq<ProcessInfo>): seq<Json> {
    if ps == [] then [] else [ObjectOf(ps[0].pid, ps[0].name)] + Objects(ps[1..])
  }

  lemma ProcessOfObject(p: ProcessInfo)
    ensures ToProcess(ObjectOf(p.pid, p.name)) == p
  {
    var pid, name := PidMember(p.pid), Member("name", Str(p.name));
    IntOfInteger(p.pid);
    assert [pid, name] == [pid] + [name] && [pid] == [] + [pid];
    LookupLast([pid], name, "name");
    LookupLast([pid], name, "pid");
    LookupLast([], pid, "pid");
  }

  lemma ToProcessesCons(v: Json, vs: seq<Json>)
    ensures ToProcesses([v] + vs) == [ToProcess(v)] + ToProcesses(vs)
  {
  }

  lemma {:induction false} ProcessesOfObjects(ps: seq<ProcessInfo>)
    ensures ToProcesses(Objects(ps)) == ps
  {
    if ps != [] {
      ProcessesOfObjects(ps[1..]);
      ProcessOfObject(ps[0]);
      ToProcessesCons(ObjectOf(ps[0].pid, ps[0].name), Objects(ps[1..]));
    }
  }

  /** The printed items, split behind their first entry. */
  lemma ItemsSplit(ss: seq<ProcessInfo>, rest: string)
    requires ss != []
    ensures RawItems(ss) + rest == RawEntry(ss[0]) + (Separator(ss) + (RawItems(ss[1..]) + rest))
  {
  }

  /** What is left of the items once their first entry has been decoded. */
  function AfterFirst(ss: seq<ProcessInfo>, rest: string): string
    requires ss != []
  {
    Separator(ss) + (RawItems(ss[1..]) + rest)
  }

  lemma {:induction false} ElementsAfterGood(ss: seq<ProcessInfo>, rest: string, v: Json)
    requires ss != []
    requires ParseValue(RawItems(ss) + rest) == Some(Parsed(v, AfterFirst(ss, rest)))
    ensures |ss| == 1 ==> ParseElements(RawItems(ss) + rest) == Some(Parsed([v], rest))
    ensures |ss| > 1 ==>
              ParseElements(RawItems(ss) + rest) == PrependElement(v, ParseElements(RawItems(ss[1..]) + rest))
  {
    ItemsSplit(ss, rest);
    if |ss| == 1 {
      assert AfterFirst(ss, rest) == "]" + rest;
      LastElement(RawEntry(ss[0]), rest, v);
    } else {
      NextElement(RawEntry(ss[0]), RawItems(ss[1..]) + rest, v);
    }
  }

  lemma GoodFirst(ps: seq<ProcessInfo>, rest: string)
    requires ps != [] && Counting(ps) && Decodable(ps[0].name)
    ensures ParseValue(RawItems(Survivors(ps)) + rest)
         == Some(Parsed(ObjectOf(ps[0].pid, ps[0].name), AfterFirst(Survivors(ps), rest)))
  {
    SurvivorsCons(ps);
    EscapeOfUnquoted(ps[0].name);
    ItemsSplit(Survivors(ps), rest);
    ParseGoodEntry(ps[0].pid, ps[0].name, AfterFirst(Survivors(ps), rest));
  }

  lemma {:induction false} GoodItems(ps: seq<ProcessInfo>, rest: string)
    requires ps != [] && Counting(ps) && AllDecodable(ps)
    ensures ParseElements(RawItems(Survivors(ps)) + rest) == Some(Parsed(Objects(ps), rest))
  {
    SurvivorsCons(ps);
    assert ps[0] in ps;
    GoodFirst(ps, rest);
    ElementsAfterGood(Survivors(ps), rest, ObjectOf(ps[0].pid, ps[0].name));
    if |ps| > 1 {
      GoodItems(ps[1..], rest);
    } else {
      assert Objects(ps) == [ObjectOf(ps[0].pid, ps[0].name)] + Objects(ps[1..]) == [ObjectOf(ps[0].pid, ps[0].name)];
    }
  }

  /** A dangling backslash swallows the closing quote; the string runs on into what follows. */
  lemma {:induction false} SwallowedQuote(name: string, q: nat, rest: string)
    requires q < |name| && name[q] == '"' && NoQuote(name[..q])
    ensures ParseString(CutAtQuote(Escape(name)) + ("\"}" + rest))
         == if Readable(name[..q]) then PrependText(name[..q], PrependText("\"", ParseString("}" + rest))) else None
  {
    CutOfQuoted(name, q);
    var tail := "\\" + ("\"}" + rest);
    Associative(Escape(name[..q]), "\\", "\"}" + rest);
    ParseEscaped(name[..q], tail);
    assert tail[2..] == "}" + rest;
  }

  lemma RunsIntoEnd()
    ensures ParseString("}]}") == None
  {
    assert "}]}"[1..] == "]}" && "]}"[1..] == "}" && "}"[1..] == "";
    assert ParseString("}") == None;
    assert ParseString("]}") == None;
  }

  lemma RunsIntoNext(rest: string)
    ensures ParseString("},{\"" + rest) == Some(Parsed("},{", rest))
  {
    ParsePlain("},{", rest);
    assert "},{\"" + rest == "},{" + ("\"" + rest);
  }

  lemma ItemsBegin(ss: seq<ProcessInfo>, rest: string)
    requires ss != []
    ensures exists t :: RawItems(ss) + rest == "{\"" + t && t != "" && t[0] == 'p'
  {
    var s := RawItems(ss) + rest;
    ItemsSplit(ss, rest);
    EntryPieces(ss[0].pid, ss[0].name, AfterFirst(ss, rest));
    assert s[0] == '{' && s[1] == '"' && s[2] == 'p';
    assert s == "{\"" + s[2..];
  }

  /** What can stand behind an entry's closing brace: the end, or the next entry. */
  ghost predicate FollowsEntry(rest: string) {
    rest == "]}" || exists t :: "}" + rest == "},{\"" + t && t != "" && t[0] == 'p'
  }

  /** An entry with an illegible name does not decode. */
  lemma BadEntry(pid: int32, name: string, rest: string)
    requires !Decodable(name) && FollowsEntry(rest)
    ensures ParseValue(RawEntry(ProcessInfo(pid, CutAtQuote(Escape(name)))) + rest) == None
  {
    var raw, q := CutAtQuote(Escape(name)), QuoteEnd(name, 0);
    if q == |name| {
      EscapeOfUnquoted(name);
      ParseEscaped(name, "\"}" + rest);
    } else {
      SwallowedQuote(name, q, rest);
      if rest == "]}" {
        assert "}" + rest == "}]}";
        RunsIntoEnd();
      } else {
        var t :| "}" + rest == "},{\"" + t && t != "" && t[0] == 'p';
        RunsIntoNext(t);
      }
    }
    BadName(raw + ("\"}" + rest));
    EntryValue(pid, raw, rest);
  }

  lemma NextFollows(ss: seq<ProcessInfo>)
    requires ss != []
    ensures FollowsEntry(AfterFirst(ss, "}"))
  {
    if |ss| == 1 {
      assert AfterFirst(ss, "}") == "]}";
    } else {
      ItemsBegin(ss[1..], "}");
      var t :| RawItems(ss[1..]) + "}" == "{\"" + t && t != "" && t[0] == 'p';
      assert "}" + AfterFirst(ss, "}") == "},{\"" + t;
    }
  }

  lemma {:induction false} BadFirst(ps: seq<ProcessInfo>)
    requires ps != [] && Counting(ps) && !Decodable(ps[0].name)
    ensures ParseValue(RawItems(Survivors(ps)) + "}") == None
  {
    var ss := Survivors(ps);
    SurvivorsCons(ps);
    ItemsSplit(ss, "}");
    NextFollows(ss);
    BadEntry(ss[0].pid, ps[0].name, AfterFirst(ss, "}"));
  }

  /** One illegible name anywhere makes the whole response undecodable. */
  lemma {:induction false} BadItems(ps: seq<ProcessInfo>)
    requires ps != [] && Counting(ps) && !AllDecodable(ps)
    ensures ParseElements(RawItems(Survivors(ps)) + "}") == None
  {
    SurvivorsCons(ps);
    if Decodable(ps[0].name) {
      GoodFirst(ps, "}");
      ElementsAfterGood(Survivors(ps), "}", ObjectOf(ps[0].pid, ps[0].name));
      var p :| p in ps && !Decodable(p.name);
      assert p in ps[1..];
      BadItems(ps[1..]);
    } else {
      BadFirst(ps);
    }
  }

  // ---- The whole response ----

  lemma ArrayOfItems(ss: seq<ProcessInfo>)
    ensures ParseValue("[" + (RawItems(ss) + "}"))
         == if ss == [] then Some(Parsed(Arr([]), "}"))
            else match ParseElements(RawItems(ss) + "}")
                 case None => None
                 case Some(p) => Some(Parsed(Arr(p.value), p.rest))
  {
    var items := RawItems(ss) + "}";
    assert ("[" + items)[1..] == items;
    if ss == [] {
      assert items == "]}" && items[1..] == "}";
    } else {
      ItemsBegin(ss, "}");
    }
  }

  lemma ListKey()
    ensures Plain("processes")
  {
  }

  lemma LastInDocument(text: string, value: Json)
    requires ParseValue(text) == Some(Parsed(value, "}"))
    ensures AllMembers(Keyed("processes", text)) == Some([Member("processes", value)])
  {
    ListKey();
    MembersStep("processes", text);
    NoMoreMembers();
    assert [Member("processes", value)] + [] == [Member("processes", value)];
  }

  lemma NoList(ss: seq<ProcessInfo>)
    requires ss != [] && ParseElements(RawItems(ss) + "}") == None
    ensures AllMembers(ListText(ss)) == None
  {
    ListKey();
    ArrayOfItems(ss);
    MembersStep("processes", "[" + (RawItems(ss) + "}"));
  }

  lemma SomeList(ss: seq<ProcessInfo>, elements: seq<Json>)
    requires ss != [] ==> ParseElements(RawItems(ss) + "}") == Some(Parsed(elements, "}"))
    requires ss == [] ==> elements == []
    ensures AllMembers(ListText(ss)) == Some([Member("processes", Arr(elements))])
  {
    ArrayOfItems(ss);
    LastInDocument("[" + (RawItems(ss) + "}"), Arr(elements));
  }

  /** The members of a response, given those of its process list. */
  lemma Document(s: MetricsSnapshot, show: real -> string)
    requires Plain(s.nodeName) && Plain(s.timestampUtc) && Prints(s.readings, show)
    ensures ParseObject(MetricsText(s, show))
         == match AllMembers(ListText(s.processes))
            case None => []
            case Some(ms) => MembersOfFields(Header(s, show)) + ms
  {
    var fields, last := Header(s, show), ListText(s.processes);
    HeaderMeans(s, show);
    ReadFields(fields, last);
    ObjectOfMembers(FieldsText(fields, last));
  }

  lemma {:induction false} ResponseFromList(s: MetricsSnapshot, show: real -> string, elements: seq<Json>)
    requires Plain(s.nodeName) && Plain(s.timestampUtc) && Prints(s.readings, show)
    requires AllMembers(ListText(s.processes)) == Some([Member("processes", Arr(elements))])
    ensures ReadSnapshot(MetricsText(s, show))
         == MetricsSnapshot(0, 0, s.nodeName, s.timestampUtc, Rounded(s.readings, show), ToProcesses(elements))
  {
    Document(s, show);
    SnapshotOfMembers(s, show, elements);
  }

  /** What the members of the printed list come to. */
  lemma ListReads(kept: seq<ProcessInfo>)
    requires Counting(kept)
    ensures AllMembers(ListText(Survivors(kept)))
         == if AllDecodable(kept) then Some([Member("processes", Arr(Objects(kept)))]) else None
  {
    if kept != [] {
      SurvivorsCons(kept);
    }
    if AllDecodable(kept) {
      if kept != [] {
        GoodItems(kept, "}");
      }
      SomeList(Survivors(kept), Objects(kept));
    } else {
      BadItems(kept);
      NoList(Survivors(kept));
    }
  }

  /** The snapshot as the scanner reads it back from its row. */
  function FromRow(s: MetricsSnapshot): MetricsSnapshot { s.(processes := Survivors(s.processes)) }

  /** The snapshot as the administrator sees it: ids are not transmitted, readings as printed. */
  function SeenAs(s: MetricsSnapshot, show: real -> string): MetricsSnapshot
    requires Prints(s.readings, show)
  {
    MetricsSnapshot(0, 0, s.nodeName, s.timestampUtc, Rounded(s.readings, show), NonNegative(s.processes))
  }

  /** What a stored snapshot's text decodes to: its entries of non-negative pid, or nothing at all. */
  lemma TextReads(s: MetricsSnapshot, show: real -> string)
    requires Plain(s.nodeName) && Plain(s.timestampUtc) && Prints(s.readings, show)
    ensures ReadSnapshot(MetricsText(FromRow(s), show))
         == if AllDecodable(NonNegative(s.processes)) then SeenAs(s, show) else NOTHING_READ
  {
    var kept := NonNegative(s.processes);
    SurvivorsOfNonNegative(s.processes);
    ListReads(kept);
    Document(FromRow(s), show);
    if AllDecodable(kept) {
      ResponseFromList(FromRow(s), show, Objects(kept));
      ProcessesOfObjects(kept);
    } else {
      NothingIsRead();
    }
  }

  /** With plain header strings the text never looks like an error message. */
  lemma TextIsNoError(s: MetricsSnapshot, show: real -> string)
    requires Plain(s.nodeName) && Plain(s.timestampUtc) && Prints(s.readings, show)
    ensures Lookup(ParseObject(MetricsText(FromRow(s), show)), "error") == None
  {
    var kept := NonNegative(s.processes);
    SurvivorsOfNonNegative(s.processes);
    Document(FromRow(s), show);
    ListReads(kept);
    DistinctKeys(FromRow(s), show, Objects(kept));
    if AllDecodable(kept) {
      LookupAbsent(MembersOfFields(Header(FromRow(s), show)) + [Member("processes", Arr(Objects(kept)))], "error");
    }
  }

  // ---- What the raw header can do ----

  lemma CutShort(node: string, q: nat, more: string)
    requires q < |node| && node[q] == '"' && Plain(node[..q])
    ensures ParseString(node + more) == Some(Parsed(node[..q], node[q + 1..] + more))
  {
    var rest := node[q + 1..] + more;
    assert node + more == node[..q] + ("\"" + rest);
    ParsePlain(node[..q], rest);
  }

  lemma NameFieldFirst(s: MetricsSnapshot, show: real -> string) returns (more: string)
    ensures MetricsText(s, show) == "{" + Keyed("nodeName", "\"" + (s.nodeName + more))
  {
    var rest := "," + FieldsText(Header(s, show)[1..], ListText(s.processes));
    more := "\"" + rest;
    Associative(s.nodeName, "\"", rest);
    Associative("\"", s.nodeName + "\"", rest);
  }

  lemma NothingAfter(key: string, tail: string)
    requires Plain(key) && ParseString(tail).Some?
    requires var rest := ParseString(tail).value.rest;
             rest != "" && !IsBlank(rest[0]) && rest[0] != ',' && rest[0] != '}'
    ensures ParseObject("{" + Keyed(key, "\"" + tail)) == []
  {
    ParseQuoted(tail);
    MembersStep(key, "\"" + tail);
    ObjectOfMembers(Keyed(key, "\"" + tail));
  }

  lemma QuotedNodeObject(s: MetricsSnapshot, show: real -> string, q: nat)
    requires q + 1 < |s.nodeName| && s.nodeName[q] == '"' && Plain(s.nodeName[..q])
    requires var c := s.nodeName[q + 1]; !IsBlank(c) && c != ',' && c != '}'
    ensures ParseObject(MetricsText(s, show)) == []
  {
    var more := NameFieldFirst(s, show);
    CutShort(s.nodeName, q, more);
    NameKeys();
    assert (s.nodeName[q + 1..] + more)[0] == s.nodeName[q + 1];
    NothingAfter("nodeName", s.nodeName + more);
  }

  /** A node name with a quote, not followed by what may follow a string, makes every response undecodable. */
  lemma QuotedNodeBreaks(s: MetricsSnapshot, show: real -> string, q: nat)
    requires q + 1 < |s.nodeName| && s.nodeName[q] == '"' && Plain(s.nodeName[..q])
    requires var c := s.nodeName[q + 1]; !IsBlank(c) && c != ',' && c != '}'
    ensures ReadSnapshot(MetricsText(s, show)) == NOTHING_READ
  {
    QuotedNodeObject(s, show, q);
    NothingIsRead();
  }

  /** So does every user whose name is plain text and a quote. */
  lemma QuotedUserBreaks(s: MetricsSnapshot, show: real -> string, name: string)
    requires Plain(name) && s.nodeName == NodeNameOf(name + "\"")
    ensures ReadSnapshot(MetricsText(s, show)) == NOTHING_READ
  {
    assert s.nodeName[..|name|] == name && s.nodeName[|name|] == '"' && s.nodeName[|name| + 1] == '-';
    QuotedNodeBreaks(s, show, |name|);
  }

  // ---- The response as a frame ----

  lemma NoNewlineInHead(pid: int)
    ensures NoNewline(EntryHead(pid))
  {
    assert NoNewline("{\"pid\":") && NoNewline(",\"name\":\"");
    assert NoNewline(DecimalInt(pid));
  }

  lemma NoNewlineInEntry(p: ProcessInfo)
    requires NoNewline(p.name)
    ensures NoNewline(RawEntry(p))
  {
    NoNewlineInHead(p.pid);
  }

  lemma {:induction false} NoNewlineInItems(ps: seq<ProcessInfo>)
    requires forall p | p in ps :: NoNewline(p.name)
    ensures NoNewline(RawItems(ps))
  {
    if ps != [] {
      assert ps[0] in ps;
      NoNewlineInEntry(ps[0]);
      NoNewlineInItems(ps[1..]);
    }
  }

  /** No string of the snapshot, and no printed number, has a newline. */
  predicate OneLine(s: MetricsSnapshot, show: real -> string) {
    && (forall i | 0 <= i < 8 :: NoNewline(Header(s, show)[i].text))
    && (forall p | p in s.processes :: NoNewline(p.name))
  }

  lemma NoNewlineInKeys(s: MetricsSnapshot, show: real -> string, i: nat)
    requires i < 8
    ensures NoNewline(Header(s, show)[i].key)
  {
    ShortKeys();
    LongKeys();
    LongestKey();
  }

  lemma NoNewlineInHeaderAndItems(s: MetricsSnapshot, show: real -> string)
    requires (forall i | 0 <= i < 8 :: NoNewline(Header(s, show)[i].text)) && NoNewline(RawItems(s.processes))
    ensures NoNewline(MetricsText(s, show))
  {
    forall i | 0 <= i < 8
      ensures NoNewline(Header(s, show)[i].key)
    {
      NoNewlineInKeys(s, show, i);
    }
    NoNewlineInKeyed("processes", "[" + (RawItems(s.processes) + "}"));
    NoNewlineInFields(Header(s, show), ListText(s.processes));
  }

  lemma NoNewlineInText(s: MetricsSnapshot, show: real -> string)
    requires OneLine(s, show)
    ensures NoNewline(MetricsText(s, show))
  {
    NoNewlineInItems(s.processes);
    NoNewlineInHeaderAndItems(s, show);
  }

  /** The response is one line, so it reaches the client as one message. */
  lemma ResponseIsFramable(s: MetricsSnapshot, show: real -> string)
    requires OneLine(s, show)
    ensures Framable(WireMessage(GET_METRICS_RESP, MetricsText(s, show)))
  {
    NoNewlineInText(s, show);
    EndsInBrace(Header(s, show), ListText(s.processes));
    FramableIs(GET_METRICS_RESP, MetricsText(s, show));
  }

  lemma FramableIs(kind: string, payload: string)
    requires kind == GET_METRICS_RESP
    requires payload != "" && payload[|payload| - 1] == '}' && NoNewline(payload)
    ensures Framable(WireMessage(kind, payload))
  {
  }
}
