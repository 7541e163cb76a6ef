/** The metrics response: the server's raw printer and the client's reader. */
module MetricsJson {
  import opened Models
  import opened Text
  import opened JsonDecoder
  import opened ProcessList

  // ---- The server's printer: strings are written as they are ----

  function RawEntry(p: ProcessInfo): string { EntryHead(p.pid) + p.name + "\"}" }

  function RawItems(ps: seq<ProcessInfo>): string {
    if ps == [] then "]" else RawEntry(ps[0]) + Separator(ps) + RawItems(ps[1..])
  }

  /** A member before the process list: its text and what the text means if it can be decoded. */
  datatype Field = Field(key: string, text: string, value: Json)

  function FieldsText(fields: seq<Field>, last: string): string {
    if fields == [] then last else Keyed(fields[0].key, fields[0].text + ("," + FieldsText(fields[1..], last)))
  }

  /** `show` prints a number, as doubleToJsonString does. */
  function NumberField(key: string, x: real, show: real -> string): Field {
    Field(key, show(x), if NumeralEnd(show(x)) == Some(|show(x)|) then Num(show(x)) else Null)
  }

  function Header(s: MetricsSnapshot, show: real -> string): seq<Field> {
    [ Field("nodeName", QuotedText(s.nodeName), Str(s.nodeName)),
      Field("timestampUtc", QuotedText(s.timestampUtc), Str(s.timestampUtc)),
      NumberField("cpuUsage", s.readings.cpuUsage, show),
      NumberField("ramUsage", s.readings.ramUsage, show),
      NumberField("diskFreePercent", s.readings.diskFreePercent, show),
      NumberField("diskFreeGb", s.readings.diskFreeGb, show),
      NumberField("temperatureC", s.readings.temperatureC, show),
      Field("smartPredictFailure", FlagText(s.readings.smartPredictFailure), Bool(s.readings.smartPredictFailure)) ]
  }

  function ListText(ps: seq<ProcessInfo>): string { Keyed("processes", "[" + (RawItems(ps) + "}")) }

  function MetricsText(s: MetricsSnapshot, show: real -> string): string {
    "{" + FieldsText(Header(s, show), ListText(s.processes))
  }

  method WriteField(out: string, key: string, text: string) returns (longer: string)
    ensures forall more :: out + Keyed(key, text + ("," + more)) == longer + more
  {
    longer := out + "\"" + key + "\":" + text + ",";
    forall more
      ensures out + Keyed(key, text + ("," + more)) == longer + more
    {
      FieldPieces(out, key, text, more);
    }
  }

  lemma FieldPieces(out: string, key: string, text: string, more: string)
    ensures out + "\"" + key + "\":" + text + "," + more == out + Keyed(key, text + ("," + more))
  {
    assert "\":" == "\"" + ":";
  }

  lemma FieldsStep(fields: seq<Field>, i: nat, last: string)
    requires i < |fields|
    ensures FieldsText(fields[i..], last)
         == Keyed(fields[i].key, fields[i].text + ("," + FieldsText(fields[i + 1..], last)))
  {
    assert fields[i..][1..] == fields[i + 1..];
  }

  /** `out` has been written, `fields[i..]` and the process list are still to come. */
  ghost predicate WrittenSoFar(out: string, s: MetricsSnapshot, show: real -> string, i: nat)
    requires i <= 8
  {
    out + FieldsText(Header(s, show)[i..], ListText(s.processes)) == MetricsText(s, show)
  }

  ghost predicate IsNext(s: MetricsSnapshot, show: real -> string, i: nat, key: string, text: string)
    requires i < 8
  {
    Header(s, show)[i].key == key && Header(s, show)[i].text == text
  }

  lemma NamesAreNext(s: MetricsSnapshot, show: real -> string)
    ensures IsNext(s, show, 0, "nodeName", "\"" + (s.nodeName + "\""))
    ensures IsNext(s, show, 1, "timestampUtc", "\"" + (s.timestampUtc + "\""))
  {
  }

  /** Write the next member of the header. */
  method WriteNext(out: string, key: string, text: string,
                   ghost s: MetricsSnapshot, ghost show: real -> string, ghost i: nat)
    returns (longer: string)
    requires i < 8 && WrittenSoFar(out, s, show, i)
    requires IsNext(s, show, i, key, text)
    ensures WrittenSoFar(longer, s, show, i + 1)
  {
    FieldsStep(Header(s, show), i, ListText(s.processes));
    longer := WriteField(out, key, text);
  }

  lemma NothingWritten(s: MetricsSnapshot, show: real -> string)
    ensures WrittenSoFar("{", s, show, 0)
  {
    assert Header(s, show)[0..] == Header(s, show);
  }

  method WriteNames(s: MetricsSnapshot, show: real -> string) returns (out: string)
    ensures WrittenSoFar(out, s, show, 2)
  {
    out := "{";
    NothingWritten(s, show);
    NamesAreNext(s, show);
    out := WriteNext(out, "nodeName", "\"" + (s.nodeName + "\""), s, show, 0);
    out := WriteNext(out, "timestampUtc", "\"" + (s.timestampUtc + "\""), s, show, 1);
  }

  method WriteLoad(names: string, s: MetricsSnapshot, show: real -> string) returns (out: string)
    requires WrittenSoFar(names, s, show, 2)
    ensures WrittenSoFar(out, s, show, 4)
  {
    out := WriteNext(names, "cpuUsage", show(s.readings.cpuUsage), s, show, 2);
    out := WriteNext(out, "ramUsage", show(s.readings.ramUsage), s, show, 3);
  }

  method WriteDisk(load: string, s: MetricsSnapshot, show: real -> string) returns (out: string)
    requires WrittenSoFar(load, s, show, 4)
    ensures WrittenSoFar(out, s, show, 6)
  {
    out := WriteNext(load, "diskFreePercent", show(s.readings.diskFreePercent), s, show, 4);
    out := WriteNext(out, "diskFreeGb", show(s.readings.diskFreeGb), s, show, 5);
  }

  method WriteHealth(disk: string, s: MetricsSnapshot, show: real -> string) returns (out: string)
    requires WrittenSoFar(disk, s, show, 6)
    ensures WrittenSoFar(out, s, show, 8)
  {
    out := WriteNext(disk, "temperatureC", show(s.readings.temperatureC), s, show, 6);
    var smart := if s.readings.smartPredictFailure then "true" else "false";
    out := WriteNext(out, "smartPredictFailure", smart, s, show, 7);
  }

  /** The items that are still to be written before entry `i`. */
  function RawRest(ps: seq<ProcessInfo>, i: nat): string
    requires i <= |ps|
  {
    (if 0 < i < |ps| then "," else "") + RawItems(ps[i..])
  }

  lemma RawEntryAppended(before: string, ps: seq<ProcessInfo>, i: nat)
    requires i < |ps|
    ensures before + RawItems(ps[i..]) == before + RawEntry(ps[i]) + RawRest(ps, i + 1)
  {
    var separator, rest := Separator(ps[i..]), RawItems(ps[i + 1..]);
    assert ps[i..][0] == ps[i] && ps[i..][1..] == ps[i + 1..];
    Associative(RawEntry(ps[i]), separator, rest);
    Associative(before, RawEntry(ps[i]), separator + rest);
  }

  lemma RawSeparated(before: string, ps: seq<ProcessInfo>, i: nat)
    requires i < |ps|
    ensures before + RawRest(ps, i) == before + (if i > 0 then "," else "") + RawItems(ps[i..])
  {
    Associative(before, if i > 0 then "," else "", RawItems(ps[i..]));
  }

  method WriteItems(out: string, ps: seq<ProcessInfo>) returns (longer: string)
    ensures longer + "]" == out + RawItems(ps)
  {
    longer := out;
    var first := true;
    assert ps[0..] == ps && "" + RawItems(ps) == RawItems(ps);
    for i := 0 to |ps|
      invariant first <==> i == 0
      invariant longer + RawRest(ps, i) == out + RawItems(ps)
    {
      RawSeparated(longer, ps, i);
      assert longer + "" == longer;
      if !first {
        longer := longer + ",";
      }
      first := false;
      RawEntryAppended(longer, ps, i);
      longer := longer + ("{\"pid\":" + DecimalInt(ps[i].pid) + ",\"name\":\"" + ps[i].name + "\"}");
    }
    assert RawRest(ps, |ps|) == "" + "]" == "]";
  }

  method BuildMetricsJson(s: MetricsSnapshot, show: real -> string) returns (out: string)
    ensures out == MetricsText(s, show)
  {
    var names := WriteNames(s, show);
    var load := WriteLoad(names, s, show);
    var disk := WriteDisk(load, s, show);
    var head := WriteHealth(disk, s, show);
    assert Header(s, show)[8..] == [];
    out := head + "\"processes\":[";
    var longer := WriteItems(out, s.processes);
    ListPieces(head, longer, s.processes);
    out := longer + "]}";
  }

  lemma ListPieces(head: string, longer: string, ps: seq<ProcessInfo>)
    requires longer + "]" == head + "\"processes\":[" + RawItems(ps)
    ensures longer + "]}" == head + ListText(ps)
  {
    assert longer + "]}" == (longer + "]") + "}";
    ListTextIs(ps);
    Associative(head, "\"processes\":[", RawItems(ps));
    Associative(head, "\"processes\":[" + RawItems(ps), "}");
    Associative("\"processes\":[", RawItems(ps), "}");
  }

  lemma ListTextIs(ps: seq<ProcessInfo>)
    ensures ListText(ps) == "\"processes\":[" + (RawItems(ps) + "}")
  {
  }

  lemma EntryKeys()
    ensures Plain("pid") && Plain("name")
  {
  }

  // ---- The client's reader ----

  function ToProcess(v: Json): ProcessInfo {
    var members := if v.Obj? then v.members else [];
    ProcessInfo(ToInt(Lookup(members, "pid")), ToString(Lookup(members, "name")))
  }

  function ToProcesses(elements: seq<Json>): seq<ProcessInfo> {
    seq(|elements|, i requires 0 <= i < |elements| => ToProcess(elements[i]))
  }

  /** The snapshot that fromJson takes from the members of the document; the user id is not transmitted. */
  function ToSnapshot(root: seq<Member>): MetricsSnapshot {
    MetricsSnapshot(
      ToLong(Lookup(root, "localId")), 0, ToString(Lookup(root, "nodeName")), ToString(Lookup(root, "timestampUtc")),
      Readings(
        ToDouble(Lookup(root, "cpuUsage")), ToDouble(Lookup(root, "ramUsage")),
        ToDouble(Lookup(root, "diskFreePercent")), ToDouble(Lookup(root, "diskFreeGb")),
        ToDouble(Lookup(root, "temperatureC")), ToBool(Lookup(root, "smartPredictFailure"))),
      ToProcesses(ToArray(Lookup(root, "processes"))))
  }

  function ReadSnapshot(text: string): MetricsSnapshot { ToSnapshot(ParseObject(text)) }

  method ReadReadings(root: seq<Member>) returns (readings: Readings)
    ensures readings == ToSnapshot(root).readings
  {
    readings := Readings(0.0, 0.0, 0.0, 0.0, 0.0, false);
    readings := readings.(cpuUsage := ToDouble(Lookup(root, "cpuUsage")));
    readings := readings.(ramUsage := ToDouble(Lookup(root, "ramUsage")));
    readings := readings.(diskFreePercent := ToDouble(Lookup(root, "diskFreePercent")));
    readings := readings.(diskFreeGb := ToDouble(Lookup(root, "diskFreeGb")));
    readings := readings.(temperatureC := ToDouble(Lookup(root, "temperatureC")));
    readings := readings.(smartPredictFailure := ToBool(Lookup(root, "smartPredictFailure")));
  }

  method ReadProcess(v: Json) returns (info: ProcessInfo)
    ensures info == ToProcess(v)
  {
    var item := if v.Obj? then v.members else [];
    info := ProcessInfo(ToInt(Lookup(item, "pid")), ToString(Lookup(item, "name")));
  }

  method ReadProcesses(elements: seq<Json>) returns (processes: seq<ProcessInfo>)
    ensures processes == ToProcesses(elements)
  {
    processes := [];
    for i := 0 to |elements|
      invariant processes == ToProcesses(elements[..i])
    {
      var info := ReadProcess(elements[i]);
      processes := processes + [info];
    }
    assert elements[..|elements|] == elements;
  }

  method FromJson(text: string) returns (snapshot: MetricsSnapshot)
    ensures snapshot == ReadSnapshot(text)
  {
    var root := ParseObject(text);
    var localId := ToLong(Lookup(root, "localId"));
    var nodeName, timestampUtc := ToString(Lookup(root, "nodeName")), ToString(Lookup(root, "timestampUtc"));
    var readings := ReadReadings(root);
    var processes := ReadProcesses(ToArray(Lookup(root, "processes")));
    snapshot := MetricsSnapshot(localId, 0, nodeName, timestampUtc, readings, processes);
  }

  // ---- Decoding what was printed ----

  function MembersOfFields(fields: seq<Field>): seq<Member> {
    seq(|fields|, i requires 0 <= i < |fields| => Member(fields[i].key, fields[i].value))
  }

  /** The text of the field means its value to a decoder, in front of a comma. */
  ghost predicate Means(f: Field) {
    Plain(f.key) && forall more: string :: ParseValue(f.text + ("," + more)) == Some(Parsed(f.value, "," + more))
  }

  /** Members whose texts are meaningful are read, and leave the rest to what follows. */
  lemma {:induction false} ReadFields(fields: seq<Field>, last: string)
    requires forall f | f in fields :: Means(f)
    ensures AllMembers(FieldsText(fields, last))
         == match AllMembers(last) case None => None case Some(ms) => Some(MembersOfFields(fields) + ms)
  {
    if fields == [] {
      assert AllMembers(last).Some? ==> [] + AllMembers(last).value == AllMembers(last).value;
    } else {
      var f, more := fields[0], FieldsText(fields[1..], last);
      assert f in fields && Means(f);
      MemberThen(f.key, f.text, f.value, more);
      ReadFields(fields[1..], last);
      assert MembersOfFields(fields) == [Member(f.key, f.value)] + MembersOfFields(fields[1..]);
      if AllMembers(last).Some? {
        Associative([Member(f.key, f.value)], MembersOfFields(fields[1..]), AllMembers(last).value);
      }
    }
  }

  /** The numbers of the snapshot print as JSON numerals: none is infinite or not a number. */
  predicate Prints(r: Readings, show: real -> string) {
    && NumeralEnd(show(r.cpuUsage)) == Some(|show(r.cpuUsage)|)
    && NumeralEnd(show(r.ramUsage)) == Some(|show(r.ramUsage)|)
    && NumeralEnd(show(r.diskFreePercent)) == Some(|show(r.diskFreePercent)|)
    && NumeralEnd(show(r.diskFreeGb)) == Some(|show(r.diskFreeGb)|)
    && NumeralEnd(show(r.temperatureC)) == Some(|show(r.temperatureC)|)
  }

  /** The readings as their printed numerals give them back. */
  function Rounded(r: Readings, show: real -> string): Readings
    requires Prints(r, show)
  {
    Readings(ValueOf(show(r.cpuUsage)), ValueOf(show(r.ramUsage)), ValueOf(show(r.diskFreePercent)),
             ValueOf(show(r.diskFreeGb)), ValueOf(show(r.temperatureC)), r.smartPredictFailure)
  }

  lemma StringMeans(key: string, s: string)
    requires Plain(key) && Plain(s)
    ensures Means(Field(key, QuotedText(s), Str(s)))
  {
    forall more: string
      ensures ParseValue(QuotedText(s) + ("," + more)) == Some(Parsed(Str(s), "," + more))
    {
      ParsePlainValue(s, "," + more);
    }
  }

  lemma NumberMeans(key: string, x: real, show: real -> string)
    requires Plain(key) && NumeralEnd(show(x)) == Some(|show(x)|)
    ensures Means(NumberField(key, x, show))
  {
    forall more: string
      ensures ParseValue(show(x) + ("," + more)) == Some(Parsed(Num(show(x)), "," + more))
    {
      ParseNumber(show(x), "," + more);
    }
  }

  lemma FlagMeans(key: string, flag: bool)
    requires Plain(key)
    ensures Means(Field(key, FlagText(flag), Bool(flag)))
  {
    forall more: string
      ensures ParseValue(FlagText(flag) + ("," + more)) == Some(Parsed(Bool(flag), "," + more))
    {
      ParseFlag(flag, "," + more);
    }
  }

  lemma NameKeys()
    ensures Plain("nodeName") && Plain("timestampUtc") && Plain("smartPredictFailure")
  {
  }

  lemma LoadKeys()
    ensures Plain("cpuUsage") && Plain("ramUsage") && Plain("temperatureC")
  {
  }

  lemma DiskKeys()
    ensures Plain("diskFreePercent") && Plain("diskFreeGb")
  {
  }

  /** The members that both the payload and the response have. */
  lemma ReadingsMean(r: Readings, show: real -> string)
    requires Prints(r, show)
    ensures Means(NumberField("cpuUsage", r.cpuUsage, show)) && Means(NumberField("ramUsage", r.ramUsage, show))
    ensures Means(NumberField("diskFreePercent", r.diskFreePercent, show))
    ensures Means(NumberField("diskFreeGb", r.diskFreeGb, show))
    ensures Means(NumberField("temperatureC", r.temperatureC, show))
    ensures Means(Field("smartPredictFailure", FlagText(r.smartPredictFailure), Bool(r.smartPredictFailure)))
  {
    LoadKeys();
    DiskKeys();
    NameKeys();
    NumberMeans("cpuUsage", r.cpuUsage, show);
    NumberMeans("ramUsage", r.ramUsage, show);
    NumberMeans("diskFreePercent", r.diskFreePercent, show);
    NumberMeans("diskFreeGb", r.diskFreeGb, show);
    NumberMeans("temperatureC", r.temperatureC, show);
    FlagMeans("smartPredictFailure", r.smartPredictFailure);
  }

  lemma {:induction false} HeaderMeans(s: MetricsSnapshot, show: real -> string)
    requires Plain(s.nodeName) && Plain(s.timestampUtc) && Prints(s.readings, show)
    ensures forall f | f in Header(s, show) :: Means(f)
  {
    NameKeys();
    StringMeans("nodeName", s.nodeName);
    StringMeans("timestampUtc", s.timestampUtc);
    ReadingsMean(s.readings, show);
  }

  /** What is read when a document cannot be decoded. */
  const NOTHING_READ := MetricsSnapshot(0, 0, "", "", Readings(0.0, 0.0, 0.0, 0.0, 0.0, false), [])

  lemma NothingIsRead()
    ensures ToSnapshot([]) == NOTHING_READ
  {
  }

  /** The snapshot read from a document whose members are those of the header and a process list. */
  lemma SnapshotOfMembers(s: MetricsSnapshot, show: real -> string, elements: seq<Json>)
    requires Prints(s.readings, show)
    ensures ToSnapshot(MembersOfFields(Header(s, show)) + [Member("processes", Arr(elements))])
         == MetricsSnapshot(0, 0, s.nodeName, s.timestampUtc, Rounded(s.readings, show), ToProcesses(elements))
  {
    var ms := MembersOfFields(Header(s, show)) + [Member("processes", Arr(elements))];
    assert |ms| == 9;
    DistinctKeys(s, show, elements);
    LookupIs(ms, 0);
    LookupIs(ms, 1);
    LookupIs(ms, 2);
    LookupIs(ms, 3);
    LookupIs(ms, 4);
    LookupIs(ms, 5);
    LookupIs(ms, 6);
    LookupIs(ms, 7);
    LookupIs(ms, 8);
    LookupAbsent(ms, "localId");
  }

  lemma DistinctKeys(s: MetricsSnapshot, show: real -> string, elements: seq<Json>)
    ensures var ms := MembersOfFields(Header(s, show)) + [Member("processes", Arr(elements))];
            && (forall i, j | 0 <= i < j < |ms| :: ms[i].key != ms[j].key)
            && (forall m | m in ms :: m.key != "localId" && m.key != "error")
  {
  }

  // ---- Lines ----

  lemma NoNewlineInKeyed(key: string, value: string)
    requires NoNewline(key) && NoNewline(value)
    ensures NoNewline(Keyed(key, value))
  {
  }

  lemma {:induction false} NoNewlineInFields(fields: seq<Field>, last: string)
    requires forall f | f in fields :: NoNewline(f.key) && NoNewline(f.text)
    requires NoNewline(last)
    ensures NoNewline(FieldsText(fields, last))
  {
    if fields != [] {
      assert fields[0] in fields;
      NoNewlineInFields(fields[1..], last);
      NoNewlineInKeyed(fields[0].key, fields[0].text + ("," + FieldsText(fields[1..], last)));
    }
  }

  lemma ShortKeys()
    ensures NoNewline("nodeName") && NoNewline("cpuUsage") && NoNewline("ramUsage") && NoNewline("diskFreeGb")
  {
  }

  lemma LongKeys()
    ensures NoNewline("timestampUtc") && NoNewline("temperatureC") && NoNewline("diskFreePercent")
  {
  }

  lemma LongestKey()
    ensures NoNewline("smartPredictFailure")
  {
  }

  lemma {:induction false} EndsInBrace(fields: seq<Field>, last: string)
    requires last != "" && last[|last| - 1] == '}'
    ensures var s := FieldsText(fields, last); s != "" && s[|s| - 1] == '}'
  {
    if fields != [] {
      EndsInBrace(fields[1..], last);
    }
  }
}
