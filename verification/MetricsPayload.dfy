/** The METRICS payload: written by the client as compact JSON, read by the server with defaults. */
module MetricsPayload {
  import opened Models
  import opened Text
  import opened Protocol
  import opened Lines
  import opened JsonDecoder
  import opened MetricsJson
  import opened PropertyTrees

  // ---- The client's writer: QJsonDocument::toJson(Compact), with keys in order ----

  function HexDigit(d: nat): (c: char)
    requires d < 16
    ensures IsHex(c) && HexValue(c) == d
  {
    if d < 10 then DigitChar(d) else (d - 10 + 'a' as int) as char
  }

  /** Quotes, backslashes and control characters are escaped; all else stands for itself. */
  function QtChar(c: char): string {
    if c == '"' || c == '\\' then ['\\', c]
    else if c == 8 as char then "\\b"
    else if c == 12 as char then "\\f"
    else if c == '\n' then "\\n"
    else if c == '\r' then "\\r"
    else if c == '\t' then "\\t"
    else if c < ' ' then "\\u00" + [HexDigit(c as int / 16), HexDigit(c as int % 16)]
    else [c]
  }

  function QtEscape(s: string): string {
    if s == "" then "" else QtChar(s[0]) + QtEscape(s[1..])
  }

  function QtText(s: string): string { "\"" + (QtEscape(s) + "\"") }

  function ProcessText(p: ProcessInfo): string {
    "{" + Keyed("name", QtText(p.name) + ("," + Keyed("pid", DecimalInt(p.pid) + "}")))
  }

  function ElementsText(ps: seq<ProcessInfo>): string {
    if ps == [] then "]" else ProcessText(ps[0]) + ((if |ps| > 1 then "," else "") + ElementsText(ps[1..]))
  }

  function ProcessJson(p: ProcessInfo): Json {
    IntegerIsNumeral(p.pid);
    Obj([Member("name", Str(p.name)), Member("pid", Num(DecimalInt(p.pid)))])
  }

  function ProcessesJson(ps: seq<ProcessInfo>): seq<Json> {
    if ps == [] then [] else [ProcessJson(ps[0])] + ProcessesJson(ps[1..])
  }

  /** All members but the last, in the order of their keys. */
  function FieldsInOrder(r: Readings, id: Field, node: Field, list: Field, show: real -> string): seq<Field> {
    [ NumberField("cpuUsage", r.cpuUsage, show),
      NumberField("diskFreeGb", r.diskFreeGb, show),
      NumberField("diskFreePercent", r.diskFreePercent, show),
      id,
      node,
      list,
      NumberField("ramUsage", r.ramUsage, show),
      Field("smartPredictFailure", FlagText(r.smartPredictFailure), Bool(r.smartPredictFailure)),
      NumberField("temperatureC", r.temperatureC, show) ]
  }

  function IdField(localId: int): Field {
    IntegerIsNumeral(localId);
    Field("localId", DecimalInt(localId), Num(DecimalInt(localId)))
  }

  function NodeField(nodeName: string): Field { Field("nodeName", QtText(nodeName), Str(nodeName)) }

  function ListField(ps: seq<ProcessInfo>): Field {
    Field("processes", "[" + ElementsText(ps), Arr(ProcessesJson(ps)))
  }

  function PayloadFields(s: MetricsSnapshot, show: real -> string): seq<Field> {
    FieldsInOrder(s.readings, IdField(s.localId), NodeField(s.nodeName), ListField(s.processes), show)
  }

  /** The text that flushOutbox sends for a snapshot; `show` prints numbers. */
  function PayloadText(s: MetricsSnapshot, show: real -> string): string {
    "{" + FieldsText(PayloadFields(s, show), Keyed("timestampUtc", QtText(s.timestampUtc) + "}"))
  }

  /** The other requests a client writes, in the same way. */
  function CredentialsText(username: string, password: string): string {
    "{" + Keyed("password", QtText(password) + ("," + Keyed("username", QtText(username) + "}")))
  }

  function TargetText(node: string): string { "{" + Keyed("nodeName", QtText(node) + "}") }

  // ---- The server's reader ----

  function GetProcess(v: Json): ProcessInfo {
    ProcessInfo(GetInteger(Child(Members(v), "pid"), 0x8000_0000), Data(Child(Members(v), "name"), ""))
  }

  function GetProcesses(items: seq<Json>): seq<ProcessInfo> {
    seq(|items|, i requires 0 <= i < |items| => GetProcess(items[i]))
  }

  const LONG_BOUND := 0x8000_0000_0000_0000

  function GetReadings(tree: seq<Member>): Readings {
    Readings(
      GetDouble(Child(tree, "cpuUsage")), GetDouble(Child(tree, "ramUsage")),
      GetDouble(Child(tree, "diskFreePercent")), GetDouble(Child(tree, "diskFreeGb")),
      GetDouble(Child(tree, "temperatureC")), GetBool(Child(tree, "smartPredictFailure")))
  }

  /** The snapshot handleMetrics builds; user id and node name are the session's business. */
  function GetSnapshot(tree: seq<Member>, now: string): MetricsSnapshot {
    MetricsSnapshot(
      GetInteger(Child(tree, "localId"), LONG_BOUND), 0, "", Data(Child(tree, "timestampUtc"), now),
      GetReadings(tree),
      GetProcesses(Children(Child(tree, "processes"))))
  }

  /** None if the payload is no JSON document: then parseJson throws. */
  function ReadPayload(payload: string, now: string): Option<MetricsSnapshot> {
    match ReadTree(payload)
    case None => None
    case Some(tree) => Some(GetSnapshot(tree, now))
  }

  // ---- Strings ----

  lemma ControlEscape(c: char, tail: string)
    requires c < ' '
    ensures var text := "\\u00" + [HexDigit(c as int / 16), HexDigit(c as int % 16)] + tail;
            ParseString(text) == PrependText([c], ParseString(tail))
  {
    var high, low := HexDigit(c as int / 16), HexDigit(c as int % 16);
    var text := "\\u00" + [high, low] + tail;
    assert text[2..][0] == '0' && text[2..][1] == '0' && text[2..][2] == high && text[2..][3] == low;
    assert text[6..] == tail && text[0] == '\\' && text[1] == 'u';
    assert CodeUnit(text[2..]) == Some(c as int);
  }

  lemma ShortEscape(c: char, code: char, tail: string)
    requires code != 'u' && Unescape(code) == Some(c)
    ensures ParseString(['\\', code] + tail) == PrependText([c], ParseString(tail))
  {
    assert (['\\', code] + tail)[2..] == tail;
  }

  lemma {:induction false} ParseQtChar(c: char, tail: string)
    ensures ParseString(QtChar(c) + tail) == PrependText([c], ParseString(tail))
  {
    if |QtChar(c)| == 6 {
      ControlEscape(c, tail);
    } else if |QtChar(c)| == 2 {
      assert QtChar(c) == ['\\', QtChar(c)[1]];
      ShortEscape(c, QtChar(c)[1], tail);
    } else {
      assert ([c] + tail)[1..] == tail;
    }
  }

  /** Whatever the client writes as a string, any decoder reads back. */
  lemma {:induction false} ParseQtEscaped(s: string, rest: string)
    ensures ParseString(QtEscape(s) + rest) == PrependText(s, ParseString(rest))
  {
    if s == "" {
      assert QtEscape(s) + rest == rest;
      assert ParseString(rest).Some? ==> "" + ParseString(rest).value.value == ParseString(rest).value.value;
    } else {
      ParseQtEscaped(s[1..], rest);
      Associative(QtChar(s[0]), QtEscape(s[1..]), rest);
      ParseQtChar(s[0], QtEscape(s[1..]) + rest);
      PrependTextTwice([s[0]], s[1..], ParseString(rest));
      assert [s[0]] + s[1..] == s;
    }
  }

  lemma ParseQtText(s: string, rest: string)
    ensures ParseValue(QtText(s) + rest) == Some(Parsed(Str(s), rest))
  {
    Associative(QtEscape(s), "\"", rest);
    Associative("\"", QtEscape(s) + "\"", rest);
    ParseQuoted(QtEscape(s) + ("\"" + rest));
    ParseQtEscaped(s, "\"" + rest);
    assert ("\"" + rest)[1..] == rest && s + "" == s;
  }

  // ---- Processes ----

  /** A member in front of another, inside a larger text. */
  lemma ParseMembersThen(key: string, text: string, value: Json, more: string)
    requires Plain(key) && ParseValue(text + ("," + more)) == Some(Parsed(value, "," + more))
    ensures ParseMembers(Keyed(key, text + ("," + more)))
         == match ParseMembers(more)
            case None => None
            case Some(q) => Some(Parsed([Member(key, value)] + q.value, q.rest))
  {
    ParseKeyed(key, text + ("," + more));
    assert ("," + more)[1..] == more;
  }

  lemma ParseMembersLast(key: string, text: string, value: Json, rest: string)
    requires Plain(key) && ParseValue(text + ("}" + rest)) == Some(Parsed(value, "}" + rest))
    ensures ParseMembers(Keyed(key, text + ("}" + rest))) == Some(Parsed([Member(key, value)], rest))
  {
    ParseKeyed(key, text + ("}" + rest));
    assert ("}" + rest)[1..] == rest;
  }

  lemma KeyedThen(key: string, value: string, rest: string)
    ensures Keyed(key, value) + rest == Keyed(key, value + rest)
  {
  }

  lemma ProcessPieces(p: ProcessInfo, rest: string)
    ensures ProcessText(p) + rest
         == "{" + Keyed("name", QtText(p.name) + ("," + Keyed("pid", DecimalInt(p.pid) + ("}" + rest))))
  {
    var pid := Keyed("pid", DecimalInt(p.pid) + "}");
    var value := QtText(p.name) + ("," + pid);
    Associative("{", Keyed("name", value), rest);
    KeyedThen("name", value, rest);
    Associative(QtText(p.name), "," + pid, rest);
    Associative(",", pid, rest);
    KeyedThen("pid", DecimalInt(p.pid) + "}", rest);
    Associative(DecimalInt(p.pid), "}", rest);
  }

  lemma ParseObjectText(s: string)
    requires s != "" && s[0] == '"'
    ensures ParseValue("{" + s)
         == match ParseMembers(s) case None => None case Some(q) => Some(Parsed(Obj(q.value), q.rest))
  {
    assert ("{" + s)[1..] == s;
  }

  lemma PidMembers(pid: int32, rest: string)
    ensures NumeralEnd(DecimalInt(pid)) == Some(|DecimalInt(pid)|)
    ensures ParseMembers(Keyed("pid", DecimalInt(pid) + ("}" + rest)))
         == Some(Parsed([Member("pid", Num(DecimalInt(pid)))], rest))
  {
    EntryKeys();
    IntegerIsNumeral(pid);
    ParseNumber(DecimalInt(pid), "}" + rest);
    ParseMembersLast("pid", DecimalInt(pid), Num(DecimalInt(pid)), rest);
  }

  lemma NameMembers(name: string, more: string)
    ensures ParseMembers(Keyed("name", QtText(name) + ("," + more)))
         == match ParseMembers(more)
            case None => None
            case Some(q) => Some(Parsed([Member("name", Str(name))] + q.value, q.rest))
  {
    EntryKeys();
    ParseQtText(name, "," + more);
    ParseMembersThen("name", QtText(name), Str(name), more);
  }

  lemma ParseProcess(p: ProcessInfo, rest: string)
    ensures ParseValue(ProcessText(p) + rest) == Some(Parsed(ProcessJson(p), rest))
  {
    var pid := Keyed("pid", DecimalInt(p.pid) + ("}" + rest));
    PidMembers(p.pid, rest);
    NameMembers(p.name, pid);
    ProcessPieces(p, rest);
    ParseObjectText(Keyed("name", QtText(p.name) + ("," + pid)));
    assert [Member("name", Str(p.name))] + [Member("pid", Num(DecimalInt(p.pid)))]
        == [Member("name", Str(p.name)), Member("pid", Num(DecimalInt(p.pid)))];
  }

  lemma {:induction false} ElementsPieces(ps: seq<ProcessInfo>, rest: string)
    requires ps != []
    ensures ElementsText(ps) + rest
         == ProcessText(ps[0]) + ((if |ps| > 1 then "," else "") + (ElementsText(ps[1..]) + rest))
  {
    var separator, tail := if |ps| > 1 then "," else "", ElementsText(ps[1..]);
    Associative(ProcessText(ps[0]), separator + tail, rest);
    Associative(separator, tail, rest);
  }

  lemma {:induction false} ParseProcesses(ps: seq<ProcessInfo>, rest: string)
    requires ps != []
    ensures ParseElements(ElementsText(ps) + rest) == Some(Parsed(ProcessesJson(ps), rest))
  {
    var tail := ElementsText(ps[1..]) + rest;
    ElementsPieces(ps, rest);
    if |ps| > 1 {
      ParseProcess(ps[0], "," + tail);
      ParseProcesses(ps[1..], rest);
      NextElement(ProcessText(ps[0]), tail, ProcessJson(ps[0]));
    } else {
      ParseProcess(ps[0], "]" + rest);
      assert "" + tail == "]" + rest;
      LastElement(ProcessText(ps[0]), rest, ProcessJson(ps[0]));
      assert ProcessesJson(ps) == [ProcessJson(ps[0])] + [] == [ProcessJson(ps[0])];
    }
  }

  lemma ElementsStart(ps: seq<ProcessInfo>, rest: string)
    ensures ps != [] ==> (ElementsText(ps) + rest)[0] == '{'
    ensures ps == [] ==> ElementsText(ps) + rest == "]" + rest
  {
  }

  lemma ParseArray(ps: seq<ProcessInfo>, rest: string)
    ensures ParseValue("[" + ElementsText(ps) + rest) == Some(Parsed(Arr(ProcessesJson(ps)), rest))
  {
    Associative("[", ElementsText(ps), rest);
    ElementsStart(ps, rest);
    var s := ElementsText(ps) + rest;
    assert ("[" + s)[1..] == s;
    if ps == [] {
      assert ("]" + rest)[1..] == rest;
    } else {
      ParseProcesses(ps, rest);
    }
  }

  // ---- The whole payload ----

  lemma PayloadKeys()
    ensures Plain("localId") && Plain("nodeName") && Plain("processes")
  {
  }

  lemma IdMeans(localId: int)
    ensures Means(IdField(localId))
  {
    PayloadKeys();
    IntegerIsNumeral(localId);
    WholeMeans("localId", DecimalInt(localId));
  }

  lemma FieldsMean(s: MetricsSnapshot, show: real -> string)
    requires Prints(s.readings, show)
    ensures forall f | f in PayloadFields(s, show) :: Means(f)
  {
    var r, id, node, list := s.readings, IdField(s.localId), NodeField(s.nodeName), ListField(s.processes);
    PayloadKeys();
    IdMeans(s.localId);
    QtMeans("nodeName", s.nodeName);
    ArrayMeans("processes", s.processes);
    AllMean(r, id, node, list, show);
  }

  lemma {:induction false} AllMean(r: Readings, id: Field, node: Field, list: Field, show: real -> string)
    requires Prints(r, show) && Means(id) && Means(node) && Means(list)
    ensures forall f | f in FieldsInOrder(r, id, node, list, show) :: Means(f)
  {
    ReadingsMean(r, show);
  }

  lemma WholeMeans(key: string, n: Numeral)
    requires Plain(key)
    ensures Means(Field(key, n, Num(n)))
  {
    forall more: string
      ensures ParseValue(n + ("," + more)) == Some(Parsed(Num(n), "," + more))
    {
      ParseNumber(n, "," + more);
    }
  }

  lemma QtMeans(key: string, s: string)
    requires Plain(key)
    ensures Means(Field(key, QtText(s), Str(s)))
  {
    forall more: string
      ensures ParseValue(QtText(s) + ("," + more)) == Some(Parsed(Str(s), "," + more))
    {
      ParseQtText(s, "," + more);
    }
  }

  lemma {:induction false} ArrayMeans(key: string, ps: seq<ProcessInfo>)
    requires Plain(key)
    ensures Means(Field(key, "[" + ElementsText(ps), Arr(ProcessesJson(ps))))
  {
    forall more: string
      ensures ParseValue("[" + ElementsText(ps) + ("," + more)) == Some(Parsed(Arr(ProcessesJson(ps)), "," + more))
    {
      ParseArray(ps, "," + more);
    }
  }

  function PayloadMembers(s: MetricsSnapshot, show: real -> string): seq<Member> {
    MembersOfFields(PayloadFields(s, show)) + [Member("timestampUtc", Str(s.timestampUtc))]
  }

  lemma PayloadObject(s: MetricsSnapshot, show: real -> string)
    requires Prints(s.readings, show)
    ensures AllMembers(FieldsText(PayloadFields(s, show), Keyed("timestampUtc", QtText(s.timestampUtc) + "}")))
         == Some(PayloadMembers(s, show))
  {
    var fields, last := PayloadFields(s, show), Keyed("timestampUtc", QtText(s.timestampUtc) + "}");
    FieldsMean(s, show);
    NameKeys();
    ParseQtText(s.timestampUtc, "}");
    LastMember("timestampUtc", QtText(s.timestampUtc), Str(s.timestampUtc));
    ReadFields(fields, last);
  }

  lemma DocumentIs(s: string, ms: seq<Member>, now: string)
    requires s != "" && s[0] == '"' && AllMembers(s) == Some(ms)
    ensures ReadPayload("{" + s, now) == Some(GetSnapshot(ms, now))
  {
    ParseObjectText(s);
  }

  // ---- Reading the members ----

  lemma ProcessIsRead(p: ProcessInfo)
    ensures GetProcess(ProcessJson(p)) == p
  {
    IntegerIsRead(p.pid, 0x8000_0000);
    var ms := Members(ProcessJson(p));
    ChildIs(ms, 0);
    ChildIs(ms, 1);
  }

  lemma {:induction false} ProcessesAreRead(ps: seq<ProcessInfo>)
    ensures GetProcesses(ProcessesJson(ps)) == ps
  {
    if ps != [] {
      var first, others := ProcessJson(ps[0]), ProcessesJson(ps[1..]);
      calc {
        GetProcesses(ProcessesJson(ps));
        GetProcesses([first] + others);
        { GetProcessesCons(first, others); }
        [GetProcess(first)] + GetProcesses(others);
        { ProcessIsRead(ps[0]); ProcessesAreRead(ps[1..]); }
        [ps[0]] + ps[1..];
      }
    }
  }

  lemma GetProcessesCons(v: Json, vs: seq<Json>)
    ensures GetProcesses([v] + vs) == [GetProcess(v)] + GetProcesses(vs)
  {
  }

  /** What the server takes from a payload: everything but identity, readings as printed. */
  function Transmitted(s: MetricsSnapshot, show: real -> string): MetricsSnapshot
    requires Prints(s.readings, show)
  {
    s.(userId := 0, nodeName := "", readings := Rounded(s.readings, show))
  }

  lemma PayloadChild(s: MetricsSnapshot, show: real -> string, i: nat)
    requires i < 9
    ensures Child(PayloadMembers(s, show), PayloadFields(s, show)[i].key) == Some(PayloadFields(s, show)[i].value)
  {
    PayloadKeysDiffer(s, show);
    ChildIs(PayloadMembers(s, show), i);
  }

  /** The tree has the number under this key, as it was printed. */
  predicate HasNumber(ms: seq<Member>, key: string, x: real, show: real -> string) {
    NumeralEnd(show(x)) == Some(|show(x)|) && GetDouble(Child(ms, key)) == ValueOf(show(x))
  }

  lemma NumberIsRead(s: MetricsSnapshot, show: real -> string, i: nat, key: string, x: real)
    requires i < 9 && PayloadFields(s, show)[i] == NumberField(key, x, show)
    requires NumeralEnd(show(x)) == Some(|show(x)|)
    ensures HasNumber(PayloadMembers(s, show), key, x, show)
  {
    PayloadChild(s, show, i);
  }

  lemma FlagIsRead(s: MetricsSnapshot, show: real -> string)
    ensures GetReadings(PayloadMembers(s, show)).smartPredictFailure == s.readings.smartPredictFailure
  {
    PayloadChild(s, show, 7);
  }

  /** The readings in a tree that has them all. */
  lemma ReadingsFrom(ms: seq<Member>, r: Readings, show: real -> string)
    requires Prints(r, show)
    requires HasNumber(ms, "cpuUsage", r.cpuUsage, show) && HasNumber(ms, "ramUsage", r.ramUsage, show)
    requires HasNumber(ms, "diskFreePercent", r.diskFreePercent, show)
    requires HasNumber(ms, "diskFreeGb", r.diskFreeGb, show)
    requires HasNumber(ms, "temperatureC", r.temperatureC, show)
    requires GetReadings(ms).smartPredictFailure == r.smartPredictFailure
    ensures GetReadings(ms) == Rounded(r, show)
  {
  }

  lemma CpuIsRead(s: MetricsSnapshot, show: real -> string)
    requires NumeralEnd(show(s.readings.cpuUsage)) == Some(|show(s.readings.cpuUsage)|)
    ensures HasNumber(PayloadMembers(s, show), "cpuUsage", s.readings.cpuUsage, show)
  {
    NumberIsRead(s, show, 0, "cpuUsage", s.readings.cpuUsage);
  }

  lemma DiskSpaceIsRead(s: MetricsSnapshot, show: real -> string)
    requires NumeralEnd(show(s.readings.diskFreeGb)) == Some(|show(s.readings.diskFreeGb)|)
    ensures HasNumber(PayloadMembers(s, show), "diskFreeGb", s.readings.diskFreeGb, show)
  {
    NumberIsRead(s, show, 1, "diskFreeGb", s.readings.diskFreeGb);
  }

  lemma DiskShareIsRead(s: MetricsSnapshot, show: real -> string)
    requires NumeralEnd(show(s.readings.diskFreePercent)) == Some(|show(s.readings.diskFreePercent)|)
    ensures HasNumber(PayloadMembers(s, show), "diskFreePercent", s.readings.diskFreePercent, show)
  {
    NumberIsRead(s, show, 2, "diskFreePercent", s.readings.diskFreePercent);
  }

  lemma RamIsRead(s: MetricsSnapshot, show: real -> string)
    requires NumeralEnd(show(s.readings.ramUsage)) == Some(|show(s.readings.ramUsage)|)
    ensures HasNumber(PayloadMembers(s, show), "ramUsage", s.readings.ramUsage, show)
  {
    NumberIsRead(s, show, 6, "ramUsage", s.readings.ramUsage);
  }

  lemma TemperatureIsRead(s: MetricsSnapshot, show: real -> string)
    requires NumeralEnd(show(s.readings.temperatureC)) == Some(|show(s.readings.temperatureC)|)
    ensures HasNumber(PayloadMembers(s, show), "temperatureC", s.readings.temperatureC, show)
  {
    NumberIsRead(s, show, 8, "temperatureC", s.readings.temperatureC);
  }

  lemma ReadingsAreRead(s: MetricsSnapshot, show: real -> string)
    requires Prints(s.readings, show)
    ensures GetReadings(PayloadMembers(s, show)) == Rounded(s.readings, show)
  {
    CpuIsRead(s, show);
    RamIsRead(s, show);
    DiskSpaceIsRead(s, show);
    DiskShareIsRead(s, show);
    TemperatureIsRead(s, show);
    FlagIsRead(s, show);
    ReadingsFrom(PayloadMembers(s, show), s.readings, show);
  }

  lemma ListIsRead(s: MetricsSnapshot, show: real -> string)
    ensures GetProcesses(Children(Child(PayloadMembers(s, show), "processes"))) == s.processes
  {
    PayloadChild(s, show, 5);
    assert PayloadFields(s, show)[5].key == "processes";
    ProcessesAreRead(s.processes);
  }

  lemma IdChild(s: MetricsSnapshot, show: real -> string)
    ensures Child(PayloadMembers(s, show), "localId") == Some(IdField(s.localId).value)
  {
    PayloadChild(s, show, 3);
  }

  lemma IdValue(localId: int)
    requires -LONG_BOUND <= localId < LONG_BOUND
    ensures GetInteger(Some(IdField(localId).value), LONG_BOUND) == localId
  {
    IntegerIsRead(localId, LONG_BOUND);
  }

  lemma IdIsRead(s: MetricsSnapshot, show: real -> string)
    requires -LONG_BOUND <= s.localId < LONG_BOUND
    ensures GetInteger(Child(PayloadMembers(s, show), "localId"), LONG_BOUND) == s.localId
  {
    IdChild(s, show);
    IdValue(s.localId);
  }

  lemma TimeIsRead(s: MetricsSnapshot, show: real -> string, now: string)
    ensures Data(Child(PayloadMembers(s, show), "timestampUtc"), now) == s.timestampUtc
  {
    PayloadKeysDiffer(s, show);
    ChildIs(PayloadMembers(s, show), 9);
  }

  lemma MembersAreRead(s: MetricsSnapshot, show: real -> string, now: string)
    requires Prints(s.readings, show) && -LONG_BOUND <= s.localId < LONG_BOUND
    ensures GetSnapshot(PayloadMembers(s, show), now) == Transmitted(s, show)
  {
    ReadingsAreRead(s, show);
    ListIsRead(s, show);
    IdIsRead(s, show);
    TimeIsRead(s, show, now);
  }

  lemma KeyDiffers(s: MetricsSnapshot, show: real -> string, i: nat)
    requires i < 9
    ensures PayloadFields(s, show)[i].key != "timestampUtc"
    ensures forall j | i < j < 9 :: PayloadFields(s, show)[i].key != PayloadFields(s, show)[j].key
  {
  }

  lemma PayloadKeysDiffer(s: MetricsSnapshot, show: real -> string)
    ensures var ms := PayloadMembers(s, show);
            |ms| == 10 && forall i, j | 0 <= i < j < |ms| :: ms[i].key != ms[j].key
  {
    forall i | 0 <= i < 9
      ensures PayloadFields(s, show)[i].key != "timestampUtc"
      ensures forall j | i < j < 9 :: PayloadFields(s, show)[i].key != PayloadFields(s, show)[j].key
    {
      KeyDiffers(s, show, i);
    }
    assert forall i | 0 <= i < 9 :: PayloadMembers(s, show)[i].key == PayloadFields(s, show)[i].key;
  }

  /** What the client writes, the server reads: all strings, all pids, and the numbers as printed. */
  lemma PayloadRoundTrip(s: MetricsSnapshot, show: real -> string, now: string)
    requires Prints(s.readings, show) && -LONG_BOUND <= s.localId < LONG_BOUND
    ensures ReadPayload(PayloadText(s, show), now) == Some(Transmitted(s, show))
  {
    var text := FieldsText(PayloadFields(s, show), Keyed("timestampUtc", QtText(s.timestampUtc) + "}"));
    PayloadObject(s, show);
    DocumentIs(text, PayloadMembers(s, show), now);
    MembersAreRead(s, show, now);
  }

  // ---- The payload as a frame ----

  lemma NoNewlineInQtChar(c: char)
    ensures NoNewline(QtChar(c))
  {
    if |QtChar(c)| == 6 {
      assert IsHex(QtChar(c)[4]) && IsHex(QtChar(c)[5]);
    }
  }

  lemma {:induction false} NoNewlineInQtEscape(s: string)
    ensures NoNewline(QtEscape(s))
  {
    if s != "" {
      NoNewlineInQtChar(s[0]);
      NoNewlineInQtEscape(s[1..]);
    }
  }

  lemma NoNewlineInProcess(p: ProcessInfo)
    ensures NoNewline(ProcessText(p))
  {
    IntegerIsNumeral(p.pid);
    NoNewlineInNumeral(DecimalInt(p.pid));
    NoNewlineInKeyed("pid", DecimalInt(p.pid) + "}");
    NoNewlineInQtEscape(p.name);
    NoNewlineInKeyed("name", QtText(p.name) + ("," + Keyed("pid", DecimalInt(p.pid) + "}")));
  }

  lemma {:induction false} NoNewlineInElements(ps: seq<ProcessInfo>)
    ensures NoNewline(ElementsText(ps))
  {
    if ps != [] {
      NoNewlineInProcess(ps[0]);
      NoNewlineInElements(ps[1..]);
    }
  }

  lemma NumeralField(s: MetricsSnapshot, show: real -> string, i: nat)
    requires i < 9 && i != 4 && i != 5 && i != 7 && Prints(s.readings, show)
    ensures NumeralEnd(PayloadFields(s, show)[i].text) == Some(|PayloadFields(s, show)[i].text|)
  {
    IntegerIsNumeral(s.localId);
  }

  lemma FlagLines()
    ensures NoNewline(FlagText(true)) && NoNewline(FlagText(false))
  {
  }

  lemma NoNewlineInQtText(s: string)
    ensures NoNewline(QtText(s))
  {
    NoNewlineInQtEscape(s);
  }

  lemma NoNewlineInPayloadField(s: MetricsSnapshot, show: real -> string, i: nat)
    requires i < 9 && Prints(s.readings, show)
    ensures NoNewline(PayloadFields(s, show)[i].text)
  {
    if i == 4 {
      NoNewlineInQtText(s.nodeName);
    } else if i == 5 {
      NoNewlineInElements(s.processes);
    } else if i == 7 {
      FlagLines();
    } else {
      NumeralField(s, show, i);
      NoNewlineInNumeral(PayloadFields(s, show)[i].text);
    }
  }

  lemma PayloadKeyLines()
    ensures NoNewline("localId") && NoNewline("processes")
  {
  }

  lemma NoNewlineInPayloadKey(s: MetricsSnapshot, show: real -> string, i: nat)
    requires i < 9
    ensures NoNewline(PayloadFields(s, show)[i].key)
  {
    ShortKeys();
    LongKeys();
    LongestKey();
    PayloadKeyLines();
  }

  lemma NoNewlineInTime(timestampUtc: string)
    ensures NoNewline(Keyed("timestampUtc", QtText(timestampUtc) + "}"))
  {
    LongKeys();
    NoNewlineInQtText(timestampUtc);
    NoNewlineInKeyed("timestampUtc", QtText(timestampUtc) + "}");
  }

  lemma NoNewlineInPayloadFields(s: MetricsSnapshot, show: real -> string)
    requires Prints(s.readings, show)
    ensures forall f | f in PayloadFields(s, show) :: NoNewline(f.key) && NoNewline(f.text)
  {
    var fields := PayloadFields(s, show);
    forall i | 0 <= i < |fields|
      ensures NoNewline(fields[i].key) && NoNewline(fields[i].text)
    {
      NoNewlineInPayloadKey(s, show, i);
      NoNewlineInPayloadField(s, show, i);
    }
  }

  lemma NoNewlineInPayload(s: MetricsSnapshot, show: real -> string)
    requires Prints(s.readings, show)
    ensures NoNewline(PayloadText(s, show))
  {
    var fields, last := PayloadFields(s, show), Keyed("timestampUtc", QtText(s.timestampUtc) + "}");
    NoNewlineInPayloadFields(s, show);
    NoNewlineInTime(s.timestampUtc);
    NoNewlineInFields(fields, last);
    BraceLine(FieldsText(fields, last));
  }

  lemma BraceLine(s: string)
    requires NoNewline(s)
    ensures NoNewline("{" + s)
  {
  }

  function MetricsMessage(s: MetricsSnapshot, show: real -> string): WireMessage {
    WireMessage(METRICS, PayloadText(s, show))
  }

  function MetricsMessages(xs: seq<MetricsSnapshot>, show: real -> string): seq<WireMessage> {
    seq(|xs|, i requires 0 <= i < |xs| => MetricsMessage(xs[i], show))
  }

  /** What the client writes to the socket for these snapshots. */
  function MetricsBytes(xs: seq<MetricsSnapshot>, show: real -> string): string {
    Concat(Frames(MetricsMessages(xs, show)))
  }

  lemma BytesOfOne(x: MetricsSnapshot, show: real -> string)
    ensures MetricsBytes([x], show) == Encode(MetricsMessage(x, show))
    ensures MetricsBytes([], show) == ""
  {
    var m := MetricsMessage(x, show);
    assert MetricsMessages([x], show) == [m];
    assert Frames([m]) == [Encode(m)];
    assert [Encode(m)][1..] == [];
    assert Concat([Encode(m)]) == Encode(m) + Concat([]);
  }

  lemma BracedIsFramable(payload: string)
    requires payload != "" && payload[|payload| - 1] == '}' && NoNewline(payload)
    ensures Framable(WireMessage(METRICS, payload))
  {
  }

  /** Every METRICS message is one line, whatever is in its strings. */
  lemma PayloadIsFramable(s: MetricsSnapshot, show: real -> string)
    requires Prints(s.readings, show)
    ensures Framable(MetricsMessage(s, show))
  {
    NoNewlineInPayload(s, show);
    EndsInBrace(PayloadFields(s, show), Keyed("timestampUtc", QtText(s.timestampUtc) + "}"));
    BracedIsFramable(PayloadText(s, show));
  }
}
