/** The stored form of a process list: the hand-written printer and the scanner that reads it. */
module ProcessList {
  import opened Models
  import opened Text

  const PID := "\"pid\":"
  const NAME := "\"name\":\""
  const INT_MAX: nat := 0x7fff_ffff

  // ---- The printer ----

  function EscapeChar(c: char): string {
    if c == '"' then "\\\"" else if c == '\\' then "\\\\" else [c]
  }

  function Escape(s: string): string {
    if s == "" then "" else EscapeChar(s[0]) + Escape(s[1..])
  }

  function EntryHead(pid: int): string { "{\"pid\":" + DecimalInt(pid) + ",\"name\":\"" }

  function EntryText(p: ProcessInfo): string { EntryHead(p.pid) + Escape(p.name) + "\"}" }

  function Separator(ps: seq<ProcessInfo>): string { if |ps| > 1 then "," else "" }

  function ItemsText(ps: seq<ProcessInfo>): string {
    if ps == [] then "]" else EntryText(ps[0]) + Separator(ps) + ItemsText(ps[1..])
  }

  function ProcessesText(ps: seq<ProcessInfo>): string { "[" + ItemsText(ps) }

  method PrintEscaped(name: string) returns (out: string)
    ensures out == Escape(name)
  {
    out := "";
    for i := 0 to |name|
      invariant out + Escape(name[i..]) == Escape(name)
    {
      var c := name[i];
      Associative(out, EscapeChar(c), Escape(name[i + 1..]));
      if c == '"' {
        out := out + "\\\"";
      } else if c == '\\' {
        out := out + "\\\\";
      } else {
        out := out + [c];
      }
      assert name[i..][1..] == name[i + 1..];
    }
  }

  /** What remains to be printed before entry `i`. */
  function Unprinted(ps: seq<ProcessInfo>, i: nat): string
    requires i <= |ps|
  {
    (if 0 < i < |ps| then "," else "") + ItemsText(ps[i..])
  }

  method PrintProcesses(ps: seq<ProcessInfo>) returns (out: string)
    ensures out == ProcessesText(ps)
  {
    out := "[";
    assert ps[0..] == ps;
    for i := 0 to |ps|
      invariant out + Unprinted(ps, i) == ProcessesText(ps)
    {
      ghost var before := out;
      if i > 0 {
        out := out + [','];
      }
      Associative(before, if i > 0 then "," else "", ItemsText(ps[i..]));
      before := out;
      out := out + ("{\"pid\":" + DecimalInt(ps[i].pid) + ",\"name\":\"");
      var name := PrintEscaped(ps[i].name);
      out := out + name;
      out := out + "\"}";
      EntryAppended(before, out, ps, i);
    }
    out := out + [']'];
  }

  lemma EntryAppended(before: string, after: string, ps: seq<ProcessInfo>, i: nat)
    requires i < |ps| && before + ItemsText(ps[i..]) == ProcessesText(ps)
    requires after == before + EntryHead(ps[i].pid) + Escape(ps[i].name) + "\"}"
    ensures after + Unprinted(ps, i + 1) == ProcessesText(ps)
  {
    var head, name, separator := EntryHead(ps[i].pid), Escape(ps[i].name), Separator(ps[i..]);
    Associative(before, head, name);
    Associative(before, head + name, "\"}");
    assert ps[i..][0] == ps[i] && ps[i..][1..] == ps[i + 1..];
    Associative(before, EntryText(ps[i]), separator);
    Associative(before, EntryText(ps[i]) + separator, ItemsText(ps[i + 1..]));
    Associative(after, separator, ItemsText(ps[i + 1..]));
  }

  // ---- The scanner ----

  predicate IsSpace(c: char) { c == ' ' || '\t' <= c <= '\r' }

  function SpacesEnd(s: string, i: nat): (r: nat)
    requires i <= |s|
    ensures i <= r <= |s| && (r < |s| ==> !IsSpace(s[r]))
    ensures forall k | i <= k < r :: IsSpace(s[k])
    decreases |s| - i
  {
    if i < |s| && IsSpace(s[i]) then SpacesEnd(s, i + 1) else i
  }

  /** Position of the first quote at or after `i`, or the end. */
  function QuoteEnd(s: string, i: nat): (r: nat)
    requires i <= |s|
    ensures i <= r <= |s| && (r < |s| ==> s[r] == '"')
    ensures forall k | i <= k < r :: s[k] != '"'
    decreases |s| - i
  {
    if i < |s| && s[i] != '"' then QuoteEnd(s, i + 1) else i
  }

  /** What the scanner collects, or the exception std::stoi throws on a numeral beyond INT_MAX. */
  datatype Scan = Scanned(processes: seq<ProcessInfo>) | OutOfRange

  function Prepend(ps: seq<ProcessInfo>, scan: Scan): Scan {
    if scan.Scanned? then Scanned(ps + scan.processes) else scan
  }

  function PidStart(s: string, at: nat): (ps: nat)
    requires MatchesAt(s, PID, at)
    ensures at + 6 <= ps <= |s|
  {
    SpacesEnd(s, at + 6)
  }

  function PidEnd(s: string, at: nat): (pe: nat)
    requires MatchesAt(s, PID, at)
    ensures PidStart(s, at) <= pe <= |s| && AllDigits(s[PidStart(s, at)..pe])
  {
    DigitsEnd(s, PidStart(s, at))
  }

  /** The text between the first name mark at or after `pe` and the next quote. */
  function NextName(s: string, pe: nat): Option<string> {
    match Find(s, NAME, pe)
    case None => None
    case Some(n) => Some(s[n + 8..QuoteEnd(s, n + 8)])
  }

  /**
    What the scanner collects for the pid mark at `at`: nothing when no digit follows it, else the
    number with the text behind the next name mark; None when the number does not fit an int.
   */
  function EntryBehind(s: string, at: nat): Option<seq<ProcessInfo>>
    requires MatchesAt(s, PID, at)
  {
    var numeral := s[PidStart(s, at)..PidEnd(s, at)];
    if numeral == "" then Some([])
    else if ParseDecimal(numeral) > INT_MAX then None
    else
      match NextName(s, PidEnd(s, at))
      case None => Some([])
      case Some(name) => Some([ProcessInfo(ParseDecimal(numeral), name)])
  }

  function ScanFrom(s: string, pos: nat): Scan
    requires pos <= |s|
    decreases |s| - pos
  {
    match Find(s, PID, pos)
    case None => Scanned([])
    case Some(at) =>
      match EntryBehind(s, at)
      case None => OutOfRange
      case Some(entry) => Prepend(entry, ScanFrom(s, PidEnd(s, at)))
  }

  method SkipSpaces(json: string, start: nat) returns (ps: nat)
    requires start <= |json|
    ensures ps == SpacesEnd(json, start)
  {
    ps := start;
    while ps < |json| && IsSpace(json[ps])
      invariant ps <= |json| && SpacesEnd(json, ps) == SpacesEnd(json, start)
    {
      ps := ps + 1;
    }
  }

  method SkipDigits(json: string, start: nat) returns (pe: nat)
    requires start <= |json|
    ensures pe == DigitsEnd(json, start)
  {
    pe := start;
    while pe < |json| && IsDigit(json[pe])
      invariant pe <= |json| && DigitsEnd(json, pe) == DigitsEnd(json, start)
    {
      pe := pe + 1;
    }
  }

  method SkipToQuote(json: string, start: nat) returns (ne: nat)
    requires start <= |json|
    ensures ne == QuoteEnd(json, start)
  {
    ne := start;
    while ne < |json| && json[ne] != '"'
      invariant ne <= |json| && QuoteEnd(json, ne) == QuoteEnd(json, start)
    {
      ne := ne + 1;
    }
  }

  method ReadName(json: string, pe: nat) returns (name: Option<string>)
    ensures name == NextName(json, pe)
  {
    var ns := Find(json, NAME, pe);
    if ns == None {
      return None;
    }
    var ne := SkipToQuote(json, ns.value + 8);
    name := Some(json[ns.value + 8..ne]);
  }

  method ReadEntry(json: string, at: nat) returns (entry: Option<seq<ProcessInfo>>, pe: nat)
    requires MatchesAt(json, PID, at)
    ensures entry == EntryBehind(json, at) && pe == PidEnd(json, at)
  {
    var ps := SkipSpaces(json, at + 6);
    pe := SkipDigits(json, ps);
    entry := Some([]);
    if pe > ps {
      if ParseDecimal(json[ps..pe]) > INT_MAX {
        return None, pe;
      }
      var name := ReadName(json, pe);
      if name.Some? {
        entry := Some([ProcessInfo(ParseDecimal(json[ps..pe]), name.value)]);
      }
    }
  }

  method ScanProcesses(json: string) returns (scan: Scan)
    ensures scan == ScanFrom(json, 0)
  {
    var found: seq<ProcessInfo> := [];
    var pos := 0;
    while true
      invariant pos <= |json| && ScanFrom(json, 0) == Prepend(found, ScanFrom(json, pos))
      decreases |json| - pos
    {
      var at := Find(json, PID, pos);
      if at == None {
        break;
      }
      var entry, pe := ReadEntry(json, at.value);
      if entry == None {
        return OutOfRange;
      }
      PrependTwice(found, entry.value, ScanFrom(json, pe));
      found := found + entry.value;
      pos := pe;
    }
    scan := Scanned(found);
  }

  lemma PrependTwice(a: seq<ProcessInfo>, b: seq<ProcessInfo>, scan: Scan)
    ensures Prepend(a, Prepend(b, scan)) == Prepend(a + b, scan)
  {
  }

  // ---- Scanning what was printed ----

  function CutAtQuote(s: string): string { s[..QuoteEnd(s, 0)] }

  function Survivor(p: ProcessInfo): seq<ProcessInfo> {
    if p.pid < 0 then [] else [ProcessInfo(p.pid, CutAtQuote(Escape(p.name)))]
  }

  /** What survives storing and scanning: negative pids vanish, names are escaped and cut. */
  function Survivors(ps: seq<ProcessInfo>): seq<ProcessInfo> {
    if ps == [] then [] else Survivor(ps[0]) + Survivors(ps[1..])
  }

  lemma {:induction false} EscapedQuote(name: string, k: nat)
    requires k < |Escape(name)| && Escape(name)[k] == '"'
    ensures k > 0 && Escape(name)[k - 1] == '\\'
  {
    var head := EscapeChar(name[0]);
    if k >= |head| {
      EscapedQuote(name[1..], k - |head|);
    }
  }

  lemma NumeralChars(i: int)
    ensures var s := DecimalInt(i);
            s != "" && (i >= 0 ==> AllDigits(s)) && (i < 0 ==> s[0] == '-')
    ensures forall k | 0 <= k < |DecimalInt(i)| :: DecimalInt(i)[k] != '"'
  {
  }

  // Text at absolute positions of the stored string.

  predicate RestIs(s: string, i: nat, t: string) { i <= |s| && s[i..] == t }

  lemma Peel(s: string, i: nat, a: string, b: string)
    requires RestIs(s, i, a + b)
    ensures MatchesAt(s, a, i) && RestIs(s, i + |a|, b)
    ensures forall k | i <= k < i + |a| :: s[k] == a[k - i]
  {
  }

  lemma PidMark(s: string, i: nat)
    requires MatchesAt(s, PID, i)
    ensures s[i] == '"' && s[i + 1] == 'p' && s[i + 3] == 'd' && s[i + 4] == '"' && s[i + 5] == ':'
  {
  }

  /** What follows the numeral of an entry, up to the end of the list. */
  function Behind(name: string, separator: string, rest: string): string {
    "," + (NAME + (Escape(name) + ("\"}" + (separator + rest))))
  }

  lemma HeadPieces(pid: int, rest: string)
    ensures EntryHead(pid) + rest == "{" + (PID + (DecimalInt(pid) + ("," + (NAME + rest))))
  {
  }

  lemma ItemsPieces(ps: seq<ProcessInfo>)
    requires ps != []
    ensures ItemsText(ps)
         == "{" + (PID + (DecimalInt(ps[0].pid) + Behind(ps[0].name, Separator(ps), ItemsText(ps[1..]))))
  {
    var head, escaped := EntryHead(ps[0].pid), Escape(ps[0].name);
    var rest := Separator(ps) + ItemsText(ps[1..]);
    Associative(EntryText(ps[0]), Separator(ps), ItemsText(ps[1..]));
    Associative(head + escaped, "\"}", rest);
    Associative(head, escaped, "\"}" + rest);
    HeadPieces(ps[0].pid, escaped + ("\"}" + rest));
  }

  lemma QuoteEndIs(s: string, i: nat, r: nat)
    requires i <= r < |s| && s[r] == '"' && forall k | i <= k < r :: s[k] != '"'
    ensures QuoteEnd(s, i) == r
  {
  }

  lemma SpacesEndIs(s: string, i: nat)
    requires i < |s| && !IsSpace(s[i])
    ensures SpacesEnd(s, i) == i
  {
  }

  /** The characters of an entry from the comma behind its numeral at `c` to its separator. */
  lemma BehindChars(json: string, c: nat, name: string, separator: string, rest: string)
    requires RestIs(json, c, Behind(name, separator, rest))
    ensures var q := c + 9 + |Escape(name)|;
            && q + 2 + |separator| <= |json|
            && MatchesAt(json, ",", c) && MatchesAt(json, NAME, c + 1)
            && json[c] == ',' && (forall k | c < k < c + 9 :: json[k] == NAME[k - c - 1])
            && (forall k | c + 9 <= k < q :: json[k] == Escape(name)[k - c - 9])
            && json[q] == '"' && json[q + 1] == '}'
            && RestIs(json, q + 2, separator + rest)
  {
    var r2 := "\"}" + (separator + rest);
    var r3 := Escape(name) + r2;
    Peel(json, c, ",", NAME + r3);
    Peel(json, c + 1, NAME, r3);
    Peel(json, c + 9, Escape(name), r2);
    Peel(json, c + 9 + |Escape(name)|, "\"}", separator + rest);
  }

  /** Behind a numeral, nothing up to the next entry looks like a pid mark, whatever the name. */
  lemma NoPidBehind(json: string, c: nat, name: string, separator: string, rest: string, i: nat)
    requires RestIs(json, c, Behind(name, separator, rest))
    requires separator == "" || separator == ","
    requires rest != "" && (rest[0] == '{' || rest[0] == ']')
    requires c <= i < c + 11 + |Escape(name)| + |separator|
    ensures !MatchesAt(json, PID, i)
  {
    var escaped := Escape(name);
    var q := c + 9 + |escaped|;
    BehindChars(json, c, name, separator, rest);
    assert json[q + 2] == json[q + 2..][0] == (separator + rest)[0];
    var m := i + 4;
    if c + 9 <= m < q && escaped[m - c - 9] == '"' {
      EscapedQuote(name, m - c - 9);
    }
    if MatchesAt(json, PID, i) {
      PidMark(json, i);
    }
  }

  /** The name read behind a numeral that ends at `c`. */
  lemma NameBehind(json: string, c: nat, name: string, separator: string, rest: string)
    requires RestIs(json, c, Behind(name, separator, rest))
    ensures NextName(json, c) == Some(CutAtQuote(Escape(name)))
  {
    var escaped := Escape(name);
    BehindChars(json, c, name, separator, rest);
    assert json[c..c + 8][0] == ',';
    FindIs(json, NAME, c, c + 1);
    var cut := QuoteEnd(escaped, 0);
    QuoteEndIs(json, c + 9, c + 9 + cut);
    assert json[c + 9..c + 9 + cut] == escaped[..cut];
  }

  /** The numeral behind a pid mark at `at`. */
  lemma NumeralBehind(json: string, at: nat, pid: int, behind: string)
    requires behind != "" && behind[0] == ','
    requires RestIs(json, at, PID + (DecimalInt(pid) + behind))
    ensures var c := at + 6 + |DecimalInt(pid)|;
            && MatchesAt(json, PID, at) && RestIs(json, c, behind)
            && PidStart(json, at) == at + 6
            && (pid >= 0 ==> PidEnd(json, at) == c && json[at + 6..c] == DecimalInt(pid))
            && (pid < 0 ==> PidEnd(json, at) == at + 6)
            && forall k | at + 6 <= k < c :: json[k] != '"'
  {
    var numeral := DecimalInt(pid);
    var c := at + 6 + |numeral|;
    NumeralChars(pid);
    Peel(json, at, PID, numeral + behind);
    Peel(json, at + 6, numeral, behind);
    assert json[c] == json[c..][0] == ',';
    assert json[at + 6] == numeral[0];
    SpacesEndIs(json, at + 6);
    if pid >= 0 {
      DigitsEndIs(json, at + 6, c);
    }
  }

  lemma EntryRead(json: string, at: nat, p: ProcessInfo, separator: string, rest: string)
    requires RestIs(json, at, PID + (DecimalInt(p.pid) + Behind(p.name, separator, rest)))
    ensures MatchesAt(json, PID, at) && EntryBehind(json, at) == Some(Survivor(p))
  {
    NumeralBehind(json, at, p.pid, Behind(p.name, separator, rest));
    if p.pid < 0 {
      NothingBehind(json, at);
    } else {
      ParseDecimalInverse(p.pid);
      NameBehind(json, PidEnd(json, at), p.name, separator, rest);
      EntryBehindIs(json, at, p.pid, CutAtQuote(Escape(p.name)));
    }
  }

  lemma NothingBehind(json: string, at: nat)
    requires MatchesAt(json, PID, at) && PidEnd(json, at) == PidStart(json, at)
    ensures EntryBehind(json, at) == Some([])
  {
  }

  lemma EntryBehindIs(json: string, at: nat, pid: int32, name: string)
    requires pid >= 0 && MatchesAt(json, PID, at)
    requires json[PidStart(json, at)..PidEnd(json, at)] == DecimalInt(pid) && ParseDecimal(Decimal(pid)) == pid
    requires NextName(json, PidEnd(json, at)) == Some(name)
    ensures EntryBehind(json, at) == Some([ProcessInfo(pid, name)])
  {
  }

  lemma ScanStep(json: string, pos: nat, at: nat, entry: seq<ProcessInfo>, later: seq<ProcessInfo>)
    requires pos <= |json| && Find(json, PID, pos) == Some(at) && EntryBehind(json, at) == Some(entry)
    requires ScanFrom(json, PidEnd(json, at)) == Scanned(later)
    ensures ScanFrom(json, pos) == Scanned(entry + later)
  {
  }

  /** From where the scanner resumes to the next entry there is no pid mark. */
  lemma NoPidUntilNext(json: string, at: nat, p: ProcessInfo, separator: string, rest: string)
    requires RestIs(json, at, PID + (DecimalInt(p.pid) + Behind(p.name, separator, rest)))
    requires separator == "" || separator == ","
    requires rest != "" && (rest[0] == '{' || rest[0] == ']')
    ensures MatchesAt(json, PID, at)
    ensures var next := at + 17 + |DecimalInt(p.pid)| + |Escape(p.name)| + |separator|;
            && PidEnd(json, at) <= next && RestIs(json, next, rest)
            && forall i | PidEnd(json, at) <= i < next :: !MatchesAt(json, PID, i)
  {
    var c := at + 6 + |DecimalInt(p.pid)|;
    NumeralBehind(json, at, p.pid, Behind(p.name, separator, rest));
    RestBehind(json, c, p.name, separator, rest);
    forall i | PidEnd(json, at) <= i < c + 11 + |Escape(p.name)| + |separator|
      ensures !MatchesAt(json, PID, i)
    {
      if c <= i {
        NoPidBehind(json, c, p.name, separator, rest, i);
      } else if MatchesAt(json, PID, i) {
        PidMark(json, i);
      }
    }
  }

  lemma RestBehind(json: string, c: nat, name: string, separator: string, rest: string)
    requires RestIs(json, c, Behind(name, separator, rest))
    ensures RestIs(json, c + 11 + |Escape(name)| + |separator|, rest)
  {
  }

  lemma ItemsStart(ps: seq<ProcessInfo>)
    ensures ItemsText(ps) != "" && (ItemsText(ps)[0] == '{' || ItemsText(ps)[0] == ']')
  {
  }

  lemma FirstPid(json: string, pos: nat, start: nat, rest: string)
    requires pos <= start && RestIs(json, start, "{" + (PID + rest))
    requires forall i | pos <= i < start :: !MatchesAt(json, PID, i)
    ensures Find(json, PID, pos) == Some(start + 1) && RestIs(json, start + 1, PID + rest)
  {
    Peel(json, start, "{", PID + rest);
    Peel(json, start + 1, PID, rest);
    if MatchesAt(json, PID, start) {
      PidMark(json, start);
    }
    FindIs(json, PID, pos, start + 1);
  }

  lemma NoPidAtEnd(json: string, pos: nat, start: nat)
    requires pos <= start && RestIs(json, start, "]")
    requires forall i | pos <= i < start :: !MatchesAt(json, PID, i)
    ensures Find(json, PID, pos) == None
  {
  }

  /** The text of an entry behind its opening brace, and all that follows. */
  function Marked(p: ProcessInfo, separator: string, rest: string): string {
    PID + (DecimalInt(p.pid) + Behind(p.name, separator, rest))
  }

  /** The scanner stops past the pid mark of an entry and meets no other until the next entry. */
  lemma EntryMet(json: string, at: nat, p: ProcessInfo, separator: string, rest: string) returns (next: nat)
    requires RestIs(json, at, Marked(p, separator, rest))
    requires separator == "" || separator == ","
    requires rest != "" && (rest[0] == '{' || rest[0] == ']')
    ensures MatchesAt(json, PID, at) && EntryBehind(json, at) == Some(Survivor(p))
    ensures PidEnd(json, at) <= next && RestIs(json, next, rest)
    ensures forall i | PidEnd(json, at) <= i < next :: !MatchesAt(json, PID, i)
  {
    EntryRead(json, at, p, separator, rest);
    NoPidUntilNext(json, at, p, separator, rest);
    next := at + 17 + |DecimalInt(p.pid)| + |Escape(p.name)| + |separator|;
  }

  lemma FirstMark(json: string, pos: nat, start: nat, ps: seq<ProcessInfo>)
    requires ps != [] && pos <= start && RestIs(json, start, ItemsText(ps))
    requires forall i | pos <= i < start :: !MatchesAt(json, PID, i)
    ensures Find(json, PID, pos) == Some(start + 1)
    ensures RestIs(json, start + 1, Marked(ps[0], Separator(ps), ItemsText(ps[1..])))
  {
    ItemsPieces(ps);
    FirstPid(json, pos, start, DecimalInt(ps[0].pid) + Behind(ps[0].name, Separator(ps), ItemsText(ps[1..])));
  }

  /** Scanning from before the items at `start`, past no pid mark, finds exactly the survivors. */
  lemma {:induction false} ScanItems(json: string, pos: nat, start: nat, ps: seq<ProcessInfo>)
    requires pos <= start && RestIs(json, start, ItemsText(ps))
    requires forall i | pos <= i < start :: !MatchesAt(json, PID, i)
    ensures ScanFrom(json, pos) == Scanned(Survivors(ps))
    decreases |ps|
  {
    if ps == [] {
      NoPidAtEnd(json, pos, start);
    } else {
      FirstMark(json, pos, start, ps);
      ItemsStart(ps[1..]);
      var next := EntryMet(json, start + 1, ps[0], Separator(ps), ItemsText(ps[1..]));
      ScanItems(json, PidEnd(json, start + 1), next, ps[1..]);
      ScanStep(json, pos, start + 1, Survivor(ps[0]), Survivors(ps[1..]));
    }
  }

  /**
    Storing and scanning, on every process list: order and pids are kept, negative pids vanish,
    names come back escaped and cut at their first quote, and no name disturbs another entry.
   */
  lemma ScanOfPrint(ps: seq<ProcessInfo>)
    ensures ScanFrom(ProcessesText(ps), 0) == Scanned(Survivors(ps))
  {
    var json := ProcessesText(ps);
    if MatchesAt(json, PID, 0) {
      PidMark(json, 0);
    }
    ScanItems(json, 0, 1, ps);
  }
}
