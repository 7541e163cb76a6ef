/**
  Decoding JSON text (RFC 8259) as the client does, and reading values with the defaults of QJsonValue.
  Bytes above 127 stand for themselves.
 */
module JsonDecoder {
  import opened Models
  import opened Text

  // Two points on which decoders differ are left open: every result holds either way.

  /** Whether control characters may stand unescaped in a string, against section 7 of RFC 8259. */
  const CONTROLS_PASS: bool

  /** Whether a backslash before any other character stands for that character. */
  const ESCAPES_PASS: bool

  /** The text of a number; its value is `ValueOf`. */
  type Numeral = s: string | NumeralEnd(s) == Some(|s|) witness "0"

  datatype Json =
    | Null
    | Bool(flag: bool)
    | Num(numeral: Numeral)
    | Str(text: string)
    | Arr(elements: seq<Json>)
    | Obj(members: seq<Member>)

  datatype Member = Member(key: string, value: Json)

  datatype Parsed<+T> = Parsed(value: T, rest: string)

  // ---- White space ----

  predicate IsBlank(c: char) { c == ' ' || c == '\t' || c == '\n' || c == '\r' }

  predicate StartsDark(s: string) { s == "" || !IsBlank(s[0]) }

  function Skip(s: string): (r: string)
    ensures |r| <= |s| && StartsDark(r)
    ensures StartsDark(s) ==> r == s
  {
    if StartsDark(s) then s else Skip(s[1..])
  }

  // ---- Strings ----

  function Unescape(c: char): Option<char> {
    if c == '"' || c == '\\' || c == '/' then Some(c)
    else if c == 'b' then Some(8 as char)
    else if c == 'f' then Some(12 as char)
    else if c == 'n' then Some('\n')
    else if c == 'r' then Some('\r')
    else if c == 't' then Some('\t')
    else if ESCAPES_PASS then Some(c)
    else None
  }

  predicate IsControl(c: char) { c < ' ' }

  predicate Passes(c: char) { CONTROLS_PASS || !IsControl(c) }

  predicate IsHex(c: char) { IsDigit(c) || 'a' <= c <= 'f' || 'A' <= c <= 'F' }

  function HexValue(c: char): (d: nat)
    requires IsHex(c)
    ensures d < 16
  {
    if IsDigit(c) then DigitValue(c)
    else if 'a' <= c then c as int - 'a' as int + 10
    else c as int - 'A' as int + 10
  }

  /** The four hexadecimal digits at the front of `s`. */
  function CodeUnit(s: string): (code: Option<nat>)
    ensures code.Some? ==> |s| >= 4 && code.value < 0x1_0000
  {
    if |s| >= 4 && IsHex(s[0]) && IsHex(s[1]) && IsHex(s[2]) && IsHex(s[3])
    then Some(4096 * HexValue(s[0]) + 256 * HexValue(s[1]) + 16 * HexValue(s[2]) + HexValue(s[3]))
    else None
  }

  /** The bytes of a code point, each as a character. */
  function Utf8(code: nat): (s: string)
    requires code < 0x1_0000
    ensures 1 <= |s| <= 3 && (|s| > 1 ==> forall i | 0 <= i < |s| :: s[i] >= 128 as char)
  {
    if code < 0x80 then [code as char]
    else if code < 0x800 then [(0xC0 + code / 64) as char, (0x80 + code % 64) as char]
    else [(0xE0 + code / 4096) as char, (0x80 + code / 64 % 64) as char, (0x80 + code % 64) as char]
  }

  function PrependText(head: string, r: Option<Parsed<string>>): Option<Parsed<string>> {
    match r
    case None => None
    case Some(p) => Some(Parsed(head + p.value, p.rest))
  }

  lemma PrependTextTwice(a: string, b: string, r: Option<Parsed<string>>)
    ensures PrependText(a, PrependText(b, r)) == PrependText(a + b, r)
  {
    if r.Some? {
      Associative(a, b, r.value.value);
    }
  }

  /** The characters of a string whose opening quote has been read. */
  function ParseString(s: string): (r: Option<Parsed<string>>)
    ensures r.Some? ==> |r.value.rest| < |s|
  {
    if s == "" then None
    else if s[0] == '"' then Some(Parsed("", s[1..]))
    else if s[0] != '\\' then (if Passes(s[0]) then PrependText([s[0]], ParseString(s[1..])) else None)
    else if |s| == 1 then None
    else if s[1] == 'u' then
      match CodeUnit(s[2..])
      case None => None
      case Some(code) => PrependText(Utf8(code), ParseString(s[6..]))
    else
      match Unescape(s[1])
      case None => None
      case Some(c) => PrependText([c], ParseString(s[2..]))
  }

  // ---- Numbers ----

  /** Where the integer part of a number ends: an optional minus sign and digits without a leading zero. */
  function IntegerEnd(s: string): (r: Option<nat>)
    ensures r.Some? ==> 0 < r.value <= |s|
  {
    var i := if s != "" && s[0] == '-' then 1 else 0;
    var j := DigitsEnd(s, i);
    if j == i || (j > i + 1 && s[i] == '0') then None else Some(j)
  }

  /** Where the fraction that may start at `i` ends. */
  function FractionEnd(s: string, i: nat): (r: Option<nat>)
    requires i <= |s|
    ensures r.Some? ==> i <= r.value <= |s|
  {
    if i == |s| || s[i] != '.' then Some(i)
    else if DigitsEnd(s, i + 1) == i + 1 then None
    else Some(DigitsEnd(s, i + 1))
  }

  /** Where the digits of the exponent at `i` start. */
  function ExponentStart(s: string, i: nat): (r: nat)
    requires i < |s|
    ensures i < r <= |s|
  {
    if i + 1 < |s| && (s[i + 1] == '+' || s[i + 1] == '-') then i + 2 else i + 1
  }

  function ExponentEnd(s: string, i: nat): (r: Option<nat>)
    requires i <= |s|
    ensures r.Some? ==> i <= r.value <= |s|
  {
    if i == |s| || (s[i] != 'e' && s[i] != 'E') then Some(i)
    else
      var j := ExponentStart(s, i);
      if DigitsEnd(s, j) == j then None else Some(DigitsEnd(s, j))
  }

  function NumeralEnd(s: string): (r: Option<nat>)
    ensures r.Some? ==> 0 < r.value <= |s|
  {
    match IntegerEnd(s)
    case None => None
    case Some(i) =>
      match FractionEnd(s, i)
      case None => None
      case Some(j) => ExponentEnd(s, j)
  }

  function TenTo(e: int): real
    decreases if e < 0 then -e else e
  {
    if e == 0 then 1.0 else if e > 0 then 10.0 * TenTo(e - 1) else TenTo(e + 1) / 10.0
  }

  /** The number a numeral denotes. */
  function ValueOf(s: Numeral): real {
    var sign := if s[0] == '-' then 1 else 0;
    var i := IntegerEnd(s).value;
    var j := FractionEnd(s, i).value;
    var fraction := if j == i then "" else s[i + 1..j];
    var exponent: int :=
      if j == |s| then 0
      else
        var k := ExponentStart(s, j);
        if s[k - 1] == '-' then 0 - ParseDecimal(s[k..]) else ParseDecimal(s[k..]);
    var magnitude := ParseDecimal(s[sign..i] + fraction) as real * TenTo(exponent - |fraction|);
    if sign == 1 then -magnitude else magnitude
  }

  /** Cutting a text behind the digits it has at `i` leaves those digits. */
  lemma DigitsWithin(s: string, i: nat, end: nat)
    requires i <= |s| && DigitsEnd(s, i) <= end <= |s|
    ensures DigitsEnd(s[..end], i) == DigitsEnd(s, i)
  {
    DigitsEndIs(s[..end], i, DigitsEnd(s, i));
  }

  lemma IntegerWithin(s: string, end: nat)
    requires IntegerEnd(s).Some? && IntegerEnd(s).value <= end <= |s|
    ensures IntegerEnd(s[..end]) == IntegerEnd(s)
  {
    DigitsWithin(s, if s[0] == '-' then 1 else 0, end);
  }

  lemma FractionWithin(s: string, i: nat, end: nat)
    requires i <= |s| && FractionEnd(s, i).Some? && FractionEnd(s, i).value <= end <= |s|
    ensures FractionEnd(s[..end], i) == FractionEnd(s, i)
  {
    if i < |s| && s[i] == '.' {
      DigitsWithin(s, i + 1, end);
    }
  }

  lemma ExponentWithin(s: string, i: nat, end: nat)
    requires i <= |s| && ExponentEnd(s, i) == Some(end)
    ensures ExponentEnd(s[..end], i) == Some(end)
  {
    if i < |s| && (s[i] == 'e' || s[i] == 'E') {
      assert ExponentStart(s[..end], i) == ExponentStart(s, i);
      DigitsWithin(s, ExponentStart(s, i), end);
    }
  }

  /** What has been read as a numeral is one by itself. */
  lemma NumeralAlone(s: string, end: nat)
    requires NumeralEnd(s) == Some(end)
    ensures NumeralEnd(s[..end]) == Some(end)
  {
    var i := IntegerEnd(s).value;
    var j := FractionEnd(s, i).value;
    IntegerWithin(s, end);
    FractionWithin(s, i, end);
    ExponentWithin(s, j, end);
  }

  function ParseNumeral(s: string): (r: Option<Parsed<Numeral>>)
    ensures r.Some? ==> |r.value.rest| < |s|
  {
    match NumeralEnd(s)
    case None => None
    case Some(end) =>
      NumeralAlone(s, end);
      Some(Parsed(s[..end], s[end..]))
  }

  // ---- Values ----

  function ParseLiteral(s: string, word: string, value: Json): (r: Option<Parsed<Json>>)
    ensures r.Some? && word != "" ==> |r.value.rest| < |s|
  {
    if word <= s then Some(Parsed(value, s[|word|..])) else None
  }

  /** A value whose first character is not blank and opens no array, object or string. */
  function ParseScalar(s: string): (r: Option<Parsed<Json>>)
    requires s != ""
    ensures r.Some? ==> |r.value.rest| < |s|
  {
    if s[0] == 't' then ParseLiteral(s, "true", Bool(true))
    else if s[0] == 'f' then ParseLiteral(s, "false", Bool(false))
    else if s[0] == 'n' then ParseLiteral(s, "null", Null)
    else
      match ParseNumeral(s)
      case None => None
      case Some(p) => Some(Parsed(Num(p.value), p.rest))
  }

  function ParseValue(text: string): (r: Option<Parsed<Json>>)
    ensures r.Some? ==> |r.value.rest| < |text|
    decreases |text|, 0
  {
    var s := Skip(text);
    if s == "" then None
    else if s[0] == '"' then
      match ParseString(s[1..])
      case None => None
      case Some(p) => Some(Parsed(Str(p.value), p.rest))
    else if s[0] == '{' then
      var t := Skip(s[1..]);
      if t != "" && t[0] == '}' then Some(Parsed(Obj([]), t[1..]))
      else
        match ParseMembers(s[1..])
        case None => None
        case Some(p) => Some(Parsed(Obj(p.value), p.rest))
    else if s[0] == '[' then
      var t := Skip(s[1..]);
      if t != "" && t[0] == ']' then Some(Parsed(Arr([]), t[1..]))
      else
        match ParseElements(s[1..])
        case None => None
        case Some(p) => Some(Parsed(Arr(p.value), p.rest))
    else ParseScalar(s)
  }

  function ParseElements(s: string): (r: Option<Parsed<seq<Json>>>)
    ensures r.Some? ==> |r.value.rest| < |s|
    decreases |s|, 1
  {
    match ParseValue(s)
    case None => None
    case Some(p) =>
      var t := Skip(p.rest);
      if t == "" then None
      else if t[0] == ']' then Some(Parsed([p.value], t[1..]))
      else if t[0] != ',' then None
      else
        match ParseElements(t[1..])
        case None => None
        case Some(q) => Some(Parsed([p.value] + q.value, q.rest))
  }

  /** A key with its colon and value. */
  function ParseMember(text: string): (r: Option<Parsed<Member>>)
    ensures r.Some? ==> |r.value.rest| < |text|
    decreases |text|, 1
  {
    var s := Skip(text);
    if s == "" || s[0] != '"' then None
    else
      match ParseString(s[1..])
      case None => None
      case Some(k) =>
        var t := Skip(k.rest);
        if t == "" || t[0] != ':' then None
        else
          match ParseValue(t[1..])
          case None => None
          case Some(v) => Some(Parsed(Member(k.value, v.value), v.rest))
  }

  function ParseMembers(s: string): (r: Option<Parsed<seq<Member>>>)
    ensures r.Some? ==> |r.value.rest| < |s|
    decreases |s|, 2
  {
    match ParseMember(s)
    case None => None
    case Some(p) =>
      var t := Skip(p.rest);
      if t == "" then None
      else if t[0] == '}' then Some(Parsed([p.value], t[1..]))
      else if t[0] != ',' then None
      else
        match ParseMembers(t[1..])
        case None => None
        case Some(q) => Some(Parsed([p.value] + q.value, q.rest))
  }

  /** QJsonDocument::fromJson(...).object(): empty unless the whole text is one object. */
  function ParseObject(s: string): seq<Member> {
    match ParseValue(s)
    case Some(Parsed(Obj(members), rest)) => if Skip(rest) == "" then members else []
    case _ => []
  }

  // ---- Reading values, with the defaults of QJsonValue ----

  function Lookup(members: seq<Member>, key: string): Option<Json> {
    if members == [] then None
    else if members[|members| - 1].key == key then Some(members[|members| - 1].value)
    else Lookup(members[..|members| - 1], key)
  }

  function ToDouble(v: Option<Json>): real {
    match v
    case Some(Num(numeral)) => ValueOf(numeral)
    case _ => 0.0
  }

  /** toDouble(0) cast to an integer, which truncates. */
  function ToLong(v: Option<Json>): int {
    var x := ToDouble(v);
    if x >= 0.0 then x.Floor else -(-x).Floor
  }

  /** toInt(0): only a whole number in range is an integer. */
  function ToInt(v: Option<Json>): int32 {
    var x := ToDouble(v);
    if x == x.Floor as real && -0x8000_0000 <= x.Floor < 0x8000_0000 then x.Floor else 0
  }

  function ToBool(v: Option<Json>): bool {
    match v
    case Some(Bool(flag)) => flag
    case _ => false
  }

  function ToString(v: Option<Json>): string {
    match v
    case Some(Str(text)) => text
    case _ => ""
  }

  function ToArray(v: Option<Json>): seq<Json> {
    match v
    case Some(Arr(elements)) => elements
    case _ => []
  }

  // ---- Decoding what was printed ----

  /** Text that no decoder rejects for its control characters. */
  predicate Readable(s: string) { forall i | 0 <= i < |s| :: Passes(s[i]) }

  predicate NoQuote(s: string) { forall i | 0 <= i < |s| :: s[i] != '"' }

  /** Text that is its own JSON representation. */
  predicate Plain(s: string) { Readable(s) && NoQuote(s) && forall i | 0 <= i < |s| :: s[i] != '\\' }

  /** Plain text on one line. */
  predicate Clear(s: string) { Plain(s) && NoNewline(s) }

  lemma ParseChar(c: char, tail: string)
    requires c != '"' && c != '\\'
    ensures ParseString([c] + tail) == if Passes(c) then PrependText([c], ParseString(tail)) else None
  {
    assert ([c] + tail)[1..] == tail;
  }

  lemma ParseQuote(rest: string)
    ensures ParseString("\"" + rest) == Some(Parsed("", rest))
  {
    assert ("\"" + rest)[1..] == rest;
  }

  lemma {:induction false} ParsePlain(s: string, rest: string)
    requires Plain(s)
    ensures ParseString(s + ("\"" + rest)) == Some(Parsed(s, rest))
  {
    var end := "\"" + rest;
    if s == "" {
      ParseQuote(rest);
      assert s + end == end;
    } else {
      ParsePlain(s[1..], rest);
      ParseChar(s[0], s[1..] + end);
      assert s == [s[0]] + s[1..];
      Associative([s[0]], s[1..], end);
    }
  }

  /** A character that can follow a number and is no part of one. */
  predicate Ends(c: char) { c == ',' || c == '}' || c == ']' }

  lemma DigitsBefore(s: string, rest: string, i: nat)
    requires i <= |s| && rest != "" && Ends(rest[0])
    ensures DigitsEnd(s + rest, i) == DigitsEnd(s, i)
  {
    DigitsEndIs(s + rest, i, DigitsEnd(s, i));
  }

  lemma IntegerBefore(s: string, rest: string)
    requires s != "" && rest != "" && Ends(rest[0])
    ensures IntegerEnd(s + rest) == IntegerEnd(s)
  {
    DigitsBefore(s, rest, if s[0] == '-' then 1 else 0);
  }

  lemma FractionBefore(s: string, rest: string, i: nat)
    requires i <= |s| && rest != "" && Ends(rest[0])
    ensures FractionEnd(s + rest, i) == FractionEnd(s, i)
  {
    if i < |s| {
      DigitsBefore(s, rest, i + 1);
    }
  }

  lemma ExponentBefore(s: string, rest: string, i: nat)
    requires i <= |s| && rest != "" && Ends(rest[0])
    ensures ExponentEnd(s + rest, i) == ExponentEnd(s, i)
  {
    if i < |s| {
      assert ExponentStart(s + rest, i) == ExponentStart(s, i);
      DigitsBefore(s, rest, ExponentStart(s, i));
    }
  }

  /** A numeral is read up to the character that ends it. */
  lemma ParseNumeralBefore(s: Numeral, rest: string)
    requires rest != "" && Ends(rest[0])
    ensures ParseNumeral(s + rest) == Some(Parsed(s, rest))
  {
    IntegerBefore(s, rest);
    FractionBefore(s, rest, IntegerEnd(s).value);
    ExponentBefore(s, rest, FractionEnd(s, IntegerEnd(s).value).value);
    assert (s + rest)[..|s|] == s && (s + rest)[|s|..] == rest;
  }

  lemma ScalarIsValue(s: string)
    requires s != "" && (s[0] == '-' || IsDigit(s[0]) || s[0] == 't' || s[0] == 'f')
    ensures ParseValue(s) == ParseScalar(s)
  {
    assert Skip(s) == s;
    assert s[0] != '"' && s[0] != '{' && s[0] != '[';
  }

  lemma ParseNumber(s: Numeral, rest: string)
    requires rest != "" && Ends(rest[0])
    ensures ParseValue(s + rest) == Some(Parsed(Num(s), rest))
  {
    ParseNumeralBefore(s, rest);
    ScalarIsValue(s + rest);
  }

  function FlagText(flag: bool): string { if flag then "true" else "false" }

  lemma ParseFlag(flag: bool, rest: string)
    ensures ParseValue(FlagText(flag) + rest) == Some(Parsed(Bool(flag), rest))
  {
    var s := FlagText(flag) + rest;
    assert FlagText(flag) <= s && s[|FlagText(flag)|..] == rest;
    ScalarIsValue(s);
  }

  lemma ParseQuoted(tail: string)
    ensures ParseValue("\"" + tail)
         == match ParseString(tail) case None => None case Some(p) => Some(Parsed(Str(p.value), p.rest))
  {
    assert ("\"" + tail)[1..] == tail;
  }

  // ---- Whole numbers ----

  lemma {:induction false} NoLeadingZero(n: nat)
    requires n > 0
    ensures Decimal(n)[0] != '0'
  {
    if n >= 10 {
      NoLeadingZero(n / 10);
    }
  }

  lemma DecimalLength(n: nat)
    ensures |Decimal(n)| > 1 ==> Decimal(n)[0] != '0'
  {
    if n > 0 {
      NoLeadingZero(n);
    }
  }

  lemma IntegerEndIs(i: int)
    ensures IntegerEnd(DecimalInt(i)) == Some(|DecimalInt(i)|)
  {
    var s, sign := DecimalInt(i), if i < 0 then 1 else 0;
    var digits := Decimal(if i < 0 then -i else i);
    DecimalLength(if i < 0 then -i else i);
    assert s[sign..] == digits;
    assert forall k | sign <= k < |s| :: s[k] == digits[k - sign];
    DigitsEndIs(s, sign, |s|);
  }

  lemma IntegerIsNumeral(i: int)
    ensures NumeralEnd(DecimalInt(i)) == Some(|DecimalInt(i)|)
  {
    IntegerEndIs(i);
  }

  /** A printed integer is a numeral and denotes itself. */
  lemma IntegerValue(i: int)
    ensures NumeralEnd(DecimalInt(i)) == Some(|DecimalInt(i)|)
    ensures ValueOf(DecimalInt(i)) == i as real
  {
    var s, sign, n := DecimalInt(i), if i < 0 then 1 else 0, if i < 0 then -i else i;
    IntegerEndIs(i);
    ParseDecimalInverse(n);
    assert s[sign..|s|] == Decimal(n) && Decimal(n) + "" == Decimal(n);
    assert i >= 0 ==> IsDigit(s[0]);
  }

  lemma LongOfInteger(i: int)
    ensures NumeralEnd(DecimalInt(i)) == Some(|DecimalInt(i)|) && ToLong(Some(Num(DecimalInt(i)))) == i
  {
    IntegerValue(i);
  }

  lemma IntOfInteger(i: int32)
    ensures NumeralEnd(DecimalInt(i)) == Some(|DecimalInt(i)|) && ToInt(Some(Num(DecimalInt(i)))) == i
  {
    IntegerValue(i);
  }

  lemma NoNewlineInNumeral(s: Numeral)
    ensures NoNewline(s)
  {
    var i := IntegerEnd(s).value;
    var j := FractionEnd(s, i).value;
    assert forall k | 0 <= k < i :: s[k] == '-' || IsDigit(s[k]);
    assert forall k | i <= k < j :: s[k] == '.' || IsDigit(s[k]);
    if j < |s| {
      var d := ExponentStart(s, j);
      assert forall k | d <= k < |s| :: IsDigit(s[k]);
    }
  }

  // ---- Arrays, element by element ----

  function PrependElement(v: Json, r: Option<Parsed<seq<Json>>>): Option<Parsed<seq<Json>>> {
    match r
    case None => None
    case Some(p) => Some(Parsed([v] + p.value, p.rest))
  }


  lemma LastElement(first: string, rest: string, v: Json)
    requires ParseValue(first + ("]" + rest)) == Some(Parsed(v, "]" + rest))
    ensures ParseElements(first + ("]" + rest)) == Some(Parsed([v], rest))
  {
    assert ("]" + rest)[1..] == rest;
  }

  lemma NextElement(first: string, tail: string, v: Json)
    requires ParseValue(first + ("," + tail)) == Some(Parsed(v, "," + tail))
    ensures ParseElements(first + ("," + tail)) == PrependElement(v, ParseElements(tail))
  {
    assert ("," + tail)[1..] == tail;
  }

  // ---- Objects, member by member ----

  function Prefixed(first: Member, more: Option<seq<Member>>): Option<seq<Member>> {
    match more
    case None => None
    case Some(ms) => Some([first] + ms)
  }

  /** The members of an object whose text behind the opening brace is `s`, up to the end of the document. */
  function AllMembers(s: string): Option<seq<Member>> {
    match ParseMembers(s)
    case Some(Parsed(ms, rest)) => if Skip(rest) == "" then Some(ms) else None
    case None => None
  }

  /** Reading members does not stop before the end of the document, unless it fails. */
  predicate Closes(s: string) { ParseMembers(s).Some? ==> AllMembers(s).Some? }

  /** The members that follow a value. */
  function MoreMembers(rest: string): Option<seq<Member>> {
    var t := Skip(rest);
    if t == "" then None
    else if t[0] == '}' then (if Skip(t[1..]) == "" then Some([]) else None)
    else if t[0] != ',' then None
    else AllMembers(t[1..])
  }

  lemma ObjectOfMembers(s: string)
    requires s != "" && s[0] == '"'
    ensures ParseObject("{" + s) == match AllMembers(s) case None => [] case Some(ms) => ms
  {
    assert ("{" + s)[1..] == s;
  }

  lemma MoreAfterComma(s: string)
    ensures MoreMembers("," + s) == AllMembers(s)
  {
    assert ("," + s)[1..] == s;
  }

  lemma NoMoreMembers()
    ensures MoreMembers("}") == Some([])
  {
    assert "}"[1..] == "";
  }

  /** A key in front of the text of its value. */
  function Keyed(key: string, value: string): string { "\"" + (key + ("\"" + (":" + value))) }

  lemma ParseKeyed(key: string, value: string)
    requires Plain(key)
    ensures ParseMember(Keyed(key, value))
         == match ParseValue(value) case None => None case Some(p) => Some(Parsed(Member(key, p.value), p.rest))
  {
    assert Keyed(key, value)[1..] == key + ("\"" + (":" + value));
    ParsePlain(key, ":" + value);
    assert (":" + value)[1..] == value;
  }

  lemma MembersStep(key: string, value: string)
    requires Plain(key)
    ensures AllMembers(Keyed(key, value))
         == match ParseValue(value)
            case None => None
            case Some(p) => Prefixed(Member(key, p.value), MoreMembers(p.rest))
  {
    ParseKeyed(key, value);
    MembersOf(Keyed(key, value));
  }

  lemma MembersOf(s: string)
    ensures AllMembers(s)
         == match ParseMember(s) case None => None case Some(p) => Prefixed(p.value, MoreMembers(p.rest))
  {
    if ParseMember(s).Some? {
      var first := ParseMember(s).value.value;
      assert [first] + [] == [first];
    }
  }

  /** A member whose value is known, and the members behind it. */
  lemma MemberThen(key: string, text: string, value: Json, more: string)
    requires Plain(key) && ParseValue(text + ("," + more)) == Some(Parsed(value, "," + more))
    ensures AllMembers(Keyed(key, text + ("," + more))) == Prefixed(Member(key, value), AllMembers(more))
  {
    MembersStep(key, text + ("," + more));
    MoreAfterComma(more);
  }

  lemma LastMember(key: string, text: string, value: Json)
    requires Plain(key) && ParseValue(text + "}") == Some(Parsed(value, "}"))
    ensures AllMembers(Keyed(key, text + "}")) == Some([Member(key, value)])
  {
    MembersStep(key, text + "}");
    NoMoreMembers();
    assert [Member(key, value)] + [] == [Member(key, value)];
  }

  lemma NumberLast(key: string, n: Numeral)
    requires Plain(key)
    ensures AllMembers(Keyed(key, n + "}")) == Some([Member(key, Num(n))])
  {
    ParseNumber(n, "}");
    LastMember(key, n, Num(n));
  }

  lemma OneMember(m: Member)
    ensures Lookup([m], m.key) == Some(m.value)
  {
    assert [m][..0] == [];
  }

  function QuotedText(s: string): string { "\"" + (s + "\"") }

  lemma QuotedThen(s: string, rest: string)
    ensures QuotedText(s) + rest == "\"" + (s + ("\"" + rest))
  {
    Associative(s, "\"", rest);
    Associative("\"", s + "\"", rest);
  }

  lemma ParsePlainValue(s: string, rest: string)
    requires Plain(s)
    ensures ParseValue(QuotedText(s) + rest) == Some(Parsed(Str(s), rest))
  {
    QuotedThen(s, rest);
    ParseQuoted(s + ("\"" + rest));
    ParsePlain(s, rest);
  }

  lemma {:induction false} LookupIs(ms: seq<Member>, k: nat)
    requires k < |ms| && forall i, j | 0 <= i < j < |ms| :: ms[i].key != ms[j].key
    ensures Lookup(ms, ms[k].key) == Some(ms[k].value)
  {
    if k < |ms| - 1 {
      LookupIs(ms[..|ms| - 1], k);
    }
  }

  lemma LookupAbsent(ms: seq<Member>, key: string)
    requires forall m | m in ms :: m.key != key
    ensures Lookup(ms, key) == None
  {
  }

  lemma LookupLast(ms: seq<Member>, m: Member, key: string)
    ensures Lookup(ms + [m], key) == if m.key == key then Some(m.value) else Lookup(ms, key)
  {
    assert (ms + [m])[..|ms|] == ms;
  }

  lemma LookupAppend(a: seq<Member>, b: seq<Member>, key: string)
    ensures Lookup(a + b, key) == if Lookup(b, key).Some? then Lookup(b, key) else Lookup(a, key)
  {
    if b == [] {
      assert a + b == a;
    } else {
      assert (a + b)[..|a + b| - 1] == a + b[..|b| - 1];
      LookupAppend(a, b[..|b| - 1], key);
    }
  }

  lemma LookupIsMember(ms: seq<Member>, key: string)
    ensures Lookup(ms, key).Some? ==> exists m | m in ms :: m.key == key && m.value == Lookup(ms, key).value
  {
    if ms != [] && ms[|ms| - 1].key != key {
      LookupIsMember(ms[..|ms| - 1], key);
    } else if ms != [] {
      assert ms[|ms| - 1] in ms;
    }
  }
}
