/**
  Texts that are written between quotes as they are, without escapes. Whatever quotes, braces or further
  members they contain, a decoder gives such a text back for its member only if it is plain.
 */
module RawFields {
  import opened Models
  import opened JsonDecoder
  import opened JsonPrefixes

  // ---- What stands behind a raw text ----

  /** No separator, no bracket that closes, and no quote. */
  predicate Odd(c: char) { !IsBlank(c) && c != ',' && c != ':' && c != '}' && c != ']' && c != '"' }

  /**
    What follows a raw text; the places behind it at which reading may have stopped; and the members
    that may have been read from there.
   */
  datatype Behind = Behind(end: string, stops: string -> bool, later: Member -> bool)

  predicate AllLater(ms: seq<Member>, b: Behind) { forall m | m in ms && m.value.Str? :: b.later(m) }

  /** Reading on from such a place leads to such a place, and to later members only. */
  predicate ReadsOn(rest: string, b: Behind) {
    var t := Skip(rest);
    t == "" ||
    (&& (t[0] == '}' || t[0] == ']' ==> b.stops(t[1..]))
     && (t[0] == ',' && ParseElements(t[1..]).Some? ==> b.stops(ParseElements(t[1..]).value.rest))
     && (t[0] == ',' && ParseMembers(t[1..]).Some? ==>
           b.stops(ParseMembers(t[1..]).value.rest) && AllLater(ParseMembers(t[1..]).value.value, b)))
  }

  /** The text was cut, or its quote is closed and a key follows. */
  predicate KeyFollows(e: string) {
    e == "" || (|e| > 3 && e[0] == '"' && e[1] == ',' && e[2] == '"' && Odd(e[3]))
  }

  ghost predicate Safe(b: Behind) {
    && KeyFollows(b.end)
    && (b.end != "" ==> b.stops(b.end[1..]) && b.stops(b.end[3..]))
    && forall rest: string | b.stops(rest) :: ReadsOn(rest, b)
  }

  // ---- Where reading can stop: inside the raw text, behind its quote, or stuck ----

  /** At most `n` characters of the raw text are left. */
  predicate Inside(rest: string, e: string, n: int) { |e| <= |rest| <= n + |e| && rest[|rest| - |e|..] == e }

  predicate Closed(rest: string, e: string) { e != "" && rest == e[1..] }

  predicate Stuck(rest: string, e: string) { |e| > 3 && rest == e[3..] }

  lemma InsideIs(u: string, e: string, n: int)
    requires |u| <= n
    ensures Inside(u + e, e, n)
  {
  }

  lemma {:induction false} SkipInside(u: string, e: string)
    requires KeyFollows(e)
    ensures Inside(Skip(u + e), e, |u|)
  {
    if u == "" {
      assert u + e == e;
    } else if IsBlank(u[0]) {
      assert (u + e)[1..] == u[1..] + e;
      SkipInside(u[1..], e);
    } else {
      InsideIs(u, e, |u|);
    }
  }

  /** What is left of the raw text. */
  function Left(rest: string, e: string): (u: string)
    requires |e| <= |rest| && rest[|rest| - |e|..] == e
    ensures u + e == rest
  {
    rest[..|rest| - |e|]
  }

  /** How a string ends that started with `n` characters of the raw text left. */
  predicate StringStops(p: Parsed<string>, e: string, n: nat) {
    || Inside(p.rest, e, n - 1 - |p.value|)
    || (Closed(p.rest, e) && |p.value| <= n)
    || Stuck(p.rest, e)
  }

  /** A string whose opening quote closes the raw text gets stuck behind the next quote. */
  lemma CommaString(e: string)
    requires KeyFollows(e) && e != ""
    ensures ParseString(e[1..]) == Some(Parsed(",", e[3..]))
  {
    assert e[1..] == [','] + ("\"" + e[3..]);
    ParseChar(',', "\"" + e[3..]);
    ParseQuote(e[3..]);
    assert "," + "" == ",";
  }

  lemma UnitInside(u: string, e: string)
    requires KeyFollows(e) && |u| >= 2 && CodeUnit((u + e)[2..]).Some?
    ensures |u| >= 6
  {
    var s := u + e;
    assert forall k | 0 <= k < 4 :: s[2..][k] == s[k + 2] && IsHex(s[k + 2]);
    assert e != "" ==> s[|u|] == '"';
  }

  lemma {:induction false} StringInside(u: string, e: string)
    requires KeyFollows(e) && ParseString(u + e).Some?
    ensures StringStops(ParseString(u + e).value, e, |u|)
    ensures u != "" && u[0] == '\\' && Closed(ParseString(u + e).value.rest, e) ==>
              |ParseString(u + e).value.value| < |u|
    decreases |u|
  {
    var s := u + e;
    if u == "" {
      assert s == e;
    } else if u[0] == '"' {
      Suffix(u, e, 1);
      InsideIs(u[1..], e, |u| - 1);
    } else if u[0] != '\\' {
      Suffix(u, e, 1);
      StringInside(u[1..], e);
    } else if |u| == 1 {
      assert e != "" && s[1] == '"' && s[2..] == e[1..];
      CommaString(e);
    } else if u[1] == 'u' {
      UnitInside(u, e);
      Suffix(u, e, 6);
      StringInside(u[6..], e);
    } else {
      Suffix(u, e, 2);
      StringInside(u[2..], e);
    }
  }

  lemma NumeralInside(s: string, k: nat)
    requires k < |s| && s[k] == '"' && NumeralEnd(s).Some?
    ensures NumeralEnd(s).value <= k
  {
  }

  lemma NumberInside(u: string, e: string)
    requires KeyFollows(e) && NumeralEnd(u + e).Some?
    ensures NumeralEnd(u + e).value <= |u|
  {
    if e != "" {
      NumeralInside(u + e, |u|);
    }
  }

  lemma WordInside(u: string, e: string, word: string)
    requires KeyFollows(e) && word <= u + e && '"' !in word
    ensures |word| <= |u|
  {
    assert forall i | 0 <= i < |word| :: (u + e)[i] == word[i] && word[i] in word;
    assert e != "" ==> (u + e)[|u|] == '"';
  }

  lemma SuffixInside(u: string, e: string, k: nat)
    requires 0 < k <= |u|
    ensures Inside((u + e)[k..], e, |u| - 1)
  {
    Suffix(u, e, k);
    InsideIs(u[k..], e, |u| - 1);
  }

  lemma ScalarInside(u: string, e: string)
    requires KeyFollows(e) && u != "" && ParseScalar(u + e).Some?
    ensures Inside(ParseScalar(u + e).value.rest, e, |u| - 1)
  {
    var s := u + e;
    if s[0] == 't' || s[0] == 'f' || s[0] == 'n' {
      var word := if s[0] == 't' then "true" else if s[0] == 'f' then "false" else "null";
      WordInside(u, e, word);
      SuffixInside(u, e, |word|);
    } else {
      NumberInside(u, e);
      SuffixInside(u, e, NumeralEnd(s).value);
    }
  }

  // ---- Values, arrays and objects ----

  /** How a value ends. A string is shorter than the raw text it was read in, unless reading is stuck. */
  predicate ValueStops(p: Parsed<Json>, b: Behind, n: nat) {
    && (Inside(p.rest, b.end, n - 1) || b.stops(p.rest))
    && (p.value.Str? && !Stuck(p.rest, b.end) ==> |p.value.text| < n)
  }

  lemma QuotedInside(v: string, b: Behind)
    requires Safe(b) && v + b.end != "" && (v + b.end)[0] == '"' && ParseString((v + b.end)[1..]).Some?
    ensures var p := ParseString((v + b.end)[1..]).value;
            && (Inside(p.rest, b.end, |v| - 1) || b.stops(p.rest)) && (!Stuck(p.rest, b.end) ==> |p.value| < |v|)
  {
    var e := b.end;
    if v == "" {
      assert v + e == e;
      CommaString(e);
    } else {
      Suffix(v, e, 1);
      StringInside(v[1..], e);
    }
  }

  lemma StringValueInside(v: string, b: Behind)
    requires Safe(b) && v + b.end != "" && (v + b.end)[0] == '"' && ParseValue(v + b.end).Some?
    ensures ValueStops(ParseValue(v + b.end).value, b, |v|)
  {
    assert Skip(v + b.end) == v + b.end;
    QuotedInside(v, b);
  }

  lemma ScalarIsNoString(s: string)
    requires s != "" && StartsDark(s) && s[0] != '"' && s[0] != '{' && s[0] != '['
    ensures ParseValue(s) == ParseScalar(s) && (ParseScalar(s).Some? ==> !ParseScalar(s).value.value.Str?)
  {
    assert Skip(s) == s;
  }

  lemma ScalarValueInside(v: string, b: Behind)
    requires Safe(b) && v != "" && StartsDark(v + b.end) && v[0] != '"' && v[0] != '{' && v[0] != '['
    requires ParseValue(v + b.end).Some?
    ensures ValueStops(ParseValue(v + b.end).value, b, |v|)
  {
    ScalarIsNoString(v + b.end);
    ScalarInside(v, b.end);
  }

  lemma SkippedValue(s: string)
    ensures ParseValue(s) == ParseValue(Skip(s))
  {
  }

  lemma {:induction false} DarkValueInside(v: string, b: Behind)
    requires Safe(b) && StartsDark(v + b.end) && ParseValue(v + b.end).Some?
    ensures ValueStops(ParseValue(v + b.end).value, b, |v|)
    decreases |v|, 1
  {
    var s := v + b.end;
    if s != "" && s[0] == '"' {
      StringValueInside(v, b);
    } else if v != "" && (v[0] == '{' || v[0] == '[') {
      BracketInside(v, b);
    } else if v != "" {
      ScalarValueInside(v, b);
    }
  }

  lemma WiderStops(p: Parsed<Json>, b: Behind, n: nat, m: nat)
    requires ValueStops(p, b, n) && n <= m
    ensures ValueStops(p, b, m)
  {
  }

  lemma {:induction false} ValueInside(u: string, b: Behind)
    requires Safe(b) && ParseValue(u + b.end).Some?
    ensures ValueStops(ParseValue(u + b.end).value, b, |u|)
    decreases |u|, 2
  {
    SkipInside(u, b.end);
    SkippedValue(u + b.end);
    var v := Left(Skip(u + b.end), b.end);
    DarkValueInside(v, b);
    WiderStops(ParseValue(v + b.end).value, b, |v|, |u|);
  }

  /** One character that is no quote, behind blanks: it is one of the raw text. */
  lemma PassMark(rest: string, e: string, n: int) returns (v: string)
    requires KeyFollows(e) && Inside(rest, e, n) && Skip(rest) != "" && Skip(rest)[0] != '"'
    ensures Skip(rest)[1..] == v + e && |v| < n
  {
    SkipInside(Left(rest, e), e);
    var t := Left(Skip(rest), e);
    v := t[1..];
    Suffix(t, e, 1);
  }

  /** A value in brackets: empty, or with what its members or elements leave. */
  lemma Bracket(s: string)
    requires s != "" && (s[0] == '{' || s[0] == '[') && ParseValue(s).Some?
    ensures !ParseValue(s).value.value.Str?
    ensures var p, t := ParseValue(s).value, Skip(s[1..]);
            || (t != "" && t[0] != '"' && p.rest == t[1..])
            || (s[0] == '{' && ParseMembers(s[1..]).Some? && p.rest == ParseMembers(s[1..]).value.rest)
            || (s[0] == '[' && ParseElements(s[1..]).Some? && p.rest == ParseElements(s[1..]).value.rest)
  {
    assert Skip(s) == s;
  }

  lemma {:induction false} BracketInside(u: string, b: Behind)
    requires Safe(b) && u != "" && (u[0] == '{' || u[0] == '[') && ParseValue(u + b.end).Some?
    ensures ValueStops(ParseValue(u + b.end).value, b, |u|)
    decreases |u|, 0
  {
    var s := u + b.end;
    var t, rest := Skip(s[1..]), ParseValue(s).value.rest;
    Bracket(s);
    Suffix(u, b.end, 1);
    InsideIs(u[1..], b.end, |u| - 1);
    if t != "" && t[0] != '"' && rest == t[1..] {
      var v := PassMark(s[1..], b.end, |u| - 1);
      InsideIs(v, b.end, |u| - 2);
    } else if u[0] == '{' {
      MembersInside(u[1..], b);
    } else {
      ElementsInside(u[1..], b);
    }
  }

  predicate ListStops(rest: string, b: Behind, n: nat) { Inside(rest, b.end, n - 1) || b.stops(rest) }

  lemma {:induction false} ElementsInside(u: string, b: Behind)
    requires Safe(b) && ParseElements(u + b.end).Some?
    ensures ListStops(ParseElements(u + b.end).value.rest, b, |u|)
    decreases |u|, 3
  {
    var p := ParseValue(u + b.end).value;
    ValueInside(u, b);
    if b.stops(p.rest) {
      assert ReadsOn(p.rest, b);
    } else {
      var v := PassMark(p.rest, b.end, |u| - 1);
      if Skip(p.rest)[0] == ',' {
        ElementsInside(v, b);
      } else {
        InsideIs(v, b.end, |u| - 2);
      }
    }
  }

  predicate MemberStops(p: Parsed<Member>, b: Behind, n: nat) {
    && ListStops(p.rest, b, n)
    && (p.value.value.Str? && !Stuck(p.rest, b.end) ==> |p.value.value.text| < n)
  }

  /** A key that is followed by a colon ends inside the raw text. */
  lemma KeyInside(v: string, e: string) returns (w: string)
    requires KeyFollows(e) && v + e != "" && (v + e)[0] == '"' && ParseString((v + e)[1..]).Some?
    requires var t := Skip(ParseString((v + e)[1..]).value.rest); t != "" && t[0] == ':'
    ensures Skip(ParseString((v + e)[1..]).value.rest)[1..] == w + e && |w| < |v|
  {
    var k := ParseString((v + e)[1..]).value;
    if v == "" {
      CommaString(e);
    } else {
      Suffix(v, e, 1);
      StringInside(v[1..], e);
    }
    assert StartsDark(k.rest) ==> k.rest[0] == ':';
    w := PassMark(k.rest, e, |v| - 2);
  }

  lemma MemberParts(text: string)
    requires ParseMember(text).Some?
    ensures var s := Skip(text);
            && s != "" && s[0] == '"' && ParseString(s[1..]).Some?
            && var t := Skip(ParseString(s[1..]).value.rest);
               && t != "" && t[0] == ':' && ParseValue(t[1..]).Some?
               && ParseMember(text).value.rest == ParseValue(t[1..]).value.rest
               && ParseMember(text).value.value.value == ParseValue(t[1..]).value.value
  {
  }

  lemma {:induction false} MemberInside(u: string, b: Behind)
    requires Safe(b) && ParseMember(u + b.end).Some?
    ensures MemberStops(ParseMember(u + b.end).value, b, |u|)
    decreases |u|, 3
  {
    MemberParts(u + b.end);
    SkipInside(u, b.end);
    var v := Left(Skip(u + b.end), b.end);
    var w := KeyInside(v, b.end);
    ValueInside(w, b);
    WiderStops(ParseValue(w + b.end).value, b, |w|, |u|);
  }

  /** The strings among the members are shorter than the raw text, unless they belong to a later member. */
  predicate MembersFit(ms: seq<Member>, b: Behind, n: nat) {
    forall m | m in ms && m.value.Str? :: |m.value.text| < n || b.later(m)
  }

  lemma {:induction false} MembersInside(u: string, b: Behind)
    requires Safe(b) && ParseMembers(u + b.end).Some?
    ensures var p := ParseMembers(u + b.end).value; ListStops(p.rest, b, |u|) && MembersFit(p.value, b, |u|)
    decreases |u|, 4
  {
    var p := ParseMember(u + b.end).value;
    MemberInside(u, b);
    if b.stops(p.rest) {
      assert ReadsOn(p.rest, b);
      assert Stuck(p.rest, b.end) ==> Skip(p.rest) == p.rest;
    } else {
      var v := PassMark(p.rest, b.end, |u| - 1);
      if Skip(p.rest)[0] == ',' {
        MembersInside(v, b);
      } else {
        InsideIs(v, b.end, |u| - 2);
      }
    }
  }

  // ---- Reading the raw member back ----

  lemma PlainCons(t: string)
    requires t != "" && Plain(t[1..]) && Passes(t[0]) && t[0] != '"' && t[0] != '\\'
    ensures Plain(t)
  {
    assert forall i | 1 <= i < |t| :: t[i] == t[1..][i - 1];
  }

  /** A raw text that is closed and not read any shorter does not start with a quote or an escape. */
  lemma NoEscapeRead(t: string, e: string)
    requires KeyFollows(e) && t != "" && ParseString(t + e).Some?
    requires var p := ParseString(t + e).value; Closed(p.rest, e) && |p.value| >= |t|
    ensures Passes(t[0]) && t[0] != '"' && t[0] != '\\'
    ensures var tail := ParseString((t + e)[1..]);
            tail.Some? && ParseString(t + e).value == Parsed([t[0]] + tail.value.value, tail.value.rest)
  {
    StringInside(t, e);
    assert (t + e)[0] == t[0];
    assert |(t + e)[1..]| >= |e|;
  }

  /** Only plain text is read back without getting shorter. */
  lemma {:induction false} OnlyPlainReadsBack(t: string, e: string)
    requires KeyFollows(e) && ParseString(t + e).Some?
    requires var p := ParseString(t + e).value; Closed(p.rest, e) && |p.value| >= |t|
    ensures Plain(t) && ParseString(t + e).value.value == t
  {
    if t != "" {
      StringInside(t, e);
      NoEscapeRead(t, e);
      Suffix(t, e, 1);
      OnlyPlainReadsBack(t[1..], e);
      PlainCons(t);
      assert [t[0]] + t[1..] == t;
    }
  }

  /** The members from the raw one on. */
  function RawMembers(name: string, t: string, e: string): Option<seq<Member>> {
    AllMembers(Keyed(name, "\"" + (t + e)))
  }

  predicate IsRead(ms: Option<seq<Member>>, name: string, text: string) {
    ms.Some? && Lookup(ms.value, name) == Some(Str(text))
  }

  lemma RawMembersAre(name: string, t: string, e: string)
    requires Plain(name)
    ensures RawMembers(name, t, e)
         == match ParseString(t + e)
            case None => None
            case Some(p) => Prefixed(Member(name, Str(p.value)), MoreMembers(p.rest))
  {
    ParseQuoted(t + e);
    MembersStep(name, "\"" + (t + e));
  }

  /** Behind the raw string, only shorter strings are read, and later members. */
  lemma {:induction false} MoreFits(t: string, b: Behind)
    requires Safe(b) && ParseString(t + b.end).Some? && MoreMembers(ParseString(t + b.end).value.rest).Some?
    ensures MembersFit(MoreMembers(ParseString(t + b.end).value.rest).value, b, |t|)
    ensures !Stuck(ParseString(t + b.end).value.rest, b.end)
  {
    var p := ParseString(t + b.end).value;
    StringInside(t, b.end);
    assert Stuck(p.rest, b.end) ==> Skip(p.rest) == p.rest;
    if Closed(p.rest, b.end) {
      assert ReadsOn(p.rest, b);
    } else {
      var v := PassMark(p.rest, b.end, |t| - 1);
      if Skip(p.rest)[0] == ',' {
        MembersInside(v, b);
      }
    }
  }

  /**
    A member with the raw text `t` is read as something no shorter only if the text is plain and was
    not cut, and then it is read as `t`; or if a later member of that name is read.
   */
  lemma {:induction false} RawReadsBack(name: string, t: string, b: Behind, text: string)
    requires Plain(name) && Safe(b) && IsRead(RawMembers(name, t, b.end), name, text) && |text| >= |t|
    ensures (b.end != "" && Plain(t) && text == t) || b.later(Member(name, Str(text)))
  {
    RawMembersAre(name, t, b.end);
    var p := ParseString(t + b.end).value;
    var more := MoreMembers(p.rest).value;
    StringInside(t, b.end);
    MoreFits(t, b);
    LookupAppend([Member(name, Str(p.value))], more, name);
    OneMember(Member(name, Str(p.value)));
    LookupIsMember(more, name);
    if Lookup(more, name) == None {
      OnlyPlainReadsBack(t, b.end);
    }
  }

  /** A member of another name is read as something shorter than `t`, or as a later member. */
  lemma {:induction false} OtherReadsBack(name: string, t: string, b: Behind, other: string, text: string)
    requires Plain(name) && Safe(b) && IsRead(RawMembers(name, t, b.end), other, text) && other != name
    ensures |text| < |t| || b.later(Member(other, Str(text)))
  {
    RawMembersAre(name, t, b.end);
    var p := ParseString(t + b.end).value;
    var first, more := [Member(name, Str(p.value))], MoreMembers(p.rest).value;
    MoreFits(t, b);
    LookupAppend(first, more, other);
    LookupAbsent(first, other);
    LookupIsMember(more, other);
  }

  // ---- What may stand behind ----

  /** Nothing: the text was cut. */
  function Cut(): Behind { Behind("", _ => false, _ => false) }

  lemma CutIsSafe()
    ensures Safe(Cut())
  {
  }

  /** A member that leads to the end of the document, unless it cannot be read. */
  predicate Ending(e: string) {
    KeyFollows(e) && (e != "" ==> ParseElements(e[2..]) == None && Closes(e[2..]))
  }

  function Later(e: string): seq<Member>
    requires Ending(e)
  {
    if e != "" && AllMembers(e[2..]).Some? then AllMembers(e[2..]).value else []
  }

  function Rest(e: string): Behind
    requires Ending(e)
  {
    Behind(e, rest => Closed(rest, e) || Stuck(rest, e) || Skip(rest) == "", m => m in Later(e))
  }

  lemma RestIsSafe(e: string)
    requires Ending(e)
    ensures Safe(Rest(e))
  {
    var b := Rest(e);
    forall rest: string | b.stops(rest)
      ensures ReadsOn(rest, b)
    {
      if Closed(rest, e) {
        assert rest[1..] == e[2..];
      }
    }
  }

  lemma CutEnding(e: string, k: nat)
    requires Ending(e) && 3 < k <= |e| && EndsDark(e)
    ensures Ending(e[..k]) && Later(e[..k]) <= Later(e)
  {
    if k == |e| {
      assert e[..k] == e;
    } else {
      var part, x := e[..k][2..], e[k..];
      assert e[2..] == part + x;
      assert x[|x| - 1] == e[|e| - 1];
      CutElementsFail(part, x);
      CutMembersFail(part, x);
    }
  }

  /** What is left of a raw text and its ending when the document is cut at `j`. */
  lemma CutRegion(t: string, e: string, j: nat) returns (part: string, b: Behind)
    requires Ending(e) && EndsDark(e) && j <= |t + e| && (j < |t| || j > |t| + 3)
    ensures Safe(b) && (t + e)[..j] == part + b.end && part <= t
    ensures j < |t| ==> |part| < |t| && b == Cut()
    ensures j > |t| ==> part == t && b.end != ""
    ensures forall m | b.later(m) :: m in Later(e)
  {
    if j < |t| {
      part, b := t[..j], Cut();
      assert (t + e)[..j] == t[..j] + "";
      CutIsSafe();
    } else {
      var end := e[..j - |t|];
      assert (t + e)[..j] == t + end;
      CutEnding(e, j - |t|);
      RestIsSafe(end);
      part, b := t, Rest(end);
      assert forall m | b.later(m) :: m in Later(end);
    }
  }

  /** A second raw text, the value of `key`. */
  function SecondEnd(key: string, t: string, e: string): string { "\"" + ("," + Keyed(key, "\"" + (t + e))) }

  function Second(key: string, t: string, b: Behind): Behind {
    var e := SecondEnd(key, t, b.end);
    Behind(e, rest => Closed(rest, e) || Stuck(rest, e) || Inside(rest, b.end, |t|) || b.stops(rest),
           m => b.later(m)
             || (m.value.Str? && (|m.value.text| < |t| || (m.key == key && Plain(t) && m.value.text == t))))
  }

  lemma StartsNoElement(key: string, value: string)
    requires Plain(key)
    ensures ParseElements(Keyed(key, value)) == None
  {
    assert Keyed(key, value)[1..] == key + ("\"" + (":" + value));
    ParsePlain(key, ":" + value);
  }

  /** The second raw text as the value of its member. */
  lemma SecondValue(key: string, t: string, b: Behind)
    requires Plain(key)
    ensures ParseMember(Keyed(key, "\"" + (t + b.end)))
         == match ParseString(t + b.end)
            case None => None
            case Some(k) => Some(Parsed(Member(key, Str(k.value)), k.rest))
  {
    ParseKeyed(key, "\"" + (t + b.end));
    ParseQuoted(t + b.end);
  }

  /** It is shorter than the text, or is the text, and that is plain. */
  lemma SecondIsLater(key: string, t: string, b: Behind)
    requires Safe(b) && ParseString(t + b.end).Some? && !Stuck(ParseString(t + b.end).value.rest, b.end)
    ensures Second(key, t, b).later(Member(key, Str(ParseString(t + b.end).value.value)))
  {
    var k := ParseString(t + b.end).value;
    StringInside(t, b.end);
    if Closed(k.rest, b.end) && |k.value| >= |t| {
      OnlyPlainReadsBack(t, b.end);
    }
  }

  lemma MembersCons(s: string)
    requires ParseMembers(s).Some?
    ensures ParseMember(s).Some?
    ensures var p, t, all := ParseMember(s).value, Skip(ParseMember(s).value.rest), ParseMembers(s).value;
            || (t != "" && t[0] == '}' && all == Parsed([p.value], t[1..]))
            || (t != "" && t[0] == ',' && ParseMembers(t[1..]).Some?
                && all == Parsed([p.value] + ParseMembers(t[1..]).value.value, ParseMembers(t[1..]).value.rest))
  {
  }

  /** Where the members behind the second raw text stop. */
  lemma BehindSecond(key: string, t: string, b: Behind, k: Parsed<string>)
    requires Safe(b) && StringStops(k, b.end, |t|) && Skip(k.rest) != ""
    requires Skip(k.rest)[0] == '}' || Skip(k.rest)[0] == ','
    ensures !Stuck(k.rest, b.end)
    ensures var rest := Skip(k.rest)[1..];
            && (Skip(k.rest)[0] == '}' ==> Inside(rest, b.end, |t|) || b.stops(rest))
            && (Skip(k.rest)[0] == ',' && ParseMembers(rest).Some? ==>
                  (Inside(ParseMembers(rest).value.rest, b.end, |t|) || b.stops(ParseMembers(rest).value.rest))
                  && AllLater(ParseMembers(rest).value.value, Second(key, t, b)))
  {
    assert Closed(k.rest, b.end) || Stuck(k.rest, b.end) ==> StartsDark(k.rest);
    if Closed(k.rest, b.end) {
      assert ReadsOn(k.rest, b);
    } else {
      var v := PassMark(k.rest, b.end, |t| - 1 - |k.value|);
      InsideIs(v, b.end, |t|);
      if ParseMembers(v + b.end).Some? {
        MembersInside(v, b);
      }
    }
  }

  lemma AllLaterCons(m: Member, ms: seq<Member>, b: Behind)
    requires b.later(m) && AllLater(ms, b)
    ensures AllLater([m], b) && AllLater([m] + ms, b)
  {
  }

  /** What the members from the second raw text on can be. */
  lemma SecondMembers(key: string, t: string, b: Behind)
    requires Plain(key) && Safe(b) && ParseMembers(Keyed(key, "\"" + (t + b.end))).Some?
    ensures var p := ParseMembers(Keyed(key, "\"" + (t + b.end))).value;
            && (Inside(p.rest, b.end, |t|) || b.stops(p.rest))
            && AllLater(p.value, Second(key, t, b))
  {
    SecondValue(key, t, b);
    MembersCons(Keyed(key, "\"" + (t + b.end)));
    StringInside(t, b.end);
    var k := ParseString(t + b.end).value;
    var first, mark := Member(key, Str(k.value)), Skip(k.rest);
    BehindSecond(key, t, b, k);
    SecondIsLater(key, t, b);
    if mark[0] == ',' {
      AllLaterCons(first, ParseMembers(mark[1..]).value.value, Second(key, t, b));
    } else {
      AllLaterCons(first, [], Second(key, t, b));
    }
  }

  lemma ElementsReadOn(v: string, key: string, t: string, b: Behind)
    requires Safe(b) && |v| <= |t| && ParseElements(v + b.end).Some?
    ensures Second(key, t, b).stops(ParseElements(v + b.end).value.rest)
  {
    ElementsInside(v, b);
  }

  lemma MembersReadOn(v: string, key: string, t: string, b: Behind)
    requires Safe(b) && |v| <= |t| && ParseMembers(v + b.end).Some?
    ensures Second(key, t, b).stops(ParseMembers(v + b.end).value.rest)
    ensures AllLater(ParseMembers(v + b.end).value.value, Second(key, t, b))
  {
    MembersInside(v, b);
  }

  lemma InsideReadsOn(rest: string, key: string, t: string, b: Behind)
    requires Safe(b) && Inside(rest, b.end, |t|)
    ensures ReadsOn(rest, Second(key, t, b))
  {
    if Skip(rest) != "" && Skip(rest)[0] != '"' {
      var v := PassMark(rest, b.end, |t|);
      InsideIs(v, b.end, |t|);
      if ParseElements(v + b.end).Some? {
        ElementsReadOn(v, key, t, b);
      }
      if ParseMembers(v + b.end).Some? {
        MembersReadOn(v, key, t, b);
      }
    }
  }

  lemma SecondIsSafe(key: string, t: string, b: Behind)
    requires Plain(key) && key != "" && Odd(key[0]) && Safe(b)
    ensures Safe(Second(key, t, b))
  {
    var e, second := SecondEnd(key, t, b.end), Second(key, t, b);
    assert e[3] == key[0];
    forall rest: string | second.stops(rest)
      ensures ReadsOn(rest, second)
    {
      if Closed(rest, e) {
        assert rest[1..] == Keyed(key, "\"" + (t + b.end));
        StartsNoElement(key, "\"" + (t + b.end));
        if ParseMembers(rest[1..]).Some? {
          SecondMembers(key, t, b);
        }
      } else if Inside(rest, b.end, |t|) {
        InsideReadsOn(rest, key, t, b);
      } else if b.stops(rest) {
        assert ReadsOn(rest, b);
      }
    }
  }
}
