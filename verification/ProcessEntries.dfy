/** How the entries of a response decode after the scanner has cut their names. */
module ProcessEntries {
  import opened Models
  import opened Text
  import opened JsonDecoder
  import opened ProcessList
  import opened MetricsJson

  // ---- Escaped text ----

  lemma PrependNothing(r: Option<Parsed<string>>)
    ensures PrependText("", r) == r
  {
    assert r.Some? ==> "" + r.value.value == r.value.value;
  }

  lemma ParseEscapedChar(c: char, tail: string)
    ensures ParseString(EscapeChar(c) + tail) == if Passes(c) then PrependText([c], ParseString(tail)) else None
  {
    assert (EscapeChar(c) + tail)[|EscapeChar(c)|..] == tail;
  }

  /** Decoding undoes escaping, whatever follows (section 7 of RFC 8259), unless a control character stops it. */
  lemma {:induction false} ParseEscaped(s: string, rest: string)
    ensures ParseString(Escape(s) + rest) == if Readable(s) then PrependText(s, ParseString(rest)) else None
  {
    if s == "" {
      assert Escape(s) + rest == rest;
      PrependNothing(ParseString(rest));
    } else {
      var tail := Escape(s[1..]) + rest;
      ParseEscaped(s[1..], rest);
      Associative(EscapeChar(s[0]), Escape(s[1..]), rest);
      ParseEscapedChar(s[0], tail);
      PrependTextTwice([s[0]], s[1..], ParseString(rest));
      assert [s[0]] + s[1..] == s;
      assert Readable(s) <==> Passes(s[0]) && Readable(s[1..]);
    }
  }

  lemma ParseEscapedString(s: string, rest: string)
    requires Readable(s)
    ensures ParseString(Escape(s) + ("\"" + rest)) == Some(Parsed(s, rest))
  {
    ParseEscaped(s, "\"" + rest);
    assert ("\"" + rest)[1..] == rest;
    assert s + "" == s;
  }

  lemma {:induction false} EscapeOfUnquoted(s: string)
    requires NoQuote(s)
    ensures NoQuote(Escape(s)) && CutAtQuote(Escape(s)) == Escape(s)
  {
    if s != "" {
      EscapeOfUnquoted(s[1..]);
    }
  }

  lemma EscapeAppend(a: string, b: string)
    ensures Escape(a + b) == Escape(a) + Escape(b)
  {
    if a == "" {
      assert a + b == b;
    } else {
      assert (a + b)[1..] == a[1..] + b;
      EscapeAppend(a[1..], b);
      Associative(EscapeChar(a[0]), Escape(a[1..]), Escape(b));
    }
  }

  /** A name with a quote comes out of the scanner with a dangling backslash. */
  lemma CutOfQuoted(s: string, q: nat)
    requires q < |s| && s[q] == '"' && NoQuote(s[..q])
    ensures CutAtQuote(Escape(s)) == Escape(s[..q]) + "\\"
  {
    var a, b := Escape(s[..q]), Escape(s[q + 1..]);
    EscapeOfUnquoted(s[..q]);
    EscapeAppend(s[..q], s[q..]);
    assert s == s[..q] + s[q..] && s[q..][1..] == s[q + 1..];
    CutBehind(a, b);
  }

  lemma CutBehind(a: string, b: string)
    requires NoQuote(a)
    ensures CutAtQuote(a + ("\\\"" + b)) == a + "\\"
  {
    var e := a + ("\\\"" + b);
    assert e[|a| + 1] == '"' && forall k | 0 <= k < |a| :: e[k] == a[k];
    QuoteEndIs(e, 0, |a| + 1);
    assert e[..|a| + 1] == a + "\\";
  }

  // ---- Entries ----

  function PidMember(pid: int): Member {
    IntegerIsNumeral(pid);
    Member("pid", Num(DecimalInt(pid)))
  }

  function ObjectOf(pid: int, name: string): Json { Obj([PidMember(pid), Member("name", Str(name))]) }

  lemma PidKeyed(r: string)
    ensures PID + r == Keyed("pid", r)
  {
  }

  /** The members of an entry behind its opening brace; `tail` starts with the name. */
  function EntryTail(pid: int, tail: string): string {
    Keyed("pid", DecimalInt(pid) + ("," + Keyed("name", "\"" + tail)))
  }

  lemma EntryPieces(pid: int32, raw: string, rest: string)
    ensures RawEntry(ProcessInfo(pid, raw)) + rest == "{" + EntryTail(pid, raw + ("\"}" + rest))
  {
    var r := raw + ("\"}" + rest);
    Associative(EntryHead(pid) + raw, "\"}", rest);
    Associative(EntryHead(pid), raw, "\"}" + rest);
    HeadPieces(pid, r);
    PidKeyed(DecimalInt(pid) + ("," + (NAME + r)));
  }

  /** The members of an entry, given what its name decodes to. */
  lemma EntryMembers(pid: int32, tail: string)
    ensures ParseMembers(EntryTail(pid, tail))
         == match ParseMembers(Keyed("name", "\"" + tail))
            case None => None
            case Some(q) => Some(Parsed([PidMember(pid)] + q.value, q.rest))
  {
    var named := Keyed("name", "\"" + tail);
    EntryKeys();
    IntegerIsNumeral(pid);
    ParseNumber(DecimalInt(pid), "," + named);
    ParseKeyed("pid", DecimalInt(pid) + ("," + named));
    assert ("," + named)[1..] == named;
  }

  lemma {:induction false} NameMember(tail: string)
    ensures ParseMember(Keyed("name", "\"" + tail))
         == match ParseString(tail) case None => None case Some(p) => Some(Parsed(Member("name", Str(p.value)), p.rest))
  {
    EntryKeys();
    ParseKeyed("name", "\"" + tail);
    ParseQuoted(tail);
  }

  /** An entry as a value: what its members from the name on decode to decides. */
  lemma EntryValue(pid: int32, raw: string, rest: string)
    ensures ParseValue(RawEntry(ProcessInfo(pid, raw)) + rest)
         == match ParseMembers(Keyed("name", "\"" + (raw + ("\"}" + rest))))
            case None => None
            case Some(q) => Some(Parsed(Obj([PidMember(pid)] + q.value), q.rest))
  {
    var tail := raw + ("\"}" + rest);
    EntryPieces(pid, raw, rest);
    EntryMembers(pid, tail);
    assert ("{" + EntryTail(pid, tail))[1..] == EntryTail(pid, tail);
  }

  lemma OneMemberThenBrace(s: string, m: Member, rest: string)
    requires ParseMember(s) == Some(Parsed(m, "}" + rest))
    ensures ParseMembers(s) == Some(Parsed([m], rest))
  {
    assert ("}" + rest)[1..] == rest;
  }

  lemma {:induction false} GoodName(name: string, tail: string, rest: string)
    requires ParseString(tail) == Some(Parsed(name, "}" + rest))
    ensures ParseMembers(Keyed("name", "\"" + tail)) == Some(Parsed([Member("name", Str(name))], rest))
  {
    NameMember(tail);
    OneMemberThenBrace(Keyed("name", "\"" + tail), Member("name", Str(name)), rest);
  }

  lemma BadName(tail: string)
    requires ParseString(tail).Some? ==>
               var rest := ParseString(tail).value.rest;
               rest != "" && !IsBlank(rest[0]) && rest[0] != '}' && rest[0] != ','
    ensures ParseMembers(Keyed("name", "\"" + tail)) == None
  {
    NameMember(tail);
  }

  /** An entry whose name was escaped once decodes to its pid and name. */
  lemma ParseGoodEntry(pid: int32, name: string, rest: string)
    requires Readable(name)
    ensures ParseValue(RawEntry(ProcessInfo(pid, Escape(name))) + rest) == Some(Parsed(ObjectOf(pid, name), rest))
  {
    var tail := Escape(name) + ("\"}" + rest);
    assert "\"}" + rest == "\"" + ("}" + rest);
    ParseEscapedString(name, "}" + rest);
    GoodName(name, tail, rest);
    EntryValue(pid, Escape(name), rest);
    assert [PidMember(pid)] + [Member("name", Str(name))] == [PidMember(pid), Member("name", Str(name))];
  }
}
