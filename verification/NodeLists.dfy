/** The list of nodes: written by the server through boost's property tree, read by the client. */
module NodeLists {
  import opened Models
  import opened Text
  import opened Protocol
  import opened JsonDecoder
  import opened MetricsPayload

  // ---- The server's writer: write_json without pretty printing ----

  function UpperHex(d: nat): (c: char)
    requires d < 16
    ensures IsHex(c) && HexValue(c) == d
  {
    if d < 10 then DigitChar(d) else (d - 10 + 'A' as int) as char
  }

  /** Slashes are escaped too. */
  function TreeChar(c: char): string {
    if c == '"' || c == '\\' || c == '/' then ['\\', c]
    else if c == 8 as char then "\\b"
    else if c == 12 as char then "\\f"
    else if c == '\n' then "\\n"
    else if c == '\r' then "\\r"
    else if c == '\t' then "\\t"
    else if c < ' ' then "\\u00" + [UpperHex(c as int / 16), UpperHex(c as int % 16)]
    else [c]
  }

  function TreeEscape(s: string): string {
    if s == "" then "" else TreeChar(s[0]) + TreeEscape(s[1..])
  }

  function TreeText(s: string): string { "\"" + (TreeEscape(s) + "\"") }

  function NamesText(names: seq<string>): string {
    if names == [] then "]" else TreeText(names[0]) + ((if |names| > 1 then "," else "") + NamesText(names[1..]))
  }

  /** A tree without children is written as an empty string, so an empty list is no array. */
  function ListValue(names: seq<string>): string { if names == [] then "\"\"" else "[" + NamesText(names) }

  function NodesText(names: seq<string>): string { "{" + Keyed("nodes", ListValue(names) + "}") }

  // ---- Reading it back ----

  lemma UpperEscape(c: char, tail: string)
    requires c < ' '
    ensures var text := "\\u00" + [UpperHex(c as int / 16), UpperHex(c as int % 16)] + tail;
            ParseString(text) == PrependText([c], ParseString(tail))
  {
    var high, low := UpperHex(c as int / 16), UpperHex(c as int % 16);
    var text := "\\u00" + [high, low] + tail;
    assert text[2..][0] == '0' && text[2..][1] == '0' && text[2..][2] == high && text[2..][3] == low;
    assert text[6..] == tail && text[0] == '\\' && text[1] == 'u';
    assert CodeUnit(text[2..]) == Some(c as int);
  }

  lemma {:induction false} ParseTreeChar(c: char, tail: string)
    ensures ParseString(TreeChar(c) + tail) == PrependText([c], ParseString(tail))
  {
    if |TreeChar(c)| == 6 {
      UpperEscape(c, tail);
    } else if |TreeChar(c)| == 2 {
      assert TreeChar(c) == ['\\', TreeChar(c)[1]];
      ShortEscape(c, TreeChar(c)[1], tail);
    } else {
      assert ([c] + tail)[1..] == tail;
    }
  }

  lemma {:induction false} ParseTreeEscaped(s: string, rest: string)
    ensures ParseString(TreeEscape(s) + rest) == PrependText(s, ParseString(rest))
  {
    if s == "" {
      assert TreeEscape(s) + rest == rest;
      assert ParseString(rest).Some? ==> "" + ParseString(rest).value.value == ParseString(rest).value.value;
    } else {
      ParseTreeEscaped(s[1..], rest);
      Associative(TreeChar(s[0]), TreeEscape(s[1..]), rest);
      ParseTreeChar(s[0], TreeEscape(s[1..]) + rest);
      PrependTextTwice([s[0]], s[1..], ParseString(rest));
      assert [s[0]] + s[1..] == s;
    }
  }

  lemma ParseTreeText(s: string, rest: string)
    ensures ParseValue(TreeText(s) + rest) == Some(Parsed(Str(s), rest))
  {
    Associative(TreeEscape(s), "\"", rest);
    Associative("\"", TreeEscape(s) + "\"", rest);
    ParseQuoted(TreeEscape(s) + ("\"" + rest));
    ParseTreeEscaped(s, "\"" + rest);
    assert ("\"" + rest)[1..] == rest && s + "" == s;
  }

  function Names(names: seq<string>): seq<Json> {
    seq(|names|, i requires 0 <= i < |names| => Str(names[i]))
  }

  lemma {:induction false} ParseNames(names: seq<string>, rest: string)
    requires names != []
    ensures ParseElements(NamesText(names) + rest) == Some(Parsed(Names(names), rest))
  {
    var separator, more := if |names| > 1 then "," else "", NamesText(names[1..]);
    Associative(TreeText(names[0]), separator + more, rest);
    Associative(separator, more, rest);
    assert Names(names) == [Str(names[0])] + Names(names[1..]);
    if |names| > 1 {
      ParseTreeText(names[0], "," + (more + rest));
      ParseNames(names[1..], rest);
      NextElement(TreeText(names[0]), more + rest, Str(names[0]));
    } else {
      ParseTreeText(names[0], "]" + rest);
      assert "" + (more + rest) == "]" + rest;
      LastElement(TreeText(names[0]), rest, Str(names[0]));
      assert Names(names) == [Str(names[0])];
    }
  }

  lemma NamesStart(names: seq<string>, rest: string)
    requires names != []
    ensures (NamesText(names) + rest)[0] == '"'
  {
  }

  lemma ParseList(names: seq<string>, rest: string)
    requires names != []
    ensures ParseValue("[" + NamesText(names) + rest) == Some(Parsed(Arr(Names(names)), rest))
  {
    var s := NamesText(names) + rest;
    Associative("[", NamesText(names), rest);
    assert ("[" + s)[1..] == s;
    NamesStart(names, rest);
    ParseNames(names, rest);
  }

  lemma NodesKey()
    ensures Plain("nodes")
  {
  }

  /** Whatever the nodes are called, the list is decoded to their names in order; an empty one to no array. */
  lemma {:induction false} NodesObject(names: seq<string>)
    ensures ParseObject(NodesText(names))
         == [Member("nodes", if names == [] then Str("") else Arr(Names(names)))]
  {
    var value := if names == [] then Str("") else Arr(Names(names));
    NodesKey();
    if names == [] {
      ParseQuoted("\"}");
      ParseQuote("}");
      assert "\"\"" + "}" == "\"" + "\"}";
    } else {
      ParseList(names, "}");
    }
    LastMember("nodes", ListValue(names), value);
    ObjectOfMembers(Keyed("nodes", ListValue(names) + "}"));
  }

  // ---- The list as a frame ----

  lemma TreeCharOnOneLine(c: char)
    ensures NoNewline(TreeChar(c))
  {
  }

  lemma {:induction false} TreeEscapeOnOneLine(s: string)
    ensures NoNewline(TreeEscape(s))
  {
    if s != "" {
      TreeCharOnOneLine(s[0]);
      TreeEscapeOnOneLine(s[1..]);
    }
  }

  lemma {:induction false} NamesOnOneLine(names: seq<string>)
    ensures NoNewline(NamesText(names))
  {
    if names != [] {
      TreeEscapeOnOneLine(names[0]);
      NamesOnOneLine(names[1..]);
    }
  }

  /** Line feeds in node names are escaped here, so the list is always one line. */
  lemma {:induction false} NodesOnOneLine(names: seq<string>)
    ensures NoNewline(NodesText(names)) && EndsClean(NodesText(names))
  {
    NamesOnOneLine(names);
    var s := NodesText(names);
    assert s[|s| - 1] == '}';
    assert NoNewline("nodes") && NoNewline(ListValue(names));
  }
}
