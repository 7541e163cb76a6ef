/** A JSON text that is cut short is no JSON text. */
module JsonPrefixes {
  import opened Models
  import opened Text
  import opened JsonDecoder

  // What has been read to its end is read in the same way with more text behind it.

  lemma Suffix<T>(s: seq<T>, x: seq<T>, k: nat)
    requires k <= |s|
    ensures (s + x)[k..] == s[k..] + x
  {
  }

  lemma {:induction false} SkipGrows(s: string, x: string)
    requires Skip(s) != ""
    ensures Skip(s + x) == Skip(s) + x
  {
    if !StartsDark(s) {
      Suffix(s, x, 1);
      SkipGrows(s[1..], x);
    }
  }

  lemma {:induction false} StringGrows(s: string, x: string)
    requires ParseString(s).Some?
    ensures ParseString(s + x) == Some(Parsed(ParseString(s).value.value, ParseString(s).value.rest + x))
  {
    if s[0] == '"' {
      Suffix(s, x, 1);
    } else if s[0] != '\\' {
      Suffix(s, x, 1);
      StringGrows(s[1..], x);
    } else if s[1] == 'u' {
      assert CodeUnit((s + x)[2..]) == CodeUnit(s[2..]);
      Suffix(s, x, 6);
      StringGrows(s[6..], x);
    } else {
      Suffix(s, x, 2);
      StringGrows(s[2..], x);
    }
  }

  lemma DigitsGrow(s: string, x: string, i: nat)
    requires i <= |s| && DigitsEnd(s, i) < |s|
    ensures DigitsEnd(s + x, i) == DigitsEnd(s, i)
  {
    DigitsEndIs(s + x, i, DigitsEnd(s, i));
  }

  lemma ExponentGrows(s: string, x: string, i: nat)
    requires i < |s| && ExponentEnd(s, i).Some? && ExponentEnd(s, i).value < |s|
    ensures ExponentEnd(s + x, i) == ExponentEnd(s, i)
  {
    if s[i] == 'e' || s[i] == 'E' {
      assert ExponentStart(s + x, i) == ExponentStart(s, i);
      DigitsGrow(s, x, ExponentStart(s, i));
    }
  }

  lemma NumeralGrows(s: string, x: string)
    requires NumeralEnd(s).Some? && NumeralEnd(s).value < |s|
    ensures NumeralEnd(s + x) == NumeralEnd(s)
  {
    var i := IntegerEnd(s).value;
    var j := FractionEnd(s, i).value;
    DigitsGrow(s, x, if s[0] == '-' then 1 else 0);
    if s[i] == '.' {
      DigitsGrow(s, x, i + 1);
    }
    ExponentGrows(s, x, j);
  }

  /** Only a number can go on behind what has been read. */
  predicate Ended(p: Parsed<Json>) { p.rest != "" || !p.value.Num? }

  function Followed<T>(p: Parsed<T>, x: string): Parsed<T> { Parsed(p.value, p.rest + x) }

  lemma ScalarGrows(s: string, x: string)
    requires s != "" && ParseScalar(s).Some? && Ended(ParseScalar(s).value)
    ensures ParseScalar(s + x) == Some(Followed(ParseScalar(s).value, x))
  {
    var p := ParseScalar(s).value;
    if p.value.Num? {
      var end := NumeralEnd(s).value;
      NumeralGrows(s, x);
      assert (s + x)[..end] == s[..end];
      Suffix(s, x, end);
    } else {
      Suffix(s, x, |s| - |p.rest|);
    }
  }

  lemma {:induction false} ValueGrows(text: string, x: string)
    requires ParseValue(text).Some? && Ended(ParseValue(text).value)
    ensures ParseValue(text + x) == Some(Followed(ParseValue(text).value, x))
    decreases |text|, 1
  {
    var s := Skip(text);
    SkipGrows(text, x);
    Suffix(s, x, 1);
    if s[0] == '"' {
      StringGrows(s[1..], x);
    } else if s[0] == '{' || s[0] == '[' {
      BracketGrows(s, x);
    } else {
      ScalarGrows(s, x);
    }
  }

  lemma {:induction false} BracketGrows(s: string, x: string)
    requires s != "" && (s[0] == '{' || s[0] == '[') && ParseValue(s).Some?
    ensures ParseValue(s + x) == Some(Followed(ParseValue(s).value, x))
    decreases |s|, 0
  {
    var t := Skip(s[1..]);
    Suffix(s, x, 1);
    assert t == "" ==> ParseMember(s[1..]) == None && ParseValue(s[1..]) == None;
    SkipGrows(s[1..], x);
    Suffix(t, x, 1);
    if s[0] == '{' && t[0] != '}' {
      MembersGrow(s[1..], x);
    } else if s[0] == '[' && t[0] != ']' {
      ElementsGrow(s[1..], x);
    }
  }

  lemma {:induction false} ElementsGrow(s: string, x: string)
    requires ParseElements(s).Some?
    ensures ParseElements(s + x) == Some(Followed(ParseElements(s).value, x))
    decreases |s|, 2
  {
    var p := ParseValue(s).value;
    var t := Skip(p.rest);
    ValueGrows(s, x);
    SkipGrows(p.rest, x);
    Suffix(t, x, 1);
    if t[0] == ',' {
      ElementsGrow(t[1..], x);
    }
  }

  lemma {:induction false} MemberGrows(text: string, x: string)
    requires ParseMember(text).Some?
    requires var p := ParseMember(text).value; p.rest != "" || !p.value.value.Num?
    ensures ParseMember(text + x) == Some(Followed(ParseMember(text).value, x))
    decreases |text|, 2
  {
    var s := Skip(text);
    SkipGrows(text, x);
    Suffix(s, x, 1);
    StringGrows(s[1..], x);
    var k := ParseString(s[1..]).value;
    var t := Skip(k.rest);
    SkipGrows(k.rest, x);
    Suffix(t, x, 1);
    ValueGrows(t[1..], x);
  }

  lemma {:induction false} MembersGrow(s: string, x: string)
    requires ParseMembers(s).Some?
    ensures ParseMembers(s + x) == Some(Followed(ParseMembers(s).value, x))
    decreases |s|, 3
  {
    var p := ParseMember(s).value;
    var t := Skip(p.rest);
    MemberGrows(s, x);
    SkipGrows(p.rest, x);
    Suffix(t, x, 1);
    if t[0] == ',' {
      MembersGrow(t[1..], x);
    }
  }

  // ---- Texts that are read to the end or not at all ----

  predicate EndsDark(x: string) { x != "" && !IsBlank(x[|x| - 1]) }

  lemma {:induction false} DarkIsNotSkipped(s: string, x: string)
    requires EndsDark(x)
    ensures Skip(s + x) != ""
  {
    if !StartsDark(s + x) {
      var rest := (s + x)[1..];
      if s == "" {
        assert s + x == x && rest == "" + x[1..];
        DarkIsNotSkipped("", x[1..]);
      } else {
        Suffix(s, x, 1);
        DarkIsNotSkipped(s[1..], x);
      }
    }
  }

  lemma {:induction false} CutMembersFail(s: string, x: string)
    requires EndsDark(x) && Closes(s + x)
    ensures ParseMembers(s) == None
  {
    if ParseMembers(s).Some? {
      MembersGrow(s, x);
      DarkIsNotSkipped(ParseMembers(s).value.rest, x);
    }
  }

  lemma {:induction false} CutElementsFail(s: string, x: string)
    requires ParseElements(s + x) == None
    ensures ParseElements(s) == None
  {
    if ParseElements(s).Some? {
      ElementsGrow(s, x);
    }
  }

  predicate AllOrNothing(s: string) { ParseValue(s).Some? ==> Skip(ParseValue(s).value.rest) == "" }

  /** Cut anywhere, a document gives nothing. */
  lemma {:induction false} CutTextIsNothing(s: string, x: string)
    requires EndsDark(x) && AllOrNothing(s + x)
    ensures ParseObject(s) == []
  {
    if ParseValue(s).Some? && ParseValue(s).value.value.Obj? {
      ValueGrows(s, x);
      DarkIsNotSkipped(ParseValue(s).value.rest, x);
    }
  }

  lemma ProperPrefixIsNothing(r: string, text: string)
    requires r <= text && r != text && EndsDark(text) && AllOrNothing(text)
    ensures ParseObject(r) == []
  {
    var missing := text[|r|..];
    assert text == r + missing && missing[|missing| - 1] == text[|text| - 1];
    CutTextIsNothing(r, missing);
  }
}
