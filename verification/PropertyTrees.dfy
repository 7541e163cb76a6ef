/** How the server reads requests: a JSON document as a tree of texts, looked up with defaults. */
module PropertyTrees {
  import opened Models
  import opened Text
  import opened JsonDecoder

  /** The first child of that name. */
  function Child(members: seq<Member>, key: string): Option<Json> {
    if members == [] then None
    else if members[0].key == key then Some(members[0].value)
    else Child(members[1..], key)
  }

  /** A property tree holds every scalar as text. */
  function Data(v: Option<Json>, default: string): string {
    match v
    case None => default
    case Some(Str(text)) => text
    case Some(Num(numeral)) => numeral
    case Some(Bool(flag)) => FlagText(flag)
    case Some(Null) => "null"
    case _ => ""
  }

  /** get<integer>(key, 0): the whole text must be an integer in range. */
  function GetInteger(v: Option<Json>, bound: int): int {
    var text := Data(v, "");
    var digits := if text != "" && (text[0] == '-' || text[0] == '+') then text[1..] else text;
    if digits == "" || !AllDigits(digits) then 0
    else
      var i := if text[0] == '-' then -(ParseDecimal(digits) as int) else ParseDecimal(digits);
      if -bound <= i < bound then i else 0
  }

  function GetDouble(v: Option<Json>): real {
    var text := Data(v, "");
    if NumeralEnd(text) == Some(|text|) then ValueOf(text) else 0.0
  }

  function GetBool(v: Option<Json>): bool { Data(v, "") == "true" || Data(v, "") == "1" }

  function Members(v: Json): seq<Member> { if v.Obj? then v.members else [] }

  function Children(v: Option<Json>): seq<Json> {
    match v
    case Some(Arr(elements)) => elements
    case Some(Obj(members)) => seq(|members|, i requires 0 <= i < |members| => members[i].value)
    case _ => []
  }

  /** The children of the document's root; None if the text is no JSON document, and parseJson throws. */
  function ReadTree(payload: string): Option<seq<Member>> {
    match ParseValue(payload)
    case None => None
    case Some(p) => if Skip(p.rest) == "" then Some(Members(p.value)) else None
  }

  lemma {:induction false} ChildIs(ms: seq<Member>, k: nat)
    requires k < |ms| && forall i, j | 0 <= i < j < |ms| :: ms[i].key != ms[j].key
    ensures Child(ms, ms[k].key) == Some(ms[k].value)
  {
    if k > 0 {
      ChildIs(ms[1..], k - 1);
    }
  }

  lemma IntegerIsRead(i: int, bound: int)
    requires -bound <= i < bound
    ensures NumeralEnd(DecimalInt(i)) == Some(|DecimalInt(i)|)
    ensures GetInteger(Some(Num(DecimalInt(i))), bound) == i
  {
    IntegerIsNumeral(i);
    ParseDecimalInverse(if i < 0 then -i else i);
    if i >= 0 {
      assert IsDigit(DecimalInt(i)[0]);
    } else {
      assert DecimalInt(i)[1..] == Decimal(-i);
    }
  }
}
