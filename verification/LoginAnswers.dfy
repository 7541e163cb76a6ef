/** How a positive login or registration answer is written, and what it decodes to. */
module LoginAnswers {
  import opened Models
  import opened Text
  import opened JsonDecoder
  import opened Handlers

  // ---- The text of a positive answer ----

  function IdText(id: int): string { Keyed("userId", DecimalInt(id) + "}") }

  /** The node name, written as it is, and what follows it. */
  function NodeTail(node: string, id: int): string { node + ("\"" + ("," + IdText(id))) }

  function NameText(tail: string): string { Keyed("nodeName", "\"" + tail) }

  function RoleAndName(role: string, tail: string): string {
    Keyed("role", QuotedText(role) + ("," + NameText(tail)))
  }

  function StatusOn(role: string, tail: string): string {
    Keyed("status", QuotedText("ok") + ("," + RoleAndName(role, tail)))
  }

  function AnswerText(role: string, node: string, id: int): string { "{" + StatusOn(role, NodeTail(node, id)) }

  function RoleText(isAdmin: bool): string { if isAdmin then "admin" else "user" }

  lemma IdPieces(head: string, id: int)
    ensures head + "\",\"userId\":" + DecimalInt(id) + "}" == head + ("\"" + ("," + IdText(id)))
  {
    var value := DecimalInt(id) + "}";
    Associative(head + "\",\"userId\":", DecimalInt(id), "}");
    Associative(head, "\",\"userId\":", value);
    assert "\",\"userId\":" + value == "\"" + ("," + Keyed("userId", value));
  }

  lemma NamePieces(head: string, tail: string)
    ensures head + "\",\"nodeName\":\"" + tail == head + ("\"" + ("," + NameText(tail)))
  {
    Associative(head, "\",\"nodeName\":\"", tail);
    assert "\",\"nodeName\":\"" + tail == "\"" + ("," + NameText(tail));
  }

  lemma RolePieces(role: string, rest: string)
    ensures "{\"status\":\"ok\",\"role\":\"" + (role + ("\"" + ("," + rest)))
         == "{" + Keyed("status", QuotedText("ok") + ("," + Keyed("role", QuotedText(role) + ("," + rest))))
  {
    Associative(role, "\"", "," + rest);
    Associative("\"", role + "\"", "," + rest);
    var value := QuotedText(role) + ("," + rest);
    assert "\"" + (role + ("\"" + ("," + rest))) == value;
    StatusPieces(value);
    assert "{\"status\":\"ok\",\"role\":\"" == "{\"status\":\"ok\",\"role\":" + "\"";
    Associative("{\"status\":\"ok\",\"role\":", "\"", role + ("\"" + ("," + rest)));
  }

  lemma StatusPieces(value: string)
    ensures "{\"status\":\"ok\",\"role\":" + value
         == "{" + Keyed("status", QuotedText("ok") + ("," + Keyed("role", value)))
  {
    assert "{\"status\":\"ok\",\"role\":" == "{\"status\":" + ("\"ok\"" + ("," + "\"role\":"));
    assert Keyed("role", value) == "\"role\":" + value;
    assert QuotedText("ok") == "\"ok\"";
    Associative(",", "\"role\":", value);
    Associative("\"ok\"", "," + "\"role\":", value);
    var rest := "\"ok\"" + ("," + Keyed("role", value));
    Associative("{\"status\":", "\"ok\"" + ("," + "\"role\":"), value);
    assert "{\"status\":" + rest == "{" + Keyed("status", rest);
  }

  /** The text before the node name. */
  function AnswerHead(role: string): string { "{\"status\":\"ok\",\"role\":\"" + role + "\",\"nodeName\":\"" }

  lemma HeadAndTail(role: string, tail: string)
    ensures AnswerHead(role) + tail == "{" + StatusOn(role, tail)
  {
    var start := "{\"status\":\"ok\",\"role\":\"";
    NamePieces(start + role, tail);
    Associative(start, role, "\"" + ("," + NameText(tail)));
    RolePieces(role, NameText(tail));
  }

  lemma AnswerPieces(role: string, node: string, id: int)
    ensures "{\"status\":\"ok\",\"role\":\"" + role + "\",\"nodeName\":\"" + node
            + "\",\"userId\":" + DecimalInt(id) + "}"
         == AnswerText(role, node, id)
  {
    var start := "{\"status\":\"ok\",\"role\":\"";
    IdPieces(start + role + "\",\"nodeName\":\"" + node, id);
    Associative(AnswerHead(role), node, "\"" + ("," + IdText(id)));
    HeadAndTail(role, NodeTail(node, id));
  }

  /** Both positive answers have the one form; the registration's names the role of a user. */
  lemma AnswersAreText(user: UserInfo)
    ensures LoginReply(Some(user)).payload == AnswerText(RoleText(user.role == Admin), user.nodeName, user.id)
    ensures RegisterReply(Some(user)).payload == AnswerText(RoleText(false), user.nodeName, user.id)
  {
    AnswerPieces(RoleText(user.role == Admin), user.nodeName, user.id);
    AnswerPieces("user", user.nodeName, user.id);
    assert "{\"status\":\"ok\",\"role\":\"user\",\"nodeName\":\""
        == "{\"status\":\"ok\",\"role\":\"" + "user" + "\",\"nodeName\":\"";
  }

  // ---- Reading it ----

  lemma IdMembers(id: int)
    ensures NumeralEnd(DecimalInt(id)) == Some(|DecimalInt(id)|)
    ensures MoreMembers("," + IdText(id)) == Some([Member("userId", Num(DecimalInt(id)))])
  {
    IntegerIsNumeral(id);
    NumberLast("userId", DecimalInt(id));
    MoreAfterComma(IdText(id));
  }

  /** What the node name, read as a string, leaves of an answer. */
  function NameAndMore(tail: string): Option<seq<Member>> {
    match ParseString(tail)
    case None => None
    case Some(p) => Prefixed(Member("nodeName", Str(p.value)), MoreMembers(p.rest))
  }

  lemma MembersFromName(tail: string)
    ensures AllMembers(NameText(tail)) == NameAndMore(tail)
  {
    ParseQuoted(tail);
    MembersStep("nodeName", "\"" + tail);
  }

  lemma MembersFromRole(role: string, tail: string)
    requires Plain(role)
    ensures AllMembers(RoleAndName(role, tail)) == Prefixed(Member("role", Str(role)), NameAndMore(tail))
  {
    MembersFromName(tail);
    ParsePlainValue(role, "," + NameText(tail));
    MemberThen("role", QuotedText(role), Str(role), NameText(tail));
  }

  lemma MembersFromStatus(role: string, tail: string)
    requires Plain(role)
    ensures AllMembers(StatusOn(role, tail))
         == Prefixed(Member("status", Str("ok")), Prefixed(Member("role", Str(role)), NameAndMore(tail)))
  {
    MembersFromRole(role, tail);
    ParsePlainValue("ok", "," + RoleAndName(role, tail));
    MemberThen("status", QuotedText("ok"), Str("ok"), RoleAndName(role, tail));
  }

  lemma PrefixedTwice(a: Member, b: Member, more: Option<seq<Member>>)
    ensures Prefixed(a, Prefixed(b, more)) == match more case None => None case Some(ms) => Some([a, b] + ms)
  {
    if more.Some? {
      Associative([a], [b], more.value);
      assert [a] + [b] == [a, b];
    }
  }

  /** The members of an answer, given the text from its node name on. */
  lemma AnswerMembersAre(role: string, tail: string)
    requires Plain(role)
    ensures ParseObject("{" + StatusOn(role, tail))
         == match NameAndMore(tail)
            case None => []
            case Some(ms) => [Member("status", Str("ok")), Member("role", Str(role))] + ms
  {
    MembersFromStatus(role, tail);
    ObjectOfMembers(StatusOn(role, tail));
    PrefixedTwice(Member("status", Str("ok")), Member("role", Str(role)), NameAndMore(tail));
  }

  /** An answer decodes to status, role and whatever its node name, written raw, leaves of the rest. */
  lemma AnswerObject(role: string, node: string, id: int)
    requires Plain(role)
    ensures ParseObject(AnswerText(role, node, id))
         == match NameAndMore(NodeTail(node, id))
            case None => []
            case Some(ms) => [Member("status", Str("ok")), Member("role", Str(role))] + ms
  {
    AnswerMembersAre(role, NodeTail(node, id));
  }
}
