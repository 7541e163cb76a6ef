/** Exactly which node names the client reads as the session means them: nothing in an answer is escaped. */
module NodeNames {
  import opened Models
  import opened Text
  import opened Protocol
  import opened Lines
  import opened JsonDecoder
  import opened RawFields
  import opened Accounts
  import opened Repository
  import opened Handlers
  import opened LoginAnswers

  // ---- The raw node name in an answer ----

  /** What follows the node name in an answer. */
  function IdEnding(id: int): string { "\"" + ("," + IdText(id)) }

  lemma IdEndingIs(id: int)
    ensures Ending(IdEnding(id)) && forall m | m in Later(IdEnding(id)) :: m.key != "nodeName"
  {
    var e := IdEnding(id);
    StartsNoElement("userId", DecimalInt(id) + "}");
    IdMembers(id);
    MoreAfterComma(IdText(id));
    assert e[2..] == IdText(id) && e[3] == 'u';
  }

  /** The node name in an answer is whatever the members from the raw name on say. */
  lemma NodeNameField(role: string, tail: string)
    requires Plain(role)
    ensures Field("{" + StatusOn(role, tail), "nodeName")
         == match AllMembers(NameText(tail)) case None => "" case Some(ms) => ToString(Lookup(ms, "nodeName"))
  {
    var head := [Member("status", Str("ok")), Member("role", Str(role))];
    AnswerMembersAre(role, tail);
    MembersFromName(tail);
    LookupAbsent([], "nodeName");
    LookupAbsent(head, "nodeName");
    if NameAndMore(tail).Some? {
      LookupAppend(head, NameAndMore(tail).value, "nodeName");
    }
  }

  /** An answer, whole or cut in its node name, decodes to a node name as long as that only if it is whole and plain. */
  lemma NodeNameReadBack(role: string, node: string, b: Behind, read: string)
    requires Plain(role) && Safe(b) && !b.later(Member("nodeName", Str(read)))
    requires Field("{" + StatusOn(role, node + b.end), "nodeName") == read && read != "" && |read| >= |node|
    ensures b.end != "" && Plain(node) && read == node
  {
    NodeNameField(role, node + b.end);
    NameKey();
    RawReadsBack("nodeName", node, b, read);
  }

  lemma NameKey()
    ensures Plain("nodeName")
  {
  }

  // ---- What the client takes from an answer ----

  lemma NodeNameEnds(username: string)
    ensures Plain(NodeNameOf(username)) <==> Plain(username)
    ensures NoNewline(NodeNameOf(username)) <==> NoNewline(username)
  {
    var node := NodeNameOf(username);
    assert Plain("-node") && NoNewline("-node");
    assert forall i | 0 <= i < |node| :: node[i] == if i < |username| then username[i] else "-node"[i - |username|];
  }

  function AnswerMembers(role: string, node: string, id: int): seq<Member> {
    IntegerIsNumeral(id);
    [Member("status", Str("ok")), Member("role", Str(role)), Member("nodeName", Str(node)),
     Member("userId", Num(DecimalInt(id)))]
  }

  /** A plain node name, the role and the id arrive as they were sent. */
  lemma PlainAnswer(role: string, node: string, id: int)
    requires Plain(role) && Plain(node)
    ensures ParseObject(AnswerText(role, node, id)) == AnswerMembers(role, node, id)
  {
    AnswerObject(role, node, id);
    ParsePlain(node, "," + IdText(id));
    IdMembers(id);
  }

  lemma AnswerParts(role: string, node: string, id: int)
    ensures AnswerText(role, node, id) == AnswerHead(role) + (node + IdEnding(id))
  {
    HeadAndTail(role, NodeTail(node, id));
  }

  lemma NoLineEndsBefore(isAdmin: bool)
    ensures NoLineEnds(AnswerHead(RoleText(isAdmin)))
  {
    assert NoLineEnds("{\"status\":\"ok\",\"role\":\"") && NoLineEnds("\",\"nodeName\":\"");
  }

  lemma NoLineEndsBehind(id: int)
    ensures NoLineEnds(IdEnding(id))
  {
    assert NoLineEnds("userId") && NoLineEnds(DecimalInt(id));
  }

  lemma NoLineEndsAround(isAdmin: bool, id: int)
    ensures NoLineEnds(AnswerHead(RoleText(isAdmin))) && NoLineEnds(IdEnding(id))
  {
    NoLineEndsBefore(isAdmin);
    NoLineEndsBehind(id);
  }

  predicate IsAnswer(m: WireMessage, isAdmin: bool, node: string, id: int) {
    IsWord(m.kind) && m.payload == AnswerText(RoleText(isAdmin), node, id)
  }

  /** A node name on one line leaves the answer in one piece. */
  lemma WholeAnswer(m: WireMessage, isAdmin: bool, node: string, id: int)
    requires IsAnswer(m, isAdmin, node, id)
    ensures NoNewline(m.payload) <==> NoNewline(node)
    ensures NoNewline(node) ==> FirstMessage(m) == m && Messages(Encode(m)) == [m]
  {
    var role := RoleText(isAdmin);
    AnswerParts(role, node, id);
    NoLineEndsAround(isAdmin, id);
    NewlineInMiddle(AnswerHead(role), node, IdEnding(id));
  }

  lemma WholeNameArrives(m: WireMessage, isAdmin: bool, node: string, id: int)
    requires IsAnswer(m, isAdmin, node, id) && node != "" && Field(m.payload, "nodeName") == node
    ensures Plain(node)
  {
    RolesArePlain();
    IdEndingIs(id);
    RestIsSafe(IdEnding(id));
    NodeNameReadBack(RoleText(isAdmin), node, Rest(IdEnding(id)), node);
  }

  lemma CutNameIsLost(m: WireMessage, isAdmin: bool, node: string, id: int, r: string)
    requires IsAnswer(m, isAdmin, node, id) && r <= m.payload && |r| < |m.payload| && IsLineEnd(m.payload[|r|])
    ensures Field(r, "nodeName") != node
  {
    var role := RoleText(isAdmin);
    RolesArePlain();
    AnswerParts(role, node, id);
    NoLineEndsAround(isAdmin, id);
    CutFallsInto(AnswerHead(role), node, IdEnding(id), r);
    var part := node[..|r| - |AnswerHead(role)|];
    HeadAndTail(role, part + "");
    assert part + "" == part;
    if Field(r, "nodeName") == node {
      CutIsSafe();
      NodeNameReadBack(role, part, Cut(), node);
    }
  }

  /** What the client reads first of an answer gives back the node name only if the name is clear. */
  lemma OnlyClearNameArrives(m: WireMessage, isAdmin: bool, node: string, id: int)
    requires IsAnswer(m, isAdmin, node, id) && node != ""
    requires Field(FirstMessage(m).payload, "nodeName") == node
    ensures Clear(node)
  {
    FirstMessageIsCut(m);
    if FirstMessage(m).payload == m.payload {
      WholeAnswer(m, isAdmin, node, id);
      WholeNameArrives(m, isAdmin, node, id);
    } else {
      CutNameIsLost(m, isAdmin, node, id, FirstMessage(m).payload);
    }
  }

  lemma NameArrives(m: WireMessage, isAdmin: bool, node: string, id: int)
    requires IsAnswer(m, isAdmin, node, id) && node != ""
    ensures Field(FirstMessage(m).payload, "nodeName") == node <==> Clear(node)
    ensures Clear(node) ==> Messages(Encode(m)) == [m]
  {
    if Clear(node) {
      RolesArePlain();
      WholeAnswer(m, isAdmin, node, id);
      PlainAnswer(RoleText(isAdmin), node, id);
      LookupMembers(RoleText(isAdmin), node, id);
    } else if Field(FirstMessage(m).payload, "nodeName") == node {
      OnlyClearNameArrives(m, isAdmin, node, id);
    }
  }

  lemma RolesArePlain()
    ensures Plain(RoleText(true)) && Plain(RoleText(false))
  {
  }

  lemma AnswerKinds()
    ensures IsWord(LOGIN_RESP) && IsWord(REGISTER_RESP)
  {
  }

  /** The exact user names for which the client, reading the answer off the wire, learns the session's node name. */
  lemma {:induction false} NodeNameArrives(user: UserInfo)
    requires user.nodeName == NodeNameOf(user.username)
    ensures IsWord(LOGIN_RESP) && IsWord(REGISTER_RESP)
    ensures Field(FirstMessage(LoginReply(Some(user))).payload, "nodeName") == user.nodeName <==> Clear(user.username)
    ensures Field(FirstMessage(RegisterReply(Some(user))).payload, "nodeName") == user.nodeName
       <==> Clear(user.username)
  {
    AnswersAreText(user);
    NodeNameEnds(user.username);
    AnswerKinds();
    NameArrives(LoginReply(Some(user)), user.role == Admin, user.nodeName, user.id);
    NameArrives(RegisterReply(Some(user)), false, user.nodeName, user.id);
  }

  lemma LookupMembers(role: string, node: string, id: int)
    ensures var ms := AnswerMembers(role, node, id);
            && Lookup(ms, "status") == Some(Str("ok")) && Lookup(ms, "role") == Some(Str(role))
            && Lookup(ms, "nodeName") == Some(Str(node)) && ToLong(Lookup(ms, "userId")) == id
  {
    var ms := AnswerMembers(role, node, id);
    LookupIs(ms, 0);
    LookupIs(ms, 1);
    LookupIs(ms, 2);
    LookupIs(ms, 3);
    LongOfInteger(id);
  }
}
