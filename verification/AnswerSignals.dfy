/** What the client announces when it reads a session's answers off the wire. */
module AnswerSignals {
  import opened Models
  import opened Protocol
  import opened Lines
  import opened JsonDecoder
  import opened NodeLists
  import opened Accounts
  import opened Handlers
  import opened LoginAnswers
  import opened NodeNames
  import opened AccountAgreement

  lemma SignalsOfOne(a: Account, m: WireMessage)
    requires Messages(Encode(m)) == [m]
    ensures AllSignals(a, Messages(Encode(m))) == Signals(a, m)
  {
    assert AllSignals(OnMessage(a, m), [m][1..]) == [];
    assert Signals(a, m) + [] == Signals(a, m);
  }

  /** A login answer is announced with its role, node name and id, and the change of rights behind it. */
  lemma LoginIsAnnounced(a: Account, user: UserInfo)
    requires Clear(user.nodeName)
    ensures AllSignals(a, Messages(Encode(LoginReply(Some(user)))))
         == [LoginResult("ok", if user.role == Admin then "admin" else "user", user.nodeName, user.id)]
            + AdminSignal(a.isAdmin, user.role == Admin)
  {
    var m, isAdmin := LoginReply(Some(user)), user.role == Admin;
    AnswersAreText(user);
    RolesArePlain();
    AnswerKinds();
    WholeAnswer(m, isAdmin, user.nodeName, user.id);
    PlainFields(RoleText(isAdmin), user.nodeName, user.id);
    SignalsOfOne(a, m);
  }

  lemma NoMessageKey(role: string, node: string, id: int)
    requires Plain(role) && Plain(node)
    ensures Field(AnswerText(role, node, id), "message") == ""
  {
    PlainAnswer(role, node, id);
    LookupAbsent(AnswerMembers(role, node, id), "message");
  }

  /** A registration answer is announced without a message; it ends administrator rights. */
  lemma RegistrationIsAnnounced(a: Account, user: UserInfo)
    requires Clear(user.nodeName)
    ensures AllSignals(a, Messages(Encode(RegisterReply(Some(user)))))
         == [RegisterResult("ok", "", user.nodeName, user.id)] + AdminSignal(a.isAdmin, false)
  {
    var m := RegisterReply(Some(user));
    AnswersAreText(user);
    RolesArePlain();
    AnswerKinds();
    WholeAnswer(m, false, user.nodeName, user.id);
    PlainFields(RoleText(false), user.nodeName, user.id);
    NoMessageKey(RoleText(false), user.nodeName, user.id);
    SignalsOfOne(a, m);
  }

  lemma LoginRefusalObject()
    ensures ParseObject(LoginReply(None).payload) == [Member("status", Str("fail"))]
  {
    var s := Keyed("status", QuotedText("fail") + "}");
    assert LoginReply(None).payload == "{" + s;
    PlainLast("status", "fail");
    ObjectOfMembers(s);
  }

  lemma NothingElse(a: Account, p: string)
    requires Field(p, "status") == "fail"
    ensures OnMessage(a, WireMessage(LOGIN_RESP, p)) == a && OnMessage(a, WireMessage(REGISTER_RESP, p)) == a
  {
  }

  /** A refused login is announced as a failure and nothing else. */
  lemma LoginRefusalIsAnnounced(a: Account)
    ensures AllSignals(a, Messages(Encode(LoginReply(None)))) == [LoginResult("fail", "", "", 0)]
  {
    var p, ms := LoginReply(None).payload, [Member("status", Str("fail"))];
    LoginRefusalObject();
    OneMember(Member("status", Str("fail")));
    LookupAbsent(ms, "role");
    LookupAbsent(ms, "nodeName");
    LookupAbsent(ms, "userId");
    RefusalsAreWhole();
    SignalsOfOne(a, LoginReply(None));
    NothingElse(a, p);
  }

  /** A refused registration is announced with its message. */
  lemma RegisterRefusalIsAnnounced(a: Account)
    ensures AllSignals(a, Messages(Encode(RegisterReply(None))))
         == [RegisterResult("fail", "Username already taken", "", 0)]
  {
    var p, status, message := RegisterReply(None).payload, Member("status", Str("fail")), Member("message", Str(TAKEN));
    RefusalObject();
    LookupLast([status], message, "status");
    LookupLast([status], message, "message");
    OneMember(status);
    LookupAbsent([status] + [message], "nodeName");
    LookupAbsent([status] + [message], "userId");
    RefusalsAreWhole();
    SignalsOfOne(a, RegisterReply(None));
    NothingElse(a, p);
  }

  /** Whatever the nodes are called, the list that the server wrote is announced name by name, in order. */
  lemma NodesAreAnnounced(a: Account, names: seq<string>)
    ensures AllSignals(a, Messages(Encode(NodesReply(names)))) == [NodesListReceived(names)]
  {
    var m := NodesReply(names);
    ImpersonalKinds(NODES_LIST_RESP);
    NodesOnOneLine(names);
    FrameOnce(m);
    SignalsOfOne(a, m);
    NodesObject(names);
    OneMember(Member("nodes", if names == [] then Str("") else Arr(Names(names))));
    NamesAreRead(names);
  }

  lemma NamesAreRead(names: seq<string>)
    ensures Strings(Names(names)) == names && Strings([]) == []
  {
  }
}
