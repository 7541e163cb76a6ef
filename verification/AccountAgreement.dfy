/** The client's idea of who it is, compared over whole runs with the identity its session acts under. */
module AccountAgreement {
  import opened Models
  import opened Text
  import opened Protocol
  import opened Lines
  import opened JsonDecoder
  import opened Accounts
  import opened Repository
  import opened Handlers
  import opened ServerMachine
  import opened LoginAnswers
  import opened NodeNames

  /** The fields that say who the client believes it is. */
  function View(a: Account): Identity { Identity(a.userId, a.nodeName, a.isAdmin) }

  lemma PlainFields(role: string, node: string, id: int)
    requires Plain(role) && Plain(node)
    ensures var text := AnswerText(role, node, id);
            && Field(text, "status") == "ok" && Field(text, "role") == role && Field(text, "nodeName") == node
            && ToLong(Lookup(ParseObject(text), "userId")) == id
  {
    PlainAnswer(role, node, id);
    LookupMembers(role, node, id);
  }

  lemma AnswerIsAdopted(a: Account, m: WireMessage, role: string, node: string, id: int)
    requires m.payload == AnswerText(role, node, id) && Plain(role) && Plain(node)
    ensures m.kind == LOGIN_RESP ==> View(OnMessage(a, m)) == Identity(id, node, role == "admin")
    ensures m.kind == REGISTER_RESP ==> View(OnMessage(a, m)) == Identity(id, node, false)
  {
    PlainFields(role, node, id);
  }

  /** The client's account after what it reads of one frame. */
  function Receive(a: Account, m: WireMessage): Account { Follow(a, Messages(Encode(m))) }

  lemma ReceiveOne(a: Account, m: WireMessage, r: WireMessage)
    requires Messages(Encode(m)) == [r]
    ensures Receive(a, m) == OnMessage(a, r)
  {
    assert Follow(OnMessage(a, r), [r][1..]) == OnMessage(a, r);
  }

  lemma LoginIsAdopted(a: Account, user: UserInfo)
    requires Clear(user.nodeName)
    ensures View(Receive(a, LoginReply(Some(user)))) == LoginIdentity(user)
  {
    var role, m := RoleText(user.role == Admin), LoginReply(Some(user));
    AnswersAreText(user);
    RolesArePlain();
    AnswerKinds();
    WholeAnswer(m, user.role == Admin, user.nodeName, user.id);
    ReceiveOne(a, m, m);
    AnswerIsAdopted(a, m, role, user.nodeName, user.id);
  }

  lemma RegistrationIsAdopted(a: Account, identity: Identity, user: UserInfo)
    requires Clear(user.nodeName)
    ensures View(Receive(a, RegisterReply(Some(user)))) == AfterRegister(identity, Some(user))
  {
    var m := RegisterReply(Some(user));
    AnswersAreText(user);
    RolesArePlain();
    AnswerKinds();
    WholeAnswer(m, false, user.nodeName, user.id);
    ReceiveOne(a, m, m);
    AnswerIsAdopted(a, m, RoleText(false), user.nodeName, user.id);
  }

  // ---- Refusals ----

  lemma PlainLast(key: string, text: string)
    requires Plain(key) && Plain(text)
    ensures AllMembers(Keyed(key, QuotedText(text) + "}")) == Some([Member(key, Str(text))])
  {
    ParsePlainValue(text, "}");
    LastMember(key, QuotedText(text), Str(text));
  }

  lemma LoginRefusal()
    ensures Field(LoginReply(None).payload, "status") == "fail"
  {
    var s := Keyed("status", QuotedText("fail") + "}");
    assert LoginReply(None).payload == "{" + s;
    PlainLast("status", "fail");
    ObjectOfMembers(s);
    OneMember(Member("status", Str("fail")));
  }

  function MessageText(): string { Keyed("message", QuotedText(TAKEN) + "}") }

  lemma MessagePieces()
    ensures "\",\"message\":\"" + TAKEN + "\"}" == "\"" + ("," + MessageText())
  {
    var end := "\"" + "}";
    assert QuotedText(TAKEN) + "}" == "\"" + (TAKEN + end);
    assert "\",\"message\":\"" == "\"" + ("," + ("\"message\":" + "\""));
    Associative("\",\"message\":\"", TAKEN, end);
  }

  function RefusalText(): string { Keyed("status", QuotedText("fail") + ("," + MessageText())) }

  lemma RefusalFront(rest: string)
    ensures "{\"status\":\"fail\",\"message\":\"" + rest == "{\"status\":\"fail" + ("\",\"message\":\"" + rest)
  {
  }

  lemma StatusFail(rest: string)
    ensures "{\"status\":\"fail" + rest == "{" + Keyed("status", "\"" + ("fail" + rest))
  {
  }

  lemma RefusalPieces()
    ensures RegisterReply(None).payload == "{" + RefusalText()
  {
    Associative("{\"status\":\"fail\",\"message\":\"", TAKEN, "\"}");
    RefusalFront(TAKEN + "\"}");
    Associative("\",\"message\":\"", TAKEN, "\"}");
    MessagePieces();
    StatusFail("\"" + ("," + MessageText()));
    QuotedThen("fail", "," + MessageText());
  }

  lemma TwoMembers(key1: string, text1: string, key2: string, text2: string)
    requires Plain(key1) && Plain(text1) && Plain(key2) && Plain(text2)
    ensures AllMembers(Keyed(key1, QuotedText(text1) + ("," + Keyed(key2, QuotedText(text2) + "}"))))
         == Some([Member(key1, Str(text1))] + [Member(key2, Str(text2))])
  {
    var more := Keyed(key2, QuotedText(text2) + "}");
    PlainLast(key2, text2);
    ParsePlainValue(text1, "," + more);
    MemberThen(key1, QuotedText(text1), Str(text1), more);
  }

  lemma RefusalMembers()
    ensures AllMembers(RefusalText()) == Some([Member("status", Str("fail"))] + [Member("message", Str(TAKEN))])
  {
    TwoMembers("status", "fail", "message", TAKEN);
  }

  lemma RefusalObject()
    ensures ParseObject(RegisterReply(None).payload)
         == [Member("status", Str("fail"))] + [Member("message", Str(TAKEN))]
  {
    RefusalPieces();
    RefusalMembers();
    ObjectOfMembers(RefusalText());
  }

  lemma RegisterRefusal()
    ensures Field(RegisterReply(None).payload, "status") == "fail"
  {
    RefusalObject();
    LookupLast([Member("status", Str("fail"))], Member("message", Str(TAKEN)), "status");
    OneMember(Member("status", Str("fail")));
  }

  /** Kinds of messages that say nothing about the account. */
  predicate Impersonal(kind: string) {
    kind == ACK || kind == COMMAND || kind == GET_METRICS_RESP || kind == NODES_LIST_RESP
  }

  lemma ImpersonalKinds(kind: string)
    requires Impersonal(kind)
    ensures IsWord(kind) && kind != LOGIN_RESP && kind != REGISTER_RESP
  {
  }

  lemma RefusalsAreWhole()
    ensures Messages(Encode(LoginReply(None))) == [LoginReply(None)]
    ensures Messages(Encode(RegisterReply(None))) == [RegisterReply(None)]
  {
    AnswerKinds();
    FrameOnce(LoginReply(None));
    assert NoNewline("{\"status\":\"fail\",\"message\":\"") && NoNewline(TAKEN) && NoNewline("\"}");
    FrameOnce(RegisterReply(None));
  }

  lemma FrameOnce(m: WireMessage)
    requires IsWord(m.kind) && NoNewline(m.payload) && EndsClean(m.payload)
    ensures Messages(Encode(m)) == [m]
  {
    assert FirstMessage(m) == m;
  }

  /** Refusals leave the client as it was. */
  lemma RefusalsAreIgnored(a: Account)
    ensures Receive(a, LoginReply(None)) == a && Receive(a, RegisterReply(None)) == a
  {
    LoginRefusal();
    RegisterRefusal();
    RefusalsAreWhole();
    ReceiveOne(a, LoginReply(None), LoginReply(None));
    ReceiveOne(a, RegisterReply(None), RegisterReply(None));
  }

  /** So does every one-line message that is no answer to a login or registration. */
  lemma OthersAreIgnored(a: Account, m: WireMessage)
    requires Impersonal(m.kind) && NoNewline(m.payload)
    ensures Receive(a, m) == a
  {
    ImpersonalKinds(m.kind);
    FrameMessages(m);
    ReceiveOne(a, m, Messages(Encode(m))[0]);
  }

  // ---- Whole runs ----

  /** A client that has received `frames`, having logged out by itself behind those numbered in `outs`. */
  function Seen(a: Account, frames: seq<Frame>, outs: set<nat>): Account {
    if frames == [] then a
    else
      var k := |frames| - 1;
      var b := Receive(Seen(a, frames[..k], outs), frames[k].message);
      if k in outs then LogOut(b) else b
  }

  /** The client acts under its session's name; it may have given up administrator rights, never made them up. */
  predicate Agree(identity: Identity, a: Account, outs: set<nat>) {
    && a.userId == identity.userId && a.nodeName == identity.nodeName
    && (a.isAdmin ==> identity.isAdmin)
    && (outs == {} ==> a.isAdmin == identity.isAdmin)
  }

  /** One more frame than before, with message `m`. */
  predicate Grown(o: SessionState, t: SessionState, m: WireMessage) {
    t.frames != [] && t.frames[..|t.frames| - 1] == o.frames && t.frames[|t.frames| - 1].message == m
  }

  predicate Notified(o: SessionState, t: SessionState) {
    t.identity == o.identity && t.frames != []
    && var m := t.frames[|t.frames| - 1].message; Grown(o, t, m) && Impersonal(m.kind)
  }

  predicate LoginAnswered(o: SessionState, t: SessionState, user: Option<UserInfo>) {
    Grown(o, t, LoginReply(user)) && t.identity == AfterLogin(o.identity, user)
  }

  predicate SignUpAnswered(o: SessionState, t: SessionState, user: Option<UserInfo>) {
    Grown(o, t, RegisterReply(user)) && t.identity == AfterRegister(o.identity, user)
  }

  lemma NextOfLogin(s: Server, step: Step, n: nat)
    requires n < |s.sessions| && step.Login?
    ensures var o, t := s.sessions[n], Next(s, step).sessions[n];
            || t == o
            || (step.session == n && LoginAnswered(o, t, Authenticate(s.tables.users, step.username, step.password)))
  {
  }

  lemma NextOfSignUp(s: Server, step: Step, n: nat)
    requires n < |s.sessions| && step.SignUp?
    ensures var o, t, r := s.sessions[n], Next(s, step).sessions[n], Register(s.tables, step.username, step.password);
            || t == o
            || (step.session == n && SignUpAnswered(o, t, r.user) && Next(s, step).tables == r.tables)
  {
  }

  /** What one step does to one session: every change of identity is announced to the client. */
  lemma NextSession(s: Server, step: Step, n: nat)
    requires n < |Next(s, step).sessions|
    ensures var t := Next(s, step).sessions[n];
            if n == |s.sessions| then t.identity == ANONYMOUS
            else
              || (t.identity == s.sessions[n].identity && t.frames == s.sessions[n].frames)
              || Notified(s.sessions[n], t)
              || (step.Login? && step.session == n
                  && LoginAnswered(s.sessions[n], t, Authenticate(s.tables.users, step.username, step.password)))
              || (step.SignUp? && step.session == n
                  && SignUpAnswered(s.sessions[n], t, Register(s.tables, step.username, step.password).user)
                  && Next(s, step).tables == Register(s.tables, step.username, step.password).tables)
  {
    if n < |s.sessions| && step.Login? {
      NextOfLogin(s, step, n);
    } else if n < |s.sessions| && step.SignUp? {
      NextOfSignUp(s, step, n);
    }
  }

  /** The user name in this request of session `n` is plain text on one line. */
  predicate ClearRequest(step: Step, n: nat) {
    && (step.Login? && step.session == n ==> Clear(step.username))
    && (step.SignUp? && step.session == n ==> Clear(step.username))
  }

  /** No answer other than those to logins and registrations has a line feed. */
  predicate OnOneLine(frames: seq<Frame>) {
    forall f | f in frames && Impersonal(f.message.kind) :: NoNewline(f.message.payload)
  }

  /** The agreement a session is held to; nobody is nobody in particular. */
  predicate Settled(t: SessionState, a: Account, outs: set<nat>) {
    t.identity == ANONYMOUS || Agree(t.identity, a, outs)
  }

  lemma NotifiedSettles(o: SessionState, t: SessionState, a: Account, outs: set<nat>)
    requires Notified(o, t) && OnOneLine(t.frames) && Settled(o, Seen(a, o.frames, outs), outs)
    ensures Settled(t, Seen(a, t.frames, outs), outs)
  {
    var m := t.frames[|t.frames| - 1].message;
    assert t.frames[|t.frames| - 1] in t.frames;
    OthersAreIgnored(Seen(a, o.frames, outs), m);
  }

  lemma LoginSettles(o: SessionState, t: SessionState, user: Option<UserInfo>, a: Account, outs: set<nat>)
    requires LoginAnswered(o, t, user) && Settled(o, Seen(a, o.frames, outs), outs)
    requires user.Some? ==> Clear(user.value.nodeName)
    ensures Settled(t, Seen(a, t.frames, outs), outs)
  {
    var b := Seen(a, o.frames, outs);
    if user.Some? {
      LoginIsAdopted(b, user.value);
    } else {
      RefusalsAreIgnored(b);
    }
  }

  lemma SignUpSettles(o: SessionState, t: SessionState, user: Option<UserInfo>, a: Account, outs: set<nat>)
    requires SignUpAnswered(o, t, user) && Settled(o, Seen(a, o.frames, outs), outs)
    requires user.Some? ==> Clear(user.value.nodeName)
    ensures Settled(t, Seen(a, t.frames, outs), outs)
  {
    var b := Seen(a, o.frames, outs);
    if user.Some? {
      RegistrationIsAdopted(b, o.identity, user.value);
    } else {
      RefusalsAreIgnored(b);
    }
  }

  lemma LoginIsClear(t: Tables, username: string, password: string)
    requires UsersOk(t) && Clear(username)
    ensures var user := Authenticate(t.users, username, password); user.Some? ==> Clear(user.value.nodeName)
  {
    NodeNameEnds(username);
  }

  lemma SignUpIsClear(t: Tables, username: string, password: string)
    requires Clear(username)
    ensures var user := Register(t, username, password).user; user.Some? ==> Clear(user.value.nodeName)
  {
    NodeNameEnds(username);
  }

  lemma StepSettles(s: Server, step: Step, n: nat, a: Account, outs: set<nat>)
    requires n < |Next(s, step).sessions| && UsersOk(s.tables) && ClearRequest(step, n)
    requires OnOneLine(Next(s, step).sessions[n].frames)
    requires n < |s.sessions| ==> Settled(s.sessions[n], Seen(a, s.sessions[n].frames, outs), outs)
    ensures var t := Next(s, step).sessions[n]; Settled(t, Seen(a, t.frames, outs), outs)
  {
    NextSession(s, step, n);
    if n < |s.sessions| {
      var o, t := s.sessions[n], Next(s, step).sessions[n];
      if Notified(o, t) {
        NotifiedSettles(o, t, a, outs);
      } else if t.identity == o.identity && t.frames == o.frames {
      } else if step.Login? {
        LoginIsClear(s.tables, step.username, step.password);
        LoginSettles(o, t, Authenticate(s.tables.users, step.username, step.password), a, outs);
      } else {
        SignUpIsClear(s.tables, step.username, step.password);
        SignUpSettles(o, t, Register(s.tables, step.username, step.password).user, a, outs);
      }
    }
  }

  lemma EarlierOnOneLine(s: Server, step: Step, n: nat)
    requires n < |s.sessions| && OnOneLine(Next(s, step).sessions[n].frames)
    ensures OnOneLine(s.sessions[n].frames)
  {
    NextSession(s, step, n);
    var o, t := s.sessions[n].frames, Next(s, step).sessions[n].frames;
    assert o == t || (t != [] && o == t[..|t| - 1]);
  }

  /**
    In every run, whoever has received all that a session sent, off the wire, knows the identity the
    session acts under, if the user names sent on this session are clear and no other message sent on
    it has a line feed; a client that believes it is the administrator talks to a session that is.
   */
  lemma {:induction false} AccountsAgree(steps: seq<Step>, n: nat, a: Account, outs: set<nat>)
    requires n < |Run(steps).sessions| && forall step | step in steps :: ClearRequest(step, n)
    requires OnOneLine(Run(steps).sessions[n].frames)
    ensures var session := Run(steps).sessions[n];
            session.identity == ANONYMOUS || Agree(session.identity, Seen(a, session.frames, outs), outs)
  {
    if steps != [] {
      var before, step := steps[..|steps| - 1], steps[|steps| - 1];
      assert steps == before + [step];
      UsersAlwaysOk(before);
      if n < |Run(before).sessions| {
        EarlierOnOneLine(Run(before), step, n);
        AccountsAgree(before, n, a, outs);
      }
      StepSettles(Run(before), step, n, a, outs);
    }
  }
}
