/** The client's account and collector over whole runs of answers, logouts and stops. */
module ClientRuns {
  import opened Models
  import opened Accounts

  datatype Event =
    | Receives(message: WireMessage)
    | Starts(nodeName: string)
    | LogsOut
    | Stops

  function Step(a: Account, e: Event): Account {
    match e
    case Receives(m) => OnMessage(a, m)
    case Starts(nodeName) => StartWorker(a, nodeName)
    case LogsOut => LogOut(a)
    case Stops => Stop(a)
  }

  function Run(events: seq<Event>): Account {
    if events == [] then NOBODY else Step(Run(events[..|events| - 1]), events[|events| - 1])
  }

  // ---- Rights ----

  predicate IsPositive(e: Event) {
    e.Receives? && Field(e.message.payload, "status") == "ok"
    && (e.message.kind == LOGIN_RESP || e.message.kind == REGISTER_RESP)
  }

  /** A positive login answer that names the administrator's role. */
  predicate GivesRights(e: Event) {
    IsPositive(e) && e.message.kind == LOGIN_RESP && Field(e.message.payload, "role") == "admin"
  }

  predicate TakesRights(e: Event) { e.LogsOut? || e.Stops? || (IsPositive(e) && !GivesRights(e)) }

  /** Rights were given at `i` and not taken since. */
  predicate HeldSince(events: seq<Event>, i: nat)
    requires i < |events|
  {
    GivesRights(events[i]) && forall k | i < k < |events| :: !TakesRights(events[k])
  }

  lemma HeldStep(before: seq<Event>, e: Event)
    ensures (exists i: nat | i < |before + [e]| :: HeldSince(before + [e], i))
       <==> GivesRights(e) || (!TakesRights(e) && exists i: nat | i < |before| :: HeldSince(before, i))
  {
    var events := before + [e];
    forall i: nat | i < |before|
      ensures HeldSince(events, i) <==> HeldSince(before, i) && !TakesRights(e)
    {
      assert events[i] == before[i] && events[|before|] == e;
      assert forall k | i < k < |before| :: events[k] == before[k];
    }
    assert HeldSince(events, |before|) <==> GivesRights(e);
  }

  /** The client holds administrator rights exactly if a login gave them and nothing has taken them since. */
  lemma {:induction false} RightsIff(events: seq<Event>)
    ensures Run(events).isAdmin <==> exists i: nat | i < |events| :: HeldSince(events, i)
  {
    if events != [] {
      var before, e := events[..|events| - 1], events[|events| - 1];
      assert events == before + [e];
      RightsIff(before);
      HeldStep(before, e);
    }
  }

  // ---- The collector ----

  /** The node name under which this event would start a collector. */
  function StartName(e: Event): Option<string> {
    if e.Starts? then Some(e.nodeName)
    else if IsPositive(e) then Some(Field(e.message.payload, "nodeName"))
    else None
  }

  lemma CollectorStep(a: Account, e: Event)
    ensures Step(a, e).worker == if e.Stops? then None else if a.worker.Some? then a.worker else StartName(e)
  {
  }

  /** The first name after the last stop. */
  function CollectorName(events: seq<Event>): Option<string> {
    if events == [] then None
    else
      var before, e := CollectorName(events[..|events| - 1]), events[|events| - 1];
      if e.Stops? then None else if before.Some? then before else StartName(e)
  }

  lemma {:induction false} CollectorRuns(events: seq<Event>)
    ensures Run(events).worker == CollectorName(events)
  {
    if events != [] {
      CollectorRuns(events[..|events| - 1]);
      CollectorStep(Run(events[..|events| - 1]), events[|events| - 1]);
    }
  }

  /** Event `i` started the collector: none was running, and none has been stopped since. */
  predicate StartedAt(events: seq<Event>, i: nat)
    requires i < |events|
  {
    && !events[i].Stops? && StartName(events[i]).Some? && CollectorName(events[..i]) == None
    && forall k | i < k < |events| :: !events[k].Stops?
  }

  /** A collector keeps the name it was started with, whoever logs in meanwhile, until it is stopped. */
  lemma {:induction false} CollectorKeepsName(events: seq<Event>, i: nat)
    requires i < |events| && StartedAt(events, i)
    ensures Run(events).worker == StartName(events[i])
    decreases |events|
  {
    var before := events[..|events| - 1];
    CollectorRuns(events[..i]);
    if i == |events| - 1 {
      CollectorStep(Run(before), events[i]);
    } else {
      assert before[..i] == events[..i] && forall k | i <= k < |before| :: before[k] == events[k];
      CollectorKeepsName(before, i);
      CollectorStep(Run(before), events[|events| - 1]);
    }
  }

  /** And no collector runs exactly while nothing has started one since the last stop. */
  lemma {:induction false} NoCollectorIff(events: seq<Event>)
    ensures Run(events).worker == None
       <==> forall i: nat | i < |events| && StartName(events[i]).Some? ::
              exists k | i <= k < |events| :: events[k].Stops?
  {
    if events != [] {
      var before, e := events[..|events| - 1], events[|events| - 1];
      assert events == before + [e];
      NoCollectorIff(before);
      CollectorStep(Run(before), e);
    }
  }
}
