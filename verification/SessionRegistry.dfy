/**
  The list of weak references to sessions. A session is identified by a number that is never
  reused; a weak reference is dead once nothing else refers to its session.
 */
module Registry {
  function Without(list: seq<nat>, dead: set<nat>): (r: seq<nat>)
    ensures forall x :: x in r <==> x in list && x !in dead
  {
    if list == [] then []
    else
      var rest := Without(list[..|list| - 1], dead);
      var x := list[|list| - 1];
      assert list == list[..|list| - 1] + [x];
      if x in dead then rest else rest + [x]
  }

  /** What stays keeps its order and its number. */
  lemma {:induction false} WithoutAppend(a: seq<nat>, b: seq<nat>, dead: set<nat>)
    ensures Without(a + b, dead) == Without(a, dead) + Without(b, dead)
    ensures forall x :: Without([x], dead) == if x in dead then [] else [x]
  {
    if b == [] {
      assert a + b == a;
    } else {
      assert (a + b)[..|a + b| - 1] == a + b[..|b| - 1];
      WithoutAppend(a, b[..|b| - 1], dead);
    }
  }

  predicate Distinct(list: seq<nat>) { forall i, j | 0 <= i < j < |list| :: list[i] != list[j] }

  lemma {:induction false} WithoutDistinct(list: seq<nat>, dead: set<nat>)
    requires Distinct(list)
    ensures Distinct(Without(list, dead))
  {
    if list != [] {
      var before, x := list[..|list| - 1], list[|list| - 1];
      WithoutDistinct(before, dead);
      assert x !in before;
    }
  }

  // ---- broadcast, while other threads drop references ----

  /** `gone[k]`: the sessions to which, at the k-th inspection, nobody but broadcast refers. */
  predicate OnlyGrows(gone: seq<set<nat>>) { forall i, j | 0 <= i <= j < |gone| :: gone[i] <= gone[j] }

  /** The references that could be locked among the first `n`, each at its own moment. */
  function Locked(list: seq<nat>, gone: seq<set<nat>>, n: nat): seq<nat>
    requires n <= |list| && n <= |gone|
  {
    if n == 0 then []
    else
      var held := Locked(list, gone, n - 1);
      if list[n - 1] in gone[n - 1] && list[n - 1] !in held then held else held + [list[n - 1]]
  }

  /** A reference that was dead when inspected is not locked through a later duplicate either. */
  lemma {:induction false} DeadStaysDead(list: seq<nat>, gone: seq<set<nat>>, i: nat, n: nat)
    requires i < n <= |list| && n <= |gone| && OnlyGrows(gone)
    requires list[i] in gone[i] && list[i] !in Locked(list, gone, i)
    ensures list[i] !in Locked(list, gone, n)
    decreases n - i
  {
    if n > i + 1 {
      DeadStaysDead(list, gone, i, n - 1);
      assert gone[i] <= gone[n - 1];
    }
  }

  lemma {:induction false} LockedGrows(list: seq<nat>, gone: seq<set<nat>>, m: nat, n: nat)
    requires m <= n <= |list| && n <= |gone|
    ensures forall x | x in Locked(list, gone, m) :: x in Locked(list, gone, n)
    decreases n - m
  {
    if m < n {
      LockedGrows(list, gone, m, n - 1);
    }
  }

  /** Only references of the list that were alive when inspected are locked, each once. */
  lemma {:induction false} LockedSpec(list: seq<nat>, gone: seq<set<nat>>, n: nat)
    requires n <= |list| && n <= |gone|
    ensures forall x | x in Locked(list, gone, n) :: exists i | 0 <= i < n :: list[i] == x && x !in gone[i]
    ensures forall i | 0 <= i < n && list[i] !in gone[i] :: list[i] in Locked(list, gone, n)
    ensures Distinct(list) ==> Distinct(Locked(list, gone, n))
  {
    if n > 0 {
      LockedSpec(list, gone, n - 1);
      assert Distinct(list) ==> list[n - 1] !in Locked(list, gone, n - 1);
    }
  }

  /** With no reference dropped meanwhile, the locked references are the live ones. */
  lemma {:induction false} LockedIfQuiet(list: seq<nat>, dead: set<nat>, gone: seq<set<nat>>, n: nat)
    requires n <= |list| && n <= |gone| && forall k | 0 <= k < |gone| :: gone[k] == dead
    ensures Locked(list, gone, n) == Without(list[..n], dead)
  {
    if n > 0 {
      LockedIfQuiet(list, dead, gone, n - 1);
      assert list[..n][..n - 1] == list[..n - 1];
    }
  }

  class SessionRegistry {
    var sessions: seq<nat>

    constructor ()
      ensures sessions == []
    {
      sessions := [];
    }

    method Join(session: nat)
      modifies this
      ensures sessions == old(sessions) + [session]
    {
      sessions := sessions + [session];
    }

    /** Removes the session, and every dead reference on the way. */
    method Leave(session: nat, dead: set<nat>)
      modifies this
      ensures sessions == Without(old(sessions), dead + {session})
    {
      var kept: seq<nat> := [];
      for i := 0 to |sessions|
        invariant kept == Without(sessions[..i], dead + {session})
      {
        assert sessions[..i + 1][..i] == sessions[..i];
        if !(sessions[i] in dead || sessions[i] == session) {
          kept := kept + [sessions[i]];
        }
      }
      assert sessions[..|sessions|] == sessions;
      sessions := kept;
    }

    /**
      The recipients, in order: whoever could be locked. Whatever other threads drop between the
      two passes, the pruned list is the list of recipients.
     */
    method Broadcast(gone: seq<set<nat>>) returns (recipients: seq<nat>)
      requires |gone| == 2 * |sessions| && OnlyGrows(gone)
      modifies this
      ensures recipients == Locked(old(sessions), gone, |old(sessions)|)
      ensures sessions == recipients
      ensures Distinct(old(sessions)) ==> Distinct(recipients)
      ensures forall x | x in recipients :: x in old(sessions)
      ensures forall x | x in old(sessions) && (forall k | 0 <= k < |gone| :: x !in gone[k]) :: x in recipients
    {
      LockedSpec(sessions, gone, |sessions|);
      var list, n := sessions, |sessions|;
      recipients := [];
      for i := 0 to n
        invariant recipients == Locked(list, gone, i)
      {
        if !(list[i] in gone[i] && list[i] !in recipients) {
          recipients := recipients + [list[i]];
        }
      }
      var kept: seq<nat> := [];
      for i := 0 to n
        invariant kept == Locked(list, gone, i)
      {
        LockedGrows(list, gone, i + 1, n);
        if list[i] in gone[i] && list[i] !in kept {
          DeadStaysDead(list, gone, i, n);
          assert gone[i] <= gone[n + i];
        } else {
          assert list[i] in Locked(list, gone, i + 1);
        }
        if !(list[i] in gone[n + i] && list[i] !in recipients) {
          kept := kept + [list[i]];
        }
      }
      sessions := kept;
    }

    method Nodes(nodeName: nat -> string, dead: set<nat>) returns (out: seq<string>)
      ensures |out| == |Without(sessions, dead)|
      ensures forall i | 0 <= i < |out| :: out[i] == nodeName(Without(sessions, dead)[i])
    {
      out := [];
      for i := 0 to |sessions|
        invariant |out| == |Without(sessions[..i], dead)|
        invariant forall k | 0 <= k < |out| :: out[k] == nodeName(Without(sessions[..i], dead)[k])
      {
        assert sessions[..i + 1][..i] == sessions[..i];
        if sessions[i] !in dead {
          out := out + [nodeName(sessions[i])];
        }
      }
      assert sessions[..|sessions|] == sessions;
    }
  }

  // ---- Membership over whole runs ----

  datatype Members = Members(list: seq<nat>, started: set<nat>, stopped: set<nat>, dead: set<nat>)

  const NONE := Members([], {}, {}, {})

  datatype Event =
    | Start(session: nat)
    | Stop(session: nat)
    | Die(session: nat)                  // the last reference is dropped
    | Broadcast(gone: seq<set<nat>>)     // references dropped while the list is walked twice

  /** What other threads can do to the references of `m` while a broadcast inspects them. */
  predicate Possible(m: Members, gone: seq<set<nat>>) {
    |gone| == 2 * |m.list| && OnlyGrows(gone) && (gone != [] ==> m.dead <= gone[0])
  }

  function Recipients(m: Members, gone: seq<set<nat>>): seq<nat>
    requires Possible(m, gone)
  {
    Locked(m.list, gone, |m.list|)
  }

  /** The references dead at the end of a broadcast; its recipients it still holds itself. */
  function DeadAfter(m: Members, gone: seq<set<nat>>): set<nat>
    requires Possible(m, gone)
  {
    if gone == [] then m.dead else set x | x in gone[|gone| - 1] && x !in Recipients(m, gone)
  }

  /** A session starts once; stop() acts once and only on a session that still exists. */
  function Step(m: Members, e: Event): Members {
    match e
    case Start(x) =>
      if x in m.started || x in m.dead then m else m.(list := m.list + [x], started := m.started + {x})
    case Stop(x) =>
      if x !in m.started || x in m.stopped || x in m.dead then m
      else m.(list := Without(m.list, m.dead + {x}), stopped := m.stopped + {x})
    case Die(x) => m.(dead := m.dead + {x})
    case Broadcast(gone) =>
      if Possible(m, gone) then m.(list := Recipients(m, gone), dead := DeadAfter(m, gone)) else m
  }

  function Run(events: seq<Event>): Members {
    if events == [] then NONE else Step(Run(events[..|events| - 1]), events[|events| - 1])
  }

  /** The live members are the sessions started and not stopped, each once. */
  ghost predicate Agrees(m: Members) {
    && Distinct(m.list) && m.stopped <= m.started
    && (forall x | x in m.list :: x in m.started)
    && (forall x | x !in m.dead :: x in m.list <==> x in m.started && x !in m.stopped)
  }

  /** The recipients are live members; a member that nobody drops is a recipient. */
  lemma RecipientsSpec(m: Members, gone: seq<set<nat>>)
    requires Possible(m, gone) && Distinct(m.list)
    ensures Distinct(Recipients(m, gone))
    ensures forall x | x in Recipients(m, gone) :: x in m.list && x !in m.dead
    ensures forall x | x in m.list && x !in gone[|gone| - 1] :: x in Recipients(m, gone)
  {
    LockedSpec(m.list, gone, |m.list|);
    forall x | x in Recipients(m, gone)
      ensures x in m.list && x !in m.dead
    {
      var i :| 0 <= i < |m.list| && m.list[i] == x && x !in gone[i];
      assert gone[0] <= gone[i];
    }
    forall x | x in m.list && x !in gone[|gone| - 1]
      ensures x in Recipients(m, gone)
    {
      var i :| 0 <= i < |m.list| && m.list[i] == x;
      assert gone[i] <= gone[|gone| - 1];
    }
  }

  lemma BroadcastAgrees(m: Members, gone: seq<set<nat>>)
    requires Agrees(m) && Possible(m, gone)
    ensures Agrees(Step(m, Broadcast(gone)))
  {
    RecipientsSpec(m, gone);
    if gone != [] {
      assert gone[0] <= gone[|gone| - 1];
    }
  }

  /** In every run, broadcasts during which references are dropped included. */
  lemma {:induction false} RegistryAgrees(events: seq<Event>)
    ensures Agrees(Run(events))
  {
    if events != [] {
      var m := Run(events[..|events| - 1]);
      RegistryAgrees(events[..|events| - 1]);
      match events[|events| - 1]
      case Stop(x) => WithoutDistinct(m.list, m.dead + {x});
      case Broadcast(gone) =>
        if Possible(m, gone) {
          BroadcastAgrees(m, gone);
        }
      case _ =>
    }
  }

  /**
    A broadcast in any reachable state reaches only sessions that are started and not stopped, each
    of them once, and every one of them that nobody drops meanwhile.
   */
  lemma BroadcastReaches(events: seq<Event>, gone: seq<set<nat>>)
    requires Possible(Run(events), gone)
    ensures var m := Run(events);
            var recipients := Recipients(m, gone);
            && Distinct(recipients)
            && (forall x | x in recipients :: x in m.started && x !in m.stopped)
            && (forall x | x in m.started && x !in m.stopped && x !in m.dead
                           && (forall k | 0 <= k < |gone| :: x !in gone[k]) :: x in recipients)
  {
    RegistryAgrees(events);
    RecipientsSpec(Run(events), gone);
  }
}
