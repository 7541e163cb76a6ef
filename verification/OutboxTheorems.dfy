/** What the outbox protocol guarantees in every run, and what it does not. */
module OutboxTheorems {
  import opened Models
  import opened LocalStore
  import opened Repository
  import opened OutboxProtocol
  import opened Redelivery

  /**
    In every run the server has handled, repeats aside, exactly a prefix of what was collected,
    in order and without gaps; it is ahead of the erased items by at most one.
   */
  lemma {:induction false} FirstDeliveriesArePrefix(h: nat, steps: seq<Step>)
    ensures var s := Run(h, steps);
            var first := FirstDeliveries(Delivered(s.log));
            && Erased(s) <= |first| <= Erased(s) + 1
            && |first| <= |s.history|
            && first == Stamped(s.history, |first|)
  {
    Invariant(h, steps);
  }

  /** Every snapshot collected, connected or not, is stored behind all others under the next number. */
  lemma CollectedIsStored(h: nat, steps: seq<Step>, p: MetricsSnapshot)
    ensures var s, t := Run(h, steps), Run(h, steps + [Collect(p)]);
            && t.history == s.history + [p] && t.log == s.log
            && t.client.outbox.rows == s.client.outbox.rows + [Item(|t.history|, p)]
  {
    Invariant(h, steps);
    assert (steps + [Collect(p)])[..|steps|] == steps;
  }

  /** However late or often an ACK arrives, it erases the current head or nothing. */
  lemma AckErasesHeadOrNothing(h: nat, steps: seq<Step>)
    requires Enabled(Run(h, steps), ReceiveAck)
    ensures var s := Run(h, steps);
            var rows, rows' := s.client.outbox.rows, Apply(h, s, ReceiveAck).client.outbox.rows;
            rows' == rows || (rows != [] && s.acks[0] == rows[0].id && rows' == rows[1..])
  {
    Invariant(h, steps);
    AckEffect(h, Run(h, steps), Run(h, steps).acks[0]);
  }

  /** What count() returns is, up to one, the number of collected snapshots the server has not handled. */
  lemma {:induction false} CountIsBacklog(h: nat, steps: seq<Step>)
    ensures var s := Run(h, steps);
            var unhandled := |s.history| - |FirstDeliveries(Delivered(s.log))|;
            unhandled <= |s.client.outbox.rows| <= unhandled + 1
  {
    Invariant(h, steps);
  }

  // ---- Where every item is ----

  predicate Waiting(s: System, i: nat)
    requires i < |s.history|
  {
    Item(i + 1, s.history[i]) in s.client.outbox.rows
  }

  /** The row is the stored form of the item; user id and node name are those of the storing session. */
  predicate Holds(r: MetricRow, item: MetricsSnapshot) {
    r == RowOf(r.id, item.(userId := r.userId, nodeName := r.nodeName))
  }

  /** The metrics table holds item `i`, unchanged but for the identity of the session that stored it. */
  ghost predicate Stored(s: System, i: nat)
    requires i < |s.history|
  {
    exists r | r in Table(s.log) :: Holds(r, s.history[i].(localId := i + 1))
  }

  /** Item `i` was handed to the server's insert, with this result. */
  ghost predicate Tried(s: System, i: nat, stored: bool) {
    exists e | e in s.log :: e.snapshot.localId == i + 1 && e.stored == stored
  }

  lemma {:induction false} TableHasEntry(log: seq<Entry>, e: Entry) returns (r: MetricRow)
    requires e in log && e.stored
    ensures r in Table(log) && r == RowFrom(r.id, e)
  {
    var before, last := log[..|log| - 1], log[|log| - 1];
    assert log == before + [last];
    if e in before {
      r := TableHasEntry(before, e);
    } else {
      r := RowFrom(|Table(before)| + 1, e);
    }
  }

  lemma {:induction false} RowHasEntry(log: seq<Entry>, r: MetricRow) returns (e: Entry)
    requires r in Table(log)
    ensures e in log && e.stored && r == RowFrom(r.id, e)
  {
    var before, last := log[..|log| - 1], log[|log| - 1];
    assert log == before + [last];
    if r in Table(before) {
      e := RowHasEntry(before, r);
    } else {
      e := last;
    }
  }

  /** The table holds an item exactly if one of its inserts did not throw. */
  lemma StoredIffTried(s: System, i: nat)
    requires AllGenuine(s, Delivered(s.log)) && i < |s.history|
    ensures Stored(s, i) <==> Tried(s, i, true)
  {
    var item := s.history[i].(localId := i + 1);
    if Stored(s, i) {
      var r :| r in Table(s.log) && Holds(r, item);
      var e := RowHasEntry(s.log, r);
      assert e.snapshot.localId == r.clientId == i + 1;
    }
    if Tried(s, i, true) {
      var e :| e in s.log && e.snapshot.localId == i + 1 && e.stored;
      EntryIsGenuine(s, e);
      var r := TableHasEntry(s.log, e);
      assert Holds(r, item);
    }
  }

  /** An erased item was handed to the server. */
  lemma ErasedWasTried(s: System, i: nat)
    requires Inv(s) && i < Erased(s)
    ensures Tried(s, i, true) || Tried(s, i, false)
  {
    var first := FirstDeliveries(Delivered(s.log));
    var x := first[i];
    FirstDeliveriesIds(Delivered(s.log), x.localId);
    assert x in first;
    var k :| 0 <= k < |s.log| && Delivered(s.log)[k] == x;
    assert s.log[k] in s.log && s.log[k].snapshot.localId == i + 1;
  }

  /**
    Every collected item waits exactly until it is erased; from then on it is a row of the metrics
    table, or every insert of it has thrown.
   */
  lemma {:induction false} Conservation(h: nat, steps: seq<Step>, i: nat)
    requires i < |Run(h, steps).history|
    ensures var s := Run(h, steps);
            && (Waiting(s, i) <==> Erased(s) <= i)
            && (Stored(s, i) <==> Tried(s, i, true))
            && (i < Erased(s) ==> Stored(s, i) || Tried(s, i, false))
  {
    Invariant(h, steps);
    var s := Run(h, steps);
    StoredIffTried(s, i);
    if i < Erased(s) {
      ErasedWasTried(s, i);
    } else {
      assert s.client.outbox.rows[i - Erased(s)] == Item(i + 1, s.history[i]);
    }
  }

  /** Exactly when an item is lost: it has been erased and no insert of it went through. */
  lemma {:induction false} LostIff(h: nat, steps: seq<Step>, i: nat)
    requires i < |Run(h, steps).history|
    ensures var s := Run(h, steps);
            !Waiting(s, i) && !Stored(s, i)
            <==> i < Erased(s) && forall e | e in s.log && e.snapshot.localId == i + 1 :: !e.stored
    ensures var s := Run(h, steps);
            !Waiting(s, i) && !Stored(s, i) ==> Tried(s, i, false)
  {
    Conservation(h, steps, i);
  }

  /** Unless an insert throws, outbox and metrics table together hold everything ever collected. */
  lemma NothingLostUnlessInsertThrows(h: nat, steps: seq<Step>, i: nat)
    requires i < |Run(h, steps).history|
    requires forall e | e in Run(h, steps).log :: e.stored
    ensures Waiting(Run(h, steps), i) || Stored(Run(h, steps), i)
  {
    Conservation(h, steps, i);
  }
}
