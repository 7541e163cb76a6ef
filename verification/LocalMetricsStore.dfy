/** The client's persistent outbox: a table with AUTOINCREMENT ids, kept in id order. */
module LocalStore {
  import opened Models
  import opened Text

  datatype Item = Item(id: int, payload: MetricsSnapshot)

  /** The outbox table and the sequence counter that survives deletions. */
  datatype Outbox = Outbox(rows: seq<Item>, lastId: nat)

  predicate WellFormed(o: Outbox) {
    && (forall i | 0 <= i < |o.rows| :: 0 < o.rows[i].id <= o.lastId)
    && (forall i, j | 0 <= i < j < |o.rows| :: o.rows[i].id < o.rows[j].id)
  }

  function Enqueue(o: Outbox, payload: MetricsSnapshot): Outbox {
    Outbox(o.rows + [Item(o.lastId + 1, payload)], o.lastId + 1)
  }

  /** SELECT ... ORDER BY id ASC LIMIT 1 on a table stored in id order. */
  function PeekOldest(o: Outbox): Option<Item> {
    if o.rows == [] then None else Some(o.rows[0])
  }

  /** DELETE ... WHERE id = ? */
  function Without(rows: seq<Item>, id: int): seq<Item> {
    if rows == [] then []
    else if rows[0].id == id then Without(rows[1..], id)
    else [rows[0]] + Without(rows[1..], id)
  }

  function Erase(o: Outbox, id: int): Outbox { o.(rows := Without(o.rows, id)) }

  lemma WithoutAbsent(rows: seq<Item>, id: int)
    requires forall item | item in rows :: item.id != id
    ensures Without(rows, id) == rows
  {
  }

  /** In a well-formed outbox an id selects at most one row, so erasing cuts out one position. */
  lemma {:induction false} EraseCutsOne(rows: seq<Item>, k: nat)
    requires k < |rows| && forall i, j | 0 <= i < j < |rows| :: rows[i].id != rows[j].id
    ensures Without(rows, rows[k].id) == rows[..k] + rows[k + 1..]
  {
    if k == 0 {
      WithoutAbsent(rows[1..], rows[0].id);
    } else {
      var rest := rows[1..];
      EraseCutsOne(rest, k - 1);
      Associative([rows[0]], rest[..k - 1], rest[k..]);
      assert [rows[0]] + rest[..k - 1] == rows[..k];
      assert rest[k..] == rows[k + 1..];
    }
  }

  class LocalMetricsStore {
    var rows: seq<Item>
    var sequence: nat

    ghost function Contents(): Outbox
      reads this
    {
      Outbox(rows, sequence)
    }

    constructor ()
      ensures Contents() == Outbox([], 0) && WellFormed(Contents())
    {
      rows, sequence := [], 0;
    }

    method EnqueueItem(payload: MetricsSnapshot) returns (id: int)
      requires WellFormed(Contents())
      modifies this
      ensures Contents() == Enqueue(old(Contents()), payload) && WellFormed(Contents())
      ensures id == sequence > old(sequence)
      ensures forall item | item in old(rows) :: item.id < id
    {
      sequence := sequence + 1;
      rows := rows + [Item(sequence, payload)];
      id := sequence;
    }

    method Peek() returns (item: Option<Item>)
      requires WellFormed(Contents())
      ensures item == PeekOldest(Contents())
      ensures item.None? <==> rows == []
      ensures item.Some? ==> item.value in rows && forall other | other in rows :: item.value.id <= other.id
    {
      item := if rows == [] then None else Some(rows[0]);
    }

    method EraseItem(id: int)
      requires WellFormed(Contents())
      modifies this`rows
      ensures Contents() == Erase(old(Contents()), id) && WellFormed(Contents())
      ensures (forall item | item in old(rows) :: item.id != id) ==> rows == old(rows)
    {
      EraseKeepsWellFormed(Contents(), id);
      if forall item | item in rows :: item.id != id {
        WithoutAbsent(rows, id);
      }
      rows := Without(rows, id);
    }
  }

  lemma EraseKeepsWellFormed(o: Outbox, id: int)
    requires WellFormed(o)
    ensures WellFormed(Erase(o, id))
  {
    if k :| 0 <= k < |o.rows| && o.rows[k].id == id {
      EraseCutsOne(o.rows, k);
    } else {
      WithoutAbsent(o.rows, id);
    }
  }

}
