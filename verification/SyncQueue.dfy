/** The persistent operation queue of client/src/services/syncQueue.ts. */
module SyncQueues {
  import opened Collections
  import opened Crdt

  /** A row of the sync_queue table. */
  datatype Row = Row(item: Item, completedAt: Option<int>)

  function RowId(r: Row): string { r.item.id }

  function ItemId(i: Item): string { i.id }

  /** WHERE completed_at IS NULL, in table order. */
  function PendingItems(rows: seq<Row>): seq<Item> {
    if rows == [] then []
    else
      var last := rows[|rows| - 1];
      PendingItems(rows[..|rows| - 1]) + if last.completedAt.None? then [last.item] else []
  }

  /** ORDER BY created_at ASC as a descending key. */
  function OldestFirst(i: Item): real { -(i.createdAt as real) }

  /** An answer to the pending query: which of two equally old items comes first is left to the database. */
  ghost predicate IsPendingAnswer(rows: seq<Row>, items: seq<Item>) {
    && multiset(items) == multiset(PendingItems(rows))
    && forall i, j :: 0 <= i < j < |items| ==> items[i].createdAt <= items[j].createdAt
  }

  /** UPDATE sync_queue SET completed_at = now WHERE id IN ids */
  function Completed(rows: seq<Row>, ids: seq<string>, now: int): (r: seq<Row>)
    ensures |r| == |rows|
    ensures forall i :: 0 <= i < |rows| ==>
      r[i].item == rows[i].item &&
      r[i].completedAt == if rows[i].item.id in ids then Some(now) else rows[i].completedAt
  {
    if rows == [] then []
    else
      var last := rows[|rows| - 1];
      Completed(rows[..|rows| - 1], ids, now) +
      [if last.item.id in ids then last.(completedAt := Some(now)) else last]
  }

  /** UPDATE sync_queue SET retry_count = retry_count + 1 WHERE id = id */
  function Retried(rows: seq<Row>, id: string): (r: seq<Row>)
    ensures |r| == |rows|
    ensures forall i :: 0 <= i < |rows| ==>
      r[i].completedAt == rows[i].completedAt &&
      r[i].item ==
        if rows[i].item.id == id then rows[i].item.(retryCount := rows[i].item.retryCount + 1) else rows[i].item
  {
    if rows == [] then []
    else
      var last := rows[|rows| - 1];
      Retried(rows[..|rows| - 1], id) +
      [if last.item.id == id then last.(item := last.item.(retryCount := last.item.retryCount + 1)) else last]
  }

  /** DELETE FROM sync_queue WHERE completed_at IS NOT NULL AND completed_at < cutoff */
  function Swept(rows: seq<Row>, cutoff: int): seq<Row> {
    if rows == [] then []
    else
      var last := rows[|rows| - 1];
      Swept(rows[..|rows| - 1], cutoff) +
      if last.completedAt.Some? && last.completedAt.value < cutoff then [] else [last]
  }

  lemma {:induction false} SweptMember(rows: seq<Row>, cutoff: int, row: Row)
    ensures row in Swept(rows, cutoff) <==> row in rows && !(row.completedAt.Some? && row.completedAt.value < cutoff)
  {
    if rows != [] {
      SweptMember(rows[..|rows| - 1], cutoff, row);
      MemberSplit(rows, row);
    }
  }

  /** Exactly the rows completed before the cutoff are gone. */
  ghost predicate SweepsExactly(before: seq<Row>, after: seq<Row>, cutoff: int) {
    forall row :: row in after <==> row in before && !(row.completedAt.Some? && row.completedAt.value < cutoff)
  }

  lemma SweptMembers(rows: seq<Row>, cutoff: int)
    ensures SweepsExactly(rows, Swept(rows, cutoff), cutoff)
  {
    forall row ensures row in Swept(rows, cutoff) <==>
      row in rows && !(row.completedAt.Some? && row.completedAt.value < cutoff) {
      SweptMember(rows, cutoff, row);
    }
  }

  lemma {:induction false} PendingItemsMember(rows: seq<Row>, item: Item)
    ensures item in PendingItems(rows) <==> Row(item, None) in rows
  {
    if rows != [] {
      PendingItemsMember(rows[..|rows| - 1], item);
      MemberSplit(rows, Row(item, None));
    }
  }

  lemma PendingAnswerMember(rows: seq<Row>, items: seq<Item>, item: Item)
    requires IsPendingAnswer(rows, items)
    ensures item in items <==> Row(item, None) in rows
  {
    assert item in items <==> item in multiset(items);
    assert item in PendingItems(rows) <==> item in multiset(PendingItems(rows));
    PendingItemsMember(rows, item);
  }

  class SyncQueue {
    var rows: seq<Row>

    /** The primary key. */
    ghost predicate Valid() reads this {
      Distinct(Ids(RowId, rows))
    }

    constructor ()
      ensures Valid() && rows == []
    {
      rows := [];
    }

    /** `id` is the generated row id and `now` the clock; a repeated id fails the insert. */
    method Enqueue(operation: Operation, payload: Payload, id: string, now: int) returns (ok: bool)
      requires Valid()
      modifies this
      ensures Valid() && ok == (id !in old(Ids(RowId, rows)))
      ensures rows == if ok then old(rows) + [Row(Item(id, operation, payload, now, 0), None)] else old(rows)
    {
      if id in Ids(RowId, rows) {
        return false;
      }
      ok := true;
      var row := Row(Item(id, operation, payload, now, 0), None);
      IdsAppend(RowId, rows, [row]);
      assert Ids(RowId, [row]) == [id] by { assert [row][..0] == []; }
      rows := rows + [row];
    }

    method GetPending() returns (items: seq<Item>)
      ensures IsPendingAnswer(rows, items)
    {
      items := SortDesc(OldestFirst, PendingItems(rows));
      SortDescSorts(OldestFirst, PendingItems(rows));
      forall i, j | 0 <= i < j < |items| ensures items[i].createdAt <= items[j].createdAt {
        assert OldestFirst(items[i]) >= OldestFirst(items[j]);
      }
    }

    method CompleteBatch(ids: seq<string>, now: int)
      requires Valid()
      modifies this
      ensures Valid() && rows == Completed(old(rows), ids, now)
    {
      SameIds(rows, Completed(rows, ids, now));
      if ids == [] {
        assert rows == Completed(rows, ids, now);
        return;
      }
      rows := Completed(rows, ids, now);
    }

    method IncrementRetry(id: string)
      requires Valid()
      modifies this
      ensures Valid() && rows == Retried(old(rows), id)
    {
      SameIds(rows, Retried(rows, id));
      rows := Retried(rows, id);
    }

    /** Pending rows survive whatever their age. */
    method Cleanup(maxAge: int, now: int)
      requires Valid()
      modifies this
      ensures Valid() && rows == Swept(old(rows), now - maxAge)
      ensures SweepsExactly(old(rows), rows, now - maxAge)
      ensures PendingItems(rows) == PendingItems(old(rows))
    {
      var cutoff := now - maxAge;
      SweepKeeps(rows, cutoff);
      rows := Swept(rows, cutoff);
    }
  }

  lemma SweepKeeps(rows: seq<Row>, cutoff: int)
    requires Distinct(Ids(RowId, rows))
    ensures Distinct(Ids(RowId, Swept(rows, cutoff)))
    ensures SweepsExactly(rows, Swept(rows, cutoff), cutoff)
    ensures PendingItems(Swept(rows, cutoff)) == PendingItems(rows)
  {
    SweptDistinct(rows, cutoff);
    SweptMembers(rows, cutoff);
    SweptKeepsPending(rows, cutoff);
  }

  lemma SameIds(a: seq<Row>, b: seq<Row>)
    requires |a| == |b| && forall i :: 0 <= i < |a| ==> a[i].item.id == b[i].item.id
    ensures Ids(RowId, a) == Ids(RowId, b)
  {
    forall i | 0 <= i < |a| ensures Ids(RowId, a)[i] == Ids(RowId, b)[i] {
      IdsAt(RowId, a, i);
      IdsAt(RowId, b, i);
    }
  }

  lemma SweptIds(rows: seq<Row>, cutoff: int, k: string)
    requires k in Ids(RowId, Swept(rows, cutoff))
    ensures k in Ids(RowId, rows)
  {
    var s := Swept(rows, cutoff);
    var i :| 0 <= i < |s| && Ids(RowId, s)[i] == k;
    IdsAt(RowId, s, i);
    SweptMember(rows, cutoff, s[i]);
    var j :| 0 <= j < |rows| && rows[j] == s[i];
    IdsAt(RowId, rows, j);
  }

  lemma {:induction false} SweptDistinct(rows: seq<Row>, cutoff: int)
    requires Distinct(Ids(RowId, rows))
    ensures Distinct(Ids(RowId, Swept(rows, cutoff)))
  {
    if rows != [] {
      var init, last, ids := rows[..|rows| - 1], rows[|rows| - 1], Ids(RowId, rows);
      assert ids[..|ids| - 1] == Ids(RowId, init);
      DistinctInit(ids);
      SweptDistinct(init, cutoff);
      var r := Swept(init, cutoff);
      if Swept(rows, cutoff) == r + [last] {
        assert (r + [last])[..|r|] == r;
        if RowId(last) in Ids(RowId, r) {
          SweptIds(init, cutoff, RowId(last));
        }
        DistinctAppend(Ids(RowId, r), RowId(last));
      } else {
        assert Swept(rows, cutoff) == r;
      }
    }
  }

  lemma {:induction false} SweptKeepsPending(rows: seq<Row>, cutoff: int)
    ensures PendingItems(Swept(rows, cutoff)) == PendingItems(rows)
  {
    if rows != [] {
      var init, last := rows[..|rows| - 1], rows[|rows| - 1];
      SweptKeepsPending(init, cutoff);
      var r := Swept(init, cutoff);
      if last.completedAt.Some? && last.completedAt.value < cutoff {
        assert Swept(rows, cutoff) == r;
      } else {
        assert (r + [last])[..|r|] == r;
      }
    }
  }
}
