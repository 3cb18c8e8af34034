/** The order in which a worker with a standing clock works off the rows that are due. */
module Drain {
  import opened Results
  import opened Outbox

  function Due(rows: seq<Row>, now: int): (r: seq<Row>)
    ensures forall x :: x in r <==> x in rows && x.nextAttemptAt <= now
    ensures |r| <= |rows|
  {
    if rows == [] then []
    else
      assert forall x :: x in rows <==> x == rows[0] || x in rows[1..];
      if rows[0].nextAttemptAt <= now then [rows[0]] + Due(rows[1..], now)
      else Due(rows[1..], now)
  }

  lemma {:induction false} DueOrdered(rows: seq<Row>, now: int)
    requires Ordered(rows)
    ensures Ordered(Due(rows, now))
  {
    if rows != [] {
      DueOrdered(rows[1..], now);
      forall x | x in Due(rows[1..], now)
        ensures rows[0].id < x.id
      {
        var i :| 1 <= i < |rows| && rows[i] == x;
      }
      ConsOrdered(rows[0], Due(rows[1..], now));
    }
  }

  lemma {:induction false} EarliestIsDue(rows: seq<Row>, now: int)
    ensures Earliest(Due(rows, now), now) == Earliest(rows, now)
  {
    if rows != [] {
      EarliestIsDue(rows[1..], now);
      if rows[0].nextAttemptAt <= now {
        assert Due(rows, now)[1..] == Due(rows[1..], now);
      }
    }
  }

  lemma {:induction false} DueRemove(rows: seq<Row>, id: nat, now: int)
    ensures Due(RemoveRow(rows, id), now) == RemoveRow(Due(rows, now), id)
  {
    if rows != [] {
      DueRemove(rows[1..], id, now);
      if rows[0].nextAttemptAt <= now {
        assert Due(rows, now)[1..] == Due(rows[1..], now);
      }
      if rows[0].id != id {
        assert RemoveRow(rows, id)[1..] == RemoveRow(rows[1..], id);
      }
    }
  }

  /** Sending a row to the future removes it from those due. */
  lemma {:induction false} DueUpdate(rows: seq<Row>, id: nat, attempts: nat, at: int, now: int)
    requires at > now
    ensures Due(UpdateRow(rows, id, attempts, at), now) == RemoveRow(Due(rows, now), id)
  {
    if rows != [] {
      DueUpdate(rows[1..], id, attempts, at, now);
      var r := UpdateRow(rows, id, attempts, at);
      assert r[1..] == UpdateRow(rows[1..], id, attempts, at);
      if rows[0].nextAttemptAt <= now {
        assert Due(rows, now)[1..] == Due(rows[1..], now);
      }
    }
  }

  /** Repeatedly taking the earliest due row. */
  function WorkOrder(rows: seq<Row>, now: int): seq<Row>
    requires Ordered(rows)
    decreases |rows|
  {
    var first := Earliest(rows, now);
    if first.None? then []
    else
      RemoveOrdered(rows, first.value.id);
      RemoveShorter(rows, first.value);
      [first.value] + WorkOrder(RemoveRow(rows, first.value.id), now)
  }

  /** By due time and then id. */
  ghost predicate SortedBefore(rows: seq<Row>) {
    forall i, j :: 0 <= i < j < |rows| ==>
                     rows[i].nextAttemptAt < rows[j].nextAttemptAt
                     || (rows[i].nextAttemptAt == rows[j].nextAttemptAt && rows[i].id < rows[j].id)
  }

  lemma ConsBefore(row: Row, rest: seq<Row>)
    requires SortedBefore(rest) && forall x :: x in rest ==> Before(row, x)
    ensures SortedBefore([row] + rest)
  {
    var rows := [row] + rest;
    forall i, j | 0 <= i < j < |rows|
      ensures rows[i].nextAttemptAt < rows[j].nextAttemptAt
              || (rows[i].nextAttemptAt == rows[j].nextAttemptAt && rows[i].id < rows[j].id)
    {
      assert rows[j] == rest[j - 1] && rest[j - 1] in rest;
    }
  }

  /** It is exactly the due rows, each once, by due time and then id. */
  lemma {:induction false} WorkOrderSorts(rows: seq<Row>, now: int)
    requires Ordered(rows)
    ensures forall x :: x in WorkOrder(rows, now) <==> x in rows && x.nextAttemptAt <= now
    ensures SortedBefore(WorkOrder(rows, now))
    decreases |rows|
  {
    var found := Earliest(rows, now);
    if found.Some? {
      var first := found.value;
      var rest := RemoveRow(rows, first.id);
      RemoveOrdered(rows, first.id);
      RemoveShorter(rows, first);
      WorkOrderSorts(rest, now);
      forall x | x in rows && x.id == first.id
        ensures x == first
      {
        OrderedUnique(rows, x, first);
      }
      forall x | x in WorkOrder(rest, now)
        ensures Before(first, x)
      {
        assert !Before(x, first);
      }
      ConsBefore(first, WorkOrder(rest, now));
      assert forall x :: x in WorkOrder(rows, now) <==> x == first || x in WorkOrder(rest, now);
    }
  }

  /** Rows that are not due play no part. */
  lemma {:induction false} WorkOrderOfDue(rows: seq<Row>, now: int)
    requires Ordered(rows)
    ensures Ordered(Due(rows, now)) && WorkOrder(rows, now) == WorkOrder(Due(rows, now), now)
    decreases |rows|
  {
    DueOrdered(rows, now);
    EarliestIsDue(rows, now);
    var first := Earliest(rows, now);
    if first.Some? {
      RemoveOrdered(rows, first.value.id);
      RemoveShorter(rows, first.value);
      DueRemove(rows, first.value.id, now);
      WorkOrderOfDue(RemoveRow(rows, first.value.id), now);
    }
  }

  /** Taking the earliest row off those due takes it off the front of the order. */
  lemma WorkOrderNext(before: seq<Row>, after: seq<Row>, now: int)
    requires Ordered(before) && Ordered(after) && Earliest(before, now).Some?
    requires Due(after, now) == RemoveRow(Due(before, now), Earliest(before, now).value.id)
    ensures WorkOrder(before, now) == [Earliest(before, now).value] + WorkOrder(after, now)
  {
    var id := Earliest(before, now).value.id;
    RemoveOrdered(before, id);
    DueRemove(before, id, now);
    WorkOrderOfDue(RemoveRow(before, id), now);
    WorkOrderOfDue(after, now);
  }
}
