/** The persistent state: the outbox and dead_letter tables and the statements that change them. */
module Outbox {
  import opened Results
  import opened Recipients

  datatype Message = Message(from: Option<string>, to: seq<string>, subject: Option<string>, body: string)

  /** A message as the worker claims it. */
  datatype StoredMessage = StoredMessage(id: nat, message: Message, attempts: nat)

  datatype Row = Row(id: nat, fromAddr: Option<string>, toAddrs: string, subject: Option<string>, body: string,
                     attempts: nat, nextAttemptAt: int, createdAt: int)

  datatype DeadRow = DeadRow(id: nat, fromAddr: Option<string>, toAddrs: string, subject: Option<string>,
                             body: string, attempts: nat, createdAt: int, failedAt: int, lastError: string)

  /** Both tables, in rowid order, with the AUTOINCREMENT counters. */
  datatype Db = Db(outbox: seq<Row>, nextId: nat, dead: seq<DeadRow>, nextDeadId: nat)

  const EMPTY_DB := Db([], 1, [], 1)

  function RowMessage(row: Row): Message {
    Message(row.fromAddr, Decode(row.toAddrs), row.subject, row.body)
  }

  function DeadMessage(row: DeadRow): Message {
    Message(row.fromAddr, Decode(row.toAddrs), row.subject, row.body)
  }

  function Stored(row: Row): StoredMessage {
    StoredMessage(row.id, RowMessage(row), row.attempts)
  }

  // ---------------------------------------------------------------- statements

  function FreshRow(id: nat, m: Message, now: int): Row {
    Row(id, m.from, Encode(m.to), m.subject, m.body, 0, 0, now)
  }

  /** INSERT INTO outbox. */
  function Insert(db: Db, m: Message, now: int): Db {
    db.(outbox := db.outbox + [FreshRow(db.nextId, m, now)], nextId := db.nextId + 1)
  }

  /** The cap check made before the insert; a cap of 0 means unlimited. */
  predicate IsFull(db: Db, maxLen: nat) {
    maxLen > 0 && |db.outbox| >= maxLen
  }

  /** ORDER BY next_attempt_at, id. */
  predicate Before(a: Row, b: Row) {
    a.nextAttemptAt < b.nextAttemptAt || (a.nextAttemptAt == b.nextAttemptAt && a.id < b.id)
  }

  /** SELECT ... WHERE next_attempt_at <= now ORDER BY next_attempt_at, id LIMIT 1. */
  function Earliest(rows: seq<Row>, now: int): (r: Option<Row>)
    ensures r.None? <==> forall x :: x in rows ==> x.nextAttemptAt > now
    ensures r.Some? ==> r.value in rows && r.value.nextAttemptAt <= now
    ensures r.Some? ==> forall x :: x in rows && x.nextAttemptAt <= now ==> !Before(x, r.value)
  {
    if rows == [] then None
    else
      var rest := Earliest(rows[1..], now);
      assert forall x :: x in rows <==> x == rows[0] || x in rows[1..];
      if rows[0].nextAttemptAt > now then rest
      else if rest.Some? && Before(rest.value, rows[0]) then rest
      else Some(rows[0])
  }

  /** SELECT MIN(next_attempt_at) ... WHERE next_attempt_at > now. */
  function NextWakeup(rows: seq<Row>, now: int): (r: Option<int>)
    ensures r.None? <==> forall x :: x in rows ==> x.nextAttemptAt <= now
    ensures r.Some? ==> r.value > now && exists x :: x in rows && x.nextAttemptAt == r.value
    ensures r.Some? ==> forall x :: x in rows && x.nextAttemptAt > now ==> r.value <= x.nextAttemptAt
  {
    if rows == [] then None
    else
      var rest := NextWakeup(rows[1..], now);
      assert forall x :: x in rows <==> x == rows[0] || x in rows[1..];
      if rows[0].nextAttemptAt <= now then rest
      else if rest.Some? && rest.value < rows[0].nextAttemptAt then rest
      else Some(rows[0].nextAttemptAt)
  }

  function RemoveRow(rows: seq<Row>, id: nat): (r: seq<Row>)
    ensures forall x :: x in r <==> x in rows && x.id != id
    ensures |r| <= |rows|
  {
    if rows == [] then []
    else
      assert forall x :: x in rows <==> x == rows[0] || x in rows[1..];
      if rows[0].id == id then RemoveRow(rows[1..], id)
      else [rows[0]] + RemoveRow(rows[1..], id)
  }

  function Retried(row: Row, attempts: nat, at: int): Row {
    row.(attempts := attempts, nextAttemptAt := at)
  }

  function UpdateRow(rows: seq<Row>, id: nat, attempts: nat, at: int): (r: seq<Row>)
    ensures |r| == |rows|
    ensures forall i :: 0 <= i < |rows| ==>
                          r[i] == if rows[i].id == id then Retried(rows[i], attempts, at) else rows[i]
  {
    seq(|rows|, i requires 0 <= i < |rows| =>
      if rows[i].id == id then Retried(rows[i], attempts, at) else rows[i])
  }

  function Lookup(rows: seq<Row>, id: nat): (r: Option<Row>)
    ensures r.None? <==> forall x :: x in rows ==> x.id != id
    ensures r.Some? ==> r.value in rows && r.value.id == id
  {
    if rows == [] then None
    else
      assert forall x :: x in rows <==> x == rows[0] || x in rows[1..];
      if rows[0].id == id then Some(rows[0]) else Lookup(rows[1..], id)
  }

  /** DELETE FROM outbox WHERE id = ?. */
  function Delete(db: Db, id: nat): Db {
    db.(outbox := RemoveRow(db.outbox, id))
  }

  /** UPDATE outbox SET attempts, next_attempt_at WHERE id = ?. */
  function Reschedule(db: Db, id: nat, attempts: nat, at: int): Db {
    db.(outbox := UpdateRow(db.outbox, id, attempts, at))
  }

  /** The dead-letter transaction: copy the row, then delete it. */
  function DeadLetter(db: Db, id: nat, error: string, now: int): Db {
    match Lookup(db.outbox, id)
    case None => Delete(db, id)
    case Some(row) =>
      var dead := DeadRow(db.nextDeadId, row.fromAddr, row.toAddrs, row.subject, row.body,
                          row.attempts, row.createdAt, now, error);
      Delete(db, id).(dead := db.dead + [dead], nextDeadId := db.nextDeadId + 1)
  }

  // ---------------------------------------------------------------- table facts

  /** Rowid order: ids strictly increase along the table. */
  predicate Ordered(rows: seq<Row>) {
    forall i, j :: 0 <= i < j < |rows| ==> rows[i].id < rows[j].id
  }

  lemma OrderedUnique(rows: seq<Row>, a: Row, b: Row)
    requires Ordered(rows) && a in rows && b in rows && a.id == b.id
    ensures a == b
  {
  }

  lemma {:induction false} RemoveShorter(rows: seq<Row>, row: Row)
    requires row in rows
    ensures |RemoveRow(rows, row.id)| < |rows|
  {
    if rows[0].id != row.id {
      RemoveShorter(rows[1..], row);
    }
  }

  lemma ConsOrdered(row: Row, rest: seq<Row>)
    requires Ordered(rest) && forall x :: x in rest ==> row.id < x.id
    ensures Ordered([row] + rest)
  {
    var rows := [row] + rest;
    forall i, j | 0 <= i < j < |rows|
      ensures rows[i].id < rows[j].id
    {
      assert rows[j] == rest[j - 1] && rest[j - 1] in rest;
    }
  }

  lemma {:induction false} RemoveOrdered(rows: seq<Row>, id: nat)
    requires Ordered(rows)
    ensures Ordered(RemoveRow(rows, id))
  {
    if rows != [] {
      RemoveOrdered(rows[1..], id);
      forall x | x in RemoveRow(rows[1..], id)
        ensures rows[0].id < x.id
      {
        var i :| 1 <= i < |rows| && rows[i] == x;
      }
      ConsOrdered(rows[0], RemoveRow(rows[1..], id));
    }
  }

  lemma UpdateMembers(rows: seq<Row>, id: nat, attempts: nat, at: int)
    ensures forall x :: x in UpdateRow(rows, id, attempts, at) <==>
                        (x in rows && x.id != id)
                        || (exists y :: y in rows && y.id == id && x == Retried(y, attempts, at))
  {
    var r := UpdateRow(rows, id, attempts, at);
    forall y | y in rows
      ensures (if y.id == id then Retried(y, attempts, at) else y) in r
    {
      var i :| 0 <= i < |rows| && rows[i] == y;
      assert r[i] in r;
    }
  }

  /** A delete takes out one row and leaves the others as and where they were. */
  lemma {:induction false} RemoveRowAt(a: seq<Row>, row: Row, b: seq<Row>)
    requires forall x :: x in a + b ==> x.id != row.id
    ensures RemoveRow(a + ([row] + b), row.id) == a + b
  {
    assert forall x :: x in a || x in b ==> x in a + b;
    if a == [] {
      assert a + ([row] + b) == [row] + b && a + b == b;
      RemoveAbsent(b, row.id);
    } else {
      var rows := a + ([row] + b);
      assert a[0] in a && rows[0] == a[0] && rows[1..] == a[1..] + ([row] + b);
      RemoveRowAt(a[1..], row, b);
      assert [a[0]] + (a[1..] + b) == a + b;
    }
  }

  /** Recording a failed attempt changes one row in place: its id and its message stay, and it is
      next due at the given time. */
  lemma UpdateRowAt(a: seq<Row>, row: Row, b: seq<Row>, attempts: nat, at: int) returns (after: Row)
    requires forall x :: x in a + b ==> x.id != row.id
    ensures UpdateRow(a + ([row] + b), row.id, attempts, at) == a + ([after] + b)
    ensures after.id == row.id && RowMessage(after) == RowMessage(row) && after.createdAt == row.createdAt
    ensures after.attempts == attempts && after.nextAttemptAt == at
  {
    assert forall x :: x in a || x in b ==> x in a + b;
    after := Retried(row, attempts, at);
  }

  /** What the deliveries still owed can cost at most: the sum of remaining attempts. */
  function Potential(rows: seq<Row>, maxRetries: nat): nat
    requires forall x :: x in rows ==> x.attempts <= maxRetries
  {
    if rows == [] then 0
    else maxRetries + 1 - rows[0].attempts + Potential(rows[1..], maxRetries)
  }

  lemma {:induction false} PotentialAppend(rows: seq<Row>, row: Row, maxRetries: nat)
    requires forall x :: x in rows + [row] ==> x.attempts <= maxRetries
    ensures forall x :: x in rows ==> x in rows + [row]
    ensures Potential(rows + [row], maxRetries) == Potential(rows, maxRetries) + maxRetries + 1 - row.attempts
  {
    if rows == [] {
      assert rows + [row] == [row];
    } else {
      assert (rows + [row])[1..] == rows[1..] + [row];
      PotentialAppend(rows[1..], row, maxRetries);
    }
  }

  /** Removing a row releases its remaining attempts. */
  lemma {:induction false} PotentialRemove(rows: seq<Row>, row: Row, maxRetries: nat)
    requires Ordered(rows) && row in rows
    requires forall x :: x in rows ==> x.attempts <= maxRetries
    ensures Potential(RemoveRow(rows, row.id), maxRetries) + maxRetries + 1 - row.attempts
         == Potential(rows, maxRetries)
  {
    if rows[0] == row {
      RemoveAbsent(rows[1..], row.id);
    } else {
      PotentialRemove(rows[1..], row, maxRetries);
      assert rows[0].id != row.id;
      var rest := RemoveRow(rows[1..], row.id);
      assert RemoveRow(rows, row.id) == [rows[0]] + rest && ([rows[0]] + rest)[1..] == rest;
    }
  }

  lemma {:induction false} RemoveAbsent(rows: seq<Row>, id: nat)
    requires forall x :: x in rows ==> x.id != id
    ensures RemoveRow(rows, id) == rows
  {
    if rows != [] {
      RemoveAbsent(rows[1..], id);
      assert rows[0] in rows;
    }
  }

  /** Recording one more failed attempt lowers it by exactly one. */
  lemma {:induction false} PotentialUpdate(rows: seq<Row>, row: Row, at: int, maxRetries: nat)
    requires Ordered(rows) && row in rows && row.attempts < maxRetries
    requires forall x :: x in rows ==> x.attempts <= maxRetries
    ensures forall x :: x in UpdateRow(rows, row.id, row.attempts + 1, at) ==> x.attempts <= maxRetries
    ensures Potential(UpdateRow(rows, row.id, row.attempts + 1, at), maxRetries) + 1 == Potential(rows, maxRetries)
  {
    var r := UpdateRow(rows, row.id, row.attempts + 1, at);
    assert r[1..] == UpdateRow(rows[1..], row.id, row.attempts + 1, at);
    if rows[0] == row {
      assert forall x :: x in rows[1..] ==> x.id != row.id;
      assert r[1..] == rows[1..];
    } else {
      assert rows[0].id != row.id;
      PotentialUpdate(rows[1..], row, at, maxRetries);
    }
    assert forall x :: x in r <==> x == r[0] || x in r[1..];
  }
}
