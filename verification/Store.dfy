/** The message store: the tables behind one connection, and the new-message notifier. */
module Store {
  import opened Results
  import opened Recipients
  import opened Outbox
  import opened Protocol

  datatype StoreError = QueueFull | StorageFailed

  /** Each statement is told how storage behaves; a reported error may or may not have taken effect. */
  class MessageStore {
    var outbox: seq<Row>
    var nextId: nat
    var dead: seq<DeadRow>
    var nextDeadId: nat
    /** The one permit `Notify` keeps while nobody waits. */
    var permit: bool
    const maxLen: nat

    function Tables(): Db
      reads this
    {
      Db(outbox, nextId, dead, nextDeadId)
    }

    constructor Open(maxLen: nat)
      ensures this.maxLen == maxLen && Tables() == EMPTY_DB && !permit
    {
      this.maxLen := maxLen;
      outbox, nextId, dead, nextDeadId, permit := [], 1, [], 1, false;
    }

    /** The outbox holds as many rows as the cap allows; a cap of 0 is none. */
    predicate AtCap()
      reads this
    {
      maxLen > 0 && |outbox| >= maxLen
    }

    /** The storage half of `enqueue`: cap check and insert under one lock. */
    method CommitEnqueue(m: Message, now: nat, outcome: Outcome) returns (r: Result<nat, StoreError>)
      modifies this
      ensures permit == old(permit)
      ensures r == Err(QueueFull) <==> outcome == Done && maxLen > 0 && old(|outbox|) >= maxLen
      ensures outcome == Done && (maxLen == 0 || old(|outbox|) < maxLen) ==> r == Ok(old(nextId))
      ensures outcome != Done ==> r.Err?
      ensures r.Ok? ==>
                |outbox| == old(|outbox|) + 1 && outbox[..old(|outbox|)] == old(outbox)
                && var row := outbox[old(|outbox|)];
                   && row.id == old(nextId) && row.fromAddr == m.from && row.toAddrs == Encode(m.to)
                   && row.subject == m.subject && row.body == m.body
                   && row.attempts == 0 && row.nextAttemptAt == 0 && row.createdAt == now
      ensures Tables() == if old(AtCap()) || outcome == ErrorUnapplied then old(Tables())
                          else Insert(old(Tables()), m, now)
    {
      if maxLen > 0 && |outbox| >= maxLen {
        return Err(if outcome == Done then QueueFull else StorageFailed);
      }
      if outcome != ErrorUnapplied {
        r := Ok(nextId);
        outbox := outbox + [FreshRow(nextId, m, now)];
        nextId := nextId + 1;
      }
      if outcome != Done {
        r := Err(StorageFailed);
      }
    }

    method NotifyOne()
      modifies this`permit
      ensures permit
    {
      permit := true;
    }

    /** Commit, then notify; the row is there before the caller may acknowledge. */
    method Enqueue(m: Message, now: nat, outcome: Outcome) returns (r: Result<nat, StoreError>)
      modifies this
      ensures r.Ok? <==> outcome == Done && (maxLen == 0 || old(|outbox|) < maxLen)
      ensures r.Ok? ==> r.value == old(nextId) && Tables() == Insert(old(Tables()), m, now) && permit
      ensures r.Err? ==> permit == old(permit)
      ensures r == Err(QueueFull) <==> outcome == Done && maxLen > 0 && old(|outbox|) >= maxLen
      ensures Tables() == if old(AtCap()) || outcome == ErrorUnapplied then old(Tables())
                          else Insert(old(Tables()), m, now)
    {
      r := CommitEnqueue(m, now, outcome);
      if r.Ok? {
        NotifyOne();
      }
    }

    /** The earliest due message, by due time and then id, left in place. */
    method ClaimNextReady(now: nat, outcome: Outcome) returns (r: Result<Option<StoredMessage>, StoreError>)
      ensures r.Ok? <==> outcome == Done
      ensures r == Ok(None) ==> forall row :: row in outbox ==> row.nextAttemptAt > now
      ensures r.Ok? && r.value.Some? ==>
                exists row :: row in outbox && row.nextAttemptAt <= now && Stored(row) == r.value.value
                  && forall other :: other in outbox && other.nextAttemptAt <= now ==>
                       row.nextAttemptAt < other.nextAttemptAt
                       || (row.nextAttemptAt == other.nextAttemptAt && row.id <= other.id)
      ensures r.Ok? ==> r.value == match Earliest(outbox, now) case Some(row) => Some(Stored(row)) case None => None
    {
      if outcome != Done {
        return Err(StorageFailed);
      }
      var found := Earliest(outbox, now);
      r := Ok(match found case Some(row) => Some(Stored(row)) case None => None);
    }

    /** Delete a delivered message. */
    method MarkDelivered(id: nat, outcome: Outcome) returns (ok: bool)
      modifies this
      ensures ok == (outcome == Done) && permit == old(permit)
      ensures Tables() == if outcome == ErrorUnapplied then old(Tables()) else Delete(old(Tables()), id)
    {
      if outcome != ErrorUnapplied {
        outbox := RemoveRow(outbox, id);
      }
      ok := outcome == Done;
    }

    /** The last row of dead_letter is what became of this outbox row. */
    ghost predicate Buries(row: Row, lastError: string, now: int)
      reads this
    {
      |dead| > 0
      && var d := dead[|dead| - 1];
         && d.fromAddr == row.fromAddr && d.toAddrs == row.toAddrs && d.subject == row.subject && d.body == row.body
         && d.attempts == row.attempts && d.createdAt == row.createdAt
         && d.failedAt == now && d.lastError == lastError
    }

    /** Copy to dead_letter and delete, as one transaction: the new dead row carries all of the outbox
        row, creation time included, the statement's own time and the error given. */
    method MoveToDeadLetter(id: nat, lastError: string, now: nat, outcome: Outcome) returns (ok: bool)
      modifies this
      ensures ok == (outcome == Done) && permit == old(permit)
      ensures outcome == ErrorUnapplied ==> Tables() == old(Tables())
      ensures outcome != ErrorUnapplied ==> forall row :: row in outbox <==> row in old(outbox) && row.id != id
      ensures outcome != ErrorUnapplied && (exists row :: row in old(outbox) && row.id == id) ==>
                && |dead| == old(|dead|) + 1 && dead[..old(|dead|)] == old(dead)
                && dead[old(|dead|)].id == old(nextDeadId) && nextDeadId == old(nextDeadId) + 1
                && exists row :: row in old(outbox) && row.id == id && Buries(row, lastError, now)
      ensures (forall row :: row in old(outbox) ==> row.id != id) ==> dead == old(dead)
      ensures outcome != ErrorUnapplied ==> Tables() == DeadLetter(old(Tables()), id, lastError, now)
    {
      if outcome != ErrorUnapplied {
        var found := Lookup(outbox, id);
        if found.Some? {
          var row := found.value;
          dead := dead + [DeadRow(nextDeadId, row.fromAddr, row.toAddrs, row.subject, row.body,
                                  row.attempts, row.createdAt, now, lastError)];
          nextDeadId := nextDeadId + 1;
        }
        outbox := RemoveRow(outbox, id);
      }
      ok := outcome == Done;
    }

    method RescheduleRow(id: nat, attempts: nat, at: nat, outcome: Outcome) returns (ok: bool)
      modifies this
      ensures ok == (outcome == Done) && permit == old(permit)
      ensures Tables() == if outcome == ErrorUnapplied then old(Tables())
                          else Outbox.Reschedule(old(Tables()), id, attempts, at)
    {
      if outcome != ErrorUnapplied {
        outbox := UpdateRow(outbox, id, attempts, at);
      }
      ok := outcome == Done;
    }

    /** The earliest due time strictly ahead of `now`, if any row has one. */
    method NextWakeupAt(now: nat, outcome: Outcome) returns (r: Result<Option<int>, StoreError>)
      ensures r.Ok? <==> outcome == Done
      ensures r == Ok(None) ==> forall row :: row in outbox ==> row.nextAttemptAt <= now
      ensures r.Ok? && r.value.Some? ==>
                r.value.value > now && (exists row :: row in outbox && row.nextAttemptAt == r.value.value)
                && forall row :: row in outbox && row.nextAttemptAt > now ==> r.value.value <= row.nextAttemptAt
      ensures r.Ok? ==> r.value == NextWakeup(outbox, now)
    {
      if outcome != Done {
        return Err(StorageFailed);
      }
      r := Ok(NextWakeup(outbox, now));
    }

    /** Take the stored permit, as a completed `notified()` does. */
    method TakePermit()
      requires permit
      modifies this`permit
      ensures !permit
    {
      permit := false;
    }
  }
}
