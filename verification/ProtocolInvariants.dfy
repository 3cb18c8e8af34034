/** What every step of the outbox protocol keeps. */
module ProtocolInvariants {
  import opened Results
  import opened Recipients
  import opened Outbox
  import opened Backoff
  import opened Protocol

  // ---------------------------------------------------------------- tables and history agree

  ghost predicate RowOk(cfg: Config, accepted: map<nat, Message>, row: Row) {
    && row.id in accepted && RowMessage(row) == accepted[row.id]
    && row.attempts <= cfg.maxRetries
    && row.nextAttemptAt >= 0
  }

  ghost predicate DeadOk(cfg: Config, accepted: map<nat, Message>, dead: DeadRow, origin: nat) {
    && origin in accepted && DeadMessage(dead) == accepted[origin]
    && dead.attempts == cfg.maxRetries
  }

  /** Ids are handed out once, in order; both tables hold committed messages unchanged; the
      retry count stays within the limit; the cap holds. */
  ghost predicate TablesInv(cfg: Config, db: Db, accepted: map<nat, Message>, origins: seq<nat>) {
    && db.nextId >= 1
    && Ordered(db.outbox)
    && (forall row :: row in db.outbox ==> RowOk(cfg, accepted, row))
    && (forall id :: id in accepted <==> 1 <= id < db.nextId)
    && |db.dead| == |origins|
    && (forall i :: 0 <= i < |origins| ==> DeadOk(cfg, accepted, db.dead[i], origins[i]))
    && (cfg.maxLen > 0 ==> |db.outbox| <= cfg.maxLen)
  }

  ghost predicate Tables(cfg: Config, s: State) {
    TablesInv(cfg, s.db, s.h.accepted, s.h.origins)
  }

  ghost predicate EnqueueOk(h: History, e: Enqueue) {
    match e
    case Calling(m, _) => WellAddressed(m.to)
    case Committed(m, id) => id in h.accepted && h.accepted[id] == m
    case Returned(m, id) => id in h.returned && id in h.accepted && h.accepted[id] == m
  }

  /** An id is returned only after its commit, and answered 250 only after its return. */
  ghost predicate SessionInv(s: State) {
    && (forall tok :: tok in s.enqueues ==> EnqueueOk(s.h, s.enqueues[tok]))
    && s.h.returned <= s.h.accepted.Keys
    && (forall id :: id in s.h.acked ==>
          id in s.h.returned && id in s.h.accepted && s.h.acked[id] == s.h.accepted[id])
  }

  /** The claimed message is the outbox row itself: nobody else changes it meanwhile. */
  ghost predicate HeldInv(s: State) {
    Holds(s.worker) ==> exists row :: row in s.db.outbox && Stored(row) == s.worker.stored
  }

  lemma CommitTables(cfg: Config, s: State, m: Message)
    requires Tables(cfg, s) && WellAddressed(m.to) && !IsFull(s.db, cfg.maxLen)
    ensures Tables(cfg, CommitRow(s, m))
  {
    WellAddressedRoundTrip(m.to);
    var rows := s.db.outbox;
    forall i | 0 <= i < |rows|
      ensures rows[i].id < s.db.nextId
    {
      assert RowOk(cfg, s.h.accepted, rows[i]);
    }
  }

  /** The row the worker holds, as the tables have it. */
  ghost function HeldRow(s: State): (row: Row)
    requires HeldInv(s) && Holds(s.worker)
    ensures row in s.db.outbox && Stored(row) == s.worker.stored
  {
    var row :| row in s.db.outbox && Stored(row) == s.worker.stored;
    row
  }

  lemma DeleteTables(cfg: Config, s: State, id: nat)
    requires Tables(cfg, s)
    ensures TablesInv(cfg, Delete(s.db, id), s.h.accepted, s.h.origins)
  {
    RemoveOrdered(s.db.outbox, id);
  }

  lemma RescheduleTables(cfg: Config, s: State, id: nat, attempts: nat, at: int)
    requires Tables(cfg, s) && attempts <= cfg.maxRetries && at >= 0
    ensures TablesInv(cfg, Outbox.Reschedule(s.db, id, attempts, at), s.h.accepted, s.h.origins)
  {
    UpdateMembers(s.db.outbox, id, attempts, at);
    var rows := UpdateRow(s.db.outbox, id, attempts, at);
    forall row | row in rows
      ensures RowOk(cfg, s.h.accepted, row)
    {
      if row !in s.db.outbox {
        var was :| was in s.db.outbox && was.id == id && row == Retried(was, attempts, at);
        assert RowOk(cfg, s.h.accepted, was);
      }
    }
  }

  lemma DeadLetterTables(cfg: Config, s: State, row: Row, error: string, now: int)
    requires Tables(cfg, s) && row in s.db.outbox && row.attempts == cfg.maxRetries
    ensures TablesInv(cfg, DeadLetter(s.db, row.id, error, now), s.h.accepted, s.h.origins + [row.id])
  {
    OrderedUnique(s.db.outbox, row, Lookup(s.db.outbox, row.id).value);
    RemoveOrdered(s.db.outbox, row.id);
    assert RowOk(cfg, s.h.accepted, row);
  }

  /** A row with `k` recorded failures waits `base * 2^k` seconds from its claim, and never more
      than a quarter of an hour. */
  lemma RetryDelay(cfg: Config, k: nat, now: nat)
    requires ValidConfig(cfg)
    ensures RetryAt(cfg, k + 1, now) == now + Min(cfg.retryBackoff * Pow2(k), 900)
    ensures now < now + Min(cfg.retryBackoff * Pow2(k), 900) <= now + 900
  {
    BackoffIsIdeal(cfg.retryBackoff, k + 1, MAX_BACKOFF_SECONDS);
    BackoffRange(cfg.retryBackoff, k + 1);
  }

  /** The ways a recorded outcome changes the tables and the history, with the row that was held and
      the time a retry is put off to. */
  ghost predicate Recorded(cfg: Config, s: State, t: State, row: Row, at: int, outcome: Outcome)
    requires s.worker.Marking? || s.worker.Failing?
  {
    if outcome.ErrorUnapplied? then
      t.db == s.db && t.h.origins == s.h.origins && t.h.log == s.h.log
    else if s.worker.Marking? then
      t.db == Delete(s.db, row.id) && t.h.origins == s.h.origins && t.h.log == s.h.log
    else if row.attempts == cfg.maxRetries then
      && t.db == DeadLetter(s.db, row.id, s.worker.error, s.clock)
      && t.h.origins == s.h.origins + [row.id] && t.h.log == s.h.log
    else
      && at > s.worker.now && t.h.origins == s.h.origins
      && t.db == Outbox.Reschedule(s.db, row.id, row.attempts + 1, at)
      && t.h.log == s.h.log.(retries := s.h.log.retries + [Retry(row.id, row.attempts + 1, s.worker.now, at)])
  }

  /** A failed call that is recorded puts a row with `k` recorded failures off by `base * 2^k`
      seconds from its claim, at most a quarter of an hour, or buries it once `k` is the limit. */
  lemma RecordCases(cfg: Config, s: State, outcome: Outcome) returns (row: Row, at: nat)
    requires ValidConfig(cfg) && Tables(cfg, s) && HeldInv(s)
    requires s.worker.Marking? || s.worker.Failing?
    ensures row in s.db.outbox && Stored(row) == s.worker.stored && row.attempts <= cfg.maxRetries
    ensures s.worker.Failing? ==> at == s.worker.now + Min(cfg.retryBackoff * Pow2(row.attempts), 900)
    ensures s.worker.Failing? ==> s.worker.now < at <= s.worker.now + 900
    ensures Recorded(cfg, s, RecordOutcome(cfg, s, outcome), row, at, outcome)
  {
    row, at := HeldRow(s), 0;
    assert RowOk(cfg, s.h.accepted, row);
    if s.worker.Failing? {
      RetryDelay(cfg, row.attempts, s.worker.now);
      at := RetryAt(cfg, row.attempts + 1, s.worker.now);
    }
  }

  lemma RecordTables(cfg: Config, s: State, outcome: Outcome)
    requires ValidConfig(cfg) && Tables(cfg, s) && HeldInv(s)
    requires s.worker.Marking? || s.worker.Failing?
    ensures Tables(cfg, RecordOutcome(cfg, s, outcome))
  {
    var row, at := RecordCases(cfg, s, outcome);
    RecordFrame(cfg, s, outcome);
    RecordedTables(cfg, s, RecordOutcome(cfg, s, outcome), row, at, outcome);
  }

  lemma RecordedTables(cfg: Config, s: State, t: State, row: Row, at: nat, outcome: Outcome)
    requires Tables(cfg, s) && (s.worker.Marking? || s.worker.Failing?)
    requires row in s.db.outbox && row.attempts <= cfg.maxRetries
    requires Recorded(cfg, s, t, row, at, outcome) && t.h.accepted == s.h.accepted
    ensures Tables(cfg, t)
  {
    if outcome.ErrorUnapplied? {
    } else if s.worker.Marking? {
      DeleteTables(cfg, s, row.id);
    } else if row.attempts == cfg.maxRetries {
      DeadLetterTables(cfg, s, row, s.worker.error, s.clock);
    } else {
      RescheduleTables(cfg, s, row.id, row.attempts + 1, at);
    }
  }

  // ---------------------------------------------------------------- the three kinds of step

  /** A session's step may add one row and leaves the worker's side of the state alone. */
  ghost predicate SmtpDelta(cfg: Config, s: State, t: State, m: Message) {
    && t.worker == s.worker && t.clock == s.clock
    && (s.permit ==> t.permit)
    && (t.permit || t.h.returned == s.h.returned)
    && t.h.(accepted := s.h.accepted, log := s.h.log, returned := s.h.returned, acked := s.h.acked) == s.h
    && ((t.db == s.db && t.h.accepted == s.h.accepted && t.h.log == s.h.log)
        || (WellAddressed(m.to) && !IsFull(s.db, cfg.maxLen) && t.db == CommitRow(s, m).db
            && t.h.accepted == CommitRow(s, m).h.accepted && t.h.log == CommitRow(s, m).h.log))
  }

  ghost function Pending(s: State, tok: nat): Message {
    if tok in s.enqueues then s.enqueues[tok].message else Message(None, [], None, "")
  }

  lemma SmtpFrame(cfg: Config, s: State, tok: nat, op: SmtpOp)
    requires SessionInv(s) && SmtpEnabled(cfg, s, tok, op)
    ensures SmtpDelta(cfg, s, ApplySmtp(cfg, s, tok, op), Pending(s, tok))
  {
    assert tok in s.enqueues ==> EnqueueOk(s.h, s.enqueues[tok]);
  }

  /** A worker's step other than recording an outcome leaves the tables and sessions alone. */
  lemma WorkFrame(cfg: Config, s: State, op: WorkOp)
    requires WorkEnabled(s, op) && !op.Record?
    ensures
      var t := ApplyWork(cfg, s, op);
      t == s.(worker := t.worker, permit := t.permit,
              h := s.h.(calls := t.h.calls, delivered := t.h.delivered, failed := t.h.failed,
                        shown := t.h.shown, log := t.h.log))
  {
  }

  lemma TablesStep(cfg: Config, s: State, a: Action)
    requires ValidConfig(cfg) && Tables(cfg, s) && SessionInv(s) && HeldInv(s) && Enabled(cfg, s, a)
    ensures Tables(cfg, Apply(cfg, s, a))
  {
    match a
    case Smtp(tok, op) =>
      SmtpFrame(cfg, s, tok, op);
      if Apply(cfg, s, a).db != s.db { CommitTables(cfg, s, Pending(s, tok)); }
    case Work(op) =>
      if op.Record? { RecordTables(cfg, s, op.outcome); } else { WorkFrame(cfg, s, op); }
    case _ =>
  }

  lemma SessionSmtp(cfg: Config, s: State, tok: nat, op: SmtpOp)
    requires SessionInv(s) && SmtpEnabled(cfg, s, tok, op) && s.db.nextId !in s.h.accepted
    ensures SessionInv(ApplySmtp(cfg, s, tok, op))
  {
    var t := ApplySmtp(cfg, s, tok, op);
    assert forall id :: id in s.h.accepted ==> id in t.h.accepted && t.h.accepted[id] == s.h.accepted[id];
    assert s.h.returned <= t.h.returned;
    assert tok in s.enqueues ==> EnqueueOk(s.h, s.enqueues[tok]);
    forall other | other in t.enqueues
      ensures EnqueueOk(t.h, t.enqueues[other])
    {
      assert other in s.enqueues ==> EnqueueOk(s.h, s.enqueues[other]);
    }
  }

  lemma RecordFrame(cfg: Config, s: State, outcome: Outcome)
    requires s.worker.Marking? || s.worker.Failing?
    ensures
      var t := RecordOutcome(cfg, s, outcome);
      t == s.(worker := Top, db := t.db,
              h := s.h.(origins := t.h.origins, wasted := t.h.wasted, log := t.h.log))
  {
  }

  lemma SessionSame(s: State, t: State)
    requires SessionInv(s) && (t.enqueues == s.enqueues || t.enqueues == map[])
    requires t.h.accepted == s.h.accepted && t.h.returned == s.h.returned && t.h.acked == s.h.acked
    ensures SessionInv(t)
  {
    forall tok | tok in t.enqueues
      ensures EnqueueOk(t.h, t.enqueues[tok])
    {
      assert EnqueueOk(s.h, s.enqueues[tok]);
    }
  }

  lemma SessionStep(cfg: Config, s: State, a: Action)
    requires SessionInv(s) && Enabled(cfg, s, a) && s.db.nextId !in s.h.accepted
    ensures SessionInv(Apply(cfg, s, a))
  {
    match a
    case Smtp(tok, op) => SessionSmtp(cfg, s, tok, op);
    case Work(op) =>
      if op.Record? { RecordFrame(cfg, s, op.outcome); } else { WorkFrame(cfg, s, op); }
      SessionSame(s, Apply(cfg, s, a));
    case Env(op) => SessionSame(s, Apply(cfg, s, a));
  }

  /** A row once held stays held while its table row stays. */
  lemma HeldStays(s: State, t: State)
    requires HeldInv(s) && (Holds(t.worker) ==> Holds(s.worker) && t.worker.stored == s.worker.stored)
    requires forall row :: row in s.db.outbox ==> row in t.db.outbox
    ensures HeldInv(t)
  {
    if Holds(t.worker) {
      assert HeldRow(s) in t.db.outbox;
    }
  }

  lemma HeldWork(cfg: Config, s: State, op: WorkOp)
    requires HeldInv(s) && WorkEnabled(s, op)
    ensures HeldInv(ApplyWork(cfg, s, op))
  {
    if op.Record? {
      RecordFrame(cfg, s, op.outcome);
    } else {
      WorkFrame(cfg, s, op);
      if !op.Claim? {
        HeldStays(s, ApplyWork(cfg, s, op));
      }
    }
  }

  lemma HeldStep(cfg: Config, s: State, a: Action)
    requires HeldInv(s) && SessionInv(s) && Enabled(cfg, s, a)
    ensures HeldInv(Apply(cfg, s, a))
  {
    match a
    case Smtp(tok, op) =>
      SmtpFrame(cfg, s, tok, op);
      HeldStays(s, Apply(cfg, s, a));
    case Work(op) => HeldWork(cfg, s, op);
    case Env(op) => HeldStays(s, Apply(cfg, s, a));
  }
}
