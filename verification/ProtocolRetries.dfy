/** What every step keeps about times, errors, retries and the connection to the sink. */
module ProtocolRetries {
  import opened Results
  import opened Outbox
  import opened Backoff
  import opened Protocol
  import opened ProtocolInvariants
  import opened ProtocolHistory

  // ---------------------------------------------------------------- times and errors

  ghost predicate RowStamped(log: Log, clock: nat, row: Row) {
    row.id in log.created && row.createdAt == log.created[row.id] <= clock
  }

  ghost predicate DeadStamped(log: Log, clock: nat, dead: DeadRow, origin: nat) {
    && origin in log.created && dead.createdAt == log.created[origin]
    && dead.createdAt <= dead.failedAt <= clock
    && origin in log.errors && dead.lastError == log.errors[origin]
  }

  /** Both tables carry the time of the commit; a dead letter also a later time and the last error. */
  ghost predicate StampInv(s: State) {
    && s.h.log.created.Keys == s.h.accepted.Keys
    && (forall row :: row in s.db.outbox ==> RowStamped(s.h.log, s.clock, row))
    && |s.db.dead| == |s.h.origins|
    && (forall i :: 0 <= i < |s.h.origins| ==> DeadStamped(s.h.log, s.clock, s.db.dead[i], s.h.origins[i]))
    && (s.worker.Failing? ==>
          s.worker.stored.id in s.h.log.errors && s.h.log.errors[s.worker.stored.id] == s.worker.error)
  }

  /** A step that moves no row, and may let time pass or note the error of a row still queued. */
  lemma StampSame(s: State, t: State)
    requires StampInv(s) && t.db == s.db && t.clock >= s.clock
    requires t.h.accepted == s.h.accepted && t.h.origins == s.h.origins && t.h.log.created == s.h.log.created
    requires
      || (t.h.log.errors == s.h.log.errors && (t.worker.Failing? ==> t.worker == s.worker))
      || (t.worker.Failing? && t.worker.stored.id !in s.h.origins
          && t.h.log.errors == s.h.log.errors[t.worker.stored.id := t.worker.error])
    ensures StampInv(t)
  {
    assert forall row :: row in t.db.outbox ==> RowStamped(s.h.log, s.clock, row);
    forall i | 0 <= i < |t.h.origins|
      ensures DeadStamped(t.h.log, t.clock, t.db.dead[i], t.h.origins[i])
    {
      assert DeadStamped(s.h.log, s.clock, s.db.dead[i], s.h.origins[i]);
    }
  }

  lemma StampCommit(cfg: Config, s: State, m: Message)
    requires Tables(cfg, s) && StampInv(s)
    ensures StampInv(CommitRow(s, m))
  {
    var t := CommitRow(s, m);
    forall row | row in t.db.outbox
      ensures RowStamped(t.h.log, t.clock, row)
    {
      assert row in s.db.outbox ==> RowStamped(s.h.log, s.clock, row);
    }
    forall i | 0 <= i < |t.h.origins|
      ensures DeadStamped(t.h.log, t.clock, t.db.dead[i], t.h.origins[i])
    {
      assert DeadStamped(s.h.log, s.clock, s.db.dead[i], s.h.origins[i]);
    }
  }

  lemma StampedRow(cfg: Config, s: State, t: State, held: Row, at: nat, outcome: Outcome, row: Row)
    requires StampInv(s) && (s.worker.Marking? || s.worker.Failing?)
    requires Recorded(cfg, s, t, held, at, outcome) && row in t.db.outbox
    ensures row in s.db.outbox || exists was :: was in s.db.outbox && row == Retried(was, held.attempts + 1, at)
    ensures RowStamped(s.h.log, s.clock, row)
  {
    UpdateMembers(s.db.outbox, held.id, held.attempts + 1, at);
    if row !in s.db.outbox {
      var was :| was in s.db.outbox && row == Retried(was, held.attempts + 1, at);
      assert RowStamped(s.h.log, s.clock, was);
    }
  }

  lemma StampRecorded(cfg: Config, s: State, t: State, held: Row, at: nat, outcome: Outcome)
    requires StampInv(s) && (s.worker.Marking? || s.worker.Failing?) && Ordered(s.db.outbox)
    requires held in s.db.outbox && Stored(held) == s.worker.stored && Recorded(cfg, s, t, held, at, outcome)
    requires t.worker == Top && t.clock == s.clock && t.h.accepted == s.h.accepted
    ensures StampInv(t)
  {
    forall row | row in t.db.outbox
      ensures RowStamped(t.h.log, t.clock, row)
    {
      StampedRow(cfg, s, t, held, at, outcome, row);
    }
    OrderedUnique(s.db.outbox, held, Lookup(s.db.outbox, held.id).value);
    assert RowStamped(s.h.log, s.clock, held);
    forall i | 0 <= i < |t.h.origins|
      ensures DeadStamped(t.h.log, t.clock, t.db.dead[i], t.h.origins[i])
    {
      if i < |s.h.origins| {
        assert DeadStamped(s.h.log, s.clock, s.db.dead[i], s.h.origins[i]);
      }
    }
  }

  lemma StampWork(cfg: Config, s: State, op: WorkOp)
    requires BaseInv(cfg, s) && HeldAlone(s) && StampInv(s) && WorkEnabled(s, op)
    ensures StampInv(ApplyWork(cfg, s, op))
  {
    if op.Record? {
      var held, at := RecordCases(cfg, s, op.outcome);
      RecordFrame(cfg, s, op.outcome);
      StampRecorded(cfg, s, RecordOutcome(cfg, s, op.outcome), held, at, op.outcome);
    } else {
      WorkFrame(cfg, s, op);
      StampSame(s, ApplyWork(cfg, s, op));
    }
  }

  lemma StampStep(cfg: Config, s: State, a: Action)
    requires BaseInv(cfg, s) && SafetyInv(s) && StampInv(s) && Enabled(cfg, s, a)
    ensures StampInv(Apply(cfg, s, a))
  {
    var t := Apply(cfg, s, a);
    match a
    case Smtp(tok, op) =>
      SmtpFrame(cfg, s, tok, op);
      if t.db != s.db { StampCommit(cfg, s, Pending(s, tok)); } else { StampSame(s, t); }
    case Work(op) =>
      HeldIsAlone(cfg, s);
      StampWork(cfg, s, op);
    case Env(op) => StampSame(s, t);
  }

  // ---------------------------------------------------------------- retries

  /** The last reschedule of a row. */
  function LastRetry(retries: seq<Retry>, id: nat): (r: Option<Retry>)
    ensures r.None? <==> forall x :: x in retries ==> x.id != id
    ensures r.Some? ==> r.value in retries && r.value.id == id
    decreases |retries|
  {
    if retries == [] then None
    else
      var before, last := retries[..|retries| - 1], retries[|retries| - 1];
      assert retries == before + [last];
      if last.id == id then Some(last) else LastRetry(before, id)
  }

  /** A reschedule puts its row off by `base * 2^(attempts - 1)` seconds from the claim, at most 900;
      the next one counts on by one and is claimed no earlier than the row was due. */
  ghost predicate Follows(cfg: Config, before: Option<Retry>, r: Retry) {
    && r.attempts >= 1 && r.due == r.claimed + Min(cfg.retryBackoff * Pow2(r.attempts - 1), 900)
    && match before
       case None => r.attempts == 1
       case Some(p) => r.attempts == p.attempts + 1 && p.due <= r.claimed
  }

  ghost predicate FollowsAt(cfg: Config, retries: seq<Retry>, j: nat)
    requires j < |retries|
  {
    Follows(cfg, LastRetry(retries[..j], retries[j].id), retries[j])
  }

  /** A row stands as its last reschedule left it, or as it was inserted. */
  ghost predicate RowRetried(retries: seq<Retry>, row: Row) {
    match LastRetry(retries, row.id)
    case None => row.attempts == 0 && row.nextAttemptAt == 0
    case Some(r) => row.attempts == r.attempts && row.nextAttemptAt == r.due
  }

  /** The worker holds only what was due when it looked. */
  ghost predicate DueWhenClaimed(s: State) {
    s.worker.Claimed? || s.worker.Delivering? || s.worker.Failing? ==>
      forall row :: row in s.db.outbox && row.id == s.worker.stored.id ==> row.nextAttemptAt <= s.worker.now
  }

  ghost predicate RetryInv(cfg: Config, s: State) {
    && (forall j :: 0 <= j < |s.h.log.retries| ==> FollowsAt(cfg, s.h.log.retries, j))
    && (forall r :: r in s.h.log.retries ==> r.id in s.h.accepted)
    && (forall row :: row in s.db.outbox ==> RowRetried(s.h.log.retries, row))
    && DueWhenClaimed(s)
  }

  lemma LastRetryAppend(retries: seq<Retry>, r: Retry, id: nat)
    ensures LastRetry(retries + [r], id) == if r.id == id then Some(r) else LastRetry(retries, id)
  {
    assert (retries + [r])[..|retries|] == retries;
  }

  lemma FollowsAppend(cfg: Config, retries: seq<Retry>, r: Retry)
    requires forall j :: 0 <= j < |retries| ==> FollowsAt(cfg, retries, j)
    requires Follows(cfg, LastRetry(retries, r.id), r)
    ensures forall j :: 0 <= j < |retries + [r]| ==> FollowsAt(cfg, retries + [r], j)
  {
    var more := retries + [r];
    forall j | 0 <= j < |more|
      ensures FollowsAt(cfg, more, j)
    {
      if j < |retries| {
        assert more[..j] == retries[..j] && FollowsAt(cfg, retries, j);
      } else {
        assert more[..j] == retries;
      }
    }
  }

  /** A step that reschedules nothing: rows are kept or inserted fresh. */
  lemma RetrySame(cfg: Config, s: State, t: State)
    requires RetryInv(cfg, s) && t.h.log.retries == s.h.log.retries && s.h.accepted.Keys <= t.h.accepted.Keys
    requires forall row :: row in t.db.outbox ==>
               row in s.db.outbox || (row.id !in s.h.accepted && row.attempts == 0 && row.nextAttemptAt == 0)
    requires DueWhenClaimed(t)
    ensures RetryInv(cfg, t)
  {
    forall row | row in t.db.outbox
      ensures RowRetried(t.h.log.retries, row)
    {
      if row in s.db.outbox {
        assert RowRetried(s.h.log.retries, row);
      }
    }
  }

  lemma RetryRecorded(cfg: Config, s: State, t: State, held: Row, at: nat, outcome: Outcome)
    requires RetryInv(cfg, s) && (s.worker.Marking? || s.worker.Failing?) && Ordered(s.db.outbox)
    requires held in s.db.outbox && Stored(held) == s.worker.stored && Recorded(cfg, s, t, held, at, outcome)
    requires s.worker.Failing? ==> at == s.worker.now + Min(cfg.retryBackoff * Pow2(held.attempts), 900)
    requires t.worker == Top && t.h.accepted == s.h.accepted && held.id in s.h.accepted
    ensures RetryInv(cfg, t)
  {
    if t.h.log == s.h.log {
      RetrySame(cfg, s, t);
    } else {
      var r := Retry(held.id, held.attempts + 1, s.worker.now, at);
      assert RowRetried(s.h.log.retries, held);
      FollowsAppend(cfg, s.h.log.retries, r);
      UpdateMembers(s.db.outbox, held.id, held.attempts + 1, at);
      forall row | row in t.db.outbox
        ensures RowRetried(t.h.log.retries, row)
      {
        LastRetryAppend(s.h.log.retries, r, row.id);
        if row.id != held.id {
          assert RowRetried(s.h.log.retries, row);
        }
      }
    }
  }

  lemma DueWork(cfg: Config, s: State, op: WorkOp)
    requires BaseInv(cfg, s) && DueWhenClaimed(s) && WorkEnabled(s, op) && !op.Record?
    ensures DueWhenClaimed(ApplyWork(cfg, s, op))
  {
    if op.Claim? {
      var first := Earliest(s.db.outbox, s.worker.now);
      if first.Some? {
        forall row | row in s.db.outbox && row.id == first.value.id
          ensures row == first.value
        {
          OrderedUnique(s.db.outbox, row, first.value);
        }
      }
    }
  }

  lemma RetryWork(cfg: Config, s: State, op: WorkOp)
    requires BaseInv(cfg, s) && RetryInv(cfg, s) && WorkEnabled(s, op)
    ensures RetryInv(cfg, ApplyWork(cfg, s, op))
  {
    if op.Record? {
      var held, at := RecordCases(cfg, s, op.outcome);
      RecordFrame(cfg, s, op.outcome);
      assert RowOk(cfg, s.h.accepted, held);
      RetryRecorded(cfg, s, RecordOutcome(cfg, s, op.outcome), held, at, op.outcome);
    } else {
      DueWork(cfg, s, op);
      RetryWorkOther(cfg, s, op);
    }
  }

  lemma RetryWorkOther(cfg: Config, s: State, op: WorkOp)
    requires RetryInv(cfg, s) && WorkEnabled(s, op) && !op.Record? && DueWhenClaimed(ApplyWork(cfg, s, op))
    ensures RetryInv(cfg, ApplyWork(cfg, s, op))
  {
    RetrySame(cfg, s, ApplyWork(cfg, s, op));
  }

  lemma RetryStep(cfg: Config, s: State, a: Action)
    requires BaseInv(cfg, s) && RetryInv(cfg, s) && HeldKnown(s) && Enabled(cfg, s, a)
    ensures RetryInv(cfg, Apply(cfg, s, a))
  {
    match a
    case Smtp(tok, op) =>
      SmtpFrame(cfg, s, tok, op);
      RetrySame(cfg, s, Apply(cfg, s, a));
    case Work(op) => RetryWork(cfg, s, op);
    case Env(op) => RetrySame(cfg, s, Apply(cfg, s, a));
  }

  /** The delay of a row doubles from one reschedule to the next until it reaches the cap. */
  ghost predicate Doubles(cfg: Config, before: Option<Retry>, r: Retry) {
    match before
    case None => r.attempts == 1 && r.due - r.claimed == Min(cfg.retryBackoff, 900)
    case Some(p) =>
      var double := 2 * (p.due - p.claimed);
      && r.attempts == p.attempts + 1 && p.due <= r.claimed
      && r.due - r.claimed == if double <= 900 then double else 900
  }

  lemma DelaysDouble(cfg: Config, p: Retry, r: Retry)
    requires p.attempts >= 1 && p.due == p.claimed + Min(cfg.retryBackoff * Pow2(p.attempts - 1), 900)
    requires Follows(cfg, Some(p), r)
    ensures Doubles(cfg, Some(p), r)
  {
    var x := Pow2(p.attempts - 1);
    assert Pow2(r.attempts - 1) == 2 * x;
    assert cfg.retryBackoff * (2 * x) == 2 * (cfg.retryBackoff * x);
  }

  lemma DoublesAt(cfg: Config, s: State, j: nat)
    requires RetryInv(cfg, s) && j < |s.h.log.retries|
    ensures Doubles(cfg, LastRetry(s.h.log.retries[..j], s.h.log.retries[j].id), s.h.log.retries[j])
  {
    var retries := s.h.log.retries;
    var p := LastRetry(retries[..j], retries[j].id);
    assert FollowsAt(cfg, retries, j);
    if p.Some? {
      var i :| 0 <= i < j && retries[..j][i] == p.value;
      assert FollowsAt(cfg, retries, i);
      DelaysDouble(cfg, p.value, retries[j]);
    }
  }

  // ---------------------------------------------------------------- the connection

  /** The worker connects once in a lifetime, before anything else, and nothing is sent before. */
  ghost predicate ConnectInv(s: State) {
    && (s.worker.Connecting? ==> !s.h.log.connected)
    && (!s.worker.Connecting? && !s.worker.Stopped? ==> s.h.log.connected)
    && (forall c :: c in s.h.calls ==>
          c.lifetime <= s.h.lifetime && (c.lifetime == s.h.lifetime ==> s.h.log.connected))
  }

  lemma ConnectRecord(cfg: Config, s: State, outcome: Outcome)
    requires BaseInv(cfg, s) && ConnectInv(s) && WorkEnabled(s, Record(outcome))
    ensures ConnectInv(RecordOutcome(cfg, s, outcome))
  {
    var held, at := RecordCases(cfg, s, outcome);
    RecordFrame(cfg, s, outcome);
  }

  lemma ConnectOther(cfg: Config, s: State, op: WorkOp)
    requires ConnectInv(s) && WorkEnabled(s, op) && !op.Record?
    ensures ConnectInv(ApplyWork(cfg, s, op))
  {
  }

  lemma ConnectStep(cfg: Config, s: State, a: Action)
    requires BaseInv(cfg, s) && ConnectInv(s) && Enabled(cfg, s, a)
    ensures ConnectInv(Apply(cfg, s, a))
  {
    match a
    case Smtp(tok, op) => SmtpFrame(cfg, s, tok, op);
    case Work(op) =>
      if op.Record? { ConnectRecord(cfg, s, op.outcome); } else { ConnectOther(cfg, s, op); }
    case _ =>
  }
}
