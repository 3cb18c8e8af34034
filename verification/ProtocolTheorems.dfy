/** What holds in every state any schedule of sessions, worker, sink, clock, storage errors,
    cancellations, crashes and restarts can reach. */
module ProtocolTheorems {
  import opened Results
  import opened Outbox
  import opened Backoff
  import opened Numerals
  import opened Protocol
  import opened ProtocolInvariants
  import opened ProtocolHistory
  import opened ProtocolRetries

  ghost predicate Inv(cfg: Config, s: State) {
    && BaseInv(cfg, s) && SafetyInv(s) && AccountInv(cfg, s) && FifoInv(s) && WakeInv(s)
    && DueUntried(s) && CallsInv(s) && DeliveredInv(s.h) && ShownInv(s.h) && BudgetInv(cfg, s)
    && StampInv(s) && RetryInv(cfg, s) && ConnectInv(s)
  }

  lemma InitialInv(cfg: Config, clock: nat)
    requires ValidConfig(cfg)
    ensures Inv(cfg, InitialState(clock))
  {
  }

  lemma StepInv(cfg: Config, s: State, a: Action)
    requires Inv(cfg, s) && Enabled(cfg, s, a)
    ensures Inv(cfg, Apply(cfg, s, a))
  {
    BaseStep(cfg, s, a);
    RowsStep(cfg, s, a);
    SafetyStep(cfg, s, a);
    AccountStep(cfg, s, a);
    FifoStep(cfg, s, a);
    WakeStep(cfg, s, a);
    HeldIsAccepted(cfg, s);
    DueUntriedStep(cfg, s, a);
    CallsStep(cfg, s, a);
    DeliveredStep(cfg, s, a);
    ShownStep(cfg, s, a);
    BudgetStep(cfg, s, a);
    StampStep(cfg, s, a);
    RetryStep(cfg, s, a);
    ConnectStep(cfg, s, a);
  }

  lemma {:induction false} RunInv(cfg: Config, s: State, run: seq<Action>)
    requires Inv(cfg, s) && Runnable(cfg, s, run)
    ensures Inv(cfg, Exec(cfg, s, run))
    decreases |run|
  {
    if run != [] {
      StepInv(cfg, s, run[0]);
      RunInv(cfg, Apply(cfg, s, run[0]), run[1..]);
    }
  }

  /** A state some schedule reaches from an empty database. */
  ghost predicate Reaches(cfg: Config, clock: nat, run: seq<Action>, s: State) {
    ValidConfig(cfg) && Runnable(cfg, InitialState(clock), run) && s == Exec(cfg, InitialState(clock), run)
  }

  lemma ReachedInv(cfg: Config, clock: nat, run: seq<Action>, s: State)
    requires Reaches(cfg, clock, run, s)
    ensures Inv(cfg, s)
  {
    InitialInv(cfg, clock);
    RunInv(cfg, InitialState(clock), run);
  }

  ghost predicate InDeadLetter(s: State, id: nat, m: Message) {
    exists i :: 0 <= i < |s.h.origins| && i < |s.db.dead| && s.h.origins[i] == id && DeadMessage(s.db.dead[i]) == m
  }

  ghost predicate Queued(s: State, id: nat, m: Message) {
    exists row :: row in s.db.outbox && row.id == id && RowMessage(row) == m
  }

  /** A call that returned Ok was made for this id, and it sent this message. */
  ghost predicate Delivered(s: State, id: nat, m: Message) {
    id in s.h.delivered && exists c :: c in s.h.calls && c.id == id && c.message == m && c.key == Key(id)
  }

  lemma DeliveredMessage(cfg: Config, s: State, id: nat)
    requires Inv(cfg, s) && id in s.h.delivered
    ensures id in s.h.accepted && Delivered(s, id, s.h.accepted[id])
  {
    var c :| c in s.h.calls && c.id == id;
    assert CallOk(s.h, c);
  }

  /** A message answered 250 is in the outbox, or in dead_letter, unchanged, or was itself handed
      to the sink, with an Ok for its row. */
  lemma AtLeastOnce(cfg: Config, clock: nat, run: seq<Action>, s: State, id: nat)
    requires Reaches(cfg, clock, run, s) && id in s.h.acked
    ensures Queued(s, id, s.h.acked[id]) || InDeadLetter(s, id, s.h.acked[id]) || Delivered(s, id, s.h.acked[id])
  {
    ReachedInv(cfg, clock, run, s);
    PlacesOf(cfg, s, id);
  }

  lemma PlacesOf(cfg: Config, s: State, id: nat)
    requires Inv(cfg, s) && id in s.h.accepted
    ensures id in s.h.delivered ==> Delivered(s, id, s.h.accepted[id])
    ensures Queued(s, id, s.h.accepted[id]) || InDeadLetter(s, id, s.h.accepted[id]) || id in s.h.delivered
    ensures InOutbox(s.db.outbox, id) ==> Queued(s, id, s.h.accepted[id])
    ensures id in s.h.origins ==> InDeadLetter(s, id, s.h.accepted[id])
  {
    if id in s.h.delivered {
      DeliveredMessage(cfg, s, id);
    }
    if InOutbox(s.db.outbox, id) {
      var row :| row in s.db.outbox && row.id == id;
      assert RowOk(cfg, s.h.accepted, row);
    } else if id in s.h.origins {
      var i :| 0 <= i < |s.h.origins| && s.h.origins[i] == id;
      assert DeadOk(cfg, s.h.accepted, s.db.dead[i], s.h.origins[i]);
    }
  }

  /** Every committed row, acknowledged or not, is in at most one table, and in none only
      after an Ok deliver call. */
  lemma NeverBothNorLost(cfg: Config, clock: nat, run: seq<Action>, s: State, id: nat)
    requires Reaches(cfg, clock, run, s) && id in s.h.accepted
    ensures !(InOutbox(s.db.outbox, id) && id in s.h.origins)
    ensures InOutbox(s.db.outbox, id) ==> Queued(s, id, s.h.accepted[id])
    ensures id in s.h.origins ==> InDeadLetter(s, id, s.h.accepted[id])
    ensures !InOutbox(s.db.outbox, id) && id !in s.h.origins ==> Delivered(s, id, s.h.accepted[id])
  {
    ReachedInv(cfg, clock, run, s);
    PlacesOf(cfg, s, id);
  }

  /** A parked worker is due to wake for `row`: at once through the stored permit, or at the
      row's due time plus the time it took to fall asleep, or, when the next due time could not
      be read, after the storage backoff. */
  ghost predicate WakesFor(s: State, row: Row)
    requires s.worker.Parked?
  {
    var w := s.worker;
    var deadline := w.start + WaitSeconds(w.wait, w.now);
    || WorkEnabled(s, WakeByPermit)
    || (row.nextAttemptAt > w.now && w.wait.Until? && deadline <= row.nextAttemptAt + (w.start - w.now))
    || (row.nextAttemptAt > w.now && w.wait.Unknown? && deadline == w.start + 5)
  }

  lemma WakeInvWakes(s: State, row: Row)
    requires WakeInv(s) && s.worker.Parked? && row in s.db.outbox && row.id in s.h.returned
    ensures WakesFor(s, row)
  {
  }

  /** No wakeup is lost: a parked worker is due to wake for every row whose enqueue returned. */
  lemma NoLostWakeup(cfg: Config, clock: nat, run: seq<Action>, s: State, row: Row)
    requires Reaches(cfg, clock, run, s) && s.worker.Parked?
    requires row in s.db.outbox && row.id in s.h.returned
    ensures WakesFor(s, row)
  {
    ReachedInv(cfg, clock, run, s);
    WakeInvWakes(s, row);
  }

  lemma DueRowsWake(s: State, row: Row)
    requires WakeInv(s) && s.worker.Parked? && row in s.db.outbox
    ensures WakesFor(s, row) <==> s.permit || row.nextAttemptAt > s.worker.now
  {
  }

  /** Exactly which rows a parked worker will wake for: all of them while a permit is stored, and
      otherwise those that lay in the future when it last looked. */
  lemma WakesExactly(cfg: Config, clock: nat, run: seq<Action>, s: State, row: Row)
    requires Reaches(cfg, clock, run, s) && s.worker.Parked? && row in s.db.outbox
    ensures WakesFor(s, row) <==> s.permit || row.nextAttemptAt > s.worker.now
  {
    ReachedInv(cfg, clock, run, s);
    DueRowsWake(s, row);
  }

  /** A row it will not wake for has never been tried, and its enqueue has not returned: its
      session is still under way or was cut off before its 250. */
  lemma MissedRow(cfg: Config, clock: nat, run: seq<Action>, s: State, row: Row)
    requires Reaches(cfg, clock, run, s) && s.worker.Parked? && row in s.db.outbox && !WakesFor(s, row)
    ensures row.id !in s.h.returned && row.id !in s.h.acked
    ensures forall c :: c in s.h.calls ==> c.id != row.id
  {
    ReachedInv(cfg, clock, run, s);
    DueRowsWake(s, row);
    assert forall c :: c in s.h.calls ==> c.id in Attempted(s.h.calls);
  }

  /** Nor does it wake early: a sleep towards a due time ends exactly when the earliest future
      row is due, plus the time it took to fall asleep. */
  lemma SleepsUntilDue(cfg: Config, clock: nat, run: seq<Action>, s: State)
    requires Reaches(cfg, clock, run, s) && s.worker.Parked? && s.worker.wait.Until?
    ensures
      var w := s.worker;
      && w.now <= w.start <= s.clock
      && exists row :: row in s.db.outbox && row.nextAttemptAt > w.now
           && w.start + WaitSeconds(w.wait, w.now) == row.nextAttemptAt + (w.start - w.now)
           && forall other :: other in s.db.outbox && other.nextAttemptAt > w.now ==>
                row.nextAttemptAt <= other.nextAttemptAt
  {
    ReachedInv(cfg, clock, run, s);
    WakeInvSleeps(s);
  }

  lemma WakeInvSleeps(s: State)
    requires WakeInv(s) && s.worker.Parked? && s.worker.wait.Until?
    ensures
      var w := s.worker;
      && w.now <= w.start <= s.clock
      && exists row :: row in s.db.outbox && row.nextAttemptAt > w.now
           && w.start + WaitSeconds(w.wait, w.now) == row.nextAttemptAt + (w.start - w.now)
           && forall other :: other in s.db.outbox && other.nextAttemptAt > w.now ==>
                row.nextAttemptAt <= other.nextAttemptAt
  {
    var w := s.worker;
    var row :| row in s.db.outbox && row.nextAttemptAt == w.wait.at;
    assert w.start + WaitSeconds(w.wait, w.now) == row.nextAttemptAt + (w.start - w.now);
  }

  const EXAMPLE_MESSAGE := Message(None, ["a@b"], None, "")

  lemma Extend(cfg: Config, run: seq<Action>, s: State, a: Action, t: State)
    requires Reaches(cfg, 0, run, s) && Enabled(cfg, s, a) && t == Apply(cfg, s, a)
    ensures Reaches(cfg, 0, run + [a], t)
  {
    ExecSnoc(cfg, InitialState(0), run, a);
  }

  /** The start of a process whose sink has been connected. */
  function Connected(): State {
    var s := InitialState(0);
    s.(worker := Top, h := s.h.(log := s.h.log.(connected := true)))
  }

  lemma ParkAtOnce(cfg: Config) returns (run: seq<Action>)
    requires ValidConfig(cfg)
    ensures Reaches(cfg, 0, run, Connected().(worker := Parked(0, Nothing, 0)))
  {
    var s := Connected();
    Extend(cfg, [], InitialState(0), Work(Connect), s);
    run := [] + [Work(Connect)];
    Extend(cfg, run, s, Work(ReadClock), s.(worker := Claiming(0)));
    run := run + [Work(ReadClock)];
    Extend(cfg, run, s.(worker := Claiming(0)), Work(Claim), s.(worker := Drained(0)));
    run := run + [Work(Claim)];
    Extend(cfg, run, s.(worker := Drained(0)), Work(StayIdle), s.(worker := Waking(0)));
    run := run + [Work(StayIdle)];
    Extend(cfg, run, s.(worker := Waking(0)), Work(QueryWakeup(false)), s.(worker := Resting(0, Nothing)));
    run := run + [Work(QueryWakeup(false))];
    Extend(cfg, run, s.(worker := Resting(0, Nothing)), Work(Park), s.(worker := Parked(0, Nothing, 0)));
    run := run + [Work(Park)];
  }

  /** The claim cannot cover a row whose enqueue was cancelled between commit and notify: some
      schedule leaves one due, with no permit, while the worker sleeps the whole idle hour. */
  lemma CancelledRowSleeps(cfg: Config) returns (run: seq<Action>, s: State)
    requires ValidConfig(cfg)
    ensures Reaches(cfg, 0, run, s) && s.worker == Parked(0, Nothing, 0) && !s.permit
    ensures s.db.outbox == [FreshRow(1, EXAMPLE_MESSAGE, 0)] && 1 !in s.h.returned
    ensures !WakesFor(s, s.db.outbox[0])
  {
    run := ParkAtOnce(cfg);
    var parked := Connected().(worker := Parked(0, Nothing, 0));
    var calling := parked.(enqueues := map[0 := Calling(EXAMPLE_MESSAGE, false)]);
    Extend(cfg, run, parked, Smtp(0, CallEnqueue(EXAMPLE_MESSAGE)), calling);
    run := run + [Smtp(0, CallEnqueue(EXAMPLE_MESSAGE))];
    var committed := CommitRow(calling, EXAMPLE_MESSAGE).(enqueues := map[0 := Committed(EXAMPLE_MESSAGE, 1)]);
    Extend(cfg, run, calling, Smtp(0, Commit), committed);
    run := run + [Smtp(0, Commit)];
    s := committed.(enqueues := map[]);
    assert committed.enqueues - {0} == map[];
    Extend(cfg, run, committed, Smtp(0, Cancel), s);
    run := run + [Smtp(0, Cancel)];
  }

  /** Retries: the stored count never passes the limit nor the failed calls, and lags them only
      by outcomes lost to a crash or a storage error. */
  lemma RetryAccounting(cfg: Config, clock: nat, run: seq<Action>, s: State, row: Row)
    requires Reaches(cfg, clock, run, s) && row in s.db.outbox
    ensures row.attempts <= cfg.maxRetries
    ensures row.attempts <= s.h.failed[row.id] <= row.attempts + s.h.wasted[row.id] + 1
    ensures !s.worker.Failing? ==> s.h.failed[row.id] <= row.attempts + s.h.wasted[row.id]
  {
    ReachedInv(cfg, clock, run, s);
    assert RowAccount(s.h, s.worker, row);
    assert RowOk(cfg, s.h.accepted, row);
  }

  /** A dead letter has used up every attempt: max_retries + 1 failed calls, and no more than
      the lost outcomes on top. */
  lemma DeadLetterAccounting(cfg: Config, clock: nat, run: seq<Action>, s: State, i: nat)
    requires Reaches(cfg, clock, run, s) && i < |s.db.dead|
    ensures i < |s.h.origins| && s.db.dead[i].attempts == cfg.maxRetries
    ensures cfg.maxRetries + 1 <= s.h.failed[s.h.origins[i]] <= cfg.maxRetries + 1 + s.h.wasted[s.h.origins[i]]
  {
    ReachedInv(cfg, clock, run, s);
    assert DeadOk(cfg, s.h.accepted, s.db.dead[i], s.h.origins[i]);
    assert DeadAccount(cfg, s.h, s.h.origins[i]);
  }

  /** What a recorded failure does to a row that may be retried: one failure more, and next due
      `base * 2^attempts` seconds after the claim, never more than 900. */
  lemma RetryDelayed(cfg: Config, clock: nat, run: seq<Action>, s: State, outcome: Outcome)
    requires Reaches(cfg, clock, run, s) && s.worker.Failing? && !outcome.ErrorUnapplied?
    requires s.worker.stored.attempts < cfg.maxRetries
    ensures
      var w := s.worker;
      exists row :: row in RecordOutcome(cfg, s, outcome).db.outbox && row.id == w.stored.id
        && RowMessage(row) == w.stored.message && row.attempts == w.stored.attempts + 1
        && row.nextAttemptAt == w.now + Min(cfg.retryBackoff * Pow2(w.stored.attempts), 900)
  {
    ReachedInv(cfg, clock, run, s);
    var held, at := RecordCases(cfg, s, outcome);
    UpdateMembers(s.db.outbox, held.id, held.attempts + 1, at);
    assert Retried(held, held.attempts + 1, at) in RecordOutcome(cfg, s, outcome).db.outbox;
  }

  /** What it does to one that may not: the row leaves the outbox and stands at the end of
      dead_letter with its own message, count and creation time, the time now and the error. */
  lemma Buried(cfg: Config, clock: nat, run: seq<Action>, s: State, outcome: Outcome)
    requires Reaches(cfg, clock, run, s) && s.worker.Failing? && !outcome.ErrorUnapplied?
    requires s.worker.stored.attempts >= cfg.maxRetries
    ensures
      var w, t := s.worker, RecordOutcome(cfg, s, outcome);
      && !InOutbox(t.db.outbox, w.stored.id)
      && |t.db.dead| == |s.db.dead| + 1 && t.db.dead[..|s.db.dead|] == s.db.dead
      && exists row :: row in s.db.outbox && row.id == w.stored.id
           && var dead := t.db.dead[|s.db.dead|];
              && DeadMessage(dead) == w.stored.message && dead.attempts == w.stored.attempts == cfg.maxRetries
              && dead.createdAt == row.createdAt && dead.failedAt == s.clock && dead.lastError == w.error
  {
    ReachedInv(cfg, clock, run, s);
    var held, at := RecordCases(cfg, s, outcome);
    OrderedUnique(s.db.outbox, held, Lookup(s.db.outbox, held.id).value);
    assert RecordOutcome(cfg, s, outcome).db == DeadLetter(s.db, held.id, s.worker.error, s.clock);
  }

  /** Over any run the delays of a row double, from `retry_backoff` on, until they reach the cap;
      its count goes up by one each time, and no retry is claimed before the row was due. */
  lemma RetrySchedule(cfg: Config, clock: nat, run: seq<Action>, s: State, j: nat)
    requires Reaches(cfg, clock, run, s) && j < |s.h.log.retries|
    ensures
      var r := s.h.log.retries[j];
      match LastRetry(s.h.log.retries[..j], r.id)
      case None => r.attempts == 1 && r.due - r.claimed == Min(cfg.retryBackoff, 900)
      case Some(p) =>
        var double := 2 * (p.due - p.claimed);
        && r.attempts == p.attempts + 1 && p.due <= r.claimed
        && r.due - r.claimed == if double <= 900 then double else 900
  {
    ReachedInv(cfg, clock, run, s);
    DoublesAt(cfg, s, j);
  }

  /** And every row in the outbox stands as its last retry left it, or as it was committed. */
  lemma RowStanding(cfg: Config, clock: nat, run: seq<Action>, s: State, row: Row)
    requires Reaches(cfg, clock, run, s) && row in s.db.outbox
    ensures
      match LastRetry(s.h.log.retries, row.id)
      case None => row.attempts == 0 && row.nextAttemptAt == 0
      case Some(r) => row.attempts == r.attempts && row.nextAttemptAt == r.due
    ensures row.id in s.h.log.created && row.createdAt == s.h.log.created[row.id] <= s.clock
  {
    ReachedInv(cfg, clock, run, s);
    assert RowRetried(s.h.log.retries, row);
    assert RowStamped(s.h.log, s.clock, row);
  }

  /** A dead letter carries the accepted message, the time of its commit, a time no earlier, and
      the error its last failed call returned. */
  lemma DeadLetterRecord(cfg: Config, clock: nat, run: seq<Action>, s: State, i: nat)
    requires Reaches(cfg, clock, run, s) && i < |s.db.dead|
    ensures i < |s.h.origins| && s.h.origins[i] in s.h.accepted
    ensures DeadMessage(s.db.dead[i]) == s.h.accepted[s.h.origins[i]]
    ensures s.h.origins[i] in s.h.log.created && s.db.dead[i].createdAt == s.h.log.created[s.h.origins[i]]
    ensures s.db.dead[i].createdAt <= s.db.dead[i].failedAt <= s.clock
    ensures s.h.origins[i] in s.h.log.errors && s.db.dead[i].lastError == s.h.log.errors[s.h.origins[i]]
  {
    ReachedInv(cfg, clock, run, s);
    assert DeadOk(cfg, s.h.accepted, s.db.dead[i], s.h.origins[i]);
    assert DeadStamped(s.h.log, s.clock, s.db.dead[i], s.h.origins[i]);
  }

  /** Nothing is sent in a lifetime before the sink has been connected in it. */
  lemma NothingBeforeConnect(cfg: Config, clock: nat, run: seq<Action>, s: State, c: Call)
    requires Reaches(cfg, clock, run, s) && c in s.h.calls && c.lifetime == s.h.lifetime
    ensures s.h.log.connected && !s.worker.Connecting?
  {
    ReachedInv(cfg, clock, run, s);
  }

  /** A schedule that loses no outcome: it may restart an idle worker, but neither dies between a
      deliver call and its record nor fails to record one. */
  ghost predicate LosesNothing(cfg: Config, s: State, run: seq<Action>)
    requires Runnable(cfg, s, run)
    decreases |run|
  {
    run == [] ||
    (!LosesOutcome(s, run[0]) && LosesNothing(cfg, Apply(cfg, s, run[0]), run[1..]))
  }

  predicate LosesOutcome(s: State, a: Action) {
    (a == Env(Crash) && Busy(s.worker)) || a == Work(Record(ErrorUnapplied))
  }

  lemma WastedStep(cfg: Config, s: State, a: Action)
    requires Enabled(cfg, s, a)
    ensures |Apply(cfg, s, a).h.wasted| == |s.h.wasted| + if LosesOutcome(s, a) then 1 else 0
  {
    match a
    case Work(op) =>
      if op.Record? { WastedRecord(cfg, s, op.outcome); } else { WorkFrame(cfg, s, op); }
    case _ =>
  }

  /** Outcomes are lost in such steps only, and in each of them. */
  lemma {:induction false} WastedExactly(cfg: Config, s: State, run: seq<Action>)
    requires Runnable(cfg, s, run)
    ensures |Exec(cfg, s, run).h.wasted| >= |s.h.wasted|
    ensures |Exec(cfg, s, run).h.wasted| == |s.h.wasted| <==> LosesNothing(cfg, s, run)
    decreases |run|
  {
    if run != [] {
      WastedStep(cfg, s, run[0]);
      WastedExactly(cfg, Apply(cfg, s, run[0]), run[1..]);
    }
  }

  /** A message none of whose outcomes was lost is dead-lettered after exactly max_retries + 1
      failed calls, whatever happened to the others. */
  lemma ExactWithoutLoss(cfg: Config, clock: nat, run: seq<Action>, s: State, id: nat)
    requires Reaches(cfg, clock, run, s) && id in s.h.origins && s.h.wasted[id] == 0
    ensures s.h.failed[id] == cfg.maxRetries + 1
  {
    ReachedInv(cfg, clock, run, s);
    assert DeadAccount(cfg, s.h, id);
  }

  /** Without lost outcomes every dead letter took exactly max_retries + 1 failed calls, and N
      messages cost at most N * (max_retries + 1) calls. */
  lemma ExactWithoutFaults(cfg: Config, clock: nat, run: seq<Action>, s: State)
    requires Reaches(cfg, clock, run, s) && LosesNothing(cfg, InitialState(clock), run)
    ensures forall id :: id in s.h.origins ==> s.h.failed[id] == cfg.maxRetries + 1
    ensures |s.h.calls| <= |s.h.accepted| * (cfg.maxRetries + 1)
  {
    WastedExactly(cfg, InitialState(clock), run);
    forall id | id in s.h.origins
      ensures s.h.failed[id] == cfg.maxRetries + 1
    {
      assert s.h.wasted == multiset{};
      ExactWithoutLoss(cfg, clock, run, s, id);
    }
    CallBudget(cfg, clock, run, s);
  }

  lemma {:induction false} IdsUpTo(n: nat, ids: set<nat>)
    requires forall id :: id in ids <==> 1 <= id <= n
    ensures |ids| == n
  {
    if n > 0 {
      IdsUpTo(n - 1, ids - {n});
    }
  }

  /** Whatever the sink answers and however the clock moves, N accepted messages cost at most
      N * (max_retries + 1) deliver calls, plus one for each outcome that was lost. */
  lemma CallBudget(cfg: Config, clock: nat, run: seq<Action>, s: State)
    requires Reaches(cfg, clock, run, s)
    ensures |s.h.calls| <= |s.h.accepted| * (cfg.maxRetries + 1) + |s.h.wasted|
  {
    ReachedInv(cfg, clock, run, s);
    IdsUpTo(s.db.nextId - 1, s.h.accepted.Keys);
    if Busy(s.worker) {
      var held := HeldRow(s);
      PotentialRemove(s.db.outbox, held, cfg.maxRetries);
    }
  }

  /** First attempts happen in the order the messages were committed. */
  lemma FifoFirstAttempts(cfg: Config, clock: nat, run: seq<Action>, s: State, i: nat, j: nat)
    requires Reaches(cfg, clock, run, s) && i < j < |s.h.calls|
    requires IsFirst(s.h.calls, i) && IsFirst(s.h.calls, j)
    ensures s.h.calls[i].id < s.h.calls[j].id
  {
    ReachedInv(cfg, clock, run, s);
  }

  lemma KeyInjective(a: nat, b: nat)
    ensures Key(a) == Key(b) ==> a == b
  {
    if Key(a) == Key(b) {
      assert Decimal(a) == Key(a)[13..] == Key(b)[13..] == Decimal(b);
      DecimalInjective(a, b);
    }
  }

  /** Two calls share a key exactly when they are attempts on the same row, and then they send
      the same message, the one accepted under that id. */
  lemma KeysIdentifyMessages(cfg: Config, clock: nat, run: seq<Action>, s: State, i: nat, j: nat)
    requires Reaches(cfg, clock, run, s) && i < |s.h.calls| && j < |s.h.calls|
    ensures s.h.calls[i].key == s.h.calls[j].key <==> s.h.calls[i].id == s.h.calls[j].id
    ensures s.h.calls[i].id in s.h.accepted && s.h.calls[i].message == s.h.accepted[s.h.calls[i].id]
  {
    ReachedInv(cfg, clock, run, s);
    assert CallOk(s.h, s.h.calls[i]) && CallOk(s.h, s.h.calls[j]);
    KeyInjective(s.h.calls[i].id, s.h.calls[j].id);
  }

  /** With a sink that drops repeated keys within a process lifetime, a message shows at most
      once per lifetime, even when calls that applied it reported an error. */
  lemma ShownAtMostOnce(cfg: Config, clock: nat, run: seq<Action>, s: State, i: nat, j: nat)
    requires Reaches(cfg, clock, run, s) && i < j < |s.h.shown|
    requires s.h.shown[i].lifetime == s.h.shown[j].lifetime
    ensures s.h.shown[i].id != s.h.shown[j].id
  {
    ReachedInv(cfg, clock, run, s);
    ShownKeys(cfg, s, s.h.shown[i]);
    ShownKeys(cfg, s, s.h.shown[j]);
  }

  lemma ShownKeys(cfg: Config, s: State, x: Showing)
    requires Inv(cfg, s) && x in s.h.shown
    ensures x.key == Key(x.id) && x.id in s.h.accepted && x.message == s.h.accepted[x.id]
  {
    assert CallOk(s.h, Call(x.id, x.message, x.key, x.lifetime));
  }

  /** And dropping never hides another message: once the sink has applied a call, that very
      message shows in the current lifetime. */
  lemma AppliedIsShown(cfg: Config, clock: nat, run: seq<Action>, s: State)
    requires Reaches(cfg, clock, run, s) && s.worker.Delivering?
    ensures
      var t := ApplyWork(cfg, s, SinkApplies);
      exists x :: x in t.h.shown && x.lifetime == s.h.lifetime && x.id == s.worker.stored.id
                  && x.message == s.worker.stored.message
  {
    ReachedInv(cfg, clock, run, s);
    HeldIsAccepted(cfg, s);
    var t := ApplyWork(cfg, s, SinkApplies);
    var stored := s.worker.stored;
    if x :| x in s.h.shown && x.lifetime == s.h.lifetime && x.key == Key(stored.id) {
      ShownKeys(cfg, s, x);
      KeyInjective(x.id, stored.id);
      assert x in t.h.shown;
    } else {
      assert t.h.shown[|s.h.shown|] in t.h.shown;
    }
  }

  /** Cancelling a call whose statement was handed over does not stop the statement: its row can still
      be committed, and then nobody is notified of it. */
  lemma CancelledMayCommit(cfg: Config, s: State, tok: nat)
    requires tok in s.enqueues && s.enqueues[tok].Calling? && !IsFull(s.db, cfg.maxLen)
    ensures
      var m, cancelled := s.enqueues[tok].message, ApplySmtp(cfg, s, tok, Cancel);
      && SmtpEnabled(cfg, cancelled, tok, Commit)
      && var t := ApplySmtp(cfg, cancelled, tok, Commit);
         && t.db.outbox == s.db.outbox + [FreshRow(s.db.nextId, m, s.clock)] && tok !in t.enqueues
         && t.permit == s.permit && t.h.returned == s.h.returned && t.h.acked == s.h.acked
  {
  }

  /** A call is refused if and only if a cap is set and the outbox holds that many rows; one that is
      not refused can commit. */
  lemma RefusedExactly(cfg: Config, clock: nat, run: seq<Action>, s: State, tok: nat)
    requires Reaches(cfg, clock, run, s) && tok in s.enqueues && s.enqueues[tok].Calling?
    ensures SmtpEnabled(cfg, s, tok, Refuse) <==> cfg.maxLen > 0 && |s.db.outbox| == cfg.maxLen
    ensures SmtpEnabled(cfg, s, tok, Commit) <==> cfg.maxLen == 0 || |s.db.outbox| < cfg.maxLen
  {
    ReachedInv(cfg, clock, run, s);
    RefusedWhenFull(cfg, s, tok);
  }

  lemma RefusedWhenFull(cfg: Config, s: State, tok: nat)
    requires Tables(cfg, s) && tok in s.enqueues && s.enqueues[tok].Calling?
    ensures SmtpEnabled(cfg, s, tok, Refuse) <==> cfg.maxLen > 0 && |s.db.outbox| == cfg.maxLen
    ensures SmtpEnabled(cfg, s, tok, Commit) <==> cfg.maxLen == 0 || |s.db.outbox| < cfg.maxLen
  {
  }

  /** Ids are handed out in commit order and never again; the outbox never outgrows its cap. */
  lemma IdsAndCapacity(cfg: Config, clock: nat, run: seq<Action>, s: State)
    requires Reaches(cfg, clock, run, s)
    ensures forall id :: id in s.h.accepted <==> 1 <= id < s.db.nextId
    ensures forall i, j :: 0 <= i < j < |s.db.outbox| ==> s.db.outbox[i].id < s.db.outbox[j].id < s.db.nextId
    ensures cfg.maxLen > 0 ==> |s.db.outbox| <= cfg.maxLen
  {
    ReachedInv(cfg, clock, run, s);
    forall i | 0 <= i < |s.db.outbox|
      ensures s.db.outbox[i].id < s.db.nextId
    {
      assert RowOk(cfg, s.h.accepted, s.db.outbox[i]);
    }
  }
}
