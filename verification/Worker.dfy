/** The delivery worker as a loop over the store, and the process it lives in. */
module Worker {
  import opened Results
  import opened Numerals
  import opened Recipients
  import opened Outbox
  import opened Backoff
  import opened Drain
  import opened Protocol
  import opened ProtocolInvariants
  import opened ProtocolHistory
  import opened ProtocolRetries
  import opened ProtocolTheorems
  import opened Store

  /** What the rest of the process does while the worker awaits, and how the awaited storage
      statement ends. */
  datatype Turn = Turn(steps: seq<Action>, outcome: Outcome, connects: bool)

  /** How the sink treats one call: it may apply the message and still report an error. */
  datatype Answer = Answer(applied: bool, ok: bool, error: string)

  /** One connect to the sink: when it began and ended, and whether it succeeded. */
  datatype Attempt = Attempt(began: nat, ended: nat, ok: bool)

  ghost predicate Spaced(attempts: seq<Attempt>, pause: nat) {
    forall k :: 0 < k < |attempts| ==> attempts[k].began >= attempts[k - 1].ended + pause
  }

  ghost predicate AllFailed(attempts: seq<Attempt>) {
    forall k :: 0 <= k < |attempts| ==> !attempts[k].ok
  }

  /** The next connect may begin at `now`, unless there is to be none. */
  ghost predicate MayConnect(attempts: seq<Attempt>, pause: nat, now: nat, stopped: bool) {
    attempts != [] ==> stopped || now >= attempts[|attempts| - 1].ended + pause
  }

  lemma ConnectedNext(attempts: seq<Attempt>, pause: nat, next: Attempt)
    requires Spaced(attempts, pause) && AllFailed(attempts) && MayConnect(attempts, pause, next.began, false)
    ensures var more := attempts + [next];
            && Spaced(more, pause) && more != [] && more[|more| - 1] == next
            && (forall k :: 0 <= k < |more| - 1 ==> !more[k].ok) && (!next.ok ==> AllFailed(more))
  {
  }

  /** The process around the worker. Its script is arbitrary; once it runs out, storage
      behaves, nothing else happens, and a worker about to sleep is asked to shut down. */
  class Host {
    const cfg: Config
    const store: MessageStore
    const sink: (nat, Message, string) -> Answer
    var script: seq<Turn>
    var clock: nat
    var shutdown: bool
    var enqueues: map<nat, Enqueue>
    var callsMade: nat

    /** The protocol state this process is in, and the steps that led there. */
    ghost var start: nat
    ghost var past: seq<Action>
    ghost var s: State

    /** The process is where the protocol says: everything proved of reached states holds here. */
    ghost predicate Coupled()
      reads this, store
    {
      && Reaches(cfg, start, past, s)
      && store.maxLen == cfg.maxLen
      && s.db == store.Tables() && s.permit == store.permit
      && s.clock == clock && s.shutdown == shutdown && s.enqueues == enqueues
      && callsMade == |s.h.calls|
    }

    constructor Launch(cfg: Config, store: MessageStore, sink: (nat, Message, string) -> Answer,
                       script: seq<Turn>, clock: nat)
      requires ValidConfig(cfg) && store.maxLen == cfg.maxLen
      requires store.Tables() == EMPTY_DB && !store.permit
      ensures Coupled() && this.cfg == cfg && this.store == store && this.sink == sink
      ensures this.script == script && s == InitialState(clock)
    {
      this.cfg, this.store, this.sink := cfg, store, sink;
      this.script, this.clock, this.shutdown, this.enqueues, this.callsMade := script, clock, false, map[], 0;
      this.start, this.past, this.s := clock, [], InitialState(clock);
    }

    ghost method Advance(a: Action)
      requires Reaches(cfg, start, past, s) && Enabled(cfg, s, a)
      modifies this`past, this`s
      ensures s == Apply(cfg, old(s), a) && Reaches(cfg, start, past, s)
      ensures past == old(past) + [a]
    {
      ExecSnoc(cfg, InitialState(start), past, a);
      past := past + [a];
      s := Apply(cfg, s, a);
    }

    /** The storage task of an enqueue call runs. */
    method StorageTask(tok: nat, op: SmtpOp)
      requires Coupled() && SmtpEnabled(cfg, s, tok, op) && (op.Commit? || op.Refuse? || op.EnqueueError?)
      modifies this`enqueues, this`past, this`s, store
      ensures Coupled() && s == ApplySmtp(cfg, old(s), tok, op)
    {
      var e := enqueues[tok];
      var id := store.nextId;
      var outcome := if op.EnqueueError? then (if op.applied then ErrorApplied else ErrorUnapplied) else Done;
      var r := store.CommitEnqueue(e.message, clock, outcome);
      assert r.Ok? <==> op.Commit?;
      enqueues := if op.Commit? && !e.cancelled then enqueues[tok := Committed(e.message, r.value)]
                  else enqueues - {tok};
      Advance(Smtp(tok, op));
    }

    /** One session's step, carried out on the store. */
    method SessionStep(tok: nat, op: SmtpOp)
      requires Coupled() && SmtpEnabled(cfg, s, tok, op)
      modifies this`enqueues, this`past, this`s, store
      ensures Coupled() && s == ApplySmtp(cfg, old(s), tok, op) && s.worker == old(s.worker)
    {
      if op.Commit? || op.Refuse? || op.EnqueueError? {
        StorageTask(tok, op);
        return;
      }
      if op.CallEnqueue? {
        enqueues := enqueues[tok := Calling(op.message, false)];
      } else {
        var e := enqueues[tok];
        if op.NotifyOne? {
          store.NotifyOne();
          enqueues := enqueues[tok := Returned(e.message, e.id)];
        } else if op.Cancel? && e.Calling? {
          enqueues := enqueues[tok := Calling(e.message, true)];
        } else {
          enqueues := enqueues - {tok};
        }
      }
      Advance(Smtp(tok, op));
    }

    /** One step of the world outside the worker, if it is possible now. The death of the process
        is not such a step: it ends this object's life. */
    method OtherStep(a: Action)
      requires Coupled()
      modifies this`clock, this`shutdown, this`enqueues, this`past, this`s, store
      ensures Coupled() && s.worker == old(s.worker) && clock >= old(clock)
      ensures a == Env(RequestShutdown) ==> s == old(s).(shutdown := true)
    {
      match a
      case Env(Tick(to)) =>
        if to >= clock {
          clock := to;
          Advance(a);
        }
      case Env(RequestShutdown) =>
        shutdown := true;
        Advance(a);
      case Smtp(tok, op) =>
        var full := store.AtCap();
        assert full == IsFull(s.db, cfg.maxLen);
        if CanStep(tok, op, full) {
          SessionStep(tok, op);
        }
      case _ =>
    }

    /** Whether a session can take this step, judged from the process's own data. */
    predicate CanStep(tok: nat, op: SmtpOp, full: bool)
      reads this
    {
      if op.CallEnqueue? then tok !in enqueues && WellAddressed(op.message.to)
      else
        tok in enqueues &&
        var e := enqueues[tok];
        match op
        case Commit => e.Calling? && !full
        case Refuse => e.Calling? && full
        case EnqueueError(applied) => e.Calling? && (applied ==> !full)
        case NotifyOne => e.Committed?
        case Acknowledge => e.Returned?
        case _ => true
    }

    /** The worker awaits: everything else may run. */
    method Await() returns (turn: Turn)
      requires Coupled()
      modifies this`script, this`clock, this`shutdown, this`enqueues, this`past, this`s, store
      ensures Coupled() && s.worker == old(s.worker) && clock >= old(clock)
      ensures old(script) == [] ==> script == [] && s == old(s) && past == old(past) && turn == Turn([], Done, true)
      ensures old(script) != [] ==> |script| < |old(script)|
    {
      turn := Turn([], Done, true);
      if script != [] {
        turn := script[0];
        script := script[1..];
        for i := 0 to |turn.steps|
          invariant Coupled() && s.worker == old(s.worker) && |script| < |old(script)| && clock >= old(clock)
        {
          OtherStep(turn.steps[i]);
        }
      }
    }
  }

  // ---------------------------------------------------------------- the worker

  lemma HostFacts(cfg: Config, start: nat, past: seq<Action>, s: State)
    requires Reaches(cfg, start, past, s)
    ensures BaseInv(cfg, s) && AttemptsBounded(s.db.outbox, cfg.maxRetries) && Ordered(s.db.outbox)
  {
    ReachedInv(cfg, start, past, s);
  }

  lemma ConnectedWhen(cfg: Config, start: nat, past: seq<Action>, s: State)
    requires Reaches(cfg, start, past, s)
    ensures s.worker.Connecting? ==> !s.h.log.connected
    ensures !s.worker.Connecting? && !s.worker.Stopped? ==> s.h.log.connected
  {
    ReachedInv(cfg, start, past, s);
  }

  /** The attempts still owed to the messages in the outbox. */
  ghost function Owed(cfg: Config, rows: seq<Row>): nat {
    if AttemptsBounded(rows, cfg.maxRetries) then Potential(rows, cfg.maxRetries) else 0
  }

  /** What one delivery does when storage behaves and nothing else happens meanwhile. */
  ghost predicate QuietDelivery(cfg: Config, s: State, t: State, stored: StoredMessage, now: nat) {
    && t.clock == s.clock && t.shutdown == s.shutdown
    && t.h.calls == s.h.calls + [CallFor(s.h, stored)]
    && Owed(cfg, t.db.outbox) < Owed(cfg, s.db.outbox)
    && Due(t.db.outbox, now) == RemoveRow(Due(s.db.outbox, now), stored.id)
  }

  lemma SettlingLeavesDue(before: seq<Row>, held: Row, at: int, after: seq<Row>, maxRetries: nat, now: int)
    requires Settles(before, held, at, after, maxRetries)
    requires at > now || after == RemoveRow(before, held.id)
    ensures Due(after, now) == RemoveRow(Due(before, now), held.id)
  {
    if after == RemoveRow(before, held.id) {
      DueRemove(before, held.id, now);
    } else {
      DueUpdate(before, held.id, held.attempts + 1, at, now);
    }
  }

  /** Recording an outcome takes the held row off those due. */
  lemma RecordLeavesDue(cfg: Config, s: State, now: nat)
    requires BaseInv(cfg, s) && (s.worker.Marking? || s.worker.Failing?)
    requires s.worker.Failing? ==> now == s.worker.now
    ensures Due(RecordOutcome(cfg, s, Done).db.outbox, now) == RemoveRow(Due(s.db.outbox, now), s.worker.stored.id)
  {
    var held, at := RecordedRows(cfg, s, Done);
    SettlingLeavesDue(s.db.outbox, held, at, RecordOutcome(cfg, s, Done).db.outbox, cfg.maxRetries, now);
  }

  lemma RecordIsQuiet(cfg: Config, start: nat, past: seq<Action>, s: State, now: nat)
    requires Reaches(cfg, start, past, s) && (s.worker.Marking? || s.worker.Failing?)
    requires s.worker.Failing? ==> now == s.worker.now
    ensures QuietRecord(cfg, s, RecordOutcome(cfg, s, Done), now)
  {
    HostFacts(cfg, start, past, s);
    RecordLeavesDue(cfg, s, now);
    RecordSpends(cfg, s, Done);
  }

  ghost predicate QuietRecord(cfg: Config, s: State, t: State, now: nat)
    requires Holds(s.worker)
  {
    && Owed(cfg, t.db.outbox) < Owed(cfg, s.db.outbox)
    && Due(t.db.outbox, now) == RemoveRow(Due(s.db.outbox, now), s.worker.stored.id)
  }

  /** The row is due `retry_backoff * 2^attempts` seconds after its claim, at most 900, with one
      failure more on record. */
  ghost predicate PutOff(cfg: Config, rows: seq<Row>, stored: StoredMessage, claimed: nat) {
    exists row :: row in rows && row.id == stored.id && RowMessage(row) == stored.message
      && row.attempts == stored.attempts + 1
      && row.nextAttemptAt == claimed + Min(cfg.retryBackoff * Pow2(stored.attempts), 900)
  }

  /** The row has become the last dead letter, with its own message, count and time of commit, the
      time it failed and the error. */
  ghost predicate Interred(db: Db, log: Log, stored: StoredMessage, error: string, failedAt: nat) {
    && (forall row :: row in db.outbox ==> row.id != stored.id)
    && stored.id in log.created && |db.dead| > 0
    && var dead := db.dead[|db.dead| - 1];
       && DeadMessage(dead) == stored.message && dead.attempts == stored.attempts
       && dead.createdAt == log.created[stored.id] && dead.failedAt == failedAt && dead.lastError == error
  }

  lemma FailureRecorded(cfg: Config, start: nat, past: seq<Action>, s: State, outcome: Outcome)
    requires Reaches(cfg, start, past, s) && s.worker.Failing?
    ensures
      var w, t := s.worker, RecordOutcome(cfg, s, outcome);
      if outcome.ErrorUnapplied? then exists row :: row in t.db.outbox && Stored(row) == w.stored
      else if w.stored.attempts < cfg.maxRetries then PutOff(cfg, t.db.outbox, w.stored, w.now)
      else Interred(t.db, t.h.log, w.stored, w.error, s.clock)
  {
    if outcome.ErrorUnapplied? {
      ReachedInv(cfg, start, past, s);
      assert HeldRow(s) in s.db.outbox;
    } else if s.worker.stored.attempts < cfg.maxRetries {
      RetryDelayed(cfg, start, past, s, outcome);
    } else {
      Buried(cfg, start, past, s, outcome);
      BuriedStamp(cfg, start, past, s, outcome);
    }
  }

  lemma BuriedStamp(cfg: Config, start: nat, past: seq<Action>, s: State, outcome: Outcome)
    requires Reaches(cfg, start, past, s) && s.worker.Failing? && !outcome.ErrorUnapplied?
    ensures RecordOutcome(cfg, s, outcome).h.log.created == s.h.log.created
    ensures forall row :: row in s.db.outbox ==>
              row.id in s.h.log.created && row.createdAt == s.h.log.created[row.id]
  {
    forall row | row in s.db.outbox
      ensures row.id in s.h.log.created && row.createdAt == s.h.log.created[row.id]
    {
      RowStanding(cfg, start, past, s, row);
    }
  }

  /** Recording a failed call changes the tables and the history and nothing else. */
  lemma FailureFrame(cfg: Config, s: State, outcome: Outcome)
    requires s.worker.Failing?
    ensures
      var w, t := s.worker, RecordOutcome(cfg, s, outcome);
      && t.worker == Top && t.clock == s.clock && t.permit == s.permit && t.shutdown == s.shutdown
      && t.enqueues == s.enqueues && t.h.calls == s.h.calls
      && t.db == if outcome.ErrorUnapplied? then s.db
                 else AfterFailure(cfg, s.db, w.stored, w.now, w.error, s.clock)
  {
  }

  ghost function CallIds(calls: seq<Call>): seq<nat> {
    seq(|calls|, i requires 0 <= i < |calls| => calls[i].id)
  }

  ghost function RowIds(rows: seq<Row>): seq<nat> {
    seq(|rows|, i requires 0 <= i < |rows| => rows[i].id)
  }

  /** The work order of the reached tables, whose ids are in order. */
  ghost function WorkOrderOf(rows: seq<Row>, now: int): seq<Row> {
    if Ordered(rows) then WorkOrder(rows, now) else []
  }

  lemma SameLength(a: seq<Call>, b: seq<Call>, rows: seq<Row>)
    requires CallIds(a) == CallIds(b) + RowIds(rows)
    ensures |a| == |b| + |rows|
  {
    assert |CallIds(a)| == |a| && |CallIds(b)| == |b| && |RowIds(rows)| == |rows|;
  }

  lemma IdsAppend(calls: seq<Call>, call: Call, first: Row, rest: seq<Row>)
    requires call.id == first.id
    ensures CallIds(calls + [call]) + RowIds(rest) == CallIds(calls) + RowIds([first] + rest)
  {
    assert CallIds(calls + [call]) == CallIds(calls) + [call.id];
    assert RowIds([first] + rest) == [first.id] + RowIds(rest);
  }

  class DeliveryWorker {
    const host: Host
    const store: MessageStore

    ghost predicate Ready()
      reads host, host.store
    {
      host.store == store && host.Coupled()
    }

    constructor (host: Host)
      ensures this.host == host && this.store == host.store
    {
      this.host, this.store := host, host.store;
    }

    /** The statement that follows a failed call. */
    method RecordFailure(stored: StoredMessage, now: nat, error: string, outcome: Outcome)
      requires Ready() && host.s.worker == Failing(stored, now, error)
      modifies host`past, host`s, store
      ensures Ready() && host.s == RecordOutcome(host.cfg, old(host.s), outcome)
    {
      FailureFrame(host.cfg, host.s, outcome);
      var attempts := stored.attempts + 1;
      if attempts > host.cfg.maxRetries {
        var ok := store.MoveToDeadLetter(stored.id, error, host.clock, outcome);
      } else {
        var backoff := BackoffSeconds(host.cfg.retryBackoff, attempts, MAX_BACKOFF_SECONDS);
        var ok := store.RescheduleRow(stored.id, attempts, now + backoff, outcome);
      }
      host.Advance(Work(Record(outcome)));
    }

    /** After a failed call: dead-letter the message or put it off. When the statement takes effect,
        a row below the limit is due again after a delay that doubles with every failure, and one at
        the limit is a dead letter; when it does not, the row is as it was. */
    method HandleFailure(stored: StoredMessage, now: nat, error: string) returns (ghost applied: bool)
      requires Ready() && host.s.worker == Failing(stored, now, error)
      modifies host, store
      ensures Ready() && host.s.worker == Top
      ensures host.callsMade == old(host.callsMade)
      ensures old(host.script) != [] ==> |host.script| < |old(host.script)|
      ensures old(host.script) == [] ==>
                applied && host.script == [] && host.s == RecordOutcome(host.cfg, old(host.s), Done)
      ensures !applied ==> exists row :: row in store.outbox && Stored(row) == stored
      ensures applied && stored.attempts < host.cfg.maxRetries ==> PutOff(host.cfg, store.outbox, stored, now)
      ensures applied && stored.attempts >= host.cfg.maxRetries ==>
                Interred(store.Tables(), host.s.h.log, stored, error, host.clock)
    {
      var turn := host.Await();
      applied := turn.outcome != ErrorUnapplied;
      FailureRecorded(host.cfg, host.start, host.past, host.s, turn.outcome);
      FailureFrame(host.cfg, host.s, turn.outcome);
      RecordFailure(stored, now, error, turn.outcome);
    }

    /** The sink does with the call what it does, then answers. */
    method Answered(stored: StoredMessage, now: nat, answer: Answer)
      requires Ready() && host.s.worker == Delivering(stored, now)
      modifies host
      ensures Ready() && host.script == old(host.script) && host.callsMade == old(host.callsMade)
      ensures host.s.worker == if answer.ok then Marking(stored) else Failing(stored, now, answer.error)
      ensures host.s.db == old(host.s.db) && host.s.h.calls == old(host.s.h.calls)
      ensures host.s.clock == old(host.s.clock) && host.s.shutdown == old(host.s.shutdown)
    {
      if answer.applied {
        host.Advance(Work(SinkApplies));
      }
      host.Advance(Work(SinkAnswers(answer.ok, answer.error)));
    }

    /** Call the sink; its answer decides what is to be recorded. */
    method CallSink(stored: StoredMessage, now: nat) returns (answer: Answer)
      requires Ready() && host.s.worker == Claimed(stored, now)
      modifies host, store
      ensures Ready()
      ensures host.s.worker == if answer.ok then Marking(stored) else Failing(stored, now, answer.error)
      ensures host.callsMade == old(host.callsMade) + 1
      ensures answer == host.sink(old(host.callsMade), stored.message, "chimney-post-" + Decimal(stored.id))
      ensures old(host.script) != [] ==> |host.script| < |old(host.script)|
      ensures old(host.script) == [] ==>
                && host.script == [] && host.s.db == old(host.s.db)
                && host.s.clock == old(host.s.clock) && host.s.shutdown == old(host.s.shutdown)
                && host.s.h.calls == old(host.s.h.calls) + [CallFor(old(host.s.h), stored)]
    {
      answer := host.sink(host.callsMade, stored.message, Key(stored.id));
      host.callsMade := host.callsMade + 1;
      host.Advance(Work(StartDeliver));
      var turn := host.Await();
      Answered(stored, now, answer);
    }

    /** Remove a delivered message. */
    method RecordDelivered(stored: StoredMessage)
      requires Ready() && host.s.worker == Marking(stored)
      modifies host, store
      ensures Ready() && host.s.worker == Top
      ensures host.callsMade == old(host.callsMade)
      ensures old(host.script) != [] ==> |host.script| < |old(host.script)|
      ensures old(host.script) == [] ==>
                host.script == [] && host.s == RecordOutcome(host.cfg, old(host.s), Done)
    {
      var turn := host.Await();
      var ok := store.MarkDelivered(stored.id, turn.outcome);
      host.Advance(Work(Record(turn.outcome)));
    }

    /** Hand one claimed message to the sink and settle it. */
    method DeliverOne(stored: StoredMessage, now: nat)
      requires Ready() && host.s.worker == Claimed(stored, now)
      modifies host, store
      ensures Ready() && host.s.worker == Top
      ensures host.callsMade == old(host.callsMade) + 1
      ensures old(host.script) != [] ==> |host.script| < |old(host.script)|
      ensures old(host.script) == [] ==>
                host.script == [] && QuietDelivery(host.cfg, old(host.s), host.s, stored, now)
    {
      var answer := CallSink(stored, now);
      RecordIsQuiet(host.cfg, host.start, host.past, host.s, now);
      if answer.ok {
        RecordDelivered(stored);
      } else {
        ghost var applied := HandleFailure(stored, now, answer.error);
      }
    }

    /** How long to idle when nothing is due. */
    method IdleWait(now: nat) returns (wait: Wait)
      requires Ready() && host.s.worker == Waking(now)
      modifies host, store
      ensures Ready() && host.s.worker == Resting(now, wait)
      ensures host.callsMade == old(host.callsMade)
      ensures old(host.script) != [] ==> |host.script| < |old(host.script)|
      ensures old(host.script) == [] ==>
                host.script == [] && host.s == old(host.s).(worker := Resting(now, wait)) && WaitSeconds(wait, now) > 0
      ensures match wait
              case Until(at) => at > now && WaitSeconds(wait, now) == at - now
              case Nothing => WaitSeconds(wait, now) == 3600
              case Unknown => WaitSeconds(wait, now) == 5
    {
      var turn := host.Await();
      var at := store.NextWakeupAt(now, turn.outcome);
      wait := match at
              case Ok(Some(t)) => Until(t)
              case Ok(None) => Nothing
              case Err(_) => Unknown;
      host.Advance(Work(QueryWakeup(at.Err?)));
    }

    /** Sleep until `deadline`, a shutdown request or, when listening, a stored permit. With the
        script at its end the sleep is ended by a shutdown request. */
    method Sleep(deadline: nat, listening: bool)
      requires Ready()
      modifies host, store
      ensures Ready() && host.s.worker == old(host.s.worker) && host.clock >= old(host.clock)
      ensures host.clock >= deadline || host.shutdown || (listening && store.permit)
      ensures host.callsMade == old(host.callsMade)
      ensures |host.script| <= |old(host.script)|
      ensures old(host.script) == [] ==> host.s == old(host.s) || host.s == old(host.s).(shutdown := true)
    {
      while !(host.clock >= deadline || host.shutdown || (listening && store.permit))
        invariant Ready() && host.s.worker == old(host.s.worker) && host.clock >= old(host.clock)
        invariant host.callsMade == old(host.callsMade) && |host.script| <= |old(host.script)|
        invariant old(host.script) == [] ==> host.s == old(host.s) || host.s == old(host.s).(shutdown := true)
        decreases |host.script|, if host.shutdown then 0 else 1
      {
        if host.script == [] {
          host.OtherStep(Env(RequestShutdown));
        } else {
          var turn := host.Await();
        }
      }
    }

    /** Fall asleep after an empty claim. */
    method GoToSleep(now: nat) returns (deadline: nat)
      requires Ready() && host.s.worker == Drained(now) && !host.shutdown
      modifies host, store
      ensures Ready() && host.s.worker.Parked? && host.s.worker.now == now
      ensures deadline == host.s.worker.start + WaitSeconds(host.s.worker.wait, now)
      ensures host.callsMade == old(host.callsMade)
      ensures old(host.script) != [] ==> |host.script| < |old(host.script)|
      ensures old(host.script) == [] ==>
                host.script == [] && deadline > host.clock
                && host.s == old(host.s).(worker := host.s.worker)
    {
      host.Advance(Work(StayIdle));
      var wait := IdleWait(now);
      deadline := host.clock + WaitSeconds(wait, now);
      host.Advance(Work(Park));
    }

    /** Idle after an empty claim, then look again. */
    method Idle(now: nat)
      requires Ready() && host.s.worker == Drained(now) && !host.shutdown
      modifies host, store
      ensures Ready() && host.s.worker == Top
      ensures host.callsMade == old(host.callsMade)
      ensures old(host.script) != [] ==> |host.script| < |old(host.script)|
      ensures old(host.script) == [] ==>
                host.script == [] && host.s.db == old(host.s.db)
                && (if host.s.permit == old(host.s.permit) then host.s.shutdown else !host.s.permit)
    {
      var deadline := GoToSleep(now);
      Sleep(deadline, true);
      if
      case store.permit =>
        store.TakePermit();
        host.Advance(Work(WakeByPermit));
      case host.clock >= deadline => host.Advance(Work(WakeByTimer));
      case host.shutdown => host.Advance(Work(WakeByShutdown));
    }

    /** After a failed claim: wait a little, or stop if asked to. */
    method RetryLater()
      requires Ready() && host.s.worker.StorageRetry? && host.s.worker.start == host.clock
      modifies host, store
      ensures Ready() && host.callsMade == old(host.callsMade) && |host.script| <= |old(host.script)|
      ensures host.s.worker == if host.shutdown then Stopped else Top
      ensures host.shutdown || host.clock >= old(host.clock) + 5
      ensures host.s.h.log.connected
    {
      Sleep(host.clock + STORAGE_ERROR_BACKOFF, false);
      ConnectedWhen(host.cfg, host.start, host.past, host.s);
      host.Advance(Work(RetryStorage));
    }

    /** Look at the clock and claim: the worker ends up holding a message, drained, or retrying. */
    method ClaimNext() returns (now: nat, claimed: Result<Option<StoredMessage>, StoreError>)
      requires Ready() && host.s.worker == Top
      modifies host, store
      ensures Ready() && host.callsMade == old(host.callsMade)
      ensures old(host.script) != [] ==> |host.script| < |old(host.script)|
      ensures match claimed
              case Ok(Some(stored)) => host.s.worker == Claimed(stored, now)
              case Ok(None) => host.s.worker == Drained(now)
              case Err(_) => host.s.worker == StorageRetry(host.clock) && old(host.script) != []
      ensures old(host.script) == [] ==>
                && host.script == [] && now == host.clock && host.s == old(host.s).(worker := host.s.worker)
                && claimed == Ok(match Earliest(host.s.db.outbox, now)
                                 case Some(row) => Some(Stored(row))
                                 case None => None)
    {
      now := host.clock;
      host.Advance(Work(ReadClock));
      var turn := host.Await();
      claimed := store.ClaimNextReady(now, turn.outcome);
      host.Advance(Work(if claimed.Ok? then Claim else ClaimError));
    }

    ghost predicate DrainsFrom(rows: seq<Row>, calls: seq<Call>, clock: nat)
      reads host
    {
      && Ordered(rows) && Ordered(host.s.db.outbox)
      && host.script == [] && host.shutdown && host.s.shutdown && host.clock == clock && host.s.clock == clock
      && CallIds(host.s.h.calls) + RowIds(WorkOrder(host.s.db.outbox, clock))
         == CallIds(calls) + RowIds(WorkOrder(rows, clock))
    }

    /** The loop: claim, deliver, idle, until shut down with nothing due. When it starts shut
        down in a quiet process, it calls the sink for exactly the rows due at the start, once
        each, by due time and then id, whatever the sink answers, and leaves only rows that lie
        in the future. */
    method Run()
      requires Ready() && host.s.worker == Top
      modifies host, store
      ensures Ready() && host.s.worker == Stopped && host.shutdown && host.s.h.log.connected
      ensures old(host.script == [] && host.shutdown) ==>
                && CallIds(host.s.h.calls)
                   == old(CallIds(host.s.h.calls) + RowIds(WorkOrderOf(host.s.db.outbox, host.clock)))
                && host.callsMade == old(host.callsMade + |WorkOrderOf(host.s.db.outbox, host.clock)|)
                && (forall row :: row in store.outbox ==> row.nextAttemptAt > host.clock)
                && host.clock == old(host.clock)
    {
      HostFacts(host.cfg, host.start, host.past, host.s);
      ghost var quiet := host.script == [] && host.shutdown;
      ghost var rows, calls, clock := host.s.db.outbox, host.s.h.calls, host.clock;
      while true
        invariant Ready() && host.s.worker == Top
        invariant quiet ==> DrainsFrom(rows, calls, clock)
        decreases |host.script|, Owed(host.cfg, host.s.db.outbox),
                  if host.s.permit then 1 else 0, if host.s.shutdown then 0 else 1
      {
        ghost var before := host.s;
        var now, claimed := ClaimNext();
        match claimed {
          case Ok(Some(stored)) =>
            DeliverOne(stored, now);
            HostFacts(host.cfg, host.start, host.past, host.s);
            if quiet {
              WorkOrderNext(before.db.outbox, host.s.db.outbox, now);
              IdsAppend(before.h.calls, CallFor(before.h, stored), Earliest(before.db.outbox, now).value,
                        WorkOrder(host.s.db.outbox, now));
            }
          case Ok(None) =>
            if host.shutdown {
              if quiet {
                assert WorkOrder(host.s.db.outbox, clock) == [];
                SameLength(host.s.h.calls, calls, WorkOrder(rows, clock));
              }
              ConnectedWhen(host.cfg, host.start, host.past, host.s);
              host.Advance(Work(FinishDrain));
              return;
            }
            Idle(now);
          case Err(_) =>
            RetryLater();
            if host.shutdown {
              return;
            }
        }
      }
    }

    /** The sink is connected: run. */
    method RunConnected()
      requires Ready() && host.s.worker == Connecting
      modifies host, store
      ensures Ready() && host.s.worker == Stopped && host.shutdown && host.s.h.log.connected
    {
      host.Advance(Work(Connect));
      Run();
    }

    /** It never was: nothing has been sent in this lifetime. */
    method StopUnconnected()
      requires Ready() && host.s.worker == Connecting && host.shutdown
      modifies host`past, host`s
      ensures Ready() && host.s.worker == Stopped && !host.s.h.log.connected
    {
      ConnectedWhen(host.cfg, host.start, host.past, host.s);
      host.Advance(Work(GiveUp));
    }

    /** Connect the sink, retrying the first connect until it succeeds or shutdown is asked for,
        then run. `attempts` tells when each connect ended and how: only the last can have succeeded,
        each begins `reconnectBackoff` or more behind the one before, the sink is connected if and
        only if the last succeeded, and then the worker runs; else nothing is sent. */
    method RunWithReconnect(reconnectBackoff: nat) returns (ghost attempts: seq<Attempt>)
      requires Ready() && host.s.worker == Connecting
      modifies host, store
      ensures Ready() && host.s.worker == Stopped && host.shutdown
      ensures Spaced(attempts, reconnectBackoff)
      ensures forall k :: 0 <= k < |attempts| - 1 ==> !attempts[k].ok
      ensures host.s.h.log.connected <==> attempts != [] && attempts[|attempts| - 1].ok
      ensures !host.s.h.log.connected ==> host.callsMade == old(host.callsMade)
      ensures old(host.shutdown) ==> attempts == []
      ensures old(host.script == [] && !host.shutdown) ==> |attempts| == 1 && attempts[0].ok
    {
      attempts := [];
      while true
        invariant Ready() && host.s.worker == Connecting && host.callsMade == old(host.callsMade)
        invariant Spaced(attempts, reconnectBackoff) && AllFailed(attempts)
        invariant MayConnect(attempts, reconnectBackoff, host.clock, host.shutdown)
        invariant if attempts == [] then host.shutdown == old(host.shutdown) && host.script == old(host.script)
                  else old(host.script) != [] && !old(host.shutdown)
        decreases |host.script|
      {
        if host.shutdown {
          StopUnconnected();
          return;
        }
        ghost var began := host.clock;
        var turn := host.Await();
        ConnectedNext(attempts, reconnectBackoff, Attempt(began, host.clock, turn.connects));
        attempts := attempts + [Attempt(began, host.clock, turn.connects)];
        if turn.connects {
          RunConnected();
          return;
        }
        Sleep(host.clock + reconnectBackoff, false);
      }
    }
  }
}
