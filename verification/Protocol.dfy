/** The outbox protocol as a step relation: SMTP sessions that commit, notify and acknowledge,
    one delivery worker, an adversarial sink and clock, failing storage, cancellation and crashes. */
module Protocol {
  import opened Results
  import opened Recipients
  import opened Outbox
  import opened Backoff
  import opened Numerals

  datatype Config = Config(maxRetries: nat, retryBackoff: nat, maxLen: nat)

  /** What configuration loading guarantees, and the width of the attempt counter. */
  predicate ValidConfig(cfg: Config) {
    1 <= cfg.retryBackoff <= U64_MAX && cfg.maxRetries < 0xFFFF_FFFF
  }

  const IDLE_SLEEP: nat := 3600
  const STORAGE_ERROR_BACKOFF: nat := 5

  function Key(id: nat): string {
    "chimney-post-" + Decimal(id)
  }

  /** How one call of `enqueue` stands. A cancelled call whose storage task was already
      handed over may still commit. */
  datatype Enqueue =
    | Calling(message: Message, cancelled: bool)
    | Committed(message: Message, id: nat)
    | Returned(message: Message, id: nat)

  /** What `idle_wait` learned: the next due time, that there is none, or a storage error. */
  datatype Wait = Until(at: int) | Nothing | Unknown

  datatype Worker =
    | Connecting
    | Top
    | Claiming(now: nat)
    | Claimed(stored: StoredMessage, now: nat)
    | Delivering(stored: StoredMessage, now: nat)
    | Marking(stored: StoredMessage)
    | Failing(stored: StoredMessage, now: nat, error: string)
    | Drained(now: nat)
    | Waking(now: nat)
    | Resting(now: nat, wait: Wait)
    | Parked(now: nat, wait: Wait, start: nat)
    | StorageRetry(start: nat)
    | Stopped

  /** The worker holds a claimed message. */
  predicate Holds(w: Worker) {
    w.Claimed? || w.Delivering? || w.Marking? || w.Failing?
  }

  /** A deliver call has been made and its outcome is not yet recorded. */
  predicate Busy(w: Worker) {
    w.Delivering? || w.Marking? || w.Failing?
  }

  /** The worker found nothing due at `w.now` and has not looked again since. */
  predicate IsIdle(w: Worker) {
    w.Drained? || w.Waking? || w.Resting? || w.Parked?
  }

  function WaitSeconds(wait: Wait, now: nat): nat {
    match wait
    case Until(at) => if at - now > 0 then at - now else 0
    case Nothing => IDLE_SLEEP
    case Unknown => STORAGE_ERROR_BACKOFF
  }

  datatype Call = Call(id: nat, message: Message, key: string, lifetime: nat)

  /** The call made for a claimed message: the key depends on the row id alone. */
  function CallFor(h: History, stored: StoredMessage): Call {
    Call(stored.id, stored.message, Key(stored.id), h.lifetime)
  }

  /** One appearance of a message at the sink's far side. */
  datatype Showing = Showing(lifetime: nat, key: string, id: nat, message: Message)

  /** A reschedule that took effect: the row, its new count, when it was claimed, when it is due. */
  datatype Retry = Retry(id: nat, attempts: nat, claimed: nat, due: nat)

  /** When rows were committed, what the last failed call of each returned, the reschedules in
      order, and whether the sink was connected in this lifetime. */
  datatype Log = Log(created: map<nat, nat>, errors: map<nat, string>, retries: seq<Retry>, connected: bool)

  /** What happened so far; no step reads it except the sink's own record of keys. */
  datatype History = History(
    accepted: map<nat, Message>,  // every committed row, by id
    returned: set<nat>,           // ids whose enqueue returned Ok
    acked: map<nat, Message>,     // what sessions answered 250 for, by the returned id
    calls: seq<Call>,             // deliver calls, in order
    delivered: set<nat>,          // ids some deliver call returned Ok for
    failed: multiset<nat>,        // deliver calls that returned an error
    wasted: multiset<nat>,        // deliver calls whose outcome was never recorded
    origins: seq<nat>,            // outbox id of each dead_letter row
    lifetime: nat,                // number of restarts
    shown: seq<Showing>,
    log: Log)

  datatype State = State(db: Db, clock: nat, permit: bool, shutdown: bool, worker: Worker,
                         enqueues: map<nat, Enqueue>, h: History)

  /** How a storage statement ends; a reported error leaves open whether it took effect. */
  datatype Outcome = Done | ErrorApplied | ErrorUnapplied

  datatype EnvOp = Tick(to: nat) | RequestShutdown | Crash

  /** Steps of one enqueue call and of the session waiting for it. */
  datatype SmtpOp =
    | CallEnqueue(message: Message)
    | Commit
    | Refuse
    | EnqueueError(applied: bool)
    | NotifyOne
    | Acknowledge
    | Cancel

  datatype WorkOp =
    | Connect
    | GiveUp
    | ReadClock
    | Claim
    | ClaimError
    | StartDeliver
    | SinkApplies
    | SinkAnswers(ok: bool, error: string)
    | Record(outcome: Outcome)
    | FinishDrain
    | StayIdle
    | QueryWakeup(fails: bool)
    | Park
    | WakeByPermit
    | WakeByTimer
    | WakeByShutdown
    | RetryStorage

  datatype Action = Env(env: EnvOp) | Smtp(tok: nat, smtp: SmtpOp) | Work(work: WorkOp)

  function InitialState(clock: nat): State {
    State(EMPTY_DB, clock, false, false, Connecting, map[],
          History(map[], {}, map[], [], {}, multiset{}, multiset{}, [], 0, [],
                  Log(map[], map[], [], false)))
  }

  predicate SmtpEnabled(cfg: Config, s: State, tok: nat, op: SmtpOp) {
    if op.CallEnqueue? then tok !in s.enqueues && WellAddressed(op.message.to)
    else
      tok in s.enqueues &&
      var e := s.enqueues[tok];
      match op
      case Commit => e.Calling? && !IsFull(s.db, cfg.maxLen)
      case Refuse => e.Calling? && IsFull(s.db, cfg.maxLen)
      case EnqueueError(applied) => e.Calling? && (applied ==> !IsFull(s.db, cfg.maxLen))
      case NotifyOne => e.Committed?
      case Acknowledge => e.Returned?
      case _ => true
  }

  predicate WorkEnabled(s: State, op: WorkOp) {
    var w := s.worker;
    match op
    case Connect => w.Connecting?
    case GiveUp => w.Connecting? && s.shutdown
    case ReadClock => w.Top?
    case Claim => w.Claiming?
    case ClaimError => w.Claiming?
    case StartDeliver => w.Claimed?
    case SinkApplies => w.Delivering?
    case SinkAnswers(_, _) => w.Delivering?
    case Record(_) => w.Marking? || w.Failing?
    case FinishDrain => w.Drained? && s.shutdown
    case StayIdle => w.Drained? && !s.shutdown
    case QueryWakeup(_) => w.Waking?
    case Park => w.Resting?
    case WakeByPermit => w.Parked? && s.permit
    case WakeByTimer => w.Parked? && s.clock >= w.start + WaitSeconds(w.wait, w.now)
    case WakeByShutdown => w.Parked? && s.shutdown
    case RetryStorage => w.StorageRetry? && (s.clock >= w.start + STORAGE_ERROR_BACKOFF || s.shutdown)
  }

  predicate Enabled(cfg: Config, s: State, a: Action) {
    match a
    case Env(env) => env.Tick? ==> env.to >= s.clock
    case Smtp(tok, op) => SmtpEnabled(cfg, s, tok, op)
    case Work(op) => WorkEnabled(s, op)
  }

  /** The row a session's call adds, remembered under its id. */
  function CommitRow(s: State, m: Message): State {
    s.(db := Insert(s.db, m, s.clock),
       h := s.h.(accepted := s.h.accepted[s.db.nextId := m],
                 log := s.h.log.(created := s.h.log.created[s.db.nextId := s.clock])))
  }

  function RetryAt(cfg: Config, attempts: nat, now: nat): nat {
    now + BackoffSeconds(cfg.retryBackoff, attempts, MAX_BACKOFF_SECONDS)
  }

  /** The retry or the dead letter that follows a failed deliver call. */
  function AfterFailure(cfg: Config, db: Db, stored: StoredMessage, now: nat, error: string, clock: nat): Db {
    var attempts := stored.attempts + 1;
    if attempts > cfg.maxRetries then DeadLetter(db, stored.id, error, clock)
    else Outbox.Reschedule(db, stored.id, attempts, RetryAt(cfg, attempts, now))
  }

  function RecordOutcome(cfg: Config, s: State, outcome: Outcome): State
    requires s.worker.Marking? || s.worker.Failing?
  {
    var w := s.worker;
    if outcome.ErrorUnapplied? then
      s.(worker := Top, h := s.h.(wasted := s.h.wasted + multiset{w.stored.id}))
    else if w.Marking? then
      s.(worker := Top, db := Delete(s.db, w.stored.id))
    else
      var attempts := w.stored.attempts + 1;
      var t := s.(worker := Top, db := AfterFailure(cfg, s.db, w.stored, w.now, w.error, s.clock));
      if attempts <= cfg.maxRetries then
        var retry := Retry(w.stored.id, attempts, w.now, RetryAt(cfg, attempts, w.now));
        t.(h := s.h.(log := s.h.log.(retries := s.h.log.retries + [retry])))
      else if Lookup(s.db.outbox, w.stored.id).Some? then
        t.(h := s.h.(origins := s.h.origins + [w.stored.id]))
      else t
  }

  /** A sink that drops a repeated key within one process lifetime. */
  function Show(h: History, stored: StoredMessage): History {
    if exists x :: x in h.shown && x.lifetime == h.lifetime && x.key == Key(stored.id) then h
    else h.(shown := h.shown + [Showing(h.lifetime, Key(stored.id), stored.id, stored.message)])
  }

  function ApplyEnv(s: State, op: EnvOp): State {
    match op
    case Tick(to) => s.(clock := to)
    case RequestShutdown => s.(shutdown := true)
    case Crash =>
      var w := s.worker;
      s.(permit := false, shutdown := false, worker := Connecting, enqueues := map[],
         h := s.h.(lifetime := s.h.lifetime + 1, log := s.h.log.(connected := false),
                   wasted := if Busy(w) then s.h.wasted + multiset{w.stored.id} else s.h.wasted))
  }

  function ApplySmtp(cfg: Config, s: State, tok: nat, op: SmtpOp): State
    requires SmtpEnabled(cfg, s, tok, op)
  {
    if op.CallEnqueue? then s.(enqueues := s.enqueues[tok := Calling(op.message, false)])
    else
      var e := s.enqueues[tok];
      var without := s.enqueues - {tok};
      match op
      case Commit =>
        CommitRow(s, e.message).(enqueues :=
          if e.cancelled then without else s.enqueues[tok := Committed(e.message, s.db.nextId)])
      case EnqueueError(applied) =>
        (if applied then CommitRow(s, e.message) else s).(enqueues := without)
      case NotifyOne =>
        s.(permit := true, enqueues := s.enqueues[tok := Returned(e.message, e.id)],
           h := s.h.(returned := s.h.returned + {e.id}))
      case Acknowledge =>
        s.(enqueues := without, h := s.h.(acked := s.h.acked[e.id := e.message]))
      case Cancel =>
        s.(enqueues := if e.Calling? then s.enqueues[tok := Calling(e.message, true)] else without)
      case _ => s.(enqueues := without)
  }

  function ApplyWork(cfg: Config, s: State, op: WorkOp): State
    requires WorkEnabled(s, op)
  {
    var w := s.worker;
    match op
    case Connect => s.(worker := Top, h := s.h.(log := s.h.log.(connected := true)))
    case GiveUp => s.(worker := Stopped)
    case ReadClock => s.(worker := Claiming(s.clock))
    case Claim =>
      (match Earliest(s.db.outbox, w.now)
       case Some(row) => s.(worker := Claimed(Stored(row), w.now))
       case None => s.(worker := Drained(w.now)))
    case ClaimError => s.(worker := StorageRetry(s.clock))
    case StartDeliver =>
      s.(worker := Delivering(w.stored, w.now),
         h := s.h.(calls := s.h.calls + [CallFor(s.h, w.stored)]))
    case SinkApplies => s.(h := Show(s.h, w.stored))
    case SinkAnswers(ok, error) =>
      if ok then
        s.(worker := Marking(w.stored), h := s.h.(delivered := s.h.delivered + {w.stored.id}))
      else
        s.(worker := Failing(w.stored, w.now, error),
           h := s.h.(failed := s.h.failed + multiset{w.stored.id},
                     log := s.h.log.(errors := s.h.log.errors[w.stored.id := error])))
    case Record(outcome) => RecordOutcome(cfg, s, outcome)
    case FinishDrain => s.(worker := Stopped)
    case StayIdle => s.(worker := Waking(w.now))
    case QueryWakeup(fails) =>
      s.(worker := Resting(w.now,
        if fails then Unknown
        else match NextWakeup(s.db.outbox, w.now) case Some(at) => Until(at) case None => Nothing))
    case Park => s.(worker := Parked(w.now, w.wait, s.clock))
    case WakeByPermit => s.(worker := Top, permit := false)
    case WakeByTimer => s.(worker := Top)
    case WakeByShutdown => s.(worker := Top)
    case RetryStorage => s.(worker := if s.shutdown then Stopped else Top)
  }

  function Apply(cfg: Config, s: State, a: Action): State
    requires Enabled(cfg, s, a)
  {
    match a
    case Env(op) => ApplyEnv(s, op)
    case Smtp(tok, op) => ApplySmtp(cfg, s, tok, op)
    case Work(op) => ApplyWork(cfg, s, op)
  }

  // ---------------------------------------------------------------- runs

  /** A schedule whose every step is possible; the states it passes through are where its
      prefixes end. */
  predicate Runnable(cfg: Config, s: State, run: seq<Action>)
    decreases |run|
  {
    run == [] || (Enabled(cfg, s, run[0]) && Runnable(cfg, Apply(cfg, s, run[0]), run[1..]))
  }

  function Exec(cfg: Config, s: State, run: seq<Action>): State
    requires Runnable(cfg, s, run)
    decreases |run|
  {
    if run == [] then s else Exec(cfg, Apply(cfg, s, run[0]), run[1..])
  }

  lemma {:induction false} ExecSnoc(cfg: Config, s: State, run: seq<Action>, a: Action)
    requires Runnable(cfg, s, run) && Enabled(cfg, Exec(cfg, s, run), a)
    ensures Runnable(cfg, s, run + [a])
    ensures Exec(cfg, s, run + [a]) == Apply(cfg, Exec(cfg, s, run), a)
    decreases |run|
  {
    if run == [] {
      assert run + [a] == [a];
    } else {
      ExecSnoc(cfg, Apply(cfg, s, run[0]), run[1..], a);
      assert (run + [a])[1..] == run[1..] + [a];
    }
  }
}
