/** What every step keeps about the history: safety, retry counts, order, wakeups, cost. */
module ProtocolHistory {
  import opened Results
  import opened Outbox
  import opened Backoff
  import opened Protocol
  import opened ProtocolInvariants

  /** The invariants of tables and sessions, which every other one builds on. */
  ghost predicate BaseInv(cfg: Config, s: State) {
    ValidConfig(cfg) && Tables(cfg, s) && SessionInv(s) && HeldInv(s)
  }

  lemma BaseStep(cfg: Config, s: State, a: Action)
    requires BaseInv(cfg, s) && Enabled(cfg, s, a)
    ensures BaseInv(cfg, Apply(cfg, s, a))
  {
    TablesStep(cfg, s, a);
    SessionStep(cfg, s, a);
    HeldStep(cfg, s, a);
  }

  /** A row the step from `s` to `t` may leave behind: kept, committed just now, or the held
      row after a failed call. */
  ghost predicate RowFrom(s: State, t: State, row: Row) {
    || row in s.db.outbox
    || (row.id == s.db.nextId && row.id !in s.h.accepted && row.attempts == 0 && row.nextAttemptAt == 0
        && t.worker == s.worker)
    || (s.worker.Failing? && t.worker == Top && row.id == s.worker.stored.id
        && row.attempts == s.worker.stored.attempts + 1 && row.nextAttemptAt > s.worker.now)
  }

  ghost predicate Evolves(s: State, t: State) {
    && (forall row :: row in t.db.outbox ==> RowFrom(s, t, row))
    && (s.worker.Marking? || s.worker.Failing? || forall row :: row in s.db.outbox ==> row in t.db.outbox)
  }

  lemma RowsRecord(cfg: Config, s: State, outcome: Outcome)
    requires BaseInv(cfg, s) && (s.worker.Marking? || s.worker.Failing?)
    ensures Evolves(s, RecordOutcome(cfg, s, outcome))
  {
    var held, at := RecordCases(cfg, s, outcome);
    RecordFrame(cfg, s, outcome);
    RowsRecorded(cfg, s, RecordOutcome(cfg, s, outcome), held, at, outcome);
  }

  lemma RowsRecorded(cfg: Config, s: State, t: State, held: Row, at: nat, outcome: Outcome)
    requires Ordered(s.db.outbox) && (s.worker.Marking? || s.worker.Failing?) && t.worker == Top
    requires held in s.db.outbox && Stored(held) == s.worker.stored && Recorded(cfg, s, t, held, at, outcome)
    ensures Evolves(s, t)
  {
    UpdateMembers(s.db.outbox, held.id, held.attempts + 1, at);
    forall row | row in t.db.outbox
      ensures RowFrom(s, t, row)
    {
      forall y | y in s.db.outbox && y.id == held.id
        ensures y == held
      {
        OrderedUnique(s.db.outbox, y, held);
      }
    }
  }

  lemma RowsStep(cfg: Config, s: State, a: Action)
    requires BaseInv(cfg, s) && Enabled(cfg, s, a)
    ensures Evolves(s, Apply(cfg, s, a))
  {
    match a
    case Smtp(tok, op) => SmtpFrame(cfg, s, tok, op);
    case Work(op) =>
      if op.Record? { RowsRecord(cfg, s, op.outcome); } else { WorkFrame(cfg, s, op); }
    case _ =>
  }

  /** The held message is the accepted one. */
  ghost predicate HeldKnown(s: State) {
    Holds(s.worker) ==>
      s.worker.stored.id in s.h.accepted && s.worker.stored.message == s.h.accepted[s.worker.stored.id]
  }

  lemma HeldIsAccepted(cfg: Config, s: State)
    requires BaseInv(cfg, s)
    ensures HeldKnown(s)
  {
    if Holds(s.worker) {
      assert RowOk(cfg, s.h.accepted, HeldRow(s));
    }
  }

  // ---------------------------------------------------------------- at-least-once

  ghost predicate InOutbox(rows: seq<Row>, id: nat) {
    exists row :: row in rows && row.id == id
  }

  /** No committed row is in both tables, and none in neither unless a deliver call returned Ok. */
  ghost predicate Accounted(rows: seq<Row>, accepted: set<nat>, origins: seq<nat>, delivered: set<nat>) {
    && (forall id :: id in accepted ==> InOutbox(rows, id) || id in origins || id in delivered)
    && (forall id :: id in origins ==> !InOutbox(rows, id))
    && (forall i, j :: 0 <= i < j < |origins| ==> origins[i] != origins[j])
  }

  ghost predicate SafetyInv(s: State) {
    && Accounted(s.db.outbox, s.h.accepted.Keys, s.h.origins, s.h.delivered)
    && (s.worker.Marking? ==> s.worker.stored.id in s.h.delivered)
  }

  lemma InsertIds(rows: seq<Row>, row: Row, id: nat)
    ensures InOutbox(rows + [row], id) <==> InOutbox(rows, id) || id == row.id
  {
    assert row in rows + [row];
    if InOutbox(rows, id) {
      var x :| x in rows && x.id == id;
      assert x in rows + [row];
    }
  }

  lemma RemoveIds(rows: seq<Row>, gone: nat, id: nat)
    ensures InOutbox(RemoveRow(rows, gone), id) <==> InOutbox(rows, id) && id != gone
  {
    if InOutbox(rows, id) && id != gone {
      var x :| x in rows && x.id == id;
      assert x in RemoveRow(rows, gone);
    }
  }

  lemma UpdateIds(rows: seq<Row>, which: nat, attempts: nat, at: int, id: nat)
    ensures InOutbox(UpdateRow(rows, which, attempts, at), id) <==> InOutbox(rows, id)
  {
    var r := UpdateRow(rows, which, attempts, at);
    if InOutbox(rows, id) {
      var i :| 0 <= i < |rows| && rows[i].id == id;
      assert r[i] in r && r[i].id == id;
    }
    if InOutbox(r, id) {
      var i :| 0 <= i < |r| && r[i].id == id;
      assert rows[i] in rows && rows[i].id == id;
    }
  }

  lemma SafetyCommit(cfg: Config, s: State, m: Message)
    requires BaseInv(cfg, s) && SafetyInv(s)
    ensures SafetyInv(CommitRow(s, m))
  {
    forall id
      ensures InOutbox(CommitRow(s, m).db.outbox, id) <==> InOutbox(s.db.outbox, id) || id == s.db.nextId
    {
      InsertIds(s.db.outbox, FreshRow(s.db.nextId, m, s.clock), id);
    }
    forall i | 0 <= i < |s.h.origins|
      ensures s.h.origins[i] != s.db.nextId
    {
      assert DeadOk(cfg, s.h.accepted, s.db.dead[i], s.h.origins[i]);
    }
  }

  lemma DropDelivered(rows: seq<Row>, gone: nat, accepted: set<nat>, origins: seq<nat>, delivered: set<nat>)
    requires Accounted(rows, accepted, origins, delivered) && gone in delivered
    ensures Accounted(RemoveRow(rows, gone), accepted, origins, delivered)
  {
    forall id
      ensures InOutbox(RemoveRow(rows, gone), id) <==> InOutbox(rows, id) && id != gone
    {
      RemoveIds(rows, gone, id);
    }
  }

  lemma DropDead(rows: seq<Row>, gone: nat, accepted: set<nat>, origins: seq<nat>, delivered: set<nat>)
    requires Accounted(rows, accepted, origins, delivered) && InOutbox(rows, gone)
    ensures Accounted(RemoveRow(rows, gone), accepted, origins + [gone], delivered)
  {
    forall id
      ensures InOutbox(RemoveRow(rows, gone), id) <==> InOutbox(rows, id) && id != gone
    {
      RemoveIds(rows, gone, id);
    }
  }

  lemma KeepRetried(rows: seq<Row>, which: nat, attempts: nat, at: int, accepted: set<nat>, origins: seq<nat>,
                    delivered: set<nat>)
    requires Accounted(rows, accepted, origins, delivered)
    ensures Accounted(UpdateRow(rows, which, attempts, at), accepted, origins, delivered)
  {
    forall id
      ensures InOutbox(UpdateRow(rows, which, attempts, at), id) <==> InOutbox(rows, id)
    {
      UpdateIds(rows, which, attempts, at, id);
    }
  }

  lemma SafetyRecord(cfg: Config, s: State, outcome: Outcome)
    requires BaseInv(cfg, s) && SafetyInv(s) && (s.worker.Marking? || s.worker.Failing?)
    ensures SafetyInv(RecordOutcome(cfg, s, outcome))
  {
    var held, at := RecordCases(cfg, s, outcome);
    RecordFrame(cfg, s, outcome);
    SafetyRecorded(cfg, s, RecordOutcome(cfg, s, outcome), held, at, outcome);
  }

  lemma SafetyRecorded(cfg: Config, s: State, t: State, held: Row, at: nat, outcome: Outcome)
    requires SafetyInv(s) && (s.worker.Marking? || s.worker.Failing?) && t.worker == Top
    requires held in s.db.outbox && Stored(held) == s.worker.stored && Recorded(cfg, s, t, held, at, outcome)
    requires t.h.accepted == s.h.accepted && t.h.delivered == s.h.delivered
    ensures SafetyInv(t)
  {
    var rows, accepted := s.db.outbox, s.h.accepted.Keys;
    if outcome.ErrorUnapplied? {
    } else if s.worker.Marking? {
      DropDelivered(rows, held.id, accepted, s.h.origins, s.h.delivered);
    } else if held.attempts == cfg.maxRetries {
      DropDead(rows, held.id, accepted, s.h.origins, s.h.delivered);
    } else {
      KeepRetried(rows, held.id, held.attempts + 1, at, accepted, s.h.origins, s.h.delivered);
    }
  }

  lemma SafetyStep(cfg: Config, s: State, a: Action)
    requires BaseInv(cfg, s) && SafetyInv(s) && Enabled(cfg, s, a)
    ensures SafetyInv(Apply(cfg, s, a))
  {
    match a
    case Smtp(tok, op) =>
      SmtpFrame(cfg, s, tok, op);
      if Apply(cfg, s, a).db != s.db { SafetyCommit(cfg, s, Pending(s, tok)); }
    case Work(op) =>
      if op.Record? { SafetyRecord(cfg, s, op.outcome); } else { WorkFrame(cfg, s, op); }
    case _ =>
  }

  // ---------------------------------------------------------------- retry accounting

  ghost predicate RowAccount(h: History, w: Worker, row: Row) {
    var failing := if w.Failing? && w.stored.id == row.id then 1 else 0;
    row.attempts + failing <= h.failed[row.id] <= row.attempts + failing + h.wasted[row.id]
  }

  ghost predicate DeadAccount(cfg: Config, h: History, id: nat) {
    cfg.maxRetries + 1 <= h.failed[id] <= cfg.maxRetries + 1 + h.wasted[id]
  }

  /** Each row's count lags its failed calls by no more than the outcomes that were lost. */
  ghost predicate AccountInv(cfg: Config, s: State) {
    && (forall row :: row in s.db.outbox ==> RowAccount(s.h, s.worker, row))
    && (forall id :: id in s.h.origins ==> DeadAccount(cfg, s.h, id))
    && (forall id :: id in s.h.failed || id in s.h.wasted ==> id in s.h.accepted)
  }

  /** What the accounting step needs to know about the row the worker holds. */
  ghost predicate HeldAlone(s: State) {
    Holds(s.worker) ==>
      && s.worker.stored.id !in s.h.origins
      && exists held :: held in s.db.outbox && held.id == s.worker.stored.id
           && held.attempts == s.worker.stored.attempts
           && forall row :: row in s.db.outbox && row.id == held.id ==> row == held
  }

  lemma HeldIsAlone(cfg: Config, s: State)
    requires BaseInv(cfg, s) && SafetyInv(s)
    ensures HeldAlone(s)
  {
    if Holds(s.worker) {
      var held := HeldRow(s);
      assert InOutbox(s.db.outbox, held.id);
      forall row | row in s.db.outbox && row.id == held.id
        ensures row == held
      {
        OrderedUnique(s.db.outbox, row, held);
      }
    }
  }

  lemma WastedRecord(cfg: Config, s: State, outcome: Outcome)
    requires WorkEnabled(s, Record(outcome))
    ensures RecordOutcome(cfg, s, outcome).h.wasted
         == if outcome.ErrorUnapplied? then s.h.wasted + multiset{s.worker.stored.id} else s.h.wasted
  {
  }

  lemma AccountRecord(cfg: Config, s: State, outcome: Outcome)
    requires BaseInv(cfg, s) && AccountInv(cfg, s) && HeldAlone(s)
    requires s.worker.Marking? || s.worker.Failing?
    requires Evolves(s, RecordOutcome(cfg, s, outcome))
    ensures AccountInv(cfg, RecordOutcome(cfg, s, outcome))
  {
    var held, at := RecordCases(cfg, s, outcome);
    RecordFrame(cfg, s, outcome);
    WastedRecord(cfg, s, outcome);
    assert RowOk(cfg, s.h.accepted, held);
    AccountRecorded(cfg, s, RecordOutcome(cfg, s, outcome), held, at, outcome);
  }

  lemma AccountRecorded(cfg: Config, s: State, t: State, held: Row, at: nat, outcome: Outcome)
    requires AccountInv(cfg, s) && HeldAlone(s) && (s.worker.Marking? || s.worker.Failing?) && t.worker == Top
    requires held in s.db.outbox && Stored(held) == s.worker.stored && held.id in s.h.accepted
    requires Evolves(s, t) && Recorded(cfg, s, t, held, at, outcome)
    requires t.h.accepted == s.h.accepted && t.h.failed == s.h.failed
    requires t.h.wasted == if outcome.ErrorUnapplied? then s.h.wasted + multiset{held.id} else s.h.wasted
    ensures AccountInv(cfg, t)
  {
    assert RowAccount(s.h, s.worker, held);
    forall row | row in t.db.outbox
      ensures RowAccount(t.h, t.worker, row)
    {
      assert RowFrom(s, t, row);
      if row in s.db.outbox {
        assert RowAccount(s.h, s.worker, row);
        assert row.id == held.id ==> row == held;
      }
    }
    forall id | id in t.h.origins
      ensures DeadAccount(cfg, t.h, id)
    {
      assert id in s.h.origins ==> DeadAccount(cfg, s.h, id);
    }
  }

  /** A step that adds at most a fresh row, and counts a failed or lost call against the held one. */
  lemma AccountOther(cfg: Config, s: State, t: State)
    requires AccountInv(cfg, s) && HeldAlone(s) && HeldKnown(s) && Evolves(s, t)
    requires forall id :: id in s.h.accepted ==> id in t.h.accepted
    requires t.h.origins == s.h.origins
    requires s.worker.Failing? ==> t.worker == s.worker || t.worker == Connecting
    requires
      || (t.h.failed == s.h.failed && t.h.wasted == s.h.wasted && (t.worker.Failing? <==> s.worker.Failing?))
      || (s.worker.Delivering? && t.worker.Failing? && t.worker.stored == s.worker.stored
          && t.h.failed == s.h.failed + multiset{s.worker.stored.id} && t.h.wasted == s.h.wasted)
      || (Busy(s.worker) && t.worker == Connecting
          && t.h.failed == s.h.failed && t.h.wasted == s.h.wasted + multiset{s.worker.stored.id})
    ensures AccountInv(cfg, t)
  {
    forall row | row in t.db.outbox
      ensures RowAccount(t.h, t.worker, row)
    {
      assert RowFrom(s, t, row);
      if row in s.db.outbox {
        assert RowAccount(s.h, s.worker, row);
      }
    }
    forall id | id in t.h.origins
      ensures DeadAccount(cfg, t.h, id)
    {
      assert DeadAccount(cfg, s.h, id);
    }
  }

  lemma AccountSmtp(cfg: Config, s: State, t: State, m: Message)
    requires AccountInv(cfg, s) && HeldAlone(s) && HeldKnown(s) && Evolves(s, t) && SmtpDelta(cfg, s, t, m)
    requires s.db.nextId !in s.h.accepted
    ensures AccountInv(cfg, t)
  {
    AccountOther(cfg, s, t);
  }

  lemma AccountWork(cfg: Config, s: State, op: WorkOp)
    requires AccountInv(cfg, s) && HeldAlone(s) && HeldKnown(s) && WorkEnabled(s, op) && !op.Record?
    requires Evolves(s, ApplyWork(cfg, s, op))
    ensures AccountInv(cfg, ApplyWork(cfg, s, op))
  {
    WorkFrame(cfg, s, op);
    AccountOther(cfg, s, ApplyWork(cfg, s, op));
  }

  lemma AccountStep(cfg: Config, s: State, a: Action)
    requires BaseInv(cfg, s) && SafetyInv(s) && AccountInv(cfg, s) && Enabled(cfg, s, a)
    ensures AccountInv(cfg, Apply(cfg, s, a))
  {
    RowsStep(cfg, s, a);
    HeldIsAlone(cfg, s);
    HeldIsAccepted(cfg, s);
    match a
    case Smtp(tok, op) =>
      SmtpFrame(cfg, s, tok, op);
      AccountSmtp(cfg, s, Apply(cfg, s, a), Pending(s, tok));
    case Work(op) =>
      if op.Record? { AccountRecord(cfg, s, op.outcome); } else { AccountWork(cfg, s, op); }
    case Env(op) => AccountOther(cfg, s, Apply(cfg, s, a));
  }

  // ---------------------------------------------------------------- order of first attempts

  ghost function Attempted(calls: seq<Call>): set<nat> {
    set c | c in calls :: c.id
  }

  ghost predicate IsFirst(calls: seq<Call>, j: nat)
    requires j < |calls|
  {
    forall i :: 0 <= i < j ==> calls[i].id != calls[j].id
  }

  ghost predicate FirstsIncrease(calls: seq<Call>) {
    forall j :: 0 <= j < |calls| && IsFirst(calls, j) ==> forall i :: 0 <= i < j ==> calls[i].id < calls[j].id
  }

  ghost predicate Younger(tried: set<nat>, row: Row) {
    row.nextAttemptAt == 0 && forall id :: id in tried ==> id < row.id
  }

  /** Rows never tried yet are due at once and younger than everything tried. */
  ghost predicate FifoInv(s: State) {
    var tried := Attempted(s.h.calls);
    && (Busy(s.worker) ==> s.worker.stored.id in tried)
    && (forall row :: row in s.db.outbox && row.id !in tried ==> Younger(tried, row))
    && (s.worker.Claimed? && s.worker.stored.id !in tried ==>
          (forall id :: id in tried ==> id < s.worker.stored.id)
          && forall row :: row in s.db.outbox && row.id !in tried ==> s.worker.stored.id <= row.id)
    && (forall id :: id in tried ==> id in s.h.accepted)
    && FirstsIncrease(s.h.calls)
  }

  lemma FirstsAppend(calls: seq<Call>, c: Call)
    requires FirstsIncrease(calls)
    requires c.id in Attempted(calls) || forall id :: id in Attempted(calls) ==> id < c.id
    ensures FirstsIncrease(calls + [c]) && Attempted(calls + [c]) == Attempted(calls) + {c.id}
  {
    var more := calls + [c];
    forall j, i | 0 <= i < j < |more| && IsFirst(more, j)
      ensures more[i].id < more[j].id
    {
      assert forall k :: 0 <= k < |calls| ==> more[k] == calls[k] && calls[k].id in Attempted(calls);
      if j < |calls| {
        forall k | 0 <= k < j
          ensures calls[k].id != calls[j].id
        {
          assert more[k].id != more[j].id;
        }
        assert IsFirst(calls, j);
      }
    }
  }

  lemma FifoCalled(s: State, t: State, c: Call)
    requires FifoInv(s) && s.worker.Claimed? && c.id == s.worker.stored.id && c.id in s.h.accepted
    requires t.h.calls == s.h.calls + [c] && t.h.accepted == s.h.accepted && t.db == s.db
    requires !t.worker.Claimed? && (Busy(t.worker) ==> t.worker.stored == s.worker.stored)
    ensures FifoInv(t)
  {
    FirstsAppend(s.h.calls, c);
    forall row | row in t.db.outbox && row.id !in Attempted(t.h.calls)
      ensures Younger(Attempted(t.h.calls), row)
    {
      assert Younger(Attempted(s.h.calls), row);
    }
  }

  lemma FifoDeliver(cfg: Config, s: State)
    requires HeldKnown(s) && FifoInv(s) && s.worker.Claimed?
    ensures FifoInv(ApplyWork(cfg, s, StartDeliver))
  {
    var t := ApplyWork(cfg, s, StartDeliver);
    FifoCalled(s, t, t.h.calls[|s.h.calls|]);
  }

  lemma FifoClaim(cfg: Config, s: State)
    requires FifoInv(s) && s.worker.Claiming?
    ensures FifoInv(ApplyWork(cfg, s, Claim))
  {
    var tried := Attempted(s.h.calls);
    var found := Earliest(s.db.outbox, s.worker.now);
    if found.Some? && found.value.id !in tried {
      assert Younger(tried, found.value);
      forall row | row in s.db.outbox && row.id !in tried
        ensures found.value.id <= row.id
      {
        assert Younger(tried, row) && !Before(row, found.value);
      }
    }
  }

  /** A step that neither claims nor calls: the worker can only go on with what it holds. */
  ghost predicate Continues(s: State, t: State) {
    && t.h.calls == s.h.calls
    && s.h.accepted.Keys <= t.h.accepted.Keys
    && (t.worker.Claimed? ==> t.worker == s.worker)
    && (Busy(t.worker) ==> Busy(s.worker) && t.worker.stored == s.worker.stored)
  }

  lemma WorkContinues(cfg: Config, s: State, op: WorkOp)
    requires WorkEnabled(s, op) && !op.StartDeliver? && !op.Claim?
    ensures Continues(s, ApplyWork(cfg, s, op))
  {
    if op.Record? {
      RecordFrame(cfg, s, op.outcome);
    }
  }

  lemma OtherContinues(cfg: Config, s: State, a: Action)
    requires SessionInv(s) && Enabled(cfg, s, a) && a != Work(StartDeliver) && a != Work(Claim)
    ensures Continues(s, Apply(cfg, s, a))
  {
    match a
    case Smtp(tok, op) => SmtpFrame(cfg, s, tok, op);
    case Work(op) => WorkContinues(cfg, s, op);
    case _ =>
  }

  lemma FifoOther(s: State, t: State)
    requires FifoInv(s) && Evolves(s, t) && Continues(s, t)
    requires forall id :: id in s.h.accepted ==> id < s.db.nextId
    requires HeldKnown(s)
    ensures FifoInv(t)
  {
    var tried := Attempted(s.h.calls);
    forall row | row in t.db.outbox && row.id !in tried
      ensures Younger(tried, row)
      ensures s.worker.Claimed? && s.worker.stored.id !in tried && t.worker == s.worker ==> s.worker.stored.id <= row.id
    {
      assert RowFrom(s, t, row);
    }
  }

  lemma FifoStep(cfg: Config, s: State, a: Action)
    requires BaseInv(cfg, s) && FifoInv(s) && Enabled(cfg, s, a)
    ensures FifoInv(Apply(cfg, s, a))
  {
    HeldIsAccepted(cfg, s);
    if a == Work(StartDeliver) {
      FifoDeliver(cfg, s);
    } else if a == Work(Claim) {
      FifoClaim(cfg, s);
    } else {
      RowsStep(cfg, s, a);
      OtherContinues(cfg, s, a);
      FifoOther(s, Apply(cfg, s, a));
    }
  }

  // ---------------------------------------------------------------- wakeups

  ghost predicate WaitOk(rows: seq<Row>, wait: Wait, now: nat) {
    match wait
    case Until(at) =>
      at > now && (exists row :: row in rows && row.nextAttemptAt == at)
      && forall row :: row in rows && row.nextAttemptAt > now ==> at <= row.nextAttemptAt
    case Nothing => forall row :: row in rows ==> row.nextAttemptAt <= now
    case Unknown => true
  }

  /** No returned row that is due goes unseen: it lies in the future of the last claim, or a
      permit is stored. */
  ghost predicate NoneMissed(s: State) {
    IsIdle(s.worker) ==>
      forall row :: row in s.db.outbox && row.id in s.h.returned ==> s.permit || row.nextAttemptAt > s.worker.now
  }

  ghost predicate WakeInv(s: State) {
    var w := s.worker;
    && NoneMissed(s)
    && (w.Resting? || w.Parked? ==> WaitOk(s.db.outbox, w.wait, w.now))
    && (w.Claiming? || w.Claimed? || w.Delivering? || w.Failing? || IsIdle(w) ==> w.now <= s.clock)
    && (w.Parked? ==> w.now <= w.start <= s.clock)
  }

  /** While the worker idles, sessions may only add rows, and returning one stores a permit. */
  lemma IdleOther(s: State, t: State)
    requires WakeInv(s) && Evolves(s, t) && IsIdle(s.worker) && IsIdle(t.worker) && t.worker.now == s.worker.now
    requires s.h.returned <= s.h.accepted.Keys
    requires s.permit ==> t.permit
    requires t.permit || t.h.returned == s.h.returned
    ensures NoneMissed(t)
    ensures s.worker.Resting? || s.worker.Parked? ==> WaitOk(t.db.outbox, s.worker.wait, s.worker.now)
  {
    forall row | row in t.db.outbox
      ensures row in s.db.outbox || (row.nextAttemptAt == 0 && row.id !in s.h.returned)
    {
      assert RowFrom(s, t, row);
    }
  }

  lemma WakeSmtp(cfg: Config, s: State, t: State, m: Message)
    requires WakeInv(s) && Evolves(s, t) && SmtpDelta(cfg, s, t, m) && s.h.returned <= s.h.accepted.Keys
    ensures WakeInv(t)
  {
    if IsIdle(s.worker) {
      IdleOther(s, t);
    }
  }

  lemma WakeRecord(cfg: Config, s: State, outcome: Outcome)
    requires WakeInv(s) && WorkEnabled(s, Record(outcome))
    ensures WakeInv(ApplyWork(cfg, s, Record(outcome)))
  {
    RecordFrame(cfg, s, outcome);
  }

  lemma WakeWork(cfg: Config, s: State, op: WorkOp)
    requires WakeInv(s) && WorkEnabled(s, op)
    ensures WakeInv(ApplyWork(cfg, s, op))
  {
    if op.Record? {
      WakeRecord(cfg, s, op.outcome);
    } else {
      WorkFrame(cfg, s, op);
    }
  }

  lemma WakeStep(cfg: Config, s: State, a: Action)
    requires SessionInv(s) && WakeInv(s) && Enabled(cfg, s, a) && Evolves(s, Apply(cfg, s, a))
    ensures WakeInv(Apply(cfg, s, a))
  {
    match a
    case Smtp(tok, op) =>
      SmtpFrame(cfg, s, tok, op);
      WakeSmtp(cfg, s, Apply(cfg, s, a), Pending(s, tok));
    case Work(op) => WakeWork(cfg, s, op);
    case _ =>
  }

  /** What lies due behind an idle worker's back has never been tried. */
  ghost predicate DueUntried(s: State) {
    IsIdle(s.worker) ==>
      forall row :: row in s.db.outbox && row.nextAttemptAt <= s.worker.now ==> row.id !in Attempted(s.h.calls)
  }

  lemma DueUntriedOther(s: State, t: State)
    requires DueUntried(s) && Evolves(s, t) && IsIdle(s.worker) && IsIdle(t.worker) && t.worker.now == s.worker.now
    requires t.h.calls == s.h.calls && forall id :: id in Attempted(s.h.calls) ==> id in s.h.accepted
    ensures DueUntried(t)
  {
    forall row | row in t.db.outbox && row.nextAttemptAt <= t.worker.now
      ensures row.id !in Attempted(t.h.calls)
    {
      assert RowFrom(s, t, row);
    }
  }

  lemma StaysIdleWork(cfg: Config, s: State, op: WorkOp)
    requires WorkEnabled(s, op) && !op.Claim?
    ensures var t := ApplyWork(cfg, s, op);
            IsIdle(t.worker) ==> IsIdle(s.worker) && t.worker.now == s.worker.now && t.h.calls == s.h.calls
  {
    if op.Record? {
      RecordFrame(cfg, s, op.outcome);
    }
  }

  /** A worker is idle because its claim found nothing due, or because it was idle before. */
  lemma StaysIdle(cfg: Config, s: State, a: Action)
    requires SessionInv(s) && Enabled(cfg, s, a) && a != Work(Claim)
    ensures var t := Apply(cfg, s, a);
            IsIdle(t.worker) ==> IsIdle(s.worker) && t.worker.now == s.worker.now && t.h.calls == s.h.calls
  {
    match a
    case Smtp(tok, op) => SmtpFrame(cfg, s, tok, op);
    case Work(op) => StaysIdleWork(cfg, s, op);
    case _ =>
  }

  lemma DueUntriedStep(cfg: Config, s: State, a: Action)
    requires SessionInv(s) && FifoInv(s) && DueUntried(s) && Enabled(cfg, s, a) && Evolves(s, Apply(cfg, s, a))
    ensures DueUntried(Apply(cfg, s, a))
  {
    var t := Apply(cfg, s, a);
    if a != Work(Claim) && IsIdle(t.worker) {
      StaysIdle(cfg, s, a);
      DueUntriedOther(s, t);
    }
  }

  // ---------------------------------------------------------------- calls and the sink

  ghost predicate CallOk(h: History, c: Call) {
    c.key == Key(c.id) && c.id in h.accepted && c.message == h.accepted[c.id]
  }

  /** Every call carries the accepted message under its row's own key. */
  ghost predicate CallsInv(s: State) {
    && (forall c :: c in s.h.calls ==> CallOk(s.h, c))
    && (Busy(s.worker) ==> CallFor(s.h, s.worker.stored) in s.h.calls)
  }

  lemma CallsOther(s: State, t: State)
    requires CallsInv(s)
    requires t.h.calls == s.h.calls
    requires forall id :: id in s.h.accepted ==> id in t.h.accepted && t.h.accepted[id] == s.h.accepted[id]
    requires Busy(t.worker) ==>
               Busy(s.worker) && t.worker.stored == s.worker.stored && t.h.lifetime == s.h.lifetime
    ensures CallsInv(t)
  {
    forall c | c in t.h.calls
      ensures CallOk(t.h, c)
    {
      assert CallOk(s.h, c);
    }
  }

  lemma CallsDeliver(cfg: Config, s: State)
    requires CallsInv(s) && HeldKnown(s) && s.worker.Claimed?
    ensures CallsInv(ApplyWork(cfg, s, StartDeliver))
  {
    var t := ApplyWork(cfg, s, StartDeliver);
    forall c | c in t.h.calls
      ensures CallOk(t.h, c)
    {
      assert c in s.h.calls ==> CallOk(s.h, c);
    }
  }

  lemma CallsWork(cfg: Config, s: State, op: WorkOp)
    requires CallsInv(s) && HeldKnown(s) && WorkEnabled(s, op)
    ensures CallsInv(ApplyWork(cfg, s, op))
  {
    if op.StartDeliver? {
      CallsDeliver(cfg, s);
    } else {
      if op.Record? { RecordFrame(cfg, s, op.outcome); } else { WorkFrame(cfg, s, op); }
      CallsOther(s, ApplyWork(cfg, s, op));
    }
  }

  lemma CallsStep(cfg: Config, s: State, a: Action)
    requires CallsInv(s) && SessionInv(s) && HeldKnown(s) && Enabled(cfg, s, a)
    requires s.db.nextId !in s.h.accepted
    ensures CallsInv(Apply(cfg, s, a))
  {
    match a
    case Smtp(tok, op) =>
      SmtpFrame(cfg, s, tok, op);
      CallsOther(s, Apply(cfg, s, a));
    case Work(op) => CallsWork(cfg, s, op);
    case Env(op) => CallsOther(s, Apply(cfg, s, a));
  }

  /** Only what was called for can have been delivered. */
  ghost predicate DeliveredInv(h: History) {
    h.delivered <= Attempted(h.calls)
  }

  lemma DeliveredKept(h: History, k: History)
    requires DeliveredInv(h) && k.delivered == h.delivered && h.calls <= k.calls
    ensures DeliveredInv(k)
  {
    assert forall c :: c in h.calls ==> c in k.calls;
  }

  lemma DeliveredWork(cfg: Config, s: State, op: WorkOp)
    requires CallsInv(s) && DeliveredInv(s.h) && WorkEnabled(s, op)
    ensures DeliveredInv(ApplyWork(cfg, s, op).h)
  {
    if op.SinkAnswers? {
      assert CallFor(s.h, s.worker.stored).id in Attempted(s.h.calls);
    } else {
      if op.Record? { RecordFrame(cfg, s, op.outcome); }
      DeliveredKept(s.h, ApplyWork(cfg, s, op).h);
    }
  }

  lemma DeliveredStep(cfg: Config, s: State, a: Action)
    requires CallsInv(s) && SessionInv(s) && DeliveredInv(s.h) && Enabled(cfg, s, a)
    ensures DeliveredInv(Apply(cfg, s, a).h)
  {
    match a
    case Smtp(tok, op) =>
      SmtpFrame(cfg, s, tok, op);
      DeliveredKept(s.h, Apply(cfg, s, a).h);
    case Work(op) => DeliveredWork(cfg, s, op);
    case Env(op) => DeliveredKept(s.h, Apply(cfg, s, a).h);
  }

  /** What the far side shows was sent, and shows at most once per lifetime. */
  ghost predicate ShownInv(h: History) {
    && (forall x :: x in h.shown ==> Call(x.id, x.message, x.key, x.lifetime) in h.calls)
    && (forall i, j :: 0 <= i < j < |h.shown| ==>
          h.shown[i].lifetime != h.shown[j].lifetime || h.shown[i].key != h.shown[j].key)
  }

  lemma ShownShow(h: History, stored: StoredMessage)
    requires ShownInv(h) && CallFor(h, stored) in h.calls
    ensures ShownInv(Show(h, stored))
  {
  }

  lemma ShownSame(h: History, k: History)
    requires ShownInv(h) && k.shown == h.shown && h.calls <= k.calls
    ensures ShownInv(k)
  {
    assert forall c :: c in h.calls ==> c in k.calls;
  }

  lemma ShownWork(cfg: Config, s: State, op: WorkOp)
    requires CallsInv(s) && ShownInv(s.h) && WorkEnabled(s, op)
    ensures ShownInv(ApplyWork(cfg, s, op).h)
  {
    if op.SinkApplies? {
      ShownShow(s.h, s.worker.stored);
    } else {
      if op.Record? { RecordFrame(cfg, s, op.outcome); }
      ShownSame(s.h, ApplyWork(cfg, s, op).h);
    }
  }

  lemma ShownStep(cfg: Config, s: State, a: Action)
    requires CallsInv(s) && SessionInv(s) && ShownInv(s.h) && Enabled(cfg, s, a)
    ensures ShownInv(Apply(cfg, s, a).h)
  {
    match a
    case Smtp(tok, op) =>
      SmtpFrame(cfg, s, tok, op);
      ShownSame(s.h, Apply(cfg, s, a).h);
    case Work(op) => ShownWork(cfg, s, op);
    case Env(op) => ShownSame(s.h, Apply(cfg, s, a).h);
  }

  // ---------------------------------------------------------------- cost

  ghost predicate AttemptsBounded(rows: seq<Row>, maxRetries: nat) {
    forall row :: row in rows ==> row.attempts <= maxRetries
  }

  /** What the messages accepted so far may cost. */
  ghost function Paid(cfg: Config, nextId: nat): nat
    requires nextId >= 1
  {
    (nextId - 1) * (cfg.maxRetries + 1)
  }

  /** Calls made and calls still possible never exceed what the accepted messages paid for,
      plus one for each lost outcome. */
  ghost predicate BudgetInv(cfg: Config, s: State) {
    && AttemptsBounded(s.db.outbox, cfg.maxRetries)
    && s.db.nextId >= 1
    && |s.h.calls| + Potential(s.db.outbox, cfg.maxRetries)
       <= Paid(cfg, s.db.nextId) + |s.h.wasted| + (if Busy(s.worker) then 1 else 0)
  }

  lemma BudgetCommit(cfg: Config, s: State, m: Message)
    requires BaseInv(cfg, s) && BudgetInv(cfg, s)
    ensures BudgetInv(cfg, CommitRow(s, m))
  {
    PotentialAppend(s.db.outbox, FreshRow(s.db.nextId, m, s.clock), cfg.maxRetries);
    var n, k := s.db.nextId - 1, cfg.maxRetries + 1;
    assert (n + 1) * k == n * k + k;
  }

  lemma BudgetRecord(cfg: Config, s: State, outcome: Outcome)
    requires BaseInv(cfg, s) && BudgetInv(cfg, s) && (s.worker.Marking? || s.worker.Failing?)
    ensures BudgetInv(cfg, RecordOutcome(cfg, s, outcome))
  {
    var t := RecordOutcome(cfg, s, outcome);
    if outcome.ErrorUnapplied? {
      assert |t.h.wasted| == |s.h.wasted| + 1;
    } else {
      RecordSpends(cfg, s, outcome);
    }
  }

  /** The held row is gone, or has one attempt fewer left. */
  ghost predicate Settles(before: seq<Row>, held: Row, at: int, after: seq<Row>, maxRetries: nat) {
    || after == RemoveRow(before, held.id)
    || (held.attempts < maxRetries && after == UpdateRow(before, held.id, held.attempts + 1, at))
  }

  lemma BoundedRows(cfg: Config, s: State)
    requires BaseInv(cfg, s)
    ensures AttemptsBounded(s.db.outbox, cfg.maxRetries)
  {
    assert forall row :: row in s.db.outbox ==> RowOk(cfg, s.h.accepted, row);
  }

  lemma RecordedRows(cfg: Config, s: State, outcome: Outcome) returns (held: Row, at: nat)
    requires BaseInv(cfg, s) && (s.worker.Marking? || s.worker.Failing?) && !outcome.ErrorUnapplied?
    ensures held in s.db.outbox && held.id == s.worker.stored.id && Ordered(s.db.outbox)
    ensures AttemptsBounded(s.db.outbox, cfg.maxRetries)
    ensures s.worker.Failing? ==> at > s.worker.now
    ensures Settles(s.db.outbox, held, at, RecordOutcome(cfg, s, outcome).db.outbox, cfg.maxRetries)
  {
    held, at := RecordCases(cfg, s, outcome);
    SettlesRecorded(cfg, s, RecordOutcome(cfg, s, outcome), held, at, outcome);
    BoundedRows(cfg, s);
  }

  lemma SettlesRecorded(cfg: Config, s: State, t: State, held: Row, at: nat, outcome: Outcome)
    requires (s.worker.Marking? || s.worker.Failing?) && !outcome.ErrorUnapplied?
    requires held.attempts <= cfg.maxRetries && Recorded(cfg, s, t, held, at, outcome)
    ensures Settles(s.db.outbox, held, at, t.db.outbox, cfg.maxRetries)
  {
  }

  /** Settling a message spends at least one of the attempts still owed. */
  lemma SettlingSpends(before: seq<Row>, held: Row, at: int, after: seq<Row>, maxRetries: nat)
    requires Ordered(before) && held in before && AttemptsBounded(before, maxRetries)
    requires Settles(before, held, at, after, maxRetries)
    ensures AttemptsBounded(after, maxRetries) && Potential(after, maxRetries) < Potential(before, maxRetries)
  {
    if after == RemoveRow(before, held.id) {
      PotentialRemove(before, held, maxRetries);
    } else {
      PotentialUpdate(before, held, at, maxRetries);
    }
  }

  /** So does every recorded outcome. */
  lemma RecordSpends(cfg: Config, s: State, outcome: Outcome)
    requires BaseInv(cfg, s) && AttemptsBounded(s.db.outbox, cfg.maxRetries) && !outcome.ErrorUnapplied?
    requires s.worker.Marking? || s.worker.Failing?
    ensures
      var rows := RecordOutcome(cfg, s, outcome).db.outbox;
      AttemptsBounded(rows, cfg.maxRetries)
      && Potential(rows, cfg.maxRetries) < Potential(s.db.outbox, cfg.maxRetries)
  {
    var held, at := RecordedRows(cfg, s, outcome);
    SettlingSpends(s.db.outbox, held, at, RecordOutcome(cfg, s, outcome).db.outbox, cfg.maxRetries);
  }

  lemma BudgetWork(cfg: Config, s: State, op: WorkOp)
    requires BudgetInv(cfg, s) && WorkEnabled(s, op) && !op.Record?
    ensures BudgetInv(cfg, ApplyWork(cfg, s, op))
  {
    WorkFrame(cfg, s, op);
  }

  lemma BudgetStep(cfg: Config, s: State, a: Action)
    requires BaseInv(cfg, s) && BudgetInv(cfg, s) && Enabled(cfg, s, a)
    ensures BudgetInv(cfg, Apply(cfg, s, a))
  {
    match a
    case Smtp(tok, op) =>
      SmtpFrame(cfg, s, tok, op);
      if Apply(cfg, s, a).db != s.db { BudgetCommit(cfg, s, Pending(s, tok)); }
    case Work(op) =>
      if op.Record? { BudgetRecord(cfg, s, op.outcome); } else { BudgetWork(cfg, s, op); }
    case _ =>
  }
}
