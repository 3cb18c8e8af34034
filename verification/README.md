# chimney-post: a verified model

chimney-post accepts mail over SMTP, persists each message in an SQLite outbox before answering
250, and forwards it to a Matrix room with retries. This project models its hard core in Dafny and
proves what the program is for. Check it with `dafny verify dfyconfig.toml`.

## What is modelled

**The outbox protocol** (`src/queue`, and the acknowledgement in `src/smtp/server.rs`). `Outbox`
holds the two tables and the SQL statements on them. `Protocol` is a step relation: any number of
SMTP sessions that commit, notify and acknowledge; one delivery worker, step by step; a sink that
may apply a message and still report an error; a clock that only moves forward; storage statements
that may fail with or without having taken effect; sessions cancelled at any point (a cancelled
call's storage task may still commit); a process that may die and restart between any two steps. The
history in the state is bookkeeping; no step reads it, except the model's sink, which remembers the
keys it has seen. `ProtocolInvariants` and `ProtocolHistory` hold the invariants, one family per
section, `ProtocolRetries` those of times, errors and retries, and `ProtocolTheorems` states the
results for every state that any schedule reaches. `Store` is the class `MessageStore` and `Worker`
the loops of `DeliveryWorker`, both imperative. `Worker.Host` is the process around the worker: at
every await an arbitrary script of other steps runs, and every step taken is matched with a step of
the protocol, so all theorems hold of the state the class is in. The script is finite; when it runs
out, storage behaves and a worker about to sleep is asked to shut down.

**The SMTP side** (`src/smtp/server.rs`). `DataLines` says on flat bytes what reading a DATA block
is; `DataReader` holds the buffered loops over arbitrary chunks; `Utf8` is strict decoding;
`Session` has the command parsers, the record of a session and the envelope it accumulates; `Server`
is the command loop over a `MessageStore`, proved to be a complete transcript of the byte stream;
`CommandLines` says of each line on it what it is answered and does to the envelope; `RfcData` and
`RfcEnvelope` set the reading of DATA and the envelope the loop keeps against those of the standard.

**Content** (`src/smtp/mime.rs`, `src/smtp/parser.rs`). `Strip`, `Html`, `Entities` and `Tidy` are
the four stages of `html_to_text`, each as a function on code points and as the loop that computes
it; `HtmlPrinter` is a printer that `html_to_text` undoes, `HtmlBlocks` which tags separate lines.
`Mime` selects the part shown and names the attachments; `Parser` is the plain header/body split,
with a printer of its own, and the making of the message.

**Shared**: `Text` (the standard library's string operations over Unicode scalar values),
`Numerals`, `Recipients`, `Backoff`, `Results`, `Drain` (the order in which due rows are worked off).

## Assumptions

- A committed transaction is atomic and survives the death of the process; AUTOINCREMENT ids
  strictly increase and are never reused.
- `Notify` is a cell for one permit, kept while nobody waits; there is one delivery worker.
- The clock is not negative and never goes back. `retry_backoff` is at least 1
  (`src/config.rs`), `max_retries` is below 2^32 - 1, and both stay the same across restarts, as
  does `max_len`.
- ASCII lowercasing keeps every position of a text.

## Where the code and its documentation differ

- Section 2.3.8 of RFC 5321 ends a line at CRLF only, section 4.5.2 has the receiver drop any leading
  dot, and section 4.1.1.4 lets only `.` alone between two CRLFs end the data. The code ends a line
  at any LF, drops a dot only from lines that start with two, and also takes `.LF`, anywhere a line
  of its own can stand, for the end. `RfcData.ReadsLikeRfc` says exactly on which blocks the two
  read the same, `RfcData.RfcRoundTrip` exactly which messages a sender that stuffs CRLF lines gets
  across: all within the limit when it sends no bare LF, as section 2.3.8 asks of it
  (`RfcData.NoBareLfRoundTrip`). `RfcData.BareLfEndsBlock` and `RfcData.BareLfLosesDot` are streams
  with bare LFs, `a LF . LF a CRLF` the shortest, on which a message is cut short, its end left to
  the command loop, or loses a dot.
- Sections 4.1.1.2 and 4.1.4 of RFC 5321 have MAIL and EHLO clear what was accepted before, and
  section 3.3 has a RCPT without a MAIL refused; in the code only RSET, a finished DATA and a 552
  clear, and any RCPT is accepted. `RfcEnvelope.RecipientsAgreeWithRfc` and
  `RfcEnvelope.SenderAgreesWithRfc` say exactly when that makes no difference;
  `RfcEnvelope.RecipientOutlivesMailInput` and `RfcEnvelope.EnvelopeOutlivesEhloInput` give byte
  streams on which a message goes to a recipient the standard has cleared or never admitted.
- `strip_elements` is documented to remove the named elements; its search looks at the start of a
  tag's name only. `HtmlPrinter.TagsStay` says exactly which tags that spares;
  `HtmlPrinter.HeaderVanishes` shows a `<header>` go the way of `<head>`, text and all.
- The wakeup guarantee covers rows whose `enqueue` returned. A row committed by a call that was
  cancelled before notifying can lie due while the worker sleeps out its idle hour
  (`ProtocolTheorems.CancelledRowSleeps`). `ProtocolTheorems.WakesExactly` says exactly which rows
  a parked worker will wake for, `ProtocolTheorems.MissedRow` what the others have in common.

## Model

| member | source | states |
|---|---|---|
| ProtocolTheorems.AtLeastOnce | src/smtp/server.rs:204-220 | In every run with storage errors, cancellations, crashes and restarts, a message answered 250 is in the outbox or in dead_letter, unchanged, or was itself sent under its row's key by a deliver call, with an Ok for its row |
| ProtocolTheorems.NeverBothNorLost | src/queue/store.rs:171-193 | Every committed row, acknowledged or not, is never in both tables, and in neither only after an Ok deliver of its message |
| ProtocolTheorems.NoLostWakeup | src/queue/worker.rs:68-110 | Whenever the worker is parked, every row whose enqueue returned has a stored permit, or lay in the future at claim time and the sleep ends no later than its due time plus the time from reading the clock to falling asleep, or after the storage backoff when the next due time could not be read |
| ProtocolTheorems.WakesExactly | src/queue/worker.rs:68-110 | A parked worker is due to wake for a row if and only if a permit is stored or the row lay in the future at claim time |
| ProtocolTheorems.MissedRow | src/queue/store.rs:112-142 | A row it will not wake for has never been tried and its enqueue has not returned, so no 250 was sent for it |
| ProtocolTheorems.SleepsUntilDue | src/queue/store.rs:225-238 | A sleep towards a due time ends at the due time of the earliest future row, shifted by the time spent falling asleep, and not before |
| ProtocolTheorems.CancelledRowSleeps | src/queue/store.rs:120-142 | The schedule that shows why the wakeup claim needs the enqueue to have returned: a row due at once, no permit, and a worker asleep for the idle hour |
| ProtocolTheorems.CancelledMayCommit | src/queue/store.rs:112-142 | A call cancelled when its statement has been handed over may still commit its row, and then notifies nobody |
| ProtocolTheorems.RetryAccounting | src/queue/worker.rs:128-162 | A row's attempts never exceed max_retries nor its failed deliver calls, and lag those only by outcomes lost to a crash or storage error |
| ProtocolTheorems.DeadLetterAccounting | src/queue/worker.rs:135-148 | Every dead letter records attempts == max_retries and had at least max_retries + 1 failed calls, and at most the lost outcomes more |
| ProtocolTheorems.RetryDelayed | src/queue/worker.rs:150-162 | A failed call that is recorded for a row with k recorded failures below the limit leaves the row with k + 1 and due min(retry_backoff * 2^k, 900) seconds after its claim |
| ProtocolTheorems.RetrySchedule | src/queue/worker.rs:34-41 | Over any run the delays of one row start at min(retry_backoff, 900) and double from retry to retry up to 900, its count goes up by one each time, and no retry is claimed before the row was due |
| ProtocolTheorems.RowStanding | src/queue/store.rs:214-223 | Every row in the outbox has the count and due time of its last retry, or 0 and 0, and the time of its commit |
| ProtocolTheorems.Buried | src/queue/store.rs:176-193 | At the limit the row leaves the outbox and is the last dead letter, with its own message, count and creation time, failed_at the time now and last_error the error; earlier dead letters stay |
| ProtocolTheorems.DeadLetterRecord | src/queue/store.rs:176-193 | Over any run each dead letter carries the accepted message, created_at the time of its commit, failed_at no earlier, and the error its last failed call returned |
| ProtocolTheorems.NothingBeforeConnect | src/queue/worker.rs:193-203 | In no lifetime is anything sent before the sink is connected |
| ProtocolTheorems.RefusedExactly | src/queue/store.rs:122-131 | A call is refused if and only if max_len > 0 and the outbox holds max_len rows, and may commit if and only if it is not |
| ProtocolTheorems.ExactWithoutLoss | src/queue/worker.rs:128-162 | A dead-lettered message none of whose outcomes was lost had exactly max_retries + 1 failed calls, whatever happened to others |
| ProtocolTheorems.WastedExactly | src/queue/worker.rs:112-162 | Over any run outcomes are lost only by dying between a deliver call and its record, or by a record that fails; restarting an idle worker loses none |
| ProtocolTheorems.ExactWithoutFaults | src/queue/worker.rs:128-162 | In a run that loses no outcome every dead-lettered message had exactly max_retries + 1 failed calls, and N messages cost at most N * (max_retries + 1) calls |
| ProtocolTheorems.CallBudget | src/queue/worker.rs:68-162 | In any run N accepted messages cost at most N * (max_retries + 1) deliver calls plus one for each outcome lost, whatever the sink answers and however the clock moves |
| ProtocolHistory.RecordSpends | src/queue/worker.rs:112-162 | The termination measure: every recorded outcome strictly decreases the sum over the outbox of max_retries + 1 - attempts |
| ProtocolTheorems.FifoFirstAttempts | src/queue/store.rs:148-164 | Over every run the first deliver calls of distinct messages happen in strictly increasing id order |
| ProtocolTheorems.KeyInjective | src/queue/worker.rs:115 | Different row ids have different idempotency keys |
| ProtocolTheorems.KeysIdentifyMessages | src/queue/worker.rs:112-116 | Over whole runs two calls share a key exactly when they are attempts on one row, and each sends the message accepted under its id |
| ProtocolTheorems.ShownAtMostOnce | src/queue/worker.rs:15-22 | With a sink that drops repeated keys within a process lifetime, no message shows twice in one lifetime, even when applied calls reported errors |
| ProtocolTheorems.AppliedIsShown | src/queue/worker.rs:15-22 | Dropping repeated keys never hides another message: what the sink applied shows in the current lifetime |
| ProtocolTheorems.IdsAndCapacity | src/queue/store.rs:122-137 | Ids are exactly 1 up to the next one in commit order, and the outbox never outgrows max_len |
| ProtocolTheorems.StepInv | src/queue/worker.rs:68-162 | Every step of every participant keeps all invariants |
| ProtocolTheorems.RunInv | src/queue/worker.rs:68-213 | So does every run |
| ProtocolInvariants.RecordCases | src/queue/worker.rs:112-162 | What recording an outcome does to the tables, case by case; a row with k failures is put off by min(retry_backoff * 2^k, 900) seconds from its claim |
| ProtocolInvariants.TablesStep | src/queue/store.rs:112-223 | Every step keeps both tables sound: rows unique and ordered by id, each carrying its accepted message, attempts within the limit |
| ProtocolInvariants.SessionStep | src/queue/store.rs:112-142 | Every step keeps sessions honest: what a call committed is what it will be acknowledged for |
| ProtocolInvariants.HeldStep | src/queue/worker.rs:112-162 | The row a worker holds stays in the outbox, unchanged, until its outcome is recorded |
| ProtocolHistory.SafetyStep | src/queue/worker.rs:112-162 | Every step keeps each accepted message accounted for |
| ProtocolHistory.AccountStep | src/queue/worker.rs:128-162 | Every step keeps the ledger of attempts, failed calls and lost outcomes balanced |
| ProtocolHistory.FifoStep | src/queue/store.rs:131-164 | Every step keeps untried rows due at once and younger than everything tried |
| ProtocolHistory.WakeStep | src/queue/worker.rs:73-84 | Every step keeps the wakeup invariant, from an empty claim through the query to the sleep |
| ProtocolHistory.DueUntriedStep | src/queue/worker.rs:68-84 | Every step keeps what lies due behind an idle worker's back untried |
| ProtocolHistory.DeliveredStep | src/queue/worker.rs:112-126 | Every step keeps what was delivered among what was called for |
| ProtocolHistory.CallsStep | src/queue/worker.rs:112-116 | Every step keeps each call tied to the accepted message and its key |
| ProtocolHistory.ShownStep | src/queue/worker.rs:15-22 | Every step keeps showings unique per lifetime |
| ProtocolHistory.BudgetStep | src/queue/worker.rs:68-162 | Every step keeps the calls made within the attempts spent |
| ProtocolRetries.StampStep | src/queue/store.rs:117-193 | Every step keeps creation times those of the commits, failure times no earlier, and errors those last returned |
| ProtocolRetries.RetryStep | src/queue/worker.rs:150-162 | Every step keeps each row as its last retry left it, retries counted and spaced by the schedule, and the held row due when claimed |
| ProtocolRetries.ConnectStep | src/queue/worker.rs:193-203 | Every step keeps calls behind the connect of their lifetime |
| Outbox.Earliest | src/queue/store.rs:148-164 | The claimed row is due, and no due row comes before it by due time and id; none only when nothing is due |
| Outbox.NextWakeup | src/queue/store.rs:228-238 | The least due time strictly ahead of now, none only when there is no such row |
| Outbox.RemoveRowAt | src/queue/store.rs:205-211 | A delete takes out exactly the row of that id and leaves the others as and where they were |
| Outbox.UpdateRowAt | src/queue/store.rs:214-223 | Recording a failed attempt changes one row in place: its id, message and creation time stay, its attempts and due time are the given ones, and no other row changes |
| Drain.DueUpdate | src/queue/store.rs:214-223 | Sending a row into the future takes it, and nothing else, off those due |
| Outbox.PotentialRemove | src/queue/store.rs:205-211 | Deleting a row takes all its remaining attempts off the measure |
| Outbox.PotentialUpdate | src/queue/store.rs:214-223 | Rescheduling takes one attempt off the measure |
| Store.MessageStore.CommitEnqueue | src/queue/store.rs:120-138 | Cap check and insert are one step: QueueFull exactly when max_len > 0 and the outbox holds that many rows, else one more row at the end, with the message, 0 attempts, due at once, created now; after an error the row is there exactly when the statement took effect |
| Store.MessageStore.Enqueue | src/queue/store.rs:112-142 | Ok only with the row committed and the permit stored; an error notifies nobody, and the tables then hold the row exactly when the failing statement took effect |
| Store.MessageStore.ClaimNextReady | src/queue/store.rs:148-164 | Returns a due row that no due row precedes by next_attempt_at and then id, left in place, or None only when all rows lie in the future |
| Store.MessageStore.MarkDelivered | src/queue/store.rs:167-169 | The new tables after a delete that may fail before or after taking effect |
| Store.MessageStore.MoveToDeadLetter | src/queue/store.rs:176-193 | Copy and delete are one transaction: the row leaves the outbox and dead_letter gains one, behind the earlier ones, with its sender, recipients, subject, body, attempts and created_at, the time of the statement and the error given; or nothing happens |
| Store.MessageStore.RescheduleRow | src/queue/store.rs:214-223 | The new tables after recording a failed attempt |
| Store.MessageStore.NextWakeupAt | src/queue/store.rs:228-238 | The earliest due time strictly ahead, attained by some row, or none when every row is due |
| Worker.DeliveryWorker.Run | src/queue/worker.rs:68-97 | The loop refines the protocol, terminates shut down, and, started shut down in a quiet process, calls the sink for exactly the rows due at the start, once each and no more often, in (next_attempt_at, id) order, leaving only rows in the future, whatever the sink answers |
| Worker.DeliveryWorker.DeliverOne | src/queue/worker.rs:112-126 | One deliver call, then delete or failure handling, matched step by step with the protocol; when quiet the row leaves those due and the measure falls |
| Worker.DeliveryWorker.HandleFailure | src/queue/worker.rs:128-162 | When the statement takes effect, a row with k failures below max_retries stands in the outbox with k + 1, due min(retry_backoff * 2^k, 900) seconds after its claim, and one at the limit is the last dead letter with the error, the time now and the time of its commit; else the row is as it was |
| Worker.DeliveryWorker.IdleWait | src/queue/worker.rs:101-110 | The wait is that of the protocol's query step: up to the next due time, 3600 seconds when there is none, 5 when it could not be read; positive when nothing else happens meanwhile |
| Worker.DeliveryWorker.RetryLater | src/queue/worker.rs:85-95 | After a failed claim the worker waits 5 seconds or until shutdown is asked for, and then stops if it is |
| Worker.DeliveryWorker.Idle | src/queue/worker.rs:78-83 | From an empty claim back to the loop's top by the protocol's steps: query, park, and a wake by permit, timer or shutdown |
| Worker.DeliveryWorker.RunWithReconnect | src/queue/worker.rs:180-213 | Connects until the first success or a shutdown request, each time reconnect_backoff or more behind the last; the worker runs if and only if the last connect succeeded, else sends nothing; ends shut down |
| Worker.Host.StorageTask | src/queue/store.rs:112-142 | A session's storage task on the real tables is the protocol's step |
| Drain.WorkOrderSorts | src/queue/store.rs:150-156 | Repeatedly taking the earliest due row visits exactly the due rows, each once, sorted by due time and id |
| Drain.WorkOrderNext | src/queue/worker.rs:68-72 | Settling the row claimed leaves the rest of that order as it was |
| Backoff.BackoffIsIdeal | src/queue/worker.rs:34-41 | The saturating u64 arithmetic equals the unbounded min(base * 2^(attempt-1), cap) for every base, cap and attempt >= 1 |
| Backoff.BackoffMonotone | src/queue/worker.rs:34-41 | Backoff never shrinks with more attempts |
| Backoff.BackoffRange | src/queue/worker.rs:150 | With a base of at least 1 every backoff is between 1 and 900 seconds |
| Recipients.DecodeEncode | src/queue/store.rs:291-303 | The newline-joined column gives the list back exactly when no address holds a newline and the list is not one empty address |
| Recipients.WellAddressedRoundTrip | src/queue/store.rs:291-303 | So it does for every list a session can store |
| DataLines.ReadWithTerminator | src/smtp/server.rs:290-339 | With a terminator line: exactly the unstuffed lines before it and a position right behind it, if and only if they fit; else SizeExceeded |
| DataLines.ReadWithoutTerminator | src/smtp/server.rs:315-333 | With none before the end of the stream: SizeExceeded if and only if the unstuffed total is over the limit, else incomplete |
| DataLines.ReadBroken | src/smtp/server.rs:308-313 | With none before a failing read: SizeExceeded or the failure, by the whole lines and the raw piece |
| DataLines.ReadOneLine | src/smtp/server.rs:299-335 | The slack of four bytes always suffices: a line is kept exactly when its unstuffed form fits |
| DataLines.DotStuffingRoundTrip | src/smtp/server.rs:321-335 | Over lines ended by any LF: a message stuffed line by line and terminated is received exactly, leaving exactly what follows, if and only if it is made of whole such lines and within the limit |
| RfcData.ReadsLikeRfc | src/smtp/server.rs:290-339 | For every stream: the code receives what the standard's receiver, over CRLF lines, receives and leaves, if and only if the block fits, its terminator is .CRLF at the start or behind CRLF, and every line before it (ended by LF) that starts with a dot starts with two exactly when it stands at the start or behind CRLF |
| RfcData.RfcRoundTrip | src/smtp/server.rs:290-339 | A message of CRLF lines, stuffed over those and terminated as the standard has it, is received exactly, leaving exactly what follows, if and only if it fits and no bare LF in it is followed by "..", ".LF" or ".CRLF" |
| RfcData.NoBareLfRoundTrip | src/smtp/server.rs:290-339 | For a message without bare LFs only the limit counts |
| RfcData.RfcInverts | src/smtp/server.rs:321-329 | The standard's receiver undoes the standard's sender on every message of CRLF lines: the reference the code is held against |
| RfcData.BareLfEndsBlock | src/smtp/server.rs:322-324 | Streams, stuffed and read back whole by the standard's rules, on which the code takes a dot between bare LFs for the end and leaves the rest of the message to the command loop |
| RfcData.BareLfLosesDot | src/smtp/server.rs:326-329 | Such streams on which a line behind a bare LF loses a dot |
| DataLines.AgreesWithRfc | src/smtp/server.rs:326-329 | Over the same lines, ended by any LF, the code's rule for dots and the standard's keep the same if and only if no line starts with a single dot |
| DataLines.LoneDotReceived | src/smtp/server.rs:326-329 | Any whole line that starts with a single dot is received with it when sent as a block of its own, where the standard's rule drops it |
| DataLines.BreakingLine | src/smtp/server.rs:302-333 | An oversize read breaks at the first line, before any terminator, with which the unstuffed total exceeds the limit |
| DataReader.ReadLineLimited | src/smtp/server.rs:243-276 | Over every chunking the result is that of the first line of the flat bytes, the bound holds at every point, and whatever the result no more than that line is consumed |
| DataReader.ReadData | src/smtp/server.rs:290-339 | Over every chunking the result is that of the flat bytes; an oversize block leaves the reader inside or right behind the line that broke the limit; data and current line together never exceed max_size + 4 |
| Utf8.DecodesExactly | src/smtp/server.rs:282-286 | Decoding is strict: bytes decode to a text if and only if they are its encoding by section 3 of RFC 3629 |
| Utf8.DecodedNewlines | src/smtp/server.rs:282-286 | A newline in decoded text comes only from an LF byte |
| Session.CommandByWord | src/smtp/server.rs:137-226 | Each of the eight command words, as the first word of the upper-cased line, means its command and no other word does; any other line that is not empty is unknown |
| Session.KeywordIsFirst | src/smtp/server.rs:134-135 | That word is the first of the line, in whatever letters upper-case to it, with blanks before it and anything behind a blank |
| Session.AddressHasNoNewline | src/smtp/server.rs:379-389 | An address cut out of a line without newlines has none |
| Session.AcceptedAddresses | src/smtp/server.rs:346-376 | Every accepted sender and recipient is newline-free and valid; only a sender may be empty |
| Session.AddressInBrackets | src/smtp/server.rs:379-389 | The address between the first '<' behind the colon and its '>' comes back as written, whatever parameters follow |
| Session.AddressBare | src/smtp/server.rs:379-389 | Without brackets it is the first word behind the colon |
| Session.NoAddress | src/smtp/server.rs:379-389 | There is no address when nothing stands behind the colon or a bracket is not closed |
| Session.MailCommand | src/smtp/server.rs:156-167 | MAIL in any case and spacing is accepted if and only if the address is empty or valid, and then with the address as written |
| Session.RcptCommand | src/smtp/server.rs:168-178 | RCPT likewise, but never with an empty address |
| Session.MailCommandBare | src/smtp/server.rs:156-167 | MAIL with a bare address is accepted if and only if it is valid |
| Session.RcptCommandBare | src/smtp/server.rs:168-178 | RCPT likewise |
| Session.WrongArgument | src/smtp/server.rs:346-376 | MAIL without FROM and RCPT without TO are not accepted |
| Session.AccumulatedIsEnvelope | src/smtp/server.rs:105-224 | The accumulated state is the last sender and all recipients in order accepted since the last envelope ended |
| Session.EnvelopeUnique | src/smtp/server.rs:105-224 | The record determines that envelope |
| Session.SubmissionCarriesEnvelope | src/smtp/server.rs:186-221 | Every submission carries exactly that envelope, with a sender accepted and at least one recipient, "" becoming none, and recipients that survive the stored column |
| Server.Connection.HandleConnection | src/smtp/server.rs:91-231 | Over every chunking the loop leaves a complete transcript of the byte stream, replies as its record says, hands the store exactly the messages on it, and leaves the outbox as it was plus one row, in order and numbered on, for each submission that took effect, one at any rate for each 250 (`CommandLines` says of each line what it is answered) |
| Server.Connection.Serve | src/smtp/server.rs:137-226 | One round of the loop records and leaves what the transcript allows |
| Server.Connection.Data | src/smtp/server.rs:179-223 | DATA answers 503 without an envelope, else reads, submits and clears, or refuses with 552 and clears, or ends the session |
| Server.Connection.Persist | src/smtp/server.rs:205-222 | 250 if and only if there was room and the statement succeeded; the new tables are the old ones with the message's row inserted unless it was refused or the error left no trace, and an error answers 451 also when it took effect all the same; the envelope is cleared either way |
| Server.OwnRows | src/smtp/server.rs:205-213 | Two submissions answered 250, of equal messages or not, have two rows, the later one with the greater id |
| Server.ReadCommand | src/smtp/server.rs:110-138 | Over every chunking the next command is that of the flat bytes |
| Server.ChunkingDoesNotShow | src/smtp/server.rs:91-231 | A session without a 552 is determined by the bytes and the store's answers: any two complete transcripts of them are equal |
| Server.ChunkingShowsBehindOversize | src/smtp/server.rs:91-231 | With one, they agree up to and including the round of the first 552 |
| Server.RfcMessageSubmitted | src/smtp/server.rs:190-221 | A message stuffed over its CRLF lines, within the limit and with no bare LF followed by "..", ".LF" or ".CRLF", is submitted whole under the envelope, and the session goes on right behind it |
| Server.StuffedMessageSubmitted | src/smtp/server.rs:190-221 | The same for stuffing over lines ended by any LF, without that condition |
| RfcEnvelope.RecipientsAgreeWithRfc | src/smtp/server.rs:141-178 | The recipients kept are those of the standard if and only if, since the last envelope ended, every RCPT came behind a MAIL with no EHLO between and none was pending at any MAIL or EHLO |
| RfcEnvelope.SenderAgreesWithRfc | src/smtp/server.rs:141-167 | The sender kept is that of the standard if and only if no EHLO since the last MAIL found one |
| RfcEnvelope.RecipientOutlivesMail | src/smtp/server.rs:156-178 | In every session of RCPT, MAIL, RCPT and a submitted DATA the message goes to both recipients, of which the standard admits the second only |
| RfcEnvelope.EnvelopeOutlivesEhlo | src/smtp/server.rs:141-149 | In every session of MAIL, RCPT, EHLO and a submitted DATA the message goes out under an envelope the standard has cleared |
| CommandLines.LineArrives | src/smtp/server.rs:108-138 | A command line sent in UTF-8 with CRLF, 4096 bytes in all at most, arrives as the command it parses to, and exactly what follows is left |
| CommandLines.OverlongLine | src/smtp/server.rs:110-121 | A line of more than 4096 bytes is answered 500 and ends the session |
| CommandLines.NothingSaid | src/smtp/server.rs:125-132 | An empty line is passed over and the end of the stream ends the session, both without an answer |
| CommandLines.PlainLine | src/smtp/server.rs:137-155 | On the bytes: a RSET line is answered 250 and leaves no sender and no recipient; NOOP, HELO and EHLO are answered 250 and QUIT 221, and keep them; QUIT ends the session; any line by another word is answered 502 and keeps them |
| CommandLines.EnvelopeLine | src/smtp/server.rs:156-178 | On the bytes: MAIL replaces the sender and RCPT adds a recipient, with 250, or both answer 501 and change nothing |
| CommandLines.DataLine | src/smtp/server.rs:179-223 | On the bytes: DATA answers 503 without an envelope and changes nothing; else 354, then 250 or 451 as the store says, 552 and never a 250 for an oversize block, or nothing more for a broken one; a submission and a 552 end the envelope |
| CommandLines.BehindReset | src/smtp/server.rs:150-155 | Behind a RSET line a message goes only to recipients accepted after it; to exactly those, in order, when no other envelope ended between |
| RfcEnvelope.RecipientOutlivesMailInput | src/smtp/server.rs:156-178 | The bytes of such a session, for any three mailboxes |
| RfcEnvelope.EnvelopeOutlivesEhloInput | src/smtp/server.rs:141-149 | The bytes of such a session with EHLO |
| Strip.StripPass | src/smtp/mime.rs:174-198 | The cursor loop over one name, terminating on any text, computes the stripped text |
| Strip.StripElements | src/smtp/mime.rs:172-200 | The loop over the three names |
| Strip.PastElement | src/smtp/mime.rs:183-194 | The cursor strictly advances to the end of the element: behind the '>' of its first closing tag or at the end of the text |
| Strip.StrippedCuts | src/smtp/mime.rs:174-197 | On any text a pass deletes disjoint intervals, each from the first opener at or behind the cursor to the end of its element, and keeps all the rest; behind the last one nothing opens |
| Strip.FindFrom | src/smtp/mime.rs:175-183 | Searching the lowercased copy finds the first place in the text itself, in any letter case |
| Strip.StripAllIsSubsequence | src/smtp/mime.rs:172-200 | Stripping only deletes |
| Strip.StripAllIdentity | src/smtp/mime.rs:172-200 | Stripping leaves a text alone if and only if none of the three elements opens in it |
| Html.BreaksByName | src/smtp/mime.rs:203-226 | A tag breaks the line by its name alone, in any case, opening or closing, with anything behind the name |
| Html.WithoutTags | src/smtp/mime.rs:149-166 | The nested character loops drop exactly the tags and put in the breaks |
| Html.TextOfHtml | src/smtp/mime.rs:146-169 | The four loops in sequence compute the composed function |
| Html.DroppedNoLonger | src/smtp/mime.rs:149-166 | On any text no '<' is left and the text does not grow |
| HtmlPrinter.PrintedDocumentReadsBack | src/smtp/mime.rs:146-254 | For every well-formed document html_to_text(render(doc)) == tidy(flatten(doc)): shown text comes back unescaped, block tags as newlines, other tags and whole script, style and head elements, nested ones included, as nothing |
| HtmlPrinter.PassRemoves | src/smtp/mime.rs:172-200 | One pass over a printed document, whatever follows it, removes the elements of its name and nothing else |
| HtmlPrinter.StripAllRemoves | src/smtp/mime.rs:172-200 | The three passes remove all hidden elements and nothing else |
| HtmlPrinter.PlainTag | src/smtp/mime.rs:176-182 | A tag without '<' is no opener if and only if none of the three names starts it, in any case |
| HtmlPrinter.PlainIsWellFormed | src/smtp/mime.rs:146-254 | Documents with '<'-free tags and hidden content are well formed |
| HtmlPrinter.TagsStay | src/smtp/mime.rs:172-200 | Stripping leaves a document of text and tags alone if and only if no tag begins like the name of a hidden element |
| HtmlPrinter.TagStays | src/smtp/mime.rs:176-182 | For one pass and one tag: it survives if and only if it does not begin like the element's name |
| HtmlPrinter.HeaderVanishes | src/smtp/mime.rs:146-200 | A header element vanishes with all its text, whatever it is |
| HtmlBlocks.BlockSeparates | src/smtp/mime.rs:203-226 | Around a tag of each of the fourteen names br, p, div, tr, li, h1 to h6, table, blockquote and hr, in any case, opening or closing, with anything behind the name, two texts come out with a newline between |
| HtmlBlocks.OtherJoins | src/smtp/mime.rs:203-226 | Around a tag of any other name that opens no hidden element they come out joined |
| HtmlBlocks.LinesAround | src/smtp/mime.rs:146-226 | Two texts of one line each come out as two lines around the one kind of tag and as one around the other, single-spaced |
| Entities.Decoded | src/smtp/mime.rs:229-254 | The loop from ampersand to ampersand terminates on any text and computes the decoding |
| Entities.DecodeEscaped | src/smtp/mime.rs:229-267 | decode(escape(t)) == t for every text |
| Entities.DecodeNumeric | src/smtp/mime.rs:270-277 | Decimal references decode to any text whatsoever |
| Entities.DecimalStands | src/smtp/mime.rs:270-277 | A decimal reference with leading zeros or a plus sign stands for the code point of that number, and stays as it is when there is none |
| Entities.DecodeHex | src/smtp/mime.rs:270-277 | So do hexadecimal references, in either case of their x |
| Entities.NamedDecode | src/smtp/mime.rs:256-267 | In any case `amp`, `lt`, `gt`, `quot`, `apos`, `#39` and `nbsp` stand for an ampersand, the brackets, the quotes and a plain space |
| Entities.UnknownStays | src/smtp/mime.rs:240-253 | A reference by any other name stays as it stands |
| Entities.LateSemicolon | src/smtp/mime.rs:234-239 | An ampersand whose semicolon is more than ten bytes on is stray |
| Entities.DecodeFixes | src/smtp/mime.rs:229-254 | Decoding leaves a text alone if and only if its ampersands are all stray or start unknown entities |
| Entities.DecodedNoLonger | src/smtp/mime.rs:229-254 | On any text the result is no longer, in code points and in bytes |
| Tidy.Tidied | src/smtp/mime.rs:280-302 | The loop over the lines and the popping of blank ones compute the tidied text |
| Tidy.TidyKeepsWords | src/smtp/mime.rs:280-306 | Tidying keeps exactly the whitespace-separated words, in order |
| Tidy.TidyKeepsLines | src/smtp/mime.rs:280-306 | Words stay on their lines: the result's lines that are not blank are the text's, in order, with single spaces between their words |
| Tidy.TidyKeepsSpacing | src/smtp/mime.rs:280-302 | Two neighbouring lines of the result that are not blank have one blank line between them if and only if the text has at least one there |
| Tidy.TidyIsCanonical | src/smtp/mime.rs:280-306 | The result reads back as lines with no blank one first, last or next to another, and single spaces inside |
| Tidy.TidyFixes | src/smtp/mime.rs:280-306 | Tidying changes a text exactly when it is not already canonical |
| Tidy.TidyIdempotent | src/smtp/mime.rs:280-306 | Tidying twice is tidying once |
| Mime.FindTextIsFirst | src/smtp/mime.rs:75-86 | The part found is the first leaf of its type, depth first, that is no attachment; none only when there is none |
| Mime.FoundFirst | src/smtp/mime.rs:75-99 | The part found is the first leaf of that type, in any case, not marked as an attachment; none only when there is none |
| Mime.CollectAttachments | src/smtp/mime.rs:102-121 | The walk appends the names of the attachments among the leaves, in order |
| Mime.NamedLeaves | src/smtp/mime.rs:93-121 | The names are, in order and one each, those of exactly the leaves that are marked as attachments, whatever their type, or whose lower-cased type starts with neither "text/" nor "multipart/" |
| Mime.PartNameIs | src/smtp/mime.rs:110-120 | An attachment goes by its file name, or else by the name of its type, without blanks around, and by "unnamed" when that is blank or there is neither |
| Mime.ParseMime | src/smtp/mime.rs:28-67 | The selection of subject, text and attachment note, or nothing |
| Mime.PlainWins | src/smtp/mime.rs:38-45 | The first leaf of type text/plain, in any case, that is not marked as an attachment is shown, if it decodes, wherever HTML parts stand |
| Mime.GivenUp | src/smtp/mime.rs:50-56 | A message is given up if and only if it shows no text that decodes and every leaf is unmarked and of a type that starts with "text/" or "multipart/" |
| Mime.ShownIsNotNamed | src/smtp/mime.rs:75-99 | What is shown is a leaf of the type looked for, in any case, that is not marked as an attachment |
| Mime.NormaliseFixes | src/smtp/mime.rs:136-138 | Normalising leaves exactly the texts without CRLF and without a final newline, and shortens all others |
| Mime.TidiedIsNormal | src/smtp/mime.rs:40-45 | Text recovered from HTML passes through it unchanged |
| Mime.HtmlMailReadsBack | src/smtp/mime.rs:38-45 | A mail with no unmarked text/plain leaf, whose first unmarked text/html leaf is a printed document, shows what its reader is to see |
| Parser.ExtractSubjectAndBody | src/smtp/parser.rs:36-73 | The line loop computes the last Subject field of the header block, unfolded, and the lines behind the first blank one |
| Parser.SubjectIsLast | src/smtp/parser.rs:49-66 | The last field named subject, in any case, counts, with its continuation lines |
| Parser.SubjectAbsent | src/smtp/parser.rs:36-73 | There is no subject if and only if no field is so named |
| Parser.PrintedMessageSplits | src/smtp/parser.rs:36-73 | Any header lines, a Subject with any blanks or none around its colon, folded over any number of lines and not overridden later, a blank line and any body, each ended by CRLF, give back the pieces joined by spaces and the body joined by newlines |
| Parser.PrintedHeaders | src/smtp/parser.rs:36-73 | Without a blank line everything is header and the body is empty |
| Parser.NoColon | src/smtp/parser.rs:59-62 | A header line without a colon is a field of that name with nothing in it |
| Parser.SenderNormalised | src/smtp/parser.rs:22-29 | The recipients go through unchanged; there is no sender if and only if none was given or it is the null sender |
| Parser.PrintedMessageArrives | src/smtp/parser.rs:12-30 | A printed message that is no MIME message arrives under its envelope with the subject's pieces joined and its body line by line |
| Parser.PlainMailArrives | src/smtp/parser.rs:12-30 | A mail whose first unmarked text/plain leaf decodes arrives under its envelope with that text and the note of its attachments |
| Parser.HtmlMailArrives | src/smtp/parser.rs:12-30 | A mail that offers only a printed HTML document as text arrives under its envelope as what its reader is to see, with that note |
| Parser.FilesAreNoted | src/smtp/mime.rs:102-130 | A printed HTML document with any number of files marked as attachments beside it, plain text or not, arrives as the document's text and, behind a blank line, the note of the files by number and name |

## Left out

- The Matrix client (login, sync, encryption, joining, sending): the sink is an environment that may fail, or apply a message and still report failure.
- Routing rules, message formatting, configuration checks other than `retry_backoff` >= 1, the health monitor, tracing, systemd notification, the connection semaphore and its 421.
- SQLite internals, WAL modes and power loss: see the assumptions.
- `mailparse` (parsing into parts, header and transfer decoding, charsets): a message arrives as an abstract tree whose bodies may fail to decode; lossy UTF-8 decoding, `validate_email` and upper-casing of one character are parameters.
- Timeouts and failing writes to the peer end a session at some prefix of a transcript; the model stops a session only by the stream. Cancellation is a step of the protocol.
- Server.Connection.HandleConnection: the session calls the store's `enqueue` itself, with how each statement behaves and the time as parameters, and nothing else runs meanwhile; sessions, worker and cancellation interleaved are the protocol's part, where a session is the steps of its enqueue calls.
- After a 552 the loop goes on where the reader stopped, inside or right behind the line that broke the limit; which of these depends on the chunks, and the model leaves it open.
- The timestamps `created_at` and `failed_at` are read when the statement commits, not when it is called; ids, times and sizes are unbounded, save for the attempt counter's and the backoff's widths and the u32 of numeric entities.
- Worker.DeliveryWorker.Run: the process's death is not a step of the class, since it ends the object; runs with crashes and restarts are the protocol's.
- Worker.DeliveryWorker.RunWithReconnect: the script of other steps is finite, so liveness under endless failures is not claimed.
- Html.DroppedNoLonger: says nothing of what a broken tag swallows; that is the printer's theorem.
