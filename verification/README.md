# HireSettle backend: verified protocols, merges and encoders

HireSettle settles recruitment fees through escrow on Stellar. This project models the parts of its
backend where correctness is hard to see by reading one function, and proves what they keep over every
run and every input. Each module corresponds to one service; where the service updates rows or fields in
place, a class does the same and each method is tied to the function the theorems are about.

- **Prepaid credit** (`CreditLedger`, `LedgerRuns`, `LedgerFees`). A ledger row is appended by reading the
  latest row and inserting `sequence + 1`; two unique indexes decide races and a loser tries again, up to
  five times. Any number of calls take turns at their database accesses; only an insert is atomic. Every
  run is serialisable, giving up costs five foreign commits or a taken empty key, and when a fee call gives
  the answer recorded for its reference is said exactly.
- **Disputes** (`Disputes`, `DisputeRuns`, `DisputeSafety`, `DisputeWindow`, `DisputeGuards`, `DisputeSla`,
  `DisputeJobs`).
  Deciding, appealing, judging, assigning, overriding, finalizing and settling read a row and write it in a
  later step, and so does the resolve request, which goes straight to the chain when it finds no open
  dispute. A chain call that errors has no on-chain effect. A run is *timely* (`DisputeRuns.Timely`) when the
  writes whose own guard is weaker than the check on the row they read find a row they are safe on. In
  timely runs escrow moves at most once and only on a final, lapsed decision with no appeal open; and a step is
  timely if and only if every timely continuation keeps that and the other promises. A decision can be appealed
  for the whole configured window and is paid no earlier, and what each call makes of the row it finds is said
  field by field (`DisputeWindow`).
- **Refresh tokens** (`RefreshTokens`). Rotation with a possibly stale read, committing at once, and the
  revocation of a family, which sees the rows committed when it starts and takes effect later. A family has
  exactly one unconsumed token, a token is rotated once, presented unexpired and not idle, and a revoked token or
  family stays dead.
- **Timeline and export** (`Ordering`, `ActivityFeed`, `FeedWindows`, `AuditExport`). Six sources merged
  with keyset pagination, and a batched three-way merge with refill.
- **Batch loading** (`BatchLoader`). Coalescing and memoising, agreeing with direct loading.
- **Encoders** (`Base32`, `Csv`). The 32-bit bit buffer against section 6 of RFC 4648; the CSV printer
  against the CSV line parser.
- **Counters and arithmetic** (`Failover`, `DeadLetter`, `EventProcessing`, `Splits`, `QuietHours`). Failures before a healthy
  endpoint is reached, exactly; events conserved between the live and the dead-letter table; splits that
  lose nothing to rounding; the earliest minute out of quiet hours.

`Options`, `Sequences` and `Powers` hold what the modules share.

Where the code does not do what its own comments say, the model follows the code and a theorem says exactly
when the promise holds:

- "The retry returns it" fails for an empty idempotency key, which is stored and unique but never looked up
  (`LedgerRuns.LoneCallIsBusyIff`), and on the fifth attempt, after which there is no retry
  (`LedgerRuns.KeyConflictReturnsIff`).
- "Idempotent per fee reference" holds for a finished call exactly when it looked its key up after the row
  was committed or read a positive balance: `LedgerFees.AnswersWithTheRowIff`. Overlapping calls can disagree
  (`OverlappingFeeCallsDisagree`), and so can calls one after the other, when the first read a zero balance
  and a top-up came between (`TopUpChangesTheAnswer`).
- `decide` guards the status but not the stage, `autoAssign` the arbiter but not the status, the manual
  override nothing: `DisputeGuards.TimelyIff`, with the runs `StaleDecisionIsPaidDuringAppeal`,
  `StaleAssignmentPaysTwice`, `StaleOverrideBreaksIndependence` and `StaleOverrideUndoesTheStage`.
- "Only legacy disputes without a Dispute record settle immediately" is not what the resolve request does: a
  dispute that a settlement has claimed is closed, so the request finds no open one, and resolves on chain
  in the direction it asks for. That is safe exactly under `DisputeRuns.DirectFits` (`TimelyIff` again);
  `DisputeGuards.DirectDuringSettlement` and `DirectAfterPayment` pay twice, both ways.
- Escalation "once per stage", MET and OVERDUE can be wrong in timely runs too, and exactly when:
  `DisputeSla.PacedIff`, `MetIsRightIff`, `FlagIsRightIff`, `OverdueIsRightIff`, with the runs
  `ThreeEscalationsBeforeAnyAppeal`, `LateDecisionRecordsMet` and `StaleFlagMarksTheNextStage`.
- "On failure the claim is rolled back so the job retries" covers a failed chain call only. A settlement
  that stops at any other point leaves the dispute closed and locked until the milestone is resolved some
  other way: `DisputeSafety.ClaimMovesIff`, `AbandonedClaimIff`, `PaidButNotReleased`. Where the chain event
  came first, the same roll-back leaves a released dispute RESOLVED: `LingersIff`, `FailedAfterTheEvent`.
- Presenting a consumed token kills its family unless a rotation of it commits while the revocation is under
  way: `RefreshTokens.ReuseKillsIff`, `RotationOutrunsRevocation`. A rotation that loses a race detects
  reuse as well, but its revocation is rolled back with the exception: `OverlappingReuseKeepsFamilyAlive`.
- A page of the timeline is exact if and only if no item of it is crowded out of its source's window:
  `ActivityFeed.PageIsExactIff`; rows sharing the cursor's timestamp can do that
  (`FeedWindows.TiedRowsHideTheRest`). A null `nextCursor` after the first page does not mean the end:
  `ActivityFeed.NextCursorIff`, `FeedWindows.FalseEndIff`.
- Failover "retrying on the next endpoint" tries the same endpoint again until its patience ends, so a call
  can fail although another endpoint answers: `Failover.FetchThrowsIff`. A success clears the counter, so
  what it refunds is failed again: failures differ from refunds by at most (n - 1) * max(1, threshold)
  (`FailuresTrackRefunds`), and with one endpoint that answers every other call the bound fails for ever,
  although another one always answers (`EveryOtherCallThrows`).
- A crash between the fifth failure's update and the move to the dead-letter table takes the event from the
  retry job for good (`DeadLetter.CrashStrandsIff`, `StrandedForGood`); other processors may still process
  it (`EventProcessing.StrandedIsProcessedIff`).
- "Check if we already processed this txHash" is a check made long before the commit, and by transaction: an
  event is skipped for good if and only if another of its transaction is processed to stay and no processor
  has this one within reach (`EventProcessing.CanBeProcessedIff`), and its handler can run again if and only
  if a processor has it before it, or it can still be dead-lettered and requeued (`RunsTwiceIff`).

## Model

| member | source | states |
|---|---|---|
| `CreditLedger.LedgerTable.AppendComputed` | src/modules/billing/credit-ledger.service.ts:152-198 | The retry loop, whatever other calls commit between its accesses, ends in the outcome and leaves the table of the call's step-by-step run |
| `CreditLedger.LedgerTable.Attempt` | src/modules/billing/credit-ledger.service.ts:158-193 | One transaction either ends the call or, on a unique violation, leaves it at its next attempt (or busy after the fifth) |
| `CreditLedger.LedgerTable.ReadPhase` | src/modules/billing/credit-ledger.service.ts:160-184 | The key lookup, the latest row and the compute closure give a result or the row to insert |
| `CreditLedger.LedgerTable.ApplyToFee` | src/modules/billing/credit-ledger.service.ts:118-146 | A non-positive fee is refused; otherwise credit applied, amount due and balance are those of the row the call ended with, the balance read again when nothing was applied |
| `CreditLedger.Advance` | src/modules/billing/credit-ledger.service.ts:157-193 | Every database access brings a call strictly nearer its end |
| `LedgerRuns.LedgerIsSerial` | src/modules/billing/credit-ledger.service.ts:57-60 | In every run: sequences are 1..n, each balance is the previous plus the amount and never negative, keys do not repeat, each row is its call's compute on the balance just before it |
| `LedgerRuns.Serialisable` | src/modules/billing/credit-ledger.service.ts:52-60 | The table of any interleaving is the table of running the same calls alone, one by one, in commit order |
| `LedgerRuns.LoneWrite` | src/modules/billing/credit-ledger.service.ts:159-184 | A call left alone, its key free, appends exactly the row its compute asks for |
| `LedgerRuns.LoneSkip` | src/modules/billing/credit-ledger.service.ts:172-184 | A call left alone, its key free, with nothing to write leaves the table alone |
| `LedgerRuns.FreshOrConflict` | src/modules/billing/credit-ledger.service.ts:172-189 | An insert that does not conflict was computed from the balance still current: a stale one always conflicts |
| `LedgerRuns.ConflictIsNew` | src/modules/billing/credit-ledger.service.ts:186-192 | A conflict is caused by a row committed after the attempt looked its key up, or by one holding its empty key |
| `LedgerRuns.FailedAttemptHasWinner` | src/modules/billing/credit-ledger.service.ts:58-60 | Each failed attempt is matched by another call's row, committed during that attempt or holding its empty key |
| `LedgerRuns.BusyMeansContention` | src/modules/billing/credit-ledger.service.ts:194-197 | "Busy" means at least five rows of the company were committed during the call, or its key is a taken empty one; the call wrote nothing |
| `LedgerRuns.ChecksNeverFail` | prisma/migrations/20261019100000_add_credit_ledger/migration.sql:25-27 | The CHECK constraints never reject a row in any run |
| `LedgerRuns.KeyConflictReturnsIff` | src/modules/billing/credit-ledger.service.ts:186-197 | A conflict while the key is in the table leads to a lookup that finds it if and only if an attempt is left; on the fifth the call is told "busy" |
| `LedgerRuns.KeyConflictIsLast` | src/modules/billing/credit-ledger.service.ts:188-189 | From there, in every continuation, the call never conflicts again and can only return the row with its key |
| `LedgerRuns.LoneCallIsBusyIff` | src/modules/billing/credit-ledger.service.ts:160-165 | A call with no competitor is told "busy" if and only if its key is the empty string, already taken, and there is something to write |
| `LedgerRuns.RunKeepsInv` | src/modules/billing/credit-ledger.service.ts:152-206 | Every step of every run keeps the ledger invariant |
| `LedgerFees.KeyNamesOneRow` | src/modules/billing/credit-ledger.service.ts:127 | A company has at most one row per key, so at most one deduction per fee reference |
| `LedgerFees.FeeRowIsADeduction` | src/modules/billing/credit-ledger.service.ts:127-136 | With disciplined keys the reference's row is a deduction, positive and at most the fee |
| `LedgerFees.FeeTakesAllItCan` | src/modules/billing/credit-ledger.service.ts:118-136 | In every run, the row a fee call wrote takes the whole fee or leaves the balance at nought |
| `LedgerFees.LoneFee` | src/modules/billing/credit-ledger.service.ts:118-146 | A fee call left alone under a new reference takes the smaller of balance and fee, says so, and leaves the difference; without balance it writes nothing |
| `LedgerFees.ApplyToFeeAlone` | src/modules/billing/credit-ledger.service.ts:118-146 | Its answer in numbers: credit applied, amount due and balance after |
| `LedgerFees.AppendWritesWhatWasAsked` | src/modules/billing/credit-ledger.service.ts:97-111 | In every run, the row an append wrote has its kind, amount, reference and key, and never takes the balance below nought |
| `LedgerFees.AppendRefusedIff` | src/modules/billing/credit-ledger.service.ts:103-110 | An append that ends by itself is refused if and only if the balance it read cannot absorb it |
| `LedgerFees.LaterFeeCallRepeatsTheAnswer` | src/modules/billing/credit-ledger.service.ts:113-117 | A fee call begun after that row was committed returns it and its answer, whatever runs beside it |
| `LedgerFees.AnswersWithTheRowIff` | src/modules/billing/credit-ledger.service.ts:113-146 | A finished fee call, not busy, answers with the reference's row if and only if it looked its key up after the row was committed or read a positive balance |
| `LedgerFees.TopUpChangesTheAnswer` | src/modules/billing/credit-ledger.service.ts:127-145 | A run of two calls, one after the other, of which the first is told "fully due" and the second "fully covered" |
| `LedgerFees.NothingMeansNoCredit` | src/modules/billing/credit-ledger.service.ts:127-145 | A fee call that applied nothing read a zero balance and wrote nothing, so it fixes no answer |
| `LedgerFees.SpendingIsCovered` | src/modules/billing/credit-ledger.service.ts:57-60 | Deductions never exceed the credit added, and the balance is their difference |
| `LedgerFees.RefusedOnlyWhenMalformed` | src/modules/billing/credit-ledger.service.ts:123-129 | A fee call with a positive fee is never refused |
| `LedgerFees.OverlappingFeeCallsDisagree` | src/modules/billing/credit-ledger.service.ts:113-146 | A run in which two overlapping calls for one reference answer "fully covered" and "fully due" |
| `DisputeSafety.EscrowMovesOnce` | src/modules/disputes/disputes.service.ts:311-374 | In every timely run at most one chain resolution made by this backend succeeds, on a final decision, in its direction, with no appeal open and not before the deadline; funds are locked exactly while unreleased |
| `DisputeSafety.SettledResolvesNoMore` | src/modules/disputes/disputes.service.ts:376-387 | Once an event has settled milestone and dispute, and nothing that may reach the chain is under way, no timely continuation resolves again |
| `DisputeSafety.UnreleasedDecisionHasDeadline` | src/modules/disputes/appeal.service.ts:162-171 | In every timely run every unreleased decision carries a deadline, the one the retry job selects by; a final one is past it. Which deadline: `DisputeWindow.DeadlineEndsTheWindow` |
| `DisputeSafety.StagesOnlyAdvance` | src/modules/disputes/dispute-sla.service.ts:65-73 | Over any later part of a timely run the stage never goes back, the one appeal keeps its origin, finality is not undone |
| `DisputeSafety.DecisionsStand` | src/modules/disputes/disputes.service.ts:264-291 | Over any later part of a timely run a recorded outcome stands unless it is appealed, and a final dispute is never reopened |
| `DisputeSafety.AppealsAreIndependent` | src/modules/disputes/arbiter-assignment.service.ts:136-168 | In every timely run an appeal is never with the arbiter it appeals against |
| `DisputeSafety.FinalizedOrAppealed` | src/modules/disputes/appeal.service.ts:199-212 | Whatever lands between the job's read and its update, afterwards the dispute is final, and stays so, or an appeal got in first |
| `DisputeWindow.DeadlineEndsTheWindow` | src/modules/disputes/disputes.service.ts:275-290 | In every timely run the deadline of a first-tier decision is its time plus the configured window, nothing for a window not above nought; that of an appeal decision is its time |
| `DisputeWindow.NothingIsPaidInTheWindow` | src/modules/disputes/appeal.service.ts:190-219 | In every timely run no chain resolution on a first-tier decision comes before its time plus the window |
| `DisputeWindow.AppealableIff` | src/modules/disputes/appeal.service.ts:57-65 | In every timely run an appeal can be opened if and only if the decision is not final and not older than the window |
| `DisputeWindow.AppealTakesEffect` | src/modules/disputes/appeal.service.ts:67-99 | Whatever landed since it read, an appeal takes effect if and only if the decision is still not final and was inside its window; it names the arbiter and the outcome the row then has |
| `DisputeWindow.FinalizedIff` | src/modules/disputes/appeal.service.ts:199-212 | The job makes a decision final if and only if it is not so yet and its window had passed, and changes nothing else |
| `DisputeWindow.DecisionIsRecorded` | src/modules/disputes/disputes.service.ts:275-291 | A timely decision is recorded if and only if the dispute is active: outcome, time, window, and finality at once exactly without a window |
| `DisputeWindow.JudgmentIsRecorded` | src/modules/disputes/appeal.service.ts:154-176 | An appeal decision is recorded if and only if the appeal is open, on the dispute and on the appeal, and is final |
| `DisputeWindow.AssignmentTakesEffect` | src/modules/disputes/arbiter-assignment.service.ts:112-121 | A timely assignment gives an undecided dispute its first arbiter and starts the review, if and only if nobody has been put on it |
| `DisputeWindow.OverrideTakesEffect` | src/modules/disputes/arbiter-assignment.service.ts:148-168 | A timely override pins its arbiter on dispute and appeal unless that arbiter made the decision appealed, and starts the review exactly for a dispute read unassigned |
| `DisputeWindow.EscalationTakesEffect` | src/modules/disputes/dispute-sla.service.ts:105-113 | An escalation marks and counts an active dispute on track, and nothing else |
| `DisputeWindow.ClaimTakesEffect` | src/modules/disputes/disputes.service.ts:317-328 | A settlement claims if and only if the decision is final, recorded and unpaid; otherwise it ends |
| `DisputeWindow.FundsAreReleasedIff` | src/modules/disputes/disputes.service.ts:340-387 | An unreleased row is released by a settlement that has paid or by the closing after an event, and nothing else; it leaves CLOSED only by a failed resolve or an appeal decision |
| `DisputeWindow.PaidIsMarked` | src/modules/disputes/disputes.service.ts:347-354 | In every run, timely or not: a milestone resolved on chain by this backend no longer stands as disputed, or a call is about to mark it |
| `DisputeWindow.RequestGoesOn` | src/modules/milestones/milestones.service.ts:423-453 | A resolve request decides an active first-tier dispute as asked, goes to the chain as asked when the dispute is closed, and ends otherwise |
| `DisputeWindow.CallsBeginIff` | src/modules/disputes/disputes.service.ts:264-273 | In every timely run, which calls the row lets begin: by its status, its appeal and its window |
| `DisputeSla.EscalationsAreBounded` | src/modules/disputes/dispute-sla.service.ts:105-113 | In timely runs that enter no escalated stage again: at most one escalation per stage, three in a life |
| `DisputeSla.OverrideKeepsBoundIff` | src/modules/disputes/arbiter-assignment.service.ts:155-164 | The write of an override keeps the invariant behind that bound if and only if it does not enter the review stage again after it has escalated |
| `DisputeSla.PacedIff` | src/modules/disputes/arbiter-assignment.service.ts:155-164 | A timely step is paced if and only if no paced continuation exceeds one escalation per stage |
| `DisputeSla.ThreeEscalationsBeforeAnyAppeal` | src/modules/disputes/arbiter-assignment.service.ts:155-164 | A timely run with three escalations and no appeal |
| `DisputeSla.MetMeansOnTime` | src/modules/disputes/dispute-sla.service.ts:75-83 | In timely runs whose decisions meet the condition below, MET is recorded only for a decision no later than the deadline of its stage |
| `DisputeSla.MetIsRightIff` | src/modules/disputes/disputes.service.ts:264-290 | Whenever it lands, the status a first-tier decision records is right if and only if the row it read was overdue, had a deadline before the read, or had one no later than the deadline it finds |
| `DisputeSla.LateDecisionRecordsMet` | src/modules/disputes/disputes.service.ts:279-290 | A timely run that records MET for a decision after the deadline of its stage |
| `DisputeSla.FlagIsRightIff` | src/modules/disputes/dispute-sla.service.ts:107-111 | The job's update flags rightly if and only if the deadline it finds is past |
| `DisputeSla.OverdueIsRightIff` | src/modules/disputes/disputes.service.ts:264-290 | Whenever it lands, a decision records OVERDUE rightly if and only if the stage was flagged past its deadline, ended before the read, or has a deadline no later than that of the row read, itself not overdue |
| `DisputeSla.OverdueMeansLate` | src/modules/disputes/dispute-sla.service.ts:75-111 | In timely runs of such flags and decisions, OVERDUE is recorded only past the deadline of the stage |
| `DisputeSla.StaleFlagMarksTheNextStage` | src/modules/disputes/dispute-sla.service.ts:107-111 | A timely run that flags a freshly entered stage and records OVERDUE for a decision in time |
| `DisputeSafety.ClaimMovesIff` | src/modules/disputes/disputes.service.ts:317-387 | A claimed, unreleased row changes in a step if and only if it is the claiming settlement's own failed resolve or release, or closes the milestone's disputes after a chain event or a direct resolution |
| `DisputeSafety.AbandonedClaimIff` | src/modules/disputes/disputes.service.ts:311-387 | Over any timely run in which the settlement that claimed a dispute does not move, the funds are released if and only if the milestone's disputes were closed that way; otherwise the row stays closed and locked |
| `DisputeSafety.PaidButNotReleased` | src/modules/disputes/disputes.service.ts:341-359 | A timely run that has paid on chain and not yet marked the funds released |
| `DisputeSafety.LingersIff` | src/modules/disputes/disputes.service.ts:342-345 | A released dispute becomes RESOLVED if and only if a failed resolve is rolled back, or an open appeal decided, after the release |
| `DisputeSafety.LingersOn` | src/modules/disputes/appeal.service.ts:199-219 | With no settlement under way it then stays so in every timely run: the job finds it every time |
| `DisputeSafety.FailedAfterTheEvent` | src/modules/disputes/disputes.service.ts:340-345 | A timely run that gets there |
| `DisputeGuards.TimelyIff` | src/modules/disputes/disputes.service.ts:255-374 | A step is timely if and only if every timely continuation keeps every promise: each write with too weak a guard, the direct resolution included, is safe exactly on the rows named |
| `DisputeGuards.UnsafeDecision` | src/modules/disputes/disputes.service.ts:279-291 | Any decision that takes effect during an appeal can be finalized and paid with the appeal open |
| `DisputeGuards.UnsafeAssignment` | src/modules/disputes/arbiter-assignment.service.ts:112-121 | Any assignment that takes effect elsewhere breaks a promise: it reopens a decided dispute, to be decided the other way, or undoes the appeal stage |
| `DisputeGuards.UnsafeOverride` | src/modules/disputes/arbiter-assignment.service.ts:155-168 | So does any override that takes effect on a row it does not fit |
| `DisputeGuards.UnsafeDirect` | src/modules/milestones/milestones.service.ts:429-453 | So does any direct resolution that is not the first, not as decided, or before the dispute's own settlement is out of the way |
| `DisputeGuards.DecideIsSafeIff` | src/modules/disputes/disputes.service.ts:264-291 | A decision that takes effect keeps the row sound if and only if no appeal review has begun; what it records is in `DisputeWindow.DecisionIsRecorded` |
| `DisputeGuards.AssignIsSafeIff` | src/modules/disputes/arbiter-assignment.service.ts:112-121 | An auto-assignment that takes effect keeps it sound if and only if the dispute is active and unassigned in its first stage |
| `DisputeGuards.OverrideIsSafeIff` | src/modules/disputes/arbiter-assignment.service.ts:141-168 | An override that takes effect keeps the row sound if and only if the dispute is active and, once under appeal, it neither puts it back a stage nor gives it to the arbiter appealed against |
| `DisputeGuards.StaleDecisionIsPaidDuringAppeal` | src/modules/disputes/disputes.service.ts:279-291 | A run that pays out a stale decision while an appeal is open |
| `DisputeGuards.StaleAssignmentPaysTwice` | src/modules/disputes/arbiter-assignment.service.ts:112-121 | A run that reopens a dispute in mid-settlement and resolves it on chain twice, once each way |
| `DisputeGuards.StaleOverrideBreaksIndependence` | src/modules/disputes/arbiter-assignment.service.ts:136-168 | A run that hands an appeal back to the arbiter whose decision is appealed |
| `DisputeGuards.StaleOverrideUndoesTheStage` | src/modules/disputes/arbiter-assignment.service.ts:155-164 | A run that puts a dispute back to its first review with the appeal still open |
| `DisputeGuards.DirectDuringSettlement` | src/modules/milestones/milestones.service.ts:423-453 | A run in which a request during a settlement refunds what the settlement then releases |
| `DisputeGuards.DirectAfterPayment` | src/modules/milestones/milestones.service.ts:423-453 | A run in which a request after a settlement that stopped resolves a second time, the other way |
| `DisputeRuns.RunKeepsInv` | src/modules/disputes/disputes.service.ts:264-387 | Every timely step keeps the dispute invariant, and the row only evolves forward |
| `DisputeJobs.FinalizeReleasesOrRetries` | src/modules/disputes/appeal.service.ts:190-219 | A due dispute is released if and only if its chain call succeeded; otherwise it is final and found again, and a later success gives the same row |
| `DisputeJobs.FinalizedRowIs` | src/modules/disputes/appeal.service.ts:199-219 | Only a decision past its deadline changes: it becomes final and, if unreleased and the chain answers, closed and released |
| `DisputeJobs.FilterCounts` | src/modules/disputes/appeal.service.ts:215-219 | The count of a job is the number of the rows that did not error |
| `DisputeJobs.DisputeTable.FinalizeExpired` | src/modules/disputes/appeal.service.ts:194-224 | The job handles exactly the rows past deadline, once each, and counts those that did not error |
| `DisputeJobs.DisputeTable.FinalizeOne` | src/modules/disputes/appeal.service.ts:205-218 | One row is finalized and settled; it fails only if it was unreleased and the chain call errored |
| `DisputeJobs.DisputeTable.Settle` | src/modules/disputes/disputes.service.ts:317-374 | Claim, resolve, then release or roll back; other rows are untouched |
| `DisputeJobs.DisputeTable.FlagOverdue` | src/modules/disputes/dispute-sla.service.ts:85-113 | Exactly the active rows on track with a deadline reached become OVERDUE, dated, once each; the others stay as they are |
| `DisputeJobs.SelectArbiter` | src/modules/disputes/arbiter-assignment.service.ts:43-89 | The choice is not recused, excluded, a party by id or at the address of one, and is the least loaded, longest-standing of those; none exactly when there is no such arbiter |
| `RefreshTokens.OneLiveTokenPerFamily` | src/modules/auth/session.service.ts:31-43 | In every run an issued family has exactly one unconsumed token: its size is consumed plus one |
| `RefreshTokens.RefreshSucceedsOncePerToken` | src/modules/auth/session.service.ts:76-99 | At most one refresh of a token ever succeeds, and the consumed tokens are exactly those |
| `RefreshTokens.ConsumedIffExchanged` | src/modules/auth/session.service.ts:60-99 | Over any run, a token is consumed if and only if a step exchanges it: presented before it expired and inside its idle window, neither consumed nor revoked when the step lands, for one new row of its owner and family |
| `RefreshTokens.PresentationIsAcceptedIff` | src/modules/auth/session.service.ts:57-71 | What a presentation starts, by the row it reads: a rotation, the revocation of the family, or nothing |
| `RefreshTokens.LogoutIsFinal` | src/modules/auth/session.service.ts:105-111 | Whatever runs between its read and its update, a logout revokes its token and no other row, and no continuation exchanges that token |
| `RefreshTokens.RevokedIsNeverExchanged` | src/modules/auth/session.service.ts:76-84 | In no run is a revoked token exchanged or made unrevoked |
| `RefreshTokens.RevokedFamilyStaysDead` | src/modules/auth/session.service.ts:76-99 | No later step of any run makes a usable token in a revoked family |
| `RefreshTokens.ReuseKillsIff` | src/modules/auth/session.service.ts:183-188 | The revocation a reuse starts kills the family if and only if no rotation of it committed a live token meanwhile; then for good, whatever runs afterwards |
| `RefreshTokens.ReuseKillsTheFamilyIff` | src/modules/auth/session.service.ts:60-63 | From the presentation of a consumed token on, whatever runs before its revocation starts and while it is under way: the family ends dead if and only if no live token of it was committed meanwhile |
| `RefreshTokens.PresentationKillsIff` | src/modules/auth/session.service.ts:60-99 | An undisturbed presentation leaves the family dead if and only if it was dead or the token was read as consumed |
| `RefreshTokens.RotationOutrunsRevocation` | src/modules/auth/session.service.ts:76-99 | A run in which a reuse is detected and a rotation committed meanwhile leaves a usable token |
| `RefreshTokens.OverlappingReuseKeepsFamilyAlive` | src/modules/auth/session.service.ts:49-99 | A run in which one token is presented twice and the family keeps a usable token |
| `RefreshTokens.TokenTable.Refresh` | src/modules/auth/session.service.ts:49-103 | An undisturbed refresh succeeds exactly when the token is known, unconsumed, unrevoked, unexpired and not idle; it then consumes it and creates one row, a consumed token costs its family, and anything else changes nothing |
| `RefreshTokens.TokenTable.Rotate` | src/modules/auth/session.service.ts:76-99 | The transaction consumes and creates, or leaves the table as it was |
| `RefreshTokens.TokenTable.RevokeRows` | src/modules/auth/session.service.ts:183-188 | Every row of the family is revoked and no other row changes |
| `RefreshTokens.TokenTable.RevokeOne` | src/modules/auth/session.service.ts:105-111 | Logout revokes one known token and changes no other row |
| `RefreshTokens.TokenTable.IssueToken` | src/modules/auth/session.service.ts:31-43 | A sign-in starts a fresh family with one live token |
| `ActivityFeed.PageIsExactIff` | src/modules/engagements/activity-feed.service.ts:56-176 | Ties or no ties, a page is the first `limit` items after the cursor in the global order, one below 1 and a hundred above 100, if and only if each of them is in its source's window |
| `ActivityFeed.TimelineIsNewestFirst` | src/modules/engagements/activity-feed.service.ts:50-54 | The timeline pages are measured by holds exactly the rows of the sources after the cursor, newest first, ties by id descending |
| `ActivityFeed.NextCursorIff` | src/modules/engagements/activity-feed.service.ts:169-174 | For all inputs: a next cursor is offered if and only if the windows together hold more than a page after the cursor |
| `ActivityFeed.NextCursorMeansMore` | src/modules/engagements/activity-feed.service.ts:173-174 | A next cursor implies that more items remain, ties or no ties |
| `ActivityFeed.FirstPageEndIff` | src/modules/engagements/activity-feed.service.ts:173-174 | For all inputs: on the first page, null means that the sources together hold no more than `limit` rows (between 1 and 100) |
| `FeedWindows.PageIsExact` | src/modules/engagements/activity-feed.service.ts:56-176 | For limits from 1 to 100 the page is exactly the first `limit` items, 1 item below and 100 above, when at most one row of a source has the cursor's timestamp without following it; other ties, in feed order, do no harm |
| `FeedWindows.WindowsCover` | src/modules/engagements/activity-feed.service.ts:65-70 | On such sources windows of n rows lose none of the first n items of the timeline, or n - 1 after a cursor |
| `ActivityFeed.RestAfter` | src/modules/engagements/activity-feed.service.ts:169-171 | What follows the last item of a page is the rest of the timeline |
| `ActivityFeed.PagesConcatenate` | src/modules/engagements/activity-feed.service.ts:169-175 | Exact pages reached by following cursors concatenate to a duplicate-free prefix of the timeline |
| `FeedWindows.PagesWithoutTies` | src/modules/engagements/activity-feed.service.ts:169-175 | Without ties in any source all of them are exact, so following the cursors never loses or repeats a row |
| `FeedWindows.FalseEndIff` | src/modules/engagements/activity-feed.service.ts:65-70 | On such sources, with more than a page left after a cursor, `nextCursor` is null if and only if all of it is in the one source that also holds the cursor's row |
| `FeedWindows.LoneSourceStopsAtSecondPage` | src/modules/engagements/activity-feed.service.ts:67-70 | With a single source the page after any cursor is presented as the last, however many rows remain |
| `FeedWindows.TiedRowsHideTheRest` | src/modules/engagements/activity-feed.service.ts:67-70 | Two rows with one timestamp can give an empty page although older rows remain |
| `ActivityFeed.CursorRoundTrip` | src/modules/engagements/activity-feed.service.ts:39-48 | The decoded cursor is the encoded time and id, ids containing bars included |
| `ActivityFeed.CursorNeedsBar` | src/modules/engagements/activity-feed.service.ts:43-48 | A cursor without a bar, and no other, is refused |
| `Ordering.EarlierIsTotal` | src/modules/engagements/activity-feed.service.ts:51-54 | Time, then id, orders any two distinct stamps one way |
| `Ordering.EarlierIsTransitive` | src/modules/engagements/activity-feed.service.ts:51-54 | The order is transitive |
| `Ordering.LessIff` | src/modules/admin/admin-audit-logs.service.ts:186-187 | Ids compare lexicographically: a proper prefix first, or the smaller code unit where the two part |
| `AuditExport.StreamAuditLog` | src/modules/admin/admin-audit-logs.service.ts:175-215 | Terminates for every batch size of at least one; the output is in order of time, then id, then source, and holds every row of every table, once, in the table's order |
| `AuditExport.WriteNext` | src/modules/admin/admin-audit-logs.service.ts:180-214 | A round writes one row and keeps the merge; the early break is never taken while a source is left |
| `AuditExport.SelectSource` | src/modules/admin/admin-audit-logs.service.ts:181-190 | The source selected has the least current row, the earlier source winning a tie; none exactly when all are done |
| `AuditExport.Source.Advance` | src/modules/admin/admin-audit-logs.service.ts:193-214 | Hands out the next row of the table and refills across batch borders without loss or repetition |
| `AuditExport.FetchAfter` | src/modules/admin/admin-audit-logs.service.ts:146-151 | A fetch after a row's id gives the rows right after it |
| `AuditExport.WriteKeepsMerging` | src/modules/admin/admin-audit-logs.service.ts:180-215 | Writing the least current row keeps the output sorted and each table's order |
| `AuditExport.RemainingDrops` | src/modules/admin/admin-audit-logs.service.ts:193 | Each row written leaves one fewer |
| `BatchLoader.BatchLoader.Load` | src/graphql/loaders/batch-loader.ts:37-47 | A cached key gives its promise; otherwise one new load is queued, and a non-empty queue always has a dispatch scheduled |
| `BatchLoader.BatchLoader.Prime` | src/graphql/loaders/batch-loader.ts:54-57 | Seeds an uncached key, with any value; a cached key keeps its promise |
| `BatchLoader.AgreesWithDirectIff` | src/graphql/loaders/batch-loader.ts:20-27 | Every resolved load is what loading directly gives if and only if every seed is |
| `BatchLoader.BatchLoader.Dispatch` | src/graphql/loaders/batch-loader.ts:77-87 | The queue goes out whole and in order, in full chunks but for the last, none empty or above the size; no load is lost |
| `BatchLoader.BatchLoader.RunBatch` | src/graphql/loaders/batch-loader.ts:89-113 | With one slot a load, a load resolves to the value in its slot or is rejected alone for an error in it; a throw or a wrong number of slots rejects all. Exactly the failed keys leave the cache, and no settled promise changes |
| `BatchLoader.BatchLoader.SettleAll` | src/graphql/loaders/batch-loader.ts:97-111 | Exactly the batch's promises are settled, each by its own slot, and exactly the failed keys leave the cache |
| `BatchLoader.OwedSettle` | src/graphql/loaders/batch-loader.ts:97-111 | Settling a batch removes exactly its loads from those still owed: each promise settles once |
| `BatchLoader.AlignByKey` | src/graphql/loaders/batch-loader.ts:117-125 | One entry per key: its last row, or none exactly when it has no row |
| `BatchLoader.GroupByKey` | src/graphql/loaders/batch-loader.ts:128-141 | One group per key: all its rows in row order |
| `BatchLoader.WithKeyOfParts` | src/graphql/loaders/batch-loader.ts:128-141 | What fixes a group: a row belongs to the group of its key alone, and rows keep their order |
| `Base32.Base32Encode` | src/modules/auth/two-factor.service.ts:168-178 | The 32-bit buffer computes the unpadded encoding of section 6 of RFC 4648 for every byte string |
| `Base32.CharacterIs` | src/modules/auth/two-factor.service.ts:168-178 | Section 6 of RFC 4648: the k-th character is the letter, A to Z then 2 to 7, of bits 5k to 5k + 4 of the bytes, zero-filled at the end |
| `Base32.EncodeInChunks` | src/modules/auth/two-factor.service.ts:26-30 | Encoding five-byte slices and concatenating is encoding the whole, and decodes to the bytes |
| `Base32.DecodeEncode` | src/modules/auth/two-factor.service.ts:168-178 | A reference decoder recovers every byte string |
| `Base32.EncodedLength` | src/modules/auth/two-factor.service.ts:168-178 | The length is ceil(8n / 5) |
| `Base32.EncodeConcat` | src/modules/auth/two-factor.service.ts:28-30 | Whole five-byte chunks encode independently of what follows |
| `Base32.ShiftIn` | src/modules/auth/two-factor.service.ts:172-173 | The 32-bit wrap of the shift never reaches the pending bits |
| `Base32.ShiftOut` | src/modules/auth/two-factor.service.ts:176 | The last character is the pending bits, zero-filled |
| `Csv.ParseCsvLine` | src/modules/engagements/engagement-import.service.ts:146-171 | The parser loop computes the fields of the quoting grammar |
| `Csv.ParsePrinted` | src/modules/billing/billing.service.ts:6-17 | Parsing a printed row gives every cell back, commas, quotes and newlines included |
| `Csv.QuotedIffNeeded` | src/modules/billing/billing.service.ts:6-13 | A missing cell prints as nothing; any other is quoted exactly when it holds a comma, a quote or a newline |
| `Csv.DoubleOfParts` | src/modules/billing/billing.service.ts:11 | Each quote becomes two and nothing else changes |
| `Csv.RoundTripIff` | src/modules/engagements/engagement-import.service.ts:146-171 | The round trip holds if and only if the row has a cell |
| `Csv.QuotedCell` | src/modules/billing/billing.service.ts:9-11 | Doubled quotes are undone and everything else in quotes is kept |
| `Csv.PlainCell` | src/modules/engagements/engagement-import.service.ts:162-169 | Outside quotes a comma ends the field and any other character but a quote belongs to it |
| `Csv.QuotedStretch` | src/modules/engagements/engagement-import.service.ts:154-161 | A quoted stretch anywhere in a field adds the text between its quotes |
| `Csv.UnclosedQuote` | src/modules/engagements/engagement-import.service.ts:154-169 | A quote that is never closed takes the rest of the line |
| `Failover.HorizonFailover.FetchOnce` | src/common/stellar/horizon-failover.service.ts:98-119 | The loop ends in the answer and the counters of the step-by-step run |
| `Failover.HorizonFailover.RecordError` | src/common/stellar/horizon-failover.service.ts:129-139 | The count of the active endpoint goes up by one; at the threshold the next endpoint, round the list, becomes active |
| `Failover.HorizonFailover.FailOver` | src/common/stellar/horizon-failover.service.ts:141-157 | The next endpoint in cyclic order becomes active |
| `Failover.FailurePaysOne` | src/common/stellar/horizon-failover.service.ts:129-157 | With some endpoints that answer whenever tried, each failed attempt pays exactly one unit of the failures left before one of them is active |
| `Failover.SuccessRefunds` | src/common/stellar/horizon-failover.service.ts:125-127 | A success of any other endpoint restores its spent patience, exactly |
| `Failover.Accounting` | src/common/stellar/horizon-failover.service.ts:98-157 | Over any outcomes of attempts: failures and the debt left are the first debt and all refunds |
| `Failover.ReachedIff` | src/common/stellar/horizon-failover.service.ts:98-157 | An endpoint that answers is active if and only if the failures have paid the debt and all refunds; they never exceed (n - 1) times max(1, threshold) and the refunds |
| `Failover.DebtBound` | src/common/stellar/horizon-failover.service.ts:125-157 | From any counters that debt is at most (n - 1) times max(1, threshold) |
| `Failover.FetchAccounting` | src/common/stellar/horizon-failover.service.ts:98-119 | The same for one call, with its answer: a call that throws has spent all its attempts, one that is answered by an endpoint that always answers has paid the debt off |
| `Failover.FetchPays` | src/common/stellar/horizon-failover.service.ts:98-119 | When every endpoint stays up or down, a call throws and spends its attempts, or pays the debt off and answers from one that is up |
| `Failover.FailuresTrackRefunds` | src/common/stellar/horizon-failover.service.ts:98-157 | Over any number of calls with some endpoint always answering: failures and refunds differ by at most (n - 1) times max(1, threshold), so the failures are bounded exactly if the refunds are |
| `Failover.CallsPay` | src/common/stellar/horizon-failover.service.ts:98-119 | When every endpoint stays up or down: how many calls throw and how many attempts fail, exactly |
| `Failover.FewCallsThrow` | src/common/stellar/horizon-failover.service.ts:98-119 | With some endpoint always answering and nothing refunded, fewer than max(1, threshold) calls throw |
| `Failover.FewSteadyCallsThrow` | src/common/stellar/horizon-failover.service.ts:98-119 | So it is, for ever, when every endpoint stays up or down and some one is up |
| `Failover.EveryOtherCallThrows` | src/common/stellar/horizon-failover.service.ts:98-127 | With two endpoints, threshold 3, one always answering and the other in every other call, every other call throws for ever |
| `Failover.SettledForGood` | src/common/stellar/horizon-failover.service.ts:98-127 | An endpoint that always answers, once active, stays active and answers every call, whatever the others do |
| `Failover.FetchThrowsIff` | src/common/stellar/horizon-failover.service.ts:92-119 | A call throws although an endpoint always answers if and only if the debt is at least the number of endpoints and no other endpoint answers one of its attempts |
| `Failover.FirstCallThrows` | src/common/stellar/horizon-failover.service.ts:92-119 | With the default threshold, two endpoints and the first one down, the first call fails |
| `Failover.FlakyIsNeverLeft` | src/common/stellar/horizon-failover.service.ts:125-127 | Where every endpoint fails each call's first attempt and the threshold is at least 2, the active one is never left and failures grow with the calls |
| `Failover.LeavesIff` | src/common/stellar/horizon-failover.service.ts:125-139 | Whatever the answers and the counters, a call leaves the endpoint it starts on if and only if its patience fits the attempts and they fail |
| `Failover.LoneEndpointStays` | src/common/stellar/horizon-failover.service.ts:132-138 | A single endpoint is never left |
| `DeadLetter.IdsAreConserved` | src/modules/events/chain-event-retry.service.ts:64-90 | In every run, crashes included, the ids in the tables are those that arrived, each in exactly one table |
| `DeadLetter.CoreSurvives` | src/modules/admin/admin-dead-letter.service.ts:24-37 | Name, ledger, transaction, payload and engagement survive any number of round trips |
| `DeadLetter.CountIsFailures` | src/modules/events/chain-event-retry.service.ts:48-62 | The retry count is the number of failed attempts since entry or requeue; dead-lettering follows exactly the fifth |
| `DeadLetter.EligibleIff` | src/modules/events/chain-event-retry.service.ts:10-12 | An event waits one, two, four, eight and sixteen seconds after its last failure, exactly; a fresh one does not wait |
| `DeadLetter.JobReads` | src/modules/events/chain-event-retry.service.ts:28-31 | A job reads exactly the unprocessed events with fewer than five failures, each once, by ledger |
| `DeadLetter.FailureIsRecorded` | src/modules/events/chain-event-retry.service.ts:48-61 | In every reachable state a failure adds one to the count and dates it; the fifth, and only it, is followed by the move |
| `DeadLetter.MoveIsComplete` | src/modules/events/chain-event-retry.service.ts:64-90 | In every reachable state the move takes the row out of the one table and puts all it says, and the message, into the other |
| `DeadLetter.RequeueStartsOver` | src/modules/admin/admin-dead-letter.service.ts:20-40 | In every reachable state a requeued event is back as it first came |
| `DeadLetter.WorksOnItsOwn` | src/modules/events/events.service.ts:84-102 | A processor goes on exactly while no row of the transaction is processed, works on a row of the event's transaction and name, and adds one exactly when there is none |
| `DeadLetter.UncrashedIsTidy` | src/modules/events/chain-event-retry.service.ts:59-61 | Without crashes no live row rests at five failures |
| `DeadLetter.CrashStrandsIff` | src/modules/events/chain-event-retry.service.ts:50-61 | A crash strands a row if and only if it falls between the update and the move |
| `DeadLetter.StrandedForGood` | src/modules/events/chain-event-retry.service.ts:28-31 | In no continuation does the retry job select or move a stranded row, or anybody requeue it |
| `EventProcessing.StrandedIsProcessedIff` | src/modules/events/events.service.ts:128-151 | Other processors can still process it, under the condition below, and it stays out of the job's reach |
| `DeadLetter.CrashStrands` | src/modules/events/chain-event-retry.service.ts:48-61 | A run with five failures and a crash that strands a row |
| `EventProcessing.CanBeProcessedIff` | src/modules/events/events.service.ts:79-126 | An unprocessed event, live or dead-lettered, can still be processed if and only if no event of its transaction is processed to stay, or a processor past its check has it within reach |
| `EventProcessing.SiblingIsNeverProcessed` | src/modules/events/events.service.ts:84-91 | Once neither holds, no continuation processes it |
| `EventProcessing.RunsTwiceIff` | src/modules/events/events.service.ts:79-126 | A handler that has run on an event can run on it again if and only if a processor has it before it, or it can still be dead-lettered and nothing of its transaction is processed to stay or a processor is past the check for it |
| `EventProcessing.BeginsIff` | src/modules/events/events.service.ts:105-125 | A handler can begin on an event, repeating what a failed attempt has left behind, if and only if it can still run to its end on it, by the two conditions above |
| `EventProcessing.OverlapRunsTwice` | src/modules/events/events.service.ts:84-125 | A run of two overlapping processors in which the handler of one event runs twice and nothing is moved |
| `EventProcessing.OverlapProcessesBoth` | src/modules/events/events.service.ts:84-125 | One in which two events of a transaction are both processed, the second after the first is processed to stay |
| `EventProcessing.RequeueRunsTwice` | src/modules/admin/admin-dead-letter.service.ts:24-37 | One without overlap, through the dead-letter table |
| `EventProcessing.SiblingsHappen` | src/modules/events/events.service.ts:84-126 | A run after which the second event of a transaction is out of reach |
| `DeadLetter.EventStore.RetryUnprocessed` | src/modules/events/chain-event-retry.service.ts:23-46 | The candidates are handled one after the other, each as the next row says, and the whole is an uncrashed run of the state machine |
| `DeadLetter.EventStore.HandleCandidate` | src/modules/events/chain-event-retry.service.ts:33-41 | A candidate is left alone before its backoff is over or once its transaction is processed; otherwise a row of its transaction and name is processed, or its own failure recorded and the fifth moved, as its handler answers; other rows keep their contents |
| `DeadLetter.EventStore.RecordFailureAt` | src/modules/events/chain-event-retry.service.ts:48-62 | The count is one more than the one read; the fifth moves the row |
| `DeadLetter.EventStore.MoveRow` | src/modules/events/chain-event-retry.service.ts:64-90 | The row changes tables with its count, its date and the message; an existing dead-letter row keeps its event fields, and its message if there is no new one |
| `DeadLetter.EventStore.RequeueById` | src/modules/admin/admin-dead-letter.service.ts:20-40 | The event returns unprocessed with no failures; an unknown id changes nothing |
| `Splits.SplitByPercent` | src/modules/engagements/engagements.service.ts:152-161 | The loop gives every part but the last its share, and the last what remains |
| `Splits.PartsSumIff` | src/modules/engagements/engagements.service.ts:152 | The parts sum to the total if and only if there is a part or the total is zero |
| `Splits.OthersAreFloors` | src/modules/engagements/engagements.service.ts:153-161 | Every part but the last is the exact floor of its share, and non-negative |
| `Splits.OthersAreTruncated` | src/modules/engagements/engagements.service.ts:153-161 | Whatever the signs, every part but the last is its exact share cut toward zero |
| `Splits.LastTakesTheRest` | src/modules/engagements/engagements.service.ts:153-161 | With percentages summing to 100 the last part is non-negative, at least its share, above it by less than one per other part |
| `Splits.PreviewFigures` | src/modules/engagements/engagements.service.ts:112-142 | The fee shown is the fee computed, nought without milestones, and the milestone totals sum to the total cost if and only if there is a milestone or the amount is zero |
| `QuietHours.DelayIsEarliestIff` | src/notifications/notifications.service.ts:175-213 | The scheduled minute is the earliest one out of quiet hours, windows across midnight included, if and only if the present minute is in them |
| `QuietHours.QuietIffOnTheWay` | src/notifications/notifications.service.ts:175-195 | Quiet minutes are those met going round the clock from the start, short of the end |

## Left out

- CreditLedger: amounts and sequences are unbounded; BIGINT and INTEGER overflow is not modelled. Descriptions, authors and timestamps of rows are omitted.
- LedgerRuns: runs start from an empty table; a company's key is compared exactly, as the unique index does.
- DisputeSafety.EscrowMovesOnce: counts the resolutions this backend makes; one made outside it is known by its event only. It is stated for timely runs; `DisputeGuards.TimelyIff` says that it, or another promise, fails after any other step.
- DisputeRuns: one dispute's life from its opening; that two events may open two disputes for one milestone is not modelled, nor is a milestone that was never disputed through this workflow. The chain answers a call with success or an error, whatever it was told before. The update of a dispute and of its appeal by the manual override is one step. Who may decide, appeal or judge is not checked, so the runs include all that the role checks allow.
- DisputeWindow: times are integers of one unit. The hours that give a stage its response deadline are configuration: the deadline of a stage entered is whatever it is given.
- DisputeJobs.FinalizeReleasesOrRetries: is about a row nobody else writes to during the job; `DisputeSafety.FinalizedOrAppealed` is the statement for any interleaving.
- DisputeJobs.DisputeTable.FinalizeExpired: runs on a table nobody else writes to meanwhile, so the skip after a lost update is not reached.
- DisputeJobs.DisputeTable.FinalizeOne: likewise.
- DisputeJobs.DisputeTable.FlagOverdue: likewise; overlapping flags are in `DisputeSla.EscalationsAreBounded`.
- DisputeJobs.DisputeTable.Settle: writes the dispute row only. The refund and milestone rows and the arbiter's payout carry no condition of their own; overlapping claims are in `DisputeSafety.EscrowMovesOnce`.
- Notifications have no effect on the dispute, and refund rows and payouts none on who is paid on chain.
- RefreshTokens: tokens are fresh and never guessed. Signing, hashing, the retention purge of old rows and the session listing are omitted, and the second refresh of `auth.service.ts` is not part of this model.
- FeedWindows.PageIsExact: needs sources in feed order with at most one row at the cursor's timestamp that does not follow it; `ActivityFeed.PageIsExactIff` is the statement for all sources.
- FeedWindows.WindowsCover: likewise.
- FeedWindows.PagesWithoutTies: needs sources without ties; `ActivityFeed.PagesConcatenate` is the statement for exact pages.
- FeedWindows.FalseEndIff: needs what PageIsExact needs; `ActivityFeed.NextCursorIff` is the statement for all sources.
- FeedWindows.LoneSourceStopsAtSecondPage: likewise.
- ActivityFeed: base64url and ISO formatting of the cursor, role checks and the six row mappings.
- AuditExport: ids are unique and not empty, rows do not change during the export, and the database orders ids as the program compares them. Column formatting and back-pressure are omitted.
- BatchLoader: the batch function gives, for each key, the value loading directly gives, or fails. `loadMany` is omitted; a dispatch is an explicit call where the source uses the event loop.
- Csv: numbers are given as their text. Splitting a file into lines happens before the line parser and does not respect quotes, so a newline in a cell survives the line parser only.
- Failover: calls are sequential, and the bounds ask for an endpoint that always answers; the recovery probe, which clears counters and promotes the first endpoint, is omitted, and so is the parsing of the configured list.
- DeadLetter: one retry job at a time. Its lock expires after sixty seconds, so a longer run can overlap the next; then the count written is one more than the count read, and no longer the number of failures. Reading the row and moving it is one step. A dead-letter row is named by the event it came from, which is unique.
- EventProcessing: says when a handler begins and when it is run to its end and marked. The handlers write through other services, outside the transaction that marks the event: what a failed attempt has written stays and is not modelled.
- Splits: validation, templates, network fees and persistence around the two splits.
- QuietHours: minutes of the day are inputs; time zones, daylight saving and parsing of times are omitted.
- Guards, controllers, configuration, metrics, delivery of notifications, file uploads, the chain client and the circuit breaker.
