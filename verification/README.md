# Verified model of the ledger and its pipeline

This project models, in Dafny, a multi-tenant double-entry ledger and the
services fed by it, and proves what they promise:

- the ledger engine: transactions (draft, posted, reversed), holds (active,
  captured, released), the derived balance table, idempotency keys shared by
  creates and reversals, and the transactional outbox;
- the pipeline that copies postings into the reconciliation service: outbox
  drains that may crash between publishing and committing, delivery of any
  message any number of times in any order, and the mirror consumer;
- the readers: account statements, current and historical trial balance,
  keyset pagination under concurrent inserts;
- the algorithms: decimal money text, request fingerprints, the greedy
  reconciliation matcher and its repeated runs, webhook deliveries, signature
  headers and secret rotation.

## How it is built

| files | content |
|---|---|
| `Int64.dfy`, `Wrappers.dfy`, `Decimal.dfy` | int64 with wrap-around, options and results, decimal text of integers |
| `Money.dfy`, `Domain.dfy`, `Fingerprint.dfy` | amounts and their text, the balance rule and reversals, canonical request fingerprints |
| `LedgerTables.dfy`, `LedgerSteps.dfy` | one tenant's tables and every command as one atomic step on them |
| `LedgerInvariant.dfy`, `LedgerRuns.dfy`, `LedgerHistory.dfy` | the ledger invariant, its preservation over all runs, and what never changes along a run |
| `Store.dfy`, `LedgerService.dfy` | the store's and service's methods, on fields updated in place, proved equal to the steps |
| `Outcome.dfy`, `HoldOutcome.dfy` | what each operation writes and replies, and every refusal, on columns |
| `Story.dfy`, `Retry.dfy`, `Compensation.dfy` | outbox events against rows, requests sent again, effects on reports over time |
| `Overdraft.dfy` | how each command moves a row's free funds, and exactly when it overdraws it |
| `Concurrent.dfy`, `Progress.dfy`, `ReversalRace.dfy` | requests split at lookup, lock and commit, in every interleaving |
| `SamplePayment.dfy`, `WrappedTotal.dfy` | concrete ledgers, to show that described situations occur |
| `TrialBalance.dfy`, `Keyset.dfy`, `Statement.dfy` | the readers |
| `Outbox.dfy`, `OutboxFate.dfy` | drains, and which rows they ever publish |
| `Mirror.dfy`, `Pipeline.dfy` | the mirror consumer, and everything joined to the ledger |
| `Matcher.dfy`, `ReconRuns.dfy` | the matcher and whole reconciliation runs |
| `Deliveries.dfy`, `Dispatcher.dfy`, `Signature.dfy`, `Rotation.dfy` | the webhook delivery machine, the dispatcher, signatures and secrets |

A command is a function from tables to tables and a reply (`LedgerSteps`). It
leaves the tables alone when it fails, because its database transaction is
rolled back; a BIGINT overflow anywhere aborts it. The class methods follow the
code statement by statement and are proved equal to these functions. The
theorems about runs are stated on the functions: `LedgerRuns.RunKeeps` over
sequential runs, `Concurrent.Serializable` reduces every interleaving to such a
run, and `Pipelines` adds drains and deliveries. Where the source returns an
error, the model returns the error.

Preconditions of the form `Fits(...)` say that a value has Go's type int64.
Preconditions such as `Inv(Tables())` hold in every state reachable from an
empty database (`RunKeeps`), and `NewTransaction`, `NewHold` are what the
service has checked before it calls the store (`LedgerServices`).

## Where the code does less than one might expect

Each of these comes with the exact condition and, where it matters, a run from
an empty database.

- A repeated reversal does not always receive the stored response, and one that
  reuses a create's key does not always get a conflict. If it had passed its key
  lookup before the key was stored, it waits for the row lock and is told what
  the original's state says. `Concurrent.LateReverse` and
  `Concurrent.LateOtherReverse` give the exact condition, `ReversalRaces` a run of
  each.
  Repeated creates are always answered from the stored response. A repeated
  reservation past its lookup is judged by the funds its twin has left
  (`Concurrent.LateHold`).
- Postings do not look at holds or funds, so Available can become negative
  through them, and exactly through them: the condition is in terms of the
  guards and postings of the command (`Overdrafts.OverdraftExact`,
  `Overdrafts.OverdraftIsReachable`). Hold steps keep every row they find
  covered covered, one row at a time (`LedgerHistory.HoldRunSolvent`,
  `Concurrent.HoldsNeverOverdraw`).
- A well-formed row of the ledger's outbox is never published once a hundred
  malformed pending rows stand before it, whatever is drained or inserted
  later; with fewer before it, enough full drains publish it. The condition is
  exact (`OutboxFates.FateExact`, `OutboxFates.TicksExact`).
- "Delivered" is final for one dispatcher (`Deliveries.DeliveredFinal`); with
  several, a stale claim recorded as failed overwrites it, and nothing else does
  (`Deliveries.DeliveredLost`, `Deliveries.TwoWorkers`).
- A mirror entry backs one row per run, but can back another one in a later run;
  `ReconRuns.ReuseExact` says when, `ReconRuns.ImportSafe` which imports avoid it.
- Per-asset totals of a trial balance wrap silently in int64, exactly when they
  do not fit; the balanced flag stays right (`TrialBalances.AlwaysBalanced`).
  Two payments suffice (`WrappedTotals.TotalWraps`, `WrappedTotals.Report`).
- A signature timestamp more than 292 years ahead passes the tolerance test
  (`Signatures.RecentExact`).

Two places where the code and its documentation disagree, and the model follows
the code: docs/errores-api.md:37 says that reusing an idempotency key always
replays, while the store refuses a different request as a conflict; and
services/reconciliation/internal/domain/model.go:71-72 says that the matcher
never produces duplicates, while it does.

## Model

| member | source | states |
|---|---|---|
| `Pipelines.MirrorSafe` | services/reconciliation/internal/adapters/natsconsumer/consumer.go:88-147 | in every run of ledger steps, drains (including drains that publish and then fail to commit) and repeated, reordered or failing deliveries, the mirror never holds two entries with one id, and every entry is the exact copy of a posting of a transaction the ledger announced |
| `Pipelines.MirrorComplete` | services/ledger-core/internal/adapters/outbox/poller.go:74-138 | once every posted-event row was published and its message consumed at least once, every posting of every announced transaction has its mirror entry: with `MirrorSafe`, exactly-once effect over at-least-once delivery |
| `Pipelines.Completable` | services/ledger-core/internal/adapters/outbox/poller.go:65-138 | any run can be continued, by drains and deliveries only and without a ledger step, so that every outbox row has been published and consumed |
| `Pipelines.EventsExact` | services/ledger-core/internal/adapters/postgres/store.go:693-704 | after any run of commands a transaction has a posted event exactly when it is posted or reversed and is not itself a reversal; it has at most one, and the event carries that transaction's own fields, postings and time of posting |
| `Pipelines.FlowKeeps` | services/ledger-core/internal/adapters/outbox/poller.go:65-138 | every world reached from the empty one keeps the pipeline invariant: the ledger invariant, published rows are outbox rows, consumed rows were published, and mirror entries come from published rows |
| `Pipelines.SameEntry` | services/reconciliation/internal/adapters/natsconsumer/consumer.go:143-147 | two outbox rows can only yield the same entry id for the same entry, so ON CONFLICT DO NOTHING never drops a different posting |
| `LedgerRuns.RunKeeps` | services/ledger-core/internal/adapters/postgres/store.go:346-400 | in every state reachable from the empty ledger by any commands: each balance row equals the sums over postings of posted or reversed transactions, of drafts and of active holds; every touched row exists; all stored transactions balance inside one ledger; every key has a stored response that agrees with its transaction field by field in everything immutable; links and events agree with the transactions |
| `LedgerRuns.StepKeeps` | libs/go/pgxutil/pgxutil.go:61-77 | every single command, successful or refused, keeps the whole invariant: a failed step leaves the tables as they were |
| `LedgerRuns.CreateKeeps` | services/ledger-core/internal/adapters/postgres/store.go:657-741 | creating a draft or posted transaction keeps the invariant, also when it is replayed, refused, or aborted by a BIGINT overflow |
| `LedgerRuns.PostKeeps` | services/ledger-core/internal/adapters/postgres/store.go:809-840 | posting a draft moves exactly its amounts from the pending to the posted columns and adds its one event, keeping the invariant |
| `LedgerRuns.ReverseKeeps` | services/ledger-core/internal/adapters/postgres/store.go:865-965 | a reversal keeps the invariant: the pair of links, the mirrored postings, the balance rows and an outbox without a posted event |
| `LedgerRuns.CreateHoldKeeps` | services/ledger-core/internal/adapters/postgres/store.go:1017-1119 | reserving funds keeps the invariant, in particular that held funds never exceed what the account's own side ever accumulated |
| `LedgerRuns.CaptureKeeps` | services/ledger-core/internal/adapters/postgres/store.go:1142-1203 | capturing a hold keeps the invariant, for every amount and linked transaction the caller may give |
| `LedgerRuns.ReleaseKeeps` | services/ledger-core/internal/adapters/postgres/store.go:1206-1239 | releasing a hold keeps the invariant |
| `LedgerRuns.PromoteFindsRows` | services/ledger-core/internal/adapters/postgres/store.go:393-400 | in a reachable ledger the update-only promotion finds a row for every posting of the draft, so it never silently skips one |
| `LedgerRuns.CloseSucceeds` | services/ledger-core/internal/adapters/postgres/store.go:1122-1137 | in a reachable ledger the row a hold reserves on exists, so ending an active hold never fails with the missing-row error nor by underflow (only by exhausting the version counter) |
| `LedgerRuns.SumsNonNegative` | services/ledger-core/internal/adapters/postgres/store.go:346-372 | no column of a reachable balance row is negative |
| `LedgerRuns.AvailableExact` | services/ledger-core/internal/domain/domain.go:211-214 | the int64 subtractions behind Available never wrap in a reachable ledger |
| `LedgerRuns.NetsExact` | services/ledger-core/internal/domain/domain.go:193-209 | every reachable row agrees with its postings, drafts and holds, and its posted and pending nets are the exact signed differences of the columns: neither subtraction wraps |
| `LedgerRuns.VerifierSilent` | services/ledger-core/internal/adapters/postgres/migrations/0006_balance_verifier.sql:21-66 | after any run, the stored sums of every balance row are those of its postings, so the integrity verifier's query has no row to report for any ledger |
| `LedgerTables.ApplyBalances` | services/ledger-core/internal/adapters/postgres/store.go:383-390 | posting-by-posting upserts equal one closed-form update of every touched row, and one overflow test on the final rows decides whether any intermediate upsert overflows |
| `LedgerTables.PromoteBalances` | services/ledger-core/internal/adapters/postgres/store.go:393-400 | the same for the pending-to-posted updates, which touch existing rows only |
| `LedgerStore.Store.constructor` | services/ledger-core/internal/adapters/postgres/store.go:38-40 | an empty database satisfies the invariant |
| `LedgerStore.Store.Lookup` | services/ledger-core/internal/adapters/postgres/store.go:636-652 | a key is answered from the stored response, or as a conflict when the stored hash differs, exactly when the key is stored |
| `LedgerStore.CheckAccountsInLedger` | services/ledger-core/internal/adapters/postgres/store.go:484-519 | checking each distinct account once, in order of first appearance, yields the same first error as checking every posting |
| `LedgerStore.Store.CreateTransaction` | services/ledger-core/internal/adapters/postgres/store.go:657-741 | the imperative step computes exactly the atomic create step on all tables and its reply, and keeps the invariant |
| `LedgerStore.Store.TryCreate` | services/ledger-core/internal/adapters/postgres/store.go:680-717 | the transaction body: checks, inserts, balance upserts and event, or the reason it is rolled back |
| `LedgerStore.Store.PostTransaction` | services/ledger-core/internal/adapters/postgres/store.go:809-840 | the imperative step computes exactly the atomic post step on all tables and its reply, and keeps the invariant |
| `LedgerStore.Store.ReverseTransaction` | services/ledger-core/internal/adapters/postgres/store.go:865-965 | the imperative step computes exactly the atomic reverse step on all tables and its reply, and keeps the invariant |
| `LedgerStore.Store.TryReverse` | services/ledger-core/internal/adapters/postgres/store.go:880-941 | the reversing body: row lock, state checks, the two inserts and updates and the reversed event, or the reason it is rolled back |
| `LedgerStore.Store.BuildReversal` | services/ledger-core/internal/adapters/postgres/store.go:898-907 | the reversal row with the key and description of the request, or the defaults of the domain rule |
| `LedgerStore.Store.CreateHold` | services/ledger-core/internal/adapters/postgres/store.go:1017-1119 | the imperative step computes exactly the atomic hold step on all tables and its reply, and keeps the invariant |
| `LedgerStore.Store.CheckFunds` | services/ledger-core/internal/adapters/postgres/store.go:1038-1070 | the account, ledger and funds checks decide by the balance row as locked |
| `LedgerStore.Store.CaptureHold` | services/ledger-core/internal/adapters/postgres/store.go:1142-1203 | the imperative step computes exactly the atomic capture step on all tables and its reply, and keeps the invariant |
| `LedgerStore.Store.CheckCapture` | services/ledger-core/internal/adapters/postgres/store.go:1146-1173 | which hold states, amounts and linked transactions are refused, and with which error |
| `LedgerStore.Store.EndHold` | services/ledger-core/internal/adapters/postgres/store.go:1122-1137 | the hold's row and its reserved funds change together, or nothing does |
| `LedgerStore.Store.ReleaseHold` | services/ledger-core/internal/adapters/postgres/store.go:1206-1239 | the imperative step computes exactly the atomic release step on all tables and its reply, and keeps the invariant |
| `LedgerServices.Service.CheckCreate` | services/ledger-core/internal/app/service.go:185-232 | which create requests never reach the store |
| `LedgerServices.Service.CreateTransaction` | services/ledger-core/internal/app/service.go:185-247 | a create request from the outside either is refused with the tables untouched or runs the store's step on a balanced transaction; the invariant holds after it |
| `LedgerServices.Service.ReverseTransaction` | services/ledger-core/internal/app/service.go:283-291 | an over-long key is refused, everything else runs the store's step; the invariant holds after it |
| `LedgerServices.Service.CreateHold` | services/ledger-core/internal/app/service.go:308-349 | only positive amounts of valid assets reach the store; the invariant holds after it |
| `LedgerServices.Service.CaptureHold` | services/ledger-core/internal/app/service.go:371-381 | only positive partial amounts reach the store; the invariant holds after it |
| `LedgerHistory.RunExtends` | services/ledger-core/internal/adapters/postgres/store.go:865-965 | over any run nothing recorded is lost or edited: transactions only move along their life cycle, stored responses never change, closed holds stay, events are only appended |
| `LedgerHistory.StepStatus` | services/ledger-core/internal/adapters/postgres/store.go:809-965 | one command moves a transaction's status by at most one edge of draft to posted to reversed |
| `LedgerHistory.GrossGrows` | services/ledger-core/internal/adapters/postgres/store.go:346-372 | posted debits and credits of every row never decrease over any run, whatever is reversed |
| `LedgerHistory.OneReversal` | services/ledger-core/internal/adapters/postgres/store.go:890-940 | at most one transaction reverses a given one |
| `LedgerHistory.ReversalInverse` | services/ledger-core/internal/adapters/postgres/store.go:890-940 | reversed_by and reverses are inverse relations, and the reversal is always the younger row, so chains are well-founded |
| `LedgerHistory.ChainEffect` | services/ledger-core/internal/domain/domain.go:449-488 | an original and k reversals, each of the one before: per account and asset the net effect is the original's when k is even and zero when k is odd, and the gross movement is k + 1 times the original's |
| `LedgerHistory.HoldRunSolvent` | services/ledger-core/internal/adapters/postgres/store.go:1017-1239 | per balance row: any run of only hold steps from a non-negative Available keeps it non-negative, also when other rows are overdrawn |
| `Overdrafts.StepFree` | services/ledger-core/internal/adapters/postgres/store.go:657-1239 | every command that changes the tables moves a row's free funds by exactly what it posts to the row minus what it sets aside there: posted creates, promoted drafts, reversals the other way round, and holds |
| `Overdrafts.OverdraftExact` | services/ledger-core/internal/adapters/postgres/store.go:657-965 | a row with a non-negative Available gets a negative one if and only if the guards of a create, post or reversal let it through and it posts a net outflow to the row greater than what the row has free; both can be evaluated before the command |
| `Overdrafts.GuardsDecide` | services/ledger-core/internal/adapters/postgres/store.go:657-965 | those guards are exact: a valid request, an unused key and unused ids, known ledger and accounts, the right state of the original and no overflowing column, and the command changes the tables, and otherwise it does not |
| `Overdrafts.OverdraftIsReachable` | services/ledger-core/internal/adapters/postgres/store.go:657-741 | one payment out of a new account, in a ledger built from nothing, leaves it with Available -5 |
| `LedgerHistory.ClosedForever` | services/ledger-core/internal/adapters/postgres/store.go:1142-1239 | a captured or released hold never changes again, over any run |
| `LedgerHistory.CaptureSplits` | services/ledger-core/internal/adapters/postgres/store.go:1175-1201 | the captured amount announced is positive and, with the released amount, adds up exactly to the hold |
| `TrialBalances.Conservation` | services/ledger-core/internal/adapters/postgres/store.go:1259-1330 | per ledger and asset, a report's debits equal its credits: posted now, pending now, and posted as of every instant |
| `TrialBalances.ReportTotal` | services/ledger-core/internal/adapters/postgres/store.go:1259-1330 | a report's total per asset and side equals the sum over the ledger's own transactions, without going through accounts: no foreign posting enters and none is missed |
| `TrialBalances.CurrentReports` | services/ledger-core/internal/adapters/postgres/store.go:1259-1330 | the derived balance table is a faithful and complete report of what was posted |
| `TrialBalances.AlwaysBalanced` | services/ledger-core/internal/adapters/postgres/store.go:1259-1330 | the balanced flag of every asset is true in both reports, even where the int64 totals have wrapped; a total is exact if and only if it fits int64 |
| `TrialBalances.LateRowsAgree` | services/ledger-core/internal/adapters/postgres/store.go:1259-1330 | with asOf at or after every effective time of the ledger's posted transactions, the historical report has exactly the non-zero rows of the current one |
| `TrialBalances.LateTotalsAgree` | services/ledger-core/internal/adapters/postgres/store.go:1259-1330 | ... and the same per-asset totals |
| `WrappedTotals.TotalWraps` | services/ledger-core/internal/adapters/postgres/store.go:1303-1326 | two payments of the largest int64 between four accounts of one new ledger: whatever order the report's rows come in, each side adds up to twice the largest int64, which does not fit and wraps to -2 |
| `WrappedTotals.Report` | services/ledger-core/internal/adapters/postgres/store.go:1259-1330 | the totals loop on the rows of that ledger reports EUR with -2 on both sides and as balanced |
| `WrappedTotals.ReportIsCurrent` | services/ledger-core/internal/adapters/postgres/store.go:1259-1300 | those four rows are what the query over the derived balances returns |
| `TrialBalances.HistoricalFits` | services/ledger-core/internal/adapters/postgres/store.go:1259-1330 | historical sums always fit int64, so scanning them cannot fail |
| `TrialBalances.SumRows` | services/ledger-core/internal/adapters/postgres/store.go:1303-1326 | the totals loop lists each asset once, in order of first appearance, with the wrapped sum of each side and the balanced flag |
| `Concurrent.MoveRefines` | services/ledger-core/internal/adapters/postgres/store.go:657-1119 | splitting requests at lookup, lock and commit: whatever one move does to the tables, one atomic step on the current tables does, with the same reply, and the system invariant survives |
| `Concurrent.ProgressRefines` | services/ledger-core/internal/adapters/postgres/store.go:657-1119 | a commit based on values read earlier under a lock equals the atomic step run at commit time, reply included |
| `Concurrent.Serializable` | libs/go/pgxutil/pgxutil.go:61-77 | every interleaving of any number of requests amounts to the atomic steps of the requests that commit during it, in the order of their commits, each once: distinct requests, unfinished before and finished after, and the n-th of them has been told exactly what its atomic step replies on the tables after the steps of those before it |
| `Concurrent.ScheduleKeeps` | libs/go/pgxutil/pgxutil.go:61-77 | every interleaving keeps the ledger invariant and loses nothing recorded |
| `Concurrent.Idempotent` | services/ledger-core/internal/adapters/postgres/store.go:634-741 | for any number of interleaved requests sharing a key, creates and reversals mixed: the key is stored exactly when one request took effect, that one is unique, and every other reply is the stored response for an equal hash, a conflict for a different one, or one of the errors the request's own checks can give; the four rows on late requests say exactly which |
| `Concurrent.LosersChangeNothing` | services/ledger-core/internal/adapters/postgres/store.go:718-741 | a move of a keyed request that does not make it the winner leaves every table as it was |
| `Concurrent.LateCreate` | services/ledger-core/internal/adapters/postgres/store.go:718-741 | a create repeating the stored request receives the stored response wherever it fell behind the winner |
| `Concurrent.LateOtherCreate` | services/ledger-core/internal/adapters/postgres/store.go:718-741 | a create reusing the key for something else is refused as a conflict, or for its own unknown ledger or accounts when it had looked up the key too early |
| `Concurrent.LateReverse` | services/ledger-core/internal/adapters/postgres/store.go:865-965 | a reversal repeating the stored request receives the stored response if and only if it had not passed its lookup before the winner committed; otherwise it is refused as an invalid state |
| `Concurrent.LateOtherReverse` | services/ledger-core/internal/adapters/postgres/store.go:865-965 | a reversal reusing a stored key for something else, such as a create's, is refused as a conflict if and only if it had not passed its lookup before the key was stored; otherwise it is told not found, or what the state of its original says |
| `Concurrent.LateHold` | services/ledger-core/internal/adapters/postgres/store.go:1017-1119 | a reservation whose key is stored when it ends is answered from the stored hold (the hold, or a conflict for another request) if and only if it had not passed its lookup before; otherwise it is refused for its own account or funds |
| `Concurrent.LockedMeansUnstored` | services/ledger-core/internal/adapters/postgres/store.go:880-907 | while a request holds the lock of an unreversed original nobody has stored that very reversal, so its unique violation is always another request's |
| `Concurrent.LockedFunds` | services/ledger-core/internal/adapters/postgres/store.go:1047-1070 | from check to commit the locked balance row is the row in the table and nobody else holds it |
| `Concurrent.HoldsNeverOverdraw` | services/ledger-core/internal/adapters/postgres/store.go:1017-1119 | per balance row: in any interleaving in which only hold requests advance, no two reserve the same funds and the row's Available stays non-negative, whatever the state of other rows |
| `Concurrent.HoldMoveSolvent` | services/ledger-core/internal/adapters/postgres/store.go:1017-1239 | with any other requests in flight, no move of a hold request makes a row's Available negative |
| `ReversalRaces.ReversalRace` | services/ledger-core/internal/adapters/postgres/store.go:865-965 | two copies of one reversal, both past their lookup: the first is carried out and stored, the second is refused as an invalid state although the response to its very request is stored |
| `ReversalRaces.RaceIsReachable` | services/ledger-core/internal/adapters/postgres/store.go:865-965 | that situation occurs with one posted payment and two concrete requests in a ledger built from nothing |
| `ReversalRaces.SharedKeyRace` | services/ledger-core/internal/adapters/postgres/store.go:865-965 | a reversal of something unknown, past its lookup, is told not found although a create has since been stored under its very key with another request hash |
| `ReversalRaces.SharedKeyIsReachable` | services/ledger-core/internal/adapters/postgres/store.go:865-965 | that situation occurs with two concrete requests in a ledger built from nothing |
| `Domain.ValidateBalanced` | services/ledger-core/internal/domain/domain.go:396-443 | accepts if and only if there are two or more postings, all assets, directions and amounts are valid, each side of each asset fits int64 and debits equal credits per asset; each error names the first offending posting |
| `Domain.BalancedPermuted` | services/ledger-core/internal/domain/domain.go:392-443 | acceptance does not depend on the order of postings |
| `Domain.Reverse` | services/ledger-core/internal/domain/domain.go:453-488 | an original with a reversal is refused as already reversed, a draft as not posted; otherwise the compensating transaction takes effect now and mirrors every posting |
| `Domain.ReversalBalanced` | services/ledger-core/internal/domain/domain.go:474-486 | the mirrored postings of a balanced transaction are balanced, so reversals need no validation |
| `Fingerprints.FingerprintExact` | services/ledger-core/internal/adapters/postgres/store.go:521-591 | two requests have one fingerprint if and only if ledger, reference, description, status, metadata (nil as empty) and client effective time agree and their postings are equal as multisets of account, direction, asset and units |
| `Money.ParseUnits` | libs/go/money/money.go:129-199 | accepts precisely the strings of the grammar with at most exp fraction digits whose exact value times 10^exp fits int64, the minimum included, returns that value, and no int64 operation on the way overflows; too many digits and out of range are told apart exactly |
| `Money.Accumulate` | libs/go/money/money.go:176-197 | digit-by-digit accumulation is exact and stops exactly when the value leaves int64 |
| `Money.Scan` | libs/go/money/money.go:129-175 | sign, point and digit checks accept exactly the readable strings and cut them where the grammar does |
| `Money.SpellsUnique` | libs/go/money/money.go:129-175 | a string has at most one reading as a decimal number |
| `Money.ParseFormatted` | libs/go/money/money.go:101-199 | for every int64 and every exponent from 0 up, parsing a formatted amount returns the amount |
| `Money.FormatIsExact` | libs/go/money/money.go:101-123 | a formatted amount has a reading in the grammar, and every reading has exactly exp decimals and denotes the amount |
| `Money.Add` | libs/go/money/money.go:55-65 | the sum is returned if and only if the assets agree and the exact sum fits int64: the sign test after wrapping misses no overflow |
| `Money.Sub` | libs/go/money/money.go:68-85 | likewise for the difference, the minimum int64 as subtrahend included |
| `Money.Neg` | libs/go/money/money.go:91-96 | fails exactly on the minimum; otherwise adding the result gives zero |
| `Money.ValidateAssetCode` | libs/go/money/money.go:42-52 | accepts exactly the codes of 1 to 12 upper-case letters and digits |
| `Outboxes.LedgerOutbox.DrainOnce` | services/ledger-core/internal/adapters/outbox/poller.go:74-138 | one drain sends exactly the well-formed rows before the first refusal, marks them if the marking update and the commit succeed and nothing otherwise, and every row ever marked was published |
| `Outboxes.LedgerOutbox.PublishBatch` | services/ledger-core/internal/adapters/outbox/poller.go:101-124 | the publish loop stops at the first broker failure and skips malformed rows |
| `Outboxes.SentInOrder` | services/ledger-core/internal/adapters/outbox/poller.go:74-124 | a drain's rows go out in id order, each once, with no gap: a well-formed row of the batch is sent if and only if no refused row precedes it |
| `Outboxes.BatchExact` | services/ledger-core/internal/adapters/outbox/poller.go:79-99 | the batch is the longest allowed run of the oldest unlocked unpublished rows |
| `Outboxes.TickProgress` | services/ledger-core/internal/adapters/outbox/poller.go:65-138 | with an accepting broker a drain strictly decreases the pending well-formed rows if and only if one of the hundred oldest pending rows is well formed; otherwise it changes nothing |
| `Outboxes.FewPoisonedWork` | services/ledger-core/internal/adapters/outbox/poller.go:65-138 | fewer than a batch of malformed rows can never hide all well-formed ones |
| `Outboxes.TickDrains` | services/ledger-core/internal/adapters/outbox/poller.go:65-138 | below that bound every drain takes at least one pending well-formed row off, and leaves the malformed ones |
| `Outboxes.Drained` | services/ledger-core/internal/adapters/outbox/poller.go:65-138 | below that bound n drains publish at least n well-formed rows, or all of them |
| `OutboxFates.FateExact` | services/ledger-core/internal/adapters/outbox/poller.go:65-138 | a pending well-formed row can still be published if and only if fewer than a hundred malformed pending rows stand before it, whatever drains and inserts follow; if so, one full drain more than there are well-formed rows waiting before it publishes it, whatever partial or failing drains and inserts happen in between |
| `OutboxFates.TicksExact` | services/ledger-core/internal/adapters/outbox/poller.go:65-138 | the same for drains alone with a broker that takes everything: some number of them publishes the row if and only if fewer than a hundred malformed pending rows stand before it |
| `OutboxFates.StuckForGood` | services/ledger-core/internal/adapters/outbox/poller.go:79-138 | with a hundred or more of them the row stays pending over every sequence of drains and inserts |
| `OutboxFates.GoesOut` | services/ledger-core/internal/adapters/outbox/poller.go:65-138 | with fewer it goes out, after a number of full drains fixed by the rows before it |
| `OutboxFates.BatchReaches` | services/ledger-core/internal/adapters/outbox/poller.go:79-99 | a drain's batch reaches an unlocked pending row exactly when fewer than its limit of such rows come before it, whatever other drains have locked |
| `Outboxes.Wedged` | services/ledger-core/internal/adapters/outbox/poller.go:65-138 | with nothing inserted, any positive number of drains changes the queue if and only if one of the hundred oldest pending rows is well formed; an empty queue is at rest too |
| `Outboxes.HeadOfPoison` | services/ledger-core/internal/adapters/outbox/poller.go:79-110 | a hundred malformed pending rows with nothing well-formed pending before them leave the batch without work, wherever they stand in the table |
| `Outboxes.ReconOutbox.DrainOutbox` | services/reconciliation/internal/adapters/postgres/store.go:73-127 | the reconciliation drain also settles poison rows, sends the well-formed ones up to the first refusal or failing update, and applies all of its marks or none; every row ever marked was published or is poison |
| `Outboxes.ReconOutbox.SettleBatch` | services/reconciliation/internal/adapters/postgres/store.go:98-124 | the loop stops at the first broker failure or failing update and has marked everything before it |
| `Outboxes.ReconProgress` | services/reconciliation/internal/adapters/postgres/store.go:73-127 | a reconciliation drain strictly decreases the pending rows if and only if there are some and the broker takes the first; no bound on poison rows is needed |
| `Mirrors.Handle` | services/reconciliation/internal/adapters/natsconsumer/consumer.go:88-140 | only posted events with readable amounts yield entries; anything else is ignored or terminated |
| `Mirrors.PostedHandled` | services/ledger-core/internal/app/events.go:26-67 | an event built from a well-formed transaction is never terminated, and its entries copy the postings: amounts survive their text form |
| `Mirrors.Mirror.InsertMirrorEntries` | services/reconciliation/internal/adapters/postgres/store.go:41-65 | the insert loop computes the table with every new id added once |
| `Mirrors.InsertedExact` | services/reconciliation/internal/adapters/postgres/store.go:41-65 | inserting keeps every row and the uniqueness of ids, adds only the given entries and leaves a row for each of their ids |
| `Mirrors.InsertedTwice` | services/reconciliation/internal/adapters/postgres/store.go:41-65 | inserting the same entries again changes nothing |
| `Mirrors.Mirror.Deliver` | services/reconciliation/internal/adapters/natsconsumer/consumer.go:88-140 | a delivery persists all entries of a message or none; the broker is told to redeliver exactly when persisting failed, and never to redeliver a message that cannot be read |
| `Keysets.WalkOrdered` | libs/go/httpx/httpx.go:248-347 | with rows inserted between the fetches, a walk is strictly ordered: it never returns a row twice |
| `Keysets.WalkComplete` | libs/go/httpx/httpx.go:248-347 | a walk that ends has returned every row that existed at its first fetch |
| `Keysets.WalkTerminates` | libs/go/httpx/httpx.go:304-347 | a walk ends as soon as it has made more fetches than the rows ever inserted can fill |
| `Keysets.WalkFixed` | services/ledger-core/internal/adapters/postgres/store.go:153-177 | over a fixed table the pages put together are the ordered listing |
| `Keysets.NoEmptyExtraPage` | libs/go/httpx/httpx.go:336-347 | a next cursor always leads to at least one more row, so no empty page follows a full last page |
| `Keysets.PageExact` | libs/go/httpx/httpx.go:336-347 | a page is the next limit rows beyond the cursor; there is a next cursor exactly when more are left, and it is the last row returned |
| `Keysets.ListingExact` | services/ledger-core/internal/adapters/postgres/store.go:153-177 | the ordered listing holds exactly the rows, each once, strictly ordered |
| `Keysets.OrderedUnique` | services/ledger-core/internal/adapters/postgres/store.go:153-177 | ... and is the only such list |
| `Keysets.Window` | libs/go/httpx/httpx.go:340-347 | a full page is kept, the extra row trimmed, and a cursor returned exactly when there was one: the last row kept |
| `Keysets.NormalizeLimit` | services/ledger-core/internal/adapters/postgres/store.go:84-93 | whatever the client asks for, at least one and at most a page and the probe row are fetched |
| `Statements.BuildStatement` | services/ledger-core/internal/adapters/postgres/store.go:1365-1447 | each line's running balance is the signed sum of all postings of that asset up to and including it, whatever the period and the page; opening and closing are the exact balances before and at the end of the period for every asset with a posting up to the end, in name order |
| `Statements.StatementPages` | services/ledger-core/internal/adapters/postgres/store.go:1365-1447 | following cursors over a fixed ledger lists every posting of the period exactly once, by effective time and id |
| `Statements.LastLineCloses` | services/ledger-core/internal/adapters/postgres/store.go:1365-1447 | the last line of an asset carries its closing balance |
| `Statements.ClosingAdds` | services/ledger-core/internal/domain/domain.go:248-263 | closing equals opening plus the period's total |
| `Statements.LineExact` | services/ledger-core/internal/domain/domain.go:258-263 | opening plus the window's running sum is the exact running balance: no int64 operation wraps |
| `Statements.LedgerEntriesOk` | services/ledger-core/internal/adapters/postgres/store.go:1332-1358 | in every reachable ledger the account's postings have distinct keys, positive amounts and int64 totals, so the statement theorems apply to every account |
| `Statements.EntriesExact` | services/ledger-core/internal/adapters/postgres/store.go:1332-1358 | a statement looks at exactly the account's postings of posted or reversed transactions |
| `Statements.SideTotal` | services/ledger-core/internal/adapters/postgres/store.go:1332-1358 | statements and the balance table add up the same postings |
| `Statements.BuildBalances` | services/ledger-core/internal/adapters/postgres/store.go:1388-1409 | one opening and one closing row per asset of either query, in name order |
| `Statements.BuildLines` | services/ledger-core/internal/adapters/postgres/store.go:1411-1444 | one line per window row, signed for the account |
| `Matchers.MatchNaive` | services/reconciliation/internal/domain/matcher.go:55-123 | the loop with its consumed flags equals the stateless rule: the first row of a reference takes the first compatible entry, else is a mismatch if the reference exists, else missing; later rows are duplicates. Stated on the fields of rows and entries as well |
| `Matchers.Partition` | services/reconciliation/internal/domain/matcher.go:55-123 | every external row lands in exactly one output list |
| `Matchers.EntryOnce` | services/reconciliation/internal/domain/matcher.go:75-110 | no mirror entry backs two rows of one run |
| `Matchers.MatchesDistinct` | services/reconciliation/internal/domain/matcher.go:66-110 | in the result of one run no reference is matched twice and no mirror entry used twice |
| `Matchers.UsedMeansRepeat` | services/reconciliation/internal/domain/matcher.go:80-95 | an entry already consumed can only belong to a row the duplicate guard has caught: the consumed test never fires on a candidate |
| `Matchers.Scan` | services/reconciliation/internal/domain/matcher.go:78-100 | the candidate loop finds the oldest compatible entry and the oldest of the reference |
| `Matchers.Judge` | services/reconciliation/internal/domain/matcher.go:66-118 | the verdict of one row, from the running state |
| `Matchers.IndexByRef` | services/reconciliation/internal/domain/matcher.go:56-63 | the index lists for each reference exactly its positions, oldest first |
| `ReconRuns.ReconStore.StartRun` | services/reconciliation/internal/app/service.go:173-248 | a run on a known source settles exactly the rows of its batch by the matcher's verdicts, records one discrepancy per finding, announces all but duplicates and counts both; otherwise nothing changes |
| `ReconRuns.RunWritten` | services/reconciliation/internal/adapters/postgres/store.go:290-310 | the two passes of updates by row id equal settling every row by its own verdict |
| `ReconRuns.Fixpoint` | services/reconciliation/internal/app/service.go:173-248 | with no new row or entry, a second run changes no row at all |
| `ReconRuns.SecondReport` | services/reconciliation/internal/app/service.go:173-248 | ... matches nothing and reports exactly the rows still open as missing again |
| `ReconRuns.OpenAfter` | services/reconciliation/internal/app/service.go:173-248 | a row still open after a run was the first with its reference, and the mirror does not know the reference |
| `ReconRuns.OpenDistinct` | services/reconciliation/internal/app/service.go:173-248 | no two rows still open share a reference |
| `ReconRuns.SettledForever` | services/reconciliation/internal/adapters/postgres/store.go:239-310 | over any sequence of runs and imports, matched and disputed rows never return to unmatched nor change in any other way |
| `ReconRuns.ReusedAcrossRuns` | services/reconciliation/internal/adapters/postgres/store.go:268-288 | after a run that matched a row, importing another row with the same reference, amount, asset and direction makes the next run give it the same entry: use-once does not hold across runs |
| `ReconRuns.ReuseExact` | services/reconciliation/internal/adapters/postgres/store.go:268-288 | an entry already backing a row is given to another one if and only if it is the oldest compatible entry of an open row that is the first with its reference |
| `ReconRuns.ImportSafe` | services/reconciliation/internal/app/service.go:113-248 | an import that avoids the references of the entries used so far is safe: the next run gives no entry a second row |
| `ReconRuns.WriteMatches` | services/reconciliation/internal/app/service.go:200-206 | the loop applies every match in order |
| `ReconRuns.WriteFindings` | services/reconciliation/internal/app/service.go:207-235 | each finding is recorded, disputes its row unless it is missing, and is announced unless it is a duplicate |
| `Deliveries.RunKeeps` | services/webhooks/internal/adapters/postgres/repo.go:321-487 | for any number of workers, expired leases, lost outcomes and manual retries: pending has 0 attempts, failed 1 to 4, dead exactly 5, and there is one row per subscription and event |
| `Deliveries.MoveKeeps` | services/webhooks/internal/adapters/postgres/repo.go:389-487 | each single move keeps the table and the outstanding claims in order |
| `Deliveries.EnqueueKeeps` | services/webhooks/internal/adapters/postgres/repo.go:322-335 | enqueueing leaves existing rows as they are and gives every pair exactly one row |
| `Deliveries.ReEnqueue` | services/webhooks/internal/adapters/postgres/repo.go:322-335 | enqueueing events that have their rows changes nothing |
| `Deliveries.DeliveredFinal` | services/webhooks/internal/dispatcher/dispatcher.go:81-108 | with one dispatcher, which waits for its batch before the next claim, a delivered row never changes again, over any run |
| `Deliveries.DeliveredLost` | services/webhooks/internal/adapters/postgres/repo.go:461-487 | for any number of workers: a delivered row loses that status if and only if an outstanding claim on it is recorded as failed |
| `Deliveries.TwoWorkers` | services/webhooks/internal/adapters/postgres/repo.go:461-487 | it happens from an empty table: one row, claimed twice because a lease ran out, delivered by one worker and then overwritten with failed by the other |
| `Deliveries.BackoffGrows` | services/webhooks/internal/domain/domain.go:165-189 | waits grow with the attempts, between one minute and twelve hours |
| `Dispatchers.DeliveryRepo.InsertPending` | services/webhooks/internal/adapters/postgres/repo.go:322-335 | the insert loop skips pairs that have a row and keeps the status rules |
| `Dispatchers.DeliveryRepo.ClaimDue` | services/webhooks/internal/adapters/postgres/repo.go:423-458 | claims only due rows, the longest-waiting first, at most the limit and all of them below it, and leases exactly those |
| `Dispatchers.DeliveryRepo.NextDue` | services/webhooks/internal/adapters/postgres/migrations/0004_maint_functions_drop_system_drain.sql:103-113 | the next claim is a due row with the earliest next attempt |
| `Dispatchers.DeliveryRepo.MarkDelivered` | services/webhooks/internal/adapters/postgres/repo.go:461-470 | afterwards the row can never be claimed again, at any time; all other rows stay, and the status rules survive whatever the row's status was |
| `Dispatchers.DeliveryRepo.MarkFailed` | services/webhooks/internal/adapters/postgres/repo.go:474-487 | afterwards the row can be claimed exactly from the next attempt on, or never when dead; all other rows stay, and the status rules survive whatever the row's status was, for the attempt counts a worker passes |
| `Dispatchers.DeliveryRepo.Requeue` | services/webhooks/internal/adapters/postgres/repo.go:389-412 | succeeds exactly on failed and dead rows, which start over with no attempts; otherwise nothing changes |
| `Dispatchers.DeliveryRepo.Process` | services/webhooks/internal/dispatcher/dispatcher.go:111-147 | one attempt ends delivered, failed with the next backoff, or dead after the fifth |
| `Dispatchers.DeliveryRepo.ProcessAll` | services/webhooks/internal/dispatcher/dispatcher.go:93-107 | every claimed row is attempted once |
| `Dispatchers.DeliveryRepo.Round` | services/webhooks/internal/dispatcher/dispatcher.go:81-108 | a round claims due rows and works off exactly those |
| `Dispatchers.DeliveryRepo.Tick` | services/webhooks/internal/dispatcher/dispatcher.go:81-108 | batch after batch, every due row is attempted exactly once, nothing is due afterwards, and the status rules survive |
| `Signatures.PrintParse` | services/webhooks/internal/signature/signature.go:52-141 | for every int64 timestamp and non-empty list of secrets, parsing the printed header returns the timestamp and exactly the signatures, in order |
| `Signatures.EverySecretVerifies` | services/webhooks/internal/signature/signature.go:74-100 | inside the tolerance the header verifies with each secret it was signed with |
| `Signatures.OnlyThoseVerify` | services/webhooks/internal/signature/signature.go:74-100 | ... and with no other secret, unless its MAC coincides with one of theirs |
| `Signatures.RecentExact` | services/webhooks/internal/signature/signature.go:74-100 | the tolerance test means at most that far away in either direction, except for timestamps more than 292 years ahead, which pass |
| `Signatures.HexRoundTrip` | services/webhooks/internal/signature/signature.go:43-45 | decoding the hex text returns the bytes |
| `Signatures.HeaderMulti` | services/webhooks/internal/signature/signature.go:56-63 | the builder prints the timestamp and one v1 part per secret, in order |
| `Signatures.ParseHeader` | services/webhooks/internal/signature/signature.go:112-141 | one pass over the parts: the last timestamp, every v1 value in order, unknown keys ignored, malformed parts and missing pieces refused |
| `Signatures.VerifyAt` | services/webhooks/internal/signature/signature.go:74-100 | parse, timestamp, then any candidate that decodes to the MAC |
| `Rotations.GraceVerifies` | services/webhooks/internal/domain/domain.go:234-247 | after one rotation a delivery signed inside the 24 hour grace verifies with the old secret and with the new one, however often expired secrets are purged |
| `Rotations.GraceExact` | services/webhooks/internal/domain/domain.go:241-247 | a receiver still on the old secret accepts a delivery if and only if the window is still open (or the two MACs coincide), however often expired secrets are purged |
| `Rotations.SecondRotation` | services/webhooks/internal/adapters/postgres/repo.go:197-220 | another rotation ends the first one's window at once: a receiver on the first secret then accepts only what coincides with a MAC of the two newer ones |
| `Rotations.PurgeHarmless` | services/webhooks/internal/adapters/postgres/repo.go:222-236 | purging expired secrets never changes who signs |
| `Rotations.Subscription.RotateSecret` | services/webhooks/internal/app/service.go:132-146 | the old secret moves to the previous column until now plus 24 hours |
| `Rotations.Subscription.PurgeExpired` | services/webhooks/internal/adapters/postgres/migrations/0004_maint_functions_drop_system_drain.sql:130-150 | clears the previous secret exactly when its window is over |
| `Rotations.Subscription.SecretsToSign` | services/webhooks/internal/domain/domain.go:234-247 | the current secret, then the previous one while its window is open |
| `Outcomes.CreateExact` | services/ledger-core/internal/adapters/postgres/store.go:657-741 | a create whose key is unused goes through if and only if the request is well formed and balanced, ledger and accounts are known and fit, ids are new and no column runs over; the row written then has the request's own fields, each balance row moves by its postings, the key stores what the client is shown, a posted one is announced; every refusal has its own error, and nothing changes |
| `Outcomes.PostExact` | services/ledger-core/internal/adapters/postgres/store.go:809-840 | posting is decided by the stored row: a draft is posted now, its amounts move from the pending to the posted columns and it is announced, a posted one is returned as it is, a reversed one is an invalid state |
| `Outcomes.PostUnknown` | services/ledger-core/internal/adapters/postgres/store.go:809-815 | an unknown transaction is not found |
| `Outcomes.ReverseExact` | services/ledger-core/internal/adapters/postgres/store.go:865-965 | a reversal whose key is unused goes through if and only if the original is posted, ids are new and no column runs over; the new row takes effect, is posted and created now, under the request's key or reversal-of:<id>, with the original's postings on the other side; the original keeps all but its status and link; every refusal has its error |
| `Outcomes.ReverseUnknown` | services/ledger-core/internal/adapters/postgres/store.go:880-889 | an unknown original is not found |
| `Outcomes.ReverseTooLong` | services/ledger-core/internal/app/service.go:283-291 | keys beyond 255 characters and reasons beyond 1024 are refused before the store is asked |
| `Outcomes.FaultExact` | services/ledger-core/internal/adapters/postgres/store.go:484-519 | a list of postings is refused if and only if some account is unknown or of another ledger, and the first such posting decides between not found and a validation error |
| `Outcomes.LedgerExact` | services/ledger-core/internal/adapters/postgres/store.go:118-127 | a ledger needs a new id and a new name |
| `Outcomes.AccountExact` | services/ledger-core/internal/adapters/postgres/store.go:182-203 | an account needs a known ledger, a new id and a path of its own in that ledger |
| `HoldOutcomes.HoldExact` | services/ledger-core/internal/adapters/postgres/store.go:1017-1119 | a reservation whose key is unused goes through if and only if the request is well formed, account and ledger fit, the row has at least the amount free, the id is new and the row's version can grow; it is granted for exactly the free funds too; each refusal has its error, in the order of the checks, and nothing changes |
| `HoldOutcomes.CaptureExact` | services/ledger-core/internal/adapters/postgres/store.go:1142-1203 | a capture is decided by the hold's status, the amount and the transaction named; it stores and returns the hold as captured with that transaction, frees all of its funds and announces the part taken and the part given back |
| `HoldOutcomes.CaptureInvalid` | services/ledger-core/internal/app/service.go:371-381 | an amount that is not positive or names no asset is refused, and an unknown hold is not found |
| `HoldOutcomes.ReleaseExact` | services/ledger-core/internal/adapters/postgres/store.go:1206-1239 | a release is decided by the hold's status; it stores and returns the hold as released, frees its funds and announces them |
| `HoldOutcomes.ReleaseUnknown` | services/ledger-core/internal/adapters/postgres/store.go:1206-1213 | an unknown hold is not found |
| `Stories.RunStory` | services/ledger-core/internal/adapters/postgres/store.go:865-1239 | after any run, for every hold and every reversal the outbox holds exactly the events its row calls for, each once, and every event of a hold or reversal describes its row |
| `Stories.HoldStatusTold` | services/ledger-core/internal/adapters/postgres/store.go:1142-1239 | a hold is captured if and only if exactly one captured event names it, released if and only if exactly one released event does, active if and only if neither does; the captured event carries the hold's transaction and splits its amount |
| `Retries.CreateAgain` | services/ledger-core/internal/adapters/postgres/store.go:657-676 | a create sent again after any later run is answered with the first reply, field by field, marked as replayed, if it is the same request, and refused as a conflict if it is not; nothing changes |
| `Retries.ReverseAgain` | services/ledger-core/internal/adapters/postgres/store.go:865-879 | the same for a reversal, whatever has been done to the original or the reversal since |
| `Retries.CreateOverReversal` | services/ledger-core/internal/adapters/postgres/store.go:636-676 | a create under a reversal's key is always a conflict, even if everything else agrees |
| `Retries.ReversalOverCreate` | services/ledger-core/internal/adapters/postgres/store.go:636-652 | ... and so is a reversal under a create's key |
| `Retries.HoldAgain` | services/ledger-core/internal/adapters/postgres/store.go:1017-1036 | a reservation sent again is answered with the hold as it is by then: the first reply, but for its end; another request under its key is a conflict |
| `Compensations.ReversalInTime` | services/ledger-core/internal/domain/domain.go:453-488 | a reversal carried out at now leaves every historical sum before now as it was, and from now on adds the original's amounts to the other side |
| `Compensations.CreateInTime` | services/ledger-core/internal/adapters/postgres/store.go:657-741 | a posted create counts in every historical sum from the time the client gave, or from now; a draft in none |
| `Compensations.PostInTime` | services/ledger-core/internal/adapters/postgres/store.go:809-840 | a draft counts, once posted, from its own effective time, whenever that is: it can change reports about the past |
| `Progresses.NeverStuck` | services/ledger-core/internal/adapters/postgres/store.go:657-1119 | no deadlock: after any interleaving of any requests, those in flight can all be finished without aborting any of them |
| `Progresses.Unstuck` | services/ledger-core/internal/adapters/postgres/store.go:880-1070 | as long as some request is unfinished, one can take its next step without waiting: first those holding a balance row, then those holding an original, then anyone |
| `Concurrent.OnTime` | services/ledger-core/internal/adapters/postgres/store.go:657-1119 | a request that ends while its key is unused gets exactly the reply its atomic step gives at that moment, the refusals included; after a unique violation, which was then another row's id, it is refused as a conflict |
| `Domain.BalancedExact` | services/ledger-core/internal/domain/domain.go:396-443 | the balance rule in full: two or more postings, asset codes of 1 to 12 capital letters and digits, positive amounts, known sides, equal sides per asset that fit int64 |
| `Fingerprints.HoldFingerprintExact` | services/ledger-core/internal/adapters/postgres/store.go:593-621 | two reservations have one fingerprint if and only if account, amount, metadata (nil as empty) and the expiry the client gave agree |
| `Fingerprints.ReverseFingerprintExact` | services/ledger-core/internal/adapters/postgres/store.go:846-858 | two reversals have one fingerprint if and only if original and reason agree |
| `Matchers.AllRight` | services/reconciliation/internal/domain/matcher.go:55-123 | every match is the first row of its reference with the oldest entry of equal reference, amount, asset and side (a blank side fits either); every mismatch carries an entry of the row's reference of which none backs it; every missing row's reference is absent from the mirror; duplicates repeat an earlier row |
| `Matchers.VerdictExact` | services/reconciliation/internal/domain/matcher.go:66-118 | ... and conversely the fields of rows and entries decide the verdict of every row |
| `ReconRuns.RunExact` | services/reconciliation/internal/app/service.go:173-248 | what a run makes of each row, from the fields of rows and entries: matched with the oldest entry that backs it, disputed as a repeat or mismatch, left open when the reference is unknown, untouched when settled or of another source |
| `ReconRuns.CountsExact` | services/reconciliation/internal/app/service.go:173-248 | the matched count is the number of rows that became matched; with the unmatched count it makes up the open rows of the source |
| `ReconRuns.ReportsExact` | services/reconciliation/internal/app/service.go:207-235 | one discrepancy per finding, in order, for this run |
| `ReconRuns.PublishedExact` | services/reconciliation/internal/app/service.go:373-386 | exactly the findings that are no duplicates are announced |
| `Mirrors.HandlingExact` | services/reconciliation/internal/adapters/natsconsumer/consumer.go:88-140 | which messages are ignored, terminated or turned into entries, and each entry's fields |
| `Keysets.ListingSorted` | services/ledger-core/internal/adapters/postgres/store.go:153-177 | a listing is sorted by time, then id, newest first where asked |
| `Outboxes.BatchesApart` | services/ledger-core/internal/adapters/outbox/poller.go:79-99 | two drains at once never take the same row |
| `Signatures.SplitJoined` | services/webhooks/internal/signature/signature.go:112-141 | splitting a header at its commas loses nothing |
| `Signatures.SplitUnique` | services/webhooks/internal/signature/signature.go:112-141 | ... and undoes joining, for parts without commas |
| `Signatures.TrimExact` | services/webhooks/internal/signature/signature.go:112-141 | trimming takes off blanks only, and all of them at either end |
| `Signatures.CutExact` | services/webhooks/internal/signature/signature.go:112-141 | a part is a key and a value around its first equals sign, or malformed without one |
| `Signatures.ParsedExact` | services/webhooks/internal/signature/signature.go:112-141 | a header is accepted if and only if all its parts are well formed, the timestamps are integers, and it has a timestamp and a v1 value |
| `Signatures.ParsedValues` | services/webhooks/internal/signature/signature.go:112-141 | ... and then the last timestamp and all v1 values in order are what is read |
| `Signatures.RefusalExact` | services/webhooks/internal/signature/signature.go:74-100 | the verdict on any header: malformed, too old, a mismatch, or valid if and only if recent and one of its values decodes to the MAC |
| `Rotations.PurgeExact` | services/webhooks/internal/adapters/postgres/migrations/0004_maint_functions_drop_system_drain.sql:130-150 | a purge keeps the previous secret exactly while its window is open, and the current one always |
| `Deliveries.BackoffExact` | services/webhooks/internal/domain/domain.go:165-189 | 1, 5 and 30 minutes, 2 and 12 hours |
| `Deliveries.FinishExact` | services/webhooks/internal/dispatcher/dispatcher.go:111-147 | what recording an outcome makes of every row of the table |
| `Deliveries.LeaseExact` | services/webhooks/internal/adapters/postgres/repo.go:423-458 | a claimed row comes due again exactly when its lease runs out; all others stay |
| `Deliveries.RequeueExact` | services/webhooks/internal/adapters/postgres/repo.go:389-412 | a manual retry makes a failed or dead row due at once with no attempts, and touches no other |
| `Deliveries.CrashRecovers` | services/webhooks/internal/adapters/postgres/repo.go:423-458 | a worker that dies loses its claim and nothing else: the row comes due again when the lease runs out, and not before |
| `Deliveries.SwitchExact` | services/webhooks/internal/adapters/postgres/repo.go:423-458 | the rows of an inactive subscription are never due, those of an active one by their own status and time |

## Left out

- One tenant: the tables are one tenant's; row-level security, triggers and the bodies of other SECURITY DEFINER functions are not modelled.
- PostgreSQL: unique constraints, row locks, SKIP LOCKED, atomic commit and BIGINT range errors are taken to work as documented. A row lock is modelled as "a writer waits while it would change a row another request holds", and a locked row is read as it is when the lock is granted.
- Requests without a key (posting, capturing, releasing) take their row locks first and run as one piece in `Concurrent`.
- A reply lost after its commit, and failures of the database itself during the second lookup, are not modelled.
- UUIDs are natural numbers with 0 as the nil UUID; their text is the decimal text; fresh ids are chosen by the caller of a step, and a clash is a unique violation.
- Hashes (SHA-256, UUIDv5) are injective: a fingerprint is the record that is hashed, a mirror entry id the pair of transaction and index.
- HMAC is an arbitrary function of secret, timestamp and body; AES-GCM encryption of stored secrets is not modelled.
- sort.Slice and sort.Strings appear through their results.
- Times are integers in microseconds (nanoseconds in `Signatures`); truncation of timestamps is not modelled. time.Unix is taken as exact, without its internal wrap near the ends of int64.
- Rows with a NULL request hash, hold expiry (nothing sets it), and the tenant purge.
- HTTP, JSON, CSV and cursor text, NATS itself, configuration and logging: a request, an event or a cursor is its content. Encoding a cursor and decoding it is not modelled.
- Names, descriptions and types of accounts that no rule looks at; the human-readable details of findings; status codes and error texts of webhook attempts.
- A broker that takes a message but reports a failure counts as a drain that publishes and then fails to commit.
- Other services (identity, gateway, sandbox), clients and the console: thin next to the ledger.
- Domain.BalancedPermuted: which error is reported first does depend on the order of postings; only acceptance does not.
- LedgerRuns.CloseSucceeds: short of exhausting the int64 version counter of the row.
- Keysets.WalkTerminates: rows are only inserted between fetches, not moved or deleted, as the listed tables are append-only; ids are never the nil UUID.
- Statements.BuildStatement: the three query results are parameters, characterised by the sums and rows the SQL asks for; the lookup of the account is left out.
- TrialBalances.SumRows: the query results are a parameter, characterised by `CurrentRows` and `HistoricalRows`; their order by account path is not used.
- OutboxFates.StuckForGood: speaks of the only poller; a drain that runs while another holds malformed rows locked passes over them (`OutboxFates.BatchReaches` covers any locks).
- The position of a row in the outbox list stands for its BIGSERIAL id, so the order of ids and the order of commits are taken as equal; in PostgreSQL a lower id can become visible after a higher one.
- Outboxes.ReconOutbox.DrainOutbox: the order of the list stands for created_at; the error that reports a poison row is not returned.
- ReconRuns.ReconStore.StartRun: the order of the lists stands for (occurred_at, id) of external rows and for the listing order of the mirror; run timestamps and the running status inside the database transaction are not kept.
- Dispatchers.DeliveryRepo.Tick: one clock reading per tick, and the workers of a batch run one after the other (they write different rows); `Deliveries` covers arbitrary overlaps.
- Dispatchers.DeliveryRepo.ClaimDue: the order in which claims are handed out (by creation) is not modelled, as a batch is worked off concurrently.
- Deliveries.EnqueueKeeps: the fan-out supplies new ids, status pending and no attempts; matching of event types is left out.
