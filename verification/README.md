# NOC-IQ backend: verified models of its state machines

This project models the parts of the NOC-IQ backend whose correctness depends on more than one
function: how webhook deliveries are retried, replayed and recovered, how payments are listed and
SLA results are settled, which SLA result of an outage is authoritative, how calls are limited,
how the contract bridge falls back, how configuration versions are numbered, how refresh tokens
rotate, what text a contract request is hashed as, which jobs are swept, and what an import stores.

Tables are maps or sequences, clocks are parameters, and each network answer is an arbitrary value
chosen by the environment. Queries without an order return any row, or the rows in any order.
Each component has its state and its steps as functions, lemmas over every run of those steps, and
a class whose methods do what the code does statement by statement and are proved equal to the steps.
`dafny verify dfyconfig.toml` checks everything.

| file | component |
|---|---|
| `Webhooks.dfy`, `WebhookService.dfy` | delivery engine: budget, back-off, classification, replay, recovery |
| `Keyset.dfy`, `Iso.dfy` | payment listing by cursor; the printed and parsed timestamp |
| `Settlement.dfy` | SLA calculator, ledger, payments, dashboard totals |
| `SlaLedger.dfy` | the authoritative-latest flag, disputes, migration 0012 |
| `RateLimits.dfy` | sliding-window limiters and token bucket |
| `ConfigHistory.dfy` | configuration diffs and version numbers under concurrency |
| `Cache.dfy`, `Bridge.dfy` | TTL cache, balance adapter, circuit breakers and fallback chain |
| `TokenFamily.dfy` | sessions and refresh-token families |
| `Canonical.dfy` | canonical request form |
| `Retention.dfy` | job retention sweeps |
| `ImportOutages.dfy` | partial-mode outage import |
| `Common.dfy` | options, string order, set facts |

## What the proofs found

- A cursor whose id is the empty string is ignored by `list_cursor`: the listing starts again. A
  finished walk still loses nothing, but it is in order and free of repetitions if and only if no
  cursor it followed had an empty id (`Keyset.WalkLosesNothing`); on a fixed table following the
  cursors ends if and only if no page boundary falls on such a row (`Keyset.FixedWalkFinishesIff`).
  The empty id is a table that the query may meet, not one that the program makes: both of its
  inserters print ids that start with "pay_" (app/repositories/payment_repository.py:245,
  app/api/v1/endpoints/payments.py:218), and without empty ids every cursor is active
  (`Keyset.NonEmptyIdsKeepCursorsActive`). The listing endpoint itself answers a request without
  cursor by offset paging, so the first cursor has to come from the repository.
- A network error leaves the previous response code in the delivery row. A delivery once answered
  with a terminal code is therefore not retried after a later timeout, although budget is left
  (`Webhooks.StaleCodeBlocksRetry`); `Webhooks.DispatchVerdict` says exactly when a retry happens.
- `dispatch_delivery` has no guard of its own, and queued tasks call it directly: on a delivered row
  it can end in dead-letter (`Webhooks.BareDispatchLeavesSuccess`). All other entry points keep
  delivered rows, and `Webhooks.RunKeepsTable` says exactly when a run does.
- The constraint on (outage, type) that migration 0011 adds lets only one result of each kind per
  outage be paid (`Settlement.SecondOfAKindIsRejected`); `Settlement.RunSettlesIff` gives the exact
  condition and `Settlement.BlockedForEver` says that it never goes away. The dashboard's net payout
  therefore differs from the net of the payments by the signed total of the unpaid results
  (`Settlement.DashboardAccounts`).
- The default of `SLAResultORM.created_at` is evaluated once, when the module is loaded
  (app/models/orm/sla.py:22), so rows stored by one process tie in the fallback of `get_by_outage`.
- After a rotation the new session gets the family's number plus one more, because the family row
  object has already been incremented. The comparison meant to detect reuse then never fires in a
  sequential run (`TokenFamily.RefreshVerdict`); reuse is stopped by the deletion of the session.
- Config diffs write an absent member and a null member alike. Applying a diff restores the new
  configuration if and only if each null in it was printed as null before. Interleaved writers keep
  version numbers gapless but can store a diff against an outdated snapshot
  (`ConfigHistory.InterleavingBreaksReplay`); `ConfigHistory.InterleavedRunReplaysIff` says exactly
  which interleavings can be replayed, in terms of the version that each writer had read.
- Canonicalisation promises that empty fields do not matter. This fails for an empty object that
  gets a blank member, if and only if nothing else in its object is non-blank and that object is
  itself a member of an object (`Canonical.EmptyObjectEditIff`). For members in general
  `Canonical.ReplacingIsStableIff` is the exact condition.

## Model

| member | source | states |
|---|---|---|
| Webhooks.ClassifyIsServerError | app/services/webhook_service.py:484-506 | the two code tables and the fallback together retry exactly the 5xx class |
| Webhooks.KeyInjective | app/services/webhook_service.py:527-544 | the text hashed into an idempotency key determines webhook, event and timestamp |
| Webhooks.KeyTexts | app/services/webhook_service.py:543-544 | the hashed text of each event, letter by letter |
| Webhooks.DispatchVerdict | app/services/webhook_service.py:687-804 | success iff 2xx; retry iff budget left and last code absent, zero or 5xx; otherwise dead-letter; exact times, code and back-off; key and event fixed |
| Webhooks.FactorDoubles | app/services/webhook_service.py:778-788 | the back-off factor starts at one and doubles with every retry |
| Webhooks.DefaultSchedule | app/core/config.py:110-111 | the default settings retry after 30, 240 and 2400 seconds |
| Webhooks.StepIsPointwise | app/services/webhook_service.py:732-1085 | every entry point, the bare dispatch of queued tasks included, treats each delivery on its own and inserts at most one |
| Webhooks.StepPosts | app/services/webhook_service.py:732-1085 | on the columns: each entry point posts exactly the rows it is for, once each, and leaves all others as they were |
| Webhooks.PostedVerdict | app/services/webhook_service.py:732-1085 | the state, attempts and code of every posted row; replayed and recovered dead letters start from nothing, other rows from what they have |
| Webhooks.InsertsIff | app/services/webhook_service.py:643-684 | a delivery is inserted iff its id is new and none exists for the same webhook, event and timestamp |
| Webhooks.AddedVerdict | app/services/webhook_service.py:811-895 | what is inserted: pending, dead-lettered unposted on a schema error, or posted once with its verdict |
| Webhooks.ReplayIsFirstDispatch | app/services/webhook_service.py:931-963 | a replayed dead letter fares exactly as a fresh delivery of the same event on its first dispatch |
| Webhooks.ReplayVerdict | app/services/webhook_service.py:931-963 | a replay is scheduled again iff there is budget and the answer was none, zero or 5xx, whatever code the row held |
| Webhooks.InContextIff | app/services/webhook_service.py:966-1000 | which dead letters a context replay is for, for each combination of filters |
| Webhooks.StepKeepsTable | app/services/webhook_service.py:643-1085 | each entry point keeps all rows consistent, keys unique and fixed, and recorded attempts; only a bare dispatch of that very delivery touches a delivered row |
| Webhooks.RunKeepsTable | app/services/webhook_service.py:643-1085 | the same over every run; a delivered row stays as it is unless a task dispatches it again, which leaves one more attempt |
| Webhooks.PostKeepsPace | app/services/webhook_service.py:778-801 | an attempt made when due keeps attempts counted, spaced by the back-off and within budget |
| Webhooks.BoundedDelivery | app/services/webhook_service.py:732-914 | every run of creation, first or due dispatches and sweeps: at most 1 + max(0, M) attempts, each at least a back-off after the last, RETRYING within budget, no retry scheduled beyond the cap |
| Webhooks.DueSweepDecreases | app/services/webhook_service.py:898-914 | a sweep that finds a delivery due reduces the attempts it has left |
| Webhooks.SweepsUseAttempts | app/services/webhook_service.py:898-914 | along every run of due sweeps the attempts a delivery has left fall by one each time |
| Webhooks.SweepsSettle | app/services/webhook_service.py:732-914 | repeated sweeps of the table bring every dispatched delivery to SUCCESS or DEAD_LETTER once as many were late enough as it has attempts left, whatever the endpoints answer |
| Webhooks.RecoveryConserves | app/services/webhook_service.py:1041-1079 | recovery posts each in-window undelivered row exactly once, leaves none pending, keeps keys, touches nothing else |
| Webhooks.StaleCodeBlocksRetry | app/services/webhook_service.py:759-776 | a run of a trigger answered 404 and a manual retry that times out ends in dead-letter with budget left |
| Webhooks.BareDispatchLeavesSuccess | app/services/webhook_service.py:732-766 | the unguarded dispatch keeps a delivered row delivered iff the answer is 2xx |
| WebhookService.Service.CreateDelivery | app/services/webhook_service.py:643-684 | a pending row with the generated key is stored unless the timestamp does not parse or id or key is taken; on printed timestamps it is the step of the model |
| WebhookService.Service.DispatchDelivery | app/services/webhook_service.py:732-804 | the statement-by-statement dispatch is the row transformation of the model; unknown ids change nothing |
| WebhookService.Service.RetryPending | app/services/webhook_service.py:898-914 | in any row order the sweep dispatches exactly the due rows and counts them |
| WebhookService.Service.ReplayDeadLetter | app/services/webhook_service.py:931-963 | only dead letters are reset and dispatched; the result says whether it was one |
| WebhookService.Service.ReplayByContext | app/services/webhook_service.py:966-1012 | min(limit, matches) matching dead letters are replayed, nothing else |
| WebhookService.Service.RecoverWindow | app/services/webhook_service.py:1020-1085 | windows that end before they start in calendar order are refused; counts equal the initial in-window classes and add up to the total |
| Iso.IsoRoundTrip | app/api/v1/endpoints/payments.py:100-103 | fromisoformat reads back every printed timestamp, naive or aware, with or without fraction |
| Iso.ReadIsExact | app/api/v1/endpoints/payments.py:100-103 | a text that is read as a stamp is the text of that stamp, or has a fraction of six zeros besides |
| Iso.IsoTexts | app/repositories/payment_repository.py:183-186 | two printed stamps, character by character |
| Iso.TicksOrder | app/repositories/payment_repository.py:168-175 | stamps are ordered by year, month, day, hour, minute, second and microsecond |
| Keyset.CursorRoundTrip | app/repositories/payment_repository.py:183-186 | the cursor text parses back to the (date, id) it was printed from, whatever the id contains |
| Keyset.CursorTextIs | app/repositories/payment_repository.py:183-186 | a printed cursor, character by character |
| Keyset.QueryIsExact | app/repositories/payment_repository.py:159-177 | the query returns exactly the selected rows, strictly descending in the listing order |
| Keyset.SelectedIff | app/repositories/payment_repository.py:159-171 | a row is selected iff it meets every non-empty filter and comes after an active cursor in calendar and id order |
| Keyset.ListingIsNewestFirst | app/repositories/payment_repository.py:173-177 | the listing is newest first, and by descending id within one moment |
| Keyset.PageShape | app/repositories/payment_repository.py:173-188 | items are the first rows, has_more tells whether rows remain, the cursor names the last item |
| Keyset.WalkLosesNothing | app/repositories/payment_repository.py:150-188 | a finished walk over a growing table holds every matching row of the start and only matching rows; it is strictly descending iff no cursor followed had an empty id |
| Keyset.WalkInOrderIff | app/repositories/payment_repository.py:150-188 | at every point of a walk over a growing table what was received is strictly descending iff no cursor followed had an empty id |
| Keyset.NonEmptyIdsKeepCursorsActive | app/repositories/payment_repository.py:167-171 | on tables without empty ids every cursor of every walk is active |
| Keyset.FixedWalkIsTheListing | app/repositories/payment_repository.py:150-188 | on a fixed table every finished walk is exactly the sorted filtered table |
| Keyset.FixedWalkFinishesIff | app/repositories/payment_repository.py:167-171 | following the cursors ends iff no page boundary falls on an empty id |
| Keyset.EmptyIdLoops | app/repositories/payment_repository.py:167-171 | a two-row table on which the reader never finishes |
| Settlement.AssessAmount | app/services/sla/sla_calculator.py:22-73 | the amount equals a formula without percentages or floor of the ratio; sign, kind, verdict, rating tier and bounds |
| Settlement.AmountFallsWithMttr | app/services/sla/sla_calculator.py:24-57 | a longer repair never pays more |
| Settlement.AmountRisesWithThreshold | app/services/sla/sla_calculator.py:24-57 | a larger threshold never pays less |
| Settlement.SeverityCaseIsIgnored | app/services/sla/sla_calculator.py:8-24 | severities are looked up in lower case; only an unconfigured one is an error |
| Settlement.LedgerIsCalculated | app/repositories/sla_repository.py:59-79 | after every run the ledger is exactly the sequence of calculated results |
| Settlement.RunKeepsBooks | app/repositories/payment_repository.py:235-259 | every run: payments match their result's kind and absolute amount, one per result |
| Settlement.RunKeepsUnique | alembic/versions/0011_payment_deduplication.py:10-24 | payment ids, settled results and (outage, type) pairs stay unique over every run |
| Settlement.PaymentsConserve | app/repositories/payment_repository.py:235-259 | net paid equals the signed total of the settled results |
| Settlement.SettlementConserves | app/repositories/payment_repository.py:235-259 | conservation and no double payment over every run of storing and settling |
| Settlement.SettledRunMatchesDashboard | app/repositories/sla_repository.py:180-219 | once all results are settled, payments net to the dashboard's net payout |
| Settlement.KpisGrow | app/repositories/sla_repository.py:185-219 | one more result counts one outage and its violation and adds its amount to rewards or penalties and to the net |
| Settlement.DashboardAccounts | app/repositories/sla_repository.py:180-219 | after every run the net payout is the net of the payments plus the signed total of the unpaid results |
| Settlement.SettlesIff | alembic/versions/0011_payment_deduplication.py:10-24 | a settled result gets its payment back; another gets one iff no settled result of its outage has its kind |
| Settlement.OwnRunKeepsOutages | app/api/v1/endpoints/outages.py:480-532 | as long as results are settled under their own outage every payment names the outage of its result |
| Settlement.RunSettlesIff | alembic/versions/0011_payment_deduplication.py:10-24 | the same condition for the books left by any run of the callers |
| Settlement.BlockedForEver | alembic/versions/0011_payment_deduplication.py:10-24 | a result blocked by a paid one of its outage and kind stays unpaid in every continuation of the run |
| Settlement.SecondOfAKindIsRejected | alembic/versions/0011_payment_deduplication.py:10-24 | a run after which the second result of an outage and kind is refused its payment |
| Settlement.Repositories.StoreResult | app/repositories/sla_repository.py:59-79 | the result is appended under the next id |
| Settlement.Repositories.CreateForSlaResult | app/repositories/payment_repository.py:235-259 | missing id refused; existing payment returned; otherwise one payment created or rejected by a constraint |
| SlaLedger.BackfillIsExact | alembic/versions/0012_sla_latest_backfill.py:21-63 | of each outage's flagged rows exactly the highest id stays flagged; nothing else changes; idempotent |
| SlaLedger.StepKeepsAuthority | app/repositories/sla_repository.py:38-79 | each operation keeps at most one latest row per outage, the one created or promoted last |
| SlaLedger.SingleLatest | app/api/v1/endpoints/sla_dispute.py:116-237 | the same along every run from any backfilled table |
| SlaLedger.RunKeepsDisputes | app/api/v1/endpoints/sla_dispute.py:46-237 | never two open disputes on a result; proposals stay in their outage |
| SlaLedger.CreateVerdict | app/repositories/sla_repository.py:38-79 | the stored row is the given result, flagged; only flags of its outage change |
| SlaLedger.FlagVerdict | app/api/v1/endpoints/sla_dispute.py:46-85 | one dispute is opened against the result itself, or nothing happens |
| SlaLedger.ProposeVerdict | app/api/v1/endpoints/sla_dispute.py:116-151 | the proposal is the recalculated amount for the baseline's outage, unflagged and linked; nothing else changes |
| SlaLedger.ResolveVerdict | app/api/v1/endpoints/sla_dispute.py:172-237 | the dispute is closed with the given status; rows change only when a proposal is applied |
| SlaLedger.DisputeCorrectsTheLedger | app/api/v1/endpoints/sla_dispute.py:46-237 | flag, propose and apply: the latest row is the recalculation, the disputed row is kept and the dispute is closed |
| SlaLedger.Database.CreateResult | app/repositories/sla_repository.py:38-79 | demotes the outage's flagged rows and inserts a flagged one |
| SlaLedger.Database.FlagDispute | app/api/v1/endpoints/sla_dispute.py:46-85 | opens a dispute unless the result is unknown or has one |
| SlaLedger.Database.CreateProposed | app/api/v1/endpoints/sla_dispute.py:96-163 | stores the recalculated row unflagged and links it to the open dispute |
| SlaLedger.Database.ResolveDispute | app/api/v1/endpoints/sla_dispute.py:172-237 | closes the dispute and, when applying, demotes the found row and promotes the proposal; refusals change nothing |
| SlaLedger.Database.GetByOutage | app/repositories/sla_repository.py:93-110 | returns a flagged row if any, else a newest row of the outage, none iff there is none |
| SlaLedger.Database.Backfill | alembic/versions/0012_sla_latest_backfill.py:26-63 | the loop over duplicated outages is the table transformation |
| RateLimits.PrunedDecision | app/core/rate_limiter.py:207-219 | the decision on the pruned list is that on the full history, and pruning stays sound |
| RateLimits.AllowsIff | app/core/rate_limiter.py:207-219 | the rule as a number of positions of the history |
| RateLimits.EveryWindowIsBounded | app/core/rate_limiter.py:207-219 | every interval as long as the window holds at most the limit, counted as positions of the history |
| RateLimits.GrantsAreBounded | app/core/rate_limiter.py:207-219 | the bound for every key in every consistent state |
| RateLimits.SimpleRateLimiter.IsAllowed | app/core/rate_limiter.py:207-219 | granted iff fewer than N positions of this key's history hold a time in (now - W, now]; refusals and other keys leave the history alone |
| RateLimits.ExecutionGuard.PreCheck | app/services/contracts/execution_guard.py:31-52 | the first failing check refuses; rate is used up only when all others pass |
| RateLimits.FirstRefusalIff | app/services/contracts/execution_guard.py:31-115 | which check reports a refusal, in terms of the parameters and settings |
| RateLimits.ExecutionGuard.CheckRateLimit | app/services/contracts/execution_guard.py:117-139 | granted iff fewer than the limit of grants in the last 60 seconds of the full history |
| RateLimits.BucketBalance | app/core/rate_limiter.py:33-41 | tokens stay in [0, capacity]; grants plus rest never exceed stock plus inflow |
| RateLimits.StretchIsBounded | app/core/rate_limiter.py:33-41 | grants of any contiguous stretch are at most capacity plus rate times its length |
| RateLimits.SpacedNeverRefused | app/core/rate_limiter.py:24-41 | calls at least one refill apart are never refused |
| RateLimits.RefusalIsFree | app/core/rate_limiter.py:33-41 | a refused call leaves the bucket as if it had not been made |
| RateLimits.RefusalsAreFree | app/core/rate_limiter.py:33-41 | over every run the refused calls change neither later answers nor the bucket |
| RateLimits.RefusedIff | app/core/rate_limiter.py:33-41 | a call is refused iff tokens after the last grant plus inflow since, up to the capacity, are below one |
| RateLimits.TokenBucket.TryConsume | app/core/rate_limiter.py:33-41 | the object's consume is the model's step |
| ConfigHistory.ComputeDiff | src/sla-config-history/sla-config-history.service.ts:13-33 | the loop yields exactly the members that print differently, with both values |
| ConfigHistory.ApplyGivesNextIff | src/sla-config-history/sla-config-history.service.ts:13-33 | applying the diff gives the new configuration iff each null in it already printed as null |
| ConfigHistory.ApplyElsewhereIff | src/sla-config-history/sla-config-history.service.ts:13-33 | a diff taken against one configuration and applied to another gives the new one iff what it sets is not null and what it leaves alone is already there |
| ConfigHistory.NullFreeRebasesIff | src/sla-config-history/sla-config-history.service.ts:13-33 | for null-free configurations only the members that the change leaves alone matter |
| ConfigHistory.UndoGivesPrevIff | src/sla-config-history/sla-config-history.service.ts:13-33 | undoing it gives the old one iff each null there prints as null afterwards |
| ConfigHistory.NextKeepsNumbered | src/sla-config-history/sla-config-history.repository.ts:7-35 | each statement of any writer keeps versions gapless and pending numbers at most one ahead |
| ConfigHistory.VersionsAreGapless | src/sla-config-history/sla-config-history.repository.ts:7-35 | versions are exactly 1..n under every interleaving with the unique constraint |
| ConfigHistory.RecordIsThreeStatements | src/sla-config-history/sla-config-history.service.ts:38-52 | an uninterrupted recordChange is three statements of the protocol; it adds exactly one version holding the given configuration |
| ConfigHistory.SequentialRunReplays | src/sla-config-history/sla-config-history.service.ts:38-52 | folding the stored diffs 1..k reproduces snapshot k for null-free configurations |
| ConfigHistory.ReplaysIff | src/sla-config-history/sla-config-history.service.ts:38-52 | on any gapless table the first n snapshots are reproduced iff each of the first n diffs leads from its predecessor to its own snapshot |
| ConfigHistory.RunIsBased | src/sla-config-history/sla-config-history.service.ts:38-52 | under every interleaving each stored diff is the one against the earlier version that its writer had read |
| ConfigHistory.StoredWasAsked | src/sla-config-history/sla-config-history.service.ts:38-52 | under every interleaving every stored snapshot is one that a call for that configuration was given |
| ConfigHistory.InterleavedRunReplaysIff | src/sla-config-history/sla-config-history.service.ts:38-52 | after every interleaving the first n snapshots are reproduced iff each change, made against what its writer read, can be replayed on the version stored before it |
| ConfigHistory.InterleavingBreaksReplay | src/sla-config-history/sla-config-history.service.ts:38-52 | an interleaving after which the diffs do not reproduce the snapshot |
| ConfigHistory.Service.MaxVersion | src/sla-config-history/sla-config-history.repository.ts:7-15 | the greatest version, zero if none |
| ConfigHistory.Service.RecordChange | src/sla-config-history/sla-config-history.service.ts:38-52 | stores the change under the greatest version plus one with its diff against that version, on any table; a gapless one stays gapless |
| Cache.TTLCache.GetWithMeta | app/utils/cache.py:71-87 | returns expired entries too; age counts from the storing, age and remaining time make the TTL, expired iff the age has reached it |
| Cache.TTLCache.Set | app/utils/cache.py:89-91 | replaces the entry, expiring one TTL later |
| Cache.TTLCache.Invalidate | app/utils/cache.py:93-95 | removes exactly this key |
| Cache.RunMirrors | app/services/contracts/sla_adapter.py:295-352 | after every run the cache is a function of the log of live results and invalidations |
| Cache.AnswersComeFromTheLog | app/services/contracts/sla_adapter.py:295-352 | each kind of answer occurs exactly when the log says so, with the latest live result and its remaining whole seconds |
| Cache.BalanceFetchAdapter.FetchBalance | app/services/contracts/sla_adapter.py:295-348 | the method's answer and cache are those of the model's fetch |
| Cache.BalanceFetchAdapter.InvalidateBalance | app/services/contracts/sla_adapter.py:350-352 | evicts exactly this address |
| Bridge.CircuitBreaker.AllowRequest | app/services/contracts/bridge_fallback.py:56-66 | a half-open breaker allows; any other iff the run of failures is below the threshold or the cool-down since the last failure has passed |
| Bridge.CircuitBreaker.RecordSuccess | app/services/contracts/bridge_fallback.py:41-43 | the breaker is the function of the log extended by a success |
| Bridge.CircuitBreaker.RecordFailure | app/services/contracts/bridge_fallback.py:45-54 | the breaker is the function of the log extended by a failure |
| Bridge.TrailingIsRun | app/services/contracts/bridge_fallback.py:41-54 | the failure count is the length of the run of failures that ends the log |
| Bridge.LastFailureIs | app/services/contracts/bridge_fallback.py:45-54 | the failure time is that of the latest failure in the log |
| Bridge.LogsAfterAt | app/services/contracts/bridge_fallback.py:97-124 | an invocation adds one call, with its end and outcome, to exactly the upstreams that are allowed and not preceded by a success |
| Bridge.UpstreamStep | app/services/contracts/bridge_fallback.py:97-124 | while nobody has answered, an upstream is called exactly when its own log allows it |
| Bridge.BridgeFallbackService.TryUpstream | app/services/contracts/bridge_fallback.py:97-124 | one upstream is skipped or called and recorded; no breaker rests half-open |
| Bridge.BridgeFallbackService.Execute | app/services/contracts/bridge_fallback.py:85-143 | fresh answer from the first called success, else the last successful answer, else an error |
| TokenFamily.RotateKeepsDb | app/services/auth_store.py:222-276 | rotation replaces one session by its successor of the same user and family and counts the family up; a missing or compromised family and reuse never occur |
| TokenFamily.RefreshVerdict | app/services/auth_store.py:192-276 | every refresh of a live token of an unlocked, existing user is accepted; reuse detection never fires |
| TokenFamily.StepKeepsWorld | app/services/auth_store.py:120-360 | each operation keeps one session per family, consistent families, unique unaccepted tokens |
| TokenFamily.RunKeepsWorld | app/services/auth_store.py:120-360 | the same over every sequential run, and no refresh token is accepted twice |
| TokenFamily.AcceptedTokenIsDead | app/services/auth_store.py:197-200 | an accepted token is invalid for ever after |
| TokenFamily.SessionSurvivesIff | app/services/auth_store.py:192-360 | a session ends iff it is logged out, its user is logged out, or its token is refreshed on an unlocked account; until then it does not change |
| TokenFamily.SessionStartsIff | app/services/auth_store.py:120-276 | a session starts iff by login or accepted refresh, with the right user and family |
| TokenFamily.FamiliesAfter | app/services/auth_store.py:120-360 | login adds a family, logout none, logging a user out removes exactly that user's |
| TokenFamily.EndedTokenIsDead | app/services/auth_store.py:197-360 | once a session has ended its refresh token is invalid for the rest of every run |
| TokenFamily.ReuseCompromises | app/services/auth_store.py:236-252 | a lagging sequence number compromises the family and ends all its sessions and no other |
| TokenFamily.BadFamilyRefuses | app/services/auth_store.py:222-235 | a missing or compromised family refuses and changes nothing |
| TokenFamily.AuthStore.LoginUser | app/services/auth_store.py:120-135 | creates a family and its session number zero |
| TokenFamily.AuthStore.RefreshToken | app/services/auth_store.py:192-276 | all error paths with what they have already committed, and the rotation |
| TokenFamily.AuthStore.LogoutToken | app/services/auth_store.py:301-306 | removes exactly this session |
| TokenFamily.AuthStore.LogoutAllSessions | app/services/auth_store.py:356-360 | removes exactly the user's sessions and families and counts the sessions |
| TokenFamily.AuthStore.DeleteSessions | app/repositories/session_repository.py:44-69 | the deletion loop removes exactly the given sessions |
| TokenFamily.AuthStore.DeleteFamilies | app/repositories/token_family_repository.py:44-50 | the deletion loop removes exactly the given families |
| Canonical.BuiltMember | app/services/contracts/canonicalization.py:67-90 | the members of a built object are exactly those neither blank nor emptied, with treated values |
| Canonical.SameFormIff | app/services/contracts/canonicalization.py:115-119 | two objects have the same form iff the same keys survive with values of the same form |
| Canonical.SurvivesIffLives | app/services/contracts/canonicalization.py:67-90 | which values survive both passes, said on the value itself |
| Canonical.SameFormIffAgree | app/services/contracts/canonicalization.py:67-90 | two requests have the same form iff they agree up to member order, members that do not live, and normalised scalars: nothing else is forgotten |
| Canonical.CanonicalFormIsStable | app/services/contracts/canonicalization.py:115-119 | order of members at any depth and blank members do not change the form |
| Canonical.ReorderingIsVariant | app/services/contracts/canonicalization.py:80-87 | every reordering of members is covered |
| Canonical.BlankMemberIsSame | app/services/contracts/canonicalization.py:67-75 | adding a null, "", {} or [] member to the top level or to an object with a member is covered |
| Canonical.EditIsStable | app/services/contracts/canonicalization.py:67-90 | such an edit at any depth of any request leaves the form alone |
| Canonical.ReplacingIsStableIff | app/services/contracts/canonicalization.py:67-90 | replacing a member leaves the form alone iff both values are dropped, or both survive with the same form |
| Canonical.ScalarEditIff | app/services/contracts/canonicalization.py:78-90 | changing a scalar at any depth keeps the form iff both normalise to the same value |
| Canonical.EmptyObjectEditIff | app/services/contracts/canonicalization.py:67-90 | giving an empty object at any depth a blank member changes the form iff it alone would keep its object, a member of an object, from being emptied |
| Canonical.NestedEmptyObjectMatters | app/services/contracts/canonicalization.py:67-90 | a nested empty object and one with a null member are hashed differently |
| Canonical.BuildIsOrdered | app/services/contracts/canonicalization.py:78-90 | members of the built form are in key order at every depth |
| Canonical.BuiltTextIsSorted | app/services/contracts/canonicalization.py:130-135 | sort_keys has nothing left to do in the hashed text |
| Canonical.ValueIsReadable | app/services/contracts/canonicalization.py:130-135 | printed requests can be read back: equal texts are of equal forms |
| Canonical.JsonPrintIsDelimited | app/services/contracts/canonicalization.py:130-135 | quoted and escaped text and numbers are one such way of printing scalars |
| Canonical.SameTextIff | app/services/contracts/canonicalization.py:115-137 | two requests are hashed as the same text iff they say the same |
| Canonical.CanonicalRequestBuilder.BuildRequest | app/services/contracts/canonicalization.py:115-119 | stores and returns the canonical form |
| Canonical.CanonicalRequestBuilder.Hash | app/services/contracts/canonicalization.py:121-137 | refused before build; otherwise the salted digest of the built request |
| Canonical.CanonicalRequestBuilder.Verify | app/services/contracts/canonicalization.py:139-142 | accepts exactly the request's own hash: for an injective digest, exactly the hashes of the requests that say the same |
| Retention.TakenIsExpired | app/services/job_cleanup.py:201-221 | the windows together take exactly the unprotected jobs finished before their status's cutoff |
| Retention.ExpiredIff | app/services/job_cleanup.py:201-320 | on the columns: unprotected, not audit-critical, finished earlier than the days of a window for its status |
| Retention.WindowIdsIff | app/services/job_cleanup.py:301-320 | the same for one window |
| Retention.AuditEligibleIff | app/services/job_cleanup.py:365-389 | the same for the audit-critical sweep |
| Retention.CountsAddUp | app/services/job_cleanup.py:201-221 | the report has a number for each known status and they add up to the jobs taken |
| Retention.SweepsCommute | app/services/job_cleanup.py:365-389 | standard and audit-critical sweeps remove disjoint sets and commute |
| Retention.JobCleanup.DeleteEligible | app/services/job_cleanup.py:326-345 | the batched loop ends and deletes exactly the eligible jobs for every batch size from one |
| Retention.JobCleanup.CleanupOldJobs | app/services/job_cleanup.py:180-230 | the sweep deletes exactly the expired jobs, with batches of zero none; per-status numbers are those of a dry run |
| Retention.JobCleanup.CleanupAuditCritical | app/services/job_cleanup.py:351-399 | deletes exactly the expired unprotected audit-critical jobs, with batches of zero none |
| ImportOutages.ImportSettles | app/repositories/outage_repository.py:155-224 | after an import the table only grew and knows every row of the file |
| ImportOutages.SecondImportIsNoOp | app/api/v1/endpoints/outages.py:303-323 | importing the same file again leaves the table unchanged |
| ImportOutages.RowVerdict | app/repositories/outage_repository.py:155-224 | on the columns: error iff the id is taken by other content, stored iff neither id nor twin is there, else answered with the row there |
| ImportOutages.MalformedIsError | app/api/v1/endpoints/outages.py:303-323 | a row that fails validation is an error and nothing else |
| ImportOutages.SecondImportAnswers | app/api/v1/endpoints/outages.py:303-323 | a second import stores nothing and recognises each row the first one stored |
| ImportOutages.OutageImport.CheckDuplicate | app/repositories/outage_repository.py:184-194 | same id and content, conflicting content, a content duplicate, or new |
| ImportOutages.OutageImport.CreateOrGetExisting | app/repositories/outage_repository.py:196-224 | stores exactly the new rows and reports the duplicate otherwise |
| ImportOutages.OutageImport.ImportRows | app/api/v1/endpoints/outages.py:303-323 | each outcome is decided by the table of that moment; validated plus errors is the total; persisted is the growth of the table |
| ImportOutages.OutageImport.ImportTwice | app/api/v1/endpoints/outages.py:303-351 | the second of two imports persists nothing |

## Left out

- One clock reading stands for all readings of one dispatch; metrics, headers, signatures, URL checks and backpressure of the webhook service are not modelled, and a crash between the two commits of a dispatch is not.
- Webhook rows do not change between operations, so a delivery's retry budget is fixed.
- Parsing of the retry-delay setting and the update of job progress during recovery.
- FromIso only reads the layouts that isoformat prints for naive and UTC values. What Python makes of other timestamps is an input of a creation; a cursor with a date in another layout is refused here.
- Naive and aware timestamps are compared by their fields; Python refuses to compare the two kinds.
- Severities are lowered letter by letter in ASCII.
- String keys are ordered by code point; database collations are not modelled.
- Offset paging, the remaining filters of the listing endpoint, and updates or deletions of payments between two pages.
- Payment status changes, retries, reconciliation and dead letters.
- Amounts are integers; the float columns and the rounding to cents are not modelled, nor are dashboard filters.
- Audit rows and the remaining text columns of disputes; the order of UPDATE statements within one flush and the partial unique index on the latest flag.
- create_if_changed, performance and trend aggregates and snapshots of the SLA repository.
- Clocks that run backwards, locks around the limiters, and the Redis and in-memory backends of RateLimiter.
- Config values are known by their printed text; the normalisation that JSONB applies to stored objects is not modelled.
- Bridge.BridgeFallbackService.TryUpstream: the dictionary holds breaker field values, so identity and sharing of breaker objects are not captured; the names and cache keys printed from method, index and parameters are taken to be distinct.
- Concurrent invocations of the bridge, the balance adapter and the token store.
- Passwords, account locking and expiry of sessions; whether an account is locked and whether the user exists are inputs of a refresh.
- Numeric normalisation of leaves is an arbitrary function, SHA-256 and token digests are taken as given functions. How JSON prints a scalar is any function whose texts can be told from what follows them.
- Negative batch sizes, which the database refuses.
- Lease reclamation, heartbeats and protection flags of jobs.
- Validation of import rows, database errors while inserting, atomic and dry-run import.
- Middleware, HTTP, task queue, tracing, exporters and the remaining TypeScript samples.
