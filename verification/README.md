# llm-proxy: verified models of the metering, budgeting and admission core

llm-proxy is a gateway through which a team shares model subscriptions. What it
promises its operators rests on a few small stateful components that must stay
right under interleaving, failed writes and the passing of time. This project
models those components in Dafny and proves what they promise. Check it with
`dafny verify dfyconfig.toml`.

Components the gateway implements with fields it updates are classes here, with
the loops and early returns of the original; each method is tied to functions and
predicates of the old state, and the properties are proved about those. Components
whose difficulty is interleaving also have a state machine whose events are the
steps that can be interleaved; the class methods and the machine share the same
state functions. Times are integers in nanoseconds, dollars are reals, bytes are
`bv8`. Which repository calls fail is a parameter of each method, so a contract
says exactly when an operation succeeds.

| modules | component |
|---|---|
| Limits, SpendWindows, SpendLimits | the spend-limit decision, the stored windows, the service that admits and administers |
| SoftLimit, SoftLimitLookahead, SoftLimitTightness | how far an account can overspend over every interleaving, and that neither the bound nor what it counts can be lowered |
| BodyBudget, BodyBudgetProtocol | one request's charge and the buffering loop; many requests on one budget |
| PriceList, PriceTable, PriceCatalog, PriceService | validation, comparison and merging of price lists; the published table; the conditional-fetch cache; the service |
| CredentialStore | the digest cache that skips redundant writes |
| RateLimit | the per-client token bucket with bounded memory |
| Throttle | the per-address sign-in limit |
| Glob, Access, Catalog, ModelAccess | the rule language, the catalogue lookups, and the gate, listing and cabinet that must agree |
| Drain | the shutdown drain |
| UsageCost | cost conservation |
| Options, Sorting, Text | optional values, sorting and Go's string functions |

## Where the code differs from its own comments

- "An owner holding nothing has no entry" (internal/infra/gateway/body_budget.go:57-60)
  is false after an empty body: charging zero bytes leaves an entry of zero, and the
  charge then has nothing to give back that would remove it (`EmptyBodyLeavesEntry`).
  The claim holds throughout a run exactly when nothing is ever reserved as zero
  bytes for an owner without an entry (`TidyExactly`). The conservation theorems are
  stated on values, an absent entry counting as zero.
- "The one seen longest ago, whose bucket is the closest to full"
  (internal/iface/http/ratelimit.go:86-87) is false: a client that drained its bucket
  and was seen first can be further from full than one seen later
  (`LongestAgoIsNotClosestToFull`, a run on ordinary keys). The bucket seen longest ago
  is the closest to full exactly when no other limited bucket reaches one whole token
  earlier (`ClosestToFullExactly`).
- The repository contract says a stale sign-in count starts over "with no lock"
  (internal/app/ports.go:653-655); the SQL sets the lock at once when the limit is one
  attempt, and starts without one exactly when it is more (`StaleStartsOver`). The
  model follows the SQL. Boot passes five attempts (internal/boot/boot.go:83), so a
  running server does not reach the difference.

## Inputs the program rules out

- `ValidRate`, and a burst of at least one, hold of every limiter built: `NewRouter`
  refuses any other rate (internal/iface/http/router.go:152) and is the only caller of
  `newLimiter` (internal/iface/http/router.go:166). What they are needed for is said by
  `EvictionEnds` and `NoBurstNoAdmission`. `ValidLimit` holds of every throttle built
  (internal/app/auth/throttle.go:33).
- The eviction loop uses the empty string for "nothing chosen yet", so as a function
  `allow` can evict another bucket than the one seen longest ago when one of its keys
  is empty (`OldestIsChosenExactly`, `EmptyKeyOutlivesAnother`). No request the server
  receives has an empty key: it comes from the client's address
  (internal/iface/http/middleware.go:90, 141-152), which a connection on the "tcp"
  listener always has (internal/boot/boot.go:504).

## Reading the main results

- The k of `SoftLimitBound` counts the requests between the reading that admits them
  and their last charge; requests that will be refused may read at any time and in any
  number. If every request decides on the rows as they are, k is the number admitted
  and not yet charged in full (`AtomicBound`). `UnmarkedBound` states the bound on runs
  whose readings carry no marks, counting what the run goes on to admit. When reading
  and deciding come apart the number admitted and uncharged alone bounds nothing: with
  at most one at every moment, decisions on old readings pass any sum
  (`OldReadingsPassAnyBound`).
- A `*` in a rule excludes newlines, because Go's `.` does, except that a pattern of
  `*` alone skips the expression (`RuleMeansGlob`).
- That no request is refused for its own size has three parts: a request asks for no
  more than it announced (`ServeBody`), the charge's methods are the protocol's steps
  (`GrowIsTwoSteps`, `ShrinkIsTwoSteps`), and in any interleaving a refusal means that
  the owner holds something else or asked for more (`RefusalHasACause`).
- `WindowBound` counts attempts by the time they were charged. An admitted attempt may
  wait for a derivation slot; `DerivationsInWindow` counts by the moment of derivation,
  which adds the attempts still pending when the window begins.
- `SuccessfulCheckIsCurrent` assumes what section 15.4.5 of RFC 9110 asks of the
  origin: that "not modified" is answered only for validators of its current document.
  Validators that can be sent are assumed to identify what the document says.

## Model

| member | source | states |
|---|---|---|
| Limits.Validate | internal/domain/limits/limits.go:68-85 | accepts exactly the sets of at most ten rules with whole-minute, bounded, distinct windows and bounded amounts; otherwise names the first offending rule and its first offending field |
| Limits.WellFormedInNumbers | internal/domain/limits/limits.go:66-85 | a valid set in numbers: at most ten rules, distinct windows of one minute to 365 days in whole minutes, amounts above zero and at most a million |
| Limits.Decide | internal/domain/limits/limits.go:127-162 | the answer is the decision: refused exactly when some rule's live window is exhausted, naming the exhausted rule whose window ends last; otherwise what to open in rule order and what to drop, sorted |
| Limits.DecisionInPlainTerms | internal/domain/limits/limits.go:104-162 | a rule refuses exactly while less than its window has passed since the window started and the amount is spent; the reset is one window after the start of the last such one; an admission opens exactly the rules whose window never started or has passed |
| Limits.LastRowIsStored | internal/domain/limits/limits.go:127-135 | of stored rows of one length the last counts |
| Limits.DecisionIsUnique | internal/domain/limits/limits.go:110-162 | the decision's promises leave no choice: two decisions over the same rows and instant are equal |
| Limits.ResetIsEarliestAdmission | internal/domain/limits/limits.go:110-162 | with the same rows every instant before the reset time is refused and none from it on |
| Limits.AdmissionLasts | internal/domain/limits/limits.go:127-162 | time alone never turns an admission into a refusal |
| Limits.RetryAfterIsExact | internal/infra/gateway/policy_gate.go:216-217 | a client honouring Retry-After (section 10.2.3 of RFC 9110) is not refused again, and one second less would be |
| Limits.SpentPercent | internal/domain/limits/limits.go:164-187 | reads 100 exactly for an exhausted window, otherwise the share rounded down within the epsilon and at most 99 |
| Limits.States | internal/domain/limits/limits.go:190-210 | every rule once, shortest window first, each with its live window or none |
| Limits.ShownInPlainTerms | internal/domain/limits/limits.go:104-108 | a state is live less than a window after its start, resets one window after it, and is exhausted exactly when its rule refuses |
| Limits.BlockedIsVisible | internal/domain/limits/limits.go:127-210 | a refusal, an exhausted state and a state reading 100 percent are one condition for every valid set |
| SpendWindows.AdmissionSettles | internal/app/spendlimits/spendlimits.go:94-120 | after an admission is applied the stored lengths are exactly the set's, and deciding again at that instant neither refuses nor writes |
| SpendWindows.AppliedInPlainTerms | internal/app/spendlimits/spendlimits.go:94-120 | an admission leaves every running window untouched and starts any other now with nothing spent |
| SpendWindows.OpenedInPlainTerms | internal/infra/postgres/limitwindows/limitwindows.go:62-71 | whatever the caller had read, opening restarts exactly the missing and the expired windows, at its instant with nothing spent, and deletes exactly the dropped ones |
| SpendWindows.ChargesAddUp | internal/app/ports.go:287-291 | charges add up on every stored window and move no start |
| SpendWindows.Store.Windows | internal/app/ports.go:295-296 | the listed rows stand for exactly the stored windows |
| SpendWindows.SecondOpenLosesNothing | internal/app/ports.go:297-300 | of two requests that both found windows to open, the second leaves alone what the first opened, with everything charged in between, while it is live |
| SpendWindows.ResetStartsAfresh | internal/app/spendlimits/spendlimits.go:248-251 | after a reset of a rule's window the next admission opens it with nothing spent, and until then that rule refuses nothing |
| SpendWindows.DroppingKeepsDecision | internal/app/ports.go:304-307 | deleting the windows no rule has changes no decision: the same refusal or the same windows due, and nothing left to drop |
| SpendLimits.Service.Load | internal/app/spendlimits/spendlimits.go:71-82 | after a successful load the set in force is the stored one; a failed one changes nothing |
| SpendLimits.Service.Admit | internal/app/spendlimits/spendlimits.go:94-120 | decides on the stored rows, fails exactly when the read or a needed write does, writes only an admission with something to write, and leaves the account settled; other accounts are untouched |
| SpendLimits.Service.SetDefaults | internal/app/spendlimits/spendlimits.go:143-181 | which outcome under which failure; memory and storage move together; on success no inheriting account keeps a window outside its effective set and no other account changes |
| SpendLimits.Service.SetUser | internal/app/spendlimits/spendlimits.go:203-246 | which outcome under which failure, the closing view's included; refusals change nothing and name the fault; on success the account keeps exactly the windows of its own set, or of the defaults when it has none, and the view shows them |
| SpendLimits.Service.DropOrphans | internal/app/spendlimits/spendlimits.go:234-243 | the account keeps exactly the windows of the set; needs no write when there is nothing to delete |
| SpendLimits.Service.Reset | internal/app/spendlimits/spendlimits.go:248-282 | deletes the named window or all of them, refusing exactly a length the effective set has no rule for; the view shows the result, and its failure does not undo it |
| SpendLimits.Service.View | internal/app/spendlimits/spendlimits.go:284-296 | the effective set with the account's live windows, or the outcome that it could not be read |
| SpendLimits.WritesNothing | internal/app/spendlimits/spendlimits.go:102-105 | an admission needs a write exactly when some rule has no live window or some stored window has no rule |
| SoftLimit.SoftLimitBound | internal/app/spendlimits/spendlimits.go:94-120 | in every state of every interleaving of readings, decisions, openings, charges, failures, deletions and time, every live window of a rule has spent less than its amount plus the cost of k requests, k counting those between the reading that admits them and their last charge |
| SoftLimit.AtomicBound | internal/app/spendlimits/spendlimits.go:94-120 | when every request decides on the rows as they are, the same bound with k counting exactly the requests admitted and not yet charged in full |
| SoftLimitLookahead.UnmarkedBound | internal/app/spendlimits/spendlimits.go:94-120 | the same bound of every run without marks, k counting the requests admitted and uncharged and those that have read and go on to be admitted |
| SoftLimitLookahead.EveryRunCanBeMarked | internal/app/spendlimits/spendlimits.go:94-120 | every such run, its readings marked by looking ahead, is a run of the marked protocol with the same windows at the same instants |
| SoftLimitLookahead.ActiveIsCounted | internal/app/spendlimits/spendlimits.go:94-120 | what the marked protocol counts is exactly what the run goes on to admit |
| SoftLimit.DoomedIsRefused | internal/domain/limits/limits.go:127-162 | a request that read a window exhausted cannot be admitted while that window is live |
| SoftLimit.ChargeRule | internal/app/ports.go:285-291 | the charge that exhausts a window leaves as overdraft only what requests in flight can still add |
| SoftLimit.StepKeepsInvariant | internal/app/spendlimits/spendlimits.go:94-120 | every single step keeps the overdraft invariant |
| SoftLimit.RunKeepsInvariant | internal/app/ports.go:285-311 | every run keeps it |
| SoftLimitTightness.BoundIsTight | internal/app/spendlimits/spendlimits.go:94-120 | for any number of requests in flight and any cost, some run reaches any sum short of the bound |
| SoftLimitTightness.OldReadingsPassAnyBound | internal/app/spendlimits/spendlimits.go:95-103 | with at most one request admitted and uncharged at every moment, some run still spends more than any given sum by deciding on old readings |
| BodyBudget.IdleEntries | internal/infra/gateway/body_budget.go:57-60 | giving back never leaves an idle entry; reserving leaves none exactly when it reserves something or the owner had an entry |
| BodyBudgetProtocol.EmptyBodyLeavesEntry | internal/infra/gateway/body_budget.go:57-134 | the run for which the comment fails, for any budget and owner: an empty body's charge leaves an entry of zero and nothing that giving back could remove |
| BodyBudgetProtocol.TidyExactly | internal/infra/gateway/body_budget.go:57-134 | the comment holds throughout a run if and only if no reservation of zero bytes is made for an owner without an entry |
| BodyBudget.BodyCharge.constructor | internal/infra/gateway/body_budget.go:76-82 | a charge starts empty and its share is a quarter of the budget or its own maximum, whichever is larger |
| BodyBudget.BodyCharge.Grow | internal/infra/gateway/body_budget.go:84-110 | refused at once exactly past the share, granted exactly when the bytes come free in time, and otherwise everything is as before, for every owner |
| BodyBudget.BodyCharge.Unshare | internal/infra/gateway/body_budget.go:112-122 | the owner's held value falls by exactly the amount and no other owner's moves |
| BodyBudget.BodyCharge.ShrinkTo | internal/infra/gateway/body_budget.go:124-137 | semaphore and share both get back exactly the surplus |
| BodyBudget.Body.Read | internal/infra/gateway/body_budget.go:176-199 | what a read delivers followed by what remains is what remained before, whatever the chunking |
| BodyBudget.BufferBody | internal/infra/gateway/body_budget.go:152-206 | success returns exactly the declared bytes or everything up to the end; each error says what was wrong with the body; the record has one point for each growth and read, each following from the one before, and at every one the charge is the capacity, at most the size and at most the larger of the initial buffer and twice the bytes received |
| BodyBudget.Start | internal/infra/gateway/body_budget.go:168-173 | the first buffer holds the initial capacity or the whole size, if that is granted |
| BodyBudget.Turn | internal/infra/gateway/body_budget.go:176-200 | one turn keeps the buffer a prefix of the body, the charge equal to the capacity and every recorded charge fair |
| BodyBudget.Enlarge | internal/infra/gateway/body_budget.go:176-187 | a full buffer doubles up to the size, keeping its bytes, only if the extra is granted |
| BodyBudget.ProbeEnd | internal/infra/gateway/body_budget.go:208-224 | reports an over-long body only if a byte is left, and none only at the end |
| BodyBudget.DecodeRequestBody | internal/infra/gateway/encoding.go:70-95 | the second phase charges the largest decoded size first and keeps the buffer's capacity at most; undecodable bytes pass only when they are already JSON |
| BodyBudget.ReceiveBody | internal/infra/gateway/policy_gate.go:287-343 | the two phases of a request's charge: the bytes served are the declared ones or the decoded ones, each error says what was wrong, and refusals come only past the request's own ceiling |
| BodyBudget.ServeBody | internal/infra/gateway/policy_gate.go:130-142 | whatever happens the budget and all shares end as they began; the request never asks for more than its ceiling, and an owner with no other charge is never refused for its size; with room and no early time-out a body that ends is served if and only if it is complete and readable, and each error says what was wrong with it |
| BodyBudget.CeilingsInMebibytes | internal/infra/gateway/policy_gate.go:254-262 | the ceilings, the budget, the shares and the first buffer in numbers |
| BodyBudgetProtocol.BudgetIsConserved | internal/infra/gateway/body_budget.go:66-137 | in every interleaving the semaphore's use is the sum of the charges and within the budget, each owner's value is the sum of their charges and reservations in progress, and charges made with a share of at most s together never reserve more than s |
| BodyBudgetProtocol.ReleaseNeverPanics | internal/infra/gateway/body_budget.go:126-137 | the semaphore is never given back more than it granted |
| BodyBudgetProtocol.AllReleased | internal/infra/gateway/body_budget.go:112-137 | when every request has released, nothing is held anywhere |
| BodyBudgetProtocol.OneOwnerLeavesTheRest | internal/infra/gateway/body_budget.go:52-82 | an owner whose requests each stay within a quarter of the budget never holds more than that quarter |
| BodyBudgetProtocol.LoneChargeIsNotRefused | internal/infra/gateway/body_budget.go:84-95 | a request that is its owner's only charge is refused exactly past its own share, in every reachable state |
| BodyBudgetProtocol.RefusalHasACause | internal/infra/gateway/body_budget.go:80-95 | in every interleaving, whenever a charge is refused its owner holds something else, or the request asked for more than it announced on arrival |
| BodyBudgetProtocol.ShareFromArrival | internal/infra/gateway/body_budget.go:76-82 | through any run a charge keeps the share its arrival gave it |
| BodyBudgetProtocol.GrowIsTwoSteps | internal/infra/gateway/body_budget.go:84-110 | a grow is a refusal, or a reservation then granted or timed out, with the same effect on charge, semaphore and shares |
| BodyBudgetProtocol.ShrinkIsTwoSteps | internal/infra/gateway/body_budget.go:124-134 | giving back is releasing the semaphore and then the share, or nothing |
| BodyBudgetProtocol.EventKeeps | internal/infra/gateway/body_budget.go:84-137 | every half-step keeps the three sums |
| BodyBudgetProtocol.GivesBackExactly | internal/infra/gateway/body_budget.go:112-122 | an owner's entry always covers what a charge gives back, so dropping the entry loses nothing |
| PriceList.ValidatePrices | internal/app/prices/prices.go:519-549 | accepts exactly the lists with named models, non-negative rates and each key once; otherwise names the first bad entry and a bad field |
| PriceList.ValidListInPlainTerms | internal/app/prices/prices.go:519-549 | a list is valid if and only if every entry is named and has no negative rate, and each provider and model comes once |
| PriceList.AcceptCatalog | internal/app/prices/prices.go:317-338 | accepts exactly the valid, non-empty lists with some positive input or output rate |
| PriceList.SameRates | internal/app/prices/prices.go:439-460 | the loop answers whether the lists are as long and each right entry is in the left at its rates |
| PriceList.MatchingIsEquality | internal/app/prices/prices.go:439-460 | by counting, that one-way answer is true exactly when two lists without duplicates are the same table |
| PriceList.Entries | internal/app/prices/prices.go:465-494 | the effective list: sorted, each priced key once, manual over catalogue, a manual entry carrying what it replaces |
| PriceList.KeyOrder | internal/app/prices/prices.go:486-491 | the list is ordered by provider, then model, in dictionary order |
| PriceList.MergedIsEffective | internal/app/prices/prices.go:465-506 | the list handed to the table stands for manual rates, else the catalogue's, else none |
| PriceTable.PriceTable.SetPrices | internal/app/price_table.go:19-41 | a lookup then finds exactly the listed models, each at its own rates |
| PriceCatalog.TableIsEffective | internal/app/prices/prices.go:114-199 | at every moment of every run of restarts, edits, checks and failures a lookup gives the manual rates, else the catalogue's, else none, and memory agrees with storage |
| PriceCatalog.SuccessfulCheckIsCurrent | internal/app/prices/prices.go:274-307 | after each successful check the catalogue rates in force and stored are those of a full fetch of the current document under the current fingerprint |
| PriceCatalog.UnsuccessfulCheckChangesNothing | internal/app/prices/prices.go:357-374 | a failed, refused or cancelled check changes no price and no validator, in memory or stored |
| PriceCatalog.FailureLeavesItsReason | internal/app/prices/prices.go:357-374 | an unsuccessful check that was not cancelled leaves the reason it failed for |
| PriceCatalog.LastValidatorsAreSent | internal/app/prices/prices.go:280-290 | the next check sends the validators of the last full answer stored, whatever was edited, restarted on the same source or failed in between |
| PriceCatalog.OtherSourceSendsNothing | internal/app/prices/prices.go:280-290 | after a restart on another source nothing is sent |
| PriceCatalog.UnchangedIsCurrent | internal/app/prices/prices.go:280-290 | an answer of "unchanged" proves the rates in force current, across restarts and changed fingerprints |
| PriceCatalog.EventKeeps | internal/app/prices/prices.go:376-437 | every event keeps table, storage and validators coherent |
| PriceCatalog.RunKeeps | internal/app/prices/prices.go:112-199 | every run does |
| PriceService.Service.Load | internal/app/prices/prices.go:112-143 | a booted service is the machine's restart over the stored lists, the catalogue ignored when disabled |
| PriceService.Service.Get | internal/app/prices/prices.go:145-155 | an administrator sees exactly the effective list |
| PriceService.Service.Replace | internal/app/prices/prices.go:157-199 | refines the machine's manual edit; what fails after the list is stored does not undo it |
| PriceService.Service.BeginCheck | internal/app/prices/prices.go:274-290 | refines the first half of a check: validators of another fingerprint are not sent |
| PriceService.Service.FinishCheck | internal/app/prices/prices.go:292-307 | refines the second half of a check and succeeds exactly when the answer is acceptable and stored |
| PriceService.Service.RecordFailure | internal/app/prices/prices.go:357-374 | notes the reason in memory, and in storage unless that fails |
| PriceService.Service.RecordSuccess | internal/app/prices/prices.go:376-437 | stores the check, and the prices exactly when their rates changed; a refused store changes nothing |
| PriceService.Service.Publish | internal/app/prices/prices.go:496-506 | the table becomes the effective one |
| PriceService.PriceRepo.Replace | internal/app/ports.go:766-773 | the whole list is replaced at the same rates; a row already stored with the same key and rates keeps its time, any other gets the new one |
| PriceService.TimesAreKept | internal/app/ports.go:766-773 | the times come out right for every row, in whatever order the lists are |
| CredentialStore.Store.Save | internal/infra/gateway/credential_store.go:174-264 | the exact new rows, digests and result under any fault; writes exactly when the content is not known to be stored; a returned key means the row opens to the saved content; without creation intent no row appears or goes |
| CredentialStore.Store.Delete | internal/infra/gateway/credential_store.go:266-280 | the digest goes first, so a failed delete leaves nothing wrong in the cache |
| CredentialStore.Store.List | internal/infra/gateway/credential_store.go:282-319 | succeeds exactly when every row opens and parses, and only then does the cache describe exactly the rows |
| CredentialStore.ReadRows | internal/infra/gateway/credential_store.go:295-312 | all rows or none |
| CredentialStore.MisplacedRowStopsList | internal/infra/gateway/credential_store.go:295-312 | a row opens under the id it was sealed for alone; one moved under another id, sealed by another key or not parsing fails the list |
| CredentialStore.CacheIsNeverWrong | internal/infra/gateway/credential_store.go:93-96 | after any operations with any faults every digest held belongs to a row that opens to exactly that plaintext |
| CredentialStore.SaveIsTrue | internal/infra/gateway/credential_store.go:174-264 | after any history a save that returns its key is true of the row whether or not it wrote, and touches no other row |
| CredentialStore.CreatedOnce | internal/app/ports.go:736-745 | a row is created only by a login, at its time; overwriting keeps that time and stamps the update |
| CredentialStore.CreationTimeSurvives | internal/app/ports.go:736-745 | over any operations and faults that leave a row in place it keeps its creation time |
| CredentialStore.SaveSaysWhatItFound | internal/infra/gateway/credential_store.go:174-264 | with nothing failing a runtime save reports a removed account exactly when its row is gone, and a login always saves |
| CredentialStore.KeyIsFileName | internal/infra/gateway/credential_store.go:443-452 | the row id is the file name without the space around it, or the account's id when that is blank |
| CredentialStore.SavingAgainIsSkipped | internal/infra/gateway/credential_store.go:204-215 | a repeated save of stored content succeeds without a write and changes nothing |
| CredentialStore.ListedContentIsSkipped | internal/infra/gateway/credential_store.go:282-319 | after a list, and operations on other accounts only, saving the listed content is skipped |
| RateLimit.Limiter.Allow | internal/iface/http/ratelimit.go:47-71 | the table and answer are the bucket step's after an eviction the loop can make; the table stays within its bound |
| RateLimit.Limiter.MakeRoom | internal/iface/http/ratelimit.go:83-113 | forgets exactly the refilled buckets, and a limited one only when all are limited: the one seen longest ago, unless the empty key hides it |
| RateLimit.Limiter.EvictOldest | internal/iface/http/ratelimit.go:100-112 | ends with room for one more, having evicted at most one bucket of a table within its bound; unless the empty key's is strictly the oldest of several, no bucket that stays was seen earlier |
| RateLimit.Limiter.Oldest | internal/iface/http/ratelimit.go:101-109 | the loop's choice in any visiting order, and exactly when it is the bucket seen longest ago |
| RateLimit.ChosenIsLongestAgo | internal/iface/http/ratelimit.go:97-108 | the choice is the bucket seen longest ago unless the empty key's is strictly the oldest of several |
| RateLimit.OldestIsChosenExactly | internal/iface/http/ratelimit.go:101-109 | the choice is the bucket seen longest ago if and only if the empty key's is not strictly the oldest of several, or the empty key is visited last |
| RateLimit.LongestAgoIsNotClosestToFull | internal/iface/http/ratelimit.go:83-88 | a run on ordinary keys in which the bucket seen longest ago, and evicted, is further from full than the one that stays |
| RateLimit.CloserToFull | internal/iface/http/ratelimit.go:73-88 | of two limited buckets the closer to full is the one that reaches one whole token earlier |
| RateLimit.ClosestToFullExactly | internal/iface/http/ratelimit.go:83-88 | the bucket seen longest ago is the closest to full if and only if no limited bucket reaches one whole token earlier |
| RateLimit.EmptyKeyOutlivesAnother | internal/iface/http/ratelimit.go:96-112 | a run from the empty table in which the empty key's bucket, strictly the oldest, outlives another client's |
| RateLimit.EvictionEnds | internal/iface/http/ratelimit.go:96-112 | whatever it chooses, the eviction loop goes on forever when no client may be remembered, and else exactly until one more fits |
| RateLimit.TableIsBounded | internal/iface/http/ratelimit.go:83-113 | in every run the table holds at most MaxClients buckets |
| RateLimit.ForgettingIsInvisible | internal/iface/http/ratelimit.go:83-95 | a key never forcibly evicted gets at every call the answer and wait of a limiter that forgets nothing |
| RateLimit.RateWithEvictions | internal/iface/http/ratelimit.go:49-113 | in any interval of any run a key is admitted at most Burst times and once more per Every, and Burst times more for each time it was forgotten for real in it |
| RateLimit.RateIsBounded | internal/iface/http/ratelimit.go:49-81 | a key never forgotten for real is admitted at most Burst times and once more per Every |
| RateLimit.WaitIsExact | internal/iface/http/ratelimit.go:64-70 | after a refusal the key's next call is admitted if and only if it comes at or after the time named, however many refused calls came between |
| RateLimit.BurstIsGranted | internal/iface/http/ratelimit.go:10-81 | a client never seen, or rested for the time a burst takes to come back, has its next Burst calls admitted, however close together |
| RateLimit.SteadyIsAdmitted | internal/iface/http/ratelimit.go:10-81 | a client that leaves Every between its calls is always admitted |
| RateLimit.WaitIsShort | internal/iface/http/ratelimit.go:64-70 | no refusal names a wait longer than Every |
| RateLimit.RefilledGoFirst | internal/iface/http/ratelimit.go:83-98 | nobody is forgotten for real while some remembered client has its burst back |
| RateLimit.NoBurstNoAdmission | internal/iface/http/ratelimit.go:49-81 | with a burst of zero every call is refused |
| Throttle.SignInService.Check | internal/app/auth/throttle.go:40-53 | refuses exactly inside a lock window, charging nothing |
| Throttle.SignInService.Charge | internal/app/auth/throttle.go:55-77 | admits exactly while the count is within the limit, and leaves other addresses alone |
| Throttle.SignInService.Reset | internal/app/auth/throttle.go:79-87 | forgets the address's attempts and no other's |
| Throttle.SignInService.SignIn | internal/app/auth/auth.go:116-149 | one derivation exactly for an admitted attempt that reaches the password, whatever the account; which answer under which failure, and until when a lockout lasts; only a matching password clears the count |
| Throttle.OverLimitIsLocked | internal/infra/postgres/loginattempts/loginattempts.go:60-92 | an attempt over the limit always leaves a lock still to lapse |
| Throttle.StaleStartsOver | internal/infra/postgres/loginattempts/loginattempts.go:76-82 | a stale count starts over at one, without a lock exactly when the limit is more than one attempt |
| Throttle.ChargeIsAccounted | internal/infra/postgres/loginattempts/loginattempts.go:60-92 | one charge keeps the record's account of the window's admitted attempts |
| Throttle.WindowInvariant | internal/app/ports.go:647-660 | in every run the record accounts for the attempts admitted in any window |
| Throttle.DerivationsAreAdmitted | internal/app/auth/auth.go:273-286 | each derivation uses up one admitted attempt |
| Throttle.WindowBound | internal/app/auth/throttle.go:55-77 | in any half-open window of lockFor in which nothing cleared the address, at most maxFailures of the attempts charged reach a derivation |
| Throttle.PendingBalance | internal/app/auth/auth.go:116-149 | over any stretch of a run, derivations made and attempts left pending are the attempts pending before and those admitted |
| Throttle.DerivationsInWindow | internal/app/auth/auth.go:116-149 | in such a window the derivations made, whenever charged, are at most maxFailures and the attempts pending when it begins |
| Throttle.BurstIsCutExactly | internal/app/ports.go:647-660 | of a burst on an address whose last attempt is a window old, or that has none, precisely the first maxFailures are admitted, and the last of them sets the lock for one window |
| Throttle.LockHoldsExactly | internal/app/ports.go:650-655 | a lock refuses everything until it lapses, is not moved by what is tried meanwhile, and admits the first attempt from then on |
| Throttle.LockIsShort | internal/infra/postgres/loginattempts/loginattempts.go:60-92 | in every run no lock outlasts one window from the last attempt |
| Text.LowerLetters | internal/domain/access/policy.go:41-66 | lower-casing turns the 26 capitals into their small letters and changes no other character |
| Text.SpaceCodePoints | internal/domain/access/policy.go:41-66 | the space characters by code point |
| Text.TrimmedMiddle | internal/domain/access/policy.go:41-66 | trimming takes off all the space on both sides and nothing else |
| Text.StringLeIsLexicographic | internal/infra/gateway/catalog.go:82 | names are sorted in dictionary order: a prefix first, else by the first character that differs |
| Glob.CompileGlob | internal/domain/access/policy.go:70-99 | the expression built matches a name exactly when the glob denotes it |
| Glob.CompiledMeansGlob | internal/domain/access/policy.go:70-99 | the same for the specification: parts of the name stand for the pattern's characters if and only if the expression matches |
| Glob.PiecesParse | internal/domain/access/policy.go:76-99 | every pattern compiles, and quoting gives no character a meaning it lacks in a glob |
| Glob.StarDenotes | internal/domain/access/policy.go:101-121 | the glob "*" denotes every name without a newline |
| Access.Cut | internal/domain/access/policy.go:41-66 | the cut is at the first colon and loses nothing |
| Access.CanonicalRoundTrip | internal/domain/access/policy.go:38-68 | the canonical rules are exactly those that are read back from their printed form |
| Access.ParsedIsCanonical | internal/domain/access/policy.go:38-66 | parsing yields canonical rules |
| Access.PrintedRuleParses | internal/domain/access/policy.go:38-68 | parsing the printed form of any parsed rule gives the rule back |
| Access.RulesAreReadAsWritten | internal/domain/access/policy.go:41-66 | a rule is read as the halves on the two sides of its first colon, without the space around them and in small letters, and is none when one is blank |
| Access.NoColonNoRule | internal/domain/access/policy.go:41-66 | a text without a colon is no rule |
| Access.RuleMeansGlob | internal/domain/access/policy.go:101-121 | a rule is its glob on the lower-cased model; only "*" alone also admits names with a newline |
| Access.MoreRulesAllowMore | internal/domain/access/policy.go:123-149 | order and repetition of rules do not matter and more rules only allow more |
| Access.SuffixIsRemoved | internal/domain/access/policy.go:191-200 | a parenthesised suffix comes off whole, a name that ends otherwise is kept |
| Catalog.PolicyProvider | internal/infra/gateway/catalog.go:148-164 | every provider that has a key has a policy name |
| Catalog.PolicyNames | internal/infra/gateway/catalog.go:148-164 | "codex" is "chatgpt", a named compatible provider is its name, every other key its own |
| Catalog.ProvidersFor | internal/infra/gateway/catalog.go:60-85 | the policy names of exactly the providers serving the model, sorted, each once |
| Catalog.LookupsAgree | internal/infra/gateway/catalog.go:60-101 | a model is known exactly when it has keys, and its known name has the same providers and is known as itself |
| Catalog.Models | internal/infra/gateway/catalog.go:103-128 | every provider with exactly the available models it serves, sorted, each once |
| Catalog.RoutedIsServed | internal/domain/access/policy.go:168-189 | routing finds providers exactly when the base or the full name has them, never for "auto", and reports the base's first |
| Catalog.AcceptedNamesAreTheirOwn | internal/infra/gateway/catalog.go:166-213 | an accepted compatible provider shares its policy name with no built-in one, and with another accepted one only if they share the key |
| Catalog.RefusedExactly | internal/infra/gateway/catalog.go:182-213 | a compatible entry is refused if and only if its name without the prefix is blank or one a built-in provider goes by |
| Catalog.BuiltinList | internal/infra/gateway/catalog.go:197-201 | those names, one by one |
| ModelAccess.CabinetModels | internal/app/models/models.go:47-87 | a model is shown under a provider serving it exactly when the gate passes a request naming it, and as unpriced exactly when the gate refuses it for price; providers and models sorted, no empty provider |
| ModelAccess.JudgeModels | internal/app/models/models.go:57-78 | the memo never changes a verdict, and each model is shown or blocked exactly by its own |
| ModelAccess.BuildEntries | internal/app/models/models.go:54-83 | every provider with something to show gets one entry, the others none, in whatever order they are visited |
| ModelAccess.GateListingCabinetAgree | internal/infra/gateway/policy_gate.go:150-200 | gate, listing filter and cabinet agree on every available model, on all its providers or on none |
| ModelAccess.VerdictInPlainTerms | internal/infra/gateway/policy_gate.go:150-200 | unknown when nothing serves the model; not allowed when some provider serving it is granted by no rule, a rule being its provider and its glob; unpriced when a limited owner lacks a price on one of them; passed otherwise |
| ModelAccess.LimitedInPlainTerms | internal/domain/limits/limits.go:87-95 | an owner is limited by their own set when they have one, even an empty one, else by the defaults |
| ModelAccess.UnpricedMeansMissingPrice | internal/app/pricing.go:16-51 | a refusal for price alone means a provider serving the model has no price under the name the registry serves; a passed model of a limited owner has one on every provider |
| ModelAccess.GateIsMonotone | internal/infra/gateway/policy_gate.go:150-200 | more rules or no limits never take a model away |
| ModelAccess.NoRulesAdmitNothing | internal/app/models/models.go:49-51 | an empty policy admits nothing, so the early return agrees with the gate |
| Drain.RequestDrain.EnterRequest | internal/infra/gateway/drain.go:53-66 | refines entering: admitted exactly before the drain starts |
| Drain.RequestDrain.LeaveRequest | internal/infra/gateway/drain.go:68-77 | refines leaving, and never closes the channel twice |
| Drain.RequestDrain.StartDrain | internal/infra/gateway/drain.go:79-93 | refines stopping; a second stop changes nothing |
| Drain.DrainIsExact | internal/infra/gateway/drain.go:53-93 | in every interleaving the count is the requests admitted and not left, and the channel is closed exactly once, exactly when stopped with none in flight |
| Drain.StartedDrainFinishes | internal/infra/gateway/drain.go:53-93 | a started drain admits nothing and ends after exactly as many more leaves as requests were in flight |
| UsageCost.RunningCost.Add | internal/app/usage_cost.go:31-40 | the running total is the sum of both costs, field by field |
| UsageCost.RequestIsConserved | internal/app/usage_cost.go:42-87 | priced and unpriced tokens are the larger of the total and the classified count; cost plus savings charges every input token at the input rate |
| UsageCost.NoTokensCostNothing | internal/app/usage_cost.go:52-64 | without classified tokens nothing is priced and every token is unpriced |
| UsageCost.UnpricedInPlainTerms | internal/app/usage_cost.go:52-64 | unpriced are the tokens of the total beyond the classified kinds, and without a price the classified ones too |
| UsageCost.MoreInput | internal/app/usage_cost.go:52-85 | more input tokens cost the input rate, in the input part alone |
| UsageCost.MoreOutput | internal/app/usage_cost.go:52-85 | more output tokens cost the output rate, in the output part alone |
| UsageCost.MoreReasoning | internal/app/usage_cost.go:42-85 | reasoning tokens cost the output rate, in the output part alone |
| UsageCost.MoreCacheReads | internal/app/usage_cost.go:52-85 | more cache reads cost the cache-read rate in their own part, and save the difference to the input rate |
| UsageCost.MoreCacheWrites | internal/app/usage_cost.go:52-85 | more cache writes cost the cache-write rate in their own part, and take off the savings what it is above the input rate |
| UsageCost.MoreCacheWritesAtInputRate | internal/app/usage_cost.go:64-71 | without a cache-write rate they cost the input rate and save nothing |
| UsageCost.NegativeIsZero | internal/app/usage_cost.go:52-87 | a negative count counts as zero, and a model without a price costs nothing |
| UsageCost.SumIsConserved | internal/app/usage_cost.go:27-87 | both laws hold of any sum built with Add |
| UsageCost.ChainIgnoresOrder | internal/app/usage_cost.go:31-40 | adding the same requests in another order gives the same cost |
| UsageCost.GroupingDoesNotMatter | internal/app/usage_cost.go:31-40 | two sums of the same requests, in any grouping and order, are the same cost |

## Left out

- Limits.Validate: does not model NaN or infinite amounts; amounts are reals.
- Limits.RetryAfterIsExact: does not model the rounding of seconds as floating point.
- PriceList.ValidatePrices: does not model NaN or infinite rates, which the source refuses; rates are reals.
- UsageCost.RequestIsConserved: over exact arithmetic; float rounding and the overflow of 64-bit token counts are not modelled.
- SoftLimit.SoftLimitBound: one account with a fixed valid set; what a change of the set does to its windows is in SpendLimits.
- SoftLimitTightness.BoundIsTight: for sets of one rule, as is OldReadingsPassAnyBound.
- SpendLimits.Service.SetUser: a failed repository call is taken to have written nothing; that a write can take effect and still report failure is modelled in SoftLimit, CredentialStore and Throttle.
- BodyBudget.BufferBody: other requests do not act during one call here, they do in BodyBudgetProtocol; the loop's body is split into helper methods; a wait that fails while there is room stands for waiters ahead in the semaphore's queue.
- Throttle.WindowBound: assumes clock readings that do not decrease in the order the atomic charge sees them.
- RateLimit.RateWithEvictions: like every result about runs of the limiter, assumes clock readings that do not decrease in the order the lock sees them; `allow` reads the clock before it locks.
- PriceService.Service.FinishCheck: the gap between releasing the lock after a refused store and taking it to note the failure (internal/app/prices/prices.go:399-409) is one step; manual edits in it touch other fields.
- Access.CanonicalRoundTrip: lower-casing covers ASCII letters only, and invalid UTF-8 is not modelled; the same holds of addresses in Throttle.
- Glob.CompileGlob: of the expression syntax, only what compiled globs use.
- Catalog.Models: the upstream registry is a map from names to provider keys; availability is the list it reports.
- The read-only views of spend limits (Mine, ForUser, Defaults), whose content is SpendLimits.Service.View.
- Cryptography, codecs and JSON: sealing opens under its own id, the digest is injective, and what decoding comes to is a parameter.
- SQL beyond each repository's contract, and the order in which repositories list rows.
- Clipping of error texts, metrics, logging and the content of audit records.
- HTTP handlers, timers, read deadlines, the settling pause after a drain, and cancellation beyond a step that may fail.
- Extraction of model names from requests and the rewriting of listings.
- Settings documents, OIDC, recovery, account administration and token issue: sequences of single writes whose claims are easy or rest on code outside this repository.
