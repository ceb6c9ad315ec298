# RenderTrust: a verified model of its stateful cores

RenderTrust runs jobs on edge nodes, charges credits for them and anchors its ledger on a chain. This project
models the parts of its Python back end whose correctness spans many calls, and proves what every call and every
run of them keeps. `dafny verify dfyconfig.toml` checks all of it.

| files | what they model |
|---|---|
| `Foundations.dfy` | bytes, UTF-8, digests, collisions, errors |
| `MerkleLevels.dfy`, `MerkleTree.dfy`, `MerkleBinding.dfy` | the anchoring Merkle tree: building, proofs, verification; what a root and an accepted proof commit to |
| `PromotedTree.dfy` | the roll-up bundler's second Merkle tree, which promotes an odd node |
| `HashInput.dfy`, `Anchoring.dfy` | leaves of ledger entries; the bundler with inserts, chain and save failures in between; proofs regenerated from the database |
| `Sieve.dfy` | the prime sieve of the CPU benchmark plugin |
| `Ledger.dfy`, `LedgerConcurrency.dfy` | the credit ledger, serialised and with freely interleaved calls |
| `Stripe.dfy`, `Billing.dfy` | checkout deliveries, usage charges, monthly payouts |
| `RateLimit.dfy` | the Redis rate limiter with concurrent requests and Redis failures |
| `Scheduler.dfy`, `SchedulerService.dfy`, `SchedulerHistory.dfy`, `Autoscale.dfy` | nodes, jobs, retries, dead letters, circuit breaker; their rows told from the events of a run; autoscaling |

Code that updates objects is modelled by classes and methods; each method's contract ties its result and new state
to a function, and the lemmas prove what the source promises about that function over whole runs.

**The hash.** SHA-256 is a parameter of type `Bytes -> Digest` with 32-byte digests and no further assumption.
Results about roots read "equal, or `Collision`", where `Collision(h, s, t)` names two different strings, one of
those hashed in the first computation and one of those hashed in the second, with equal digests.

**Units.** Ledger amounts are integers in millionths of a credit, job prices in ten-thousandths; loads are reals.
Times are integers: seconds in the scheduler and the autoscaler, a unit as fine as one likes in the rate limiter, whose
window is given in that unit.

## What the code does differently from its own documentation

- `core/auth/rate_limit.py:17` speaks of a sliding window. The counter is fixed to the lifetime of a key: one window
  can let through up to `2 * max_requests - 1` requests. That bound is proved, and proved to be reached; a sliding
  limit holds exactly for limits of at most one (`SlidingLimitExactly`).
- `core/ledger/anchor/merkle.py` binds the list of leaves, but neither its length, once leaves may repeat, nor its
  level, since leaves are hashed as pairs are: `RootsAgreeExactly` gives the exact condition under which two lists
  share a root, `RepeatedLastLeaf` and `LeafCanStandForPair` show both ways to come by one.
- `core/ledger/anchor/merkle.py:161` calls what `verify_proof` accepts a valid inclusion proof. It checks the leaf hash
  only, whatever leaf the proof names and however few steps it has (`NamedLeafIsNotChecked`). An accepted proof with
  as many steps as levels names the leaf it starts at exactly if its leaf hash is that leaf's (`NamedLeafExactly`); a
  shorter one starts at an inner node (`AcceptedProofStartsAtANode`).
- `core/ledger/service.py:99-122` locks a user's latest row, but a user without rows has none: `ConservesExactly` says
  which interleavings keep the balance query right, `FirstCreditsCanRace` shows one that does not.
- `core/ledger/anchor/bundler_task.py:53-73` does not ask the repository for an order, while the proof endpoint
  rebuilds batches in id order: `ProofNeedsIdOrder` shows that the proofs of a batch verify exactly if it was fetched
  in id order, `BackwardFetchBreaksProofs` gives a run whose proofs do not.
- `core/ledger/anchor/bundler_task.py:126-128` says that one cycle may process several batches; it processes one
  (`SuccessfulCyclesDrain`).
- `core/scheduler/circuit_breaker.py:24-27` describes one probe; nothing limits probes once the timeout has passed
  (`ProbesAreNotLimited`, with runs in `AnyNumberOfProbes`).
- `core/scheduler/retry.py:20` says that retries are dispatched to a different node when possible; the search may return
  the same one while another is eligible (`RetryStaysExactly`, with a run in `FailedNodeIsRetried`).
- `core/scheduler/circuit_breaker.py:105-106` says that `record_failure` returns the node's status; below the
  threshold it returns HEALTHY whatever the row holds (`VerdictIsTheStatus`, with a run in
  `FailureOfStaleNodeReportsHealthy`).
- `core/billing/payout.py:233-234` reports `is_paid` also when an older payout of the month blocked the credit:
  `MarkedPaidMeansCredited` says exactly when the reported amount is the credited one, `LaterJobsAreNotPaid` gives two
  executions of one month where it is not.

## Model

| member | source | states |
|---|---|---|
| Foundations.Utf8Injective | core/ledger/anchor/merkle.py:177-180 | different leaf strings are hashed from different bytes |
| MerkleTrees.MerkleTree.constructor | core/ledger/anchor/merkle.py:87-92 | a new tree holds the hashed leaves and every level above them |
| MerkleTrees.MerkleTree.Create | core/ledger/anchor/merkle.py:87-90 | an empty list raises, any other yields a valid tree |
| MerkleTrees.MerkleTree.Build | core/ledger/anchor/merkle.py:187-201 | the while loop builds exactly the levels of the tree, up to one root |
| MerkleTrees.MerkleTree.HashRow | core/ledger/anchor/merkle.py:193-197 | the for loop hashes neighbours in pairs and an odd last node with itself |
| MerkleTrees.MerkleTree.GetRoot | core/ledger/anchor/merkle.py:98-101 | the top level's single node is the root of the leaves |
| MerkleTrees.MerkleTree.GetProof | core/ledger/anchor/merkle.py:113-153 | out of range raises; otherwise leaf, leaf hash, sibling path, sides and root of that position |
| MerkleTrees.MerkleTree.CollectSiblings | core/ledger/anchor/merkle.py:122-145 | the loop over the levels collects one sibling and one side per level |
| MerkleTrees.MerkleTree.VerifyProof | core/ledger/anchor/merkle.py:159-171 | unequal lengths raise; otherwise true exactly if climbing from the leaf hash ends at the root |
| MerkleTrees.IssuedProofsVerify | core/ledger/anchor/merkle.py:113-171 | completeness: every issued proof verifies, for every non-empty list and position |
| MerkleTrees.IssuedPathShape | core/ledger/anchor/merkle.py:126-145 | the sides are the binary digits of the index; their number is the least d with 2^d >= leaf count |
| MerkleTrees.NamedLeafIsNotChecked | core/ledger/anchor/merkle.py:159-171 | an issued proof is accepted whatever leaf it names, and so is a proof without steps that starts at the root |
| MerkleLevels.RootIsSubtree | core/ledger/anchor/merkle.py:187-201 | the bottom-up builder computes the tree defined top down by splitting at powers of two |
| MerkleBinding.TreeOfLeaves | core/ledger/anchor/merkle.py:187-201 | the tree is perfect of least height over the filled-up row of leaf digests, and hashes nothing else |
| MerkleBinding.RootBinding | core/ledger/anchor/merkle.py:187-201 | lists of equal length with one root are equal, or a collision is exhibited |
| MerkleBinding.RootsAgreeExactly | core/ledger/anchor/merkle.py:177-201 | for all non-empty lists: one root if and only if one filled-up row, or the leaves of one list are the pairs hashed at some level for the other, or a collision |
| MerkleBinding.RootBindingDistinct | core/ledger/anchor/merkle.py:177-201 | with pairwise distinct leaves the root fixes list and length, unless the leaves of one list stand for pairs of the other |
| MerkleBinding.StandingForPairsTakes64Bytes | core/ledger/anchor/merkle.py:177-185 | such leaves are all 64 bytes long and are hashed as pairs in the other tree |
| MerkleBinding.RootBindingWithoutPairSize | core/ledger/anchor/merkle.py:177-201 | so a leaf of another length in each list of distinct leaves suffices for binding |
| MerkleBinding.SameRowSameRoot | core/ledger/anchor/merkle.py:194-197 | lists that fill up to one row always have one root |
| MerkleBinding.RepeatedLastLeaf | core/ledger/anchor/merkle.py:194-197 | repeating the last leaf of any odd list leaves the root unchanged |
| MerkleBinding.LeafCanStandForPair | core/ledger/anchor/merkle.py:177-185 | such leaves exist without a collision: a hash function and two lists with one root |
| MerkleBinding.AcceptedProofIsTheIssuedOne | core/ledger/anchor/merkle.py:159-171 | soundness: an accepted proof with the root and the sides of position i carries the hash of leaf i and the issued siblings, or yields a collision |
| MerkleBinding.AcceptedProofStartsAtANode | core/ledger/anchor/merkle.py:159-171 | soundness for any directions: an accepted proof of at most the tree's height starts at the tree's node its directions lead to, or yields a collision |
| MerkleBinding.AcceptedProofProvesMembership | core/ledger/anchor/merkle.py:159-171 | with as many steps as levels it starts at the leaf whose position its directions spell, or yields a collision |
| MerkleBinding.NamedLeafExactly | core/ledger/anchor/merkle.py:159-171 | such a proof names that leaf exactly if its leaf hash is the hash of the named leaf, or yields a collision |
| PromotedTrees.RollupTree.constructor | rollup_anchor/bundler.py:34-36 | leaves are hashed one by one and the tree is built |
| PromotedTrees.RollupTree.BuildTree | rollup_anchor/bundler.py:47-66 | the loops build exactly the levels of the promoting tree |
| PromotedTrees.RollupTree.Combine | rollup_anchor/bundler.py:54-61 | neighbours are hashed in pairs and an odd last node is passed on |
| PromotedTrees.RollupTree.GetRoot | rollup_anchor/bundler.py:68-72 | the top node, or the empty string for no leaves |
| PromotedTrees.RollupTree.GetProof | rollup_anchor/bundler.py:74-90 | the siblings on the path; empty for an index out of range |
| PromotedTrees.RollupTree.Collect | rollup_anchor/bundler.py:79-88 | the loop over the levels skips levels where the node has no sibling |
| PromotedTrees.ProofRefoldsToRoot | rollup_anchor/bundler.py:68-90 | index and leaf count alone suffice to fold every direction-less proof back to the root |
| PromotedTrees.RefoldedProofIsTheIssuedOne | rollup_anchor/bundler.py:42-90 | a direction-less proof that folds to the root from some digest at a position is the issued one for the leaf there, or yields a collision |
| PromotedTrees.RootBinding | rollup_anchor/bundler.py:34-72 | lists of equal length with one root are equal, or a collision is exhibited |
| PromotedTrees.SameShapeIffPowerOfTwo | rollup_anchor/bundler.py:47-66 | the two trees of the repository have one shape exactly when the leaf count is a power of two |
| HashInputs.HashInputFixesId | core/ledger/anchor/models.py:155-163 | entries with different ids never share a leaf |
| HashInputs.HashInputFixesColumns | core/ledger/anchor/models.py:155-163 | entries with one leaf agree in every hashed column exactly when their amounts and timestamps hold equally many colons |
| HashInputs.ColonInAmountCanCollide | core/ledger/anchor/models.py:155-163 | a colon in the amount column, which is text, can hide a change at any id, account and timestamp |
| Bundler.Repository.FetchUnanchored | core/ledger/anchor/bundler_task.py:60-62 | the first unanchored rows in id order, at most the limit |
| Bundler.Repository.SaveAnchor | core/ledger/anchor/bundler_task.py:64-73 | stores the record and links the listed rows together, or nothing on a duplicate key or transaction hash |
| Bundler.AnchoringService.AnchorBatch | core/ledger/anchor/service.py:80-122 | an empty batch or a chain error raises; otherwise root and count are submitted and recorded with what the receipt says |
| Bundler.RunOnce | core/ledger/anchor/bundler_task.py:119-148 | one cycle: what it does to the database and to the chain for every outcome |
| Bundler.CycleIsSoundAndExtends | core/ledger/anchor/bundler_task.py:119-148 | a cycle keeps every record sound and loses or changes no row |
| Bundler.LinkRemovesFirst | core/ledger/anchor/bundler_task.py:138-141 | saving a batch leaves exactly the other unanchored rows, in order |
| Bundler.SuccessfulCyclesDrain | core/ledger/anchor/bundler_task.py:81-148 | k successful cycles anchor min(n, k * limit) of n waiting entries |
| AnchorSteps.StepKeepsInvariant | core/ledger/anchor/bundler_task.py:107-148 | each step, inserts between the awaits included, keeps every record tied to its linked rows |
| AnchorSteps.RunsKeepInvariant | core/ledger/anchor/bundler_task.py:81-148 | over every run, with fetches in any order, a record was made from a listing of exactly its linked entries |
| AnchorSteps.OrderedRunsAreSound | core/ledger/anchor/bundler_task.py:81-148 | with fetches in id order a record's root and count are those of its linked entries in id order |
| AnchorSteps.RunsExtend | core/ledger/anchor/bundler_task.py:81-148 | over every run no entry is lost or altered and no anchor changes |
| AnchorSteps.UnanchoredCanBeAnchored | core/ledger/anchor/bundler_task.py:107-116 | failures lose nothing: after any run every unanchored entry can still be anchored |
| AnchorSteps.LinkedIsTheBatch | core/ledger/anchor/bundler_task.py:64-73 | after saving, the rows of the new record are exactly the batch |
| AnchorSteps.ProofVerifiesExactly | core/api/v1/ledger.py:152-201 | unknown and unanchored entries get 404; an anchored one gets its record's data and a proof that verifies exactly if the recorded root is that of the linked rows in id order |
| AnchorSteps.AnchoredEntriesHaveValidProofs | core/api/v1/ledger.py:176-201 | in a sound database every anchored entry's proof verifies |
| AnchorSteps.BundlerEndToEnd | core/api/v1/ledger.py:176-201 | after any run with fetches in id order every anchored entry's regenerated proof verifies, and its root, transaction and block are those of one submission of the linked rows |
| AnchorSteps.LinkedEntryProof | core/ledger/anchor/service.py:124-150 | the service's proof for a linked entry is found by id and verifies against the root of the linked rows |
| AnchorSteps.RecordedRootNeedsIdOrder | core/ledger/anchor/bundler_task.py:130-141 | a record agrees with its rows in id order exactly when its batch was fetched in id order, or a collision |
| AnchorSteps.ProofNeedsIdOrder | core/ledger/anchor/bundler_task.py:130-141 | over any run every anchored entry has a proof with root, transaction and block of one submission of its batch, which verifies exactly if that batch was fetched in id order, or a collision |
| AnchorSteps.BackwardFetchBreaksProofs | core/ledger/anchor/bundler_task.py:60-62 | a run that fetches two rows backwards: neither proof verifies without a collision |
| AnchorSteps.AnchorRevealsTampering | core/ledger/anchor/service.py:64-78 | rows that still give a record's root and count are the anchored ones exactly if their amounts and timestamps hold as many colons as before, or a collision |
| AnchorSteps.RootAloneRevealsTampering | core/ledger/anchor/service.py:64-78 | for distinct ids the root alone also fixes the number of rows, unless the rows of one list stand for pairs of the other |
| Sieve.SieveOfEratosthenes | edgekit/workers/plugins/cpu.py:160-182 | for every limit the result is the number of primes in [2, limit] |
| Sieve.MarkMultiples | edgekit/workers/plugins/cpu.py:179-180 | the slice assignment clears exactly the multiples of i from i*i on |
| Sieve.OneMoreFactor | edgekit/workers/plugins/cpu.py:177-180 | each turn keeps set exactly the numbers without a small divisor, also when i was struck out already |
| Sieve.PrimeIffNoSmallDivisor | edgekit/workers/plugins/cpu.py:177-177 | divisors up to the square root decide primality |
| Sieve.SievedToRoot | edgekit/workers/plugins/cpu.py:177-182 | after isqrt(limit) the set flags are the primes |
| Sieve.SumFlags | edgekit/workers/plugins/cpu.py:182-182 | the sum counts the set flags |
| Sieve.Execute | edgekit/workers/plugins/cpu.py:110-158 | default limit, the three refusals, and the prime count otherwise |
| Ledger.CreditLedger.Flush | core/models/base.py:158-168 | an insert is refused exactly on a used key or a negative balance |
| Ledger.CreditLedger.AllocateCredits | core/ledger/service.py:52-145 | the new table and the result of a serialised credit call |
| Ledger.CreditLedger.DeductCredits | core/ledger/service.py:166-266 | the new table and the result of a serialised debit call |
| Ledger.BalanceIsNet | core/ledger/service.py:148-163 | the queried balance is credits minus debits and never negative |
| Ledger.ApplyConserves | core/ledger/service.py:99-122 | a call keeps conservation, moves only its user's balance, and by the amount; errors change nothing |
| Ledger.RefusedIffBeyondNet | core/ledger/service.py:214-232 | a debit fails exactly when its key is new and it exceeds credits minus debits |
| Ledger.OutcomeExactly | core/ledger/service.py:79-135 | every outcome of a call: bad amount, used key, debit beyond the net, or a row of its own that says what the call said |
| Ledger.RowsRecordCalls | core/ledger/service.py:112-120 | over every run each new row records one of the calls in every column |
| Ledger.RunsConserve | core/ledger/service.py:52-266 | over every run balances are conserved and non-negative and entries never change |
| Ledger.UsedKeyReturnsTheEntry | core/ledger/service.py:83-97 | once used, a key returns its entry and changes nothing, after any calls at any times, whatever user and amount are passed |
| Ledger.BalanceNeedsAdvancingClock | core/ledger/service.py:156-163 | the balance query is right after an insert exactly when its timestamp is later than the user's others |
| LedgerConcurrency.NextKeepsInvariant | core/ledger/service.py:83-135 | every interleaved step keeps keys unique and balances non-negative, and only appends |
| LedgerConcurrency.InterleavingsAreIdempotent | core/ledger/service.py:124-135 | however calls interleave, those with one key that return do return one entry |
| LedgerConcurrency.ConflictsAlwaysResolve | core/ledger/service.py:245-256 | after an IntegrityError the winning entry is always found; calls raise only for a bad amount or a debit of more than the balance they read |
| Ledger.ConservedIsAlwaysRight | core/ledger/service.py:148-163 | a table is conserved exactly if its constraints hold and in every prefix every possible answer of the balance query is credits minus debits |
| LedgerConcurrency.ConservesExactly | core/ledger/service.py:99-122 | over an interleaved execution the balance query always answers with credits minus debits if and only if each insert finds the net that its call has read, and a later clock |
| LedgerConcurrency.InsertConservesExactly | core/ledger/service.py:112-122 | one insert keeps the balance query right exactly when it adds to the user's net under a later timestamp |
| LedgerConcurrency.FirstCreditsCanRace | core/ledger/service.py:99-122 | two first credits of one user can both be granted and one is lost from the balance |
| Stripe.HandleCheckoutCompleted | core/billing/stripe/stripe_webhook.py:137-189 | which deliveries credit, which are ignored and which raise |
| Stripe.KeysAfterDeliveries | core/billing/stripe/stripe_webhook.py:181-188 | a session's key is in the ledger exactly if it was before or a valid delivery carried it |
| Stripe.BalanceCountsSessionsOnce | core/billing/stripe/stripe_webhook.py:137-189 | with any other ledger calls in between, the final balance adds the credits of each distinct valid session once |
| Stripe.BalanceCountsPackages | core/billing/stripe/stripe_webhook.py:63-63 | that is 100 credits for each distinct cred10 session of the user, 550 for each cred50 and none for others |
| Stripe.RowCreditsItsSession | core/billing/stripe/stripe_webhook.py:181-188 | the row under a session id credits a delivered session to its user, as a Stripe payment |
| Stripe.OrderAndRepetitionDoNotMatter | core/billing/stripe/stripe_webhook.py:79-81 | what deliveries add to a balance depends only on the set of delivered sessions |
| Prices.PricesExactly | core/billing/usage.py:45-88 | an active row of the type decides the price, inactive and other rows do not; the built-in prices |
| Usage.JobReferenceInjective | core/billing/usage.py:116-116 | different jobs have different keys |
| Usage.DeductOnCompletion | core/billing/usage.py:91-143 | charges the job's price under the key of the job |
| Usage.EachJobIsBilledOnce | core/billing/usage.py:98-126 | over any completions and other calls each job gets one row of its own, with the first price its user could pay, or none |
| Usage.DebitsSumOverJobs | core/billing/usage.py:98-126 | a user's debits are the sum over the distinct jobs billed |
| Usage.PreflightHolds | core/billing/usage.py:146-179 | the check passes exactly if the job is free or charging it succeeds after any calls of other users |
| Usage.ChargedOnce | core/billing/usage.py:98-99 | a job is charged at most once, also after its price changed and after any other calls |
| Payouts.MonthsPartitionTheCalendar | core/billing/payout.py:72-86 | a date lies in the interval of its own month and in no other |
| Payouts.CalculateEarnings | core/billing/payout.py:140-186 | the summed gross of the node's completed jobs, and shares that add up to it exactly |
| Payouts.GeneratePayoutReport | core/billing/payout.py:189-216 | one summary per active node; together they account for every job completed in the month |
| Payouts.ReportAccountsForEveryJob | core/billing/payout.py:202-207 | the report's gross is the price of all jobs completed in the month |
| Payouts.RowCountsExactly | core/billing/payout.py:105-113 | a row adds its price, split 70 to 30, and one job to the summary of its node exactly if it is completed in the month; otherwise nothing |
| Payouts.ActiveNodesExactly | core/billing/payout.py:130-137 | the nodes listed are those with a job completed in the month |
| Payouts.OtherRowsDoNotCount | core/billing/payout.py:129-137 | rows not completed in the month change neither the nodes nor the report |
| Payouts.PayoutReferenceInjective | core/billing/payout.py:249-250 | references coincide exactly for one node and one month |
| Payouts.PayoutReferenceReads | core/billing/payout.py:249-250 | the reference names the first day of the month, whatever day it is given by |
| Payouts.Pay | core/billing/payout.py:239-273 | one summary: skipped without earnings, else credited under its reference and marked paid |
| Payouts.PaySummaries | core/billing/payout.py:239-273 | the loop over all summaries |
| Payouts.ExecutePayouts | core/billing/payout.py:219-290 | ledger and report after one execution |
| Payouts.PaidOnceAtTheFirstAmount | core/billing/payout.py:225-227 | over any executions, with any other ledger calls in between, at most one row is booked for a node and month, with the first amount found |
| Payouts.MarkedPaidMeansCredited | core/billing/payout.py:264-273 | the reported amount is the credited one exactly if the key was free or held that amount |
| Payouts.ReportedPaidExactly | core/billing/payout.py:239-273 | a node is reported paid exactly if it earned something, and then its row is there |
| Payouts.LaterJobsAreNotPaid | core/billing/payout.py:239-273 | two executions of one month: the second reports twice the amount that was credited |
| RateLimit.RateLimiter.Check | core/auth/rate_limit.py:86-106 | an undisturbed request: the key afterwards, refusal exactly beyond the limit, and a retry time that is exact while the key lives and has a deadline |
| RateLimit.KeyCountsItsLifetime | core/auth/rate_limit.py:89-91 | while the key lives its value is the number of INCR commands of its lifetime, failed ones included |
| RateLimit.LostExpireBlocksForGood | core/auth/rate_limit.py:90-91 | a key whose EXPIRE was lost never goes away: beyond the limit only failures of Redis let requests through |
| RateLimit.StepKeepsInvariant | core/auth/rate_limit.py:86-117 | every atomic command, failing ones included, keeps lifetimes a window apart and their grants within the limit |
| RateLimit.RunsKeepLogComplete | core/auth/rate_limit.py:86-117 | the log lists every request bound to be allowed once, and no other |
| RateLimit.LifetimeBound | core/auth/rate_limit.py:89-93 | each lifetime of the counter allows at most max_requests |
| RateLimit.WindowBound | core/auth/rate_limit.py:86-106 | any half-open window allows at most 2 * max_requests - 1 counted requests |
| RateLimit.WindowBoundIsReached | core/auth/rate_limit.py:86-106 | for every limit some failure-free run reaches that bound |
| RateLimit.SlidingLimitExactly | core/auth/rate_limit.py:17-17 | every window of every run stays within the limit exactly for limits of at most one |
| SchedulerService.UpdateJobStatus | core/scheduler/job_service.py:66-149 | unknown jobs and invalid transitions raise; otherwise the row with its timestamps, result, error and retry count |
| SchedulerService.CancelJob | core/scheduler/job_service.py:203-248 | only queued and dispatched jobs become FAILED |
| SchedulerService.FindBestNode | core/scheduler/dispatch.py:90-119 | a least-loaded healthy capable node, or none exactly when there is none |
| SchedulerService.DispatchJob | core/scheduler/dispatch.py:181-239 | a dispatched row on a best node, or 503 |
| SchedulerService.RegisterNode | core/scheduler/service.py:42-97 | a known public key returns its node, a new one adds a REGISTERED row |
| SchedulerService.ProcessHeartbeat | core/scheduler/service.py:100-135 | time, clamped load, and recovery to HEALTHY |
| SchedulerService.MarkStaleNodes | core/scheduler/service.py:138-174 | exactly the stale healthy nodes become UNHEALTHY, and are counted |
| SchedulerService.MoveToDlq | core/scheduler/retry.py:187-245 | the FAILED row and the dead letter with its error history |
| SchedulerService.ScheduleRetry | core/scheduler/retry.py:93-179 | re-queues below the limit, buries at it, raises for completed jobs |
| SchedulerService.CircuitBreaker.RecordFailure | core/scheduler/circuit_breaker.py:90-145 | counts, trips at the threshold, and what a trip does to node and jobs |
| SchedulerService.CircuitBreaker.RecordSuccess | core/scheduler/circuit_breaker.py:147-173 | forgets the node and makes its row HEALTHY |
| SchedulerService.CircuitBreaker.CheckNodeHealth | core/scheduler/circuit_breaker.py:185-229 | the effective status, and half-open exactly when a probe is allowed |
| SchedulerService.CircuitBreaker.RedistributeJobsOf | core/scheduler/circuit_breaker.py:233-275 | queued and dispatched jobs of the node are queued, others untouched; the number moved |
| SchedulerService.CircuitBreaker.Reset | core/scheduler/circuit_breaker.py:279-290 | forgets the node |
| SchedulerRuns.RunsKeepJobsSound | core/scheduler/job_service.py:52-139 | a result implies COMPLETED; dispatch and completion times are set and ordered where the status says so |
| SchedulerRuns.RunsKeepHistory | core/scheduler/job_service.py:52-58 | COMPLETED is absorbing, retry counts never fall, payloads never change |
| SchedulerRuns.RetriesAreBounded | core/scheduler/retry.py:59-70 | at most MAX_RETRIES calls ever re-queue a job; each other call leaves a dead letter |
| SchedulerRuns.RetryLoopEndsInDeadLetter | core/scheduler/retry.py:116-179 | more than MAX_RETRIES calls on a job that never completes bury it: FAILED, and a letter with its payload that stays |
| SchedulerRuns.LettersComeFromBurials | core/scheduler/retry.py:205-235 | over every run a dead letter of a job comes from a call that found its retries used up and failed it |
| SchedulerRuns.RetryStaysExactly | core/scheduler/retry.py:144-151 | with another node eligible, a re-queued job can stay on its node exactly if that is eligible and no eligible node is less loaded |
| SchedulerRuns.FailedNodeIsRetried | core/scheduler/retry.py:144-151 | a run with two eligible nodes in which a failed job is retried on the same node |
| SchedulerRuns.RunsKeepLetters | core/scheduler/retry.py:205-235 | every dead letter has used up its retries and carries the original payload |
| SchedulerRuns.RunsKeepNodesSound | core/scheduler/service.py:120-132 | every healthy node and every node with a job has been heard; loads stay fractions |
| SchedulerRuns.SweepLeavesFreshNodes | core/scheduler/service.py:150-174 | after a sweep every healthy node, and any node a search finds, was heard within 90 seconds |
| SchedulerRuns.SuccessNeedsAHeardNode | core/scheduler/circuit_breaker.py:169-173 | a recorded success keeps this exactly if the node is unknown or was heard before |
| SchedulerRuns.UnheardIsNeverStale | core/scheduler/service.py:150-174 | a healthy node that was never heard stays so over every run until it reports or fails |
| SchedulerRuns.RunsKeepKeysUnique | core/scheduler/service.py:68-72 | public keys stay unique |
| SchedulerRuns.BreakerRefinesHistory | core/scheduler/circuit_breaker.py:108-167 | the stored state is the failure run since the last success or reset and the time of the latest failure |
| SchedulerRuns.TripsAtTheThird | core/scheduler/circuit_breaker.py:119-145 | UNHEALTHY is returned exactly from the third failure of a run on |
| SchedulerRuns.TripReleasesJobs | core/scheduler/circuit_breaker.py:253-267 | after any run a failure from the third of its run on leaves no dispatched job on the node, loses none and touches no other; an earlier one changes no row |
| SchedulerRuns.ProbeTiming | core/scheduler/circuit_breaker.py:212-229 | an unhealthy node may be probed exactly from 300 seconds after the latest failure of its run |
| SchedulerRuns.ProbesAreNotLimited | core/scheduler/circuit_breaker.py:212-229 | once a probe is allowed, every later check over any run allows another until the outage ends |
| SchedulerRuns.AnyNumberOfProbes | core/scheduler/circuit_breaker.py:212-229 | for every number there is a run that allows that many probes of a node in one outage |
| SchedulerRuns.VerdictIsTheStatus | core/scheduler/circuit_breaker.py:119-145 | the status returned is that of the row exactly if the failure trips the breaker or the row is HEALTHY |
| SchedulerRuns.FailureOfStaleNodeReportsHealthy | core/scheduler/circuit_breaker.py:145-145 | a run after which a failure of an UNHEALTHY node with a job is answered with HEALTHY |
| SchedulerHistory.UpdateMovesExactly | core/scheduler/job_service.py:52-139 | an update reaches its status exactly by one of eight moves and sets what comes with it; otherwise nothing changes |
| SchedulerHistory.CancelExactly | core/scheduler/job_service.py:227-240 | queued and dispatched jobs are cancelled, no others |
| SchedulerHistory.JobsCanComplete | core/scheduler/job_service.py:52-58 | from every run that leaves a node eligible a new job can be dispatched, started and completed |
| SchedulerHistory.JobsComeFromDispatches | core/scheduler/dispatch.py:208-222 | over every run a row keeps the type, payload and time of its dispatch |
| SchedulerHistory.ErrorRefinesHistory | core/scheduler/job_service.py:127-131 | the stored error is the last one that a failure, cancellation or retry gave |
| SchedulerHistory.LettersTellTheStory | core/scheduler/retry.py:205-235 | a dead letter holds the payload of the dispatch, the retries used up, and the last stored and the final error |
| SchedulerHistory.NodesRefineHistory | core/scheduler/service.py:120-170 | status, heartbeat and load of a node are what registrations, heartbeats, sweeps and recorded outcomes say |
| SchedulerHistory.HealthAnswersExactly | core/scheduler/circuit_breaker.py:204-229 | every answer over runs: OFFLINE for unknown nodes, HEALTHY for a due probe, else the status |
| SchedulerHistory.HalfOpenRefinesHistory | core/scheduler/circuit_breaker.py:217-224 | half open from an allowed probe until a success, a reset or the next trip |
| Autoscale.AutoScaleMonitor.CheckAndScale | core/scheduler/autoscale.py:185-243 | up exactly if the loads sum to more than four fifths of the node count, down exactly below one fifth or without nodes, each 300 seconds after the last; the remembered times |
| Autoscale.FleetLoadIsFraction | core/scheduler/autoscale.py:92-118 | clamped loads keep the fleet average in [0, 1] |
| Autoscale.MemoryIsLastEvent | core/scheduler/autoscale.py:176-181 | events of a kind are at least 300 seconds apart; the memory is the latest one |
| Autoscale.EmitsExactlyWhenDue | core/scheduler/autoscale.py:216-240 | after any run of checks the same, told from the loads and the events emitted so far |
| Autoscale.UniformFleets | core/scheduler/autoscale.py:217-234 | a fleet all above 0.8 is scaled up when due and never down, all below 0.2 the other way round |
| Autoscale.EventRate | core/scheduler/autoscale.py:176-240 | an interval of T seconds holds at most T/300 + 1 events of each kind |

## Left out

- SHA-256, web3, Redis, SQLAlchemy and asyncio are not modelled beyond the contracts used here: a 32-byte digest, an accepted or failed submission, atomic INCR and EXPIRE, unique and check constraints.
- Anchor records hold the raw root; its hexadecimal rendering in rows and responses is not modelled.
- LedgerConcurrency.Flush: insert and commit are one step, so transactions that flush and later roll back are not modelled; neither are row locks, since a user without entries has no row to lock.
- Ledger.RunsConserve: states conservation for serialised calls whose timestamps advance per user; `ConservesExactly` and `BalanceNeedsAdvancingClock` give the exact conditions otherwise.
- Ledger rows carry no description and no users foreign key, and amounts are not rounded to four decimals on storage.
- The paged history query of the ledger and of jobs: ordering and slicing done by the database.
- RateLimit.WindowBound: requests are timed by their INCR, as a slow request may be answered much later; requests let through because Redis failed are logged apart and not bounded.
- The key of the rate limiter is one path and address; time to live is not rounded to seconds.
- SchedulerService.RegisterNode: states what happens to the rows and which node is returned; challenge, token, name and metadata are opaque values that nothing modelled here reads.
- Payouts compare the date of completion; time zones of timestamps are not modelled.
- SchedulerService.UpdateJobStatus: rows are values in a map keyed by id, so aliasing of row objects within a session is not captured, and one call reads the clock once.
- The Redis job queues and the backoff delay, which is only logged.
- Autoscale publishes to Redis; the message and its failure have no effect on the monitor and are not modelled.
- Floating-point rounding of loads and averages: reals are used.
- Encryption, tokens, certificates, storage, relay, workers' messaging, HTTP handlers, SDKs and front ends: mostly calls into libraries, with small logic of their own.
