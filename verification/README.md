# Cliptown, verified

A Dafny model of the parts of this repository where several steps, processes or texts have to fit together, with
proofs about them. `dafny verify dfyconfig.toml` checks everything.

## What is modelled

**Guarded sections.** A routine runs `work` under a fenced lease, under a Postgres advisory lock, under both or under
neither. `LockExecutors` has the routines as they are written, with early returns, flags and clean-up on every path,
against collaborators that may fail at any call. `LockRun` is the same protocol as a state machine, one outside call a
step; each routine is proved to make the calls of the machine and to end as it does. `LockPlan` has the documented plan
as nested brackets. `LockProperties` connects the two: success is the plan, failure is a prefix of it followed by
clean-up in reverse. `LockOutcomes` says which error is reported and what a retryable one means. `FiduciaLease` is the
lease client with its polling loop and its wire numbers, `Key` the derivation of advisory keys.

**Many runners.** `PgPool` is a pool of sessions with transactions and a reentrant lock table; `LockSystem` interleaves
any number of machines over it and over a lease authority that may drop a grant at any moment. `LockSafety` has mutual
exclusion, disjointness of successful leases and conservation of clients as invariants of every interleaving,
`LockProgress` the absence of deadlock. `LockHistories` shows that what a runner does among others is a run of its
machine, so that what is proved of single runs holds in every interleaving.

**Schema to SQL.** `SqlText` reads SQL with quotes, parentheses and comments as an automaton, in which any line end ends
a line comment; `SqlLiterals` and `SqlClosed` show which texts keep to themselves. `SqlGuard` has the scanner that
admits fragments and proves that it admits exactly those that keep to themselves. `SqlDdl`, `SqlScript`,
`SqlStatements` and `SqlGenerator` put tables, constraints, indexes and comments together and prove that the result
reads back as what it was made of: the column list as its clauses, the script as its statements. `SqlReader`,
`SqlColumns` and `SqlTables` read these on, from the text alone, down to columns, types, defaults, references, keys,
enumerations, checks and indexes; `SqlFacts` and `SqlSchema` prove that what is read is what the schema says. `SqlTypes`
has the types, defaults and literals case by case. `Topo` orders the tables, `Canonical` is the canonical form of a
schema document.

**Recording actions.** `AdminCall` is one call that records an administrative action in a transaction; `AdminRecorder`
interleaves any number of them under READ COMMITTED, with waits on a key inserted but not committed, replies that are
lost, statements that take effect after their call has returned, and rollbacks at any time.

**Smaller cores.** `Masker` blanks out comments and string literals line by line; its block-comment stage equals an
automaton over characters. `Filling` compares the recursive and the split-and-join filling of lock names. `Sync`
validates synchronisation batches, `Manifest` encrypted-object manifests. `Embeddings` normalises and pads vectors over
exact reals. `Sorting`, `Decimals`, `Options` and `Validation` serve several of them.

## What is assumed of the environment

- A `BEGIN` or lock statement that fails has taken nothing; a failing commit, rollback or unlock may or may not have
  taken effect. Handing a client back does not fail.
- `work` ends, does not close the transaction, does not take clients and does not change this advisory lock; sessions
  in use stay alive.
- The authority's fencing tokens increase; a release reports true exactly when the grant is still current; an
  acquisition that fails with an error inviting a retry granted nothing. Any other failing acquisition may have granted
  the lease, and such a grant stays until it expires. "Inviting a retry" is `contention` or `timeout`.
- `admin_action_requests` is unique on the idempotency key (its insert names that key as conflict target) and the
  identifiers drawn are pairwise distinct. The table definitions are not part of this model. A transaction dropped
  without a commit is rolled back by the driver, at some time.
- Names are compared by some strict total order, and square roots are exact.
- Clocks, randomness, drawn identifiers, `fetch` replies and query results are parameters.

## What a reader of the code might not expect

Each is kept as the code has it, with the exact condition proved.

- A retryable error is documented to leave nothing half-done. It can be reported after `work`, or with the lease not
  released, exactly when the authority gives a grant and answers its release with `contention` or `timeout`
  (`LockOutcomes.RetryMisleadsExactly`; `LockOutcomes.RetryableAfterWorkHappens` and
  `LockOutcomes.RetryableUnreleasedHappens` are such runs). `FiduciaLease` never answers so
  (`FiduciaLease.AdapterIsWellBehaved`).
- A session routine that does not wait and cannot get a client reports the step `pg.advisory_lock`, which is not in its
  plan; exactly then does an error name a step outside the plan (`LockOutcomes.ErrorsNamePlannedSteps`,
  `LockOutcomes.UnplannedStepHappens`).
- A token above 2^53 - 1 that arrives as a decimal string is granted but can be neither sent back nor released, so the
  lease stays until it expires (`FiduciaLease.DecimalTokenArrives`, `FiduciaLease.UnreleasableExactly`).
- The Rust and TypeScript fillings of a template differ for some fill exactly when it has an unclosed placeholder
  (`Filling.FormsAgreeExactlyWhenClosed`).
- The canonical form lists an object's keys in string order exactly when its index-like keys come first as strings, in
  the order of their numbers (`Canonical.StringOrderExactly`); `9` and `10` do not
  (`Canonical.NineIsListedBeforeTen`).
- The chunk size a manifest declares bounds the chunks of an object exactly when it bounds the whole object
  (`Manifest.ChunkSizeBoundsExactly`, `Manifest.LongestChunkAccepted`).
- A column clause tells its field exactly when the default has no top-level word `unique` or `references`
  (`SqlFacts.ColumnReadsBack`): the default `1 unique` is accepted and makes the column unique, with the same clause as
  the default `1` of a unique column (`SqlFacts.DefaultMisleads`).

## Model

| member | source | states |
|---|---|---|
| `Key.Utf8Injective` | locks/.vendor/.zed/oresoftware/ores-locks-and-leases/src/ts/src/key.ts:14-37 | Different keys have different UTF-8 bytes, so what is hashed tells them apart. |
| `Key.EncodedShape` | locks/.vendor/.zed/oresoftware/ores-locks-and-leases/src/ts/src/key.ts:14-37 | The byte patterns of UTF-8: which code points take one, two, three or four bytes, the ranges of lead and continuation bytes. |
| `Key.EncodedExamples` | locks/.vendor/.zed/oresoftware/ores-locks-and-leases/src/ts/src/key.ts:14-37 | The bytes of one character of each length, written out. |
| `Key.AdmittedExactly` | locks/.vendor/.zed/oresoftware/ores-locks-and-leases/src/ts/src/key.ts:17-23 | A key is handed back unchanged if and only if its UTF-8 bytes are at most 512, and else refused with their number. |
| `Key.Fnv1a64` | locks/.vendor/.zed/oresoftware/ores-locks-and-leases/src/ts/src/key.ts:30-37 | The hashing loop computes the FNV-1a digest of the bytes, masked to 64 bits in every round. |
| `Key.XorIsBitwise` | locks/.vendor/.zed/oresoftware/ores-locks-and-leases/src/ts/src/key.ts:33 | The exclusive-or has, at every place, the bit that exactly one of the two numbers has. |
| `Key.RoundExactly` | locks/.vendor/.zed/oresoftware/ores-locks-and-leases/src/ts/src/key.ts:32-35 | One round mixes the byte into the low byte of the state first and multiplies by 0x100000001b3 modulo 2^64 afterwards. |
| `Key.LowByte` | locks/.vendor/.zed/oresoftware/ores-locks-and-leases/src/ts/src/key.ts:32-35 | The low byte after a round is the mixed low byte times 0xb3, modulo 256. |
| `Key.SignedReading` | locks/.vendor/.zed/oresoftware/ores-locks-and-leases/src/ts/src/key.ts:39-47 | The signed reading lies in [-2^63, 2^63) and is the word modulo 2^64. |
| `Key.KeyOfNothing` | locks/.vendor/.zed/oresoftware/ores-locks-and-leases/src/ts/src/key.ts:25-47 | The advisory key of the empty key is 0xcbf29ce484222325 - 2^64. |
| `Key.KeyOfA` | locks/.vendor/.zed/oresoftware/ores-locks-and-leases/src/ts/src/key.ts:25-47 | The advisory key of `a` is -5808556873153909620. |
| `Key.XorOfWords` | locks/.vendor/.zed/oresoftware/ores-locks-and-leases/src/ts/src/key.ts:33 | Mixing a byte into a 64-bit word stays within 64 bits. |
| `Key.AbsorbCancels` | locks/.vendor/.zed/oresoftware/ores-locks-and-leases/src/ts/src/key.ts:32-35 | One round with a given byte is injective on hash states (the prime is odd, so it can be divided out modulo 2^64). |
| `Key.AbsorbSeparates` | locks/.vendor/.zed/oresoftware/ores-locks-and-leases/src/ts/src/key.ts:32-35 | From one state, two different bytes lead to two different states. |
| `Key.SuffixCancels` | locks/.vendor/.zed/oresoftware/ores-locks-and-leases/src/ts/src/key.ts:30-37 | Absorbing a common suffix keeps states equal if and only if they were. |
| `Key.CollisionsSurviveSuffixes` | locks/.vendor/.zed/oresoftware/ores-locks-and-leases/src/ts/src/key.ts:45-47 | A common suffix neither creates nor removes a collision of advisory keys. |
| `Key.OneByteApartNeverCollide` | locks/.vendor/.zed/oresoftware/ores-locks-and-leases/src/ts/src/key.ts:45-47 | Two keys of equal length that differ in exactly one byte have different advisory keys. |
| `Key.OneAsciiCharacterApart` | locks/.vendor/.zed/oresoftware/ores-locks-and-leases/src/ts/src/key.ts:45-47 | Keys that differ in one ASCII character and nothing else have different advisory keys. |
| `Key.AsInt64Injective` | locks/.vendor/.zed/oresoftware/ores-locks-and-leases/src/ts/src/key.ts:39-47 | The signed reading identifies no two words. |
| `Key.AsInt64Onto` | locks/.vendor/.zed/oresoftware/ores-locks-and-leases/src/ts/src/key.ts:39-47 | Every value in [-2^63, 2^63) is the signed reading of a word; with `Key.AsInt64Injective`, a bijection. |
| `LockPlan.Plan` | locks/.vendor/.zed/oresoftware/ores-locks-and-leases/src/ts/src/plan.ts:71-83 | The pushed steps are the steps of the bracketed sequence of acquisitions, work and give-backs, for every switch, scope and wait flag. |
| `LockPlan.BracketedSteps` | locks/.vendor/.zed/oresoftware/ores-locks-and-leases/src/ts/src/plan.ts:71-83 | That bracketed sequence is the documented list of steps, written out step by step for every switch, scope and wait flag. |
| `LockPlan.BracketsShape` | locks/.vendor/.zed/oresoftware/ores-locks-and-leases/src/ts/src/pg.ts:118-146 | Nested brackets, under any confirmation of calls, either go through or stop at the first unconfirmed action and give back what was taken, in reverse. |
| `LockErrors.TagStep` | locks/.vendor/.zed/oresoftware/ores-locks-and-leases/src/ts/src/errors.ts:76-79 | Only a lock error without a step gets one; every other error passes through. |
| `LockErrors.CleanupFailure` | locks/.vendor/.zed/oresoftware/ores-locks-and-leases/src/ts/src/errors.ts:87-98 | The clean-up failure stays primary (kind, key, step), a foreign one becomes `transport`, and both failures are kept as cause. |
| `LockRun.LeaseWraps` | locks/.vendor/.zed/oresoftware/ores-locks-and-leases/src/ts/src/pg.ts:106-115 | Switching the lease layer on changes a run only by what is around it: the same inner calls, then a release whose outcome is combined. |
| `LockExecutors.TryLock` | locks/.vendor/.zed/oresoftware/ores-locks-and-leases/src/ts/src/pg.ts:60-68 | One call is made; false is `contention`, a failure `database`. |
| `LockExecutors.Settle` | locks/.vendor/.zed/oresoftware/ores-locks-and-leases/src/ts/src/lease.ts:120-139 | One release is made; a failed or unmatched release wins over the inner outcome and keeps its failure (which kind and step it is reported with: `LockOutcomes.FailureReadsOff`). |
| `LockExecutors.RunXact` | locks/.vendor/.zed/oresoftware/ores-locks-and-leases/src/ts/src/pg.ts:118-146 | With its try/catch/finally and flag, makes exactly the calls of the state machine from checking a client out, with its outcome. |
| `LockExecutors.RunSession` | locks/.vendor/.zed/oresoftware/ores-locks-and-leases/src/ts/src/pg.ts:184-218 | The same for session scope, including the poison flag and the unlock that reports false. |
| `LockExecutors.WithXactLock` | locks/.vendor/.zed/oresoftware/ores-locks-and-leases/src/ts/src/pg.ts:92-116 | For every switch and every answer of the collaborators, log and outcome are those of the whole run of the state machine. |
| `LockExecutors.WithSessionLock` | locks/.vendor/.zed/oresoftware/ores-locks-and-leases/src/ts/src/pg.ts:158-182 | The same for session scope. |
| `LockExecutors.WithLease` | locks/.vendor/.zed/oresoftware/ores-locks-and-leases/src/ts/src/lease.ts:78-91 | The same for the lease-only routine. |
| `LockProperties.RunRefinesPlan` | locks/.vendor/.zed/oresoftware/ores-locks-and-leases/src/ts/src/pg.ts:92-218 | A run makes exactly the calls of the bracketed plan under the same answers, and succeeds if and only if the plan does. |
| `LockProperties.SuccessIsThePlan` | locks/.vendor/.zed/oresoftware/ores-locks-and-leases/src/ts/src/pg.ts:92-218 | A routine returns a value if and only if every planned action was confirmed, and then its calls are the plan and nothing else. |
| `LockProperties.FailureIsAPrefixThenCleanup` | locks/.vendor/.zed/oresoftware/ores-locks-and-leases/src/ts/src/pg.ts:92-218 | A failing routine made the plan's calls up to the first unconfirmed one, then only clean-up of what was taken and not yet given up, last taken first. |
| `LockOutcomes.OutcomeIsBlamed` | locks/.vendor/.zed/oresoftware/ores-locks-and-leases/src/ts/src/lease.ts:93-139 | The outcome is the one determined by folding the failures of the calls made, later clean-up failures outside earlier ones. |
| `LockOutcomes.LastFailureIsPrimary` | locks/.vendor/.zed/oresoftware/ores-locks-and-leases/src/ts/src/errors.ts:87-98 | The reported error is that of the last failing call; the earlier failure is kept as its inner cause. |
| `LockOutcomes.FailureReadsOff` | locks/.vendor/.zed/oresoftware/ores-locks-and-leases/src/ts/src/pg.ts:49-218 | The kind, key and step of the reported error, written out for every call that can be the last to fail: an unmatched release is `lost_lease` at `fiducia.release`, a refused try-lock `contention` at its own step, an unlock that reports false and every failing database call `database` at theirs, a failing client `database` at the first waiting step, failing work `work`; the authority's errors keep their kind and key, and become `transport` when they are foreign and follow another failure. |
| `LockOutcomes.RetryableKinds` | locks/.vendor/.zed/oresoftware/ores-locks-and-leases/src/ts/src/errors.ts:36-39 | Exactly the lock errors of kind `contention` and `timeout` invite a retry. |
| `LockOutcomes.UnplannableIsRefused` | locks/.vendor/.zed/oresoftware/ores-locks-and-leases/src/ts/src/pg.ts:101-102 | A run makes no call and ends in `invalid_plan` without a step if and only if a layer is on whose collaborator is missing. |
| `LockOutcomes.ValueIsOfWork` | locks/.vendor/.zed/oresoftware/ores-locks-and-leases/src/ts/src/pg.ts:134-136 | A routine that succeeds returns what work returned. |
| `LockOutcomes.GivenBackExactlyOnce` | locks/.vendor/.zed/oresoftware/ores-locks-and-leases/src/ts/src/pg.ts:125-145 | On every path a checked-out client is returned exactly once and a grant is released exactly once; without them, never. |
| `LockOutcomes.EndedProperly` | locks/.vendor/.zed/oresoftware/ores-locks-and-leases/src/ts/src/pg.ts:134-218 | On every path: rolled back if and only if begun and not committed, unlocked if and only if session-locked, and the connection thrown away if and only if it was rolled back or its unlock was not confirmed. |
| `LockOutcomes.RetryableMeansNothingHalfDone` | locks/.vendor/.zed/oresoftware/ores-locks-and-leases/src/ts/src/errors.ts:36-39 | A retryable error means work never started, a granted lease was confirmed released and a client was returned, given an authority that does not invite a retry when releasing. |
| `LockOutcomes.RetryMisleadsExactly` | locks/.vendor/.zed/oresoftware/ores-locks-and-leases/src/ts/src/errors.ts:36-39 | A retryable error leaves work done, a grant unconfirmed or a client out if and only if the routine can run, the authority gives it a grant and answers the release with an error that invites a retry: the exact condition, over configuration and answers, under which the documented promise fails. |
| `LockOutcomes.RetryableAfterWorkExactly` | locks/.vendor/.zed/oresoftware/ores-locks-and-leases/src/ts/src/errors.ts:36-39 | Of the runs that reached work, exactly those with a lease whose release invites a retry end in a retryable error. |
| `LockOutcomes.RetryableAfterWorkHappens` | locks/.vendor/.zed/oresoftware/ores-locks-and-leases/src/ts/src/lease.ts:120-126 | A concrete configuration and authority for which a finished run looks retryable. |
| `LockOutcomes.RetryableUnreleasedHappens` | locks/.vendor/.zed/oresoftware/ores-locks-and-leases/src/ts/src/lease.ts:120-126 | Another for which work never started, and the grant is not confirmed released. |
| `LockOutcomes.ErrorsNamePlannedSteps` | locks/.vendor/.zed/oresoftware/ores-locks-and-leases/src/ts/src/pg.ts:184-190 | An error names a step outside the plan if and only if a non-waiting session routine with the Postgres layer is refused a client while its grant, if it has one, is given and released: an exact condition over configuration and answers. |
| `LockOutcomes.UnplannedStepHappens` | locks/.vendor/.zed/oresoftware/ores-locks-and-leases/src/ts/src/pg.ts:184-190 | A concrete such run: reported at `pg.advisory_lock`, which is not in its plan. |
| `FiduciaLease.AsUintExactly` | locks/.vendor/.zed/oresoftware/ores-locks-and-leases/src/ts/src/fiducia.ts:60-68 | A wire value is read as a token exactly when it denotes it without loss: the number itself up to 2^53 - 1, its decimal digits after any zeros, or a bigint. |
| `FiduciaLease.Acquire` | locks/.vendor/.zed/oresoftware/ores-locks-and-leases/src/ts/src/fiducia.ts:116-139 | The polling loop: contention or timeout only after an answer that the key is held, transport otherwise, a grant only with the token of the deciding answer; it goes on exactly while elapsed time plus interval is within the budget, and within budget / interval + 1 exchanges. |
| `FiduciaLease.ReleaseReads` | locks/.vendor/.zed/oresoftware/ores-locks-and-leases/src/ts/src/fiducia.ts:155-162 | A release answers as the node does if its token can be sent and the exchange does not fail; everything else is `transport` at `fiducia.release`. |
| `FiduciaLease.PollingIsBounded` | locks/.vendor/.zed/oresoftware/ores-locks-and-leases/src/ts/src/fiducia.ts:134-137 | While polling goes on, the exchanges made are fewer than budget / interval + 1. |
| `FiduciaLease.TokenRoundTrip` | locks/.vendor/.zed/oresoftware/ores-locks-and-leases/src/ts/src/fiducia.ts:60-77 | A token can be sent if and only if it is in [0, 2^53 - 1], and then it reads back as itself. |
| `FiduciaLease.NumericTokensAreReleasable` | locks/.vendor/.zed/oresoftware/ores-locks-and-leases/src/ts/src/fiducia.ts:60-77 | A token that arrived as a JSON number can be sent back. |
| `FiduciaLease.DecimalTokenArrives` | locks/.vendor/.zed/oresoftware/ores-locks-and-leases/src/ts/src/fiducia.ts:65 | A token of any size is accepted as a decimal string. |
| `FiduciaLease.UnreleasableExactly` | locks/.vendor/.zed/oresoftware/ores-locks-and-leases/src/ts/src/fiducia.ts:155-162 | A grant can never be released if and only if its token is outside that range. |
| `FiduciaLease.RenewalKeepsTheToken` | locks/.vendor/.zed/oresoftware/ores-locks-and-leases/src/ts/src/fiducia.ts:141-153 | A renewal keeps key and token; `lost_lease` means exactly that the node refused a token it could be sent; a grant that cannot be released cannot be renewed, and its error invites no retry. |
| `FiduciaLease.AdapterIsWellBehaved` | locks/.vendor/.zed/oresoftware/ores-locks-and-leases/src/ts/src/fiducia.ts:116-162 | Seen from the routines, the adapter's errors name their own steps and no release invites a retry, which the two lemmas above assume. |
| `PgPool.OneHolderPerKey` | locks/.vendor/.zed/oresoftware/ores-locks-and-leases/src/ts/src/pg.ts:193-216 | Two clients past locking one key are the same client. |
| `LockSystem.PoolStep` | locks/.vendor/.zed/oresoftware/ores-locks-and-leases/src/ts/src/pg.ts:118-218 | Every step of every runner keeps pool, lock table and runners consistent. |
| `LockSafety.StepKeepsInv` | locks/.vendor/.zed/oresoftware/ores-locks-and-leases/src/ts/src/pg.ts:118-218 | Every step, and the authority dropping any grant at any time, keeps the whole invariant. |
| `LockSafety.MutualExclusion` | locks/.vendor/.zed/oresoftware/ores-locks-and-leases/src/ts/src/pg.ts:118-218 | In every reachable state of any number of runners of both scopes, at most one per advisory key is between taking and giving up the lock, even if leases lapsed. |
| `LockSafety.SuccessfulLeasesDisjoint` | locks/.vendor/.zed/oresoftware/ores-locks-and-leases/src/ts/src/lease.ts:120-139 | Two leased runs on one key that both returned a value did not overlap from grant to release. |
| `LockSafety.ReapedNeverWins` | locks/.vendor/.zed/oresoftware/ores-locks-and-leases/src/ts/src/lease.ts:127-136 | A run whose grant was dropped never returns a value, however the interleaving goes on. |
| `LockSafety.ClientsConserved` | locks/.vendor/.zed/oresoftware/ores-locks-and-leases/src/ts/src/pg.ts:143-145 | In every reachable state a client waiting in the pool has no open transaction and no advisory lock, and every other client has exactly one unfinished user. |
| `LockSafety.UnlockNeverRefused` | locks/.vendor/.zed/oresoftware/ores-locks-and-leases/src/ts/src/pg.ts:204-209 | In every reachable state `pg_advisory_unlock` finds the lock held. |
| `LockSafety.LeaseAloneDoesNotExclude` | locks/.vendor/.zed/oresoftware/ores-locks-and-leases/src/ts/src/lease.ts:73-76 | With the lease layer only, a grant dropped too early lets two runners on one key work at once. |
| `LockHistories.HistoriesAreRuns` | locks/.vendor/.zed/oresoftware/ores-locks-and-leases/src/ts/src/pg.ts:92-218 | Of any number of interleaved runners, a finished one has made exactly the calls of a run of its machine under the answers it heard, with that run's outcome. |
| `LockHistories.SuccessIsThePlanAmongOthers` | locks/.vendor/.zed/oresoftware/ores-locks-and-leases/src/ts/src/pg.ts:92-218 | In every interleaving, a runner that returned a value has made the calls of its plan and no others. |
| `LockHistories.FailureUnwindsAmongOthers` | locks/.vendor/.zed/oresoftware/ores-locks-and-leases/src/ts/src/pg.ts:92-218 | In every interleaving, a runner that failed has made the plan's calls up to the first unconfirmed one and then given back what it had, last taken first. |
| `LockHistories.GivenBackOnceAmongOthers` | locks/.vendor/.zed/oresoftware/ores-locks-and-leases/src/ts/src/pg.ts:125-145 | In every interleaving, a finished runner has released its grant and returned its client once, if it got them, and else never. |
| `LockHistories.BlamedAmongOthers` | locks/.vendor/.zed/oresoftware/ores-locks-and-leases/src/ts/src/errors.ts:87-98 | In every interleaving, the outcome of a finished runner is the one its calls and their answers blame. |
| `LockProgress.SomeoneMoves` | locks/.vendor/.zed/oresoftware/ores-locks-and-leases/src/ts/src/pg.ts:101-115 | No deadlock: with any pool of at least one client and any keys, some fault-free step is enabled while a runner is unfinished and not waiting for a grant nobody holds. |
| `LockProgress.CanAlwaysFinish` | locks/.vendor/.zed/oresoftware/ores-locks-and-leases/src/ts/src/pg.ts:101-115 | From every such state a fault-free continuation finishes every runner and leaves no grant, client or lock held. |
| `LockProgress.FaultFreeRunsEnd` | locks/.vendor/.zed/oresoftware/ores-locks-and-leases/src/ts/src/pg.ts:101-115 | Every fault-free schedule is finite: it makes at most the calls that are left. |
| `LockProgress.MaximalRunsFinish` | locks/.vendor/.zed/oresoftware/ores-locks-and-leases/src/ts/src/pg.ts:101-115 | Every fault-free schedule that cannot be continued has finished every runner and left no grant, client or lock held. |
| `SqlGuard.AssertSqlExpression` | tools/schema-orm/core.mjs:103-142 | The scanner accepts exactly the single-line texts without terminator, comment mark or statement keyword that close on themselves, and its reason is right otherwise. |
| `SqlGuard.ScanExpression` | tools/schema-orm/core.mjs:109-137 | The loop with `depth`, `quoted` and `unquoted` follows the reading automaton character by character. |
| `SqlGuard.EscapesUnsafe` | tools/schema-orm/core.mjs:128-134 | A text with a code character at depth 0 that would reach outside its clause is not accepted. |
| `SqlGuard.KeywordRefused` | tools/schema-orm/core.mjs:8 | Each of the statement keywords, in any case, between spaces and outside literals makes a text unacceptable, whatever is around it. |
| `SqlTypes.ClauseKeywordRefused` | tools/schema-orm/core.mjs:7 | Each of the clause keywords between spaces makes a type unacceptable. |
| `SqlTypes.ActionsAllowed` | tools/schema-orm/core.mjs:4 | The referential actions admitted, in any case. |
| `SqlTypes.PostgresTypes` | tools/schema-orm/sql.mjs:3-17 | The Postgres type for every kind, format and length bound, written out. |
| `SqlTypes.SqliteTypes` | tools/schema-orm/sql.mjs:19-24 | The SQLite type for every kind. |
| `SqlTypes.DefaultsByPrecedence` | tools/schema-orm/sql.mjs:34-49 | The default: the dialect's own, then the persistence default, then the schema's, with the two exceptions SQLite makes. |
| `SqlTypes.LiteralsByCase` | tools/schema-orm/sql.mjs:26-32 | The literals of booleans, null, numbers and structures. |
| `SqlTypes.JsonTexts` | tools/schema-orm/sql.mjs:43 | What stands in SQLite's quoted default for a structure. |
| `SqlTypes.SqliteUuidTerms` | tools/schema-orm/sql.mjs:38 | The ten terms that replace `gen_random_uuid()`. |
| `SqlTypes.ColumnFound` | tools/schema-orm/sql.mjs:60 | A column name is that of the first field so named. |
| `SqlTypes.EntityFound` | tools/schema-orm/sql.mjs:59 | A referenced entity is the first so named. |
| `SqlDdl.SqlColumn` | tools/schema-orm/sql.mjs:51-66 | The pieces pushed for a column are those of its clause, or generation breaks off exactly for an untyped or dangling column (what the clause says of the field: `SqlFacts.ColumnReadsBack`). |
| `SqlDdl.TableClauses` | tools/schema-orm/sql.mjs:73-82 | The clauses pushed for a table are its columns, primary key, enumerations and checks, in this order. |
| `SqlColumns.WordsReadBack` | tools/schema-orm/sql.mjs:51-66 | A reader of column clauses gets back any facts from their words if and only if the default has no top-level word `unique` or `references`. |
| `SqlFacts.ColumnReadsBack` | tools/schema-orm/sql.mjs:51-66 | Read from its text alone, the clause of an accepted field gives the field's column, type, `not null` if and only if it is not nullable, default, `unique` if and only if it is unique, the table and column it refers to and both actions; if and only if its default has no top-level word `unique` or `references`. |
| `SqlFacts.DefaultMisleads` | tools/schema-orm/sql.mjs:55-57 | Two accepted fields, one unique with default `1` and one not unique with default `1 unique`, have the same clause in either dialect. |
| `SqlTables.KeyReadsBack` | tools/schema-orm/sql.mjs:74 | The key clause reads back as the columns of the key's fields, in order. |
| `SqlTables.EnumReadsBack` | tools/schema-orm/sql.mjs:75-80 | An enumeration reads back as a constraint named after table and column that the column is one of the literals of its values, in order. |
| `SqlTables.CheckReadsBack` | tools/schema-orm/sql.mjs:81 | A check reads back as its name and expression. |
| `SqlTables.ClausesInOrder` | tools/schema-orm/sql.mjs:73-81 | A table has one clause for each field, its key, one for each field with an enumeration and one for each check, in this order. |
| `SqlTables.TableReadsBack` | tools/schema-orm/sql.mjs:72-83 | A table statement reads back as its table's name and its clauses. |
| `SqlTables.IndexReadsBack` | tools/schema-orm/sql.mjs:84-89 | An index statement reads back as unique or not, name, table, columns in order and condition. |
| `SqlLiterals.LiteralRoundTrip` | tools/schema-orm/sql.mjs:27 | Reading a string literal gives back the string, for every string and every text after it that does not start with a quote. |
| `SqlLiterals.SqlLiteralClosed` | tools/schema-orm/sql.mjs:26-32 | Every literal, of a string, number, boolean, null or structure, keeps to itself. |
| `SqlClosed.SafeTypeClosed` | tools/schema-orm/core.mjs:6-7 | A type that passes the pattern keeps to itself. |
| `SqlClosed.TypeOfClosed` | tools/schema-orm/sql.mjs:3-24 | So does every generated type, in both dialects. |
| `SqlClosed.UuidClosed` | tools/schema-orm/sql.mjs:37-39 | So does SQLite's replacement for `gen_random_uuid()`. |
| `SqlScript.ColumnClauseClosed` | tools/schema-orm/sql.mjs:51-66 | A whole column clause with type, default and reference keeps to itself. |
| `SqlScript.ClausesClosed` | tools/schema-orm/sql.mjs:73-81 | So does every clause of an accepted entity. |
| `SqlScript.ColumnListReadsBack` | tools/schema-orm/sql.mjs:73-82 | For every accepted schema, cutting a table's column list at its unquoted top-level commas gives back exactly the clauses that were joined. |
| `SqlStatements.PartsReadBack` | tools/schema-orm/sql.mjs:68-93 | A script of comment lines, blank lines and self-contained statements reads back as its statements. |
| `SqlStatements.ScriptWellFormed` | tools/schema-orm/sql.mjs:68-93 | Every part generated for an accepted schema is of that kind, whatever its descriptions, conditions and checks. |
| `SqlGenerator.GenerateSql` | tools/schema-orm/sql.mjs:68-93 | The lines pushed, joined and trimmed make the script of the schema in creation order; generation breaks off exactly when some column does. |
| `SqlGenerator.ScriptReadsBack` | tools/schema-orm/sql.mjs:68-93 | For every accepted schema, cutting the script at unquoted top-level semicolons and dropping leading comments gives back exactly one table per entity in creation order, each followed by its indexes, and nothing else. |
| `SqlSchema.SchemaReadsBack` | tools/schema-orm/sql.mjs:68-93 | For every accepted schema and dialect, the script read from its text alone tells the schema: for each entity in creation order one table with every column, the key, every enumeration and every check, then each index, and nothing else. |
| `SqlSchema.ScriptStarts` | tools/schema-orm/sql.mjs:69 | The script starts with the comment lines that name the generator, the product and the dialect. |
| `SqlSchema.EntityStarts` | tools/schema-orm/sql.mjs:70-72 | A table comes after an empty line and the comment line of its description, if it has one. |
| `SqlSchema.OneLineExactly` | tools/schema-orm/sql.mjs:71 | Each run of line ends in a description becomes one space, and nothing else changes. |
| `Topo.TopologicalEntities` | tools/schema-orm/core.mjs:287-300 | The loop computes the layered order, or the declaration order when a layer is empty; it terminates. |
| `Topo.LayersPermute` | tools/schema-orm/core.mjs:287-300 | The layered order is a permutation of the entities. |
| `Topo.LayersOrder` | tools/schema-orm/core.mjs:287-300 | In it every referenced table comes before the tables that reference it. |
| `Topo.LayersByLevel` | tools/schema-orm/core.mjs:287-300 | The order goes by level and, within a level, strictly by name, an entity being one level above the highest it refers to. |
| `Topo.ReferencedComesFirst` | tools/schema-orm/core.mjs:287-300 | The entity a field refers to is placed before the entity of the field. |
| `Topo.FallbackExactlyOnCycles` | tools/schema-orm/core.mjs:292 | The declaration order is used if and only if the references of some entities run in a circle. |
| `Topo.DeclarationOrderIrrelevant` | tools/schema-orm/core.mjs:287-300 | The layered order does not depend on the order of declaration, given a strict total order on names. |
| `Sorting.SortDetermined` | tools/schema-orm/core.mjs:293 | Sorting by a strict order depends on what is sorted alone. |
| `Sorting.SortLeavesOrdered` | tools/schema-orm/core.mjs:293 | Sorting is stable: where no element is less than an earlier one, everything stays in its place. |
| `Canonical.CanonicalExactly` | tools/schema-orm/core.mjs:19-28 | Two documents get the same canonical form if and only if they differ in nothing but the order of keys, at any depth. |
| `Canonical.CanonIsSame` | tools/schema-orm/core.mjs:19-28 | The form differs from its document in nothing but the order of keys. |
| `Canonical.CanonIdempotent` | tools/schema-orm/core.mjs:19-28 | Canonicalising twice is canonicalising once. |
| `Canonical.KeysAreListed` | tools/schema-orm/core.mjs:22-24 | The form lists index-like keys by number first and the others in string order. |
| `Canonical.StringOrderExactly` | tools/schema-orm/core.mjs:22-24 | An object's keys come out in string order if and only if its index-like keys come first as strings, in the order of their numbers. |
| `Canonical.DictionaryIsStrictTotal` | tools/schema-orm/core.mjs:22 | The order assumed of string comparison exists: the dictionary order is strict and total. |
| `Canonical.NineIsListedBeforeTen` | tools/schema-orm/core.mjs:22-24 | For the keys `10` and `9`, sorted so as strings, the form lists `9` first. |
| `AdminCall.RecordAction` | admin-orm/src/lib.rs:267-357 | The method with its early returns sends exactly the statements of the state machine, with its outcome, for all answers (which these are: the next three rows). |
| `AdminCall.Transcript` | admin-orm/src/lib.rs:267-357 | The statements of a call and what it returns, written out for every combination of answers. |
| `AdminCall.RecordedMeansCommitted` | admin-orm/src/lib.rs:304-356 | `Recorded(id)` is returned if and only if the call began, inserted, then announced what it inserted or found what was there, and its last statement, a commit, was not refused. |
| `AdminCall.ConflictMeansRolledBack` | admin-orm/src/lib.rs:331-337 | A conflict is returned if and only if the call began, inserted nothing, found nothing equal and rolled back. |
| `AdminRecorder.StepKeepsInv` | admin-orm/src/lib.rs:267-357 | Every statement of every call, lost reply, late landing and rollback keeps the invariant of tables, transactions and callers. |
| `AdminRecorder.Always` | admin-orm/src/lib.rs:267-357 | In every reachable state keys and identifiers are unique and the outbox has exactly one event per request, in order. |
| `AdminRecorder.StepRefinesAtomicRecording` | admin-orm/src/lib.rs:339-355 | Seen from the committed tables, a step is nothing or the atomic recording of its caller's request under a free key, when its commit lands. |
| `AdminRecorder.SuccessesAgree` | admin-orm/src/lib.rs:297-338 | All successful calls with one key return one identifier and asked for the same payload; it is recorded once and announced once. |
| `AdminRecorder.ConflictLeavesNothing` | admin-orm/src/lib.rs:331-337 | A conflict means that the key has another payload; nothing of the call is in the tables. |
| `AdminRecorder.RecordsStay` | admin-orm/src/lib.rs:267-357 | Committed requests and events stay, in their places. |
| `AdminRecorder.RetrySettles` | admin-orm/src/lib.rs:351-355 | After an ambiguous failure, a successful retry returns the caller's own identifier if and only if the first attempt was recorded; the event is there once. |
| `AdminRecorder.NoCircularWait` | admin-orm/src/lib.rs:273-296 | A transaction that an insert waits for waits for nothing itself. |
| `AdminRecorder.SomebodyProceeds` | admin-orm/src/lib.rs:273-296 | A call whose transaction stands can go on, or waits for one that can go on or is being dropped. |
| `Masker.MaskLine` | tools/fp-conformance/fp_conformance.py:164-182 | The block-comment stage of a line equals the automaton up to trailing blanks, carries the same state, and its inner loop terminates. |
| `Masker.StripNoise` | tools/fp-conformance/fp_conformance.py:157-188 | One output line per input line, each the line-comment and string stages applied to the output of the automaton, up to trailing blanks; a line is counted if and only if that shows something. |
| `Masker.LaterIgnoresTrailingBlanks` | tools/fp-conformance/fp_conformance.py:151-154 | The line-comment and string patterns make nothing of blanks at the end of a line. |
| `Masker.LineByLineIsOnePass` | tools/fp-conformance/fp_conformance.py:157-188 | Carrying only whether a comment is open from line to line equals one pass over the whole text. |
| `Masker.MaskedHasNoComments` | tools/fp-conformance/fp_conformance.py:172-182 | No comment opener is left for the later stages: masking again changes nothing. |
| `Masker.BlankComment` | tools/fp-conformance/fp_conformance.py:177-179 | Blanking out a closed comment does not change what the automaton makes of the line. |
| `Masker.MaskKeepsColumns` | tools/fp-conformance/fp_conformance.py:164-182 | The automaton moves nothing: every column holds its character or a blank. |
| `Masker.CommentBlanked` | tools/fp-conformance/fp_conformance.py:172-182 | A comment between code becomes as many blanks; the code before it is copied and the code after it masked on its own. |
| `Masker.OpenCommentBlanked` | tools/fp-conformance/fp_conformance.py:172-182 | A comment not closed on its line becomes blanks and goes on. |
| `Masker.CutAtLineComment` | tools/fp-conformance/fp_conformance.py:151 | A line is cut at its first two slashes that do not follow a colon, and kept whole without such. |
| `Masker.LiteralEmptied` | tools/fp-conformance/fp_conformance.py:154 | The first literal of a line, with any escapes in it, is replaced by an empty one. |
| `Masker.LoneMarkStays` | tools/fp-conformance/fp_conformance.py:154 | A quotation mark that is never closed stays, and what follows it is looked at. |
| `Filling.FormsAgree` | locks/typescript/src/index.ts:32-38 | On every template whose placeholders are closed, split-and-join and recursion give the same name for every list of fills. |
| `Filling.FormsAgreeExactlyWhenClosed` | locks/rust/lib.rs:38-53 | The two forms agree for all fills if and only if every `{` has a later `}`. |
| `Filling.FirstIsFilled` | locks/rust/lib.rs:38-53 | A text without a placeholder is kept; the first placeholder makes way for the first fill, or for nothing, and the rest is filled with the rest. |
| `Filling.KeysByDomain` | locks/rust/lib.rs:22-36 | The keys of the four domains, written out. |
| `Filling.FillsStayApart` | locks/rust/lib.rs:66-70 | A template with one placeholder makes one name of two fills only if the fills are equal. |
| `Filling.TwoFillsMayMeet` | locks/rust/lib.rs:38-53 | With two adjacent placeholders, two different lists of fills can make one name. |
| `Filling.KeysStayApart` | locks/rust/lib.rs:33-36 | Keys are equal if and only if domain and name are. |
| `Filling.EntryKeysStayApart` | locks/rust/lib.rs:66-70 | For an entry with one placeholder, keys are equal if and only if the fills are, in both languages. |
| `Filling.EntryAdmittedExactly` | locks/.vendor/.zed/oresoftware/ores-locks-and-leases/src/ts/src/key.ts:17-23 | A fill is admitted by the length bound if and only if its UTF-8 bytes fit into what the rest of the key leaves of 512. |
| `Sync.ValidateSyncBatch` | src/sync.rs:76-115 | The fold accepts with the summary, or refuses with the first failure in order of header checks and mutations. |
| `Sync.IncorporateMutation` | src/sync.rs:124-149 | One step of the fold refuses exactly what is wrong after the mutations before it, and otherwise carries their sets, keys and highest clock on. |
| `Sync.AcceptedExactly` | src/sync.rs:76-194 | A batch is accepted if and only if times, names and counts of its header are within their bounds, each mutation is named, belongs to the batch's owner and device, has a clock below 2^63, a time from 0 to the latest allowed and a 32-byte digest, and no two share an identifier or a record clock. |
| `Sync.RefusedExactly` | src/sync.rs:76-194 | A batch is refused with an error if and only if that is the first check that fails, written out check by check for the header and for the first mutation refused. |
| `Sync.AcceptedOrder` | src/sync.rs:201-204 | The identifiers of an accepted batch are those of its mutations, each once, strictly by clock and then by identifier; their number is the count reported. |
| `Sync.OneDeviceDecidesNothing` | src/sync.rs:163-167 | How devices compare makes no difference to the result of an accepted batch. |
| `Validation.PortableExactly` | src/validation.rs:7-18 | Portable identifiers, by code point. |
| `Validation.StorageKeyExactly` | src/validation.rs:70-87 | Storage keys, by code point. |
| `Sync.OrderIrrelevant` | src/sync.rs:76-204 | Permuting the mutations changes neither acceptance nor the result. |
| `Sync.PartsAreAccepted` | src/sync.rs:76-194 | Every non-empty part of an accepted batch is accepted. |
| `Sync.CanonicalOrder` | src/sync.rs:201-204 | The identifiers come from the batch's keys, each once, strictly ordered by clock, device and identifier. |
| `Sync.HighestIsLargest` | src/sync.rs:147 | The reported clock is an upper bound of the clocks and one of them. |
| `Manifest.Validate` | src/encrypted_objects.rs:58-110 | The checks and the two folds give the failure specified, if any. |
| `Manifest.AcceptedExactly` | src/encrypted_objects.rs:58-110 | A manifest is accepted if and only if every field is within its bounds, written out, chunks are numbered by position, recipients differ and the unbounded sum of the chunks is the length: the overflow check refuses nothing else. |
| `Manifest.RefusedExactly` | src/encrypted_objects.rs:58-110 | A manifest is refused with an error if and only if that is the first check that fails: of the header, of the first chunk in the way, of the sum, of the wrapped keys. |
| `Manifest.ChunksTile` | src/encrypted_objects.rs:91-102 | In an accepted manifest every offset below the ciphertext length lies in exactly one chunk, and no other offset in any. |
| `Manifest.RecipientsDistinct` | src/encrypted_objects.rs:164-179 | Recipients of an accepted manifest are pairwise distinct. |
| `Manifest.ChunkMayExceedChunkSize` | src/encrypted_objects.rs:72-97 | A manifest of one chunk of any length up to 16 GiB is accepted with any admissible chunk size. |
| `Manifest.LongestChunkAccepted` | src/encrypted_objects.rs:72-97 | For one: 16 GiB in a chunk of an object that declares chunks of 64 KiB. |
| `Manifest.ChunkSizeBoundsExactly` | src/encrypted_objects.rs:72-102 | Every accepted manifest of a given length and chunk size has all its chunks within the chunk size if and only if the whole object is. |
| `Embeddings.PrepareEmbedding` | generated/typescript/embeddings.ts:99-115 | Each refusal arises exactly when its check says so; otherwise the result has 4100 components, which times the norm are the source's and zero after them, and is what the database's own padding makes of the scaled vector. |
| `Embeddings.CanonicalIsUnit` | db/schema/postgres/0100_cliptown_embeddings.sql:155-160 | An accepted vector passes `emb_is_unit` with tolerance zero. |
| `Embeddings.CanonicalIsZeroPadded` | db/schema/postgres/0100_cliptown_embeddings.sql:139-150 | It passes `emb_is_zero_padded` for its own width and for every native width up to 4100. |
| `Embeddings.ZeroPaddedExactly` | db/schema/postgres/0100_cliptown_embeddings.sql:139-150 | `emb_is_zero_padded` holds exactly of vectors of 4100 components that are zero from the native width on. |
| `Embeddings.UnitExactly` | db/schema/postgres/0100_cliptown_embeddings.sql:155-160 | `emb_is_unit`, without the root: the sum of squares is between the squares of one minus and one plus the tolerance. |
| `Embeddings.PadsExactly` | db/schema/postgres/0100_cliptown_embeddings.sql:124-134 | `emb_pad` keeps the vector, adds zeros up to 4100 and refuses what is wider. |
| `Embeddings.DotsAreKept` | generated/typescript/embeddings.ts:84-98 | Products of stored vectors, times both norms, are the products of the sources over their common prefix. |
| `Embeddings.PaddedIsCanonical` | db/schema/postgres/0100_cliptown_embeddings.sql:124-134 | The database's padding of a scaled vector is the canonical vector the other statements are about. |
| `Embeddings.UnitDistance` | db/schema/postgres/0100_cliptown_embeddings.sql:152-154 | The squared distance of two stored vectors is 2 minus twice their product. |
| `Embeddings.RankingsAgree` | db/schema/postgres/0100_cliptown_embeddings.sql:152-154 | For every query, the nearer of two stored vectors is the one with the greater product. |
| `Embeddings.StoredRankingIsCosineRanking` | generated/typescript/embeddings.ts:88-98 | For sources of one width, the nearer stored vector is the one whose source has the greater cosine with the query. |

## Left out

- LockErrors.TagStep: errors are values, so the update of `err.step` in place, and an error object shared by two holders, are not captured. No routine tags an error after it became the cause of another.
- LockErrors.CleanupFailure: message texts are not modelled, here and in all other errors.
- Key.Utf8Injective: a string is a sequence of Unicode scalar values; a JavaScript string with a lone surrogate, which its encoder replaces, has no counterpart.
- FiduciaLease.Acquire: holder names, `lease_expires_ms`, HTTP, headers and the refusal of cleartext are not modelled; each exchange is given by its outcome. A loop that has not been decided after the given exchanges reports that it is still polling.
- LockProgress.SomeoneMoves: a runner waiting for a grant that no unfinished runner has is not claimed to move; only expiry frees such a grant.
- LockSystem.PoolStep: connection loss during `work`, and locks nested inside `work`, are not modelled; the routines claim nothing about either.
- SqlText: double-quoted identifiers, dollar quoting and backslash strings are not read; the scanner does not know them either. A block comment is never left, as no generated text opens one.
- SqlFacts.ColumnReadsBack: the reader separates words at spaces outside quotes and parentheses, as the generator writes them; a default where `unique` follows another blank, or a bracket, is read as one word.
- SqlTypes.ColumnFound: fields of an entity, and entities, have pairwise distinct names, as normalisation makes sure; with repeated names the source's map would find the last.
- SqlScript.ColumnListReadsBack: structural checks of the schema are taken as facts about an accepted one (`SafeModel`); types, identifiers, actions and expressions are checked as the code does.
- SqlGenerator.GenerateSql: numbers and structures carry the text JavaScript prints for them; a description is text.
- Topo.TopologicalEntities: entities have pairwise distinct names, as normalisation makes sure; with repeated names the source's map would keep the last.
- Canonical.CanonicalExactly: strings, numbers, booleans and null are leaves with their printed text; printing the sorted document is not modelled.
- AdminRecorder.Always: validation of the connection target, permission queries and the read-only context are not modelled.
- Masker.StripNoise: lines hold no line feed, as the scanner's only caller makes sure by splitting at it; the patterns are modelled for such lines.
- Sync.ValidateSyncBatch, Manifest.Validate: Base64 is a parameter that says how many bytes a text decodes to.
- Embeddings.PrepareEmbedding: rounding, NaN and infinities; a model is its native width or unknown, and the registry is not modelled.
- The other generators (Drizzle, Prisma, GORM, Drift and further ones), the generated entities, authentication checks, hybrid search and fixture seeding: easy members or outside the cores above.
