# A verified model of the kernel's credential subsystem and bounded algorithms

The repository is a Rust kernel around PostgreSQL that keeps memories for agents. This project models,
in Dafny 4.11, the parts whose correctness is a matter of state, interleaving or arithmetic, and proves
what their code and documentation promise. `dafny verify dfyconfig.toml` checks everything.

| File | What it models |
|---|---|
| `RateLimit.dfy` | the token-bucket limiter and its idle eviction (`src/rate_limit.rs`) |
| `Cache.dfy` | the bounded credential cache with an absolute TTL (`src/credentials/cache.rs`) |
| `Secret.dfy`, `Scope.dfy` | printed credentials and scope lists (`src/credentials/secret.rs`, `scope.rs`) |
| `Store.dfy` | the credential registry under the table's CHECK constraints (`src/credentials/store.rs`) |
| `Authenticator.dfy` | `authenticate`, `load`, `issue`, `revoke`, with the effects each has (`src/credentials/mod.rs`) |
| `Revocation.dfy` | many authenticators over one registry, requests interleaved step by step |
| `Grants.dfy`, `GrantLocking.dfy` | agent grants, one statement at a time and as overlapping transactions (`src/credentials/grants.rs`) |
| `Outbox.dfy` | the extraction outbox and its workers (`src/extraction_worker.rs`) |
| `Sampling.dfy`, `Metrics.dfy` | stratified sampling and ranked metrics (`benchmarks/scripts/run_semantic_quality.py`) |
| `CanonicalJson.dfy`, `Attestation.dfy` | canonical JSON and the signed evidence payload (`src/attestation.rs`) |
| `SqlSplit.dfy` | the quote- and comment-aware statement splitter (`benchmarks/scripts/run_longitudinal.py`) |
| `Translation.dfy`, `Sse.dfy` | Anthropic message merging, event streams out and in (`src/providers.rs`) |
| `Import.dfy` | NDJSON import and the order of embeddings (`src/api.rs`, `src/embeddings.rs`) |
| `Utf8.dfy` | UTF-8, and reading it with replacement of what is not well formed |
| `Sorting.dfy`, `Common.dfy` | sorting, and the few definitions everything shares |

## How it is modelled

* Objects whose methods change fields are classes (`RateLimiter`, `BoundedTtlCache`, `Registry`,
  `Authenticator`, `Database`, `Table`), each method proved against a function of the old state; loops
  are methods with invariants. Properties of runs are lemmas about sequences of states and actions.
* What the code does not decide is left open: which buckets a bounded scan of an unordered map visits,
  which rows are locked by others, what a random generator draws, how the steps of requests, workers and
  transactions interleave, and what other replicas or operators do to a table in between.
* The MAC and the content digest are arbitrary functions. The JSON reader is an arbitrary function; a round
  trip asks of it only that it give back documents of the same value as those whose text is emitted. A
  strict reader that puts keys in order does, so with it the round trip holds outright
  (`Sse.SortingReaderReadsBack`). The nDCG discount is any positive, strictly decreasing function.
* Time is exact: nanoseconds, or reals for the limiter. The authenticator's monotonic ticks and its
  wall-clock readings are separate, and the wall clock may jump either way.
* A JSON object is a list of entries in whatever order its map yields them; emitted text has sorted keys.
  The numbers of a document are their texts, by the grammar of section 6 of RFC 8259.
* A limiter call's time reading precedes its lock, so calls may reach a bucket out of the order of their
  readings. Theorems that hold in order of time only say so, and what happens otherwise is stated too.
* A request of the interleaved authenticator has a number that no other request has, before or after.
* Transactions run at READ COMMITTED: a statement that had to wait for a row reads its newest version, and
  a VOLATILE trigger function takes a fresh snapshot. `SELECT ... FOR SHARE` does not see, and so does not
  wait for, a row another transaction has inserted and not committed.

## Where the code and its documentation differ

The model follows the code; each difference is a proved statement.

* `src/rate_limit.rs:94-96` says that evicting an idle bucket does not weaken limiting. Where calls reach the
  limiter in order of time, it is so if and only if `idle_ttl * refill_rate >= burst`
  (`RateLimit.EvictionInvisibleIff`): with the one-hour default, as long as `RATE_LIMIT_BURST`, which is set freely, is
  at most 60 times `RATE_LIMIT_RPM`. The same condition decides the window bound in any order, with the time readings
  move backward added to the window (`RateLimit.WindowsBoundedIff`).
* `src/rate_limit.rs:55-77` reads the clock before it locks the bucket, and a late call moves `last_refill` back. Without
  that term the window bound holds over all runs if and only if the burst is zero, or calls come in order of time and
  `idle_ttl * refill_rate >= burst` (`RateLimit.PlainlyBoundedIff`; `RateLimit.BackwardTermIsNeeded` is one run that
  attains the bound with the term). Out of order, eviction can be observed whatever the TTL, unless the limiter is off or
  the burst is zero (`RateLimit.InvisibleInAnyOrderIff`).
* `src/credentials/cache.rs:42-45` bounds revocation by 30 seconds. The TTL starts when the row is cached, not when it
  was fetched, so the bound is 30 seconds plus the time a request may take in between, and is reached
  (`Revocation.StopsWithinIff`).
* `src/credentials/cache.rs:216-221` says that dropping the local entry makes a revocation through this process take
  effect immediately. It does for requests yet to arrive if and only if none on that node had fetched the old row and
  was yet to cache it (`Revocation.StopsAtOnceIff`); such a one caches the row again, and the full bound is reached
  (`Revocation.BoundIsReached`).
* `src/credentials/secret.rs:16-17` says that a credential has exactly one spelling. The id is read in either case, so
  it has if and only if its id, as printed, has no letter among its digits (`Secret.SpellingIsUniqueIff`;
  `Secret.TwoSpellings` gives two strings for one credential).
* `src/credentials/mod.rs:436-441` and `573-578` charge one decoy MAC to every outcome open to a stranger. A row that
  fails validation is judged corrupt and charged none, whatever MAC is presented: without the secret a request costs
  the same as for an unknown id if and only if the id has no such row (`Authenticator.MissesLookAlikeIff`). Under the
  table's constraints these are the rows that repeat a scope (`Authenticator.OnlyRepeatedScopesStandOut`), and one
  is given (`Authenticator.CorruptRowStandsOut`).
* `src/credentials/store.rs:264-268` says that `last_used_at` is written at most once per credential per TTL window.
  Two overlapping requests write it twice in one tick (`Revocation.StampedTwice`). After a write, a later request on
  that node misses the cache if and only if the entry was dropped, a deadline has passed, or the MAC is another
  (`Revocation.MissesAgainIff`), so a second write within the window has one of these causes or overlaps the first
  (`Revocation.SecondStampHasCause`). All this is per node, as caches are.
* `src/credentials/store.rs:278` counts the credentials "that could authenticate anyone". A row with a repeated scope is
  counted, and nobody can use it (`Store.ActiveCountIff`, `Store.RepeatedScopeIsCounted`).
* `src/credentials/grants.rs:24-30` calls the contradiction of `tenant_wide` and grants unrepresentable. A grant whose
  trigger runs before its credential is committed locks nothing and passes, and the foreign key, checked
  later, is satisfied (`GrantLocking.GrantOvertakesCredential`); with that case left out, exclusion holds
  exactly when the trigger functions are VOLATILE (`GrantLocking.NeverContradictoryIff`).
* Withdrawing a grant can widen authority: the last grant of a contradictory credential
  (`Grants.WithdrawalWidensIff`).
* `src/api.rs:1439-1440` takes per-call differences of a process-wide counter for its own. They are exactly when nobody
  else deduplicates meanwhile (`Import.ImportedIsExactIff`). The three totals add up to the lines read exactly
  under the condition of `Import.ReachedAllIff`, and embeddings reach their own texts exactly under that of
  `Import.AlignedIff`.
* `migrations/0022_extraction_outbox.sql:2-3` says that crashes and restarts do not lose extraction, and
  `src/extraction_worker.rs:122-123` calls it at-least-once. Nothing returns a job to `pending` once its worker stopped
  or its result could not be written: a job in progress can still be finished if and only if that has not happened
  (`Outbox.CanLeaveIff`). It can happen to every claimed job (`Outbox.AnyClaimCanBeLost`), and a job is
  claimed, so one run loses one (`Outbox.AJobIsLost`).

## Model

| member | source | states |
|---|---|---|
| RateLimit.EvictionInvisibleIff | src/rate_limit.rs:81-110 | over all call sequences in time order and all choices of swept buckets, answers equal those of a limiter that never evicts, if and only if the limiter is off or idle_ttl * rate >= burst |
| RateLimit.InvisibleInAnyOrderIff | src/rate_limit.rs:50-110 | over all call sequences in any order of their time readings, they do if and only if the limiter is off or the burst is zero |
| RateLimit.RunsAgree | src/rate_limit.rs:50-110 | the refinement behind the first: in time order, from any state in which every dropped bucket would by now be full, the two limiters answer alike for ever; out of order they need not (InvisibleInAnyOrderIff) |
| RateLimit.WindowBound | src/rate_limit.rs:50-79 | one agent gets at most burst + rate * (t - s) requests through in any window [s, t], its bucket being evicted and recreated at will; in any order of calls, with the total backward movement of their readings added to the window |
| RateLimit.AtMostPerMinute | src/rate_limit.rs:37-79 | in the configuration's own numbers: with calls in order and rpm * idle_ttl >= 60 * burst, one agent gets at most burst + rpm * (t - s) / 60 requests through |
| RateLimit.AtLeastPerMinute | src/rate_limit.rs:37-79 | and at least: after any run in any order, an agent whose bucket was last touched a time ago gets n requests through at once, for every n up to the burst that rpm a minute grant in that time |
| RateLimit.AMinuteRefills | src/rate_limit.rs:37-79 | in a minute, min(burst, rpm) of them |
| RateLimit.WindowsBoundedIff | src/rate_limit.rs:81-110 | that bound holds over every run, in any order, if and only if idle_ttl * rate >= burst |
| RateLimit.PlainlyBoundedIff | src/rate_limit.rs:55-77 | without the backward movement the bound holds over every run if and only if the burst is zero, or the runs are those in time order and idle_ttl * rate >= burst |
| RateLimit.BackwardTermIsNeeded | src/rate_limit.rs:55-77 | readings 10, 11, 10, 11 let through one request more at one instant than the window alone allows, and exactly as many as the bound with the backward movement |
| RateLimit.TwoBurstsAccepted | src/rate_limit.rs:50-110 | the run that breaks it: a full burst, idle_ttl of silence, another full burst, all accepted |
| RateLimit.IndependentIffInvisible | src/rate_limit.rs:46-64 | any two runs with the same time readings of an agent's calls give it the same answers, whatever else differs, if and only if eviction cannot be observed; in time order or in any |
| RateLimit.VisitedIsLegal | src/rate_limit.rs:97-100 | the first MAX_SWEEP_SCAN of any enumeration are a scan of the kind the theorems quantify over |
| RateLimit.RateLimiter.CheckAndConsume | src/rate_limit.rs:50-79 | the in-place limiter takes exactly the step of the specification: sweep, refill capped at the burst, spend |
| RateLimit.RateLimiter.EvictStaleBuckets | src/rate_limit.rs:81-110 | removes exactly the buckets among the first 1024 that have been idle for the TTL, and only if the lock is free and the shorter of the TTL and 60 seconds has passed since the last sweep |
| RateLimit.RateLimiter.StaleKeys | src/rate_limit.rs:97-103 | collects exactly the scanned keys that are stale |
| Cache.ReachableIsRemembered | src/credentials/cache.rs:123-225 | in every reachable state the cache is within capacity and holds, for each key, the last insert not since invalidated, evicted or found dead |
| Cache.GetAnswers | src/credentials/cache.rs:149-161 | get answers v if and only if that insert stored v, less than the TTL has passed since on either clock, and the expiry stored with it, if any, is ahead on the wall clock |
| Cache.NeverServedExpired | src/credentials/cache.rs:163-166 | nothing is served at or after the expiry it was stored with |
| Cache.LiveEvictionIsLastResort | src/credentials/cache.rs:179-197 | a live entry is given up only when the cache was full of live entries, and then one with the least tick deadline |
| Cache.TickDeadlineIsFinal | src/credentials/cache.rs:236-238 | once the tick deadline has passed, no wall-clock movement and no later event short of an insert brings an entry back |
| Cache.StoredFits | src/credentials/cache.rs:179-213 | an insert leaves the cache within its capacity |
| Cache.BoundedTtlCache.Get | src/credentials/cache.rs:149-161 | drops a dead entry, never moves a deadline, and fails if the lock is poisoned |
| Cache.BoundedTtlCache.Insert | src/credentials/cache.rs:167-215 | evicts only what the specification allows, and sets both deadlines from the readings taken on entry |
| Cache.BoundedTtlCache.Invalidate | src/credentials/cache.rs:222-225 | drops the one entry |
| Cache.BoundedTtlCache.constructor | src/credentials/cache.rs:129-135 | the TTL is never above 30 seconds and the capacity never below one |
| Secret.ParseIff | src/credentials/secret.rs:165-198 | a string is accepted as (id, secret) if and only if it is the id in any case, a dot, and the secret in lower case |
| Secret.FormatRoundTrip | src/credentials/secret.rs:235-249 | what is issued parses to the id and secret it was made of |
| Secret.PrintedIs | src/credentials/secret.rs:235-249 | 101 characters: the id's bytes in lower-case digits with hyphens after the fourth, sixth, eighth and tenth, a dot, and the secret's bytes in digits |
| Secret.AcceptedCharacters | src/credentials/secret.rs:165-198 | an accepted string has the dot and the hyphens in their places, and elsewhere only digits, of either case in the id |
| Secret.RefusedFor | src/credentials/secret.rs:165-198 | which error: not exactly one dot, else an id that no UUID spells, else the secret |
| Secret.SpellingIsUniqueUpToIdCase | src/credentials/secret.rs:165-198 | two accepted strings with one meaning have equal secret halves, and ids equal up to case |
| Secret.IdCaseIsIgnored | src/credentials/secret.rs:173-178 | every recasing of the id of an accepted string is accepted as the same credential |
| Secret.SpellingIsUniqueIff | src/credentials/secret.rs:165-198 | at most one string is accepted as a credential if and only if its printed id has no letter among its digits |
| Secret.TwoSpellings | src/credentials/secret.rs:173-178 | two different strings accepted as one credential |
| Secret.DecodeIff | src/credentials/secret.rs:180-192 | hexadecimal decoding inverts encoding and accepts nothing else but changes of case |
| Secret.ParseUuidIff | src/credentials/secret.rs:173-178 | a hyphenated UUID is accepted if and only if its lower-case form is the printed id |
| Scope.ParseIff | src/credentials/scope.rs:83-114 | a token is accepted as a scope if and only if it is that scope's name, whatever checks come before the lookup |
| Scope.TokensMean | src/credentials/scope.rs:52-66 | the seven tokens and the scope each means |
| Scope.UnknownIff | src/credentials/scope.rs:83-114 | a token is unknown, and not malformed, if and only if it is one or two segments of lower-case letters and digits, with a colon between, and no scope's name |
| Scope.WireOrder | src/credentials/scope.rs:204-208 | the order in which sets are written, token by token |
| Scope.ParsedIff | src/credentials/scope.rs:169-180 | a list is accepted if and only if it is a duplicate-free list of canonical tokens, and then yields exactly the scopes named |
| Scope.ParseList | src/credentials/scope.rs:169-180 | the loop returns the set, or the error of the first bad or repeated token |
| Scope.ErrorsStick | src/credentials/scope.rs:169-180 | an error in a prefix is the result for the whole list |
| Scope.WireRoundTrip | src/credentials/scope.rs:204-208 | reading back the wire form gives the same set, and the wire form ascends |
| Scope.ParseThenWireSorts | src/credentials/scope.rs:204-208 | writing back an accepted list gives its sorted permutation |
| Store.CorruptIffRepeatedScope | src/credentials/store.rs:155-175 | under the CHECK constraints a row fails validation if and only if it repeats a scope |
| Store.CompletedIsSound | src/credentials/store.rs:228-247 | an inserted row satisfies the constraints and reads back as exactly what was given |
| Store.ValidateIff | src/credentials/store.rs:155-175 | a row is read if and only if its mode, status and scopes are known and no scope is repeated, and every column is read as it stands |
| Store.InsertableIff | src/credentials/store.rs:228-247 | an insert is refused for a known id or a row the constraints do not admit, and for nothing else |
| Store.RevokedWhateverItWas | src/credentials/store.rs:252-264 | an active or disabled row becomes revoked at the time given, its other columns and all other rows as they were; nothing changes if and only if there is no row or it is revoked already |
| Store.RevokedStaysRevoked | src/credentials/store.rs:228-277 | whatever the registry is asked to do after a revocation, inserts included, the row stays as revoked but for its time of last use, usable at no time; revoking again changes nothing |
| Store.ActiveCountIff | src/credentials/store.rs:278-297 | the count of active rows is the number of usable credentials if and only if no counted row repeats a scope |
| Store.RepeatedScopeIsCounted | src/credentials/store.rs:389-396 | a row every constraint admits, counted, and usable by nobody |
| Store.Registry.Insert | src/credentials/store.rs:228-247 | one statement: the completed row, or nothing |
| Store.Registry.Revoke | src/credentials/store.rs:252-264 | returns true if and only if there is a row that is not revoked, active or disabled, and then sets its status and time of revocation and nothing else |
| Authenticator.Authenticator.Load | src/credentials/mod.rs:534-584 | a cached record answers only if it corroborates the presented MAC; otherwise one fetch, and one decoy for each completed fetch |
| Authenticator.Authenticator.Verify | src/credentials/mod.rs:444-532 | the decision, the full effect trace, and the cache and rows left behind: written only after full success on a fetched record, and rejected without a trace if the cache is poisoned in between; the decoy counter equals the fetches charged for |
| Authenticator.Authenticator.Authenticate | src/credentials/mod.rs:444-612 | a malformed string touches nothing; otherwise the decision, its audit record, and the cache and rows left behind |
| Authenticator.CachelessIff | src/credentials/mod.rs:444-522 | the verdict in the row's own words: which of the six each combination of columns, MAC and time gives, and that an acceptance carries the row's own tenant, principal, scopes and mode |
| Authenticator.EveryRequestCosts | src/credentials/mod.rs:426-522 | the trace of every request: served from the cache two effects; a failed or unreadable fetch no decoy; an acceptance the insert and the write, anything else neither |
| Authenticator.AcceptanceWrites | src/credentials/mod.rs:485-503 | what an acceptance leaves: an entry alive for the TTL on both clocks and not past the credential's expiry, and the one row stamped, if that write succeeds |
| Authenticator.AuditNames | src/credentials/mod.rs:504-612 | the audit record names the id presented, and only after acceptance the tenant and the principal |
| Authenticator.Authenticator.Issue | src/credentials/mod.rs:618-643 | stores the MAC of the secret it prints, or leaves the registry alone |
| Authenticator.Authenticator.RevokeCredential | src/credentials/mod.rs:653-664 | does so in the registry, and drops the local entry whether or not there was anything to revoke, unless the cache is poisoned |
| Authenticator.MissesLookAlikeIff | src/credentials/mod.rs:426-467 | from every working cache, without the secret, a request leaves the one trace of an unknown id if and only if the id has no row that fails validation, and otherwise one a decoy short; nothing is accepted and live entries stay |
| Authenticator.OnlyRepeatedScopesStandOut | src/credentials/mod.rs:573-578 | under the table's constraints the ids with a trace of their own are those of rows that repeat a scope |
| Authenticator.CorruptRowStandsOut | src/credentials/mod.rs:573-578 | a row every constraint admits, told from an unknown id by its trace |
| Authenticator.FailuresFailClosed | src/credentials/mod.rs:485-584 | an acceptance rests on a matching, usable record from a live entry or the registry; no failure turns into one, and a cache poisoned before the insert turns an acceptance into a rejection |
| Authenticator.IssueThenAuthenticate | src/credentials/mod.rs:618-643 | an issued credential, as printed, authenticates through any cache that holds nothing for its id but its row, with exactly the tenant, principal, scopes and mode issued, until it expires; unless the cache is poisoned before the record gets into it |
| Authenticator.AcceptanceMirrors | src/credentials/mod.rs:500-522 | what a request leaves behind, whether or not the row could be stamped, is such a cache if the registry accepted the request, and stays one otherwise |
| Authenticator.MirrorDecides | src/credentials/mod.rs:534-584 | behind such a cache every decision on the id, of whatever MAC, is the one of a check without a cache, unless the cache is poisoned before an accepted record gets into it |
| Authenticator.RevokedIsRefused | src/credentials/store.rs:252-264 | the registry alone accepts a revoked credential at no time and with no secret |
| Revocation.RunIsSound | src/credentials/mod.rs:444-584 | in every interleaved run each cache entry comes from an accepted request that fetched it, and lives for the TTL from that insert |
| Revocation.FetchAndInsertAreOneRequest | src/credentials/mod.rs:444-584 | fetch and insert are steps of one request: between them it is present, unchanged but for its phase, and no request begins under its number |
| Revocation.EveryVerdictIsCacheless | src/credentials/mod.rs:444-522 | every verdict equals a cache-free check against the registry as it was at the request's own fetch, or at the fetch behind the entry its own lookup found alive; hence as it is if the row has not changed |
| Revocation.StalenessIsBounded | src/credentials/cache.rs:42-45 | so every verdict, on status, scopes, tenant or mode, is that of a cache-free check on the registry as it was less than 30 seconds plus the largest fetch-to-insert gap before the request arrived, or since |
| Revocation.RevocationBound | src/credentials/cache.rs:42-45 | an acceptance of a revoked, disabled or deleted credential rests on a fetch before the withdrawal, and if it was served from a cache, its own lookup came within TTL plus the fetch-to-insert gap, and before the credential's expiry |
| Revocation.LateRequestsAreRefused | src/credentials/mod.rs:646-664 | a request arriving 30 seconds plus the largest gap after the withdrawal is never accepted, however often the credential is used |
| Revocation.BoundIsReached | src/credentials/cache.rs:216-225 | a run in which a request one tick earlier is accepted, by the node that revoked the credential and dropped its entry |
| Revocation.StopsWithinIff | src/credentials/cache.rs:42-45 | a bound holds over every run if and only if it is at least 30 seconds plus the gap; 30 seconds if and only if there is no gap |
| Revocation.StopsAtOnceIff | src/credentials/cache.rs:216-225 | from every state with the row withdrawn and the entry dropped, no continuation accepts a later request on that node if and only if no request there holds a row it fetched before and will be accepted with |
| Revocation.UninterruptedIsSequential | src/credentials/mod.rs:444-584 | a request that nothing interrupts, whatever time passes between its steps, gets the sequential authenticator's verdict and leaves its cache behind |
| Revocation.MissesAgainIff | src/credentials/store.rs:264-268 | in every run, a request after the last write of last_used_at on its node misses the cache, and may write again, if and only if the entry was dropped, a deadline has passed or the MAC is another |
| Revocation.SecondStampHasCause | src/credentials/store.rs:264-268 | two successive writes on one node within the TTL: the second request had missed before the first write, or the entry was dropped, the wall clock reached its deadline, or the MAC is another |
| Revocation.StampedTwice | src/credentials/store.rs:264-268 | a run of one node that writes it twice in one tick, whatever the capacity |
| Grants.TenantsAreContained | src/credentials/store.rs:619-632 | in every run, triggers enabled or not, each grant's tenant is its credential's and its agent's |
| Grants.GrantsComeAndGo | src/credentials/store.rs:619-632 | a grant appears exactly by being granted, and goes exactly by being withdrawn or with its credential or agent; meanwhile it keeps its tenant |
| Grants.RowsComeAndGo | src/credentials/store.rs:619-632 | credentials and agents are what they were inserted as or last updated to, until deleted |
| Grants.RefusedIff | src/credentials/store.rs:634-660 | with the triggers enabled, exactly what refuses each statement |
| Grants.ArmedAddsNoContradiction | src/credentials/store.rs:645-660 | with the triggers enabled no statement makes a credential contradictory that was not |
| Grants.ArmedRunsAreExclusive | src/credentials/store.rs:634-660 | so a run with the triggers enabled never is |
| Grants.AuthorizeIff | src/credentials/grants.rs:120-181 | exactly two modes grant; on contained tables a grant row alone decides the restricted one; and exactly which of the four denials is given otherwise |
| Grants.DecisionsStayInTenant | src/credentials/grants.rs:120-181 | in every run no decision reaches another tenant or resolves a contradiction |
| Grants.GrantedIff | src/credentials/grants.rs:191-208 | a grant is accepted if and only if the decision for that pair was "no grant", whatever tenant is proposed |
| Grants.GrantAddsOnePair | src/credentials/grants.rs:191-208 | it changes the decision for that pair, in that tenant, and no other |
| Grants.WithdrawUndoesGrant | src/credentials/grants.rs:212-229 | withdrawing undoes granting, and granting again undoes withdrawing |
| Grants.WithdrawalWidensIff | src/credentials/grants.rs:212-229 | withdrawing gives someone new authority if and only if it takes the last grant of a contradictory credential |
| Grants.ContradictionIsServiceable | migrations/0031_credential_agent_grants_hardening.sql:74-108 | a contradictory credential is denied every agent, and can be maintained, disabled and revoked |
| Grants.ClearingRepairs | migrations/0031_credential_agent_grants_hardening.sql:80-108 | clearing tenant_wide restores exactly the authority the grants describe, and it cannot be set again while they exist |
| Grants.Database.Grant | src/credentials/grants.rs:191-208 | adds the row or changes nothing, and keeps containment |
| Grants.Database.Withdraw | src/credentials/grants.rs:212-229 | removes at most the one row, and tells whether it did |
| GrantLocking.GrantsAreExclusive | src/credentials/store.rs:881-900 | no interleaving of transaction steps commits a tenant-wide credential with grants, if the trigger functions are VOLATILE and grant triggers find their row |
| GrantLocking.RaceDecided | src/credentials/grants.rs:1348-1465 | the race of an update waiting behind a grant: refused with a VOLATILE function, committed with a STABLE one |
| GrantLocking.GrantOvertakesCredential | src/credentials/store.rs:881-888 | a run, with VOLATILE functions, that commits the contradiction because the grant's trigger found no row to lock |
| GrantLocking.NeverContradictoryIff | src/credentials/store.rs:996-1012 | exclusion holds over every run if and only if the functions are VOLATILE and grants for rows not yet visible are left out |
| GrantLocking.CommitKeepsInv | src/credentials/store.rs:881-900 | a commit changes nothing another open transaction has locked or relies on |
| GrantLocking.OnlyCommitsShow | src/credentials/store.rs:881-900 | nothing shows to others before it is committed, and a commit shows exactly what was written |
| GrantLocking.OwnWritesAreRead | src/credentials/store.rs:881-900 | a transaction sees the grants it added, not those it removed, and the modes it set |
| GrantLocking.RolledBackIff | src/credentials/store.rs:881-900 | exactly which steps are refused and roll their transaction back |
| Outbox.OneClaimer | src/extraction_worker.rs:89-112 | over all interleavings of workers an in-progress job has exactly one claimer unless its worker stopped, any other job none |
| Outbox.FinishedStaysFinished | src/extraction_worker.rs:137-208 | jobs are never lost or altered, and done, failed and abandoned ones never change again |
| Outbox.CanLeaveIff | src/extraction_worker.rs:122-157 | from every run, a job in progress leaves that status in some continuation if and only if its worker has not stopped or failed to record it |
| Outbox.AnyClaimCanBeLost | migrations/0022_extraction_outbox.sql:2-3 | every run in which a job is in progress continues to one from which it never leaves |
| Outbox.AJobIsLost | migrations/0022_extraction_outbox.sql:2-3 | some run claims a job and leaves it so for ever |
| Outbox.AttemptsCountClaims | src/extraction_worker.rs:89-112 | attempts is the number of claims, and no job runs more than max(1, max_attempts) times |
| Outbox.RunsTerminate | src/extraction_worker.rs:65-157 | a job is claimed or released at most 2 * max(1, max_attempts) times, by a measure each such step lowers |
| Outbox.StepLowersWeight | src/extraction_worker.rs:65-157 | that measure: each claim or release lowers it, nothing else changes it |
| Outbox.RetryWaitsOutBackoff | src/extraction_worker.rs:148-152 | on one clock run k + 1 is claimed no earlier than base * 2^min(k - 1, 30) seconds after the failure of run k was recorded |
| Outbox.ResultIsRecorded | src/extraction_worker.rs:137-157 | in every run: success is recorded as done, the error of run k as pending if and only if k is below the configured number, else as failed, and the error is kept |
| Outbox.FirstRunIsDue | src/extraction_worker.rs:89-112 | a job's first run is claimed no earlier than it was enqueued for, and until then it is what was enqueued |
| Outbox.BackoffDoubles | src/extraction_worker.rs:210-215 | the first wait is the configured base; it doubles with each attempt up to exponent 30, saturates, and never shrinks |
| Outbox.BackoffIs | src/extraction_worker.rs:210-215 | in closed form: base * 2^min(k - 1, 30) seconds, saturating |
| Outbox.Table.SelectDue | src/extraction_worker.rs:95-103 | picks due, unlocked, pending jobs, as many as fit, none due later than one left out |
| Outbox.PicksIff | src/extraction_worker.rs:95-103 | a batch may be picked if and only if its jobs are distinct, pending, due and not locked by others, and a job of that kind is passed over only for as many as fit, none due later |
| Outbox.Table.ClaimDueJobs | src/extraction_worker.rs:89-112 | claims exactly those, counting the attempt, or nothing if a counter would overflow its column |
| Outbox.Table.DrainDueJobs | src/extraction_worker.rs:65-87 | runs every claimed job once, in order, and records each result that can be recorded |
| Outbox.Table.FinishJob | src/extraction_worker.rs:137-157 | done, pending again after base * 2^min(k - 1, 30) seconds, or failed at the last attempt; the error is kept and nothing else changes |
| Outbox.DrainIsARun | src/extraction_worker.rs:65-87 | what a drain leaves in the table is what the worker's steps leave there in the state machine |
| Sampling.StratifiedSample | benchmarks/scripts/run_semantic_quality.py:415-452 | all units, or exactly n distinct ones apportioned by largest remainder, category by category in the order of names; the top-up is unreachable |
| Sampling.Allocate | benchmarks/scripts/run_semantic_quality.py:426-442 | the allocation is the apportionment by largest remainder, and the loop runs fewer times than there are categories |
| Sampling.RaiseInTurn | benchmarks/scripts/run_semantic_quality.py:434-442 | the loop raises the categories in rank order, once each; neither a saturated category nor the escape is met |
| Sampling.ApportionmentIsUnique | benchmarks/scripts/run_semantic_quality.py:426-442 | the properties of an apportionment by largest remainder determine it |
| Sampling.SharesAreProportional | benchmarks/scripts/run_semantic_quality.py:428-446 | each category gets n * size / total to within one unit, and never more than its size |
| Sampling.OwedToTheFirst | benchmarks/scripts/run_semantic_quality.py:429-435 | what rounding down leaves over is less than the number of categories and all due to those with a remainder |
| Sampling.Group | benchmarks/scripts/run_semantic_quality.py:420-422 | each category's positions in order, categories in order of first appearance |
| Sampling.MembersName | benchmarks/scripts/run_semantic_quality.py:420-422 | a unit is in the category it names, or, naming none, in "unknown" |
| Sampling.RoundedUpFirst | benchmarks/scripts/run_semantic_quality.py:429-433 | a category rounded up has a greater remainder than one rounded down, or the same and the greater name |
| Metrics.NdcgIsNormalised | benchmarks/scripts/run_semantic_quality.py:458-469 | nDCG lies in [0, 1]; it is 1 if and only if the first min(gold, 10) results are all gold, 0 if and only if none of the first ten is |
| Metrics.NdcgIs | benchmarks/scripts/run_semantic_quality.py:458-469 | nDCG is the sum of the discounts at gold results among the first ten over that of the first min(gold, 10) places |
| Metrics.FirstGoldRankIs | benchmarks/scripts/run_semantic_quality.py:460-473 | the first rank is the place of the first gold result, if one is among the first ten; recall is reported at 1, 3, 5 and 10 |
| Metrics.PrecisionIs | benchmarks/scripts/run_semantic_quality.py:470 | precision at 5 is the number of gold results among the first five over five, however many were returned |
| Metrics.OnTopIsBest | benchmarks/scripts/run_semantic_quality.py:458-459 | no ranking gains more than the one with the relevant results on top, and only that one gains as much |
| Metrics.PromotionPays | benchmarks/scripts/run_semantic_quality.py:458-459 | moving a gold result ahead of another raises the gain by the difference of their discounts |
| Metrics.RecallIsFirstRank | benchmarks/scripts/run_semantic_quality.py:464-473 | recall at k is 1 if and only if the first gold rank is at most k, and grows with k |
| Metrics.MrrIsReciprocal | benchmarks/scripts/run_semantic_quality.py:464-468 | the reciprocal rank is that of a rank in 1..10, or 0 without one |
| Metrics.MetricsAgree | benchmarks/scripts/run_semantic_quality.py:462-474 | first rank, recall at 10, nDCG and reciprocal rank agree on whether anything gold was found |
| Metrics.PrecisionIsRecall | benchmarks/scripts/run_semantic_quality.py:470-473 | precision at 5 lies in [0, 1] and is positive if and only if recall at 5 is 1 |
| Metrics.HitsAreGold | benchmarks/scripts/run_semantic_quality.py:463 | distinct results hit each gold memory at most once |
| CanonicalJson.CanonEqualIff | src/attestation.rs:154-172 | two documents have one canonical form if and only if they differ only in the order of object keys, at any depth |
| CanonicalJson.CanonDenotes | src/attestation.rs:154-172 | sorting keeps the value as nested maps, and arrays in order |
| CanonicalJson.CanonIsSorted | src/attestation.rs:154-172 | keys ascend at every depth |
| CanonicalJson.CanonIsIdempotent | src/attestation.rs:154-172 | sorting again changes nothing; a document is its own canonical form if and only if it is deeply sorted |
| CanonicalJson.SortJson | src/attestation.rs:154-172 | the loops, which sort before they descend, compute that form |
| Sorting.AtMostIff | src/attestation.rs:159 | the order of keys: a prefix first, otherwise by the first difference |
| Attestation.IsReadable | src/attestation.rs:148-152 | compact JSON followed by anything that does not continue a number determines the document and what follows |
| Attestation.TextIs | src/attestation.rs:148-152 | compact text: members and items with commas between them, keys quoted, and the words for null and the truth values |
| Attestation.QuotesSay | src/attestation.rs:148-152 | a quoted string, read by section 7 of RFC 8259, says what was quoted, and stands unescaped if it holds no quote, backslash or control character |
| Attestation.BytesAgreeIff | src/attestation.rs:144-152 | canonical bytes agree if and only if the logical values do |
| Attestation.PayloadsAreBound | src/attestation.rs:26-58 | two payloads have the same signed bytes if and only if they are equal |
| Attestation.EvidenceIsBound | src/attestation.rs:41-58 | the signed bytes speak for one agent, one session filter and one list of hits, as far as the digest tells contents apart |
| Attestation.EvidenceText | src/attestation.rs:26-58 | the signed text, character by character: the five keys in order, the version tag, and the ids and digests of the hits in response order |
| SqlSplit.SplitStatements | benchmarks/scripts/run_longitudinal.py:370-412 | the loop, with its branch for doubled quotes, computes what a simple quote toggle does |
| SqlSplit.SkipLine | benchmarks/scripts/run_longitudinal.py:396-399 | skipping to the newline drops exactly the comment |
| SqlSplit.SplitUndoesJoin | benchmarks/scripts/run_longitudinal.py:371-377 | joining statements with ';' and splitting gives them back |
| SqlSplit.LiteralIsOpaque | benchmarks/scripts/run_longitudinal.py:383-404 | whatever a quoted literal says, with each quote written twice, it is part of one statement, which the semicolon after it ends |
| SqlSplit.CommentAfterText | benchmarks/scripts/run_longitudinal.py:396-399 | a line comment after text without marks is as if it were not there |
| SqlSplit.StripIs | benchmarks/scripts/run_longitudinal.py:400-410 | trimming takes off all the space at both ends and nothing else |
| SqlSplit.AsciiSpaces | benchmarks/scripts/run_longitudinal.py:401 | which ASCII characters are space |
| SqlSplit.SplitYieldsStatementsIff | benchmarks/scripts/run_longitudinal.py:371-412 | every result is such a statement if and only if the file does not end inside a literal |
| SqlSplit.SplitYieldsStatements | benchmarks/scripts/run_longitudinal.py:371-412 | unless it does, joining the results and splitting again changes nothing |
| SqlSplit.SplitsAtCut | benchmarks/scripts/run_longitudinal.py:400-404 | a ';' outside literals and comments separates, whatever stands on either side |
| SqlSplit.HiddenCut | benchmarks/scripts/run_longitudinal.py:383-399 | one inside a literal or a comment does not |
| SqlSplit.CommentIsInvisible | benchmarks/scripts/run_longitudinal.py:396-399 | a line comment put in where the text is plain, and not after a dash, changes nothing |
| SqlSplit.LiteralsAreKept | benchmarks/scripts/run_longitudinal.py:383-393 | every character inside literals is kept, in order |
| SqlSplit.PiecesConserve | benchmarks/scripts/run_longitudinal.py:400-411 | the pieces, joined again, are the uncommented text |
| SqlSplit.UncommentIsIdempotent | benchmarks/scripts/run_longitudinal.py:396-399 | removing comments leaves none and forms none |
| Translation.MergeMessages | src/providers.rs:128-145 | each output turn says one block of messages, the next turn the next block, none but the system's left out: the assistant's turn exactly if they are the assistant's, its text theirs joined by an empty line; the blocks are the maximal runs, and roles alternate |
| Translation.RunsAreUnique | src/providers.rs:126-145 | there is one way to cut turns into maximal runs, so one translation |
| Translation.TextsAreKept | src/providers.rs:128-145 | the joined output is the joined input |
| Translation.UnchangedIffAlternating | src/providers.rs:126-145 | translation changes nothing if and only if the roles already alternate |
| Translation.SystemIsLeftOutIff | src/providers.rs:117-155 | the system field is left out if and only if there is no system message, or a single empty one |
| Translation.BuildAnthropicBody | src/providers.rs:115-165 | the body: such turns for messages, the system messages' texts joined for the system prompt, left out if empty, the token default, the stream flag, and a temperature exactly if it is finite |
| Sse.SynthesizedIsRead | src/providers.rs:87-110 | parsing the synthesized bytes returns the content, for every string and every reader that recovers the values of the three documents emitted |
| Sse.SynthesizedText | src/providers.rs:87-110 | the bytes synthesized, character by character: three chunks with their keys in order, for the role, the content and the stop, and the end mark |
| Sse.DeltaIff | src/providers.rs:177-181 | the content of a chunk is the string under content in the object under delta in the first of the array under choices, and nothing else |
| Sse.TextDeltaIff | src/providers.rs:200-217 | an event adds the text of a text_delta in a content_block_delta, and nothing else |
| Sse.LineIsRead | src/providers.rs:169-185 | a stream is read line by line, a line being ended by a newline or a carriage return and a newline, and adds what follows `data: ` at its beginning |
| Sse.LastLineIsRead | src/providers.rs:172 | so is a last line that lacks its ending |
| Sse.PayloadsAreRead | src/providers.rs:173-181 | the end mark and what cannot be read add nothing |
| Sse.SortingReaderReadsBack | src/providers.rs:169-185 | with a strict reader that puts keys in order, it does without condition |
| Sse.SortingReaderRecovers | src/providers.rs:177 | that reader recovers every document from its text, with its keys in order |
| Sse.SortingReaderSorts | src/providers.rs:177 | whatever it reads has its keys in order, at every depth |
| Sse.SortingReaderIsStrict | src/providers.rs:177 | of all texts made of the characters of numbers it reads exactly those RFC 8259 allows, as themselves |
| Sse.DeltaDependsOnValue | src/providers.rs:177-181 | the content of a chunk depends on its value only, not on the order of its keys |
| Sse.ChunksAreRead | src/providers.rs:169-185 | any list of chunks, keys in any order, is read back as the concatenation of their contents, by every reader that recovers their values |
| Sse.ReadJoin | src/providers.rs:169-217 | both readers are homomorphisms over byte streams cut after a newline, well-formed UTF-8 or not |
| Utf8.LossyJoin | src/providers.rs:170 | reading with replacement may be cut after a newline: one is never inside a longer sequence |
| Utf8.ReadsBack | src/providers.rs:170 | reading undoes writing |
| Utf8.CharIs | src/providers.rs:104 | the bytes of each character, by section 3 of RFC 3629 |
| Utf8.IllFormedIsReplaced | src/providers.rs:170 | the ill-formed bytes of table 3-8 of the Unicode Standard are read as it shows |
| Sse.EncodedIsOneLine | src/providers.rs:104-109 | compact JSON contains no raw newline |
| Sse.ParseOpenAi | src/providers.rs:169-185 | the loop computes the reading of the specification, on any bytes: invalid UTF-8 replaced, "[DONE]" and unreadable payloads adding nothing |
| Sse.ParseAnthropic | src/providers.rs:200-217 | likewise, text deltas only |
| Import.AlignedIff | src/embeddings.rs:63-81 | whatever an unstable sort does with ties, each vector stands where its index says if and only if the indices are 0, 1, ... without repeat or gap |
| Import.EmbedTexts | src/embeddings.rs:63-81 | returns the vectors in an order the sort by index may produce |
| Import.EachTextItsOwn | src/embeddings.rs:63-81 | a provider that answers each text once, naming it by index, is heard in request order, each text with its own vector |
| Import.ImportMemories | src/api.rs:1381-1472 | then every row with content is saved with the embedding of its own content, and the report accounts for every line; a provider that fails saves nothing, and one is asked only if there is something to embed |
| Import.ImportRows | src/api.rs:1393-1472 | rows with content are stored in order, each with its other columns or their defaults and the embedding of its place, and the three counters are tallies of the calls |
| Import.SavedColumns | src/api.rs:1433-1437 | each column of a saved row, with its own default |
| Import.SkippedIs | src/api.rs:1439-1466 | the skipped count is the rows deduplicated plus those stored while someone else deduplicated |
| Import.ReachedAllIff | src/api.rs:1417-1431 | the totals account for every line if and only if no embedding is missing, or just one, for the last row |
| Import.ImportedIsExactIff | src/api.rs:1439-1466 | the imported count is the number of rows stored if and only if nobody else deduplicated while one was |

## Left out

- Cryptography: HMAC-SHA-256, SHA-256, Ed25519, the random generator and constant-time comparison; effects are counted, time is not measured.
- HTTP handlers, provider calls, streaming, metrics, logging, the dashboard, the MCP server and the test scripts.
- SQL text, catalog inspection, migrations and rollbacks; the constraints, foreign keys and triggers they pin are the database's rules here.
- `f64` rounding in the limiter and the metrics, and the rounding of reported figures.
- Locks of the operating system and of `DashMap`, deadlock, starvation and fairness; safety only. A poisoned mutex is a flag.
- `GrantLocking`: deletion of credentials and agents, changes of tenant, and expiry of row locks by anything but commit and abort; `Grants` has the deletions and moves, one statement at a time.
- `Grants`: `list_grants`, and the creation time of a grant, which nothing but its order depends on.
- The panic of `chrono` on a retry time outside its range, and replicas configured differently, in the outbox.
- The `updated_at` column of a job, and the shape of ids: jobs, agents, tenants, workers and transactions are numbers.
- Limiter calls that overlap otherwise than by late readings: a sweep and the update of a bucket are one step.
- How serde_json reads a number and prints it again: a number is its text. The reader is a parameter.
- Import.ImportRows: takes the trimmed, non-blank lines as given; the store itself is not modelled.
- The membership tests `allows` and `holds_reserved` of `src/credentials/scope.rs`, single expressions.
- Pepper parsing, start-up settings, the multi-tenant gate, `src/rmk_worker.rs`, `src/archival.rs`, retrieval and `src/url_guard.rs`.
