# lite-auth-proxy: verified model

This project models the hard core of lite-auth-proxy in Dafny and proves properties of the model:

- the per-key rate limiter with its windows, bans, lazy eviction and delay slots,
- the dynamic rules, in memory and replicated through Firestore,
- the request pipeline that charges the limiters, and the identity headers it lets through,
- the token, signature and API-key codecs, and the two key-value stores.

`dafny verify dfyconfig.toml` checks everything.

| module | what it holds |
|---|---|
| `Limiter`, `LimiterRuns`, `LimiterObject` | the limiter as steps on values, theorems over its runs, and the object whose methods carry the steps out in place |
| `DelaySlots` | the protocol between refused requests and the setters that replace the semaphore |
| `RuleTable`, `RuleStore` | the rule table as steps on values with theorems over its runs, and the in-memory store object |
| `RuleReplicas`, `ReplicaTables`, `FirestoreStore` | any number of instances over shared documents, what runs do to the table of one of them, and one instance as an object |
| `Pipeline`, `PipelineRuns`, `IdentityHeaders` | layers, charges and refusals, for one request and for many; sanitizing and injecting headers |
| `Base64Url`, `Tokens`, `Ecdsa`, `ApiKey` | codecs and comparisons |
| `KeyValue`, `KeyValueStores` | the two stores over runs and as objects |

Where the source updates fields or loops, there is a class or a method, proved against a function on
values; the theorems are about those functions.

Assumptions the model states:

- Instants are integer nanoseconds since Go's zero time, so an unset ban end is 0 and the clock reads 0 or more.
- The clock readings of a limiter do not decrease in the order in which the lock is taken
  (`Limiter.Ordered`). The source reads the clock before it takes the lock.
- Firestore writes do not fail, and every commit that writes a document, also one that was there like that
  before, or deletes an existing one reaches every listening instance as one change, in commit order. Rule ids
  and sanitized keys are valid document ids.
- Each instance judges rules by its own clock, which does not go back. The clocks need not agree.
- A check of the rules visits every rule of the table once, in an order of its own (`PipelineRuns.Orderly`).
- Waits are rounded up to seconds with integers; the source divides floats.

Where documentation and code differ, the model follows the code:

- docs/RATE-LIMITING.md:122 calls the limiter's window sliding. The code opens a fixed window with the first
  counted request; this is why `2 * cap - 1` requests fit into one window length
  (`LimiterRuns.IntervalBoundIsTight`).
- docs/RATE-LIMITING.md says that the IP limiter stands down for a valid token. The code reads the subject
  without validating the token.
- The comment at internal/store/rules.go:107 says that rules are evaluated in order. The code visits a map, so
  the order is arbitrary.

Properties that hold only under a condition are stated with that condition, both ways:

- A retry hint points at the end of the ban if and only if the ban is longer than minus one second.
- Setting a throttle delay keeps "slots exist exactly while there is a delay" unless a negative delay is
  set while slots exist.
- A throttle budget is kept between two counter starts if and only if fewer than 2^63 checks stop at the rule.
- An administrator's call decides what is stored in the end if and only if no write in flight about the id
  leads elsewhere and, where the call launches no write, what is stored or in flight is what it asks for.
- A throttle rule keeps to n times its limit at an instance over n own calls and resets if none of its versions
  is delivered there. Every delivery, also the echo of an own write, adds the limit once more. Both bounds are
  reached, with what was left at the beginning (`BudgetOfCallsIsReached`, `ReplicatedBudgetIsReached`).
- An authenticated caller is rate limited under the authenticated subject if and only if the scheme is spelled
  exactly "Bearer" or there is no subject.
- The IP limiter bounds all requests from an address that reach the handler, where neither rules nor API keys
  are limited and enough new subjects exist, if and only if it does not skip identified callers. If it does, any
  number of requests gets through under new subjects, whatever the settings of the token limiter, and under any
  subjects while the token limiter is off; while it is on it bounds each subject.
- The stores answer alike on all runs over some keys if and only if no two of them are sanitized alike, and
  list alike if and only if no key goes on with U+FFFF or later after the prefix.
- Prefixed names that reach the upstream are the injected ones, and besides exactly the incoming ones that are
  stored in a form that is not canonical.
- The API-key comparison accepts exactly equal keys and keys that differ by a multiple of 256 trailing zero bytes.

## Model

| member | source | states |
|---|---|---|
| Limiter.RetryAfterSeconds | internal/ratelimit/limiter.go:253-259 | the rounded-up wait covers the duration and exceeds it by less than a second exactly when the duration is above minus one second; it is 0 exactly for a wait that is over |
| Limiter.StepKeepsValid | internal/ratelimit/limiter.go:88-124 | every request and setting change keeps the record invariant: windows open no later than the last request, a ban ends before its window opens or a full ban after it, and a record is young, recent or banned with respect to the last clean-up |
| LimiterRuns.Projection | internal/ratelimit/limiter.go:88-124 | two limiters, each evicting or not, one of which sees only the requests of the kept keys, give the kept keys identical answers over every ordered run with setting changes |
| LimiterRuns.EvictionIsInvisible | internal/ratelimit/limiter.go:239-251 | the limiter that evicts gives the same answers on every run as one that never deletes |
| LimiterRuns.KeysAreIndependent | internal/ratelimit/limiter.go:88-124 | the answers to any set of keys are those of the run without the other keys' requests, although those trigger eviction |
| LimiterRuns.OffAllows | internal/ratelimit/limiter.go:89-91 | a limiter that is disabled or has no positive limit allows every request and stays as it is |
| LimiterRuns.DisabledStretch | internal/ratelimit/limiter.go:207-219 | from disabling until enabling every request is allowed, and later answers are those of the run without the requests of that stretch |
| LimiterRuns.LimitIsExact | internal/ratelimit/limiter.go:112-123 | once switched on with a limit n of at least 1, a limiter allows exactly the first n requests of a key that starts a window, and refuses all further ones with the length of a ban |
| LimiterRuns.IntervalBound | internal/ratelimit/limiter.go:100-123 | while the limit lies between 1 and cap, at most 2 * cap - 1 requests of a key are admitted in any half-open interval of one window length |
| LimiterRuns.IntervalBoundIsTight | internal/ratelimit/limiter.go:113-123 | for every limit and ban there is an ordered run that reaches 2 * cap - 1 |
| LimiterRuns.RetryHint | internal/ratelimit/limiter.go:109-121 | for each refusal, the hint added to the time reaches the end of the ban and exceeds it by less than a second if and only if the configured ban is above minus one second |
| LimiterRuns.BanLifecycle | internal/ratelimit/limiter.go:106-121 | after any refusal, with a ban of at least one window, whatever else happens, accounted requests of the key before the end are refused, do not move the end and are told to come back then, and the first at or after the end is let through, evicted or not |
| LimiterRuns.ShortBanRefusesAgain | internal/ratelimit/limiter.go:113-121 | for every shorter ban, also a negative one, there is a run in which the first request at or after the end of the ban is refused again |
| LimiterRuns.EvictionBound | internal/ratelimit/limiter.go:239-251 | right after an accounted request every record still held was seen less than three windows ago or its ban ended less than one window ago or later, and no record seen in the last two windows, or banned, was dropped |
| LimiterRuns.CleanupIsRare | internal/ratelimit/limiter.go:239-251 | once it cleaned up, a limiter drops no record for the length of the clean-up interval |
| LimiterObject.RateLimiter.Allow | internal/ratelimit/limiter.go:88-124 | updating the record objects in place gives the new state and answer of the limiter step |
| LimiterObject.RateLimiter.CleanupLocked | internal/ratelimit/limiter.go:239-251 | deleting in any order leaves exactly the entries of the clean-up step, the records themselves unchanged |
| LimiterObject.RateLimiter.constructor | internal/ratelimit/limiter.go:60-85 | a new limiter is empty, with slots exactly if there is a delay, 100 of them by default |
| LimiterObject.RateLimiter.SetRequestsPerMin | internal/ratelimit/limiter.go:168-172 | only the limit changes |
| LimiterObject.RateLimiter.TryAcquireDelaySlot | internal/ratelimit/limiter.go:142-156 | a token is taken exactly when there is a semaphore with room, and the semaphore it came from is handed out |
| LimiterObject.RateLimiter.ReleaseDelaySlot | internal/ratelimit/limiter.go:160-165 | the given semaphore, current or not, has one token less |
| LimiterObject.RateLimiter.SetThrottleDelay | internal/ratelimit/limiter.go:177-190 | slots keep existing exactly while there is a delay if and only if the delay is not negative or there were none; a semaphore is only replaced by none at 0, or created empty |
| LimiterObject.RateLimiter.SetMaxDelaySlots | internal/ratelimit/limiter.go:195-205 | a semaphore in use is replaced by a fresh empty one of the new size, and none is created otherwise |
| DelaySlots.SlotsAreAccounted | internal/ratelimit/limiter.go:142-205 | in every interleaving of requests and setters each semaphore ever created holds as many tokens as requests hold it, within its capacity, and the current one has the configured size |
| DelaySlots.ReleaseNeverWaits | internal/proxy/middleware.go:200-206 | a request that holds a slot always finds a token to take back, and one that picked up a semaphore can always go on |
| DelaySlots.SlotsAllReturned | internal/proxy/middleware.go:200-206 | once all requests are done every semaphore, current or replaced, is empty |
| DelaySlots.ConsistentStep | internal/ratelimit/limiter.go:177-205 | a step keeps "slots exist exactly while there is a delay" if and only if it does not set a negative delay while slots exist |
| DelaySlots.DelayMeansSlots | internal/ratelimit/limiter.go:177-205 | with nonnegative delays this holds after every run |
| DelaySlots.SettersTakeEffect | internal/ratelimit/limiter.go:177-205 | setters never wait; new slots come with a fresh semaphore of their number exactly if there was one, a new delay with one exactly if there was none, and a delay of 0 with none |
| DelaySlots.ReplacedWhileHeld | internal/ratelimit/limiter.go:139-141 | a run in which a slot of a replaced semaphore is given back to that semaphore |
| RuleTable.CheckOutcome | internal/store/rules.go:113-138 | for every iteration order a check gets the decision of one unexpired, matching rule with a known action, or is allowed when there is none, and changes at most that rule's counter |
| RuleTable.EveryChoiceHasAnOrder | internal/store/rules.go:113-138 | each rule that can decide is the one that decides in some iteration order, so the choices are exactly the possible outcomes |
| RuleTable.AnswersExactly | internal/store/rules.go:113-138 | the answers a check can get over all orders are exactly what the unexpired rules with its host and a pattern that covers its path say, by action and counter, or that it is allowed when none of them says anything |
| RuleTable.BarredAndFree | internal/store/rules.go:118-137 | where a block rule is for a request and no allow or throttle rule is, every check is refused in every order; where no unexpired rule names the host, every check is allowed; no counter changes |
| RuleTable.DroppedUntilPut | internal/store/rules.go:63-71 | a removed rule decides no check and is on no listing until it is put again, and the others stay |
| RuleTable.ClearedUntilPut | internal/store/rules.go:74-80 | after all rules are removed every check is allowed, stopping at none, and every listing is empty, until a rule is put |
| RuleTable.ListedAndSwept | internal/store/rules.go:83-105 | a listing shows, and a sweep leaves, exactly the rules that expire later, with their counters |
| RuleTable.DatedExactly | internal/store/rules.go:50-52 | a rule without expiry expires its duration from now, and no other field changes |
| RuleTable.PutUntilExpiry | internal/store/rules.go:46-59 | a rule that is set is in the table and on the listings, as it was set, until it expires, is set again or is removed |
| RuleTable.BlocksForItsDuration | internal/store/rules.go:46-59 | a block rule set for a host without other rules refuses every check of the host for exactly its duration, through any run that leaves it alone |
| RuleTable.SweepsAreInvisible | internal/store/rules.go:163-172 | deleting expired rules at any points of a run changes neither the possible choices nor any answer or listing, now or later |
| RuleTable.StretchAdmits | internal/store/rules.go:113-138 | over any run without a start of its counter, whatever else happens, a throttle rule admits what its 64-bit counter lets pass of the checks that stop at it |
| RuleTable.StretchBudget | internal/store/types.go:30-37 | over any such run from a fresh counter it admits at most its limit if and only if fewer than 2^63 checks stop at it |
| RuleTable.ResetRestoresLimit | internal/store/rules.go:187-193 | after a reset of the counters every rule is still there, and each throttle rule admits again up to its whole limit |
| RuleTable.ThrottleBudget | internal/store/rules.go:113-138 | over any run with n counter starts a throttle rule admits at most n times the cap, and what was left at the beginning |
| RuleTable.ThrottleBudgetIsReached | internal/store/rules.go:113-138 | from every table, for every limit and every n, a run with n counter starts admits n times the limit |
| RuleTable.WholeBudgetIsReached | internal/store/rules.go:113-138 | and n times the limit and what was left at the beginning, if the table holds the rule already |
| RuleStore.RuleObject.IncrementRPM | internal/store/types.go:30-32 | the counter is stepped as a 64-bit integer, and its new value returned |
| RuleStore.MemoryRuleStore.SetRule | internal/store/rules.go:46-59 | an empty id is refused without effect; otherwise the rule is dated if it has no expiry, its counter restarted, and it replaces what was filed under its id |
| RuleStore.MemoryRuleStore.RemoveRule | internal/store/rules.go:63-71 | exactly that rule goes, and it is reported whether it was there |
| RuleStore.MemoryRuleStore.RemoveAll | internal/store/rules.go:74-80 | nothing is left, and the number of rules is returned |
| RuleStore.MemoryRuleStore.ShouldAllow | internal/store/rules.go:113-138 | the loop in any order stops at a choosable rule, answers with its decision and leaves the table of that check |
| RuleStore.MemoryRuleStore.GetStatus | internal/store/rules.go:83-105 | exactly the unexpired rules are listed, with their counters |
| RuleStore.MemoryRuleStore.DeleteExpired | internal/store/rules.go:163-172 | the loop leaves exactly the unexpired rules |
| RuleStore.MemoryRuleStore.ResetAllRPM | internal/store/rules.go:187-193 | all counters are 0 and nothing else changes |
| RuleReplicas.Convergence | internal/plugins/storage/firestore/rule_store.go:105-184 | after every run with nothing in flight and nothing to deliver, each listening instance shows exactly the stored rules that are unexpired by its own clock, and what is stored under an id is the last committed change |
| RuleReplicas.RunKeepsSound | internal/plugins/storage/firestore/rule_store.go:246-304 | every step keeps the invariant: at each listening instance the last pending change about an id leads to what is stored, and without one the instance shows what is stored or owes a write |
| RuleReplicas.NothingWaits | internal/plugins/storage/firestore/rule_store.go:105-184 | calls, stops, clock readings, new instances, and the commit of any write in flight are possible at any time |
| RuleReplicas.OwnCallIsShown | internal/plugins/storage/firestore/rule_store.go:105-159 | a call shows at its own instance at once: a rule set is cached as dated with a fresh counter, a removed one is gone, none is left after `RemoveAll`, and no other rule is touched |
| RuleReplicas.StoppedHearsNothing | internal/plugins/storage/firestore/rule_store.go:236-257 | no change is ever delivered to an instance that stopped; its table and its writes in flight stay |
| RuleReplicas.SettlingEnds | internal/plugins/storage/firestore/rule_store.go:119-184 | each commit or delivery brings the world closer to quiet by a well-founded measure, and the world is quiet exactly when none is possible |
| RuleReplicas.Settle | internal/plugins/storage/firestore/rule_store.go:246-280 | from every world commits and deliveries alone reach a quiet one |
| RuleReplicas.LastAdminCall | internal/plugins/storage/firestore/rule_store.go:105-184 | whatever happens after an administrator's call, short of another call about the id, ends with what it asked for being stored, if and only if no write in flight about the id leads elsewhere and the call launches a write, or asks for what is stored or under way |
| RuleReplicas.OpposedMayLose | internal/plugins/storage/firestore/rule_store.go:119-184 | from every world in which that fails there is a run of commits and deliveries alone that ends quiet with something else stored |
| RuleReplicas.WinnerIsShown | internal/plugins/storage/firestore/rule_store.go:246-280 | after a call that wins, once things are quiet, every listening instance shows exactly what was asked for, while it is unexpired there |
| RuleReplicas.LastAdminCallMayLose | internal/plugins/storage/firestore/rule_store.go:120-149 | a run in which a rule is set, then removed, and ends stored and cached, because the removal committed first |
| ReplicaTables.NothingInvented | internal/plugins/storage/firestore/rule_store.go:327-362 | whatever holds of all rules as they are set holds of every rule cached, under way or stored at any time, so none comes from nowhere or is changed on its way through a document |
| ReplicaTables.InstanceRun | internal/plugins/storage/firestore/rule_store.go:262-271 | an instance's table goes through a table run in which every delivered change, also the echo of its own write, puts or drops the rule again |
| ReplicaTables.RemoveAllClears | internal/plugins/storage/firestore/rule_store.go:155-159 | after its own `RemoveAll` an instance allows every check and lists nothing until a rule is set at it or a change is delivered to it |
| ReplicaTables.DocRoundTrip | internal/plugins/storage/firestore/rule_store.go:327-362 | a document gives back the rule it was written for, and bears the time of the write |
| ReplicaTables.StartsAreCallsAndDeliveries | internal/plugins/storage/firestore/rule_store.go:262-271 | the counter starts of a rule at an instance are its own calls, its resets and the deliveries of the rule, each counted once |
| ReplicaTables.ReplicatedThrottleBudget | internal/plugins/storage/firestore/rule_store.go:262-271 | while a rule is only set to limits up to cap, each instance admits at most n times cap requests over n counter starts, deliveries included, and what was left at the beginning |
| ReplicaTables.BudgetWithoutDeliveries | internal/plugins/storage/firestore/rule_store.go:105-131 | where no version of the rule is delivered, n counts only own calls and resets |
| ReplicaTables.BudgetOfCallsIsReached | internal/plugins/storage/firestore/rule_store.go:105-131 | for every limit and every n some run with n calls and no delivery admits n times the limit and what was left at the beginning |
| ReplicaTables.ReplicatedBudgetIsReached | internal/plugins/storage/firestore/rule_store.go:262-271 | for every limit and every n some run with n starts, every second of which is an echo, admits n times the limit and what was left at the beginning |
| ReplicaTables.EchoRestartsCounter | internal/plugins/storage/firestore/rule_store.go:262-271 | for every limit, one administrator's call can admit twice the limit, because the echo restarts the counter |
| FirestoreStore.LoadRules | internal/plugins/storage/firestore/rule_store.go:72-93 | the initial load holds exactly the rules named by unexpired documents, each as one of these documents has it, and is exactly the unexpired documents when these are filed under their own rule ids |
| FirestoreStore.FirestoreRuleStore.SetRule | internal/plugins/storage/firestore/rule_store.go:105-131 | the table changes first and one write of the dated rule is launched; an empty id does neither |
| FirestoreStore.FirestoreRuleStore.RemoveRule | internal/plugins/storage/firestore/rule_store.go:133-153 | only a rule found in the table is removed and its deletion launched |
| FirestoreStore.FirestoreRuleStore.RemoveAll | internal/plugins/storage/firestore/rule_store.go:155-184 | the table is emptied, its size returned, and a deletion of all documents launched |
| FirestoreStore.FirestoreRuleStore.Stop | internal/plugins/storage/firestore/rule_store.go:236-244 | no change is applied any more, and the table and the writes in flight stay |
| FirestoreStore.FirestoreRuleStore.ListenForChanges | internal/plugins/storage/firestore/rule_store.go:246-280 | the delivered changes are applied in order, each as one delivery step |
| Pipeline.ApplyMiddleware | internal/proxy/proxy.go:363-369 | wrapping from the last layer to the first gives the handler in which the first layer is outermost |
| Pipeline.ChargesAPrefix | internal/proxy/proxy.go:363-369 | for layer lists of any length the charges made are a prefix of the layers' demands, ending at the first refusal, the world is what these charges make of it, and the handler runs if and only if none was refused |
| Pipeline.UnchargedUntouched | internal/proxy/middleware.go:102-197 | a limiter that is not charged keeps its state |
| Pipeline.ChargedOnce | internal/proxy/middleware.go:102-197 | a limiter that is charged once counts exactly one request, under the charged key |
| Pipeline.ClientAddress | internal/proxy/middleware.go:312-319 | a client is known by the host part of the remote address if there is one, and else by the whole of it |
| Pipeline.SharesBucket | internal/proxy/middleware.go:140-145 | with a hash without collisions two requests share an API-key bucket if and only if they bear the same key, header before query, or none and come from one address |
| Pipeline.CountsAddressesApart | internal/proxy/middleware.go:147-149 | with the address in the key clients of different addresses are counted apart, and without it the address does not matter |
| Pipeline.IdentifiedSkipsIpLimiter | internal/proxy/middleware.go:110-115 | when skipping is on and a token layer comes first, a request whose Bearer payload has a subject leaves the IP limiter as it was |
| Pipeline.AssembledIpDemand | internal/proxy/proxy.go:272-297 | in the assembled pipeline the IP limiter is asked last, under the client address, exactly for requests it is not told to skip or that carry no subject |
| PipelineRuns.ReachesTheHandler | internal/proxy/proxy.go:363-369 | a request gets the handler's response if and only if none of its charges is refused |
| PipelineRuns.ServedAlone | internal/proxy/proxy.go:363-369 | a request whose charges are not interleaved with others' leaves the world, and is refused or not, exactly as the composed handlers have it |
| PipelineRuns.NothingWaits | internal/proxy/proxy.go:363-369 | in every state requests may arrive and settings and rules may change, and exactly the requests that were not refused and have charges left go on |
| PipelineRuns.LimiterRun | internal/proxy/middleware.go:102-197 | however the charges of any number of requests interleave, with changes of settings and rules in between, each limiter goes through the run of its own charges and settings |
| PipelineRuns.TableRun | internal/proxy/dynamic_rule.go:16-30 | however requests interleave, the rule table goes through the run of its checks and changes |
| PipelineRuns.RuleDecides | internal/proxy/dynamic_rule.go:23-28 | a request that is barred, or stops at a block rule, is refused with 60 seconds; one that stops at an allow rule or at none, or whose host no unexpired rule names, goes on |
| PipelineRuns.BarredNeverReached | internal/proxy/dynamic_rule.go:23-26 | with administration on, no request that is barred whenever the rules are checked for it ever reaches the handler |
| PipelineRuns.RuleBudget | internal/proxy/dynamic_rule.go:23-28 | of the requests that stop at a throttle rule at most n times the cap reach the handler over n counter starts, and what was left at the beginning |
| PipelineRuns.RefusedEarly | internal/proxy/proxy.go:289-297 | a request that is too large is refused as such and leaves everything as it was; a barred one is refused with 60 seconds before any limiter counts it |
| PipelineRuns.RefusalSaysWhen | internal/proxy/middleware.go:117-122 | a limiter refuses exactly the requests it does not allow, and the response names the seconds until the ban is over, rounded up |
| PipelineRuns.KeyBound | internal/proxy/middleware.go:102-197 | in any pipeline and interleaving at most 2 * cap - 1 of the requests that a limiter counts under one key reach the handler in any half-open interval of one window length |
| PipelineRuns.AddressBound | internal/proxy/middleware.go:98-127 | so do at most 2 * cap - 1 requests from one address, not counting identified callers where they are skipped |
| PipelineRuns.SubjectBound | internal/proxy/middleware.go:165-197 | so do at most 2 * cap - 1 requests of one subject |
| PipelineRuns.ApiKeyBound | internal/proxy/middleware.go:132-160 | so do at most 2 * cap - 1 matching requests of one API key |
| PipelineRuns.IdentifiedAreUnbounded | internal/proxy/middleware.go:110-115 | where identified callers are skipped any number of requests from one address reaches the handler in one window if the subjects are new to the token limiter, whatever its settings, or if it is off, whatever the subjects |
| PipelineRuns.BoundedExactly | internal/proxy/middleware.go:98-127 | where neither rules nor API keys are limited and enough new subjects exist, the bound holds of all requests from an address if and only if identified callers are not skipped |
| IdentityHeaders.CanonicalLaws | internal/proxy/middleware.go:300-305 | canonical names are a fixed point and carry a prefix exactly if the raw names do |
| IdentityHeaders.CanonicalAt | internal/proxy/middleware.go:300-305 | canonical names have capitals at the start and after hyphens and small letters elsewhere, and names with other characters are left alone |
| IdentityHeaders.FoundWhenSet | internal/proxy/proxy.go:537-541 | a header that was set is found under every name with the same canonical form, and no other one changes |
| IdentityHeaders.StrippedExactly | internal/proxy/middleware.go:295-306 | only canonical names that carry the prefix go; all others keep their values |
| IdentityHeaders.StripHeadersWithPrefix | internal/proxy/middleware.go:295-306 | in any iteration order exactly the canonical names that carry the prefix in any case are deleted |
| IdentityHeaders.ApplyHeaders | internal/proxy/proxy.go:537-541 | exactly the canonical forms of the given names are set, each to one of the values given for it, and all others are kept |
| IdentityHeaders.MapClaims | internal/auth/jwt/mapper.go:11-29 | exactly the mapped claims that exist and can be coerced give prefixed headers, with their values |
| IdentityHeaders.ValidateAPIKey | internal/auth/apikey/apikey.go:20-50 | the payload headers are handed out exactly when the provided key compares equal; disabled, missing and wrong keys are told apart |
| IdentityHeaders.ServeHTTP | internal/proxy/proxy.go:371-471 | the decision is that of the credentials; a refused request keeps its headers and a forwarded one gains exactly the injected ones, each with the value of a claim mapped to it or of a payload entry |
| IdentityHeaders.ForwardedExactly | internal/proxy/proxy.go:371-471 | a request is forwarded if and only if no credentials are asked for, or it bears an accepted token with admitted claims, or there is no token to look at and it bears a key that compares equal |
| IdentityHeaders.RefusedExactly | internal/proxy/proxy.go:387-470 | a refusal names the error of the token, the claims, a wrong key, or the lack of credentials |
| IdentityHeaders.BuiltTokenForwarded | internal/auth/jwt/validator.go:45-103 | a request with a built token is forwarded if and only if algorithm, key id, claims and key are in order, the signature is good and the claims are admitted |
| IdentityHeaders.InjectedCompletely | internal/auth/jwt/mapper.go:11-29 | every mapped claim that exists and can be coerced is injected for an accepted token, every payload entry for an accepted key, and nothing otherwise |
| IdentityHeaders.ClaimArrives | internal/proxy/proxy.go:415-417 | where no other claim is mapped to the same header the forwarded header has the value of the claim |
| IdentityHeaders.PayloadArrives | internal/auth/apikey/apikey.go:43-49 | where no other payload entry gives the same header the forwarded header has the value of the entry |
| IdentityHeaders.SanitizeAndServe | internal/proxy/proxy.go:290-297 | sanitizing and then handling leaves exactly the forwarded names, the injected ones with values from the credentials and all others with the values they came with |
| IdentityHeaders.PrefixedNamesForwarded | internal/proxy/middleware.go:295-306 | after sanitizing and forwarding, a name carries the prefix if and only if it was injected or came in with the prefix in a form that is not canonical |
| IdentityHeaders.IdentityHeadersAreInjected | internal/proxy/proxy.go:371-471 | for canonical incoming names a forwarded name carries the prefix if and only if it was injected on this request, and none does on bypassed paths or without authentication |
| Tokens.BuildSplits | internal/auth/jwt/testutil.go:75-99 | splitting a built token recovers its three base64url segments, each of which decodes to what was encoded |
| Tokens.BuiltTokenAccepted | internal/auth/jwt/validator.go:45-103 | a built token is accepted, with its claims, if and only if algorithm, key id, claims and key are in order and the signature is good for the message that was signed |
| Tokens.BuiltTokenRefused | internal/auth/jwt/validator.go:60-100 | for any other built token the error names the first check that fails |
| Tokens.MalformedRefused | internal/auth/jwt/validator.go:46-58 | the format error is given exactly where there are not three segments, and a header segment that does not decode is refused as such |
| Tokens.TrimmedExactly | internal/proxy/proxy.go:529 | trimming takes away spaces at both ends and leaves none there |
| Tokens.BuiltTokenCharged | internal/proxy/middleware.go:340-359 | a built token after "Bearer " is the one that is authenticated, and the request is charged to the text of its "sub", or to nobody without one |
| Tokens.ReadersAgree | internal/proxy/proxy.go:519-535 | for every header, both readers take the same payload segment of a token of three segments if the header starts with exactly "Bearer ", and the rate limiter takes none otherwise; where it takes one, the token has three segments exactly if no further dot follows |
| Tokens.FoundExactly | internal/proxy/proxy.go:519-535 | a header carries a token if and only if it starts with the scheme in any case and a space, and the token is the trimmed rest |
| Tokens.PayloadExactly | internal/proxy/middleware.go:340-348 | the rate limiter reads the segment between the first two dots after "Bearer ", and nothing if there are fewer |
| Tokens.ChargedIsAuthenticated | internal/proxy/middleware.go:340-359 | whoever is authenticated was rate limited under the authenticated subject if and only if the header starts with exactly "Bearer " or there is no subject |
| Tokens.OtherSpellings | internal/proxy/proxy.go:525 | with any other spelling of the scheme the same token is read for authentication and the rate limiter finds no subject |
| Tokens.SmallLetters | internal/proxy/middleware.go:341 | an accepted token after "bearer " is read for authentication and charged to no subject |
| Base64Url.RoundTrip | internal/auth/jwt/testutil.go:81-96 | decoding undoes encoding for all byte strings, and an encoding holds only letters of the alphabet |
| Base64Url.Vectors | internal/auth/jwt/testutil.go:81-96 | the encodings of the examples of section 10 of RFC 4648 |
| Base64Url.BreaksAreSkipped | internal/auth/jwt/validator.go:55 | a line break anywhere in an encoding does not matter |
| Base64Url.OutsidersRefused | internal/auth/jwt/validator.go:55-58 | a string with any other character outside the alphabet does not decode |
| Ecdsa.EncodeSignature | internal/auth/jwt/testutil.go:173-186 | copying into zeroed buffers gives r and s left-padded to the curve size, one after the other |
| Ecdsa.BigEndian | internal/auth/jwt/validator.go:271-278 | the first byte of a number counts most |
| Ecdsa.SplitUndoesEncode | internal/auth/jwt/validator.go:271-278 | halving and reading an encoded signature gives r and s back, for all r and s that fit |
| Ecdsa.EncodeUndoesSplit | internal/auth/jwt/validator.go:271-278 | every signature of even length is the encoding of the numbers it splits into |
| ApiKey.ConstantTimeEquals | internal/auth/apikey/apikey.go:52-76 | the accumulator is zero if and only if the lengths agree in their low eight bits and the zero-padded strings are equal |
| ApiKey.AcceptsExactly | internal/auth/apikey/apikey.go:52-76 | accepted are exactly equal strings and strings that differ by a multiple of 256 trailing zero bytes, so it is equality among strings without zero bytes |
| KeyValue.SanitizeInjective | internal/plugins/storage/firestore/kv_store.go:88-90 | keys without underscores that are sanitized alike are equal |
| KeyValue.AnswersAgreeExactly | internal/plugins/storage/firestore/kv_store.go:33-59 | the stores answer alike on every run over a set of keys if and only if no two of the keys are sanitized alike |
| KeyValue.UnderscoreFreeRunsAgree | internal/store/keyvalue.go:35-61 | they answer alike on every run whose keys hold no underscore |
| KeyValue.SanitizeCollides | internal/plugins/storage/firestore/kv_store.go:88-90 | two different keys that are filed under the same id |
| KeyValue.RangeIsPrefix | internal/plugins/storage/firestore/kv_store.go:61-66 | a key is in the queried range if and only if it has the prefix and goes on, if at all, below U+FFFF |
| KeyValue.ListingUnique | internal/store/keyvalue.go:63-74 | there is only one ascending list of a set of keys |
| KeyValue.ListingsAgreeExactly | internal/plugins/storage/firestore/kv_store.go:61-86 | after every run of keys without underscores both stores list the same sequence for a prefix if and only if no key goes on with U+FFFF or later after it |
| KeyValueStores.MemoryKeyValueStore.Get | internal/store/keyvalue.go:35-45 | a fresh copy of the stored bytes, or nothing |
| KeyValueStores.MemoryKeyValueStore.Set | internal/store/keyvalue.go:47-54 | a fresh copy is stored under the key and the other buffers stay in place |
| KeyValueStores.MemoryKeyValueStore.List | internal/store/keyvalue.go:63-74 | the ascending list of exactly the stored keys with the prefix |
| KeyValueStores.FirestoreKeyValueStore.Set | internal/plugins/storage/firestore/kv_store.go:48-54 | the document under the sanitized id holds the key and the bytes |
| KeyValueStores.FirestoreKeyValueStore.List | internal/plugins/storage/firestore/kv_store.go:61-86 | the ascending list of exactly the stored keys in the queried range |

## Left out

- LimiterObject.RateLimiter.Allow: the source reads `enabled` and the limit once before it takes the lock; the model runs the whole call as one critical section.
- LimiterObject.RateLimiter.TryAcquireDelaySlot: the method is one step here; picking up the semaphore and sending to it are separate steps in `DelaySlots`.
- LimiterObject.RateLimiter.ReleaseDelaySlot: requires a token, because the source waits on an empty semaphore; `DelaySlots.ReleaseNeverWaits` shows that a holder never does.
- RuleTable.ThrottleBudget: resetting all counters, and listing the rules, are one step each; the source does both under the read lock, so that checks may come in between and a listing may show some counters already reset.
- A response, once written or proxied, touches no limiter and no rule in `PipelineRuns`; the delay of refused requests is treated in `DelaySlots`.
- Limiter.RetryAfterSeconds: integer arithmetic where the source rounds a float, which is exact only for moderate waits.
- The request count of a limiter window is an unbounded integer, and durations do not saturate.
- The limiter's status snapshot, whose number of active entries does reveal eviction.
- RuleTable.SweepsAreInvisible: the results of removing a rule, or all rules, do tell whether an expired rule was still held, and are not among the outputs.
- KeyValueStores.FirestoreKeyValueStore.List: the answer of the range query is a parameter, described by what it has to contain and its order.
- Firestore's own behaviour: failed writes, merged changes, rejected document ids, empty byte strings read back as nothing, and the microsecond precision of timestamps.
- Strings are sequences of characters; invalid UTF-8, and case mapping of header names outside ASCII, are not modelled.
- JSON, hashes, signature mathematics, regular expressions, `path.Match` and `net.SplitHostPort` are arbitrary functions; JWKS fetching and the checks of standard claims are one function each.
- The order in which claims that map to the same header name overwrite each other is arbitrary, as in the source.
- The delay itself, response bodies, the mapping of token errors to status codes, reverse proxying, health checks, configuration, admin request validation, plugin registration, logging and shutdown.
- The layers for logging, sanitizing and path filtering are passive in `Pipeline`; the sanitizer is modelled in `IdentityHeaders`.
