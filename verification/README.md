# FineMCP: a verified model of its algorithms and protocols

FineMCP is a Go framework for MCP servers and clients. This project models the
parts of it that decide something hard, and proves what they promise for every
input, every trace and every interleaving.

| area | modules | form |
|---|---|---|
| URI templates | `UriMatch`, `UriTemplate` | backtracking matcher, validator and parser as loops, proved against a declarative meaning |
| tool schemas | `SchemaGen`, `JsonSchema`, `SchemaMeaning`, `SchemaReports`, `SchemaAgreement` | two mutually dependent recursions; keyword-by-keyword meaning; agreement with the JSON encoding |
| streaming, coalescing | `ToolStream`, `Coalescer` | step relations over all interleavings with an inductive invariant |
| caching | `LruSpec`, `LruCache`, `CacheChain`, `CacheFlights`, `ToolName` | heap class (map plus recency list) refining a sequence; trace theorems; concurrent calls as a step relation |
| limiting, breaking | `TokenBucket`, `ServerBreaker`, `ClientBreaker`, `FailureMarks` | classes refining step functions; theorems over all runs |
| registry and listing | `ToolServer`, `ToolMerge`, `ClosedRing`, `ByteStrings` | registries as classes, merges as loops, the tombstone ring as an array |
| pagination | `Pagination`, `Decimal` | stateless pager, stateful iterator class |
| failover | `Failover` | retry loop against an arbitrary environment |

Each operation that changes state is a method tied to a specification function
(`LruCache.Cache.Get` to `LruSpec.Step`, `ServerBreaker.CircuitBreaker.AfterCall`
to `After`, and so on). The theorems are about that function: over traces, over
runs, or against an independent definition that does not mention the algorithm.
Clocks, hashes, regular expressions, Unicode classes, request outcomes and
cancellation are parameters.

## Where the code does less than it suggests

- The matcher gives up after 10,000 steps. `UriMatch.AcceptsIff` says exactly
  which URIs are then missed; `UriMatch.LateSplitIsMissed` shows a family of them.
- A client breaker whose half-open probes all end in non-tripping errors never
  leaves half-open. The comment at client/circuitbreaker.go:316-326 expects a
  timeout that the code does not have. `ClientBreaker.RecoversIff` gives the
  exact condition, `ClientBreaker.TrapIsReachable` a run into the trap for every
  configuration.
- In the middleware breaker a probe of an older half-open episode that completes
  inside a later one frees a slot that was never its own.
  `ServerBreaker.OveradmissionIff` says for which configurations the maximum can
  then be exceeded; the default is one of them.
- With the least-connections strategy and one caller, failover retries the same
  backend at every attempt, since the connection count is back to its old value
  by then (`Failover.CountersRestored`, `LeastConnectionsTriesAllIff`).
- A round-robin counter that wraps at 2^64 skips backends unless their number
  divides 2^64 (`Failover.RoundRobinTriesAllIff`, `WrapSkipsABackend`).
- Schemas generated for maps carry `additionalProperties` without `properties`,
  and the validator looks at the former only beside the latter, so map values
  are not checked (`SchemaAgreement.MapValuesAreUnchecked`).
- A coalesced caller that never left can still receive the abort of a flight it
  joined between the last leaver's decrement and its cancel.
  `Coalescer.RiskIsKnownAtTheJoin` gives the exact condition.
- When close gives up on a done context, the comment at stream.go:258-261 says
  that drain will deliver the rest. Drain may have looked at the buffer for the
  last time without having closed done; a chunk accepted in between is lost
  (`ToolStream.GiveUpDeliversIff`, `GiveUpMayLoseAChunk`).
- Property schemas are resolved before and inside validateValue, and those of
  objects once more in the nested validateObject, so they may take two or three
  times the `$ref` hops of the root schema (`SchemaMeaning.ResolveTwice`).

## Model

| member | source | states |
|---|---|---|
| `UriMatch.RunExact` | uritemplate.go:118-188 | the matcher is exact: a positive answer comes with a split of the URI into the literals and non-empty slash-free placeholder runs; a negative one with budget left excludes every split |
| `UriMatch.TrySplitsExact` | uritemplate.go:159-184 | the same for one placeholder's split loop, over all split points not yet tried |
| `UriMatch.PrunedNeverMatches` | uritemplate.go:151-180 | first-rune pruning skips only split points at which no match exists |
| `UriMatch.BudgetIrrelevant` | uritemplate.go:161-188 | an answer reached with budget left is the same under every other budget that would have left some, and costs the same number of steps |
| `UriMatch.RunBounds` | uritemplate.go:118-188 | with n runes and p non-final placeholders at most C(n,1)+...+C(n,p) steps are spent, each recursive call is paid for by a step, and success leaves budget |
| `UriMatch.SplitsBounds` | uritemplate.go:161-184 | the same bound for the split loop, by Pascal's rule |
| `UriMatch.ExactWithinBudget` | uritemplate.go:8-11 | with the shipped budget there are never more than 9,999 recursive calls, and the matcher decides matching whenever the step bound fits |
| `UriMatch.RunSpendsCost` | uritemplate.go:161-184 | a budget above the cost, defined by which split points match and not by the search, is spent by exactly the cost |
| `UriMatch.CostBounded` | uritemplate.go:161-184 | the cost is at most C(n,1)+...+C(n,p) |
| `UriMatch.AcceptsIff` | uritemplate.go:118-188 | for every budget: accepted if and only if the URI matches and its cost is below the budget |
| `UriMatch.ExactForShortUris` | uritemplate.go:8-11 | exact for every URI without non-final placeholder, below 10,000 runes with one and up to 140 runes with two |
| `UriMatch.LateSplitIsMissed` | uritemplate.go:161-184 | for every n above the budget, "{a}xy" matches x^n y but the matcher says no |
| `UriMatch.MatchLiteral` | uritemplate.go:122-132 | the literal comparison loop decides whether the literal is a prefix of the rest of the URI |
| `UriMatch.MatchSegs` | uritemplate.go:118-188 | the loop form with positions and shared budget gives the answer, remaining budget and call count of the search the theorems are about |
| `UriMatch.MatchPlaceholder` | uritemplate.go:159-184 | the same for the split loop |
| `UriTemplate.ValidIffGrammar` | uritemplate.go:200-245 | the validator accepts exactly the renderings of token lists of a grammar: brace-free text and variables with an optional plus |
| `UriTemplate.ValidHasTokens` | uritemplate.go:200-245 | every accepted template has such a token list, and it is constructed |
| `UriTemplate.RenderedIsValid` | uritemplate.go:78-112 | every rendering is accepted and parses back to exactly its segments |
| `UriTemplate.ValidParsesFaithfully` | uritemplate.go:78-112 | every accepted non-empty template parses to segments of tokens that re-render to its text, with no brace in a literal |
| `UriTemplate.ParsesIff` | uritemplate.go:78-112 | any template, valid or not, parses to given segments if and only if it is the rendering of tokens with them, where text has no opening brace and every hole is closed and names something |
| `UriTemplate.ExpansionMatches` | uritemplate.go:118-188 | expanding segments with any non-empty slash-free values gives a URI that matches them |
| `UriTemplate.RegisteredTemplateAcceptsExpansions` | server.go:845-862 | a registrable template accepts every such expansion unless the budget ran out, and for sure when the step bound fits |
| `UriTemplate.IsValidVarName` | uritemplate.go:251-269 | the loop decides: first rune letter, digit or underscore, later ones also a dot, not empty |
| `UriTemplate.BracesBalance` | uritemplate.go:200-218 | the brace pass accepts exactly alternating, closed braces |
| `UriTemplate.IsValidURITemplate` | uritemplate.go:200-245 | both passes together decide the validity that the grammar theorem is about |
| `UriTemplate.ParseHole` | uritemplate.go:83-102 | the brace branch yields a placeholder and its length, or nil for an unclosed brace or a blank name |
| `UriTemplate.ParseText` | uritemplate.go:103-109 | the text branch yields the literal up to the next brace |
| `UriTemplate.ParseTemplateLoop` | uritemplate.go:78-112 | the index loop computes the parse that the round-trip theorems are about |
| `UriTemplate.UriTemplateMatches` | uritemplate.go:40-65 | a positive answer means the parsed template has a split for the URI; a negative one with budget left means it has none |
| `SchemaMeaning.ReferenceFollowed` | middleware/validation.go:131-163 | a schema whose reference is "#/$defs/" and the name of a definition stands for that definition with one hop less |
| `SchemaMeaning.NothingFollowed` | middleware/validation.go:131-163 | any other schema, or one without a hop left, stands for itself |
| `SchemaMeaning.ResolveFollows` | middleware/validation.go:149-163 | resolution ends at the end of the chain of such references, or after exactly its depth when the chain is longer or circular |
| `SchemaMeaning.ChainTaken` | middleware/validation.go:149-163 | a chain is walked to its end, or as far as the depth reaches |
| `SchemaMeaning.ReferenceIff` | middleware/validation.go:241-301 | a value validates under a reference if and only if it meets what the definition resolves to with one hop less |
| `SchemaMeaning.ChainIff` | middleware/validation.go:241-301 | under a chain that ends within the depth, if and only if it validates under the schema at its end |
| `SchemaMeaning.RootChainIff` | middleware/validation.go:172-234 | tool input is decided by the schema up to 32 references away from the root |
| `SchemaMeaning.ResolveTwice` | middleware/validation.go:149-163 | resolving again adds the hop budgets |
| `SchemaMeaning.ValueIff` | middleware/validation.go:241-301 | for every schema, circular references included, a value validates without errors if and only if it meets every keyword of the resolved schema; the path is irrelevant |
| `SchemaMeaning.ObjectIff` | middleware/validation.go:172-234 | an object is clean exactly when all required fields are present and each entry meets its property or the rule for further ones |
| `SchemaMeaning.ArrayIff` | middleware/validation.go:470-508 | an array is clean exactly when its size is in range, its elements are unique if asked, and each meets the item schema |
| `SchemaMeaning.DuplicateIff` | middleware/validation.go:512-524 | the scan with a seen set finds no duplicate exactly when all keys differ pairwise |
| `SchemaMeaning.AlikeAccepted` | middleware/validation.go:241-301 | values equal up to field order at every level meet the same schemas |
| `SchemaMeaning.OrderDoesNotMatter` | middleware/validation.go:209-231 | the iteration order of Go maps, at whatever level, never changes whether a value validates |
| `SchemaMeaning.InputOrderDoesNotMatter` | middleware/validation.go:209-231 | the same for tool input as a whole |
| `SchemaMeaning.ReorderedIsAlike` | middleware/validation.go:209-231 | the same entries in another order are equal in that sense |
| `SchemaReports.ValueReports` | middleware/validation.go:241-301 | an error is reported if and only if the resolved schema is violated in that way, of that kind, at the place whose path the error names |
| `SchemaReports.ObjectReports` | middleware/validation.go:172-234 | the same for the fields of an object: absent required names, denied entries and what is below |
| `SchemaReports.InnerReports` | middleware/validation.go:470-524 | the same for the elements of an array: the first repetition and what is below |
| `JsonSchema.ResolveSchema` | middleware/validation.go:149-163 | the loop computes the bounded resolution |
| `JsonSchema.CheckRequired` | middleware/validation.go:177-188 | one error per absent required field, in order, all of them for absent data |
| `JsonSchema.ValidateObject` | middleware/validation.go:172-234 | the error list of the object, ending on every schema because recursion is on smaller JSON |
| `JsonSchema.ValidateFields` | middleware/validation.go:209-231 | the single pass over the data gives the concatenated errors of its entries |
| `JsonSchema.ValidateField` | middleware/validation.go:209-231 | one round adds the errors of known, extra and unusable properties |
| `JsonSchema.ValidateValue` | middleware/validation.go:241-301 | the error list of any value under any schema; an enum mismatch is conclusive |
| `JsonSchema.ValidateArray` | middleware/validation.go:470-508 | size, uniqueness and per-element errors, in that order |
| `JsonSchema.ValidateElems` | middleware/validation.go:503-506 | the element loop reports under indexed paths |
| `JsonSchema.ValidateUniqueItems` | middleware/validation.go:512-524 | only the first duplicate is reported |
| `SchemaGen.SchemaForStruct` | schema.go:47-103 | the struct schema, with the shared seen set restored on return |
| `SchemaGen.SchemaForFields` | schema.go:57-91 | the field loop yields one property per visible field and requires those that are neither optional nor pointers |
| `SchemaGen.SchemaForType` | schema.go:106-166 | the schema of any type, by case analysis, with the seen set restored; ends on self-referential types |
| `SchemaAgreement.Exact` | schema.go:106-166 | a schema generated from a type accepts exactly the values that fit the type down to the depth limit and the first repetition of a struct |
| `SchemaAgreement.StructExact` | schema.go:47-103 | the same for the fields of a struct |
| `SchemaAgreement.RootExact` | schema.go:31-44 | tool input passes the generated schema if and only if it fits the struct |
| `SchemaAgreement.EncodesFits` | schema.go:106-166 | every null-free encoding of a value of a type fits it, whatever the depth and the structs already seen |
| `SchemaAgreement.EncodingsValidate` | schema.go:31-166 | for every struct type, self-referential ones included, every null-free JSON encoding of a value validates without errors against the generated schema |
| `SchemaAgreement.RequiredIff` | schema.go:84-91 | no missing-field error exactly when all required struct fields are present |
| `SchemaAgreement.NullIsRejected` | middleware/validation.go:241-301 | null is rejected wherever the generated schema names a type, so nil pointers, slices and maps do not validate |
| `SchemaAgreement.MapSchemaDescribesValues` | schema.go:142-153 | the schema of a map describes its values by one that accepts exactly what fits the element type, left out only when everything fits or keys are not strings |
| `SchemaAgreement.MapValuesAreUnchecked` | middleware/validation.go:190-207 | every object passes a generated map schema, whatever its values; a string passes as the value of a map to integers |
| `ToolStream.StepKeepsInv` | stream.go:97-264 | every atomic step of senders, drain, cancellation and closer keeps the invariant |
| `ToolStream.RunsKeepInv` | stream.go:97-264 | so does every interleaving of them |
| `ToolStream.EveryRunIsSafe` | stream.go:97-264 | in every interleaving accepted chunks are delivered, then in hand, then buffered, in FIFO order; numbers are 1, 2, 3, ...; drain and the closer's flush never overlap; Send reports success exactly for what was enqueued, once |
| `ToolStream.ContentIsKept` | stream.go:97-125 | in every run each accepted and each delivered chunk carries exactly the content its Send was called with, and every Send result has its cause among the actions |
| `ToolStream.DrainLeaveDeliversAll` | stream.go:164-180 | when drain finds the buffer empty and stops looking, everything accepted so far has been delivered |
| `ToolStream.CloseReturnDeliversAll` | stream.go:234-264 | the same when close returns from its flush |
| `ToolStream.UnreadRun` | stream.go:216-264 | once close has returned and drain has stopped looking nothing is delivered any more, and buffered plus undecided chunks never grow |
| `ToolStream.LossBoundedByPending` | stream.go:242-247 | at most the Sends past their closed check at close's last look can ever be lost |
| `ToolStream.DeliveredForGoodIff` | stream.go:234-264 | everything accepted, then and later, is delivered if and only if no Send is past its closed check at that moment |
| `ToolStream.GiveUpDeliversIff` | stream.go:249-262 | when close gives up on a done context, everything accepted, then and later, is delivered once drain finishes if and only if no Send is past its closed check and drain had not stopped looking at a buffer that is no longer empty |
| `ToolStream.GiveUpMayLoseAChunk` | stream.go:258-262 | for every buffer size a run in which close gives up with no Send undecided and an accepted chunk is never delivered |
| `Coalescer.StepKeepsInv` | client/coalescing.go:104-257 | every critical section and channel operation keeps the invariant |
| `Coalescer.RunsKeepInv` | client/coalescing.go:104-257 | so does every interleaving |
| `Coalescer.EveryRunIsSafe` | client/coalescing.go:104-257 | in every interleaving a flight runs its function at most once and closes done at most once, live flights have distinct keys, the map stays within its limit, cancellation before completion needs a caller count that reached zero, and the count is the number of attached callers |
| `Coalescer.SameAnswer` | client/coalescing.go:219-257 | callers that leave one flight through done get the same answer, an abort exactly when the function never ran |
| `Coalescer.AnswersAreCaused` | client/coalescing.go:164-257 | in every run a caller answered by a flight gets a result if and only if the flight's function returned just that, the panic error if and only if it panicked, an abort if and only if the flight saw its cancellation |
| `Coalescer.AnswersAreForTheKey` | client/coalescing.go:104-132 | in every run a call is answered only by a flight for the key it asked for, and with its own context's error only if that context ended |
| `Coalescer.RefusedIff` | client/coalescing.go:114-120 | a call is turned away if and only if no live flight has its key and as many keys as the limit are in flight |
| `Coalescer.CleanupRemovesItself` | client/coalescing.go:170-176 | a flight's cleanup removes its own map entry and no other |
| `Coalescer.OutcomeIsFinal` | client/coalescing.go:205-214 | a stored outcome never changes in any continuation |
| `Coalescer.MayAbortIff` | client/coalescing.go:192-240 | in every state a waiting caller can be handed an abort if and only if its flight is aborted already, or is in its window and cancelled or left by a last caller on its way to cancel |
| `Coalescer.MayCancelIff` | client/coalescing.go:223-240 | the shared context can be cancelled under a waiting caller if and only if the flight is not done and cancelled already or left by such a caller |
| `Coalescer.RiskIsKnownAtTheJoin` | client/coalescing.go:104-132 | both are decided when the call joins: one that starts its own flight is never at risk, a joiner exactly if the flight was in that condition |
| `Coalescer.JoinerMaySeeAbort` | client/coalescing.go:219-240 | a run in which a caller that never left waits on an aborted flight |
| `LruSpec.AfterGood` | middleware/cache.go:333-455 | after every trace keys are distinct and within capacity |
| `LruSpec.StepIncluded` | middleware/cache.go:333-455 | every operation keeps a smaller cache included in a larger one |
| `LruSpec.Inclusion` | middleware/cache.go:333-455 | after every trace with the same clock readings the smaller cache's recency list is a subsequence of the larger one's |
| `LruSpec.InclusionHits` | middleware/cache.go:333-357 | every hit in the smaller cache is a hit with the same value in the larger |
| `LruSpec.StepFind` | middleware/cache.go:333-455 | eviction apart, a step changes one key's entry just as a reference without capacity does |
| `LruSpec.HoldsLatest` | middleware/cache.go:333-397 | what is cached for a key is the last entry set for it that was neither deleted nor found expired |
| `LruSpec.HitReturnsLatest` | middleware/cache.go:333-357 | a hit returns that entry's value, and it has not expired |
| `LruSpec.NeverSetMisses` | middleware/cache.go:333-343 | a Get of a key that was never set misses |
| `LruSpec.ExpiredMisses` | middleware/cache.go:345-369 | a Get later than the time and positive ttl of the key's last Set misses |
| `LruSpec.DeletedMisses` | middleware/cache.go:400-430 | a Get after a deletion by name or prefix since the last Set misses |
| `LruSpec.AlwaysResident` | middleware/cache.go:362-397 | a key with a latest entry stands behind newer keys only, or lost its place to a full load of them |
| `LruSpec.StaysUntilCrowdedOut` | middleware/cache.go:450-455 | a key neither deleted nor expired is present until at least capacity distinct other keys were set or hit after it |
| `LruSpec.GetAnswersLastSet` | middleware/cache.go:333-397 | a Get answers the value of the key's last Set when its ttl is not positive or has not run out, then and at every Get since, nothing deleted it, and fewer than capacity other keys were set or asked for since |
| `LruCache.Cache.constructor` | middleware/cache.go:315-329 | an empty cache; a capacity below one panics in the source |
| `LruCache.Cache.FindInMap` | middleware/cache.go:291-297 | lookup in the map and lookup in the list agree |
| `LruCache.Cache.Get` | middleware/cache.go:333-357 | hit moves to the front, stale entry is removed, miss changes nothing, and the answer is the specified one |
| `LruCache.Cache.MoveToFront` | middleware/cache.go:350-351 | the element goes first, the others keep their order |
| `LruCache.Cache.Set` | middleware/cache.go:362-397 | update in place or insert with eviction, refining the specified step; map and list stay in one-to-one agreement |
| `LruCache.Cache.UpdateInPlace` | middleware/cache.go:375-382 | the existing element gets new value and expiry and moves to the front |
| `LruCache.Cache.InsertNew` | middleware/cache.go:384-396 | the last entry leaves when full, the new one is first |
| `LruCache.Cache.PushFront` | middleware/cache.go:389-395 | the new element is in map and list |
| `LruCache.Cache.RemoveLocked` | middleware/cache.go:443-447 | exactly this element leaves map and list |
| `LruCache.Cache.EvictLocked` | middleware/cache.go:450-455 | exactly the least recently used entry leaves, if any |
| `LruCache.Cache.Delete` | middleware/cache.go:400-410 | the key's entry leaves, the rest keeps its order |
| `LruCache.Cache.CollectKeys` | middleware/cache.go:418-423 | exactly the cached keys with the prefix are collected |
| `LruCache.Cache.RemoveMatching` | middleware/cache.go:425-427 | one collected key leaves, the entries without the prefix stay as they were |
| `LruCache.Cache.DeleteByPrefix` | middleware/cache.go:414-430 | all entries with the prefix leave, no other, and they are counted |
| `CacheChain.KeyInjective` | middleware/cache.go:241-253 | cache keys of valid tool names determine tool, extra key and input |
| `CacheChain.PrefixSelectsTool` | middleware/cache.go:276-278 | the prefix "tool:" starts exactly that tool's keys |
| `CacheChain.CachedIsAnswer` | middleware/cache.go:174-190 | what is cached under a request's key is what the handler would answer |
| `CacheChain.StepFaithful` | middleware/cache.go:195-209 | every cache operation keeps all entries successful answers under their own keys |
| `CacheChain.Lookup` | middleware/cache.go:184-190 | a hit is the handler's own answer |
| `CacheChain.CachedCall` | middleware/cache.go:174-227 | the cached chain answers exactly what the uncached handler answers, errors included, and leaves the recency list that its looks and its store give |
| `CacheChain.LeftOutToolsBypass` | middleware/cache.go:179-182 | tools on the skip list, or off a non-empty only list, never touch the cache |
| `CacheChain.MissIsCached` | middleware/cache.go:195-209 | any other tool's successful answer is there for the same request after a miss, until the configured ttl has run out |
| `CacheFlights.StepKeepsInv` | middleware/cache.go:174-227 | every look, join, handler run, store, finish and invalidation of concurrent calls keeps cache, flights and callers faithful to the handler |
| `CacheFlights.RunsKeepInv` | middleware/cache.go:174-227 | so does every interleaving |
| `CacheFlights.EveryAnswerIsTheHandlers` | middleware/cache.go:174-227 | in every interleaving every call, leader or follower, hit or miss, gets exactly what the uncached handler answers to its own request |
| `CacheFlights.OneFlightPerRequest` | middleware/cache.go:193-211 | two unfinished flights never work on the same request |
| `CacheChain.InvalidateTool` | middleware/cache.go:276-278 | that tool's entries leave and no others, and they are counted |
| `ToolName.BitmapIsAllowed` | tool_validator.go:18-23 | the 256-bit map has exactly the bits of letters, digits, dot, dash and underscore |
| `ToolName.ValidateToolName` | tool_validator.go:26-44 | accepts exactly names of 1 to 128 such bytes, with the right error otherwise |
| `ToolName.NoColon` | tool_validator.go:18-44 | valid names contain no colon |
| `TokenBucket.RateLimiter.constructor` | middleware/ratelimit.go:85-108 | burst defaults to the rate rounded up and is at least one; a non-positive rate panics in the source |
| `TokenBucket.RateLimiter.Refill` | middleware/ratelimit.go:157-163 | tokens for the elapsed time, at most the burst |
| `TokenBucket.RateLimiter.Allow` | middleware/ratelimit.go:138-171 | admits exactly at a level of at least one token and updates this key's bucket only |
| `TokenBucket.TokensBelow` | middleware/ratelimit.go:138-171 | the level never exceeds the burst or what the admissions since any earlier call on the key left of the burst and the tokens gained since |
| `TokenBucket.TokensAttained` | middleware/ratelimit.go:138-171 | the level is the burst or equals one of those allowances |
| `TokenBucket.AdmittedIff` | middleware/ratelimit.go:138-171 | a call is admitted if and only if, from itself and from every earlier call on its key, the admissions plus one stay within burst + rate * elapsed |
| `TokenBucket.StretchBound` | middleware/ratelimit.go:138-171 | the same bound in token time, where one token is gained per unit |
| `TokenBucket.WindowBound` | middleware/ratelimit.go:138-171 | with a monotone clock any window of length T admits at most burst + rate * T calls of one key |
| `TokenBucket.KeysAreIndependent` | middleware/ratelimit.go:138-171 | a key's level is that of a limiter that saw only its calls |
| `ServerBreaker.CircuitBreaker.TransitionLocked` | middleware/circuitbreaker.go:419-436 | the counters a transition resets |
| `ServerBreaker.CircuitBreaker.BeforeCall` | middleware/circuitbreaker.go:320-363 | open turns half-open after the timeout, then admission and the half-open count are as specified |
| `ServerBreaker.CircuitBreaker.AfterCall` | middleware/circuitbreaker.go:367-415 | the new state as a function of the admitted state, the outcome and the current state |
| `ServerBreaker.RunsKeepInv` | middleware/circuitbreaker.go:320-436 | every run of admissions and completions keeps the invariant |
| `ServerBreaker.EveryRunIsSafe` | middleware/circuitbreaker.go:320-436 | in every run the failure counter is the failures of calls admitted while closed since the last success of such a call or closing, below the threshold while closed; the half-open count stays within its maximum, and it equals the probes in flight if and only if no older probe completed in this episode |
| `ServerBreaker.AdmittedIff` | middleware/circuitbreaker.go:320-363 | in every run a call is let through if and only if the circuit is closed, open with the timeout passed since the last failure that counts for it, or half-open with room |
| `ServerBreaker.EveryMove` | middleware/circuitbreaker.go:320-436 | the state after every event of every run, from the counted failures, the outcome and the state the call was admitted under |
| `ServerBreaker.OpenLastsTheTimeout` | middleware/circuitbreaker.go:355-363 | open is left only for half-open, and only after the timeout since opening and since the last recorded failure |
| `ServerBreaker.ClosesIff` | middleware/circuitbreaker.go:383-404 | in every run an event closes the circuit if and only if it is a probe's success in half-open that completes the threshold, older successes counted, with one probe in flight more than there were older successes |
| `ServerBreaker.ClosingNeedsSuccesses` | middleware/circuitbreaker.go:383-404 | closing leaves as many probes in flight as older probes took part, none if and only if none did, and then the threshold was met by the episode's own probes |
| `ServerBreaker.StaleSuccessOveradmits` | middleware/circuitbreaker.go:383-389 | in every full episode an older probe's success either lets more probes in flight than the maximum, or, with a maximum of one and the threshold met, closes the circuit over a probe in flight |
| `ServerBreaker.StaleStateIsReachable` | middleware/circuitbreaker.go:320-415 | for every configuration a run into a full episode with an older probe out |
| `ServerBreaker.OveradmissionIff` | middleware/circuitbreaker.go:320-436 | some run has more probes of one episode in flight than the maximum if and only if the maximum is at least two or more than one success is needed to close, as by default |
| `ClientBreaker.CircuitBreaker.constructor` | client/circuitbreaker.go:149-172 | closed, with defaults for non-positive options |
| `ClientBreaker.CircuitBreaker.BeforeRequest` | client/circuitbreaker.go:268-301 | admission and the new state as specified |
| `ClientBreaker.CircuitBreaker.AfterRequest` | client/circuitbreaker.go:307-370 | the new state as a function of the outcome and the current state |
| `ClientBreaker.RunsKeepInv` | client/circuitbreaker.go:268-370 | every run keeps the invariant |
| `ClientBreaker.EveryRunIsSafe` | client/circuitbreaker.go:268-370 | in every run the failure counter is the tripping failures since the last success or close; closed if and only if it is below the maximum, otherwise it equals it; an episode admits at most its maximum in total |
| `ClientBreaker.AdmittedIff` | client/circuitbreaker.go:268-301 | in every run a request is let through if and only if the circuit is closed, open with the timeout passed since the last tripping failure among the events, or half-open with fewer let through than its maximum |
| `ClientBreaker.EveryMove` | client/circuitbreaker.go:268-370 | the state after every event of every run, from the counted trips, the last trip's time and the outcome |
| `ClientBreaker.TrappedForever` | client/circuitbreaker.go:316-326 | with no slot and nothing in flight a half-open circuit never changes again |
| `ClientBreaker.RecoversIff` | client/circuitbreaker.go:316-326 | a half-open circuit can still close if and only if a request is in flight or a slot is free |
| `ClientBreaker.TrapIsReachable` | client/circuitbreaker.go:316-326 | for every configuration a run into a half-open circuit that cannot close |
| `ByteStrings.LessIrreflexive` | session_tools.go:482-505 | Go's string order is irreflexive |
| `ByteStrings.LessTransitive` | session_tools.go:482-505 | Go's string order is transitive |
| `ByteStrings.LessTotal` | session_tools.go:482-505 | Go's string order is total |
| `ToolMerge.MergeSorted` | session_tools.go:482-505 | merging strictly sorted lists gives a strictly sorted list |
| `ToolMerge.MergeVisible` | session_tools.go:482-505 | the merge holds exactly the session's tools and the global tools that none of them shadows |
| `ToolMerge.FilteredFacts` | dispatch.go:424-431 | filtering keeps exactly the allowed tools and strict order |
| `ToolMerge.MergeSessionTools` | session_tools.go:482-505 | the two-index loop computes the merge |
| `ToolMerge.MergeSessionToolsFiltered` | session_tools.go:510-547 | the one-pass filtering merge equals filter after merge |
| `ToolMerge.FilterTools` | dispatch.go:424-431 | the filtering loop computes the filter |
| `ToolMerge.ListIsUnique` | server.go:655-677 | a registry has only one strictly sorted list, so a warm cache and a rebuilt one agree |
| `ToolMerge.BuildSorted` | session_tools.go:240-277 | whatever the map's iteration order, the result is the registry's sorted list |
| `ClosedRing.CloseKeepsRing` | session_tools.go:195-221 | closing an id keeps ring entries distinct, adds the id and forgets only the oldest one |
| `ClosedRing.RingAfter` | session_tools.go:203-220 | over any closings an id keeps its slot while each new one brings the write position one step closer and known ones change nothing |
| `ClosedRing.EvictedAfter` | session_tools.go:215-220 | after as many new closings as slots the id is forgotten, whatever known ids were closed in between |
| `ClosedRing.KeptUntilEvicted` | session_tools.go:195-221 | over any later closings a closed id stays closed while fewer of them than slots are new at their turn, and the one that completes the round evicts it |
| `ToolServer.AddAllFacts` | server.go:603-640 | an accepted batch is registered under its names, and nothing else changes |
| `ToolServer.ToolRegistry.CheckTool` | server.go:551-560 | accepts exactly tools with a valid name and a handler |
| `ToolServer.ToolRegistry.RegisterTool` | server.go:551-574 | registers exactly valid new names, changes nothing otherwise, keeps registry and cached list consistent |
| `ToolServer.ToolRegistry.RemoveTool` | server.go:580-597 | removes exactly this name, reporting whether it was there |
| `ToolServer.ToolRegistry.CheckBatch` | server.go:608-623 | accepts exactly valid tools of pairwise distinct names |
| `ToolServer.ToolRegistry.RegisterTools` | server.go:603-640 | all or nothing |
| `ToolServer.ToolRegistry.GetSortedTools` | server.go:655-677 | the registry's sorted list, cached or rebuilt |
| `ToolServer.AddKeepsIff` | session_tools.go:112-147 | one more tool of a new name keeps every limit exactly for an open session with room in a registry with room |
| `ToolServer.SessionToolRegistry.CheckAdd` | session_tools.go:98-147 | accepts exactly the additions of a new name after which all limits hold and no closed session is back; each error is returned exactly in its own situation |
| `ToolServer.SessionToolRegistry.Add` | session_tools.go:98-153 | adds exactly then, to this session only, and changes nothing otherwise; every live session is named, not closed and holds a tool |
| `ToolServer.SessionToolRegistry.Put` | session_tools.go:127-153 | replacing one session's tools keeps limits and other sessions |
| `ToolServer.SessionToolRegistry.Remove` | session_tools.go:157-186 | removes one tool, and the session with its last tool |
| `ToolServer.SessionToolRegistry.RemoveAll` | session_tools.go:195-221 | drops the session and closes its id; the closed set stays exactly the non-empty ring entries, disjoint from live sessions |
| `ToolServer.SessionToolRegistry.RecordClosed` | session_tools.go:200-220 | a known id changes nothing, a new one takes the oldest slot |
| `ToolServer.SessionToolRegistry.EnsureRing` | session_tools.go:203-207 | lazy initialization does not change the closed set |
| `ToolServer.SessionToolRegistry.MarkClosed` | session_tools.go:208-220 | the in-place ring write refines the specified closing |
| `ToolServer.SessionToolRegistry.Lookup` | session_tools.go:225-236 | the session's tool of that name, if any |
| `ToolServer.SessionToolRegistry.SortedTools` | session_tools.go:240-277 | the session's sorted list, cached or rebuilt; no session's tools change |
| `ToolServer.CallLookup` | server.go:685-705 | session tool before global tool, hidden when the tenant filter denies it |
| `ToolServer.ListedIffResolved` | session_tools.go:482-547 | a tool is in the filtered merge if and only if a call by its name resolves to that very tool |
| `ToolServer.ToolsList` | dispatch.go:416-444 | tools/list is strictly sorted, equals filter after merge, and lists exactly what calls by name from the same session and tenant resolve to, caches warm or not |
| `Decimal.ItoaValue` | dispatch.go:745-750 | decimal digits denote the number they were made from |
| `Decimal.AtoiItoa` | dispatch.go:719-725 | the cursor round trip below 2^63 |
| `Pagination.ServeStep` | dispatch.go:711-751 | one answer is the next stretch of the list, with an empty cursor exactly at its end |
| `Pagination.ServeCovers` | dispatch.go:354-396 | the same as the iterator sees it, with the pages still needed |
| `Pagination.PagesAreCeil` | dispatch.go:711-751 | the page count is the rounded-up quotient, one for an empty list |
| `Pagination.AnswerIs` | dispatch.go:354-396 | every answer from the request alone: rejected cursors, the whole list without cursor and limit, otherwise the stretch of min(limit, 1000) items, 50 without a positive limit, and no more than there are |
| `Pagination.CrawlRest` | dispatch.go:354-396 | from any cursor the server handed out, the rest of the list follows |
| `Pagination.CrawlIsComplete` | dispatch.go:354-396 | following cursors over an unchanged list returns every item exactly once in order and stops after that many pages |
| `Pagination.Iterator.constructor` | client/pagination.go:46-58 | nothing fetched, no error |
| `Pagination.Iterator.Request` | client/pagination.go:79-87 | a request is rejected exactly for a bad first cursor, otherwise it covers the next stretch |
| `Pagination.Iterator.Accept` | client/pagination.go:89-97 | a stored page is the stretch of the list at the iterator's position, and the iterator is done exactly at its end |
| `Pagination.Iterator.Fetch` | client/pagination.go:78-97 | fetching never moves the position, and fails exactly when the request is lost or the server rejects the first cursor |
| `Pagination.Iterator.Advance` | client/pagination.go:61-102 | end of list, page limit, lost request and server error are reported exactly when they apply |
| `Pagination.Iterator.Next` | client/pagination.go:61-112 | returns the item at the position and moves by one; errors are sticky; Eof follows whenever HasMore is false, and after true only on a first call with nothing to list |
| `Pagination.Iterator.All` | client/pagination.go:116-134 | always returns the next stretch of the server's list, without error if and only if the pages fit MaxPages, no request still needed is lost and fewer than MaxItems items remain, and then all of them |
| `Failover.LeastConnectionsNext` | client/loadbalancer.go:83-101 | the first backend with the fewest connections |
| `Failover.KeptFacts` | client/loadbalancer.go:553-564 | exactly the healthy backends are kept, and distinct ids stay distinct |
| `Failover.HealthyBackends` | client/loadbalancer.go:553-564 | the loop keeps them in order |
| `Failover.ExecuteWithFailover` | client/loadbalancer.go:567-691 | runs at most MaxRetries requests, as many as backends for 0 and the safety limit for -1, never two on one backend, reports truthfully and restores the counters |
| `Failover.RunsOncePerBackend` | client/loadbalancer.go:586-674 | no backend twice and within the limit, whatever health, outcomes, cancellation and strategy do |
| `Failover.AnswerIsTruthful` | client/loadbalancer.go:586-674 | success and fatal errors are those of the last backend tried, every other one was healthy when tried and failed retryably |
| `Failover.CountersRestored` | client/loadbalancer.go:640-647 | whatever happens, the caller leaves every connection counter as it was |
| `Failover.RetryLoop` | client/loadbalancer.go:573-674 | the loop with its tried set computes the rounds the theorems are about |
| `Failover.RanArePicked` | client/loadbalancer.go:39-47 | a round-robin loop that ends all-failed ran on exactly the backends its counter pointed at |
| `Failover.RoundRobinTriesAllIff` | client/loadbalancer.go:586-674 | with fixed health and distinct ids, all-failed comes after trying every healthy backend if and only if the configured retries allow as many requests as there are backends, plus what a wrapping counter wastes |
| `Failover.WrapSkipsABackend` | client/loadbalancer.go:45-46 | three backends, three attempts and the last counter value leave one backend untried |
| `Failover.LeastConnectionsRetriesOne` | client/loadbalancer.go:83-101 | for the only caller its own restored counters make every attempt pick the same backend, so an all-failed request ran on that one only |
| `Failover.LeastConnectionsTriesAllIff` | client/loadbalancer.go:619-647 | for the only caller all-failed comes after trying every healthy backend if and only if there is one and the configured retries allow a request |

## Left out

- transport/, cmd/, examples/, mcptest/, clienttest/ and client/repl.go: HTTP, sockets, stdio and harness code.
- JSON text, base64, SHA-256 and regular expressions: values, hashes and pattern matching are parameters; the hash is assumed free of collisions on the inputs that occur.
- Telemetry, logging, audit, cost, OAuth and auth verifiers: thin wrappers or callbacks.
- pending.go and request correlation in client/client.go; async.go, task.go, middleware.go, compose.go, middleware/rbac.go, middleware/sandbox.go, notification_handler.go: short lifecycles and single checks that would only add easy members.
- Load-balancer health thresholds, backoff and jitter; metrics and callbacks of the failover loop.
- Real clocks and float rounding: integer or real clock readings are parameters. Panics in user callbacks are outside the model.
- Resource and prompt registries, findTemplateForURI, notifications, the shadow callback and the tenant resolver: a tenant filter is a predicate on tools.
- The resource, prompt, root and task iterators: copies of the tools iterator.
- ToolServer.SessionToolRegistry.Add: the methods of both registries are whole critical sections; locks are not modelled.
- LruCache.Cache.Get: the standard library's linked list is a sequence of element references, so pointer surgery inside it is not modelled.
- CacheChain.CachedCall: one call at a time on the heap cache; concurrent calls are the step relation of CacheFlights, which works on the recency list as a value. Storage errors of other backends are not modelled.
- ToolStream.EveryRunIsSafe: one closer, as dispatch.go:488 has it; the closer's last look at the empty buffer and its return are one step, since nothing observes the return.
- Coalescer.EveryRunIsSafe: keys are opaque, the key size limit and its string form are not modelled.
- SchemaGen.SchemaForType: struct fields come with their JSON name and options; splitting the json tag, descriptions, embedded fields and custom marshalers are not modelled. With duplicate JSON names the model takes the first, a Go map the last.
- JsonSchema.ValidateValue: a keyword whose value has an unusable type counts as absent; error texts are reduced to path and kind, and with equal errors only their presence is stated by ValueReports; the compiled-pattern cache is not modelled.
- Pagination.Iterator.All: the server's list does not change during the crawl.
- UriTemplate.ParseTemplateLoop: Unicode letter, digit and space classes are parameters of which only disjointness is assumed, and that '+' is no letter or digit.
