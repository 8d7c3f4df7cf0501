# mcp-beaver: a verified model of the guarded MCP runtime

mcp-beaver serves MCP tools either from a guardfile (each grant becomes a tool that calls a REST
upstream) or as a proxy over one upstream MCP server. This project models the parts of
`internal/mcpserver` that hold state, do arithmetic or rewrite text, and proves what they promise over
whole runs, whole chains and whole families of inputs.

| file | what it models |
|---|---|
| `Upstream.dfy`, `SessionOwnership.dfy`, `ProbedSessions.dfy`, `ProxiedCall.dfy` | the proxy's session and drift latch: one class whose methods are the critical sections, every interleaving of calls, reconnects and `Close` over them, and what one undisturbed call does |
| `TokenBucket.dfy`, `RateBounds.dfy`, `BucketWait.dfy` | the store-side token bucket script, key expiry, which runs it admits, and the blocking wait |
| `ResponseCache.dfy`, `CachedHandler.dfy` | the bounded, expiring cache and the handler it wraps |
| `Inherit.dfy`, `Controls.dfy`, `Gates.dfy`, `ServerBuild.dfy` | the `inherit` walk, composition of sibling nodes, the controls a build accepts, and the three together |
| `JsonValues.dfy`, `Pipeline.dfy`, `InterleavedCalls.dfy`, `ServedCalls.dfy`, `ProxyPins.dfy` | the handler chain around one tool, in spec mode, with any number of calls in flight, under what a guardfile states, and in proxy mode |
| `HeaderTemplate.dfy`, `UpstreamAuth.dfy`, `KdlQuote.dfy` | upstream header templates, and the guardfile block they are written to and read from |
| `EventStream.dfy`, `SecretPaths.dfy`, `Coverage.dfy` | splitting an event stream, redaction, array counts |
| `Text.dfy`, `Wrappers.dfy` | trimming and cutting strings; `Option` and `Result` |

A method carries the source's loop or in-place update and is proved equal to a function (or, where map
iteration order leaves a choice, inside a relation); the lemmas are about that function or relation.

## What turned out not to hold

Each of these is a lemma below, with the exact condition under which the code does what is wanted.

- `reconnect` assigns the session slot without looking at it (upstream.go:182). A session is lost exactly
  when that assignment lands on an occupied slot, which needs two overlapping reconnects, and it stays
  open for good.
- A call's drift check and its session lookup are two critical sections (upstream.go:210-213), so a CallTool
  can go over a session its own call never listed, even one nobody has. It does exactly when the slot the
  call reads holds another session than the one it listed, which takes a second call in flight.
- The visited set is shared across siblings (compose.go:86), so a diamond with no cycle in it is refused
  as a cycle.
- The comment on `dropVacantControls` (compose.go:225-226) says a control the child states itself on a
  tool it does not mint stays an error. It does only if no ancestor states any control, of any of six
  kinds, on that name. The model follows the code.
- Explicit `null` arguments on a pinned proxy tool leave no map to write to (pin.go:146-166): the write
  panics exactly when the first pin of the tool resolves.
- A header whose source address holds an opening brace parses from the flag and renders to a file that
  is then refused (upstreamauth.go:101, upstreamguardfile.go:214).
- Key expiry can be observed exactly when the pods' clocks, measured against the store's, spread by more
  than the ttl less one window (ratelimitredis.go:45-56, 97-110).
- `ValidatePins` compares joined names (pin.go:90-94), so it can refuse pins on different arguments when a
  tool name holds a dot. With no dot in a tool name and no blank in a provider it decides exactly.
- A registered prefix that can be laid over part of the mask `/<redacted>` can survive redaction
  (secretpath.go:56-58). One that cannot never does, and no escaped URL path registers one that can.
- Array counts depend on map iteration order exactly when two arrays of different lengths share a label
  (coverage.go:160-175), which a dot inside a key makes possible, and an empty key too.

## Model

| member | source | states |
|---|---|---|
| Upstream.SnapshotIsTheAdvertisedContract | internal/mcpserver/upstream.go:295-324 | startup succeeds exactly when every allowlisted tool is advertised and serialises; the baseline is then each one's advertised fingerprint and the selected tools follow allowlist order |
| Upstream.ProxyBackend.TakeSnapshot | internal/mcpserver/upstream.go:304-322 | the snapshot loop publishes both or neither |
| Upstream.ProxyBackend.CheckFresh | internal/mcpserver/upstream.go:326-360 | the drift check, branch by branch, over a listing or a failed one |
| Upstream.ProxyBackend.TakeSession | internal/mcpserver/upstream.go:159-166 | first critical section of a reconnect |
| Upstream.ProxyBackend.InstallSession | internal/mcpserver/upstream.go:176-183 | second critical section: unconditional assignment unless closed |
| Upstream.ProxyBackend.Close | internal/mcpserver/upstream.go:186-196 | closing empties the slot and is final |
| Upstream.ProxyBackend.FindDeclared | internal/mcpserver/upstream.go:244-253 | declared arguments come from the startup snapshot's first match |
| Upstream.LocalStepFits | internal/mcpserver/upstream.go:208-239 | any one section of a call, from any backend state, keeps the call inside one dial, one CallTool, a fresh listing before it, and silence once drift or `Close` preceded it |
| Upstream.NextKeeps | internal/mcpserver/upstream.go:158-278 | every step of the whole system keeps those facts for every call in flight |
| Upstream.EveryInterleavingKeeps | internal/mcpserver/upstream.go:158-360 | in every reachable state of every interleaving: contract intact, the drift latch set for good exactly once a listing showed another fingerprint, at most one dial and one CallTool per call, each CallTool after a listing of its own call that showed the startup fingerprint, nothing from a call that arrived after drift or after `Close`, and a closed backend without a session |
| SessionOwnership.StepAccounts | internal/mcpserver/upstream.go:158-196 | every step accounts for every session dialled: the lost ones grow by exactly the session an install displaces |
| SessionOwnership.LostForGood | internal/mcpserver/upstream.go:158-196 | a lost session is never current, held or closed again |
| SessionOwnership.NothingLostIff | internal/mcpserver/upstream.go:176-183 | in any interleaving no session is lost exactly when no install met an occupied slot |
| SessionOwnership.SerialReconnectsLoseNothing | internal/mcpserver/upstream.go:158-196 | without overlapping reconnects every session is current, held by the reconnect, or closed; after `Close` and quiescence all are closed |
| SessionOwnership.OverlapLosesASession | internal/mcpserver/upstream.go:171-183 | from any world in which two calls reached their dial, both connecting loses the first one's session |
| SessionOwnership.OverlapHappens | internal/mcpserver/upstream.go:263-272 | such a world is reachable from startup |
| ProbedSessions.CallIsProbedIff | internal/mcpserver/upstream.go:208-233 | in any interleaving a CallTool goes over a session its own call had listed and found fresh exactly when the call did not read a slot that had been swapped since |
| ProbedSessions.AllCallsProbedIff | internal/mcpserver/upstream.go:208-233 | every CallTool of an execution was probed exactly when no call that read a swapped slot has sent one |
| ProbedSessions.SerialCallsUseProbedSessions | internal/mcpserver/upstream.go:208-233 | calls that do not overlap never read a swapped slot, so each CallTool goes over a session its own call listed and found fresh |
| ProbedSessions.ACallCanGoUnprobed | internal/mcpserver/upstream.go:210-233 | a run in which a CallTool goes over a session nobody ever listed |
| ProxiedCall.UndisturbedCall | internal/mcpserver/upstream.go:208-278 | from any world, a call that runs undisturbed does what a decision table says: nothing on a drifted backend; else a listing, then a CallTool on the listed session if the tool is fresh and the arguments are declared, the drift latched if it shows another fingerprint, and otherwise one reconnect and the same again |
| TokenBucket.NewBucketOutlivesItsWindow | internal/mcpserver/ratelimitredis.go:97-110 | the capacity is the configured count, refill times window is that again, and the ttl is the least whole number of seconds that covers two windows and a minute |
| TokenBucket.BucketKey.Run | internal/mcpserver/ratelimitredis.go:39-70 | the script's assignments compute the specified transition, and stamp the expiry |
| TokenBucket.ScriptConserves | internal/mcpserver/ratelimitredis.go:53-65 | one run keeps tokens within bounds, never moves the clock back, spends one token or none, and a denied run's retry is exactly the time to one token |
| TokenBucket.TokensConserved | internal/mcpserver/ratelimitredis.go:39-70 | over any runs by any pods with any clocks: tokens left plus grants equal tokens at the start plus refill over the advance of `ts`, less what spilled |
| TokenBucket.GrantsBoundedBetween | internal/mcpserver/ratelimitredis.go:31-70 | between any two points of any run, the start of a key's life included, grants are at most a full bucket plus the refill over the advance of `ts` |
| RateBounds.TokensAreTheLeastDue | internal/mcpserver/ratelimitredis.go:39-70 | over any runs with any clocks, what is left is the most that keeps every stretch of runs within a full bucket and the refill since: nothing is lost but to a full bucket |
| RateBounds.GrantedIff | internal/mcpserver/ratelimitredis.go:53-65 | after any runs, a run is granted exactly when one more grant keeps every stretch that ends with it within its due |
| RateBounds.RateIsExact | internal/mcpserver/ratelimitredis.go:97-110 | for every accepted rate, from a bucket's first use, a call is granted exactly when count calls per window allow one more over every stretch that ends with it, a full burst at its start included |
| RateBounds.RetryIsExact | internal/mcpserver/ratelimitredis.go:60-65 | a denied run's retry is exactly how long it takes until a run is granted |
| RateBounds.BurstIsGranted | internal/mcpserver/ratelimitredis.go:53-65 | calls that arrive together are all granted while whole tokens last |
| TokenBucket.VanishingUnseenIff | internal/mcpserver/ratelimitredis.go:45-56 | losing the key goes unnoticed by a run exactly when the bucket was full again and the clock does not lag |
| TokenBucket.BucketKey.Serve | internal/mcpserver/ratelimitredis.go:45-68 | a store that drops each key the instant its expiry passes gives the specified replies over any run |
| TokenBucket.ExpiryUnobservable | internal/mcpserver/ratelimitredis.go:18-25 | while the clocks' spread leaves a full refill inside the ttl, an expiring key and an immortal one give identical decisions and retries over whole runs |
| TokenBucket.ExpiryUnobservableIff | internal/mcpserver/ratelimitredis.go:97-110 | for every accepted rate and every drift, no run from a bucket's first use can tell exactly when the spread is at most the ttl less one window; a store that expires keys punctually decides the same |
| TokenBucket.WideSpreadSeesExpiry | internal/mcpserver/ratelimitredis.go:53-68 | with a wider spread a bucket drained through the fastest clock and asked through the slowest, its key having lived out its ttl, grants what an immortal one denies |
| BucketWait.RedisBucket.Wait | internal/mcpserver/ratelimitredis.go:134-188 | the charge-and-sleep loop, under other pods' runs, late timers, a passing deadline and an unreachable store, computes the specified log and leaves the specified key |
| BucketWait.WaitIsSound | internal/mcpserver/ratelimitredis.go:134-188 | under any contention: granted exactly on a last allowed run after denied ones only, refused on a projected refill past the deadline, expired when an attempt starts past it; no run is charged and no grant made past the deadline, no sleep is due past it or longer than a poll |
| BucketWait.WaitFailsFor | internal/mcpserver/ratelimitredis.go:134-188 | a store that answers never leaves a wait unreachable, and a wait with no late attempt never expires |
| BucketWait.WaitIsPaced | internal/mcpserver/ratelimitredis.go:172-188 | a wait sleeps off each denied run for its own retry, or one second of a longer one, and sleeps for nothing else |
| BucketWait.WaitIsServed | internal/mcpserver/ratelimitredis.go:134-188 | each run of a wait starts when the sleep before it ends and gets the reply the script gives after everything that landed on the key until then, the other pods' runs and its own; the key it leaves is what all of that makes |
| BucketWait.LoneWait | internal/mcpserver/ratelimitredis.go:134-188 | alone and in exact time the wait is granted at the instant one token is there, having slept until then, and refused exactly when that instant is past the deadline; without lag it takes ceil of the first retry plus one runs |
| ResponseCache.Cache.Get | internal/mcpserver/cache.go:152-164 | a live entry hits, an expired one is deleted and misses |
| ResponseCache.Cache.Put | internal/mcpserver/cache.go:166-187 | purge, then at most one eviction of a soonest-expiring entry, whichever the map yields; the loop ends and the bound holds |
| ResponseCache.Cache.FindSoonest | internal/mcpserver/cache.go:178-183 | the scan finds a soonest entry, the zero time standing for none found |
| ResponseCache.HistoryBounded | internal/mcpserver/cache.go:152-187 | over every history the map stays within 256 entries and a put leaves its key with a full window |
| ResponseCache.ExpiryIsPutTime | internal/mcpserver/cache.go:166-187 | whatever the history, every entry is the answer of an earlier put and expires one window after it |
| ResponseCache.LostOnlyAfter255Others | internal/mcpserver/cache.go:166-187 | with increasing put times an entry inside its window goes only after 255 other keys were put |
| ResponseCache.HitIsLastPut | internal/mcpserver/cache.go:152-187 | over every history, a get that hits returns the last put of its key, made less than a window before |
| ResponseCache.LastPutIsHit | internal/mcpserver/cache.go:152-187 | and with increasing put times, a get within a window of the last put of its key returns that put's answer unless 255 other keys were put in between |
| ResponseCache.PutLeavesTheLive | internal/mcpserver/cache.go:166-187 | a put leaves nothing expired, every live entry while fewer than 256 are live, and else all but one that expires no later than the rest |
| ResponseCache.RefreshingAPresentKeyEvicts | internal/mcpserver/cache.go:177-186 | 255 is reached: re-putting a present key on a full map still evicts |
| CachedHandler.SameKeyIff | internal/mcpserver/cache.go:200-213 | two calls share a key exactly when their arguments decode to one value, absent ones counting as the empty object |
| CachedHandler.CachedTool.Lookup | internal/mcpserver/cache.go:227-235 | a call without a key bypasses the cache, any other consults it |
| CachedHandler.CachedTool.Store | internal/mcpserver/cache.go:236-241 | only a success is stored, under the instant its call started |
| CachedHandler.CachedAnswersAreFresh | internal/mcpserver/cache.go:223-243 | under every interleaving each answer is the call's own or one given to its key by a call that started less than a window earlier |
| CachedHandler.ForwardedOnceUnlessHit | internal/mcpserver/cache.go:223-243 | over any sequence of actions each call runs the wrapped handler exactly once, or never when a hit answered it |
| CachedHandler.RepeatIsAnswered | internal/mcpserver/cache.go:223-243 | under every interleaving, a call inside the window of the last answer stored under its key is answered with it and not forwarded, unless 255 other keys were stored since |
| CachedHandler.StaleIsForwarded | internal/mcpserver/cache.go:223-243 | a call with no answer under its key younger than a window is forwarded |
| CachedHandler.CachedRefinesPlain | internal/mcpserver/cache.go:223-243 | over a handler that depends on the key alone, the cached handler returns what the plain one does |
| Inherit.CollectInherited | internal/mcpserver/compose.go:64-101 | the recursion over a shared visited set computes the specified chain, and ends by marking files, not by the depth bound |
| Inherit.InheritedSourcesIff | internal/mcpserver/compose.go:54-101 | over any graph, composition succeeds exactly when the unfolding reads, parses, stays within depth 16 and reaches each path once; the chain is then that unfolding |
| Inherit.ChainIsTopological | internal/mcpserver/compose.go:46-48 | no file twice, every file after all it inherits, the child last |
| Inherit.DiamondIsRefused | internal/mcpserver/compose.go:86-89 | any diamond is refused, though either side alone composes |
| Controls.PruneSingletons | internal/mcpserver/compose.go:158-175 | the two loops keep exactly the specified nodes, in order |
| Controls.ComposedNodes | internal/mcpserver/compose.go:135-175 | every file's nodes compose, except that a singleton survives from exactly the nearest file that states it |
| Controls.ParseKeyed | internal/mcpserver/confirm.go:43-73 | the loop over composed nodes shared by `confirm`, `cache` and `reject-empty` |
| Controls.KeyedIff | internal/mcpserver/confirm.go:38-74 | parsing succeeds exactly when every node is well formed and no tool is named twice, and then holds each tool with its own node's reading |
| Controls.ConfirmReadsIff | internal/mcpserver/confirm.go:58-69 | a `confirm` reads as the message it states, alone and non-empty, or as a prompt that names the tool |
| Controls.CacheReadsIff | internal/mcpserver/cache.go:66-84 | a `cache` reads as the ttl it states, alone, when it is positive and at most a day |
| Gates.FieldReadsIff | internal/mcpserver/rejectemptyarg.go:36-76 | a guarded field reads as the one stated, alone, trimmed and non-empty |
| Gates.WithheldReadsIff | internal/mcpserver/withhold.go:67-127 | a `withhold` reads as a stub exactly when it names one verb, gives one reason and at most one alternative, and states nothing else |
| Gates.EmptyArgumentsExact | internal/mcpserver/rejectemptyarg.go:36-76 | the guarded fields of a tool are exactly the stated ones |
| Gates.WithheldExact | internal/mcpserver/withhold.go:67-127 | every `withhold` node yields its stub, with a reason, and there are no others |
| Gates.InheritedExactly | internal/mcpserver/compose.go:199-215 | a name counts as an ancestor's exactly when a file before the child states one of the six kinds of control on it |
| Gates.ControlMap.DropVacantControls | internal/mcpserver/compose.go:227-238 | deletes exactly the names an ancestor controls and the child does not mint, and reports them |
| Gates.NoGateIsLost | internal/mcpserver/server.go:106-225 | in every build that succeeds, each control any file states on a minted tool is in force as stated, and each withheld verb has its stub and no grant |
| Gates.NoGateFromNowhere | internal/mcpserver/server.go:106-225 | each control a built server holds was stated, with just that reading, by a file of its chain |
| Gates.BuildsIff | internal/mcpserver/server.go:106-225 | a chain builds exactly when every control reads, none is stated twice, and those in force are aimed at tools that are served, uncached when destructive or confirmed, with declared fields and granted alternatives |
| Gates.ConfirmsExactly | internal/mcpserver/server.go:146-150 | the exact set of confirmations a built server holds |
| Gates.NeverLessGated | internal/mcpserver/compose.go:49-53 | a child keeps every gate of every tier below it on each tool it mints, and every withheld verb |
| Gates.ConfirmsAcceptedIff | internal/mcpserver/confirm.go:79-95 | which confirmations validation lets through after vacated ones are dropped |
| Gates.ChildsOwnTypoBuilds | internal/mcpserver/compose.go:217-238 | a child's own confirm on an unminted tool is refused alone, and dropped in silence behind any other ancestor control |
| ServerBuild.ChainHoldsIff | internal/mcpserver/compose.go:64-101 | the chain holds exactly the guardfile's own nodes, in its last place, and those of every file it inherits, however remotely |
| ServerBuild.StatedGatesHold | internal/mcpserver/server.go:82-225 | whatever the guardfile states about a tool it mints, itself or through any file it inherits, is in force as stated in the server that is built |
| ServerBuild.GatesInForceAreStated | internal/mcpserver/server.go:82-225 | and each control in force stands in the guardfile or in a file it inherits |
| ServerBuild.ServerBuildsIff | internal/mcpserver/server.go:82-225 | a guardfile builds exactly when its inheritance composes and its controls read and are aimed |
| JsonValues.IsEmptyResult | internal/mcpserver/rejectempty.go:97-127 | the scan that stops at the first content with something in it |
| JsonValues.EnvelopeEmptyIff | internal/mcpserver/rejectempty.go:143-178 | an enveloped answer is empty exactly when it is null, white space, or an empty container |
| JsonValues.EmptyJsonIff | internal/mcpserver/rejectempty.go:165-178 | which decoded values are empty |
| JsonValues.UnstructuredEmptyIff | internal/mcpserver/rejectempty.go:97-127 | which answers without a structured part are empty |
| JsonValues.UnwrapsIff | internal/mcpserver/rejectempty.go:143-160 | only an object of exactly `coverage` and `result` is unwrapped |
| Pipeline.FindBlankArgument | internal/mcpserver/rejectemptyarg.go:142-163 | the loop over guarded fields finds a blank one exactly when some guarded field is present and empty |
| Pipeline.CallIsDisciplined | internal/mcpserver/server.go:261-289 | one call: each request follows exactly one successful charge and the accept its gate asks for; a declined call, a hit and a blank guarded field do nothing outside; the cache stays clean |
| Pipeline.ChainOutcome | internal/mcpserver/server.go:261-289 | every call of an accepted tool returns and does outside what a table of checks in order decides; an answer comes back as the upstream gave it, and a request that fails or is never sent is an error |
| Pipeline.SharedKeyIff | internal/mcpserver/cache.go:200-213 | a call has a key exactly when its arguments decode, and two calls share one exactly when they decode to one value |
| Pipeline.AnswerIsKept | internal/mcpserver/cache.go:236-241 | a success on a cached tool is kept for the window that began with its call |
| Pipeline.RepeatIsFree | internal/mcpserver/cache.go:223-243 | the next call with the same arguments inside that window gets the same result and does nothing outside |
| ServedCalls.ToolIsServedAsStated | internal/mcpserver/server.go:82-289 | every tool a guardfile mints is served under just the confirm, cache window, empty-answer refusal and guarded fields that the guardfile, or a file it inherits however remotely, states about it |
| ServedCalls.StatedConfirmBinds | internal/mcpserver/server.go:261-289 | a `confirm` anywhere in those files: until the client accepts, a call prompts with that message or is an error, and does nothing else |
| ServedCalls.StatedFieldBinds | internal/mcpserver/server.go:261-289 | a `reject-empty-argument` anywhere in them: a call that leaves the field blank is refused and does nothing |
| ServedCalls.StatedRejectBinds | internal/mcpserver/server.go:261-289 | a `reject-empty` anywhere in them: no empty answer comes back |
| ServedCalls.StatedCacheBinds | internal/mcpserver/server.go:261-289 | a `cache` anywhere in them: inside that window a repeated call gets the first answer and does nothing outside |
| Pipeline.EveryCallIsDisciplined | internal/mcpserver/server.go:261-289 | the same at every point of every call sequence of every accepted configuration, with no error, prompt or refused empty answer ever cached |
| Pipeline.RequestsArePaidFor | internal/mcpserver/ratelimit.go:194-204 | over every call sequence a metered tool sends no more requests than it was charged for, and no tool more than it had calls |
| InterleavedCalls.InterleavedCallsAreDisciplined | internal/mcpserver/cache.go:223-243 | however calls interleave between lookup and store, each returns and does outside what the chain would alone on the cache it found, so every discipline of one call holds of each, and the cache stays clean |
| InterleavedCalls.InterleavedOutcome | internal/mcpserver/server.go:261-289 | however calls interleave, each is decided by that table on the cache it found |
| InterleavedCalls.RepeatIsAnswered | internal/mcpserver/cache.go:223-243 | however calls interleave, one inside the window of the last answer kept under its key gets it at once and does nothing outside, unless 255 other keys were kept since |
| InterleavedCalls.SectionsMakeTheChain | internal/mcpserver/cache.go:223-243 | the two sections of a call, run back to back, are the chain |
| Pipeline.BuiltToolsAreAccepted | internal/mcpserver/cache.go:96-121 | whatever builds runs an accepted configuration |
| Pipeline.PromptIsCachedIff | internal/mcpserver/cache.go:116-118 | on a cached tool a prompt would be stored exactly when the tool is gated, the pairing the build refuses |
| Pipeline.EveryPutIsReached | internal/mcpserver/cache.go:177-186 | the pipeline's cache covers every choice of victim |
| ProxyPins.ValidatePins | internal/mcpserver/pin.go:81-102 | the loop over a map of joined names accepts exactly the pins that land on served tools and have one joined source under each joined name |
| ProxyPins.PinsValidIff | internal/mcpserver/pin.go:90-98 | what that accepts, in tools, arguments, providers and sources: joined names agree exactly when the pairs do or one is a shift of the other |
| ProxyPins.PlainPinsValidIff | internal/mcpserver/pin.go:81-102 | without dots in tools or blanks in providers: exactly the pins that land on served tools and give no argument two sources |
| ProxyPins.DottedToolRefused | internal/mcpserver/pin.go:90-98 | with a dot in a tool name, pins on different arguments of different tools can be refused as conflicting |
| ProxyPins.PinsByTool | internal/mcpserver/pin.go:117-124 | the grouping loop gives each tool its pins |
| ProxyPins.ValidPinsDoNotConflict | internal/mcpserver/pin.go:81-167 | validated pins of one tool, in any order, never make a call fail by themselves once their sources resolve |
| ProxyPins.PinArguments | internal/mcpserver/pin.go:146-167 | the loop that writes the argument map pin by pin |
| ProxyPins.PinsApplyIff | internal/mcpserver/pin.go:141-178 | pinning succeeds exactly when every pin resolves, nothing supplied contradicts one, and repeated pins agree; pinned arguments then print the pinned value and all others are untouched |
| ProxyPins.PinnedCallIff | internal/mcpserver/pin.go:141-178 | a call goes on pinned exactly when its arguments are a map that exists, every pin resolves, and none contradicts another or the caller |
| ProxyPins.ProxyOutcome | internal/mcpserver/server.go:424-441 | a proxied call comes to what gate, charge and request make of the pinned call, or to an error that does nothing outside |
| ProxyPins.PinningPanicsIff | internal/mcpserver/pin.go:146-166 | the write panics exactly on null arguments with a first pin that resolves |
| ProxyPins.ProxyForwardsPinned | internal/mcpserver/server.go:424-441 | what reaches the upstream carries every pin and every caller argument; a contradicting call makes no prompt, charge or request |
| HeaderTemplate.ParseHeaderTemplate | internal/mcpserver/upstreamauth.go:87-127 | the index-and-buffer scan computes the specified segments |
| HeaderTemplate.TemplateParsesIff | internal/mcpserver/upstreamauth.go:85-142 | a template parses to some segments exactly when it holds no newline, spells them by the grammar, and states a source |
| HeaderTemplate.SourceReadsIff | internal/mcpserver/upstreamauth.go:129-142 | a source is what stands on either side of its first colon, trimmed: a known provider and an address, a declared client for `oauth2` |
| HeaderTemplate.TemplateRoundTripIff | internal/mcpserver/upstreamauth.go:85-142 | parsing undoes printing on exactly the normal forms |
| HeaderTemplate.ParsedTemplatesAreNormal | internal/mcpserver/upstreamauth.go:85-142 | every accepted template is a normal form: no empty or adjacent literals, trimmed resolvable sources, at least one of them |
| HeaderTemplate.ResolveHeader | internal/mcpserver/upstreamauth.go:180-197 | the builder loop |
| HeaderTemplate.ResolvesIff | internal/mcpserver/upstreamauth.go:180-197 | a header resolves exactly when every source reads a value without a newline, and then to its literals and those values end to end, in the order stated |
| HeaderTemplate.ResolvedHasNoNewline | internal/mcpserver/upstreamauth.go:191-194 | no accepted header resolves to a value with a newline, whatever the secrets hold |
| UpstreamAuth.CanonicalIsStable | internal/mcpserver/upstreamauth.go:64-83 | a canonical name is its own canonical form and still a valid name |
| UpstreamAuth.CanonicalIs | internal/mcpserver/upstreamauth.go:64-83 | the canonical form of a token has each word's first letter in upper case and the rest in lower; a name that is no token is left alone |
| UpstreamAuth.HeaderParsesIff | internal/mcpserver/upstreamauth.go:59-83 | a flag states a header exactly when a valid name stands before its first equals sign and a template after it |
| UpstreamAuth.HeaderSendsPrefixAndSecret | internal/mcpserver/upstreamauth.go:180-197 | a header of shape prefix and source sends the prefix followed by what the source reads |
| UpstreamAuth.RenderUpstreamAuth | internal/mcpserver/pull.go:446-472 | the loop that accepts one source, last, after literals |
| UpstreamAuth.RendersIff | internal/mcpserver/pull.go:446-472 | a header renders exactly when all but its last segment are literals; the block then quotes its name, the text before the source, and the address |
| UpstreamAuth.AuthMeans | internal/mcpserver/upstreamguardfile.go:200-222 | which `auth` blocks state no header, which state one, and which are refused |
| UpstreamAuth.HeaderSurvivesTheFileIff | internal/mcpserver/upstreamguardfile.go:200-222 | flag to file to header is the identity exactly when KDL can carry the strings and no opening brace hides in the source; otherwise the file is refused |
| KdlQuote.WriteQuoted | internal/mcpserver/pull.go:491-516 | the writer's loop |
| KdlQuote.WrittenBareIff | internal/mcpserver/pull.go:494-513 | a code point is written bare exactly when it is no quote, no backslash and no control |
| KdlQuote.BodyReadsBack | internal/mcpserver/pull.go:488-516 | a quoted string reads back and ends at its own closing quote, whatever follows it |
| KdlQuote.QuoteRoundTripIff | internal/mcpserver/pull.go:488-516 | quoting loses nothing exactly when no code point is one KDL bans and the writer leaves bare |
| EventStream.JsonRPCMessages | internal/mcpserver/pull.go:324-350 | the splitting loop |
| EventStream.MessagesAreBlocks | internal/mcpserver/pull.go:321-350 | any body at all: one JSON document, or one message for each block of lines with data in it, other fields and comments ignored, the last block included when nothing ends it |
| EventStream.SseRoundTripIff | internal/mcpserver/pull.go:321-350 | framed messages come back exactly when none of their lines ends in a carriage return |
| EventStream.CRFreeMessagesRoundTrip | internal/mcpserver/pull.go:321-350 | messages free of carriage returns always come back, multi-line, empty and leading-space ones included |
| SecretPaths.Registry.Register | internal/mcpserver/secretpath.go:25-38 | the registry stays distinct, non-empty and free of trailing slashes |
| SecretPaths.NormalisedCuts | internal/mcpserver/secretpath.go:26 | a registration stands for its text less the white space around it and the slashes at its end |
| SecretPaths.Registry.RedactText | internal/mcpserver/secretpath.go:52-60 | the loop of replacements |
| SecretPaths.FirstOccurrenceMasked | internal/mcpserver/secretpath.go:56-58 | the first occurrence of a prefix becomes the mask, what stands before it stays, and the rest is replaced in its turn |
| SecretPaths.RegisteredPathsArePrefixes | internal/mcpserver/secretpath.go:68-81 | a rooted escaped path registers as a prefix of the protected shape, or as nothing |
| SecretPaths.ReplaceCreatesNothing | internal/mcpserver/secretpath.go:56-58 | one replacement removes its own prefix and re-creates no other |
| SecretPaths.PathPrefixIsClear | internal/mcpserver/secretpath.go:56-58 | a prefix that starts with a slash, ends with none and holds no angle bracket meets the mask nowhere |
| SecretPaths.NoPrefixSurvives | internal/mcpserver/secretpath.go:47-60 | after all replacements no registered prefix that is clear of the mask occurs anywhere in the text |
| SecretPaths.NeverSurvivesIff | internal/mcpserver/secretpath.go:47-60 | a registrable prefix survives in no text and beside no other prefixes exactly when it is clear of the mask |
| SecretPaths.RedactionChangesIff | internal/mcpserver/secretpath.go:47-60 | redaction changes a text exactly when it holds a registered prefix |
| SecretPaths.PrefixInsideTheMaskSurvives | internal/mcpserver/secretpath.go:56-58 | a prefix spelt inside the mask survives any replacement that finds anything |
| Coverage.CollectArrayCounts | internal/mcpserver/coverage.go:160-175 | the recursion computes the counts as a function of the payload and of an order in which each map yields each key once |
| Coverage.CountArrays | internal/mcpserver/coverage.go:142-156 | a whole payload gets the counts some order gives, a top-level array its length under a label of its own, anything else none |
| Coverage.OtherPayloads | internal/mcpserver/coverage.go:142-156 | a top-level array counts once, under `result`, and a scalar not at all |
| Coverage.PlainCountsAreExact | internal/mcpserver/coverage.go:132-156 | with non-empty dot-free keys the counts are, under every order, exactly the object-only paths of at most four keys that end at an array, each with its length |
| Coverage.CanCountIff | internal/mcpserver/coverage.go:160-175 | for any keys, a label comes out as a number under some order exactly when an array it labels has that length |
| Coverage.OrderDoesNotShowIff | internal/mcpserver/coverage.go:160-175 | for any keys, all orders give the same counts exactly when no label stands for two lengths |
| Coverage.DottedKeyShowsOrder | internal/mcpserver/coverage.go:162-165 | with a dot inside a key two orders can differ |
| Coverage.EmptyKeyShowsOrder | internal/mcpserver/coverage.go:162-165 | so they can with an empty key |

## Left out

- The MCP SDK, HTTP transports, telemetry, logging and the upstream itself: a dial connects or not, a listing arrives or not, a request is never sent, fails, or is answered.
- umbra's grammar and kdl-go's parser: nodes arrive as data, a duration property arrives with the duration it spells, and an `auth` block hands back the strings it was given.
- `time`, `strconv` and `golang.org/x/time/rate`: `parseRateSpec` and the in-memory limiter are not modelled; an accepted rate is a positive count and a positive window.
- JSON text: arguments are decoded values, a number being the text it prints as; canonical re-encoding in `cacheKey` is any injective function of the value, and `%v` rendering any function that leaves strings alone.
- Fingerprints are compared, not computed.
- TokenBucket.BucketKey.Run: exact reals; floating point, Lua number formatting and truncation to nanoseconds are outside the claims.
- BucketWait.RedisBucket.Wait: runs over a finite stretch of its environment and reports when that ends first; a context ends by its deadline only, a caller that cancels is not modelled; a context past its deadline fails the charge; the key does not expire during the wait.
- ResponseCache.Cache.Put: instants are natural numbers whose zero is the zero time, so a clock set before year one is outside the model.
- Gates.ControlMap.DropVacantControls: reports a set; the source sorts the same names into a list.
- Gates.NoGateIsLost: covers `confirm`, `cache`, `reject-empty`, `reject-empty-argument` and `withhold`; `pin` and `extract` count as inherited controls but their own parsing, and icons, resources, prompts and apps, are not modelled.
- Controls.ConfirmReadsIff: a default confirmation message quotes the tool name as it stands, where the source also escapes it.
- ProxyPins.PinsByTool: the sort of each group by argument name, which only settles which pin is looked at first.
- ProxyPins.ProxyForwardsPinned: pins arrive resolved; a panic ends the call with no result, shown as an error.
- KdlQuote.WriteQuoted: strings are sequences of code points; invalid UTF-8, which the source reads as replacement characters, does not arise.
- EventStream.JsonRPCMessages: one character is one byte.
- Inherit.CollectInherited: paths are compared as given, already joined, absolute and clean, and the directory that travels with each file is not modelled.
- The command line, directory pages, registry sweep, S3 and SSM policies, feed and PDF projection: input and output around the modelled core.
