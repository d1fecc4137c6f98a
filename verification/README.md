# Waffynx: verified model of its stateful algorithms

Waffynx is a web application firewall: an nginx module sends each request to a Go sidecar, which
runs plugins, rules and a scorer and answers allow or deny. This project models, in Dafny, the
algorithms that make up that path and the services beside it, and proves what they promise over
every input, every run or every interleaving.

`dafny verify dfyconfig.toml` checks everything.

## How it is organised

| files | part of the program |
|---|---|
| TokenBucket, TokenEviction, MemoryLimiter | in-process rate limiter and its sweep of idle buckets |
| RedisWindow | distributed fixed-window rate limiter |
| NginxFraming, NginxMessage, NginxVerdict | request framing, body splice, send and receive loops, verdict |
| BrokerProtocol, Broker | event broker: interleavings, and the objects of the program |
| SlidingWindow, EventTracker | the agent's event counter and its in-place slices |
| LoadBalancing, Connections, Upstream | upstream pool: shares, connection counts, health |
| PluginChain, QueryScan, RuleEngines, Sidecar | the decision pipeline and its records |
| Evaluation | one evaluation from end to end, module and sidecar together |
| Firewall, FirewallRoundTrip, FirewallManager | listing parser, what it makes of printed rules, and the manager |
| PathGroups | path grouping of the learning engine |
| ConfigMerge | configuration updates |
| AuditRing | bounded audit store |
| Scorer | built-in anomaly scorer |
| Text, Words, Modulo | strings, words, numbers and remainders |

Where the program updates objects in place there is a class whose methods are proved against a
step function; the theorems are about that function over whole runs. Concurrency is modelled as a
state machine whose steps are the critical sections or single commands of the program.

## What the results say beyond the documentation

- Sweeping idle rate-limit buckets is unobservable exactly for windows of at most 30 minutes
  (EvictionInvisibleIff). The plugin uses one second. `burst` is read from the configuration but the
  bucket capacity is the request rate.
- The Redis limiter is exact as long as an INCR follows its clock read within the TTL minus the
  window in whole seconds; a later one can find its counter gone (SafeIff).
- The scorer is documented as scoring between 0 and 1. The bound fails exactly when two or more pattern
  families hit, because the early block return is not capped (ScoreAboveOneIff).
- The module prints the URI as nginx has decoded it, so that line ends in it are printed too. A
  request reads back exactly when none of its values contains a line end (RequestRoundTripIff). For a
  reader that insists on CR LF that is CR LF; the sidecar's own reader also ends a line at a bare LF.
- The module compares the header block with the whole request buffer and not with what the body will
  need: OverrunIff says exactly for which requests the body then runs over the end.
- The documented pipeline has three stages; the code also runs custom rules between plugins and
  policy, and the model follows the code.
- Audit, broker and bridge events pass through the learning recorder, so they are lost when learning
  is not attached (DenialsTracedIff).
- A query of the audit store is newest first exactly when the ring is not part-way through a wrap
  (NewestFirstIff).
- The listing parser recovers neither the protocol nor the table of a rule, misses a rule that blocks
  the empty address (PrintParseRoundTripIff), and reports the hook of the chain and the default policy
  as rules for all traffic (StartedListing).
- A start creates only the chain `input`, while its fourth command adds a rule to `output`. nft refuses
  that in a fresh table, and the start then ends before any port is opened or address blocked. The
  default policy is the first rule of the chain; when it accepts or drops, the rules behind it are
  never reached.
- Picks of least_conn that are not yet counted pile up on one target: InterleavedSpreadIff gives the
  exact spread.
- With a window of zero or less the event tracker still counts the event just recorded, which shows
  at threshold 1.
- A rule's query condition looks at the first pair of the raw query, the scorer's parameter map at the
  last piece of the decoded one; ReadersAgreeIff says exactly when that makes no difference.
- A body that breaks off while the sidecar reads it is dropped for the rules and kept for the plugins
  and the scorer.

## Modelling choices

- Characters are bytes, except in Words and the firewall modules, where they are Unicode code points.
  `float64` is `real`. Times are parameters: seconds as `real` for the rate limiters, nanoseconds as
  `int` elsewhere. Clocks agree and do not go back.
- Library and operating-system behaviour enters as a parameter: results of `send` and `recv` per
  attempt, success of nft commands, `url.QueryUnescape`, path globs, CIDR tests, the FNV hash, JSON encoding, health checks,
  plugin behaviour, entropy.
- Letter case is ASCII in `Lower`, `Upper` and `Snake`; `IsUpper` and `IsLower` of the scorer read bytes as
  Latin-1, as the program does.
- Preconditions are the ones the program relies on: positive windows for the token bucket, a
  round-robin counter below 2^63, a positive audit size, no Unsubscribe of a closed channel.

## Model

| member | source | states |
|---|---|---|
| TokenBucket.TokenBucketExact | internal/ratelimit/limiter.go:144-174 | After any run, with other keys and sweeps interleaved, a request is admitted iff the limit is at least 1 and, for every earlier admission of its key, the admissions from that one through this one number at most limit + elapsed * limit/window |
| TokenBucket.EveryAnswerExact | internal/ratelimit/limiter.go:144-174 | Every answer of a run is the exact one for the admissions that its earlier answers made |
| TokenBucket.BurstBound | internal/ratelimit/limiter.go:144-174 | Between any two admissions of a key in any run, the admissions number at most the burst plus the refill of that stretch |
| TokenBucket.AvailableMeaning | internal/ratelimit/limiter.go:161-171 | A bucket that remembers only its admissions holds at least x tokens iff every suffix of the history leaves room for x |
| TokenBucket.StepAgrees | internal/ratelimit/limiter.go:132-174 | One Allow or one sweep keeps the table and the key's history in agreement |
| TokenBucket.RunAgrees | internal/ratelimit/limiter.go:132-174 | After any run the table holds exactly what the history of admissions leaves, a missing bucket meaning a full one |
| TokenEviction.EvictionUnobservable | internal/ratelimit/limiter.go:132-174 | For every run, even with limits and windows changing from call to call, sweeping changes no answer as long as no window exceeds the idle time |
| TokenEviction.SweptRunShadows | internal/ratelimit/limiter.go:132-142 | The swept table is the unswept one with only idle, debt-free buckets missing, and both answer alike, along any run |
| TokenEviction.SweptIff | internal/ratelimit/limiter.go:132-142 | A sweep deletes exactly the buckets that were not used for longer than the idle time |
| TokenEviction.EvictionInvisibleIff | internal/ratelimit/limiter.go:132-174 | For a fixed limit and window, no run can tell that buckets are swept iff the limit is below 1 or the window is at most the idle time |
| TokenEviction.TooManyForOneWindow | internal/ratelimit/limiter.go:144-174 | Two full bursts less than a window apart are never all admitted without a sweep |
| TokenEviction.ExposingAdmitsTwice | internal/ratelimit/limiter.go:132-174 | With a sweep between them, once the first is older than the idle time, both bursts are admitted whole |
| MemoryLimiter.BucketCell.Take | internal/ratelimit/limiter.go:158-173 | Refill, cap and take one token in place, with the whole new state |
| MemoryLimiter.Limiter.Allow | internal/ratelimit/limiter.go:144-174 | The mutex-held method answers and changes the map of bucket objects as the step function says |
| MemoryLimiter.Limiter.Cleanup | internal/ratelimit/limiter.go:132-142 | Deletes exactly the buckets idle for longer than bucketTTL |
| MemoryLimiter.Limiter.constructor | internal/ratelimit/limiter.go:106-112 | A new limiter has no buckets and an idle time of 30 minutes |
| RedisWindow.SafeIff | internal/ratelimit/limiter.go:61-81 | In every interleaving of clock reads, INCRs, EXPIREs, failures, lost replies with and without a retry, time and key expiry, no key and bucket returns true more often than its limit, iff increments follow their clock read within TTL minus the whole-second window |
| RedisWindow.StepKeepsInv | internal/ratelimit/limiter.go:61-81 | Every step of every process keeps the counters, expiries and answers in agreement |
| RedisWindow.WindowSecMeaning | internal/ratelimit/limiter.go:62-65 | A bucket lasts the window cut to whole seconds, and one second for shorter windows |
| RedisWindow.SlowIsUnsafe | internal/ratelimit/limiter.go:61-81 | With a longer delay a run of two processes admits two calls under limit 1 |
| RedisWindow.OneSecondIsSafe | internal/ratelimit/limiter.go:76-78 | With a window of at least 1 s and EXPIRE of window + 1 s (also when cut to whole seconds), increments within 1 s of the clock read are safe |
| RedisWindow.FirstComeFirstServed | internal/ratelimit/limiter.go:71-80 | In any run a call whose reply arrives is admitted iff fewer than its limit incremented its key and bucket before it, increments with lost replies included |
| RedisWindow.TwiceTheLimit | internal/ratelimit/limiter.go:61-81 | Calls admitted with clock reads in any stretch of one window number at most twice the limit |
| NginxFraming.BodyLength | modules/ngx_waffynx/ngx_http_waffynx_module.c:345-354 | The first loop over the chain yields the smaller of the in-memory bytes and max_body_size |
| NginxFraming.BodyOfLinks | modules/ngx_waffynx/ngx_http_waffynx_module.c:345-354 | The body is the concatenation over the chain of what buffers in memory hold; buffers in files and missing ones add nothing |
| NginxFraming.ChainingIrrelevant | modules/ngx_waffynx/ngx_http_waffynx_module.c:345-388 | Two chains with the same body give the same message |
| NginxFraming.CopyBody | modules/ngx_waffynx/ngx_http_waffynx_module.c:376-388 | The copy loop writes exactly the first copy_len in-memory bytes and nothing else |
| NginxFraming.SpliceLength | modules/ngx_waffynx/ngx_http_waffynx_module.c:356-373 | In place, the length line lands before the final CRLF and nothing behind it changes |
| NginxFraming.BodyHandler | modules/ngx_waffynx/ngx_http_waffynx_module.c:338-392 | When the message fits, the buffer becomes headers, length line, final CRLF and the truncated body, and bytes behind total are unchanged; it runs over the end iff it does not fit |
| NginxFraming.LengthLineFits | modules/ngx_waffynx/ngx_http_waffynx_module.c:364-366 | The length line of any 64-bit size fits the 64-byte scratch buffer uncut |
| NginxFraming.RoomForBodiesIff | modules/ngx_waffynx/ngx_http_waffynx_module.c:345-388 | A buffer has room for every body up to a length iff it has room for one of that length |
| NginxFraming.RoomForEveryBody | modules/ngx_waffynx/ngx_http_waffynx_module.c:424-425 | The buffer of 8192 + max_body_size bytes has room for every body iff headers and the longest length line fit in 8192 |
| NginxMessage.Print | modules/ngx_waffynx/ngx_http_waffynx_module.c:103-118 | One bounded print: as much of the text as fits, nothing past the end |
| NginxMessage.BuildHeaders | modules/ngx_waffynx/ngx_http_waffynx_module.c:96-163 | The header block is complete iff it is shorter than the buffer, -1 otherwise |
| NginxMessage.ReadsBackIff | modules/ngx_waffynx/ngx_http_waffynx_module.c:156-162 | A header block reads back as the same lines and the rest of the stream iff no line is empty or contains a line end of the reader, for a reader of CR LF and for one that also takes a bare LF |
| NginxMessage.FramingRoundTripIff | modules/ngx_waffynx/ngx_http_waffynx_module.c:341-391 | A Content-Length reader recovers from the spliced message the lines, the length and exactly the copied body bytes iff the header lines are clean |
| NginxMessage.RequestRoundTripIff | modules/ngx_waffynx/ngx_http_waffynx_module.c:97-163 | Every request, as the module prints and splices it, reads back iff none of its values, the decoded URI among them, contains a line end of the reader |
| NginxMessage.UriEndsBlock | modules/ngx_waffynx/ngx_http_waffynx_module.c:113-119 | A decoded URI with two line ends in a row ends the header block: a reader sees only the lines up to it |
| NginxMessage.SplitUriNotReadBack | modules/ngx_waffynx/ngx_http_waffynx_module.c:113-119 | One such request, with URI "/", CR LF, CR LF, "x", and any body is not read back |
| NginxMessage.OverrunIff | modules/ngx_waffynx/ngx_http_waffynx_module.c:424-433 | An accepted header block leaves some announced body without room iff it takes some of the bytes that the longest body and its length line need |
| NginxMessage.LongUriOverruns | modules/ngx_waffynx/ngx_http_waffynx_module.c:424-433 | With the default of 65536 body bytes every URI of 8192 bytes is such a case |
| NginxVerdict.SendAll | modules/ngx_waffynx/ngx_http_waffynx_module.c:229-242 | For every pattern of partial writes and finite interrupts the loop ends and the socket has taken exactly the delivered prefix; success means the whole request |
| NginxVerdict.SendEnds | modules/ngx_waffynx/ngx_http_waffynx_module.c:230-242 | The loop ends at the first attempt that fails or finds everything taken, with what the attempts before it accepted |
| NginxVerdict.DeliveredAllIff | modules/ngx_waffynx/ngx_http_waffynx_module.c:230-242 | The whole request is taken iff the attempts accept that many bytes before one of them fails |
| NginxVerdict.Receive | modules/ngx_waffynx/ngx_http_waffynx_module.c:248-266 | For every fragmentation and finite interrupts the loop ends with a prefix of the stream of the specified length, -1 after an error |
| NginxVerdict.StatusOfReceived | modules/ngx_waffynx/ngx_http_waffynx_module.c:169-205 | What was received before stopping parses to the status of the whole stream |
| NginxVerdict.ChunkingIrrelevant | modules/ngx_waffynx/ngx_http_waffynx_module.c:247-266 | Two arbitrary fragmentations of one stream parse to the same status |
| NginxVerdict.ReceiveEnds | modules/ngx_waffynx/ngx_http_waffynx_module.c:248-266 | The loop ends at the first attempt that fails, finds the end, or finds twelve bytes in hand, with what the attempts before it brought |
| NginxVerdict.ErrorIff | modules/ngx_waffynx/ngx_http_waffynx_module.c:255-265 | An error is reported iff the first attempt that brings nothing is a failure and fewer than twelve bytes are in hand |
| NginxVerdict.AllowedIff | modules/ngx_waffynx/ngx_http_waffynx_module.c:276-294 | Without errors the request is allowed iff bytes 9 to 11 are 204, or fail_open is set and the status does not parse; only the first 12 bytes matter |
| NginxVerdict.SendAndEnforce | modules/ngx_waffynx/ngx_http_waffynx_module.c:211-295 | From the socket alone: NGX_OK iff the connection stands, the request goes out whole, the response is not lost and says 204, or fail_open is set and one of these fails or the status does not parse |
| BrokerProtocol.RunKeepsInv | internal/events/broker.go:105-136 | Every interleaving of subscribe, unsubscribe, single sends and receives keeps the broker invariant |
| BrokerProtocol.BrokerConservation | internal/events/broker.go:105-136 | In every run: no send on a closed channel, queues within 64, no message twice, and offered = received, in order, then queued, in order, plus dropped |
| BrokerProtocol.PublicationReachesAudience | internal/events/broker.go:127-135 | A finished publication was offered exactly once to each channel subscribed when it began, and to no other |
| BrokerProtocol.DropOnlyWhenFull | internal/events/broker.go:130-134 | At any reachable moment a send is dropped iff 64 messages wait, and never meets a closed channel |
| Broker.EventBroker.Subscribe | internal/events/broker.go:105-111 | Adds one fresh empty channel |
| Broker.EventBroker.Unsubscribe | internal/events/broker.go:113-118 | Removes and closes exactly this channel, subscribed or not |
| Broker.EventBroker.Publish | internal/events/broker.go:120-136 | Every subscriber's queue gains the event unless it is full or encoding failed |
| SlidingWindow.StoredIsRecentHistory | cmd/waf-agent/main.go:71-109 | From any moment not before the last event, stored times and full history agree inside the window, whatever sweeps and other addresses did |
| SlidingWindow.RecordCountsHistory | cmd/waf-agent/main.go:71-89 | With a positive window record returns true iff the events ever recorded for the address in the window, this one included, reach the threshold |
| SlidingWindow.CountsExactlyIff | cmd/waf-agent/main.go:71-89 | record agrees with the count in the window after every run iff the window is positive or the threshold is not 1 |
| SlidingWindow.KeptIff | cmd/waf-agent/main.go:91-109 | A sweep keeps exactly the addresses with an event in the window |
| EventTracker.Compact | cmd/waf-agent/main.go:78-84 | In-place compaction leaves exactly the times after the cutoff at the front of the same array |
| EventTracker.Append | cmd/waf-agent/main.go:85-86 | Go append: in place while there is capacity, into a larger array otherwise |
| EventTracker.Tracker.Record | cmd/waf-agent/main.go:71-89 | The method over shared backing arrays refines the step function and answers as it does |
| EventTracker.Tracker.Cleanup | cmd/waf-agent/main.go:91-109 | Compacts every address in place and deletes those left empty |
| LoadBalancing.ExactShares | internal/upstream/upstream.go:85-100 | Over any n consecutive calls each healthy target is picked 1 + (consecutive unhealthy targets right before it) times, unhealthy ones never |
| LoadBalancing.NothingPickedIff | internal/upstream/upstream.go:93-99 | No target is returned iff none is healthy |
| LoadBalancing.LeastUnique | internal/upstream/upstream.go:102-117 | The least-connections choice is determined: first healthy target with the fewest connections |
| LoadBalancing.LeastConnBalances | internal/upstream/upstream.go:102-117 | With pick and increment as one step, picking never widens a spread of at least one between healthy targets, over any number of picks |
| LoadBalancing.InterleavedSpread | internal/upstream/upstream.go:142-151 | With picks and increments apart, in any interleaving with at most m picks not yet counted and no completions, the healthy spread never exceeds m or what it was |
| LoadBalancing.InterleavedSpreadIff | internal/upstream/upstream.go:142-151 | From equal counts of two or more healthy targets every such run stays within a spread iff it is at least m |
| LoadBalancing.EveryPickPlaced | internal/upstream/upstream.go:102-117 | Each pick places exactly one connection, never on an unhealthy target |
| LoadBalancing.UnhealthyIff | internal/upstream/upstream.go:188-200 | After any series of checks a target is unhealthy iff the last three all failed |
| Connections.CountersExact | internal/upstream/upstream.go:151-159 | In every interleaving each counter equals the running requests of the target plus the decrements due, is never negative, the counters add up to all of these, and they equal the running requests iff no decrement is due |
| Upstream.Pool.NextRoundRobin | internal/upstream/upstream.go:85-100 | Advances the counter and returns the first healthy target from it |
| Upstream.Pool.NextLeastConn | internal/upstream/upstream.go:102-117 | The loop returns the least choice among the healthy |
| Upstream.Pool.NextIPHash | internal/upstream/upstream.go:119-140 | The first healthy target from the hashed one, the hashed one when none is healthy |
| Upstream.Pool.Next | internal/upstream/upstream.go:65-83 | Under least_conn the first healthy target with the fewest connections; under ip_hash the hashed target while it is healthy, and a healthy one while there is any; under round robin the next healthy one, moving the counter; nothing from an empty pool |
| Upstream.Pool.Serve | internal/upstream/upstream.go:85-100 | Over as many calls in a row as there are targets, round robin returns each healthy target exactly its share and unhealthy ones never |
| Upstream.Target.Check | internal/upstream/upstream.go:190-200 | One check result updates failures and health as specified |
| Upstream.Pool.CheckAll | internal/upstream/upstream.go:182-205 | Every target is checked once; connection counts are untouched |
| Upstream.Pool.AddTarget | internal/upstream/upstream.go:46-63 | Appends one fresh healthy target, or changes nothing when the address does not parse |
| PluginChain.SortIsStable | internal/plugin/chain.go:44-46 | The sort is ascending and keeps the Add order of equal priorities |
| PluginChain.StableUnique | internal/plugin/chain.go:44-46 | Ascending order with equals in a given order determines the list |
| PluginChain.ChainOrder | internal/plugin/chain.go:41-47 | A phase list is the sorted one iff it is ascending with ties in Add order |
| PluginChain.ChainSucceedsIff | internal/plugin/chain.go:49-64 | The chain succeeds iff no plugin fails on the context the ones before it left |
| PluginChain.FirstFailure | internal/plugin/chain.go:55-61 | A failing chain has exactly one first failing plugin and ends with the context that one left |
| PluginChain.Chain.Add | internal/plugin/chain.go:41-47 | Adding keeps every phase list the stable sort of the plugins added |
| PluginChain.Chain.Execute | internal/plugin/chain.go:49-64 | The loop threads the context and stops at the first error with its message |
| QueryScan.MatchQuery | internal/rules/engine.go:149-173 | The destructive scan ends and matches iff the first pair with '=' and the rule's key has the required value |
| QueryScan.ParseQueryParams | internal/engine/sidecar.go:260-288 | The last-wins parameter map of the decoded query |
| QueryScan.LookupsAgreeIff | internal/engine/sidecar.go:278-285 | For any two lists of pieces, look-up by first pair and by map agree on every non-empty value iff the first pair and the last piece of the key carry the same |
| QueryScan.ReadersAgreeIff | internal/rules/engine.go:149-173 | For every path the rule and the parameter map agree on every required value iff the first pair of the raw query and the last piece of the decoded query named by the key carry the same |
| QueryScan.AnyValueIff | internal/rules/engine.go:164-170 | A rule without a required value matches iff some piece of the raw query has its key and an equals sign |
| QueryScan.UnescapableQuery | internal/engine/sidecar.go:269-274 | A query that cannot be unescaped is read as it is but for its plus signs |
| QueryScan.PlainQueriesAgree | internal/rules/engine.go:149-173 | They agree when the query has no plus sign, unescaping leaves it alone and the key names at most one piece |
| QueryScan.RepeatedKeyDiffers | internal/rules/engine.go:164-170 | For a query of two pairs with the same key and different values the rule matches the first while the map holds the last |
| QueryScan.EscapedKeyDiffers | internal/engine/sidecar.go:268-276 | An escaped key is seen by the map and not by the rule |
| QueryScan.PlusDiffers | internal/engine/sidecar.go:268-276 | A plus sign in a value is kept by the rule and is a space in the map |
| RuleEngines.MatchRule | internal/rules/engine.go:99-176 | A custom rule matches iff every condition it states holds |
| RuleEngines.CustomEngine.Evaluate | internal/rules/engine.go:78-97 | Returns the answer of the first enabled matching rule |
| RuleEngines.CustomEngine.RemoveRule | internal/rules/engine.go:59-68 | Removes exactly the first rule with the id |
| RuleEngines.RemoveUndoesAdd | internal/rules/engine.go:53-68 | Removing a rule just added under a new id restores the list |
| RuleEngines.CustomAnswerUnique | internal/rules/engine.go:78-97 | Rules and request determine the answer |
| RuleEngines.TargetConditionsDecide | internal/rules/engine.go:99-117 | A rule without conditions matches every request; those on method, path and host each decide for themselves |
| RuleEngines.AddressConditionsDecide | internal/rules/engine.go:119-132 | So do those on addresses and networks |
| RuleEngines.ContentConditionsDecide | internal/rules/engine.go:134-173 | So do those on header, body and query |
| RuleEngines.FirstCustomRule | internal/rules/engine.go:78-97 | A rule answers for the ones behind it iff it is enabled and matches |
| RuleEngines.PolicyEngine.Evaluate | internal/policy/engine.go:48-71 | Returns the answer of the first enabled rule of the phase whose test holds on the context and the request |
| RuleEngines.FirstPolicyRule | internal/policy/engine.go:48-71 | A rule answers for the ones behind it iff it is enabled, of the phase, and its test holds |
| RuleEngines.PolicyEngine.RemoveRule | internal/policy/engine.go:37-46 | Removes exactly the first rule with the id |
| Sidecar.Server.HandleEvaluate | internal/engine/sidecar.go:130-257 | The request and the plugin context are built from what the module sent, a broken-off body included; stages are asked in order, each only if the ones before let the request pass; reply and records follow the deciding stage |
| Sidecar.Server.RecordLearning | internal/engine/sidecar.go:432-491 | What is learned, audited, published and bridged about one decision |
| Sidecar.AllowedIff | internal/engine/sidecar.go:173-256 | A request is answered 204 iff no PreRequest plugin fails in priority order, the first firing custom and policy rules are allow or log, and the scorer is absent, fails or does not block, or the first failing plugin answered 204 itself |
| Sidecar.AllowedIffShipped | internal/engine/sidecar.go:173-256 | With plugins that answer 403, 415 or 429 before they fail, as all of the repository do, the last case cannot occur |
| Sidecar.DenialBlamed | internal/engine/sidecar.go:173-251 | A denial is answered and recorded with the name and reason of the first failing plugin, else of the first firing custom rule, else of the first firing policy rule, else of the scorer |
| Sidecar.RecordsConserved | internal/engine/sidecar.go:432-491 | Over any run of handled requests the learned records are the requests in order, with up to 100 bytes of body and the decision, allowed iff every stage let them pass, and audit, broker and bridge hold exactly the requests that some stage denied, in order, with who denied them and why, for the consumers attached |
| Sidecar.DenialsTracedIff | internal/engine/sidecar.go:432-435 | Every denial of every run is audited, published and bridged iff learning, audit, broker and bridge are all attached |
| Evaluation.RequestArrives | internal/engine/sidecar.go:131-147 | A request whose values contain no line end arrives at the sidecar with its method, URI, addresses, headers and copied body, up to blanks around a value |
| Evaluation.BodyArrives | modules/ngx_waffynx/ngx_http_waffynx_module.c:345-388 | The body that arrives is a prefix of the in-memory body of at most max_body_size bytes, and all of it or exactly that many |
| Evaluation.ContextArrives | internal/engine/sidecar.go:131-172 | Plugins find each value of the original request under its own name in the context, and a body iff body bytes were copied; rules find the same in the request |
| Evaluation.TrimBlanksIs | internal/engine/sidecar.go:131-142 | Exactly the blanks at both ends of a value are lost |
| Evaluation.VerdictIsTheSidecars | modules/ngx_waffynx/ngx_http_waffynx_module.c:211-295 | For every such request, every body and every completed exchange that carries the status of the sidecar, the module lets the request through iff every stage of the sidecar lets pass what arrived, provided no failing plugin answered 204 itself |
| FirewallManager.Manager.AddRule | internal/firewall/firewall.go:145-159 | The printed arguments put exactly this rule behind the others of the chain when the command works |
| FirewallManager.Manager.Start | internal/firewall/firewall.go:52-91 | A start leaves the default policy and, in order, the configured rules whose commands worked, and fails iff one of the first four commands does |
| FirewallManager.StartedListing | internal/firewall/firewall.go:115-117 | Once the default policy is set on an empty chain the listing parses to the hook and the default policy as rules for all traffic and then the added rules, which come back iff none blocks the empty address |
| Firewall.ParseNFTRules | internal/firewall/firewall.go:264-319 | The line loop computes the parse of the listing |
| Firewall.ExtractField | internal/firewall/firewall.go:386-396 | The word behind the first matching keyword |
| Firewall.FieldIs | internal/firewall/firewall.go:386-396 | On any line the field is the word behind the first keyword without a verdict behind it |
| Firewall.ExtractAction | internal/firewall/firewall.go:377-384 | The first known action behind a space |
| Firewall.ActionIs | internal/firewall/firewall.go:377-384 | On any line accept, drop, deny, reject and log are looked for in this order |
| Firewall.ExtractPort | internal/firewall/firewall.go:398-408 | The first number behind a dport |
| Firewall.PortIs | internal/firewall/firewall.go:398-408 | On any line the port is the first number behind a dport |
| Firewall.ExtractSource | internal/firewall/firewall.go:410-418 | The word behind the first saddr |
| Firewall.SourceIs | internal/firewall/firewall.go:410-418 | On any line the source is the word behind the first saddr |
| FirewallRoundTrip.ListingParses | internal/firewall/firewall.go:264-319 | Whatever counters and handles nft shows, the listing of the chain parses to the hook as a rule and then what is reported for each entry, in order |
| FirewallRoundTrip.PrintParseRoundTripIff | internal/firewall/firewall.go:264-319 | The rules the manager adds come back, in order, with equal chain, port, source, action and comment, table and protocol never, iff none of them blocks the empty address |
| FirewallRoundTrip.HookReported | internal/firewall/firewall.go:284-287 | The hook line of the chain is taken for a rule that accepts everything |
| FirewallRoundTrip.EntryLine | internal/firewall/firewall.go:297-315 | The line of one entry parses to what is reported for it, behind the ones before |
| FirewallRoundTrip.BlockLineIff | internal/firewall/firewall.go:93-102 | The line of a blocked address parses to its rule iff the address is not empty |
| FirewallRoundTrip.CommentFound | internal/firewall/firewall.go:420-430 | The quoted comment is recovered |
| Words.SpaceThenIff | internal/firewall/firewall.go:377-384 | A space followed by a word occurs in joined words iff a later word starts with it |
| Words.FieldsOfJoin | internal/firewall/firewall.go:386-387 | Words joined by spaces come apart into the same words |
| Words.TrimSpaceIs | internal/firewall/firewall.go:270-270 | Exactly the white space at both ends of a line is dropped |
| Words.AtoiOfItoa | internal/firewall/firewall.go:148-148 | Every 64-bit port prints and parses back |
| PathGroups.NormalizePath | internal/learning/engine.go:309-350 | The scanning loop equals joining the classified pieces of the query-free, slash-trimmed path |
| PathGroups.NormalFormIdempotent | internal/learning/engine.go:309-350 | Normalising a group key changes nothing |
| PathGroups.SameGroupIff | internal/learning/engine.go:309-350 | Two paths share a group iff their classified segments are the same |
| PathGroups.SameKeyIff | internal/learning/engine.go:309-350 | Two paths share a group iff they have equally many pieces and each pair is equal, both numbers, both UUIDs, both long hashes, or one of these and its placeholder |
| PathGroups.Replaced | internal/learning/engine.go:332-341 | Numbers, UUIDs and long hexadecimal pieces get their placeholder and all others stay |
| PathGroups.SurroundingsIgnored | internal/learning/engine.go:310-314 | The query and the slashes around a path do not matter |
| PathGroups.NumberedUsersShareGroup | internal/learning/engine.go:332-334 | Every numbered user path has one key |
| PathGroups.Tally | internal/learning/engine.go:145-162 | The tally map holds for each occurring key the number of its records, all and blocked, and the latest of their times |
| PathGroups.GroupMeaning | internal/learning/engine.go:148-161 | A group counts the records of its key, the blocked among them, and keeps their latest time |
| PathGroups.GroupsPartition | internal/learning/engine.go:148-158 | Group counts add up to the number of records |
| ConfigMerge.DeepMerge | internal/api/handlers_config.go:139-149 | The loop, in any key order, computes the merge |
| ConfigMerge.MergeIdempotent | internal/api/handlers_config.go:139-149 | Applying an update twice equals applying it once |
| ConfigMerge.LeavesOfMerge | internal/api/handlers_config.go:139-149 | A merge has a leaf at a path iff the update has it, or the target has it and the update does not touch the path |
| ConfigMerge.TwoUpdatesAsOneIff | internal/api/handlers_config.go:139-149 | Two successive merges equal one merge of the merged updates for every target iff the second never puts an object where the first has a leaf |
| ConfigMerge.ToSnakeCase | internal/api/handlers_config.go:164-173 | The loop computes the snake-case key |
| ConfigMerge.SnakeIdempotent | internal/api/handlers_config.go:164-173 | Snake case is idempotent |
| ConfigMerge.SnakeAt | internal/api/handlers_config.go:164-173 | Every letter is kept in lower case at its place plus the upper-case letters up to it, and exactly those but the very first character have an underscore before them |
| ConfigMerge.NormalizeKeys | internal/api/handlers_config.go:151-162 | Keys of every object become snake case; without collisions the result is the normal form whatever the order; with collisions too the result is collision-free and its own normal form |
| ConfigMerge.NormalizedUnique | internal/api/handlers_config.go:151-162 | An object has at most one normal form |
| ConfigMerge.NormalizeIdempotent | internal/api/handlers_config.go:151-162 | A normal form is collision-free and its own normal form |
| AuditRing.RingHoldsLast | internal/audit/store.go:54-60 | After any run, rotating the slots at pos gives the last maxSize events, oldest first |
| AuditRing.QueryByAge | internal/audit/store.go:82-105 | A query returns, cut at the limit, the older part of the kept events newest first and then the part overwritten since the last wrap newest first |
| AuditRing.BackwardsIs | internal/audit/store.go:90-101 | A query goes through exactly the events with the actor, action and result asked for, each once, from the last slot to the first |
| AuditRing.QueryLength | internal/audit/store.go:86-91 | It returns as many as the limit says, from 1 to 1000, and otherwise 100 |
| AuditRing.NewestFirstIff | internal/audit/store.go:82-105 | After n records every query of every run is newest first over everything kept iff the ring has not wrapped or has wrapped a whole number of times |
| AuditRing.PartWayStartsOld | internal/audit/store.go:90-92 | Part-way through a wrap an unfiltered query starts with the event recorded that far before the newest |
| AuditRing.Store.Record | internal/audit/store.go:51-61 | Appends while there is room, then overwrites the oldest slot |
| AuditRing.Store.Query | internal/audit/store.go:82-105 | The loop returns the first Limit selected events in descending slot order |
| AuditRing.Store.GetStats | internal/audit/store.go:108-132 | Totals of the stored events; everything not allowed counts as blocked |
| AuditRing.AllowedIs | internal/audit/store.go:117-124 | The allowed count is the number of slots with that result |
| Scorer.VerdictExact | internal/appsec/scorer.go:111-241 | SQL injection, XSS and command hits always block; a traversal hit is never allowed and blocks iff heuristics reach 0.025; heuristics alone stay at most 0.50 and never block; off the early return the score lies in [0,1] |
| Scorer.ScoreAboveOneIff | internal/appsec/scorer.go:142-152 | The score exceeds 1 iff at least two pattern families hit; it is at most 2.835, reached iff all four hit |
| Scorer.TwoAttacksScoreAboveOne | internal/appsec/scorer.go:111-152 | One request that hits two families of the built-in patterns and so scores above 1 |
| Scorer.HeuristicsBound | internal/appsec/scorer.go:154-215 | The heuristics add up to at most 0.50 |
| Scorer.PatternWeights | internal/appsec/scorer.go:111-140 | What each pattern family adds |
| Scorer.HeuristicWeights | internal/appsec/scorer.go:154-215 | What each heuristic adds: the score moves with it alone and is 0 when all are |
| Scorer.ScaleMeaning | internal/appsec/scorer.go:163-208 | Entropy scores from 4.5 bits on and fully from 8, URI length from 2049 bytes on and fully from 8192 |
| Scorer.SignalsMeaning | internal/appsec/scorer.go:156-200 | Entropy and character scores are those of the worse of URI and body |
| Scorer.BasicScorer.Evaluate | internal/appsec/scorer.go:97-242 | A disabled scorer allows; a strong hit among the built-in patterns blocks at once with the uncapped pattern score and without counting the request; otherwise the request is counted and verdict, score, confidence and number of anomalies are those of the gathered signals |
| Scorer.PatternPass | internal/appsec/scorer.go:111-140 | The weighted sum and number of the pattern families that hit |
| Scorer.HeuristicPass | internal/appsec/scorer.go:154-215 | The accumulation adds exactly the weighted, capped heuristics and the ones worth reporting |
| Scorer.SignalsSound | internal/appsec/scorer.go:154-200 | Whatever the request and the counters, the gathered scores lie in the ranges under which the verdict is proved |
| Scorer.CheckPatterns | internal/appsec/scorer.go:246-274 | 0.9 and the first pattern that occurs in URI, parameters or body, 0 iff none does |
| Scorer.OccursIff | internal/appsec/scorer.go:246-274 | A pattern occurs iff it stands, in any letter case, in the URI, in a parameter value or in the body |
| Scorer.AnalyzeCharDistribution | internal/appsec/scorer.go:298-341 | The counting loop computes the ratio score |
| Scorer.CharScoreMeaning | internal/appsec/scorer.go:325-340 | The score is positive iff escapes exceed a twentieth or special characters 15 of a hundred, full from a tenth of escapes or, with few escapes, a third of special characters on, and proportional between |
| Scorer.CharScoreRange | internal/appsec/scorer.go:298-341 | The character score lies in [0,1] |
| Scorer.AnalyzeHeaders | internal/appsec/scorer.go:348-383 | The loop and the running total compute the header score |
| Scorer.HeaderScoreMeaning | internal/appsec/scorer.go:348-383 | Within [0,1]; positive iff the agent is missing, bad, short or long; above one half iff it is bad |
| Scorer.BasicScorer.CheckRate | internal/appsec/scorer.go:386-406 | Counts the request and scores the excess over the allowed rate within [0,1] |
| Scorer.CounterSinceWindow | internal/appsec/scorer.go:391-399 | After any run a counter is the number of requests since the one that opened its window, which was the first of the address or came more than a minute after the previous opening, and lies at most a minute before the latest |
| Scorer.FirstMinuteCounted | internal/appsec/scorer.go:391-399 | As long as no request of an address comes more than a minute after its first, all are counted |
| Scorer.RateScoreMeaning | internal/appsec/scorer.go:400-405 | The rate scores iff more than 300 requests are in the window, fully iff at least 600, and evenly between |

## Left out

- HTTP servers and handlers, authentication, TLS, metrics, logging, the user interface and generated code: plumbing over libraries that are not part of this model
- The Redis client, sockets, files and firewall commands: they appear only as atomic steps or oracles
- ConfigMerge.DeepMerge: works on values, so it does not capture that the program merges into the target in place and lets target and update share the update's sub-objects afterwards
- ConfigMerge.NormalizeKeys: colliding keys are left to the iteration order, as in the program, and only the key set is specified for them
- ConfigMerge.ToSnakeCase: does not model letter case outside ASCII
- MemoryLimiter.BucketCell.Take: the second half of Allow as a method of its own, so that each method changes one object
- PluginChain.Chain.Add: the library's stable sort is the function StableSort, not its merge algorithm
- Sidecar.Server.HandleEvaluate: plugins see the values of the context and its status, not the HTTP request and response objects
- FirewallManager.Manager.Start: the output chain, to which the fourth command adds, is not modelled; nor is the rest of the ruleset that nft lists
- Firewall.ParseNFTRules: the upper-casing of chain names is ASCII
- Scorer.CheckPatterns: lower-casing is ASCII, where the program also folds other letters to ASCII ones
- Scorer.AnalyzeHeaders: lower-casing is ASCII, as in CheckPatterns
- Scorer.BasicScorer.Evaluate: receives the entropies of URI and body as inputs; anomaly names and reason texts are only counted
- The suggestion thresholds of the learning engine and its second ring, which is the same as the audit ring
- The ufw backend, policy matching of routes, geo-block, bot protection, upload and GraphQL inspection, and the marketplace: they would add only easy members
