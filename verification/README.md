# Light WAF: a verified model of its stateful kernels

Light WAF is a web application firewall with a detection core and a control plane. This project
models the parts of it that keep state, fold data or encode it, and proves what they promise over
every input, every run and every reachable state. It covers these kernels:

- **Token bucket and rate limiter** (`TokenBucket.dfy`, `RateLimit.dfy`). A capped, self-sweeping
  store of buckets, against a store that never evicts. Time, tokens and rates are `real`.
- **Content modules and prefilter** (`Prefilter.dfy`, `ModuleReads.dfy`, `SqlComments.dfy`). What each module
  reads of a request and reports, the union gate in front of them all, for any match relation and any rule
  tables, and the SQL comment collapser both rely on.
- **Capture ring** (`CaptureRing.dfy`) and **body redaction** (`Redaction.dfy`).
- **Audit chain** (`AuditChain.dfy`). Encoding, hashing, verification and append, with SHA-256 and
  Ed25519 as parameters.
- **SIEM export** (`SiemForward.dfy`, `Cef.dfy`, `CefFields.dfy`). Cursors over runs of appends, pruning,
  deliveries and failures, the CEF text with a reader that inverts it, and what that reader learns.
- **Counters and percentiles** (`Counters.dfy`, `Quantile.dfy`). Reset-aware totals and the histogram
  quantile.
- **Login throttle** (`LoginThrottle.dfy`) and **log correlator** (`Correlator.dfy`).
- **Attack-surface inventory** (`Routes.dfy`, `SpecDocument.dfy`, `DocumentedPromise.dfy`, `Inventory.dfy`,
  `StableSort.dfy`). Path templates, route classification from an OpenAPI document, and the folded, ranked
  list.

Objects with fields are classes whose methods are proved against a function of the old state. The
theorems about runs are about those functions. Clock readings, delivery outcomes, pattern matching
and cryptography are parameters. `Prelude.dfy` holds the optional value and ASCII lower-casing.

`dafny verify dfyconfig.toml` checks the whole project.

## Where the code and its documentation differ

The model follows the code. Each point below has a lemma that shows the failing case and a condition
under which the promise holds.

- A sweep is said to lose nothing (`crates/waf-core/src/state.rs:146-148`). With fixed parameters that is
  so (`SweepIsInvisible`). Parameters are passed per call so that they can be reloaded (lines 61-63). A reload
  never reveals a sweep if and only if it does not lengthen the time to a full bucket, capacity over refill
  rate (`ReloadHidesSweepIff`). `ReloadRevealsSweep` is a run in which one that does lets a request through.
- The audit header says that altering or dropping any record breaks the chain
  (`crates/waf-governance/src/audit.rs:4-7`). Without the signing key, what verifies is exactly a prefix of
  the recorded history, up to what the hash does not cover (`TamperingUnseenIff`). So losing the newest
  records goes unnoticed (`DroppedLastRecordVerifies`). So does a change outside the hashed fields, such as
  an absent target made empty, a timestamp below the microsecond or another signature that checks
  (`UnhashedChangeUnseen`, `EmptyTargetUnseen`). Microseconds are counted toward zero, so the one at 1970 is
  almost two microseconds wide (`EpochCrossingUnseen`). Any other change of a field under its old hash is
  reported at its own index (`VisibleChangeLocated`).
- Lifetime latency buckets are said to stay monotone because a reset is process-wide
  (`crates/waf-controlplane/src/store.rs:357-360`). A restarted process that has overtaken only some of its
  old counts is read as a partial reset and breaks the order (`PartialResetBreaksOrder`,
  `OrderSurvivesIff`).
- `Retry-After` is said to be the time until a token is available (`crates/waf-detection/src/rate_limit.rs:63`).
  With a request budget it is exactly that (`ConfiguredRetryAfter`). Without one, which validation refuses for an
  enabled limiter, it says one second and no wait is enough (`NoBudgetNoService`).
- The correlator keeps a queue slot for an id that was taken. An id seen again can therefore be evicted
  before `cap` newer ids arrived (`HeldIff`, `StaleSlotEvictsEarly`).
- An endpoint is called documented when a declared operation matches it
  (`crates/waf-controlplane/src/inventory.rs:34-37`). The code asks only the most specific matching template,
  and among templates that parse alike only the one whose text comes first. `DELETE /u/me` is reported as
  shadow although `/u/{id}` declares it, because `/u/me` does not (`SpecificTemplateHidesOperation`), and so is
  an operation declared only under the second of two parameter names (`ParameterNamesClash`). The promise
  holds for every request if and only if, wherever two templates overlap, the one that answers for the shared
  paths declares the methods of the other (`DocumentedIffDeclaredIff`). If only the most specific template
  counts, as OpenAPI has it, it holds if and only if the first of the templates that parse alike declares the
  methods of all (`DocumentedIffDeclaredBestIff`).

## Model

| member | source | states |
|---|---|---|
| TokenBucket.InMemoryStateStore.constructor | crates/waf-core/src/state.rs:131-137 | an empty store whose key cap is at least one |
| TokenBucket.InMemoryStateStore.SweepFullBuckets | crates/waf-core/src/state.rs:149-155 | keeps exactly the buckets that have not had time to refill; with no refill it keeps all |
| TokenBucket.InMemoryStateStore.TryAcquire | crates/waf-core/src/state.rs:165-191 | sweeps only when the cap is reached by a new key, then answers and stores what the specification function says |
| TokenBucket.EvictedBucketIsFull | crates/waf-core/src/state.rs:146-154 | a bucket the sweep may drop is full at that time and at all later times |
| TokenBucket.EarlierReadingEarnsNothing | crates/waf-core/src/state.rs:165-191 | a clock reading before the last one of a bucket refills nothing |
| TokenBucket.CallKeepsGood | crates/waf-core/src/state.rs:165-191 | every call keeps tokens within zero and capacity and stamps within the present |
| TokenBucket.CallKeepsOtherLevels | crates/waf-core/src/state.rs:149-182 | a call, with its sweep, never changes the level another key would find |
| TokenBucket.LevelOfCaller | crates/waf-core/src/state.rs:176-190 | a call is allowed exactly when the refilled level covers the cost, and the level drops by exactly what was granted |
| TokenBucket.CallKeepsSimulation | crates/waf-core/src/state.rs:149-190 | capped and uncapped store give the same answer to one call and stay related, under any parameters to come that refill as fast |
| TokenBucket.SweepIsInvisible | crates/waf-core/src/state.rs:149-182 | over every run, the capped store returns the same answers as one that never evicts |
| TokenBucket.SweepIsInvisibleAcrossReloads | crates/waf-core/src/state.rs:61-68 | the same through any number of reloads, none of which lengthens the time to a full bucket |
| TokenBucket.ReloadHidesSweepIff | crates/waf-core/src/state.rs:61-68 | every run through a reload answers as if nothing were swept if and only if the old full-refill time fills a bucket under the new parameters |
| TokenBucket.ReloadRevealsSweep | crates/waf-core/src/state.rs:146-154 | a run of three unit-cost calls through a reload in which the sweep grants a request the unswept store denies |
| TokenBucket.BudgetAfterUse | crates/waf-core/src/state.rs:165-191 | what a call grants to a key, under any parameters within given bounds, comes out of its level plus the refill still to come |
| TokenBucket.RateBound | crates/waf-core/src/state.rs:165-191 | in every run the cost granted to a key in any interval is at most capacity plus refill over the interval |
| TokenBucket.RateBoundAcrossReloads | crates/waf-core/src/state.rs:61-68 | through reloads that never lengthen the refill time, at most the largest capacity plus the largest rate over the interval |
| RateLimit.RateLimitModule.constructor | crates/waf-detection/src/rate_limit.rs:44-53 | a module over a given store, disabled until it is initialised |
| RateLimit.RateLimitModule.Init | crates/waf-detection/src/rate_limit.rs:86-97 | takes parameters, action and score from the configuration and leaves the store alone; what the parameters grant is stated by the next laws |
| RateLimit.RateLimitModule.Inspect | crates/waf-detection/src/rate_limit.rs:99-143 | charges one token to the client; allows, rejects with 429 and the advertised wait, or scores |
| RateLimit.OthersKeepLevel | crates/waf-detection/src/rate_limit.rs:64-69 | no run of other clients changes what a key finds later |
| RateLimit.RetryAfterIsLeastWait | crates/waf-detection/src/rate_limit.rs:64-69 | whole-second waits that refill one token are exactly those from the advertised one on |
| RateLimit.RetryAfterSufficientAndLeast | crates/waf-detection/src/rate_limit.rs:64-69 | after any history and a denial, a client that waits is served if and only if it waited at least the advertised time |
| RateLimit.ConfiguredRetryAfter | crates/waf-detection/src/rate_limit.rs:86-97 | the same for the bucket of every configuration with a request budget |
| RateLimit.ValidatedLimiterHonoursRetryAfter | crates/waf-core/src/lib.rs:457-474 | under every enabled configuration that validation accepts, a denied client that waits the advertised time is served |
| RateLimit.NoBudgetNoService | crates/waf-detection/src/rate_limit.rs:63-69 | without a request budget the advertised wait is one second and no wait is ever enough |
| RateLimit.DenialSays | crates/waf-detection/src/rate_limit.rs:99-143 | after any run, a denied visit is rejected with status 429 and that advertised wait, or scored with the configured points; any other is allowed |
| RateLimit.ConfiguredRateBound | crates/waf-detection/src/rate_limit.rs:86-143 | in every run, a client is let through in any interval at most max(1, burst or else requests) times plus requests per window over the interval |
| RateLimit.NewClientGetsBurst | crates/waf-detection/src/rate_limit.rs:86-143 | at one instant, whoever else visits, the visits of a client not seen before pass exactly until it has used that burst |
| RateLimit.DrainedClientWaits | crates/waf-detection/src/rate_limit.rs:86-143 | a client that has used its burst is let through again once window / requests seconds have passed and not before, whatever others do |
| SqlComments.CollapseSqlBlockComments | crates/waf-detection/src/sqli.rs:175-201 | the loop yields the scanned text exactly when a closed comment exists, and nothing otherwise |
| SqlComments.FindIsLeast | crates/waf-detection/src/sqli.rs:176-192 | the search finds the least occurrence of a marker, or there is none |
| SqlComments.ScanStep | crates/waf-detection/src/sqli.rs:182-196 | one loop turn copies up to the first opening and jumps to the end of its comment, or stops |
| SqlComments.ScanLeavesNoClosedComment | crates/waf-detection/src/sqli.rs:159-201 | the result holds no closed comment |
| SqlComments.ScanShortensIff | crates/waf-detection/src/sqli.rs:159-201 | a string is shortened if and only if it holds a closed comment, else it is unchanged |
| SqlComments.CollapseOnceIsEnough | crates/waf-detection/src/sqli.rs:159-201 | a collapsed copy is shorter and does not collapse again |
| SqlComments.CollapsesIff | crates/waf-detection/src/sqli.rs:159-201 | a text collapses if and only if it reads a /* b */ t for some a, b and t |
| SqlComments.CommentBecomesSpace | crates/waf-detection/src/sqli.rs:159-201 | if nothing opens in a and nothing closes in b, its collapsed copy is a, one space and the copy of t |
| Prefilter.AllMatches | crates/waf-detection/src/lib.rs:55-70 | the loops report exactly the indices the specification function gives |
| Prefilter.HitIndicesExact | crates/waf-detection/src/lib.rs:55-70 | each firing rule is reported once, in table order, and no other rule is |
| Prefilter.ContentModule.Init | crates/waf-detection/src/sqli.rs:227-234 | keeps the rules at or below the paranoia level |
| Prefilter.ContentModule.Inspect | crates/waf-detection/src/sqli.rs:236-300 | decides by the rules that fire on the surface of the module, an uninitialised one allows; which fields that is is stated by ModuleReads.ReportsExactly |
| Prefilter.InspectHeaderInjection | crates/waf-detection/src/header_injection.rs:144-196 | decides by the rules that fire on host headers or on the main values, by scope |
| Prefilter.TagTables | crates/waf-detection/src/lib.rs:91-110 | lists id and pattern of every active rule of every table |
| Prefilter.ContentRulesSplit | crates/waf-detection/src/lib.rs:91-123 | splits active rules into the main and the host-only bucket |
| Prefilter.ContentPrefilter.constructor | crates/waf-detection/src/lib.rs:154-170 | holds the two buckets of a paranoia level |
| Prefilter.ContentPrefilter.MainUnionHits | crates/waf-detection/src/lib.rs:228-231 | a value or its collapsed copy matches some main pattern |
| Prefilter.ContentPrefilter.AnyMainHit | crates/waf-detection/src/lib.rs:186-223 | some value of the list hits |
| Prefilter.ContentPrefilter.IsCandidate | crates/waf-detection/src/lib.rs:186-223 | candidate exactly when a main value, a host header or a key-position scan hits |
| Prefilter.SurfaceCovered | crates/waf-detection/src/lib.rs:186-223 | whatever a module reads, the gate reads it or the text it was collapsed from |
| Prefilter.FiringRuleMakesCandidate | crates/waf-detection/src/lib.rs:91-123 | a rule that fires anywhere in a surface makes the request a candidate |
| Prefilter.UserAgentMakesCandidate | crates/waf-detection/src/rce.rs:216-284 | the extra User-Agent scan never fires on a skipped request |
| Prefilter.SkippedModuleAllows | crates/waf-detection/src/lib.rs:186-231 | every content module allows a request the gate skips |
| Prefilter.SkippedHeaderModuleAllows | crates/waf-detection/src/header_injection.rs:144-196 | header injection, host scope included, finds nothing in a skipped request |
| Prefilter.GateIsTransparent | crates/waf-detection/src/lib.rs:125-231 | gated and full inspection give the same decisions for every match relation, tables, level and request |
| ModuleReads.SurfaceExact | crates/waf-detection/src/lib.rs:239-294 | a module reads exactly the path, query and cookie values, decoded values, inspectable headers and body texts of its kind, for sqli also their collapsed copies, for the scanner only User-Agents |
| ModuleReads.ReportsExactly | crates/waf-detection/src/sqli.rs:236-300 | a module reports an item if and only if an active rule gives it by matching a field the module has to read, or a dedicated scan does: shellshock in the first User-Agent, operators or prototype keys in key position |
| ModuleReads.ReportsInOrder | crates/waf-detection/src/lib.rs:55-70 | each matching rule is reported once, in table order, before anything a scan adds |
| ModuleReads.HeaderReportsExactly | crates/waf-detection/src/header_injection.rs:144-196 | header injection reports an item if and only if an active rule matches a field of its own scope |
| ModuleReads.ShippedModulesReport | crates/waf-detection/src/lib.rs:91-110 | full inspection is each of the thirteen table modules on its own table, reading what its kind has to read |
| ModuleReads.CandidateIff | crates/waf-detection/src/lib.rs:186-231 | the gate objects if and only if an active pattern matches a field or its collapsed copy, a host pattern a host header, or a key pattern a key |
| CaptureRing.CaptureRing.constructor | crates/waf-capture/src/ring.rs:46-53 | an empty ring with a capacity of at least one |
| CaptureRing.CaptureRing.Insert | crates/waf-capture/src/ring.rs:62-88 | drops expired captures and the same id, appends, then trims by count and stored text; map, queue and byte counter stay one list |
| CaptureRing.CaptureRing.EnforceBudgets | crates/waf-capture/src/ring.rs:78-87 | pops from the front exactly while over a budget |
| CaptureRing.CaptureRing.Take | crates/waf-capture/src/ring.rs:92-99 | returns and removes the live capture of an id |
| CaptureRing.CaptureRing.EvictExpired | crates/waf-capture/src/ring.rs:113-125 | popping old captures from the front removes exactly the expired ones |
| CaptureRing.LiveIsSuffix | crates/waf-capture/src/ring.rs:113-125 | stopping at the first live capture misses no expired one |
| CaptureRing.RemoveRepresents | crates/waf-capture/src/ring.rs:92-99 | removing an id from map, queue and counter removes one capture from the list |
| CaptureRing.CountRepresents | crates/waf-capture/src/ring.rs:28-35 | map and queue always have the same size |
| CaptureRing.TrimIsLongestFit | crates/waf-capture/src/ring.rs:78-87 | what stays is the longest run of newest captures within the budgets, or the newest alone |
| CaptureRing.InsertKeepsBudgets | crates/waf-capture/src/ring.rs:62-88 | every insert ends within budget with the new capture last |
| CaptureRing.FoundExact | crates/waf-capture/src/ring.rs:92-99 | a lookup finds a capture of that id or there is none |
| CaptureRing.BudgetsGiveRoom | crates/waf-capture/src/ring.rs:62-88 | if a capture, everything newer and all inserts still to come fit the budgets together, it has room throughout |
| CaptureRing.RunKeepsWellFormed | crates/waf-capture/src/ring.rs:62-125 | in every run ids are distinct, order is age order and sizes are the lengths of the stored text |
| CaptureRing.VerdictFindsCapture | crates/waf-capture/src/ring.rs:62-125 | after any history, a verdict within the time and budgets finds the request it denied |
| CaptureRing.HeldIff | crates/waf-capture/src/ring.rs:62-125 | while it is live, a capture is held if and only if it and everything newer fit the budgets after each operation |
| CaptureRing.VerdictFindsCaptureIff | crates/waf-capture/src/ring.rs:62-125 | after any history and among any operations on other requests, a verdict finds its request if and only if the capture has not expired and always had room |
| CaptureRing.EstimateIsLength | crates/waf-capture/src/capture.rs:117-127 | the estimate is the length of all text a capture holds: body, header and cookie names and values, id, verb, path and query |
| CaptureRing.MemoryBounded | crates/waf-capture/src/ring.rs:62-88 | in every run a ring of two or more captures holds at most the byte budget of text, and never more captures than its capacity |
| CaptureRing.KeptIff | crates/waf-capture/src/ring.rs:62-88 | after any history, an insert keeps an unexpired capture of another request if and only if it, everything newer and the new one are within both budgets |
| AuditChain.Feed | crates/waf-governance/src/audit.rs:24-27 | writes the length, then the bytes |
| AuditChain.ComputeHash | crates/waf-governance/src/audit.rs:31-49 | hashes the encoding of the record fields, an absent target as the empty one |
| AuditChain.ReadFieldRoundTrip | crates/waf-governance/src/audit.rs:24-27 | a length-prefixed field reads back whatever follows it |
| AuditChain.DecodeEncode | crates/waf-governance/src/audit.rs:24-49 | the hashed encoding decodes to exactly the fields it was made of |
| AuditChain.HashedAlikeIff | crates/waf-governance/src/audit.rs:20-49 | two records hash the same fields if and only if they agree on number, texts and link, their targets are equal or both blank, and their times lie in the same microsecond |
| AuditChain.HashedBytesTell | crates/waf-governance/src/audit.rs:20-49 | the hashed bytes of a record read back as its number, the microsecond of its time, actor, action, target, details and link, each in its place |
| AuditChain.VerifyChain | crates/waf-governance/src/audit.rs:110-138 | intact if and only if the chain is sound, else the first break with its fault; what a sound chain pins is stated field by field below |
| AuditChain.HashGivesDigest | crates/waf-governance/src/audit.rs:31-49 | no collision of the hash means no collision of record contents |
| AuditChain.HeadPinsHistory | crates/waf-governance/src/audit.rs:110-138 | two sound chains with the same head have the same length and agree record by record: same numbers, texts and links, targets equal or both blank, times in the same microsecond |
| AuditChain.LastHashPinsHistory | crates/waf-governance/src/audit.rs:24-138 | the same from the last hash, if the hash itself does not collide on the two chains |
| AuditChain.TamperingUnseenIff | crates/waf-governance/src/audit.rs:4-7 | without the signing key, any records presented verify if and only if they agree field by field with a prefix of the log under signatures that check |
| AuditChain.UnhashedChangeUnseen | crates/waf-governance/src/audit.rs:110-138 | a record that agrees with the old one in that sense, under its hash and a signature that checks, still verifies |
| AuditChain.EmptyTargetUnseen | crates/waf-governance/src/audit.rs:31-49 | an absent target replaced by an empty one still verifies |
| AuditChain.EpochCrossingUnseen | crates/waf-governance/src/audit.rs:20-22 | a timestamp moved from 999 ns before 1970 to 999 ns after it still verifies |
| AuditChain.TamperingSeenUnlessPrefix | crates/waf-governance/src/audit.rs:4-7 | the same from collision freedom of the hash itself |
| AuditChain.DroppedRecordsUnseenIff | crates/waf-governance/src/audit.rs:4-7 | dropping, repeating or reordering any records leaves a chain that verifies if and only if the oldest ones remain, once each and in order |
| AuditChain.DroppedLastRecordVerifies | crates/waf-governance/src/audit.rs:4-7 | without its last record a chain still verifies |
| AuditChain.AlteredRecordLocated | crates/waf-governance/src/audit.rs:110-138 | an altered record is reported at its own index with its fault, or at the next one if it carries its own hash and a signature that checks; only a re-signed last record is not |
| AuditChain.VisibleChangeLocated | crates/waf-governance/src/audit.rs:110-138 | a record whose number, texts, link or non-blank target change, or whose time moves by a microsecond (two across 1970), breaks the chain under its old hash at its own index |
| AuditChain.AuditLog.Append | crates/waf-governance/src/store.rs:344-384 | extends the chain by one record that links to the last hash |
| AuditChain.AppendKeepsSound | crates/waf-governance/src/store.rs:344-384 | an append keeps a chain sound and numbered without gaps |
| AuditChain.GrownLogVerifies | crates/waf-governance/src/store.rs:344-384 | in every run of appends the log verifies |
| AuditChain.GrownRecordTellsEntry | crates/waf-governance/src/store.rs:344-384 | in every run of appends, record i carries number i + 1, the actor, action, target, details and time of entry i, the hash before it (64 zeros at first) and a signature over its own |
| SiemForward.SiemForwarder.Fetch | crates/waf-controlplane/src/siem_forward.rs:77-99 | exactly the rows past the cursor up to the id to store, ascending, as many as the batch size allows, and that id leaves all other rows to come |
| SiemForward.SiemForwarder.ForwardStream | crates/waf-controlplane/src/siem_forward.rs:121-168 | moves the cursor only after a full ack and a stored write; result, status, rows sent and error for each failure |
| SiemForward.SiemForwarder.ForwardOnce | crates/waf-controlplane/src/siem_forward.rs:172-180 | runs every job once, in order, whatever fails and however the tables change between jobs: cursors and statuses after the flush |
| SiemForward.FlushIsIndependent | crates/waf-controlplane/src/siem_forward.rs:170-180 | with distinct jobs each cursor and status ends where its own cycle alone would leave it |
| SiemForward.ResultTells | crates/waf-controlplane/src/siem_forward.rs:138-168 | a number delivered is the number of acked rows no longer to come; an error carries its reason and leaves every row to come |
| SiemForward.StatusShowsCursor | crates/waf-controlplane/src/siem_forward.rs:121-168 | after any cycles of any jobs, a status shows the stored cursor; without one, nothing delivered and an error; and no error unless a batch was refused |
| SiemForward.BatchExact | crates/waf-controlplane/src/store.rs:808-818 | a batch is exactly the rows past the cursor up to its last id, ascending |
| SiemForward.PrunedExact | crates/waf-controlplane/src/store.rs:854-876 | retention removes exactly the rows before the cutoff and never an audit record |
| SiemForward.StepKeepsSane | crates/waf-controlplane/src/siem_forward.rs:138-168 | every step keeps the export invariant and never moves the cursor back |
| SiemForward.AtLeastOnce | crates/waf-controlplane/src/siem_forward.rs:138-168 | in every run each event at or below the cursor was acked, or retention had removed it before the fetch that passed it |
| SiemForward.AuditFullyDelivered | crates/waf-controlplane/src/store.rs:854-876 | every audit record at or below the cursor was acked |
| SiemForward.ExactlyOnceWithoutLostWrites | crates/waf-controlplane/src/siem_forward.rs:138-168 | if no cursor write is lost, nothing is acked twice |
| SiemForward.CycleDrains | crates/waf-controlplane/src/siem_forward.rs:138-168 | a successful cycle removes one batch from the backlog, oldest first |
| SiemForward.CyclesDrainBacklog | crates/waf-controlplane/src/siem_forward.rs:172-180 | enough successful cycles clear any backlog |
| SiemForward.CycleMatchesMachine | crates/waf-controlplane/src/siem_forward.rs:138-168 | a cycle of the forwarder, with the table changing under it, is a poll, those changes and its end: same cursor, and acked exactly what the sink acked |
| SiemForward.ForwarderAtLeastOnce | crates/waf-controlplane/src/store.rs:782-800 | from the empty cursor table of a new forwarder on, after any cycles of a job with appends and prunings between and inside them, every id at or below the stored cursor was acked or pruned before the fetch that passed it; while none is stored the next cycle sends the oldest rows there are |
| SiemForward.ForwarderDeliversAudit | crates/waf-controlplane/src/siem_forward.rs:138-168 | of the audit stream, every record at or below the stored cursor was acked |
| Cef.CefHeader | crates/waf-controlplane/src/siem.rs:311-322 | escapes a header field character by character |
| Cef.CefValue | crates/waf-controlplane/src/siem.rs:326-339 | escapes an extension value character by character |
| Cef.CefLine | crates/waf-controlplane/src/siem.rs:393-473 | prints header and extension of an event |
| Cef.FormatBatch | crates/waf-controlplane/src/siem.rs:483-490 | one line per event, each ended by a newline |
| Cef.ReadPrintedFields | crates/waf-controlplane/src/siem.rs:311-322 | printed header fields read back, control characters as spaces |
| Cef.ReadPrintedPairs | crates/waf-controlplane/src/siem.rs:326-339 | printed pairs read back as the same keys and values |
| Cef.PrintedHeaderIsEscaped | crates/waf-controlplane/src/siem.rs:463-473 | all seven header fields are escaped, literal or not |
| Cef.LineReadsBack | crates/waf-controlplane/src/siem.rs:393-473 | a printed line parses to the fields and pairs of its event |
| Cef.LineIsOneLine | crates/waf-controlplane/src/siem.rs:393-473 | no field can break the line or put a control character in it |
| Cef.BatchReadsBack | crates/waf-controlplane/src/siem.rs:483-490 | a batch splits into one line per event and each reads back as its event |
| CefFields.LineTellsEvent | crates/waf-controlplane/src/siem.rs:393-462 | the pairs a reader finds in a line are exactly the fields of its event under their keys and labels, clipped to their limits |
| CefFields.HeaderTells | crates/waf-controlplane/src/siem.rs:368-473 | the header read back names the observer, the rule, alert or audit action, the kind of event in words, and its severity as a number |
| CefFields.SignatureTells | crates/waf-controlplane/src/siem.rs:368-377 | what fired is named by the alert rule, the audited action, the matching rule or else the decision |
| CefFields.NameTells | crates/waf-controlplane/src/siem.rs:379-390 | the words for an alert, an audit record and each decision |
| CefFields.SeverityTells | crates/waf-controlplane/src/siem.rs:356-365 | whose severity an event has |
| CefFields.SeverityScale | crates/waf-controlplane/src/siem.rs:346-354 | critical, error, warning and notice, in any case, are 9, 7, 5 and 3; anything else is 0 |
| CefFields.MaxSeverityExact | crates/waf-controlplane/src/siem.rs:356-365 | a decision has the highest severity among its contributions, zero if none names one |
| CefFields.IntReadsBack | crates/waf-controlplane/src/siem.rs:393-462 | printed numbers read back as the number |
| CefFields.ContributionShown | crates/waf-controlplane/src/siem.rs:393-462 | a contribution is shown as origin, rule and points, which read back |
| CefFields.JoinSplits | crates/waf-controlplane/src/siem.rs:393-462 | lists are put together with separators between the parts and nowhere else |
| CefFields.ClipExact | crates/waf-controlplane/src/siem.rs:342-344 | a text is cut after its limit of characters, and only then |
| Counters.TotalsTable.Accumulate | crates/waf-controlplane/src/store.rs:374-398 | folds the samples of a scrape into the rows of the node |
| Counters.FoldedRows | crates/waf-controlplane/src/store.rs:402-426 | each sampled row is updated once and no other row changes |
| Counters.StepConserves | crates/waf-controlplane/src/store.rs:371-398 | each event, restart or scrape keeps the balance of counted, unseen and lost events |
| Counters.TotalsAccounted | crates/waf-controlplane/src/store.rs:337-398 | in every run the total is what is counted plus what restarts lost plus what is not yet scraped, and it never drops |
| Counters.HarmlessKeepsSane | crates/waf-controlplane/src/store.rs:357-369 | a scrape keeps the histogram orderly if and only if its resets are harmless |
| Counters.OrderSurvivesIff | crates/waf-controlplane/src/store.rs:357-369 | all later growth keeps the buckets ordered if and only if the resets are harmless |
| Counters.PartialResetBreaksOrder | crates/waf-controlplane/src/store.rs:357-360 | a concrete partial reset that breaks the order |
| Counters.WholeResetIsHarmless | crates/waf-controlplane/src/store.rs:357-360 | a reset seen in every bucket, or in none, is harmless |
| Counters.LifetimeStaysCumulative | crates/waf-controlplane/src/store.rs:357-369 | over every history whose resets are all harmless the lifetime buckets stay nondecreasing |
| Counters.FoldedHolds | crates/waf-controlplane/src/store.rs:402-426 | folding rows is scraping the histogram they hold |
| Counters.RowsHoldLifetime | crates/waf-controlplane/src/store.rs:361-426 | from an empty table on, after every run of scrapes the rows of a node are its lifetime histogram |
| Quantile.HistogramQuantile | crates/waf-controlplane/src/prometheus.rs:86-112 | the loop returns the interpolation in the first bucket that reaches the rank, and always returns from the loop |
| Quantile.RankExact | crates/waf-controlplane/src/prometheus.rs:86-112 | the rank looked for is q times the total, none below 0 and all above 1 |
| Quantile.BucketExact | crates/waf-controlplane/src/prometheus.rs:86-112 | the bucket is the first whose count reaches that rank |
| Quantile.QuantileInBucket | crates/waf-controlplane/src/prometheus.rs:86-112 | the result lies in its bucket at the exact proportion, or is the bound below an infinite one |
| Quantile.QuantileMonotone | crates/waf-controlplane/src/prometheus.rs:86-112 | a higher quantile is never a lower latency |
| Quantile.LifetimePercentilesOrdered | crates/waf-controlplane/src/store.rs:357-369 | percentiles of lifetime buckets are ordered over every history whose resets are all harmless |
| LoginThrottle.LoginThrottle.constructor | crates/waf-governance/src/throttle.rs:33-40 | an empty throttle with its settings |
| LoginThrottle.LoginThrottle.Allowed | crates/waf-governance/src/throttle.rs:43-46 | refuses exactly while the key is locked |
| LoginThrottle.LoginThrottle.RecordFailure | crates/waf-governance/src/throttle.rs:49-59 | forgets failures outside the window, adds one, locks at the threshold |
| LoginThrottle.LoginThrottle.RecordSuccess | crates/waf-governance/src/throttle.rs:62-64 | forgets the key and no other |
| LoginThrottle.LoginThrottle.Login | crates/waf-controlplane/src/gov_api.rs:247-289 | checks the lock, then records the outcome |
| LoginThrottle.LockedRecordsNothing | crates/waf-governance/src/throttle.rs:43-59 | no failure of a key is recorded while its lock lasts |
| LoginThrottle.FailureBound | crates/waf-governance/src/throttle.rs:43-64 | in every run, an interval no longer than window and lockout and free of successes records at most the threshold of failures |
| LoginThrottle.LockIsEarned | crates/waf-governance/src/throttle.rs:49-59 | a lock takes the threshold of recorded failures within the window and lasts exactly the lockout |
| LoginThrottle.RefusalIsEarned | crates/waf-governance/src/throttle.rs:43-59 | in every run, a login is refused only within the lockout of a failure that completed a full threshold in one window |
| LoginThrottle.ThresholdLocks | crates/waf-governance/src/throttle.rs:43-59 | the failure that completes a threshold within one window locks the key, and for exactly the lockout |
| LoginThrottle.SuccessStartsOver | crates/waf-controlplane/src/gov_api.rs:247-289 | after an admitted success, a lock takes the threshold of failures recorded since that success |
| Correlator.Correlator.Insert | crates/waf-controlplane/src/ingest.rs:47-56 | queues a new id and evicts over the cap; a known id only changes its context |
| Correlator.Correlator.Take | crates/waf-controlplane/src/ingest.rs:58-60 | returns and removes the context, the slot stays |
| Correlator.Correlator.CorrelateLine | crates/waf-controlplane/src/ingest.rs:97-136 | a request line is stored, a decision line is joined, any other line changes nothing |
| Correlator.PushEvicts | crates/waf-controlplane/src/ingest.rs:47-56 | a push at the cap costs exactly the oldest slot |
| Correlator.MemoryBounded | crates/waf-controlplane/src/ingest.rs:47-60 | in every run at most cap slots and cap contexts, and every live id is queued |
| Correlator.RequestIsJoined | crates/waf-controlplane/src/ingest.rs:97-136 | after any history, a freshly queued id is joined to its latest context if fewer than cap slots were pushed since |
| Correlator.ReportedExactly | crates/waf-controlplane/src/ingest.rs:97-136 | exactly the decision lines with an id are reported, under that id, as blocked or rejected as they say; an unknown id has no context |
| Correlator.DecisionIsJoined | crates/waf-controlplane/src/ingest.rs:97-136 | after any log lines, a decision line is reported with the context of the latest request line of its id, if fewer than cap slots were pushed since |
| Correlator.HeldIff | crates/waf-controlplane/src/ingest.rs:47-60 | an id is still held if and only if the pushes fit behind its first slot |
| Correlator.StaleSlotEvictsEarly | crates/waf-controlplane/src/ingest.rs:47-60 | a concrete reuse that is evicted after one push in a queue of two |
| Redaction.RedactJson | crates/waf-capture/src/capture.rs:163-182 | rewrites the tree and extends the banner as the specification functions say |
| Redaction.RedactionHidesExactly | crates/waf-capture/src/capture.rs:163-182 | two bodies redact alike if and only if they differ only beneath listed keys |
| Redaction.RedactionIsIdempotent | crates/waf-capture/src/capture.rs:163-182 | redacting again changes nothing and names the same keys |
| Redaction.CleanIsTheSealedCopy | crates/waf-capture/src/capture.rs:163-182 | the result is the only tree with the placeholder at every listed key that is otherwise the body |
| Redaction.ListedIff | crates/waf-capture/src/lib.rs:56-59 | a name is listed if and only if some entry has the same letters up to ASCII case |
| Redaction.MemberIsHiddenIff | crates/waf-capture/src/capture.rs:163-182 | a member keeps its key and shows the placeholder if and only if its key is so listed |
| Redaction.HitsExact | crates/waf-capture/src/capture.rs:163-182 | exactly the listed keys that the visited part of the body holds are named |
| Redaction.PushAllExact | crates/waf-capture/src/capture.rs:204-208 | names stay distinct up to case and none is lost or invented |
| Redaction.BannerExact | crates/waf-capture/src/capture.rs:163-208 | the banner gains each listed key of the body once, up to case, and nothing else |
| Routes.SplitOfJoined | crates/waf-controlplane/src/inventory.rs:209-212 | segments joined by slashes split into the same segments |
| Routes.Templatize | crates/waf-controlplane/src/inventory.rs:172-187 | the loop prints the collapsed segments of the path, or a single slash |
| Routes.TemplateReadsBack | crates/waf-controlplane/src/inventory.rs:172-187 | a template splits into the collapsed segments of its path |
| Routes.TemplatesAgreeIff | crates/waf-controlplane/src/inventory.rs:172-197 | two paths share a template if and only if their collapsed segments agree |
| Routes.TemplatesAgreeSegmentwise | crates/waf-controlplane/src/inventory.rs:172-197 | two paths share a template if and only if each pair of segments is equal or both look like identifiers (or are the placeholder) |
| Routes.TemplateIsIdempotent | crates/waf-controlplane/src/inventory.rs:172-197 | the template of a template is itself |
| Routes.VariableSegmentIff | crates/waf-controlplane/src/inventory.rs:189-207 | a segment is collapsed if and only if it is a number, at least sixteen hex digits, or hex groups of 8-4-4-4-12 joined by dashes |
| Routes.FromSpec | crates/waf-controlplane/src/inventory.rs:90-110 | the table holds every entry with a declared method, sorted by specificity |
| Routes.ParseSegmentIff | crates/waf-controlplane/src/inventory.rs:214-222 | a template segment is a parameter if and only if it is a non-empty name in braces |
| Routes.DeclaredMethods | crates/waf-controlplane/src/inventory.rs:27-28 | a path item declares exactly those of the eight OpenAPI methods that it has as keys |
| Routes.TableAnswersMostSpecific | crates/waf-controlplane/src/inventory.rs:107-127 | the first match of the table is the earliest of the most specific declared matches |
| Routes.ClassifyExact | crates/waf-controlplane/src/inventory.rs:113-127 | documented if and only if the most specific matching route declares the method, else shadow |
| Routes.TwinRoutes | crates/waf-controlplane/src/inventory.rs:224-236 | two matches of equal specificity have the same segments |
| Routes.RoutesDecide | crates/waf-controlplane/src/inventory.rs:107-127 | without clashing templates, tables of the same routes classify alike whatever their order |
| SpecDocument.FromSpecJson | crates/waf-controlplane/src/inventory.rs:90-110 | the table of a document: one entry per template, pushed in text order, sorted by specificity |
| SpecDocument.OrderParsesAlikeIff | crates/waf-controlplane/src/inventory.rs:90-110 | the order of a document never changes what is parsed if and only if it repeats no template with another entry |
| SpecDocument.DocumentOrderIrrelevant | crates/waf-controlplane/src/inventory.rs:90-110 | the order in which a document that repeats no template with another entry lists its paths never changes a classification |
| SpecDocument.ClashSettledByText | crates/waf-controlplane/src/inventory.rs:90-127 | the answering route is the most specific match and, among templates that parse alike, the one whose text comes first |
| SpecDocument.ClashShows | crates/waf-controlplane/src/inventory.rs:107-127 | for every document with a clash there is one with the same routes, spelled differently, and a request they classify differently |
| SpecDocument.SpellingIrrelevantIff | crates/waf-controlplane/src/inventory.rs:107-127 | classification depends on the declared routes alone, for all documents and requests, if and only if no templates clash |
| SpecDocument.ParameterNamesClash | crates/waf-controlplane/src/inventory.rs:113-127 | two templates that differ in a parameter name clash, and the operation of the second is reported as shadow |
| DocumentedPromise.DocumentedIsDeclared | crates/waf-controlplane/src/inventory.rs:34-37 | what is reported as documented is declared, under a most specific template |
| DocumentedPromise.DocumentedIffDeclaredIff | crates/waf-controlplane/src/inventory.rs:34-37 | for every document, documented means that a declared operation matches, for all methods and paths, if and only if every overlap of two templates is settled |
| DocumentedPromise.DocumentedIffDeclaredBestIff | crates/waf-controlplane/src/inventory.rs:107-127 | the same where only most specific templates count, if and only if the first of the templates that parse alike declares the methods of all |
| DocumentedPromise.UnsettledShows | crates/waf-controlplane/src/inventory.rs:113-127 | every unsettled overlap yields a request for a declared operation that is reported as shadow |
| DocumentedPromise.SpecificTemplateHidesOperation | crates/waf-controlplane/src/inventory.rs:113-127 | DELETE /u/me is reported as shadow although /u/{id} declares it and no templates clash |
| StableSort.SortPermutes | crates/waf-controlplane/src/inventory.rs:156-156 | the sort is a permutation |
| StableSort.SortIsStable | crates/waf-controlplane/src/inventory.rs:156-156 | the result is sorted, and ties keep any order the input had |
| Inventory.FoldRow | crates/waf-controlplane/src/inventory.rs:134-153 | one row is folded into the entry of its method and template |
| Inventory.FoldingIsExact | crates/waf-controlplane/src/inventory.rs:132-169 | the map holds one exact summary per endpoint: summed hits, first and last time, joined class |
| Inventory.IntoValues | crates/waf-controlplane/src/inventory.rs:155-155 | the entries in ascending order of method and template |
| Inventory.BuildInventory | crates/waf-controlplane/src/inventory.rs:132-158 | the list of exact summaries, most hits first, then path, then method |
| Inventory.InventoryIgnoresOrder | crates/waf-controlplane/src/inventory.rs:132-158 | every permutation of the rows gives the same list |
| Inventory.OneEntryPerEndpoint | crates/waf-controlplane/src/inventory.rs:132-153 | no two entries share method and template |
| Inventory.HitsConserved | crates/waf-controlplane/src/inventory.rs:132-158 | the listed hits add up to the observed hits |

## Left out

- Regex semantics and rule patterns: matching is an arbitrary relation, so what a pattern detects is not stated.
- SHA-256, Ed25519, hex and argon2: parameters; theorems name the collisions and signatures they rely on.
- The normalizer, pipeline, CRS engine and proxy are not part of this model; modules read an already parsed request.
- `graphql.rs` and `grpc.rs` (caps on query and message shape), `request_smuggling.rs` (framing header checks) and `evasion.rs` (two normalizer flags turned into scores).
- Configuration parsing and validation, except the rate limiter's numbers; RBAC, OIDC, sessions and HTTP handlers other than the login throttle.
- SQL text, transactions and pools: each query is one atomic step on sequences and maps.
- The shipper, SSE bus, webhooks, alert rules, metric scraping and Prometheus text parsing.
- ECS NDJSON export: serialisation by a library.
- Floating-point rounding, NaN and infinite parameters: tokens, rates and latencies are `real`.
- Integer widths of hits, totals, retry times and durations: integers are unbounded, except in the audit encoding.
- Mutex poisoning and interleaving inside one locked operation: each locked operation is one step.
- Redaction of headers, cookies and form bodies, and body truncation: field-wise maps.
- TokenBucket.RateBound: assumes a clock that does not go back, which `Instant` guarantees, and costs that are not negative.
- SiemForward.AtLeastOnce: rows of one table become visible in id order; concurrent transactions that commit ids out of order are not modelled.
- SiemForward.SiemForwarder.ForwardStream: status timestamps and the logged lag are not modelled.
- LoginThrottle.LoginThrottle.Login: check and record are one step, so concurrent logins of one user are not interleaved.
- Redaction.RedactJson: builds a new tree instead of updating it in place.
- Correlator.Correlator.CorrelateLine: JSON parsing and timestamp parsing give the line as a value.
- SpecDocument.FromSpecJson: takes the entries of the `paths` object; text that is not JSON is not modelled, and the JSON library's map is the sorted one it has without its `preserve_order` feature.
- Inventory.BuildInventory: timestamps are integers and the library map and sort are specified by their order.
