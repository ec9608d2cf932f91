# Verified model of the Envoy management servers

This project models the logic of a set of Envoy management servers and proves what
their clients rely on: a distributed rate limiter, the path of a configuration change
from the REST interface to a worker, the text and document folds of the REST layer, the
S3 authorization service, and the translation of stored listeners.

Run `dafny verify dfyconfig.toml` to check everything.

## Contents

| file | subject |
|---|---|
| `Text.dfy` | Go's string and number functions over ASCII, with their laws |
| `RateLimitIndex.dfy` | units, windows, counter keys; the index of the stored rules |
| `RateLimitProtocol.dfy` | any number of replicas over one Redis store, as atomic steps |
| `RateLimitInvariant.dfy` | the inductive invariant of that machine |
| `RateLimitTheorems.dfy` | admission, window safety, sliding bound, invisible local caches |
| `RateLimitLate.dfy` | the run that shows why the bounds speak of timely decisions |
| `RateLimitService.dfy` | the request handler as a class; every request is a run |
| `RateLimitAnswers.dfy` | the handler's answers against a reference limiter |
| `ConfigSync.dfy` | writes, version bumps, change stream, four reads, snapshots, as atomic steps |
| `ConfigSyncInvariant.dfy` | the inductive invariant of that machine |
| `ConfigSyncTheorems.dfy` | convergence, sound labels, no going back, what workers are served, what the status tells |
| `ConfigManager.dfy` | the REST handlers and the watch loop as a class over that machine |
| `LiveClusters.dfy` | the parser of a worker's `/clusters` text, and its printer |
| `EndpointMerge.dfy` | the merge of endpoint groups, over single requests and runs |
| `AccessKeys.dfy` | access keys in headers and queries, AWS Signature Versions 4 and 2 |
| `S3Decision.dfy` | namespace and decision of the S3 authorization service |
| `RouteTables.dfy` | virtual hosts and routes, and the routing that translation keeps |
| `FilterChains.dfy` | filter chains, network filters and HTTP filters around them |

## How the rate limiter is modelled

The state is a clock, one Redis store of counters with deadlines, and for each replica a
configuration, a local "over limit" cache and calls in progress. A step is a clock tick, a
reload (a failed one leaves the replica without a configuration), the phases of a call
(read the configuration, read the clock and build the key, look into the cache, INCRBY,
EXPIRE, settle), an arbitrary cache eviction, or Redis dropping a key whose deadline has
passed. A step that cannot happen leaves the state alone, so every list of steps is a run
and the theorems speak of every list of steps. The history variable records each decision
where it becomes final, and each drop.

Assumptions, all of them visible in the definitions:

- One shared clock of whole seconds that never goes back, between one day after 10^9 and
  10^10 (`ClockInRange`). For keys of other starts see `KeysDecode` and `KeysCollide`.
- Redis commands succeed. In the code a failed command leaves the result at 0 and answers
  OK (src/ratelimit/ratelimit.go:80-87).
- Counters stay below 2^32, the width of the reply's destination (`Enabled` of INCRBY).
- The units are UNKNOWN, SECOND, MINUTE, HOUR and DAY, the ones that the code names.
- The key omits the domain, so domains share counters of equal prefixes. `Policy` gives
  each prefix one period and bounds on its limit; where a theorem needs one fixed limit it
  says `FixedLimit`.
- A bound on admitted hits counts decisions taken before the window that the key names has
  ended (`OnTime`): the clock is read when the key is built, INCRBY comes later.
  `LateCountEscapes` is a run where a late count is admitted again; `AdmissionSinceDrop`
  says for every decision, late or not, exactly when it is admitted, and
  `LateHitsAreBounded` what a key admits in all.
- The entries of a request are separate calls of the machine, which allows more
  interleavings than the handler's loop; `RequestIsARun` shows that each handler call, with
  a reading of the clock for each descriptor and another for each entry it serves, is one of
  these runs.

## How the configuration protocol is modelled

The database holds the node documents and, for each node, four collections. A step is one
database operation of a handler (a collection write, a version bump with a fresh token, an
upsert of a node's address, a deletion), a step of the one watcher (take a change and read
the node, read the next collection, publish), or a worker's report. A handler may stop
between its write and its bump. History variables hold the nodes written since their last
bump, all snapshots ever published, and the database at every instant.

Assumptions: a run starts when the change stream has just been opened on a database that
the start-up loop has loaded (src/main.go:318-328); reads and decodes succeed; upserts of a
node are atomic and names are unique; a version token is never drawn twice; a worker
reports nothing, the version of a snapshot that was published for it since the start, or an
earlier version that its node no longer carries, and so do the records of workers that are
there at the start (`MayReport`); every cluster is discovered through EDS, so that a
snapshot is consistent when its clusters and endpoints have the same names. Deletions raise
no load (src/main.go:337), so convergence is claimed for existing nodes.

## Findings

Where the code does not meet a plain reading of its purpose, an input that shows it or the
exact condition under which it does is proved.

- A late count can admit more than the limit in one window (`LateCountEscapes`).
- Two prefixes can share a counter when window starts differ in length (`KeysDecode`).
- "Synced" may be reported for a node without a UUID version before anything was published
  (`EmptyVersionLooksSynced`), and a handler that stops before its bump goes unnoticed
  (`StoppedHandlerGoesUnnoticed`).
- A `/clusters` row of an abbreviated IPv6 address is cut at its "::", read as a row of the
  part in front, and its statistic lost (`CutAddressIsMisread`, `CutStatisticIsLost`,
  `AbbreviatedAddressIsCut`; the columns that survive are those of `LineFormatIsExact`);
  neighbours of one name are merged (`ParserUndoesPrinter`); a line that ends before a column
  that is read panics (`ShortLinesPanic`).
- An endpoint is stored twice when two stored groups have its priority (`MergeConserves`).
  Into a stored document only the first group of a request is merged, and of that only the
  first endpoint unless its priority is new; the rest is dropped (`MergeStoresRequest` has
  the exact condition, `LaterGroupsAreDropped` an input).
- A request to store endpoints for a node whose name is shorter than two characters is
  answered 400 and stored all the same (`PutConfigEndpoints`).
- The header parser indexes out of range on an empty header and on a lone "AWS..." field
  (`HeaderParserIsDefined`), the query parser when the first parameter that carries a key is
  a bare credential name (`QueryParserIsDefined`); `DecisionIsDefined` says which requests
  are decided.
- Of several rate limits of a route only the last survives (`RateLimitsSurvive`), and
  `httpsRedirect: false` turns the redirect to https on (`ActionIsPreserved`).
- Header rules on a match without a path specifier follow a nil pointer (`AddRoute`).
- Without a configuration the rate limiter follows a nil pointer (`ShouldRateLimit`).
- A deleted node is still served its last snapshot, and its secrets stay (`DeleteConfigNodes`).

## Model

| member | source | states |
|---|---|---|
| RateLimitIndex.LoadConfig | src/ratelimit.go:67-81 | the index it builds answers every lookup as a scan of the rules does: the last usable rule of a domain with the same key and value, the strip flag of the domain's first usable rule |
| RateLimitIndex.AddRule | src/ratelimit.go:68-80 | one turn: an unusable unit changes nothing, a usable rule creates its domain at most once and overwrites its entry |
| RateLimitIndex.FirstRule | src/ratelimit.go:73-77 | the rule that decides a domain's strip flag is usable, and no earlier one of the domain is |
| RateLimitIndex.LastRuleIsLast | src/ratelimit.go:78 | the rule that decides an entry matches and no later one does; there is none exactly if no rule matches |
| RateLimitIndex.IndexedUnitsAreKnown | src/ratelimit/ratelimit.go:125-138 | every indexed unit has a divider, so the panic is unreachable |
| RateLimitIndex.UnitsByName | src/ratelimit/ratelimit.go:125-138 | a unit is known exactly by the names second, minute, hour and day in any letter case, and lasts 1, 60, 3600 or 86400 seconds |
| RateLimitIndex.FindDescriptor | src/ratelimit/ratelimit.go:94-116 | returns exactly the touches of the request's indexed entries, in order, and nothing for the others |
| RateLimitIndex.IndexRefinesScan | src/ratelimit/ratelimit.go:101-114 | for every rule list and request, index and lookup together equal a linear scan of the rules |
| RateLimitIndex.LastRuleLimits | src/ratelimit/ratelimit.go:101-114 | from the stored rules alone: an entry is limited by its domain's last usable rule whose key and value make up its key and cut value, with that rule's limit, the asked hits and an aligned window of the unit's seconds, and by nothing if there is none |
| RateLimitIndex.StripKeepsFirstLabel | src/ratelimit/ratelimit.go:104-105 | a stripped value is the part before its first dot |
| RateLimitIndex.WindowStart | src/ratelimit/ratelimit.go:111 | the named window contains the moment it is named |
| RateLimitIndex.SamePrefixKeys | src/ratelimit/ratelimit.go:102-112 | for one prefix, equal keys mean equal window starts |
| RateLimitIndex.KeysDecode | src/ratelimit/ratelimit.go:102-112 | two equal keys have equal prefix and start exactly when their starts have equally many digits |
| RateLimitIndex.KeysDecodeInRange | src/ratelimit/ratelimit.go:102-112 | ten-digit starts are always told apart |
| RateLimitIndex.KeysCollide | src/ratelimit/ratelimit.go:102-112 | a witness that other starts are not |
| RateLimitProtocol.DeadlineCoversWindow | src/ratelimit/ratelimit.go:76-79 | EXPIRE by one period, once the window has begun, covers the end of every window that the key can name |
| RateLimitProtocol.LiveKeysAreNotCounted | src/ratelimit/ratelimit.go:71-75 | a key alive in the replica's cache is answered OVER_LIMIT without counting, any other goes on to be counted |
| RateLimitProtocol.ExcessIsRemembered | src/ratelimit/ratelimit.go:81-87 | a count above the limit enters its replica's cache for one period, one within it does not, and no other cache changes |
| RateLimitProtocol.CallsKeepTheirConfiguration | src/ratelimit/ratelimit.go:56-58 | a call goes on with the configuration in force when it began; after a failed reload a replica begins no more calls |
| RateLimitInvariant.StepKeeps | src/ratelimit/ratelimit.go:69-90 | every step of every replica, store or environment keeps the invariant |
| RateLimitInvariant.EveryHistoryIsSound | src/ratelimit/ratelimit.go:69-90 | in every run each decision and each drop follows from the events before it |
| RateLimitTheorems.NothingLost | src/ratelimit/ratelimit.go:76-79 | no key is dropped before its window ends, so no count is lost while it matters |
| RateLimitTheorems.AdmissionIsExact | src/ratelimit/ratelimit.go:81-87 | a timely count is answered OK if and only if all hits counted on its key are within its limit |
| RateLimitTheorems.AdmissionSinceDrop | src/ratelimit/ratelimit.go:81-87 | for late counts too: OK if and only if the hits since the key was last dropped are within the limit |
| RateLimitTheorems.WindowSafety | src/ratelimit/ratelimit.go:76-87 | over every run with reloads, the OK hits of one window of a prefix stay within the largest limit that the loaded configurations give it |
| RateLimitTheorems.EachOkIsWithinItsLimit | src/ratelimit/ratelimit.go:81-87 | at each OK, the OK hits of its window so far are within the very limit it was given under |
| RateLimitTheorems.WindowIsWithinGrantedLimit | src/ratelimit/ratelimit.go:76-87 | however limits change, the OK hits of a window stay within the limit that the last of them was admitted under |
| RateLimitTheorems.LateHitsAreBounded | src/ratelimit/ratelimit.go:76-87 | late hits included, a key admits at most the largest limit of its prefix once more than Redis drops the key |
| RateLimitTheorems.SlidingBound | src/ratelimit/ratelimit.go:109-112 | any interval of n periods admits at most n + 1 limits' worth of hits |
| RateLimitTheorems.CountersSimulate | src/ratelimit/ratelimit.go:71-84 | in every reachable state, for every open window: the counter in Redis and the reference counter are equal or both above the limit, and a key in a replica's cache has a stored counter above it |
| RateLimitTheorems.CacheRefinesReference | src/ratelimit/ratelimit.go:69-90 | for every interleaving and eviction, each timely answer is that of a limiter without local caches |
| RateLimitTheorems.OverLimitIsSticky | src/ratelimit/ratelimit.go:71-84 | once a key answers OVER_LIMIT, every later timely touch on every replica does |
| RateLimitTheorems.UnitAdmissionIsExact | src/ratelimit/ratelimit.go:63-90 | of n timely unit touches of a key exactly min(limit, n) are answered OK |
| RateLimitLate.LateCountEscapes | src/ratelimit/ratelimit.go:76-87 | a run that respects a limit of one and admits a second, late hit on the same key |
| RateLimitService.Service.Init | src/ratelimit/ratelimit.go:39-44 | starts with the given configuration, nil or not, and client and an empty local cache |
| RateLimitService.Service.SetConfig | src/ratelimit/ratelimit.go:46-50 | replaces the configuration, also by the nil of a failed reload, and nothing else |
| RateLimitService.Service.FindLimits | src/ratelimit/ratelimit.go:61-68 | the touches of every descriptor in order, each descriptor at its own reading of the clock, none for an unknown domain |
| RateLimitService.Service.ServeEntry | src/ratelimit/ratelimit.go:71-88 | one entry: a live cached key is answered OVER_LIMIT and changes nothing; any other adds its hits to its counter alone, gives it one more period to live, and is answered, and remembered for a period, by comparing the new count with the limit |
| RateLimitService.Service.ServeEntries | src/ratelimit/ratelimit.go:70-89 | the same for the entries of a descriptor, in order |
| RateLimitService.Service.ShouldRateLimit | src/ratelimit/ratelimit.go:52-92 | the whole new store, cache and status list of a request, with a clock reading for each descriptor and for each entry served; every touch counts the request's hits, or 1 for 0; OVER_LIMIT overall exactly if some status is; a panic exactly without a configuration |
| RateLimitService.Service.ServeLimits | src/ratelimit/ratelimit.go:69-90 | the outer loop: the entries of all descriptors, in order |
| RateLimitService.RequestRefinesScan | src/ratelimit/ratelimit.go:61-68 | the touches of a request are those of a scan of the stored rules, descriptor by descriptor and complete |
| RateLimitService.RequestedHits | src/ratelimit/ratelimit.go:63-68 | every touch of a request asks for the request's hits |
| RateLimitService.ServingIsARun | src/ratelimit/ratelimit.go:69-90 | serving named touches in order is a run of the machine whose history gains exactly them, with the answered statuses and times |
| RateLimitService.RequestedAreNamed | src/ratelimit/ratelimit.go:64-68 | all touches of a request are named by the configuration at readings of the clock, in time order |
| RateLimitService.NamingRuns | src/ratelimit/ratelimit.go:64-68 | naming them is a run that changes nothing but the clock and the calls |
| RateLimitAnswers.RequestIsARun | src/ratelimit/ratelimit.go:52-92 | a request served after any run extends it to a run |
| RateLimitAnswers.HandlerMatchesReference | src/ratelimit/ratelimit.go:52-92 | after any run of all replicas, each entry of a request counts the request's hits, or 1 for 0, and if it is served before its window ends is answered as a single limiter without caches does |
| RateLimitAnswers.FitsIfTotalsFit | src/ratelimit/ratelimit.go:76-79 | counters stay within 32 bits while a request is served if, with all it asks for, they would |
| ConfigSyncInvariant.StepKeeps | src/main.go:332-348 | every step of handlers, watcher and workers keeps the invariant |
| ConfigSyncTheorems.Convergence | src/main.go:143-162 | an existing node without pending change, load in progress or unbumped write was last loaded as stored, and is served as stored if that is consistent |
| ConfigSyncTheorems.LabelSoundness | src/main.go:144-154 | every snapshot ever published under a node's current UUID is the stored content, if no write followed the bump |
| ConfigSyncTheorems.SyncedMeansStored | src/rapi/rapi.go:1456-1480 | "synced" under a UUID means that a snapshot of that version was published, and only ones with the stored content |
| ConfigSyncTheorems.NoGoingBack | src/loader/mongoloader.go:940-977 | every published snapshot is consistent, each of its collections is what the database held at an instant at or after its label was read, and these instants never come before those of an earlier snapshot |
| ConfigSyncTheorems.ReadsFollowBump | src/main.go:341-346 | no collection of a snapshot was read before the bump that made its label |
| ConfigSyncTheorems.EmptyVersionLooksSynced | src/rapi/rapi.go:1463-1473 | a witness: without a UUID the status says synced though nothing was published |
| ConfigSyncTheorems.StoppedHandlerGoesUnnoticed | src/rapi/rapi.go:556-563 | a write without its bump leaves the status at synced, while no snapshot of that version has the new content |
| ConfigSyncTheorems.ServedIsLastPublished | src/main.go:150-157 | in every reachable state each node is served the last snapshot published for it, and none exactly if none was |
| ConfigSyncTheorems.ServedChangesByPublishing | src/main.go:150-157 | only a step that publishes changes what is served, and only for its node |
| ConfigSyncTheorems.NeverWithdrawn | src/main.go:150-157 | a node that is served stays served, whatever happens afterwards |
| ConfigSyncTheorems.UnmatchedNamesHoldBack | src/main.go:152-157 | a load is published exactly when its clusters and endpoints match name by name; if not, every node is served what it was |
| ConfigSyncTheorems.StatusFollows | src/rapi/rapi.go:1456-1490 | a bump makes the status false, a report makes it true exactly if it names the current version, a deletion leaves no status |
| ConfigManager.Manager.constructor | src/main.go:316-331 | the invariant holds when the stream is opened |
| ConfigManager.Manager.BumpVersion | src/rapi/rapi.go:561-563 | a fresh version for one node, whose document keeps its id, one more change, status false, and nothing else |
| ConfigManager.Manager.PutConfig | src/rapi/rapi.go:556-563 | a completed handler changes one collection of one node, gives it a fresh version, raises a change, makes its status false and leaves what is served |
| ConfigManager.Manager.DeleteConfigClusters | src/rapi/rapi.go:423-435 | the cluster and its endpoints go, other documents stay, and a consistent node stays consistent |
| ConfigManager.Manager.PutConfigNode | src/rapi/rapi.go:790-791 | a new document has no version, an old one keeps its own, and no collection changes |
| ConfigManager.Manager.DeleteConfigNodes | src/rapi/rapi.go:500-516 | listeners, clusters, endpoints and document go; secrets stay, no change is raised, and the node is served what it was |
| ConfigManager.Manager.OnStreamRequest | src/main.go:93-98 | records the version, and the status is true exactly if it is the node's |
| ConfigManager.Manager.LoadNode | src/loader/mongoloader.go:934-978 | reads the four collections in order, as they are stored, and writes nothing |
| ConfigManager.Manager.LoadNodeConfig | src/main.go:143-162 | the stored content is loaded under the version; if consistent it is published and served, if not every node is served what it was |
| ConfigManager.Manager.HandleChange | src/main.go:332-348 | one turn takes exactly the first change and loads its node, if its document still exists, as it is stored |
| ConfigManager.Manager.WatchLoop | src/main.go:332-349 | when no change is left, every node that is consistent and not half-written is served as stored, an inconsistent one what it was, and none is left without a snapshot it had |
| Text.SplitUndoesJoin | src/rapi/rapi.go:224 | splitting undoes joining on exactly the field lists whose fields neither contain nor straddle the separator |
| Text.SplitIsSeparable | src/rapi/rapi.go:224 | split fields are separable, and joining them gives the text back |
| Text.FieldsOfSpread | src/authzs3/authzs3.go:137 | fields come back as written, whatever the white space around them |
| Text.ParseUintOfDecimal | src/rapi/rapi.go:246 | a printed number comes back, clamped to the width it is parsed for |
| Text.AtoiOfDecimal | src/rapi/rapi.go:241 | likewise for the priority, clamped to 63 bits |
| Text.AtoiOfSigned | src/rapi/rapi.go:241 | so is a signed number |
| Text.GarbageIsZero | src/rapi/rapi.go:246 | digits followed by anything else give 0, unless they are too large already |
| Text.SameLetters | src/authzs3/authzs3.go:139 | two texts agree in upper case exactly if they agree in lower case |
| Text.SpacesByCode | src/authzs3/authzs3.go:137 | white space is what lies from tab to carriage return, and the blank |
| LiveClusters.TakeLine | src/rapi/rapi.go:224-251 | one line, as an in-place patch, does what the parsing function says, index panics included |
| LiveClusters.GetLiveClusters | src/rapi/rapi.go:218-252 | the loop folds exactly the newline-terminated lines, and panics exactly if one of them is short |
| LiveClusters.ShortLinesPanic | src/rapi/rapi.go:224-250 | whatever was read before, lines panic the parser exactly if one of them ends before a column that is read |
| LiveClusters.FewColumnsPanic | src/rapi/rapi.go:225-228 | lines of one or two columns panic, except those of the skipped names and settings |
| LiveClusters.OnlyTheseNeedValues | src/rapi/rapi.go:239-250 | a row without a value panics exactly for the four statistics that are read |
| LiveClusters.OnlyTheseAreSkipped | src/rapi/rapi.go:225-230 | of rows whose columns survive, exactly those of two clusters and three settings leave the list alone |
| LiveClusters.NumbersAreRead | src/rapi/rapi.go:239-250 | each number lands in its own field, clamped to 64 bits with sign or 32 bits without |
| LiveClusters.LineFormatIsExact | src/rapi/rapi.go:224 | a printed row's columns come back if and only if no colon of the first three is followed by one or stands last, and no two colons meet in the fourth |
| LiveClusters.CutAddressIsMisread | src/rapi/rapi.go:224-251 | a row of any address with "::" in it is read as a row of the part in front, with statistic and value taken from what follows |
| LiveClusters.CutStatisticIsLost | src/rapi/rapi.go:224-251 | where that names no statistic, the row only opens an endpoint at the part in front |
| LiveClusters.AbbreviatedAddressIsCut | src/rapi/rapi.go:224-251 | a witness: requests of [2001:db8::1]:80 |
| LiveClusters.PrintedLines | src/rapi/rapi.go:220-224 | the reader gives back the printed lines |
| LiveClusters.TailIsNotRead | src/rapi/rapi.go:220-223 | exactly the terminated lines are read, whatever follows the last newline |
| LiveClusters.AddRowsKeepShape | src/rapi/rapi.go:231-237 | no parse ever has equal neighbours or an empty cluster |
| LiveClusters.ParserUndoesPrinter | src/rapi/rapi.go:219-252 | with any skipped lines, unknown statistics and row orders, parsing gives back the printed cluster list, numbers clamped, if and only if neighbours differ and no cluster is empty |
| EndpointMerge.EndpointStore.PutConfigEndpoints | src/rapi/rapi.go:630-671 | status and whole new store of a request: one without a first endpoint at an IP address is refused and changes nothing, a short node name is refused and stored all the same, a first request is stored as it is, others merge into the document of their key, and no other document changes |
| EndpointMerge.FirstRequestIsStoredWhole | src/rapi/rapi.go:664-665 | the first request for a cluster keeps all its groups, in order, with all their endpoints |
| EndpointMerge.StoredGroupsStay | src/rapi/rapi.go:652-662 | a further request leaves every stored group in its place, adds its first endpoint at the end of those of its priority, or else appends its first group |
| EndpointMerge.MergeAdds | src/rapi/rapi.go:650-659 | exactly what a request adds to a stored document |
| EndpointMerge.MergeConserves | src/rapi/rapi.go:650-659 | the first endpoint is stored once and nothing else is added if and only if one stored group has its priority, or none and it comes alone in its group |
| EndpointMerge.MergeStoresRequest | src/rapi/rapi.go:650-659 | all endpoints of a request are stored and nothing else if and only if its later groups are empty, for a new priority, or else it brings its first endpoint as often as stored groups have the priority |
| EndpointMerge.LaterGroupsAreDropped | src/rapi/rapi.go:657-659 | a witness: a second group of a new priority is dropped |
| EndpointMerge.MergeExtendsGrouping | src/rapi/rapi.go:650-662 | one more request turns the grouping of the earlier ones into the grouping of all |
| EndpointMerge.RunsGroupByPriority | src/rapi/rapi.go:638-671 | from an absent document every run of one-endpoint requests stores their stable grouping by priority |
| EndpointMerge.RunConserves | src/rapi/rapi.go:650-659 | a run on distinct priorities keeps them distinct and stores each endpoint exactly once |
| EndpointMerge.GroupingConserves | src/rapi/rapi.go:650-662 | a document made by such a run has distinct priorities and exactly the endpoints put |
| AccessKeys.GetHeaderNamespace | src/authzs3/authzs3.go:136-152 | the scanning loop finds the first credential field of a Version 4 header, else reads the Version 2 form, else gives nothing |
| AccessKeys.PrefixesInAnyCase | src/authzs3/authzs3.go:139-147 | the prefixes aws, aws4 and credential= are matched in any letter case |
| AccessKeys.HeaderParserIsDefined | src/authzs3/authzs3.go:136-152 | the exact set of headers on which the parser does not index out of range |
| AccessKeys.HeaderKeyIsCarried | src/authzs3/authzs3.go:136-152 | the parser gives a key exactly if the header carries it: up to the first slash of its first credential, or up to the first colon of its second field, or none |
| AccessKeys.Version4HeaderRoundTrip | src/authzs3/authzs3.go:139-146 | the key of the first credential comes back, with any fields and white space around it, if and only if it has no slash |
| AccessKeys.Version2HeaderRoundTrip | src/authzs3/authzs3.go:147-150 | the key before the signature comes back if and only if it has no colon |
| AccessKeys.GetQueryNamespace | src/authzs3/authzs3.go:154-168 | the loop reads the first parameter that carries a key |
| AccessKeys.ParametersInAnyCase | src/authzs3/authzs3.go:158-161 | so are the two parameter names |
| AccessKeys.FirstParameterDecides | src/authzs3/authzs3.go:157-165 | nothing before the first matching parameter and nothing after it matters |
| AccessKeys.NoKeyInQuery | src/authzs3/authzs3.go:167 | without a matching parameter the key is empty |
| AccessKeys.Version2QueryRoundTrip | src/authzs3/authzs3.go:158-160 | the key of an AWSAccessKeyId parameter, in any letter case, comes back whole |
| AccessKeys.Version4QueryRoundTrip | src/authzs3/authzs3.go:161-164 | the key of an X-Amz-Credential parameter, in any letter case, comes back if and only if it has no "%2F" |
| AccessKeys.Version4Parameter | src/authzs3/authzs3.go:161-164 | the same for one parameter, and without any "%2F" all that follows the name |
| AccessKeys.ParameterParserIsDefined | src/authzs3/authzs3.go:161-164 | reading panics exactly on the bare credential name, alone or right before "%2F" |
| AccessKeys.QueryParserIsDefined | src/authzs3/authzs3.go:154-168 | reading a query panics exactly if its first parameter that carries a key is bare |
| AccessKeys.QueryKeyIsCarried | src/authzs3/authzs3.go:154-168 | the parser gives a key exactly if the query carries it: that of the first parameter with a key, up to its first "%2F" in Version 4, or none |
| S3Decision.GetRequestNamespace | src/authzs3/authzs3.go:112-134 | the first of header key, query key, namespace header and host label that names a namespace |
| S3Decision.FirstNamedOfFour | src/authzs3/authzs3.go:112-134 | each place counts only when all places before it name nothing |
| S3Decision.Response.SetStatus | src/authzs3/authzs3.go:169-211 | code 0 with an allowing reply or code 7 with a denying one of status 403, either with the non-empty namespace as its only header |
| S3Decision.Service.SetConfig | src/authzs3/authzs3.go:23-31 | replaces the configuration and nothing else |
| S3Decision.Service.SetNamespaces | src/authzs3/authzs3.go:33-38 | replaces the key mapping and nothing else |
| S3Decision.Service.Check | src/authzs3/authzs3.go:47-110 | the successive status settings end in the answer of the rule; it panics exactly on requests that are not decidable; it denies, with code 7 and status 403, exactly when the namespace that the request's text gives is configured and its effective action is false, and else allows with code 0; a request that is not HTTP keeps code 200 |
| S3Decision.NamespaceIsAsWritten | src/authzs3/authzs3.go:112-134 | the namespace found is the one that header fields, query parameters, namespace header and host labels give, read off the text |
| S3Decision.DecisionIsRight | src/authzs3/authzs3.go:76-108 | denied with code 7 and status 403 if and only if the request's namespace is configured and refuses it by the source's action or else its own, allowed with code 0 otherwise; the answer carries exactly its non-empty namespace |
| S3Decision.DecisionIsDefined | src/authzs3/authzs3.go:47-134 | the exact set of requests that are decided, by the fields of their header, the parameters of their query and their source |
| S3Decision.SignedRequestIsDecidedByItsKey | src/authzs3/authzs3.go:112-118 | a signed request with a mapped key is decided by that key's namespace, whatever else it says |
| S3Decision.Version2SignedRequestIsDecidedByItsKey | src/authzs3/authzs3.go:112-118 | likewise with Version 2 |
| S3Decision.PresignedRequestIsDecidedByItsKey | src/authzs3/authzs3.go:119-125 | likewise for a pre-signed request without a usable header |
| S3Decision.Version2PresignedRequestIsDecidedByItsKey | src/authzs3/authzs3.go:119-125 | likewise with Version 2 |
| S3Decision.NamespaceHeaderDecides | src/authzs3/authzs3.go:126-128 | where neither key names a namespace, the namespace header decides |
| S3Decision.HostLabelDecides | src/authzs3/authzs3.go:129-133 | else the first of three or more host labels does, and with fewer the request passes without a namespace |
| RouteTables.TranslateActions | src/loader/mongoloader.go:349-370 | the actions of a rate limit in order, none, one or two for each rule |
| RouteTables.LimitIsPreserved | src/loader/mongoloader.go:349-370 | a translated limit asks for the descriptor entries that its stored rules ask for, in order, for every request's headers |
| RouteTables.TranslateLimits | src/loader/mongoloader.go:343-374 | the list that the loop leaves, made anew in each turn |
| RouteTables.TranslateHeaders | src/loader/mongoloader.go:401-424 | header matchers appended in order, a regular expression over an exact value over presence |
| RouteTables.TranslateMatch | src/loader/mongoloader.go:378-425 | the match left on the last route, other routes unchanged; panics exactly for headers without a path specifier |
| RouteTables.TranslateRoute | src/loader/mongoloader.go:426-479 | the route action left on the last route, other routes unchanged |
| RouteTables.TranslateRedirect | src/loader/mongoloader.go:557-573 | the redirect left on the last route, replacing any route action |
| RouteTables.AddRoute | src/loader/mongoloader.go:376-574 | appends exactly the translated route, or panics exactly when headers are given without regular expression, path and prefix |
| RouteTables.TranslateHosts | src/loader/mongoloader.go:336-575 | the nested loops leave the translation of each virtual host, in order, with its name, its domains and its routes' names |
| RouteTables.MatchIsPreserved | src/loader/mongoloader.go:378-425 | a translated route matches exactly the requests that the stored one describes |
| RouteTables.SelectionIsPreserved | src/loader/mongoloader.go:375-425 | first-match selection picks the same route index for every request |
| RouteTables.RateLimitsSurvive | src/loader/mongoloader.go:343-374 | of several rate limits exactly the last is asked for, so all are if and only if there is at most one |
| RouteTables.ActionIsPreserved | src/loader/mongoloader.go:426-573 | cluster, path, host and rate limits of a forwarded request, or scheme, host and path of a redirected one, are what the stored fields ask for if and only if https is not set to false and at most one rate limit is given |
| RouteTables.RoutingIsPreserved | src/loader/mongoloader.go:336-575 | every request goes to the same virtual host and route, and is forwarded or redirected as the stored route asks exactly when that route's action is safe |
| FilterChains.AddHttpFilter | src/loader/mongoloader.go:209-276 | the filters that one stored HTTP filter becomes, with their defaults |
| FilterChains.FiltersOfOne | src/loader/mongoloader.go:209-276 | what each stored HTTP filter becomes, by its name and settings, in order |
| FilterChains.FiltersKeepOrder | src/loader/mongoloader.go:210-278 | the filters of a list are those of its parts, one after the other |
| FilterChains.OptionsByName | src/loader/mongoloader.go:265-276 | a rate-limit option is known by override, include or ignore in any letter case |
| FilterChains.TranslateHttpFilters | src/loader/mongoloader.go:206-287 | all of them in order, then the router |
| FilterChains.AddFilter | src/loader/mongoloader.go:120-582 | a filter of a known name is appended in its translation, any other is dropped; the exact missing parts that make it panic |
| FilterChains.TranslateFilters | src/loader/mongoloader.go:119-584 | one translated filter for each stored filter of a known name, in order, or a panic exactly if some filter panics |
| FilterChains.ParseListener | src/loader/mongoloader.go:93-105 | one translated chain for each stored one, with its server names, and one TLS inspector if some chain has a match, none otherwise |
| FilterChains.RouterComesLast | src/loader/mongoloader.go:281-287 | a connection manager has exactly one router filter and it is last |
| FilterChains.KeptInOrder | src/loader/mongoloader.go:119-584 | the filters translated are exactly those of a known name, each once and in stored order |
| FilterChains.ChainsRouteAsStored | src/loader/mongoloader.go:120-582 | the k-th filter is of the kind of the k-th known stored one, and has its cluster and log, or its interval, or its own HTTP filters, one router, last, and tables that treat every request as its own do |
| FilterChains.FiltersComeThrough | src/loader/mongoloader.go:209-280 | of authorization filters, limits by domain and limits by route exactly those asked for come through, with their settings and in order |

## Left out

- Mongo, Redis, freecache, gRPC, HTTP and go-control-plane internals: they appear only as the stores and steps above; their failures and timeouts are not modelled.
- RateLimitService.Service.ShouldRateLimit: the lookup and the two Redis commands of one entry happen at one instant and without other replicas in between; those interleavings are runs of the machine in `RateLimitProtocol`.
- RateLimitTheorems.WindowSafety: counts decisions taken before the end of the window; `LateCountEscapes` shows why, `LateHitsAreBounded` bounds the others.
- The reload loop of the rate limiter beyond replacing the configuration, and the version stream it reads.
- ConfigManager.Manager.WatchLoop: handles the changes that are waiting; the code blocks for the next one instead of returning.
- EndpointMerge.EndpointStore.PutConfigEndpoints: concurrent requests for one cluster, whose read and write are not one step, are not modelled, nor is the policy field of a document; the check of the address is a parameter.
- Strings are ASCII: case folding and white space outside ASCII are not modelled.
- LiveClusters.ParserUndoesPrinter: speaks of priorities from 0 up, as workers print them; the parser itself is modelled for signs too.
- Route timeouts, regular-expression rewrites, hash policies, connection-manager options and TLS contexts in `parseListener`: one-to-one copying or library calls. Regular-expression matching is a parameter of the routing theorems, and so is the choice of a virtual host by domain lists. Envoy's own treatment of rewrites and descriptors is modelled as far as `Effect` and `ActionsDescriptor` say.
- FilterChains.ParseListener: reading a fill interval is a parameter, and the filter names are constants of go-control-plane, which is not part of this model.
- Locks: each locked read or replacement of a configuration is one step.
- ConfigManager.Manager.constructor: a worker record of the node's current version, left from before the start, is only allowed if a snapshot of that version was published at the start.
- `parseCluster`, `parseEndpoint`, `parseSecret`, the certificate checks, access logs, interface and route proxies, live logging, flags and documentation handlers: they copy, forward or call libraries.
- The other authorization service (src/authz/authz.go): it decides like the S3 service, without keys and namespaces from several places.
