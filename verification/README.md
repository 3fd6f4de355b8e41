# golt, modelled in Dafny

golt is a Go toolkit for services: configuration that is read from files or from etcd and followed as it changes,
etcd helpers (a read-through cache, a watcher, service registration and discovery), and an HTTP layer with
middlewares and server-sent events. Most of it is small stateful code in which a fast or incremental form has to
agree with a simple one over every run. This project models those parts and proves that they do, or says exactly
when they do not.

| module | models |
|---|---|
| `FileNode`, `FileDriver`, `FileReload`, `FileHookLog` | the file driver: one node of keys, hooks and flags; the driver around the nodes; the debounce loop, its timers and the reload goroutine as a step machine; the calls that hooks receive over its runs |
| `Watcher`, `Overlap`, `WatchRuns` | prefix grouping and event dispatch; when no watch lies under another; the watches running side by side |
| `Kv`, `KvCoherence` | the read-through cache as an object, and as a step machine against the history of etcd |
| `Rules`, `EtcdDriver` | the rule loop shared by the drivers, and the etcd driver |
| `Sse`, `EventStream`, `SseRoundTrip` | the event printer; a client written from sections 9.2.5 and 9.2.6 of the WHATWG HTML Standard; the two together |
| `Middleware` | the middleware chain with its shared index, and nested composition |
| `RoundRobin`, `Discovery` | the host list kept from events, and the balance of `Resolve` |
| `Registrar` | lease and backoff |
| `ConfigTag`, `TagErrors`, `Binding`, `Configure` | struct tags and which of them are refused, bound fields, and building and closing a configuration |

Objects that the program updates in place are classes whose methods are proved against functions on values; the
properties are then lemmas about those functions. Concurrent parts are step machines, and their theorems hold for
every interleaving. Calls of hooks, of `Handle`, of etcd and of the network are entries in logs.

Five things that one might expect of the code are false, and are stated with the exact condition under which they
hold:

- A value fetched by `Kv` can stay stale for good (`KvCoherence.StaleExactlyWhen`, with the run
  `KvCoherence.StaleForever`).
- A load of a watched field can store an old value over a newer one that a hook has set, and nothing mends it until the
  file changes again (`Binding.StaleExactlyWhen`, with the run `Binding.StaleField`).
- Attached prefixes can be watched twice. This happens exactly when an empty prefix is not alone, or a prefix is
  attached after two others that it covers, that agree on fewer characters than the minimum length, and that nothing
  attached earlier covers both (`Overlap.OnceExactlyWhen`, with `Watcher.ShortPrefixesOverlap`).
- The host list can leave the registry behind when a put replaces a host or two keys share one
  (`Discovery.AgreesThroughoutExactlyWhen`, with `Discovery.ForeignPutsBreakAgreement`).
- A second call to `next` does not run the rest of the chain again. A middleware gets what nesting would give it, in
  front of any others, and one `Use` is the same to it as two, exactly when it never makes one
  (`Middleware.LoopIsNestingExactlyWhen` and `Middleware.SplitExactlyWhen`, with
  `Middleware.SecondCallSkipsTheRest` and `Middleware.SplitFailsWhenTwice`).

Besides, doubling the backoff overflows unless both settings are below 2^62 ns
(`Registrar.WaitsAsMeantExactlyWhen`), and round robin stays balanced across a wrap of its counter only if the number
of hosts divides 2^32 (`RoundRobin.BalancedExactlyWhenDivides`).

`dafny verify dfyconfig.toml` checks everything.

## Model

| member | source | states |
|---|---|---|
| `FileNode.Node.CacheFrom` | config/driver/file/file_node.go:28-70 | after loading a file exactly its keys exist, each with its text and a null as empty; every hook is kept, on a tombstone if need be, and entries without hooks go with their keys; flags are up where they were and where there is news for hooks |
| `FileNode.Node.OnKeyChange` | config/driver/file/file_node.go:74-87 | a hook is added exactly when the node is watched, last in its key's list, without making the key exist |
| `FileNode.Node.ExecuteHook` | config/driver/file/file_node.go:90-111 | visits each key of the file once, in any order; a flagged key's hooks are all called with its text, in registration order, and no others; the flags of these keys go down and nothing else changes |
| `FileNode.Node.GetString` | config/driver/file/file_node.go:114-139 | a reader sees the text of a key that exists, and nothing for a tombstone |
| `FileNode.RecordOfKey` | config/driver/file/file_node.go:91-109 | the order in which the map is walked does not show in the calls of any one key |
| `FileNode.DueInOrderJoins` | config/driver/file/file_node.go:91-109 | the calls follow the order in which the keys are visited |
| `FileNode.OneBatch` | config/driver/file/file.go:286-293 | a reload calls the hooks of a key exactly when the file has a text for it that readers did not see before and there was a hook for it: every hook known by then once, with that text, earlier registrations first |
| `FileNode.CachedFacts` | config/driver/file/file_node.go:33-69 | after a load every read answers from that file alone, hooks survive, and the flagged keys are the changed ones of the file that have hooks |
| `FileNode.AfterFacts` | config/driver/file/file.go:286-293 | one reload, with registrations slipping in between its two locked sections, makes just the calls told by the two file contents, and leaves no flag up |
| `FileNode.HookLogExact` | config/driver/file/file_node.go:28-111 | over any run of reloads and registrations the calls of a key are exactly those told from the successive file contents, across removals and re-additions, each batch in registration order |
| `FileDriver.Driver.New` | config/driver/file/file.go:40-91 | succeeds exactly when every file decodes, some rule has a namespace and the watch can be set up; then there is one node for each path holding that file alone, watched if any rule of the path says so, and every namespace at the last rule that lists it; when the watch fails the driver ends closed, and so does its watcher if one was made |
| `FileDriver.Driver.LoadToBuf` | config/driver/file/file.go:160-181 | decoding merges into the shared buffer, and a failure may leave part of a file there |
| `FileDriver.Driver.AddRule` | config/driver/file/file.go:52-77 | one rule: a path is loaded once, watching is only ever turned on, and the buffer is empty again afterwards |
| `FileDriver.Driver.Refresh` | config/driver/file/file.go:272-295 | a reload takes the node of its path through `CacheFrom`, the registrations that slip in and `ExecuteHook`, with exactly the calls then due; no other node changes, a failed one changes none, and all leave the shared buffer empty |
| `FileDriver.Driver.OnKeyChange` | config/driver/file/file.go:101-111 | accepted exactly for a known namespace whose node is watched, and then registered on that node only |
| `FileDriver.Driver.GetString` | config/driver/file/file.go:113-145 | after construction a namespace answers as the file of the last rule that lists it, whatever the other files hold, and one that no rule lists does not answer |
| `FileDriver.Driver.Close` | config/driver/file/file.go:147-158 | closing again has no effect |
| `FileDriver.ReadsItsOwnFile` | config/driver/file/file.go:52-77 | after construction a namespace answers exactly as the file of the rule it follows, with nothing left over from other files |
| `FileDriver.ReloadsAreIsolated` | config/driver/file/file.go:272-295 | after any number of good and failed reloads a node answers exactly as the last file that decoded, with its hooks kept |
| `FileReload.PendingStays` | config/driver/file/file.go:219-262 | a queued event, a timer being set, an armed or fired timer, or a pending send for a path never goes away before the read it stands for starts, even when a fired timer is reset before its map entry is deleted |
| `FileReload.EventsCoalesce` | config/driver/file/file.go:237-262 | an accepted event whose path has a timer in the map sets that timer again and starts nothing new; otherwise one more timer is armed and mapped |
| `FileReload.FiredTimerSends` | config/driver/file/file.go:212-222 | a timer that fires takes its path out of the map and sends it on |
| `FileReload.ReloadGoesThrough` | config/driver/file/file.go:272-295 | an undisturbed reload takes the node through `CacheFrom` and `ExecuteHook` with what the file holds |
| `FileReload.FailedReloadGoesThrough` | config/driver/file/file.go:280-284 | a read that fails leaves the node alone |
| `FileReload.NoLostUpdate` | config/driver/file/file.go:212-298 | in every state of every interleaving a watched file with an unread version has a read under way, a read version is what the node shows, flags are up only between the two locked sections and for keys of that file, and reloads never exceed accepted events |
| `FileReload.QuiescentIsInSync` | config/driver/file/file.go:212-298 | whenever nothing is left to do, every watched file that can be read and decoded is what its node shows |
| `FileReload.OwnStepsUseWork` | config/driver/file/file.go:212-298 | every step of the driver's own goroutines and timers uses up some of the outstanding work |
| `FileReload.NeverStuck` | config/driver/file/file.go:212-298 | until all is at rest the driver has a step to take |
| `FileReload.ComesToRestInSync` | config/driver/file/file.go:212-298 | once the files stay as they are, the driver comes to rest in a bounded number of steps whatever their order, and is then in sync |
| `FileHookLog.HookLogOverRuns` | config/driver/file/file.go:212-298 | in every interleaving of the goroutines, the calls that the hooks of a key have received are exactly those told from the files reloaded, one after the other, and the registrations, wherever these fell |
| `FileHookLog.AtRestExplained` | config/driver/file/file.go:267-298 | at rest no reload is half done, and the node is what those reloads and registrations make of its first content |
| `Watcher.FindCommonPrefix` | etcdutil/watcher.go:128-151 | returns the longest common prefix, or nothing when it is too short and neither of the two |
| `Watcher.LcpIsLongest` | etcdutil/watcher.go:128-140 | every common prefix is a prefix of the one computed |
| `Watcher.Watcher.constructor` | etcdutil/watcher.go:30-44 | a minimum length of one or less counts as one |
| `Watcher.Watcher.Attach` | etcdutil/watcher.go:52-68 | the first watched prefix that shares enough gives way to the common prefix, otherwise the new one is added; the observer goes last |
| `Watcher.Watcher.HasObserver` | etcdutil/watcher.go:71-78 | true exactly when an observer with that very prefix is attached |
| `Watcher.Watcher.Dispatch` | etcdutil/watcher.go:96-126 | a watch hands a put or delete to every observer whose prefix matches the key, in order of attachment, and nothing else to anyone |
| `Watcher.ReceiverMatches` | etcdutil/watcher.go:96-126 | whoever is handed an event is attached and has a prefix of its key, so that an observer that cuts its prefix off never cuts past the key |
| `Watcher.ReceiversJoin` | etcdutil/watcher.go:96-126 | an event is handed on in the order of attachment |
| `Watcher.AllCovered` | etcdutil/watcher.go:52-68 | for any prefixes and any minimum length every observer's prefix is covered by a watch, and every watch is of use to an observer |
| `Overlap.StaysApartExactlyWhen` | etcdutil/watcher.go:52-68 | from watches of which none lies under another and no two agree on the minimum length, attaching a prefix keeps them so exactly when it does not cover two of them |
| `Overlap.OverlapStays` | etcdutil/watcher.go:52-68 | once a watch lies under another, no later attachment mends it |
| `Overlap.ApartExactlyWhen` | etcdutil/watcher.go:52-68 | for any prefixes in any order, no watch lies under another exactly when none of them covers two earlier ones that agree on fewer characters than the minimum length and that nothing before it covers both, and an empty one stands alone |
| `Overlap.OnceExactlyWhen` | etcdutil/watcher.go:52-126 | every event is handled once by each matching observer and by no other exactly under that condition on the prefixes attached |
| `Overlap.LongIsSeparable` | etcdutil/watcher.go:38-68 | prefixes that are not shorter than the minimum length meet that condition in any order |
| `WatchRuns.HandledInOrder` | etcdutil/watcher.go:81-126 | however the watches interleave, at any time an observer has handled exactly the events meant for it among those that its watch has gone through, each once and in etcd's order |
| `WatchRuns.EachInOrderExactlyWhen` | etcdutil/watcher.go:52-126 | this holds for all observers, histories and interleavings exactly under the same condition on the prefixes attached |
| `Watcher.WatchesAreGrouped` | etcdutil/watcher.go:52-68 | with no prefix shorter than the minimum length, the watches are the longest common prefixes of the groups of observers that agree on that many characters, one for each group |
| `Watcher.OrderDoesNotMatter` | etcdutil/watcher.go:52-68 | then any order and any repetition of attachments give the same set of watches, none of them twice |
| `Watcher.LongPrefixesGiveOnce` | etcdutil/watcher.go:86-126 | then no watch is a prefix of another and dispatch is exactly once |
| `Watcher.ShortPrefixesOverlap` | etcdutil/watcher.go:52-68 | three short prefixes whose watches overlap, so that one event is handled twice by two observers |
| `Kv.Kv.Handle` | etcdutil/kv.go:213-254 | only the event's own slot changes, and only if it is cached: a put stores its value, a delete leaves a tombstone; all hooks of the slot run once each, in order, with the new value exactly at a put that changes what is cached, a tombstone included |
| `Kv.Kv.OnKeyChange` | etcdutil/kv.go:90-98 | the hook goes last in the list of the slot that events of the key use |
| `Kv.Kv.GetString` | etcdutil/kv.go:101-185 | a cached key or tombstone answers without etcd; otherwise etcd's answer is returned, and unless others have cached the key meanwhile a value that was found is cached as that value, a missing key as a tombstone, and a failure not at all; no other slot changes |
| `Kv.SecondReadAgrees` | etcdutil/kv.go:101-185 | a read after another one, with nothing in between, is answered the same whatever etcd would say by then, unless the first one's fetch failed |
| `Kv.StepBySlot` | etcdutil/kv.go:213-297 | over any run of events and inserts, each step changes its own slot as it should, and hooks run exactly at puts that change what is cached, all of the slot in order |
| `Kv.Kv.GetStringFromCache` | etcdutil/kv.go:257-267 | tells a missing entry from a tombstone |
| `Kv.Kv.GetNoCache` | etcdutil/kv.go:188-201 | a key is asked for under the name whose events go to its slot, whether or not it came with the prefix |
| `Kv.Kv.CacheWhenNotFound` | etcdutil/kv.go:272-297 | an insert never overwrites an entry that came meanwhile |
| `Kv.Kv.Preload` | etcdutil/kv.go:58-86 | all found keys are cached with their values, over older entries and tombstones, and other entries stay |
| `Kv.FoundMapIs` | etcdutil/kv.go:67-82 | what etcd returned is read back: the keys of its answer, each with its value |
| `Kv.SlotsFollowKeys` | etcdutil/kv.go:300-313 | the key asked for is the prefix with the slot, even when the prefix is repeated in the key, so that readers and events use the same slot; two names share a slot exactly when they name the same key |
| `Kv.RepeatNeedsDelete` | etcdutil/kv.go:213-254 | hooks fire twice in a row with equal values only if a delete of the key was handled in between |
| `KvCoherence.FetchedIsCoherent` | etcdutil/kv.go:122-129 | a fetched value that the watch has not overtaken turns into etcd's current one once the pending changes are handled |
| `KvCoherence.FillIsKept` | etcdutil/kv.go:272-297 | the insert of the step machine is that of the reader: a value or a tombstone goes in for a key that is not cached, and nothing else changes |
| `KvCoherence.PreloadIsKept` | etcdutil/kv.go:67-82 | a preload puts in every key that exists at its revision, with its value, and leaves the others alone |
| `KvCoherence.AtIsLast` | etcdutil/kv.go:213-254 | the value of a key at a revision is that of its last change up to it |
| `KvCoherence.StaleIsOvertaken` | etcdutil/kv.go:122-129 | an insert that leaves its key stale comes after the watch has handled a newer change |
| `KvCoherence.EntryFollowsWatch` | etcdutil/kv.go:213-297 | in every run without preloads an entry goes through the changes that the watch delivers and through nothing else |
| `KvCoherence.CoherentExactlyWhen` | etcdutil/kv.go:213-297 | at any later time an entry is coherent exactly when it was once what the watch had delivered last, or its key has changed after that |
| `KvCoherence.StaleExactlyWhen` | etcdutil/kv.go:101-185 | at any time after a reader's insert the key is stale exactly when the value fetched was not what the watch had delivered last before the insert and the key has not changed since; when the watch has caught up, stale means a wrong value |
| `KvCoherence.StepInv` | etcdutil/kv.go:101-297 | every single step keeps coherence and the reality of cached values |
| `KvCoherence.CacheCoherence` | etcdutil/kv.go:101-297 | in every state of every interleaving, replaying the undelivered changes over a cached entry that was not overtaken gives etcd's state, and every cached value is one that the key had at some revision |
| `KvCoherence.CaughtUpIsCurrent` | etcdutil/kv.go:213-297 | when the watch has caught up, an entry is etcd's value exactly when it was once what the watch had delivered last or its key has changed after that, and always if its insert was not overtaken |
| `KvCoherence.RegainedAtNextChange` | etcdutil/kv.go:213-254 | an overtaken key is coherent again from its next handled change, and stays so while nothing is preloaded |
| `KvCoherence.StaleForever` | etcdutil/kv.go:112-129 | a run after which everything is delivered and the cache is wrong |
| `EtcdDriver.Driver.New` | config/driver/etcd/etcd.go:69-127 | succeeds exactly when every preload does and some rule has a namespace; then namespaces with the same path share one cache and others do not, each cache holds what was preloaded for its path, each watched path is attached once in the order of the rules; the client is closed after a failed preload and left open when no rule has a namespace |
| `EtcdDriver.Driver.OnKeyChange` | config/driver/etcd/etcd.go:137-148 | accepted exactly for a known namespace whose path is watched, and then registered on that cache |
| `EtcdDriver.Driver.Close` | config/driver/etcd/etcd.go:186-196 | closing again has no effect, and the client is closed only if the driver is to close it |
| `EtcdDriver.WatchOrderFacts` | config/driver/etcd/etcd.go:106-110 | a path is attached exactly when a rule watches it, and only once |
| `EtcdDriver.WatchOrderGrows` | config/driver/etcd/etcd.go:106-110 | paths are attached in the order in which the rules first ask for them |
| `EtcdDriver.LoadedIs` | config/driver/etcd/etcd.go:93-103 | a preloaded cache holds exactly the keys that etcd returned, with their values |
| `EtcdDriver.EachCacheHandlesOnce` | config/driver/etcd/etcd.go:81-124 | with no watched path shorter than the minimum length, an event is handled once by the cache of each watched path that its key lies under, over all watches together, and by no other |
| `Rules.PlacedStep` | config/driver/etcd/etcd.go:112-114 | after each rule every namespace leads to the path of the last rule that lists it |
| `Sse.Context.Encode` | srvhttp/sse.go:36-88 | writes id, type, retry and data in that order, each field that is set on a line of its own, with one blank line at the end, all at once, and nothing when the payload cannot be encoded, so that any run of it writes the stream of the events |
| `Sse.TextIsLines` | srvhttp/sse.go:22-24 | replacing line feeds gives every line of the text a data line of its own |
| `Sse.FieldEscapeJoins` | srvhttp/sse.go:18-20 | the replacer works on a field piece by piece |
| `Sse.FieldEscapeOfOne` | srvhttp/sse.go:18-20 | line feed and carriage return become a backslash with `n` and `r`, and nothing else changes |
| `Sse.DataEscapeOfOne` | srvhttp/sse.go:22-24 | a line feed begins a new data line, a carriage return becomes a backslash with `r`, and nothing else changes |
| `SseRoundTrip.DecimalReads` | srvhttp/sse.go:61-65 | the retry number is read back as the same number |
| `SseRoundTrip.DecimalStarts` | srvhttp/sse.go:61-65 | it is printed without leading zeros |
| `SseRoundTrip.EventProcessed` | srvhttp/sse.go:36-88 | one printed event is one message for the client, and leaves nothing in its buffers |
| `SseRoundTrip.StreamRoundTrip` | srvhttp/sse.go:18-88 | for any events a client that follows the standard hears exactly those whose payload can be encoded, in order, with ids and types escaped, data less one leading space a line, the last id carried forward and the reconnection time set; no content starts a field or an event of its own |
| `SseRoundTrip.WrittenIsHeard` | srvhttp/sse.go:36-88 | whatever a context has encoded, the client at the other end has heard |
| `SseRoundTrip.FieldSurvives` | srvhttp/sse.go:18-20 | an id or type is heard unchanged exactly when it has no line break and no leading space |
| `SseRoundTrip.TextSurvives` | srvhttp/sse.go:22-24 | a text is heard unchanged exactly when it has no carriage return and no line that begins with a space |
| `SseRoundTrip.BreaksAreHeardEscaped` | srvhttp/sse.go:18-24 | a line break in an id or type is heard as a backslash and its letter, and so is a carriage return in a text, while a line feed in a text is heard as itself |
| `Middleware.Chain.ChainHandler` | srvhttp/router.go:33-42 | the closure over the shared index does what the loop specification says, and ends, for bodies making any finite number of calls to `next` |
| `Middleware.Chain.ServeHTTP` | srvhttp/router.go:24-45 | the context ends up with the result of the chain from index 0 |
| `Middleware.EachEnteredOnceInOrder` | srvhttp/router.go:33-42 | whatever the middlewares do, they are entered in index order, each at most once, and later calls to `next` go straight to the inner handler |
| `Middleware.LoopIsNestingExactlyWhen` | srvhttp/router.go:33-44 | in front of any list whose middlewares call `next` at most once, for every handler and request, a middleware gets from the loop what nesting gives it, exactly when it never calls `next` a second time |
| `Middleware.GivesTheSameExactlyWhen` | srvhttp/router.go:33-44 | the same for what its calls to `next` give back, which is all that it sees of the others |
| `Middleware.PoliteLoopIsFold` | srvhttp/router.go:33-44 | so it is the right fold on every request when all middlewares but the last call `next` at most once |
| `Middleware.UseSplits` | srvhttp/router.go:18-47 | `Use` of two lists together leaves the same context as `Use` of the one and then of the other, when the first list's middlewares call `next` at most once |
| `Middleware.SplitExactlyWhen` | srvhttp/router.go:18-47 | a middleware gets the same from its calls to `next` in one `Use` with any others as in front of a `Use` of them, for every handler and request, exactly when it never calls `next` a second time |
| `Middleware.SplitFailsWhenTwice` | srvhttp/router.go:18-47 | with a middleware in the first list that calls `next` twice the two answer a request differently |
| `Middleware.SecondCallSkipsTheRest` | srvhttp/router.go:33-42 | a middleware that calls `next` twice skips the others the second time |
| `RoundRobin.RoundRobinBalance` | etcdutil/discovery.go:88-89 | consecutive tickets without a wrap pick every host floor or ceiling of the average number of times |
| `RoundRobin.RoundRobinAcrossWrap` | etcdutil/discovery.go:88-89 | on any stretch that crosses the wrap of the counter at most once, two hosts' counts differ by at most 2 |
| `RoundRobin.BalancedExactlyWhenDivides` | etcdutil/discovery.go:88-89 | every stretch, however long, is balanced to within 1 exactly when the number of hosts divides 2^32 |
| `Discovery.Discovery.constructor` | etcdutil/discovery.go:44-55 | the list starts with the valid ones of the values found, in order |
| `Discovery.ValidOnesJoin` | etcdutil/discovery.go:44-55 | the values keep their order |
| `Discovery.StartAgrees` | etcdutil/discovery.go:44-55 | the first list agrees with the registry it was read from when no two keys share a host, and is its hosts in order |
| `Discovery.Discovery.Resolve` | etcdutil/discovery.go:79-91 | no host, the only host, or the host of the ticket; the counter wraps at 32 bits and is used only with two hosts or more |
| `Discovery.Discovery.Handle` | etcdutil/discovery.go:108-124 | valid puts add, deletes with a previous value remove, and a snapshot held by a reader never changes |
| `Discovery.Discovery.Add` | etcdutil/discovery.go:126-140 | a host goes last, once, into a new array |
| `Discovery.Discovery.Del` | etcdutil/discovery.go:142-165 | the first occurrence goes, in a new array, the others keeping their order |
| `Discovery.AgreesExactlyWhen` | etcdutil/discovery.go:108-124 | the list agrees with the registry after an event exactly when no put takes a valid host away from its only key and a delete names a valid host just when no other key has it |
| `Discovery.AgreesThroughoutExactlyWhen` | etcdutil/discovery.go:108-165 | over any run the list agrees with the registry after every event exactly when each event is of that kind at its time |
| `Discovery.HostsAreLive` | etcdutil/discovery.go:108-165 | over any run in which live keys have different hosts of their own, keys and hosts coming and going, the list is the hosts of the live keys in order of registration, without repetition |
| `Discovery.RestartIsSuchARun` | etcdutil/register.go:80-85 | a service that stops and starts again under a new key is such a run |
| `Discovery.ForeignPutsBreakAgreement` | etcdutil/discovery.go:108-124 | a replaced host stays in the list, and deleting one of two keys with the same host takes it out |
| `Registrar.Keeper.constructor` | etcdutil/register.go:37-62 | whatever is configured, the waits are the interval doubled and capped exactly when neither setting reaches 2^62 ns; settings that are not positive take defaults for which this holds |
| `Registrar.Keeper.Register` | etcdutil/register.go:154-167 | a granted lease is put, and revoked when its put fails; only a lease whose put succeeds is returned |
| `Registrar.Keeper.KeepAliveLoop` | etcdutil/register.go:109-152 | the loop tries to register once for each tick until the context is done, after a wait each time; every failed try is followed by a wait and every successful one by keeping its lease alive; the waits and leases are those of the failures and successes so far, and leases of failed puts are revoked |
| `Registrar.LogDisciplined` | etcdutil/register.go:109-152 | over every run a lease is kept alive only if it is that of the latest successful put, every wait is the backoff for the failures since, and no lease of a failed put is left without a revoke |
| `Registrar.LogPaced` | etcdutil/register.go:109-152 | no try, wait or keep-alive is left out of the log |
| `Registrar.CountedFromTries` | etcdutil/register.go:136-148 | the failures that a wait counts are the tries since the last one that succeeded, and the lease kept alive is that one's |
| `Registrar.BackoffIsMeant` | etcdutil/register.go:138-141 | below 2^62 ns the wait after k failures is the interval doubled k times and capped |
| `Registrar.WaitsAsMeantExactlyWhen` | etcdutil/register.go:138-141 | this holds for every number of failures exactly when both settings are below 2^62 ns |
| `ConfigTag.ParseConfigTag` | config/load.go:214-255 | the loop over the parts computes the parse that `TagErrors.ParsesExactlyWhen` describes, errors included |
| `TagErrors.ParsesExactlyWhen` | config/load.go:214-255 | a tag is accepted exactly when every part is blank or has a colon after its first character, every `lazy` and `watch` is a boolean, and the last key and the last namespace are there and not empty; every field then holds what was last said of it; otherwise the first bad part decides the error, and a missing key or namespace comes last |
| `TagErrors.SplitIsInverse` | config/load.go:216 | the parts are the text between its semicolons |
| `TagErrors.TrimIsAround` | config/load.go:218-227 | trimming takes away the space around a text, and nothing else |
| `TagErrors.BooleansAre` | config/load.go:236-242 | twelve texts are booleans, and no others |
| `ConfigTag.WrittenTagParses` | config/load.go:216-248 | space around names and values, blank parts and colons in values do not change what a tag means |
| `ConfigTag.LastWins` | config/load.go:228-247 | the parts are refused exactly when some boolean cannot be read, and otherwise the last value of each name holds |
| `ConfigTag.TagRoundTrip` | config/load.go:214-255 | a tag written in any of these ways, in any order and with repetitions, parses to the tag |
| `ConfigTag.ParsedPrints` | config/load.go:214-255 | whatever parses can be printed, and parses to the same tag again |
| `Binding.Field.Bind` | config/load.go:146-190 | a watched field whose key cannot be watched is refused before anything is loaded; a lazy one keeps its load function; any other is set or refused |
| `Binding.Field.TryLoad` | config/load.go:83-104 | a field that is set is never loaded again, and a failed load leaves it nil |
| `Binding.Field.Callback` | config/load.go:150-160 | a value that cannot be decoded leaves the field as it was |
| `Binding.BoundStarts` | config/load.go:146-165 | registering the hook starts such a run, between two reloads or in the middle of one |
| `Binding.ExecuteFollows` | config/load.go:150-160 | the hooks of a reload either set the field to what its key now holds, or leave both the field and the last good text as they were |
| `Binding.StaleExactlyWhen` | config/load.go:167-178 | in every interleaving of loads with reloads, at any time after a load's store and until another one, the field is out of step exactly when the value stored was not the last good one at that moment and no hook has set the field since |
| `Binding.StaleField` | config/load.go:167-178 | a run that ends, with nothing under way, with an old value in the field |
| `Binding.FieldFollowsStore` | config/load.go:83-190 | in every run a field never becomes nil again; and if nothing comes between the reading and the storing of each load, a field that is not nil holds, between reloads, the decoding of its key's last value that was present and could be decoded |
| `Configure.Configure.New` | config/configure.go:23-50 | succeeds exactly when every driver opens and no namespace is claimed twice, and then maps every namespace to its driver with none closed; otherwise, with k the first driver that fails or claims a taken namespace, the opened drivers that are closed are k and those before it that have a namespace, each once |
| `Configure.NothingBadMeansDisjoint` | config/configure.go:37-46 | no driver stops construction exactly when all open and their namespaces are disjoint |
| `Configure.Configure.Close` | config/configure.go:163-167 | every driver in the map is closed, and one that was closed already, or that has several namespaces, is not closed again |

## Left out

- FileDriver.Driver.Refresh: nodes are values here, the ones that `FileNode.Node.State` gives, and a namespace leads to the path of its node, so that sharing of node pointers between maps is not captured. What comes between the two locked sections is limited to registrations on that node, as nothing else touches it.
- FileReload.NoLostUpdate: runs start with the watch in place and the nodes in sync, since changes between the first load and `watcher.Add` can be missed; every change of content is taken to cause a Create or Write event, possibly merged with an equal event that is last in the queue; reading a file that can be decoded and was not written meanwhile gives its content. `quit` and `Close` are not part of the machine.
- KvCoherence.CacheCoherence: runs start with the watch in place and the cache coherent, since changes between `Preload` and the start of the watch can be missed. One watch feeds the cache, as is so for separable prefixes (`Overlap.Separable`); with overlapping watches the slower one would deliver older changes once more. A reader may fetch without having missed first, which only adds runs.
- Kv.Kv.GetString: stands for `Get`, `GetString` and `UnsafeGet` at once. `meanwhile` stands also for what others do between the lookup and the fetch, as the fetch does not touch the cache. The memory that `UnsafeGet` shares with the cache is not modelled.
- EtcdDriver.Driver.OnKeyChange: the case of no watched rule, where the driver's watcher is nil, is excluded.
- EtcdDriver.Driver.New: starts from a client that has been made; options, timeouts and the default client settings are not modelled.
- WatchRuns.HandledInOrder: a watch goes through all events in etcd's order; lost watches, compaction and the recovery of a panicking observer are not modelled.
- Discovery.HostsAreLive: starts with the watch in place, since changes between the first `Get` and `Watch` can be missed.
- Discovery.Discovery.Resolve: the conversion of the ticket to `int` is that of a 64-bit machine.
- Registrar.Keeper.Register: `randz`, the lookup of the local address and the time an operation takes are not modelled; whether grants and puts succeed is a parameter.
- Middleware.Chain.ChainHandler: middlewares that panic, run in other goroutines or pass another context on are not modelled; a body is a deterministic tree of calls to `next`.
- Sse.Context.Encode: errors of `Write`, flushing and the values of the headers are not modelled; JSON is text on one line, and the stream is taken as decoded from UTF-8.
- Binding.Field.Bind: reflection, `unsafe` pointers, exported and non-pointer fields, and timeouts of loads are not modelled; decoding is any partial function.
- Binding.Field.TryLoad: is one call on its own; what other goroutines do between the reading and the storing is in `Binding.StaleExactlyWhen`, where a load may also begin when the field is not nil.
- Binding.FieldFollowsStore: is about fields bound to keys of files, not of etcd.
- Configure.Configure.New: what a driver does beyond its namespaces and `Close` is not modelled; logging is left out everywhere.
- Hooks are entries in a log: an error that a hook returns is only logged by the program, and what a hook does is not modelled, except for the callback of a bound field.
- Decoding of YAML, TOML and JSON, and `fmt.Sprint`, are parameters or opaque texts. The 500 ms of the debounce are left out: a timer is armed, fires, or is set again.
- The routing of gorilla/mux, CORS, static files, the getters of `Context`, `unierr`, the typed getters of `Configure` and `unquote` are left out: their properties can be read off one body.
