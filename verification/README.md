# Gateway: a verified model of its stateful cores

The gateway publishes Tor onion services through a fleet of proxies. A hub
holds the configuration of all tenants and streams it to edge nodes; an edge
validates what it receives and serves requests through a pool of Tor instances,
with retries, a negative cache and a static cache in front. This project models
the parts whose correctness depends on many steps and proves what they keep.

| files | what they hold |
|---|---|
| `Config`, `Storage`, `Diff`, `Hub` | the hub's registry, its data directory, and the events it emits |
| `Edge`, `Pipeline`, `Sse` | the edge's fold over events, the two drop-oldest queues, the SSE text |
| `Broadcasts`, `Replication`, `LocalMode`, `Features` | broadcasts after unlocking, remote and local convergence, validate-then-swap reload |
| `Pool`, `Shutdown`, `ProbeHistory`, `Health`, `Flights` | the Tor pool, mutations against shutdown, probes and replacements |
| `Retry`, `Negcache` | the retry loop and the blacklist it feeds |
| `Lockout`, `LockoutWindows`, `Abuse` | the two time-window limiters |
| `Audit` | the audit index over BoltDB keys |
| `Canonical`, `Headers`, `StaticCache` | cache keys, hop-by-hop stripping, the cache as concurrent steps |
| `Onion` | v3 onion addresses |
| `Text`, `Orders`, `Sorting`, `Keys` | ASCII case and trimming, byte order, sorting, NUL-joined keys |

Code that changes state is a class whose `Valid()` couples the real fields to a
ghost history or to a specification without any deletion, so what `Valid()`
says holds after every run of the methods. Code that runs concurrently is a
state machine whose steps are the single accesses to shared state, with a lemma
over every run. `dafny verify dfyconfig.toml` covers the whole project.

## Where code and comments differ

Each line names the lemmas that say exactly when the code does what it should.

- The lockout counts soft failures over the shorter of its two windows, because
  it discards what is older than the hard one. The soft ban is the configured
  one if and only if the soft window is not the longer one, or soft bans never
  start or never last, or one failure is enough and the hard window is not
  negative (`Lockout.SoftWindowHonouredIff`). What a client is told is right for
  a few configurations more, those in which a hard ban always covers the
  difference (`LockoutWindows.VerdictsRightIff`).
- A non-positive limit switches the abuse limiter off, so a cap of L holds
  exactly for limits in 1..L (`Abuse.LimitIsSafeIff`).
- When a stream ends with io.EOF, both SSE readers treat the last unfinished
  line as complete; on any other read error they drop it. They emit an event
  that nobody sent if and only if the stream ends in this clean way inside a
  payload (`Sse.CutIsPrefixIff`); the event changes an edge if and only if it
  was a piece of a globals update and the edge had globals features, which it
  loses until the next connection (`Replication.CutChangesEdgeIff`). A
  connection that breaks with an error loses nothing but the unfinished frame.
- The comment in `internal/hub/stream.go` that nothing else can receive while
  the oldest event is dropped overlooks the serving goroutine; the queue
  properties hold with it receiving at any moment (`Pipeline.ReofferSucceeds`).
- Hosts that differ only in case share one entry on an edge. A snapshot comes
  out right if and only if such hosts have the same settings
  (`EdgeFold.ListedShowsIff`), an upsert likewise (`EdgeFold.UpsertCarriesIff`),
  a delete if and only if no other host shares the entry
  (`EdgeFold.DeleteCarriesIff`), and the events of an external edit if and only
  if the new tenants are compatible in this sense and no vanished host shares an
  entry with one that stays or comes (`Diff.DiffCarriesIff`): editing a tenant's
  host from `A` to `a` makes edges lose the tenant. Where every host is its own
  lower case no subscriber ever falls out of step (`Hub.LowerIsSafe`,
  `Replication.LowerCaseConverges`).
- Two hosts with one sanitised name share one file. Stored tenants load back if
  and only if their file names are distinct (`Storage.StoredLoadsIff`); under
  the program's naming `a b` and `a-b` are not (`Storage.BlankAndDashCollide`).
- Replacements of one port can overlap (`Health.OverlapAfterForget`): one more
  starts if and only if the port was forgotten since each one still running was
  started (`Flights.StartsIff`), and the number in flight is the number of
  raised flags (`Health.InFlightExactly`).
- A probe counts its failure, finds the tracker dead and asks for a replacement in
  separate steps. A port that it sends for replacement still has three failures
  in a row if and only if no replacement has reset the tracker since the probe
  found it dead (`ProbeHistory.JustIsFounded`, `Health.ReplacedAfterReset`).
- The hub changes its state under the lock and broadcasts after releasing it, so
  two upserts of one host can reach the edges in the wrong order, which leaves
  them with the settings that were replaced (`Broadcasts.SwappedRunDiverges`);
  likewise a change can be enqueued before the snapshot that lacks it
  (`Broadcasts.SnapshotOvertaken`). Two orders leave every edge alike if and only
  if, for each entry and for the globals, the last event about it does the same
  (`Broadcasts.AlikeIff`), so edges converge in every run in which no event
  overtakes another about the same entry or the globals
  (`Broadcasts.OrderlyRunsAgree`, `Replication.ReorderedConverges`).
- `Start` does not look at the shutdown flag, so a drained pool is empty if and
  only if no boot has added instances since the last drain
  (`Shutdown.StaysEmpty`).
- An external edit that was read before and is committed after a change through
  the hub's methods undoes that change, and announces nothing if the directory
  said what the hub held when the edit began. A local edge that is idle then
  shows what the hub no longer holds, until the watcher handles the write of that
  change (`LocalMode.UpdateLost`); it is right in every run in which no method
  changes the hub during an edit (`LocalMode.LocalConvergence`).
- Only POST, PUT, PATCH and DELETE bodies are buffered. All attempts are offered
  the whole body, whatever happens, if and only if the method is one of these,
  or there is no body, or only one attempt is allowed, or all live backends are
  on one port (`Retry.WholeBodyIff`); otherwise a second attempt can find
  nothing left (`Retry.SecondAttemptIsEmpty`).
- Two hosts can share a negative-cache key if and only if one is the other
  followed by a NUL and more (`Keys.HostsShareKeyIff`), and tenants are isolated
  if and only if no two of them are so related (`Negcache.IsolatedIff`).
- The static cache's key for requests without a tenant contains no character
  that is absent from host names, so it is also the key of a tenant called
  `_global_` (`StaticCache.TenantsShareIff`).
- The static cache looks at no request header but Accept-Encoding, Cookie and
  Authorization, and at no Vary but a star. Its clients get what they would get
  without it, in every run, if and only if the upstream answers any two such
  requests for one thing alike (`StaticCache.TransparentIff`); one that honours
  Range does not, and a request for a whole script is sent a part
  (`StaticCache.PartIsSentForWhole`).
- An audit event from before 1970 is indexed at time zero. What a query reports
  is later than `since` and in the order of the events' own times if and only if
  `since` is not before 1970, or every event is later than `since` and those up
  to 1970 were written in the order of their times (`Audit.TrueTimesIff`,
  `Audit.EpochOutOfOrder`).
- The comment on `New` in `internal/hub/registry.go` says that a broken
  globals.yaml aborts construction. It does not; the hub boots without a tenant
  map. An upsert that passes its checks then writes its file and panics, with
  the lock held, so that every later call blocks. It does not return if and only
  if the globals could not be read at the start and no edit has been loaded since
  (`Hub.Registry.UpsertTenant`, `Hub.BrokenBootPanics`).

## Model

| member | source | states |
|---|---|---|
| `Hub.Registry.constructor` | internal/hub/registry.go:69-109 | a registry over any directory: with readable globals it keeps every tenant that parses, the file with the last name winning; otherwise it has no globals and no tenant map; it is tidy exactly when everything loads from its own file |
| `Hub.Registry.UpsertTenant` | internal/hub/registry.go:133-156 | the whole new state, and the event every subscriber gets describes the tenant with each backend's address and weight; subscribers stay in step iff the new tenants are compatible, the directory stays tidy iff the tenant is valid, normalised and has its own file; an empty host or a failed write changes nothing; past these checks it panics or blocks iff nothing was ever loaded, with the file written and nothing else changed |
| `Hub.Registry.DeleteTenant` | internal/hub/registry.go:162-190 | the same for deletion; an unknown host bumps no version and sends nothing, but its file goes; behind a panicked call only the file goes |
| `Hub.Registry.SetGlobals` | internal/hub/registry.go:194-212 | the same for globals, which no edge can get wrong |
| `Hub.Registry.Subscribe` | internal/hub/registry.go:222-265 | the new stream is one snapshot that describes every tenant exactly once, by host, with its backends; the subscriber is in step iff the tenants are compatible; a closed registry takes none, a stuck one never answers |
| `Hub.Registry.Close` | internal/hub/registry.go:269-290 | removes every subscriber and closes the registry, or blocks behind a panicked call |
| `Hub.Registry.SnapshotInfos` | internal/hub/registry.go:244-254 | the infos list each tenant once, sorted by host, at the current version |
| `Hub.Registry.Unsubscribe` | internal/hub/registry.go:387-399 | removes that stream only |
| `Hub.Registry.OnExternalChange` | internal/hub/registry.go:296-355 | an edit that loads is adopted, brings a tenant map, and every stream gets the difference, in order, none iff nothing changed; subscribers stay in step iff the difference is safe; an edit that does not load leaves memory and streams as they were; in a stuck registry nothing is read |
| `Hub.Registry.PlanReload` | internal/hub/registry.go:296-354 | the planned events keep the whole invariant, and are none when nothing changed |
| `Hub.Registry.ReloadOwnWrite` | internal/hub/registry.go:296-355 | reloading a tidy directory succeeds, changes nothing, emits nothing and keeps every subscriber in step |
| `Hub.BrokenBootPanics` | internal/hub/registry.go:133-148 | for every unreadable globals.yaml: the first upsert panics, the second blocks, both files are written |
| `Hub.UpsertCallKeepsSound` | internal/hub/registry.go:133-156 | every end of an upsert call, the panic included, keeps the whole invariant |
| `Config.InfoDescribes` | internal/hub/registry.go:461-482 | an info is the one sent for a tenant iff it carries its host, state, every backend's address and weight in order, and every feature's setting at this version |
| `Hub.UpsertAnnounces` | internal/hub/registry.go:144-155 | an upsert adds one such event to every stream and nothing else |
| `Hub.ListsDescribe` | internal/hub/registry.go:244-254 | the infos of a snapshot describe every tenant once |
| `Hub.LowerIsSafe` | internal/proxy/snapshot.go:686-709 | tenants whose hosts are their own lower case are compatible, differ safely, and share no entry |
| `Diff.DiffEvents` | internal/hub/registry.go:311-354 | the events lead every edge from the old state to the new one iff the difference is safe; globals come before upserts before deletes, each kind by host; every upsert describes its new tenant; no events iff the states are equal |
| `Diff.InOrderMeans` | internal/hub/registry.go:311-354 | that order: globals before every tenant, upserts before deletes, each kind by host |
| `Diff.DiffCarriesIff` | internal/hub/registry.go:311-354 | safe means: the new tenants are compatible and no vanished host shares an entry with one of them |
| `Diff.UpsertEvents` | internal/hub/registry.go:324-336 | one upsert for each listed host, in the order of hosts |
| `Diff.DeleteEvents` | internal/hub/registry.go:338-354 | one delete for each vanished host, in the order of hosts |
| `Diff.ChangedHosts` | internal/hub/registry.go:317-328 | exactly the new and changed hosts, in ascending order |
| `Diff.UpsertsSettle` | internal/hub/registry.go:324-336 | after the upserts sent so far an edge shows every tenant that is unchanged or shares its entry with one that was sent |
| `Diff.DeletesClear` | internal/hub/registry.go:338-354 | the deletes remove the vanished tenants and touch none that stays |
| `Diff.CarriedIsApart` | internal/hub/registry.go:338-354 | and where a vanished host shares an entry with one that stays, that entry is lost |
| `Diff.TenantsShow` | internal/hub/registry.go:324-354 | upserts and deletes together bring any edge from the old visible tenants to the new ones |
| `Hub.UpsertKeepsGood` | internal/hub/registry.go:133-156 | memory, disk and streams still agree after an upsert |
| `Hub.DeleteKeepsGood` | internal/hub/registry.go:162-190 | memory, disk and streams still agree after a delete |
| `Hub.AdoptKeepsGood` | internal/hub/registry.go:296-355 | memory, disk and streams agree after any adopted external edit |
| `Hub.CarriedReplicates` | internal/hub/registry.go:370-383 | broadcasting events that carry one state to another keeps every subscriber that was in step in step |
| `Storage.SanitizeHost` | internal/hub/storage.go:269-286 | the builder loop computes the character map on the trimmed lower-case host |
| `Storage.LoadAll` | internal/hub/storage.go:108-147 | succeeds iff the globals' default is a known one and every YAML file parses to a tenant with a host, a backend and an address for each; in any case returns exactly the tenants of the good files, each as its last file says, with a weight of one where it gives none |
| `Storage.ReadFiles` | internal/hub/storage.go:130-142 | the loop over the directory in the order of names |
| `Storage.ReadsAreLoaded` | internal/hub/storage.go:130-147 | the same, for whatever the loop has read |
| `Storage.LoadableIff` | internal/config/runtime.go:124-155 | which globals and tenant files are good, spelled out |
| `Storage.FileNameSays` | internal/hub/storage.go:269-286 | a file name is the trimmed host in lower case with a dash for every character other than letters, digits, dash, dot and underscore, and .yaml |
| `Storage.YamlIff` | internal/hub/storage.go:132-134 | a file is read iff its name ends in .yaml in whatever case |
| `Storage.LoadsUnique` | internal/hub/storage.go:108-147 | a directory loads as one state only |
| `Storage.MatchesLoads` | internal/hub/storage.go:108-147 | a directory that matches a state loads as that state and no other |
| `Storage.TidyLoadMatches` | internal/hub/storage.go:108-147 | any directory with normalised tenants in their own files matches what it loads as |
| `Storage.WriteMatchesIff` | internal/hub/storage.go:74-83 | after a write disk and memory agree iff the tenant is valid, normalised and its file is no other tenant's |
| `Storage.DeleteMatchesIff` | internal/hub/storage.go:87-92 | after a delete they agree iff the file that went was no other tenant's |
| `Storage.SharedNameLosesTenant` | internal/hub/storage.go:67-83 | the second of two hosts with one file name erases the first |
| `Storage.StoredLoadsIff` | internal/hub/storage.go:67-83 | whatever valid tenants are stored, in any order and however often, all load back iff their file names are distinct |
| `Storage.BlankAndDashCollide` | internal/hub/storage.go:269-286 | under the program's naming the hosts "a b" and "a-b" do not |
| `EdgeFold.TenantAllowed` | internal/hub/nodes.go:201-219 | true iff the node is registered and its list is empty, has a star or has the host |
| `EdgeFold.CarriesCompose` | internal/proxy/snapshot.go:670-715 | event batches compose: carrying A to B and B to C is carrying A to C for every caller |
| `EdgeFold.MirrorsExtend` | internal/hub/registry.go:370-383 | a stream that mirrors the hub still does after events that carry the hub's change |
| `EdgeFold.UpsertCarriesIff` | internal/proxy/snapshot.go:698-703 | a filtered upsert takes every edge of every node from the old visible tenants to the new ones iff the new ones are compatible |
| `EdgeFold.DeleteCarriesIff` | internal/proxy/snapshot.go:704-709 | a filtered delete does iff no other host shares the entry |
| `EdgeFold.GlobalsCarries` | internal/proxy/snapshot.go:696-697 | the same for globals, which no filter stops |
| `EdgeFold.SnapshotMirrors` | internal/hub/stream.go:177-198 | a filtered snapshot brings any prior edge of every node to exactly its visible tenants and the globals, iff the tenants are compatible |
| `EdgeFold.ListedShowsIff` | internal/proxy/snapshot.go:686-695 | a node's part of a snapshot shows exactly the tenants it may see iff those that differ only in case have the same settings |
| `EdgeFold.MirroredIsCompatible` | internal/proxy/snapshot.go:693-703 | a stream can leave all edges right only if the tenants are compatible |
| `EdgeFold.ShowsIff` | internal/proxy/snapshot.go:722-790 | an edge shows a state iff it has the hub's globals features and, under their lower-case hosts, exactly the tenants, each with its host, state and features, every setting as configured |
| `EdgeFold.ShowsIsRight` | internal/hub/nodes.go:201-219 | for a node this means the tenants of the registered node's list, all of them without a list or with a star, none for an unknown node |
| `EdgeFold.SeesExactly` | internal/hub/nodes.go:201-219 | an edge has an entry iff it is the lower case of a host its node may see |
| `EdgeFold.UnregisteredSeesNothing` | internal/hub/nodes.go:205-208 | the edge of an unregistered node has no tenant |
| `EdgeFold.FilterSendsRightly` | internal/hub/stream.go:177-198 | what is sent of an event mentions exactly the tenants the caller may see |
| `Broadcasts.AlikeIff` | internal/proxy/snapshot.go:670-715 | two streams leave every edge alike iff for each entry and for the globals the last events about it do the same |
| `Broadcasts.OrderDecides` | internal/proxy/snapshot.go:670-715 | two streams with the same events per entry and for the globals, in the same order, leave an edge alike |
| `Broadcasts.MirrorsReordered` | internal/hub/stream.go:177-198 | the same through every node's filter: a stream with the hub's order per entry mirrors the hub as the hub's own order does |
| `Broadcasts.OrderlyRunsAgree` | internal/hub/registry.go:144-155 | over every interleaving of commits and broadcasts in which none overtakes another about the same spot, the stream has the order of the commits for every spot |
| `Broadcasts.SwappedRunDiverges` | internal/hub/registry.go:144-155 | two upserts of one host broadcast in the wrong order leave every edge with the settings that were replaced |
| `Broadcasts.SnapshotOvertaken` | internal/hub/registry.go:254-259 | a change enqueued before a snapshot that lacks it is lost on the edge |
| `Pipeline.StepKeepsInv` | internal/hub/registry.go:406-451 | each channel operation of sender, courier and reader keeps order, bounds and the newest event |
| `Pipeline.EveryRunSelects` | internal/hub/registry.go:406-451 | in every interleaving delivered and waiting events form an increasing selection of the enqueued ones ending in the newest; both queues stay within their bounds; nothing is missing unless a queue was full |
| `Pipeline.EnqueueTerminates` | internal/hub/registry.go:406-428 | at most three own steps finish an enqueue, whatever the drain does in between, and the event is then in the queue |
| `Pipeline.ReofferSucceeds` | internal/hub/stream.go:230-251 | after clearing one slot the second offer is always taken |
| `Pipeline.DropKeepsFlow` | internal/hub/registry.go:418-426 | dropping the oldest never drops the newest and keeps the order |
| `Pipeline.ClearKeepsFlow` | internal/proxy/snapshot.go:192-212 | the same for the second queue, also when the reader emptied it first |
| `Sse.RoundTrip` | internal/hub/stream.go:203-212 | reading the printed text of any events with any keepalives between them gives exactly those events, however the stream ends |
| `Sse.StopAndResume` | internal/proxy/snapshot.go:306-323 | stopping after any number of events and resuming on the same reader loses and repeats nothing |
| `Sse.CutYieldsPrefix` | internal/proxy/snapshot.go:582-607 | a stream cut at a line boundary yields a prefix of the uncut stream's events, for any text and any endings |
| `Sse.CutAnywhere` | internal/proxy/snapshot.go:582-607 | for a cut after any number of characters and any ending: the events whose text arrived, and at a clean end what the readers make of a fragment |
| `Sse.CutIsPrefixIff` | internal/proxy/snapshot.go:553-599 | the cut stream yields a prefix of what was sent iff it ends with an error or by cancellation, or the cut leaves no proper fragment of a payload |
| `Sse.ReadFrame` | internal/proxy/snapshot.go:546-633 | a frame read from a fresh reader yields its event and leaves the reader fresh |
| `Sse.ReadKeepalive` | internal/hub/stream.go:127-131 | a keepalive is invisible to both readers |
| `Sse.LineRules` | internal/proxy/snapshot.go:611-633 | comments and unknown fields are ignored, event and data take what follows the colon less one blank, a second data line is joined to the first |
| `Sse.FlushRules` | internal/proxy/snapshot.go:553-580 | data that parses becomes its event, other data one of the named type, or nothing without a name |
| `Sse.DataAlone` | internal/proxy/snapshot.go:553-580 | a frame without an event line yields its data if that is an event, and nothing otherwise |
| `Sse.ReadEvents` | internal/proxy/snapshot.go:546-607 | the loop returns the same events, the same rest of input and the same reason as the recursive reading, for every limit, read error and cancellation |
| `Sse.StoppedShort` | internal/proxy/snapshot.go:582-599 | a reader that an error or the context stops has not had enough events |
| `Sse.ReadSSEEvents` | internal/proxy/snapshot.go:546-633 | the edge's reader is that reading, and fails exactly when a read does |
| `Sse.ParseOneSSEEvent` | internal/proxy/snapshot.go:527-541 | succeeds iff there is an event before the stream comes to any end; the event and all later ones are what reading everything gives |
| `Sse.ParseEvents` | internal/door/snapshot.go:293-356 | the door's loop reads the same events; it fails on a read error, and at the end of the stream when fewer than asked for arrived, but not on cancellation |
| `Sse.ParseSSE` | internal/door/snapshot.go:293-382 | the door's reader agrees with the edge's on every input and every ending |
| `Replication.DrainedDeliversAll` | internal/hub/registry.go:406-451 | queues that never overflowed and are empty have delivered everything in order |
| `Replication.RemoteConvergence` | internal/hub/stream.go:108-135 | a mirroring stream sent through queues, filter and SSE text leaves any edge with the hub's globals features and exactly the tenants its node may see, each setting as the hub has it |
| `Replication.EverySubscriberConverges` | internal/hub/registry.go:133-265 | the same for every subscriber in step of every reachable hub |
| `Replication.LowerCaseConverges` | internal/hub/registry.go:133-265 | the same for every subscriber of a hub whose hosts were always lower case |
| `Replication.ReorderedConverges` | internal/hub/registry.go:133-265 | remote convergence for every stream that keeps the order of the hub's changes per entry and for the globals |
| `Replication.CutAtEdge` | internal/proxy/snapshot.go:685-749 | the end of a connection does nothing to an edge beyond the events that arrived, except that a clean end inside a globals update empties its globals |
| `Replication.CutChangesEdgeIff` | internal/proxy/snapshot.go:587-599 | exactly the clean ends inside a globals update change what an edge shows, unless it has no globals features |
| `LocalMode.NextKeepsInv` | internal/proxy/snapshot.go:98-153 | every step keeps: if nothing is under way and no update was lost the published state is the translation of the hub |
| `LocalMode.LocalConvergence` | internal/proxy/snapshot.go:643-664 | once idle, after any interleaving of changes, edits in their three steps, channel steps and reloads and any number of dropped events, the published state is a translation of the hub's current state whenever all such translations validate and no update was lost; none is lost if no method changed the hub during an edit |
| `LocalMode.UpdateLost` | internal/hub/registry.go:296-309 | for every hub and every change an edge can tell: a run that ends idle with the edge showing what the hub no longer holds |
| `LocalMode.NothingLost` | internal/hub/registry.go:296-309 | while no method changes the hub during an edit, the copy an edit works from stays the hub's state |
| `LocalMode.TranslationShowsIff` | internal/proxy/snapshot.go:753-770 | a translation shows the hub's tenants iff they are compatible, and then it is the only one |
| `LocalMode.LocalShowsHub` | internal/proxy/snapshot.go:98-153 | with the program's own translation and the registered features: an idle edge shows exactly what its hub holds |
| `LocalMode.ChannelKeepsWaiting` | internal/proxy/snapshot.go:192-212 | no channel step loses the last pending announcement |
| `Features.ValidateFeature` | internal/feature/registry.go:173-188 | no error if and only if the feature accepts its globals value and every tenant's effective value |
| `Features.FeatureRegistry.Register` | internal/feature/registry.go:76-92 | refuses empty and repeated names and otherwise appends |
| `Features.FeatureRegistry.Reload` | internal/feature/registry.go:148-222 | swaps exactly when every feature accepts; a rejected reload changes nothing |
| `Features.FeatureRegistry.Publish` | internal/feature/registry.go:189-212 | only a plan that validated becomes current, with other reloads and registrations in between |
| `Features.FeatureRegistry.Capture` | internal/proxy/router.go:148-171 | a captured tenant was published by some accepted reload |
| `Features.FeatureRegistry.Resolve` | internal/feature/resolver.go:40-55 | a captured tenant and the current globals, of whatever reloads, give a value that the feature's validation accepted |
| `Pool.AliveScoresBetter` | internal/shared/types.go:21-26 | every live instance scores below every dead one |
| `Pool.ScoreCounts` | internal/shared/types.go:21-26 | what each connection, millisecond and failure counts in the score of a live backend |
| `Pool.RateIs` | internal/shared/types.go:21-26 | the failure rate is the share of failed uses, and zero without any |
| `Pool.FreePort` | internal/torpool/manager.go:577-590 | the search ends, at the first unused port, at most as many ports above base as are used |
| `Pool.RunFits` | internal/torpool/manager.go:585-590 | a run of used ports is no longer than the used set, which bounds the search |
| `Pool.SortBy` | internal/torpool/manager.go:554-556 | a permutation ordered by score |
| `Pool.ScoreIsDeadLast` | internal/shared/types.go:21-26 | the score used for shrinking puts dead instances last |
| `Pool.SplitWorst` | internal/torpool/manager.go:549-573 | cutting a sorted pool never kills a better or a live instance while keeping a worse or a dead one |
| `Pool.PermutationKeepsDistinct` | internal/torpool/manager.go:554-556 | reordering keeps ports distinct |
| `Pool.Manager.Start` | internal/torpool/manager.go:164-269 | succeeds iff at least the required number of the range's ports spawned; the ports added are those that did, as new live unused instances with the backends in turn; a sound pool stays sound (distinct ports, in range, within capacity) exactly when the old and new ports are disjoint |
| `Pool.Manager.Boot` | internal/torpool/manager.go:182-227 | the instances that came up have distinct ports in range |
| `Pool.Manager.ScaleTo` | internal/torpool/manager.go:529-606 | success leaves exactly the clamped target; the pool invariant is kept on success and on failure |
| `Pool.Manager.Shrink` | internal/torpool/manager.go:549-573 | kept and killed together are the old pool, the worst go, every killed port is forgotten |
| `Pool.Manager.Grow` | internal/torpool/manager.go:575-601 | adds instances on free ports inside the range, keeping what succeeded when a spawn fails |
| `Pool.Manager.ReplaceInstance` | internal/torpool/manager.go:611-638 | success keeps the ports, a failed spawn drops exactly that port |
| `Pool.Manager.Shutdown` | internal/torpool/manager.go:642-669 | leaves an empty pool that refuses mutations |
| `Shutdown.StaysEmptyUnlessStartIsLate` | internal/torpool/manager.go:495-508 | over every interleaving mutations exclude each other, none runs after a drain, and the pool then holds exactly what late starts added since the last drain |
| `Shutdown.StaysEmpty` | internal/torpool/manager.go:642-669 | under any interleaving, with any number of Shutdown calls, the drained pool is empty iff no boot has added instances since the last drain |
| `Shutdown.NextKeepsInv` | internal/torpool/manager.go:495-508 | each flag, lock and pool step keeps the exclusion |
| `Shutdown.MutationGoesThrough` | internal/torpool/manager.go:495-508 | before a shutdown a mutation that enters gets through to the pool |
| `Health.HealthChecker.BeginProbe` | internal/torpool/health.go:151-152 | the probe takes the port's tracker, or a new one made for the port; the port has no other probe, because a tick waits for its probes (137-148) and the pool's ports are distinct |
| `Health.HealthChecker.RecordFailure` | internal/torpool/health.go:158-162 | in its turn: one more failure on the probe's tracker, whatever became of the port since the probe began |
| `Health.HealthChecker.RecordSuccess` | internal/torpool/health.go:205-205 | in its turn: the count of the probe's tracker starts over |
| `Health.HealthChecker.IsDead` | internal/torpool/health.go:164-166 | after this probe's failure: true iff the tracker has three failures since its last success or reset, over the whole history, at that moment; otherwise the probe is over |
| `Health.HealthChecker.LookUp` | internal/torpool/health.go:185-187 | after this probe found the tracker dead: finds the quarantine that the history has standing at that moment, and whether it has lasted longer than the grace |
| `Health.HealthChecker.Hold` | internal/torpool/health.go:198-201 | after this probe found no quarantine: puts the port in quarantine from the time of that look |
| `Health.HealthChecker.Clear` | internal/torpool/health.go:190-190 | after this probe found the quarantine expired: removes whatever quarantine the port has by then |
| `Health.HealthChecker.Lift` | internal/torpool/health.go:209-212 | after this probe's success: the same |
| `Health.HealthChecker.NoneWithoutCause` | internal/torpool/health.go:158-203 | over every run and every interleaving with replacements and forgets: each request for a replacement is founded, in the sense of ProbeHistory.JustIsFounded |
| `Health.HealthChecker.CheckOne` | internal/torpool/health.go:151-215 | the steps in order, without interruption, do to the maps what the branches of checkOne say; the instance is taken for up after a success and for down from the third failure in a row on |
| `Health.ProbeDoes` | internal/torpool/health.go:151-215 | those branches outright: the new count, exactly when a replacement is asked for, and exactly when a quarantine stands and until when |
| `Health.HealthChecker.Escalate` | internal/torpool/health.go:168-203 | likewise for the part after the threshold |
| `Health.HealthChecker.ReplaceAsync` | internal/torpool/health.go:235-261 | after this probe found the tracker dead and, with a grace, removed the expired quarantine: one more replacement iff the port's flag is not raised; the probe is then over |
| `Health.HealthChecker.ReplaceSucceeded` | internal/torpool/health.go:253-259 | resets the tracker that the port has then, if any |
| `Health.HealthChecker.ReplaceEnds` | internal/torpool/health.go:243-251 | lowers the flag it raised, not a newer one |
| `Health.HealthChecker.ForgetPort` | internal/torpool/health.go:311-316 | drops tracker, flag and quarantine of the port and nothing else |
| `Health.HealthChecker.OneInFlight` | internal/torpool/health.go:235-261 | as many replacements of a port in flight as it has raised flags; one, plus at most one per forget |
| `Health.NoteKeepsSound` | internal/torpool/health.go:158-215 | every step of a probe keeps counts, quarantines and the order of steps explained by the histories |
| `ProbeHistory.JustIsFounded` | internal/torpool/health.go:137-203 | in every history kept to the order of checkOne, for each request: the asking probe's own beginning, failure and finding of three failures in a row and, with a grace, its own finding and removal of a standing expired quarantine precede it in this order with only resets and forgets between them; the tracker then still counts three iff no reset has come since that finding; and no probe of the port has succeeded since the quarantine was made |
| `ProbeHistory.CourseOf` | internal/torpool/health.go:151-203 | whatever a probe has done so far is in the history, in the order of checkOne and with only steps of others between |
| `ProbeHistory.CountSince` | internal/torpool/health.go:20-50 | where no probe reports, only a reset changes a tracker's count |
| `ProbeHistory.TrailingCounts` | internal/torpool/health.go:24-50 | the count is the number of failures since the last success or reset |
| `ProbeHistory.QuarantineStands` | internal/torpool/health.go:185-212 | a standing quarantine was made at one moment, and a success since then has not come to lifting it yet |
| `Health.ReplacedAfterReset` | internal/torpool/health.go:151-261 | four whole probes, the last one overtaken by the reset of the replacement that the third had asked for: the port is sent for replacement with no failure on its tracker |
| `Health.ForgetKeepsSound` | internal/torpool/health.go:311-316 | forgetting makes orphans of exactly the port's running replacements |
| `Health.InFlightExactly` | internal/torpool/health.go:235-261 | the exact number in flight in every reachable state |
| `Health.OverlapAfterForget` | internal/torpool/health.go:235-261 | two replacements of one port in flight: six whole probes with a forget between |
| `Flights.StartsIff` | internal/torpool/health.go:235-240 | a replacement starts iff the port was forgotten since each one still running for it was started |
| `Flights.InFlightCount` | internal/torpool/health.go:235-246 | running replacements and raised flags correspond one to one |
| `Flights.RaiseFlag` | internal/torpool/health.go:236-240 | load or create the flag, then compare-and-swap |
| `Retry.SelectBackend` | internal/proxy/transport.go:103-115 | a live backend of least score, and none iff all are dead |
| `Retry.SelectTenantBackend` | internal/proxy/transport.go:456-477 | least score among the tenant's own live backends, else among all |
| `Retry.PickIsWellChosen` | internal/proxy/transport.go:357-375 | the pick is a best usable backend, and there is none iff every live one is tried or blacklisted |
| `Retry.AttemptExtends` | internal/proxy/transport.go:347-425 | one more attempt keeps ports distinct, choices best and bodies what was left to send |
| `Retry.NextBackend` | internal/proxy/transport.go:357-376 | filtering and picking together choose a best usable backend |
| `Retry.BufferBody` | internal/proxy/transport.go:328-345 | exactly the unreadable and the too large bodies of methods with a retryable body stop the request before any attempt |
| `Retry.TryBackends` | internal/proxy/transport.go:347-448 | the loop's attempts are proper, each offered a copy of the buffered body or what earlier attempts left of the caller's reader; one cache record per attempt on a named onion, and it ends only for a listed reason |
| `Retry.RoundTrip` | internal/proxy/transport.go:293-449 | at most the configured attempts, on distinct ports, each on a best usable backend with what is there of the body, which is all of it for the requests of WholeBodyIff; a response iff the last attempt was answered with a status other than 502, 503 and 504, which none before was; with a cache one record per attempt on a named onion, in order, a success iff it was so answered; giving up early means every live backend is tried or blacklisted |
| `Retry.WholeBodyIff` | internal/proxy/transport.go:311-398 | in every world every attempt is offered the whole body iff the method has a buffered body, the body is empty, one attempt is allowed or the live pool has one port |
| `Retry.SecondAttemptIsEmpty` | internal/proxy/transport.go:383-398 | otherwise, where every attempt fails after reading its body, there is a second attempt and nothing is left for it |
| `Retry.LoopEnds` | internal/proxy/transport.go:347-448 | from every point of the loop some run ends for a listed reason |
| `Retry.RecordsRightly` | internal/proxy/transport.go:421-442 | the records are those of the attempts on named onions in order, each a success iff it was answered |
| `Retry.OutcomeAccounts` | internal/proxy/transport.go:293-449 | result, attempts and records in terms of the exchanges alone |
| `Retry.LastRecordTells` | internal/proxy/transport.go:421-442 | with named onions the last record is a success iff there is a response, and all others are failures |
| `Retry.ChosenIsBest` | internal/proxy/transport.go:357-376 | an attempt goes to a live backend on an untried port that no cache has blacklisted then, of the tenant's if there is one, and of those to one of least score |
| `Negcache.TenantsAreIsolated` | internal/feature/negcache/negcache.go:108-124 | a pair's state depends on that pair's events only, as long as no tenant in the history is its own followed by a NUL, or the reverse |
| `Negcache.IsolatedIff` | internal/feature/negcache/negcache.go:108-112 | a set of tenants is isolated, whatever they do, iff no two are so related |
| `Negcache.ClashInterferes` | internal/feature/negcache/negcache.go:108-112 | one failure of a clashing tenant blacklists an unused pair of the other |
| `Negcache.CountIsEarned` | internal/feature/negcache/negcache.go:132-159 | the count never exceeds the failures since the last success |
| `Negcache.BlacklistedReachedThreshold` | internal/feature/negcache/negcache.go:132-159 | a blacklisted pair reached the threshold then in force by failures since its last success |
| `Negcache.LiveIff` | internal/feature/negcache/negcache.go:132-159 | a pair is live iff since its last success some failure blacklisted it, less than its ttl ago; a failure does so iff it counts (cache on, pair not blacklisted at that moment) and with it the failures that counted since the last success reach its threshold |
| `Negcache.FailureBlacklists` | internal/feature/negcache/negcache.go:140-157 | a failure of a pair that is not blacklisted blacklists it for its whole ttl whenever the count has reached the threshold, past it as well |
| `Negcache.BlackAfterFailure` | internal/feature/negcache/negcache.go:140-157 | and one that does not blacklist changes nothing |
| `Negcache.OpKeepsCoupling` | internal/feature/negcache/negcache.go:132-182 | an operation that is right on its own key keeps all pairs coupled to the history |
| `Negcache.ExpiryKeepsCoupling` | internal/feature/negcache/negcache.go:187-219 | deleting an expired entry at any moment is unobservable |
| `Negcache.Cache.IsBlacklisted` | internal/feature/negcache/negcache.go:187-201 | answers as the history without any deletion does: true iff LiveIff's condition holds |
| `Negcache.Cache.RecordFailure` | internal/feature/negcache/negcache.go:132-159 | appends the failure to the history and keeps the coupling |
| `Negcache.Cache.RecordSuccess` | internal/feature/negcache/negcache.go:176-182 | appends the success and keeps the coupling |
| `Negcache.Cache.Sweep` | internal/feature/negcache/negcache.go:206-219 | removes exactly the expired entries, counts them, and no answer changes |
| `Negcache.Cache.Snapshot` | internal/feature/negcache/negcache.go:225-255 | lists, sorted and without repeats, exactly the pairs the history has live |
| `Negcache.InsertSorted` | internal/feature/negcache/negcache.go:248-253 | one insertion keeps the strict order and the contents |
| `Keys.SplitKey` | internal/feature/negcache/negcache.go:117-124 | undoes the join, and is malformed iff there is no NUL |
| `Keys.PairKeyRoundTrip` | internal/feature/negcache/negcache.go:110-124 | splitting a joined key gives back a NUL-free first part and the second |
| `Keys.HostsShareKeyIff` | internal/feature/negcache/negcache.go:108-112 | different hosts can share a key iff one is the other followed by a NUL and more |
| `Keys.PairKeyInjective` | internal/feature/negcache/negcache.go:108-112 | NUL-free first parts never collide |
| `Lockout.Lockout.RecordFailure` | internal/admin/lockout.go:93-139 | the state returned is the verdict over all failures since the last success, including this one |
| `Lockout.Lockout.RecordSuccess` | internal/admin/lockout.go:144-148 | ends the client's history |
| `Lockout.Lockout.Check` | internal/admin/lockout.go:153-173 | hard-banned iff some failure completed the hard threshold inside its window and its ban has not elapsed, likewise soft, over all failures since the last success; with both configured windows whenever SoftWindowHonouredIff allows |
| `Lockout.Lockout.GcOnce` | internal/admin/lockout.go:194-215 | no verdict at any later time changes, for any client |
| `Lockout.FailureKeepsTracks` | internal/admin/lockout.go:93-139 | a compacted entry still stands for the whole history after a failure |
| `Lockout.CompactionKeepsTracks` | internal/admin/lockout.go:203-210 | compaction at any moment loses nothing observable |
| `Lockout.StaleEntryIsNoEntry` | internal/admin/lockout.go:194-215 | an empty entry without running bans is the same as none |
| `Lockout.CountsAgree` | internal/admin/lockout.go:103-124 | the soft count over a compacted list is that over the full list |
| `Lockout.DeadlineAfterFailure` | internal/admin/lockout.go:126-136 | the single stored deadline summarises all bans ever earned |
| `Lockout.BanRunsIff` | internal/admin/lockout.go:103-173 | the bans of the verdict are those of the history: some failure without a success of the client since, counted with the client's others of the window before it, made up a positive threshold, and its ban is not over |
| `Lockout.SoftWindowHonouredIff` | internal/admin/lockout.go:103-136 | for every configuration: the soft bans counted are the configured ones iff the soft window is not the longer one, or soft bans never start or last, or a single failure suffices and counts |
| `LockoutWindows.VerdictsRightIff` | internal/admin/lockout.go:103-173 | for every configuration: every verdict is that of the configured windows iff the same holds or a hard ban always covers the difference |
| `LockoutWindows.SparseCount` | internal/admin/lockout.go:105-128 | without a hard ban a soft window holds at most hardThreshold - 1 failures for each hard window that begins in it |
| `LockoutWindows.GroupsShow` | internal/admin/lockout.go:105-136 | and that many do fit, unnoticed by both counts |
| `Lockout.Compact` | internal/admin/lockout.go:105-113 | the in-place filter keeps exactly the recent failures in order |
| `Lockout.Bump` | internal/admin/lockout.go:103-136 | the new entry after a failure, with both bans |
| `Abuse.AbuseLimiter.Check` | internal/feature/abuse/abuse.go:540-571 | under a positive limit a report is accepted iff fewer than limit were accepted for this pair in the hour before it, and a refused one is told when the oldest of those is an hour old, but no less than a second; no other pair changes; in every hour at most cap reports were accepted under a positive limit, however the limit varies up to cap; what a non-positive limit lets through is not bounded |
| `Abuse.StepKeepsSound` | internal/feature/abuse/abuse.go:540-571 | trimming a prefix is enough to keep every closed hour bounded |
| `Abuse.RunSound` | internal/feature/abuse/abuse.go:540-571 | the bound holds after every prefix of every run |
| `Abuse.VerdictIs` | internal/feature/abuse/abuse.go:540-571 | the verdict and the delay in terms of what was accepted, on a trimmed list |
| `Abuse.LimitIsSafeIff` | internal/feature/abuse/abuse.go:540-571 | a fixed limit keeps every run within cap per hour if and only if it lies in 1..cap |
| `Abuse.RetryAfterHonoured` | internal/feature/abuse/abuse.go:560-567 | an attempt later than a refusal plus its retryAfter, with no acceptance between, is accepted |
| `Abuse.RefusalsOnlyTrim` | internal/feature/abuse/abuse.go:550-567 | refused attempts leave the window as one trim would |
| `Abuse.DropOld` | internal/feature/abuse/abuse.go:550-558 | the index loop drops exactly the prefix older than the cutoff |
| `Audit.KeyOrder` | internal/admin/audit.go:252-271 | byte order of the 8- and 10-byte keys is the order of time and then sequence number |
| `Audit.KeyInjective` | internal/admin/audit.go:252-271 | different times or sequence numbers never share a key |
| `Audit.KeyTime` | internal/admin/audit.go:276-282 | the key test decides whether the event is at or before a time |
| `Audit.BigEndianRoundTrip` | internal/admin/audit.go:252-262 | the bytes read back as the number |
| `Audit.ListingUnique` | internal/admin/audit.go:172-203 | the listing by time and write order is determined by the writes |
| `Audit.ProbeTaken` | internal/admin/audit.go:154-162 | a probed key is taken iff that many events of the same time were written |
| `Audit.PutKeepsCoupled` | internal/admin/audit.go:154-163 | inserting at the probed key keeps the bucket equal to the listing |
| `Audit.TrueTimesIff` | internal/admin/audit.go:172-203 | for every log: what a query reports is later than since and in the order of the true times iff since is not before 1970, or every event is later than since and those up to 1970 were written in order |
| `Audit.EpochOutOfOrder` | internal/admin/audit.go:252-262 | an event at the epoch and then an earlier one come out in the wrong order |
| `Audit.FirstAreAnswers` | internal/admin/audit.go:172-203 | which writes those are, by their numbers |
| `Audit.Log.FreeKey` | internal/admin/audit.go:148-162 | the probing loop finds the next sequence number and fails only when all are used |
| `Audit.Log.Write` | internal/admin/audit.go:121-165 | succeeds exactly when prepared, open and not full, and then the log is the old one plus the event |
| `Audit.Log.FirstAfter` | internal/admin/audit.go:180-187 | the cursor stops at the first event strictly later than since |
| `Audit.Log.Query` | internal/admin/audit.go:172-203 | the first limit (or all) of the writes indexed after since, each once, by indexed time and then order of writing, over every run of writes; by true time as well under the condition of TrueTimesIff, and a full answer only then |
| `Audit.SeekSplits` | internal/admin/audit.go:180-187 | seeking splits the index by time and sequence number |
| `Onion.BuildOnionV3` | internal/shared/onion.go:83-96 | 32-byte keys get the address, others an error; an address is 56 characters and .onion, and carries the key, two bytes of the hash of ".onion checksum", key and version, and the version 3 |
| `Onion.AddressSays` | internal/shared/onion.go:83-96 | the same for every key |
| `Onion.DigitsAreWritten` | internal/shared/onion.go:83-96 | base32 digits are written a to z and then 2 to 7 |
| `Onion.ValidateOnionV3` | internal/shared/onion.go:30-77 | accepts exactly the addresses of 32-byte keys, with each error's exact condition |
| `Onion.ConsistentIffAddress` | internal/shared/onion.go:30-96 | version and checksum are consistent if and only if the string is some key's address |
| `Onion.AddressInjective` | internal/shared/onion.go:83-96 | two keys never share an address |
| `Onion.ConsistentIsAddress` | internal/shared/onion.go:56-76 | an accepted address is rebuilt from the key it carries |
| `Onion.AddressIsWellFormed` | internal/shared/onion.go:83-96 | every built address decodes to its payload |
| `Onion.DecodeEncode` | internal/shared/onion.go:83-96 | base32 decoding undoes encoding on every whole number of groups |
| `Onion.EncodeDecode` | internal/shared/onion.go:56-62 | and encoding undoes decoding |
| `Onion.GroupIsOneNumber` | internal/shared/onion.go:83-96 | a group of five bytes and its eight digits are the same number |
| `Onion.BytesOfText` | internal/shared/onion.go:83-96 | base32 text reads back as its bytes |
| `Onion.TextOfBytes` | internal/shared/onion.go:50-62 | and every lower-case base32 text is the text of the bytes it reads as |
| `Canonical.SameQueryIff` | internal/feature/staticcache/staticcache.go:549-556 | two queries share a slot if and only if they hold the same parameters, each equally often |
| `Canonical.QueryIdempotent` | internal/feature/staticcache/staticcache.go:549-556 | a canonical query is its own canonical form |
| `Canonical.CanonicalAcceptEncoding` | internal/feature/staticcache/staticcache.go:574-612 | the loops compute the sorted accepted codings |
| `Canonical.AnyZeroWeight` | internal/feature/staticcache/staticcache.go:592-600 | true iff some parameter refuses the coding |
| `Canonical.ZeroWeightIff` | internal/feature/staticcache/staticcache.go:594-627 | a weight of zero is q=0 or q=0. and one or more zeros |
| `Canonical.WeightedCoding` | internal/feature/staticcache/staticcache.go:586-604 | an element with parameters counts as its coding unless one of them is a weight of zero |
| `Canonical.SameEncodingIff` | internal/feature/staticcache/staticcache.go:574-612 | two headers share a slot if and only if they accept the same codings, each equally often |
| `Canonical.EncodingOrderInsensitive` | internal/feature/staticcache/staticcache.go:574-612 | reordering the list or changing case changes nothing |
| `Canonical.EncodingIdempotent` | internal/feature/staticcache/staticcache.go:574-612 | a canonical header is its own canonical form |
| `Canonical.PathIdempotent` | internal/feature/staticcache/staticcache.go:524-524 | a cleaned path is its own clean form and has no empty or dot elements |
| `Canonical.ParentCancels` | internal/feature/staticcache/staticcache.go:524-524 | an element followed by a double dot can be left out of a path |
| `Canonical.DotsVanish` | internal/feature/staticcache/staticcache.go:524-524 | so can an empty element and a dot |
| `Canonical.RootHasNoParent` | internal/feature/staticcache/staticcache.go:524-524 | and a double dot at the root |
| `Canonical.RealPathStays` | internal/feature/staticcache/staticcache.go:524-524 | a path of other elements stays as it is |
| `Canonical.CanonIdempotent` | internal/feature/staticcache/staticcache.go:517-526 | canonical fields read as a request are their own canonical form |
| `Canonical.TenantKey` | internal/feature/staticcache/staticcache.go:517-543 | the key is the hash of the canonical fields laid out in order |
| `Canonical.LayoutInjective` | internal/feature/staticcache/staticcache.go:528-542 | different fields are never laid out as the same bytes, even with line breaks in the path |
| `Canonical.CanonIsUnbroken` | internal/feature/staticcache/staticcache.go:517-526 | canonicalisation brings in no separator |
| `Headers.Header.StripHopByHop` | internal/feature/staticcache/staticcache.go:673-686 | what is left is the header without the hop-by-hop and Connection-listed fields |
| `Headers.KeptIsEndToEnd` | internal/feature/staticcache/staticcache.go:654-686 | a field is kept, with its values, if and only if no spelling of it is hop-by-hop or listed in Connection |
| `Headers.HopByHopIff` | internal/feature/staticcache/staticcache.go:654-668 | the hop-by-hop fields are the eight of RFC 7230, in whatever case |
| `Headers.TokenCharIff` | internal/feature/staticcache/staticcache.go:673-686 | the token characters of RFC 7230 |
| `Headers.CaseBlind` | internal/feature/staticcache/staticcache.go:673-686 | field names equal up to case have one canonical form |
| `StaticCache.NextKeepsInv` | internal/feature/staticcache/staticcache.go:218-327 | every step of every request, reload or rebuild keeps entries, flights and replies genuine |
| `StaticCache.EveryRunKeepsInv` | internal/feature/staticcache/staticcache.go:173-327 | the invariant holds after every sequence of steps |
| `StaticCache.EveryReplyIsUpstreams` | internal/feature/staticcache/staticcache.go:218-347 | in every run each client gets the upstream's own answer, or its status, body and end-to-end header up to X-Cache, in front of any upstream that answers two cacheable requests for one thing (KeyIff) alike |
| `StaticCache.TransparentIff` | internal/feature/staticcache/staticcache.go:218-347 | and exactly in front of these upstreams is that so in every run |
| `StaticCache.DisrespectShows` | internal/feature/staticcache/staticcache.go:247-322 | for any two cacheable requests for one thing that the upstream tells apart, a run in which one gets the other's answer |
| `StaticCache.SecondGetsFirsts` | internal/feature/staticcache/staticcache.go:247-347 | a request that joins a flight is sent the answer to the one that started it, stored or not |
| `StaticCache.PartIsSentForWhole` | internal/feature/staticcache/staticcache.go:366-445 | a part of a script may be stored, and is sent to a request for the whole |
| `StaticCache.EveryEntryIsFit` | internal/feature/staticcache/staticcache.go:366-445 | in every run every stored entry passed all storage rules, spelled out: GET or HEAD without credentials for a path with an extension, status 2xx, 1 byte to 5 MiB, no Set-Cookie, none of the six Cache-Control words, no star in Vary, no HTML, the announced length; it holds exactly the end-to-end fields |
| `StaticCache.FitIsHarmless` | internal/feature/staticcache/staticcache.go:367-445 | those rules, from the checks of the code |
| `StaticCache.RequestIff` | internal/feature/staticcache/staticcache.go:366-378 | a request may be cached iff it is GET or HEAD without credentials and its path ends in a configured extension |
| `StaticCache.StorableIff` | internal/feature/staticcache/staticcache.go:382-445 | a response may be stored iff all the rules hold, spelled out, with the type of file for each known extension |
| `StaticCache.DecimalReads` | internal/feature/staticcache/staticcache.go:424-430 | the usual way to write a length reads as that length and no other |
| `StaticCache.FetchDoes` | internal/feature/staticcache/staticcache.go:266-308 | a body over 5 MiB is neither shared nor stored; any other answer is shared, and stored iff it may be |
| `StaticCache.SentMarks` | internal/feature/staticcache/staticcache.go:334-347 | a cached reply is marked HIT, a shared one MISS unless the upstream has marked it |
| `StaticCache.OneFetchPerKey` | internal/feature/staticcache/staticcache.go:247-311 | at most one request fetches a key at a time, and no waiter is left without an owner |
| `StaticCache.JoinKeepsInv` | internal/feature/staticcache/staticcache.go:254-254 | joining or starting a flight keeps the invariant |
| `StaticCache.LandKeepsInv` | internal/feature/staticcache/staticcache.go:310-322 | publishing an outcome keeps the invariant |
| `StaticCache.SameKeyIff` | internal/feature/staticcache/staticcache.go:517-543 | two requests share a key if and only if their canonical fields are equal |
| `StaticCache.KeyIff` | internal/feature/staticcache/staticcache.go:511-543 | two requests share a key iff they agree on tenant and host up to case, on the method, on the cleaned path, and on query parameters and accepted codings up to order |
| `StaticCache.TenantsShareIff` | internal/feature/staticcache/staticcache.go:511-521 | exactly which tenants share slots |

## Left out

- Process wiring, dialling, TLS, tracing, exporters, the admin user interface, sessions, CSRF and slug matching.
- HTML sanitising, token-bucket rate limits, circuit breakers, geo and block lists, mirror selection: library behaviour, or an easier copy of an argument made here.
- Certificates and node registration; only the tenant filter of `internal/hub/nodes.go` is modelled, with fixed assignments.
- JSON and YAML: printing and parsing are a pair of functions with the second undoing the first; a file is its parsed value or malformed.
- SHA3-256 is an arbitrary function to 32 bytes, SHA-256 a function without collisions.
- Floats are reals; the score's integer product does not overflow.
- Clocks are parameters and never run backwards; one reading per call.
- Non-ASCII letters and spaces in case mapping and trimming.
- Crashes between a disk write and the memory update, and partial writes.
- `Subscribe` enqueues and `UpsertTenant` broadcasts after unlocking; in `Hub` each operation is one step, and `Broadcasts` says which orders of the enqueued events come to the same. Local convergence needs no such assumption.
- Hub.Registry.OnExternalChange: copying the state, reading the directory and committing are one step for remote subscribers; a change through the hub's methods in between can be lost from memory and its event contradicted. `LocalMode` has the three steps.
- Hub.Registry.UpsertTenant: a call that panics ends there; that the HTTP server recovers the goroutine while the lock stays held is why later calls block.
- Hub.Registry.Subscribe: the snapshot is enqueued in the same step, not after unlocking; see `Broadcasts`.
- Replication.EverySubscriberConverges: assumes that no queue overflowed and that the edge's features accept every reload; a reconnect after a loss brings a fresh snapshot, which is the same theorem again.
- Replication.CutAtEdge: likewise, a rejected reload would keep the globals.
- Retry.WholeBodyIff: says what each attempt has to send; how much of it reaches the backend is not modelled.
- Health.HealthChecker.BeginProbe: that a port has one probe at a time is taken from checkAll's wait and the pool's distinct ports, not modelled as a tick.
- Health.HealthChecker.CheckOne: latency and probe transports are not modelled, and the alive flag is kept by port.
- Health.HealthChecker.ForgetPort: the deletions from its maps are one step, and so are the two accesses of ReplaceAsync and of ReplaceSucceeded.
- Pool.Manager.Start: the checks for the binary and the data directory are left out; spawns are yes or no per port; bootstrap scanning and torrc text are not modelled.
- Retry.RoundTrip: transport reuse, streaming and the tenant lookup are not modelled; the pool is read once per request as in the source.
- Audit.Log.Write: the JSONL day files and the raw-leak check are one yes or no input; reopening an existing index is not modelled.
- StaticCache.EveryReplyIsUpstreams: an upstream that changes its answers over time, headers set by outer middleware before the cache, costs, lifetimes and a panic in the upstream handler are not modelled.
- Features.FeatureRegistry.Reload: reload observers and the order of the error list.
- Onion.ValidateOnionV3: which error a non-ASCII prefix gets is not distinguished.
