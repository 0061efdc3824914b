# Capcom: verified models

Capcom watches fleets of AI agents that run on external runtimes. It synchronises what each runtime reports into
tables, shows which agents delegate to which, accounts for the tokens and costs they use, and lets operators act on
them. These modules model the parts of that behaviour with the most state and arithmetic, and prove what they are
for. `dafny verify dfyconfig.toml` checks all of them.

**Agent topology.** `delegation_graph`, `ordering` and `topology` hold the graph, the sort and the data of the fleet
page. `cycles` is Tarjan's algorithm on mutable maps and a stack, proved exact. `forest` gives the depth-first emitter
as a function, `emitter` the class that fills a list of rows and is proved to compute that function, and
`instance_topology`, `preorder`, `sibling_order` and `order_independence` say what the rows mean: a preorder forest
along the delegations, each agent once, whatever cycles there are and in whatever order the input arrives. `search`
and `collapse` run the worklist and the one-variable pass over those rows; `fleet` puts everything together.

**Runtime synchronisation.** `snapshot` is validation and `acceptance` what it accepts, told from the raw items (`texts`
is trimming). `sync_store` holds the tables and what persisting does to a row, `sync_service` the repository and `Sync`
on mutable tables with statements that may fail, `sync_history` the proof that the per-row counters are a fast form of a
statement about all successful snapshots, `sync_documents` the same for access documents and statuses, and
`sync_protocol` any number of `Sync` calls as interleaved steps.

**Telemetry.** `decimal` is cost arithmetic on exact rationals printed with ten decimals, `telemetry` normalisation
and ingestion, `ingestion` which observation each stored row comes from, `polling` overlapping poll windows over a
stable source, `summary` the usage summaries as aggregates.

**Smaller state machines.** `login_limiter` carries a log of everything that happened to the attempts;
`worker_pool` interleaves the workers that collect a Gantry snapshot; `event_fold` folds interleaved run events;
`endpoint_merge` keeps connections, endpoint rows and merges consistent; `control_actions` interleaves requests that
change a runtime.

Where a property that one would expect does not hold of the code, the code is modelled as it is, a lemma names an
input that shows it, and another says exactly when it does hold. The inputs are ones that the interfaces allow: the
adapters for Gantry and LangGraph report no agent as stale and no delegation without a reference themselves.

- validation takes two different items for one when the kind of an inventory item, the id of a capability or the
  orchestrator of a delegation contains a colon, because it joins them with one (`Acceptance.ColonsAreConfused`); without
  such colons it accepts exactly what is well identified (`Acceptance.AcceptedIsWellIdentified`);
- validation accepts delegations without a reference that are stored in one row (`Snapshots.AcceptedDelegationsCanCollide`,
  `Snapshots.DelegationsCollideOnlyWithoutReference`);
- printing, parsing and printing again is not the identity for negative amounts that round to zero, which only a
  reported cost can be (`Decimals.MinusZeroIsNotStable`, `Decimals.PrintParsePrint`);
- the model breakdown of a summary loses tokens once more than fifty models used some (`Summaries.FiftyOneModelsLoseTokens`,
  `Summaries.BreakdownConserves`);
- the repository's settings update can move the canonical endpoint of a connection that the caller's tenant does not
  own (`EndpointMerge.ForeignSettingsBreakAgreement`, `EndpointMerge.UpdateSettingsKeepsAgreement`); the service, which
  looks the connection up first, never does (`EndpointMerge.EveryRunIsSound`);
- a row can be stale although it is in a recent snapshot, exactly when the runtime last reported the agent as stale
  itself (`SyncHistory.ListedAgentsCanBeStale`, `SyncHistory.CountersRefineHistory`).

## Model

| member | source | states |
|---|---|---|
| Cycles.CycleFinder.Connect | web/src/lib/agent-topology.ts:241-279 | one call, for a new agent reached from every running call: the search invariant is kept, everything newly finished is flagged exactly if it lies on a cycle, and the agent's low-link covers every edge back into the older stack |
| Cycles.CycleFinder.Follow | web/src/lib/agent-topology.ts:248-261 | one turn of the loop over the delegates: a new delegate is searched, and the low-link takes its low-link, or the index of one still on the stack, into account, which keeps the invariant of the loop |
| Cycles.CycleFinder.PopComponent | web/src/lib/agent-topology.ts:263-278 | when low-link and index agree, exactly the agents stacked since the call began come off, and they are flagged exactly if they form a cycle |
| Cycles.CycleFinder.PopDownTo | web/src/lib/agent-topology.ts:266-271 | the popping loop ends at the agent of the call and takes precisely what stands above it |
| Cycles.FindCyclicAgents | web/src/lib/agent-topology.ts:230-285 | for every finite delegation graph the result is precisely the agents on some non-empty directed cycle, self-loops included; the search terminates |
| Cycles.ComponentIsCyclic | web/src/lib/agent-topology.ts:273-278 | every member of a popped component of several agents lies on a cycle |
| DelegationGraph.LoneCycleIsSelfLoop | web/src/lib/agent-topology.ts:273-278 | an agent that is a component by itself lies on a cycle if and only if it delegates to itself |
| DelegationGraph.BackwardsMeetsCycle | web/src/lib/agent-topology.ts:193-196 | in a finite set in which every agent has an orchestrator, walking upwards from any agent meets a cycle that reaches it |
| Topology.LinkIsExact | web/src/lib/agent-topology.ts:122-143 | outgoing and incoming hold exactly the delegations that resolve inside the instance, each pair once, and mirror each other |
| Topology.UnresolvedIsExact | web/src/lib/agent-topology.ts:131-139 | a known orchestrator's delegations that do not resolve are kept for it, all of them and in order |
| Topology.LastIsLookedUp | web/src/lib/agent-topology.ts:122 | of several agents with one runtime id the lookup finds the last in the sorted order |
| Emitter.BuildLinks | web/src/lib/agent-topology.ts:127-143 | the loop over the delegations computes the links that LinkIsExact describes |
| Emitter.TreeEmitter.EmitRow | web/src/lib/agent-topology.ts:150-171 | lists an agent with its row if it is not listed yet, otherwise changes nothing and says so |
| Emitter.TreeEmitter.EmitBranch | web/src/lib/agent-topology.ts:173-181 | appends exactly the branch of an agent not yet emitted, terminating although the graph is cyclic |
| Emitter.TreeEmitter.EmitAll | web/src/lib/agent-topology.ts:187-196 | a pass over a list of agents appends what Emit defines for it |
| Emitter.BuildInstanceTopology | web/src/lib/agent-topology.ts:120-198 | for any agents with distinct ids and any delegations the imperative run, Tarjan included, yields the rows that the lemmas below describe |
| Forest.EmitOnce | web/src/lib/agent-topology.ts:150-181 | a pass emits every agent of its list that was not emitted yet, and no agent twice |
| Forest.EmitNests | web/src/lib/agent-topology.ts:150-181 | rows at the starting depth are agents of the list; every deeper row hangs under the nearest earlier shallower row, one level up, which delegates to it, and is no main |
| Forest.EmitReaches | web/src/lib/agent-topology.ts:173-196 | whatever a pass emits is reached from its list along delegations into agents that are no mains |
| Forest.EmitClosed | web/src/lib/agent-topology.ts:150-181 | whatever is emitted has all its delegates emitted, mains aside |
| InstanceTopology.ListsEachAgentOnce | web/src/lib/agent-topology.ts:150-198 | the rows are a permutation of the instance's agents, also with cycles and shared delegates |
| InstanceTopology.FormsForest | web/src/lib/agent-topology.ts:150-198 | the rows are a preorder forest along the delegations, and mains are at depth 0 |
| InstanceTopology.RootsEmitWhatTheyReach | web/src/lib/agent-topology.ts:183-191 | the main and standalone passes emit exactly the agents that those roots reach by edges into agents that are no mains |
| InstanceTopology.TopLevelDelegatesHangOnCycles | web/src/lib/agent-topology.ts:183-196 | an agent that has an orchestrator and is no main, yet is shown at depth 0, is on or downstream of a cycle, and a row on that cycle carries the cycle flag |
| InstanceTopology.RowsAreRight | web/src/lib/agent-topology.ts:150-171 | for every row, from the raw input and the raw orders: delegatedBy is exactly the agents that delegate to it, each once, by name and then runtime id; the unresolved delegations are its own whose delegate is missing or unknown, as often as they were given and by label; role and cycle flag are right |
| SiblingOrder.ListedInOrder | web/src/lib/agent-topology.ts:173-198 | the list is the trees of mains, then of standalone agents, then of agents that only cycles lead to, and in each part siblings stand by name and then by runtime id |
| OrderIndependence.ArrivalOrderIsIrrelevant | web/src/lib/agent-topology.ts:120-198 | order, depth, role, orchestrators and cycle flags of an instance depend only on the multiset of agents and the set of delegations |
| OrderIndependence.RowsIgnoreArrival | web/src/lib/agent-topology.ts:120-198 | when labels tell the delegations of each orchestrator apart, the rows of an instance are the same in full, unresolved delegations included |
| OrderIndependence.FleetIgnoresArrival | web/src/lib/agent-topology.ts:24-56 | the rows of the whole fleet, in full, are the same for any order of agents and delegations, when labels tell instances apart, the comparator tells the agents of an instance apart, and no orchestrator has two different delegations with one label |
| Ordering.SortPermutes | web/src/lib/agent-topology.ts:121 | the sort neither loses nor invents elements |
| Ordering.SortSorts | web/src/lib/agent-topology.ts:121 | the sort leaves no element before one that precedes it |
| Ordering.SortUnique | web/src/lib/agent-topology.ts:293-306 | under a total comparator the sorted list depends only on the elements |
| Preorder.ParentRowIsNearest | web/src/lib/agent-topology.ts:201-220 | the parent read off the depths is the nearest earlier row that is shallower |
| Search.FilterAgentTopology | web/src/lib/agent-topology.ts:58-118 | a blank query returns all rows; any other returns, in order, exactly the rows in the least set that holds the matches and is closed under delegatedBy, with contextOnly set on exactly those that do not match; it terminates on cyclic delegations |
| Search.MatchRows | web/src/lib/agent-topology.ts:70-99 | collects exactly the ids of the matching rows |
| Search.Climb | web/src/lib/agent-topology.ts:101-113 | one turn of the worklist adds the orchestrators of the popped agent and nothing that the least closed set leaves out |
| Search.ContextIsUpwardReach | web/src/lib/agent-topology.ts:101-113 | the kept agents are exactly those from which a match is reached upwards |
| Search.FoundRows | web/src/lib/agent-topology.ts:101-117 | row by row: a row is found if and only if a chain of delegatedBy leads to it from a matching row, and it is marked as context exactly if it does not match itself |
| Search.KeepIsInOrder | web/src/lib/agent-topology.ts:115-117 | the rows kept stand in the order of the input, each as often as there |
| Search.ParentSurvives | web/src/lib/agent-topology.ts:115-117 | the parent of a surviving row survives and is still its nearest shallower predecessor |
| Search.SearchKeepsForest | web/src/lib/agent-topology.ts:115-117 | the search result is again a preorder forest along the delegations |
| Collapse.CollapseAgentTopology | web/src/lib/agent-topology.ts:201-220 | one pass with one depth variable returns the rows none of whose strict ancestors is collapsed, for any list of depths |
| Collapse.HiddenIsExact | web/src/lib/agent-topology.ts:201-220 | a row is hidden if and only if some earlier collapsed row is above it: shallower than it and than everything between |
| Collapse.VisibleIsExact | web/src/lib/agent-topology.ts:201-220 | index by index: a row is added to what is visible exactly if no collapsed row is above it |
| Collapse.CollapseTwice | web/src/lib/agent-topology.ts:201-220 | collapsing S and then T is collapsing their union |
| Collapse.CollapseIsIdempotent | web/src/lib/agent-topology.ts:201-220 | collapsing the same set again changes nothing |
| Collapse.CollapseIsAntitone | web/src/lib/agent-topology.ts:201-220 | collapsing more shows no more: what a larger set shows is a collapse of what a smaller set shows, in the same order |
| Collapse.OpenAncestorsStay | web/src/lib/agent-topology.ts:201-220 | a row whose ancestors are all open keeps exactly those ancestors |
| Collapse.CollapseKeepsForest | web/src/lib/agent-topology.ts:201-220 | what stays visible is a preorder forest along the delegations |
| Fleet.GroupByInstance | web/src/lib/agent-topology.ts:29-44 | each instance gets exactly its own agents and delegations, in order; delegations of instances without agents are dropped |
| Fleet.BuildAgentTopology | web/src/lib/agent-topology.ts:24-56 | the rows are those of every instance, instances in the order of their labels |
| Fleet.FleetInLabelOrder | web/src/lib/agent-topology.ts:45-53 | no row of an instance comes before a row of an instance whose label is smaller |
| Fleet.FleetRowsAreRight | web/src/lib/agent-topology.ts:29-53 | every row of the fleet is right, in the sense of RowsAreRight, about exactly the agents and delegations given for its instance |
| Fleet.FleetIsForest | web/src/lib/agent-topology.ts:24-56 | over the whole fleet every agent is listed once, in preorder forests with mains at the top |
| Fleet.ShownFleetIsForest | web/src/lib/agent-topology.ts:58-220 | what is shown after searching and collapsing is still a forest in which parents delegate to their children |
| Snapshots.CheckKeys | internal/services/runtime_sync.go:180-229 | the seen-map loop accepts a section exactly if every item is identified and no two share a key |
| Snapshots.CheckAgents | internal/services/runtime_sync.go:230-253 | accepts exactly if agents, access documents and skills are identified, without duplicates |
| Snapshots.ValidateRuntimeSnapshot | internal/services/runtime_sync.go:179-278 | accepts exactly the good snapshots, which Acceptance describes from the raw items, and otherwise names the first section that is not good |
| Acceptance.AcceptedIsWellIdentified | internal/services/runtime_sync.go:179-278 | from the raw items, pair by pair and without keys: an accepted snapshot has every item identified, access documents that match, and no two items of a section that agree in what identifies them; and such a snapshot is accepted when the parts that are joined contain no colon |
| Acceptance.ColonsAreConfused | internal/services/runtime_sync.go:196 | a snapshot that is well identified and yet rejected, because a colon in a kind makes two keys equal |
| Texts.TrimIsExact | internal/services/runtime_sync.go:182 | trimming takes off precisely the white space at both ends |
| Snapshots.AcceptedHasOneRowEach | internal/services/runtime_sync.go:179-278 | in an accepted snapshot no upsert, under the storage's own conflict keys, overwrites another item of its kind |
| Snapshots.DelegationsCollideOnlyWithoutReference | internal/store/sync_repository.go:226-254 | delegations of an accepted snapshot have rows of their own if and only if those without a reference differ in orchestrator or in the text of the blank reference |
| Snapshots.AcceptedDelegationsCanCollide | internal/services/runtime_sync.go:213-229 | a snapshot that is accepted although two of its delegations share a row |
| SyncStore.AgentsUpserted | internal/store/sync_repository.go:106-123 | listed agents and bindings are stamped with the run and reset, everything else is untouched |
| SyncStore.PersistedRow | internal/store/sync_repository.go:155-186 | what persisting does to any one agent, binding or delegation row: listed rows restart at zero, the others count up and turn stale at the threshold |
| SyncStore.CountsAreStampedRows | internal/store/sync_repository.go:106-153 | for an accepted snapshot whose delegations do not collide, the reported agent, binding and delegation counts are the numbers of rows stamped with the run |
| SyncDocuments.AccessIsPersisted | internal/store/sync_repository.go:118-121 | for an accepted snapshot the access table afterwards holds the document that each listed agent with a source brings, and keeps every other row |
| SyncDocuments.OnlyDocument | internal/store/sync_repository.go:389-410 | in an accepted snapshot the document an agent brings is the only one it brings |
| SyncDocuments.PersistedStatus | internal/store/sync_repository.go:310-356 | a listed agent has the status its snapshot reports; one left out keeps its status until the threshold makes it stale |
| SyncHistory.ThresholdMeansAbsent | internal/store/sync_repository.go:155-186 | the number of successes since an item was listed reaches the threshold exactly when the last threshold successes all leave it out |
| SyncHistory.CountersRefineHistory | internal/store/sync_repository.go:155-186 | right after a success in any run of successes, failures and deletions: rows, counters and staleness of agents, bindings and delegations are what the history of successful snapshots says |
| SyncHistory.ListedAgentsCanBeStale | internal/store/sync_repository.go:310-356 | an agent that the last snapshot lists and that is stale, because that snapshot reports it so |
| SyncHistory.OnlyReportsCanSayStale | internal/store/sync_repository.go:310-356 | the exception for runtimes that report staleness themselves needs a successful snapshot that did so, and concerns agents only |
| SyncHistory.StaleMeansAbsent | internal/store/sync_repository.go:155-186 | when no success reports the item as stale, it is stale if and only if it is in none of the last threshold successes |
| SyncDocuments.DocumentsFollowHistory | internal/store/sync_repository.go:389-410 | after any history of successes, failures and deletions the document stored for an agent is that of the last success that listed it with a source, and there is none if no success since the last deletion did |
| SyncDocuments.StatusFollowsHistory | internal/store/sync_repository.go:155-186 | after any history an agent has the status that the last success which listed it reported, until it was absent for as many successes as the threshold, from when on it is stale |
| SyncService.Transact | internal/store/sync_repository.go:97-190 | commits if and only if none of its statements for agents, access, skill bindings, delegations, counters and the run fails, and then has computed the persisted tables, whose rows PersistedRow and AccessIsPersisted describe, and the binding count |
| SyncService.SyncRepository.TryLock | internal/store/sync_repository.go:22-40 | acquires exactly if no holder has the key; an error of the connection or the query takes nothing |
| SyncService.SyncRepository.CreateRun | internal/store/sync_repository.go:42-66 | two statements without a transaction: if marking the runtime fails, the inserted row stays running |
| SyncService.SyncRepository.PersistSnapshot | internal/store/sync_repository.go:97-222 | all of the snapshot and the completed run are written if no statement fails, and nothing otherwise |
| SyncService.SyncRepository.Sync | internal/services/runtime_sync.go:63-122 | the outcome for every combination of lock, lock error, half-created run, adapter answer and statement fault; the lock is given back on every path; only a completed sync changes a table; the run row ends as the outcome says, and stays running only when its creation failed halfway |
| SyncProtocol.OneCallPerRuntime | internal/services/runtime_sync.go:81-121 | in every interleaving at most one Sync per runtime is between lock and release, and a lock is held only for a call under way |
| SyncProtocol.PersistedInLockOrder | internal/services/runtime_sync.go:81-121 | a runtime's snapshots are persisted in the order in which their calls took the lock |
| SyncProtocol.RunLeavesRunningOnce | internal/store/sync_repository.go:68-95 | a run row that has left running never changes again |
| SyncProtocol.RunningRowsAreAccountedFor | internal/store/sync_repository.go:42-66 | in every interleaving a row is running if and only if a call under way owns it or its creation failed after the row was inserted |
| SyncProtocol.RunRowsTellTheHistory | internal/store/sync_repository.go:68-95 | under any interleaving a run row says succeeded if and only if its snapshot was persisted, with the counts of that snapshot, and failed only if it was not |
| SyncProtocol.RowCountsStampedRows | internal/store/sync_repository.go:188-222 | the counts of a completed run row are the numbers of rows stamped with the run |
| SyncProtocol.RowsMove | internal/store/sync_repository.go:42-95 | which step writes which run row, and with what |
| SyncProtocol.LoneSyncIsARun | internal/services/runtime_sync.go:81-122 | undisturbed, the protocol steps of a call leave exactly the locks, run rows and tables that the method Sync leaves, for each of its outcomes |
| SyncProtocol.OnlyPersistAndDeleteWrite | internal/services/runtime_sync.go:96-121 | failed collects, validations and persists leave all tables alone; a write touches its own runtime only |
| SyncProtocol.CountersSurviveInterleaving | internal/store/sync_repository.go:155-186 | CountersRefineHistory holds of every runtime under any interleaving |
| Decimals.PrintThenParse | internal/services/telemetry.go:220-226 | a printed value reads back as the value rounded to ten decimals, in spite of zero trimming |
| Decimals.RoundingError | internal/services/telemetry.go:220-226 | printing moves a value by at most 5·10^-11 |
| Decimals.TiesGoAwayFromZero | internal/services/telemetry.go:220-226 | values exactly halfway between two decimals round away from zero |
| Decimals.PrintedIsTidy | internal/services/telemetry.go:220-226 | what is printed is a sign exactly for negative values, digits without a leading zero, and at most ten decimals without a trailing zero, the point only with decimals |
| Decimals.PrintParsePrint | internal/services/telemetry.go:220-226 | printing what was parsed from a printed value is the identity if and only if the value is not negative with magnitude below 5·10^-11 |
| Decimals.MinusZeroIsNotStable | internal/services/telemetry.go:199-226 | a reported input cost of -10^-11 dollars with no output cost makes the total "-0", which reads back as zero and prints as "0" |
| Decimals.EstimatesPrintStably | internal/services/telemetry.go:188-226 | printing what was parsed from a printed estimate is the identity for every token count and price that is not negative, which catalogue prices and counts never are |
| Decimals.EstimateError | internal/services/telemetry.go:188-197 | an estimate is within 5·10^-11 of price times tokens over a million, for every price and token count |
| Decimals.TotalOfEstimatesIsExact | internal/services/telemetry.go:199-218 | the total of two printed costs is their exact sum, hence within 10^-10 of the true total |
| Decimals.SumDecimalPointers | internal/services/telemetry.go:199-218 | the loop adds up the values present, returns nothing when there is none, and fails on a value that does not parse |
| Telemetry.Normalize | internal/services/telemetry.go:104-186 | the step-by-step normalisation yields the normalised observation or the error for every catalogue answer |
| IngestionResults.RejectedObservations | internal/services/telemetry.go:104-173 | exactly which observations are refused, told from the raw fields, the catalogue and its prices |
| IngestionResults.NormalizedFields | internal/services/telemetry.go:119-131 | everything but totals, costs, window, version and attributes stays; a total that is given stays, and a missing one is input plus output whenever that fits in 64 bits, and negative otherwise |
| IngestionResults.UnknownModelsStayUnpriced | internal/services/telemetry.go:133-138 | without a model that the catalogue knows, only the total and the removed contents differ |
| IngestionResults.EachEstimateIsClose | internal/services/telemetry.go:143-171 | a cost that was not reported, and the cache savings, are each within 5·10^-11 of its own token count times its own price over a million, and there is none without a price |
| IngestionResults.MissingTotalIsSum | internal/services/telemetry.go:155-160 | a total cost that was not reported is the rounded sum of the input and output cost present, reported or estimated, and there is none if both are missing |
| IngestionResults.CatalogueData | internal/services/telemetry.go:139-171 | the version, the context window and the attributes that a known model adds; all other attributes stay |
| Telemetry.StoredCostsAddUp | internal/services/telemetry.go:142-159 | with no cost reported and readable prices, the total worked out is exactly the sum of the input and output costs worked out and within 10^-10 of what the tokens cost at those prices |
| Telemetry.ReportedCostsStay | internal/services/telemetry.go:142-159 | normalizing leaves costs that were reported as they are |
| Telemetry.ContentIsDropped | internal/services/telemetry.go:128-131 | no normalized observation has a prompt, completion, input or output attribute |
| Telemetry.StoreIsFreeOfContent | internal/services/telemetry.go:55-82 | a store without such attributes stays without them, whatever is ingested and however the database answers |
| Telemetry.NoTotalNoTokens | internal/services/telemetry.go:119-124 | a stored total of zero means no input and no output tokens: the 64-bit sum that fills it in may wrap, but never to zero |
| Telemetry.TelemetryService.Ingest | internal/services/telemetry.go:55-82 | the loop leaves the store and the three counters that the fold over all observations defines, stopping at a storage error |
| IngestionResults.LatestIsStored | internal/store/telemetry_repository.go:28-96 | for every observation sequence and all replies: the row of a key is the normalized last observation with that key that was stored before the ingestion stopped, and a key without one keeps its old row |
| IngestionResults.IngestTells | internal/services/telemetry.go:55-82 | the same at every point of the loop, together with whether it was reached, the rejected count and whether it failed |
| IngestionResults.IngestionOutcome | internal/services/telemetry.go:55-82 | rejected counts the refused observations met before a storage error, the ingestion stops exactly if some upsert it reaches breaks, and fails exactly if it stops or rejects |
| Telemetry.IngestCounts | internal/services/telemetry.go:55-82 | accepted is the number of keys added, nothing is removed, and an ingestion that was not cut short counts every observation exactly once |
| Telemetry.StoppedStays | internal/services/telemetry.go:66-80 | after a broken upsert nothing more happens |
| Polling.CollectOne | internal/workers/telemetry.go:105-135 | one poll ingests exactly the observations of its window and finishes its record with the counts of that ingestion; without a record or an answer it leaves the store alone, and without an answer the record is finished as failed |
| Polling.WindowShape | internal/workers/telemetry.go:107-109 | a window ends at the last full five minutes and reaches back six |
| Polling.WindowsCover | internal/workers/telemetry.go:107-109 | the windows of consecutive five-minute slots leave no gap |
| Polling.OverlappingPollsEqualOnePass | internal/workers/telemetry.go:105-135 | with one poll per slot that gets an answer and can store it, whatever other polls do and however many observations are malformed, the store equals ingesting each observation of a stable source once, and accepted totals add up to the rows |
| Polling.UnfailedIsDelivered | internal/services/telemetry.go:55-82 | an ingestion that reports no failure stored all that it was given, so a poll without failure is one that the previous row asks for |
| Summaries.OneSourcePerRuntime | internal/store/telemetry_repository.go:187-242 | each runtime contributes all its rows in scope from exactly one source: the requested one, or the best it has |
| Summaries.SelectedIsInScope | internal/store/telemetry_repository.go:198-242 | whatever counts is in the table as often as it counts, lies in the half-open interval, is visible, and matches every filter that is given |
| Summaries.InScopeCounts | internal/store/telemetry_repository.go:198-242 | the converse: what matches, and whose source is the requested one or the only one of its runtime, counts |
| Summaries.BestSourceCounts | internal/store/telemetry_repository.go:213-218 | without a requested source, gantry_native is preferred to langsmith, langsmith to otel and otel to any other |
| Summaries.AvailableIsOneSource | internal/store/telemetry_repository.go:224-293 | totals are the sums over the rows that count, and a summary is available exactly if there are such rows and they have one source |
| Summaries.SumAddsColumns | internal/store/telemetry_repository.go:225-231 | each row adds its requests, input, output and total to the column of that name |
| Summaries.GroupByIsExact | internal/store/telemetry_repository.go:334-339 | every group holds exactly the tokens of its rows, and there is a group for every key that occurs |
| Summaries.BreakdownConserves | internal/store/telemetry_repository.go:314-352 | the model totals add up to the total if and only if at most fifty different models appear in rows with tokens; with at most fifty models in all, all four sums agree |
| Summaries.GroupsAreModels | internal/store/telemetry_repository.go:334-337 | the groups are those of the models in the rows, and the groups with tokens those of the models in rows with tokens |
| Summaries.ModelsInOrder | internal/store/telemetry_repository.go:334-339 | at most fifty models, fewer only if there are no more, by falling total and then by name |
| Summaries.FiftyOneModelsLoseTokens | internal/store/telemetry_repository.go:334-339 | fifty-one well-formed requests with a token each to different models: the summary of the day is available and its model totals miss the overall total |
| Summaries.OneEachIsStorable | migrations/010_telemetry.sql:1-35 | those requests are well-formed and differ in the key of the table |
| Summaries.OneBucketEach | internal/store/telemetry_repository.go:377-382 | every time falls in one half-open bucket and in no other |
| Summaries.BucketsInOrder | internal/store/telemetry_repository.go:377-382 | buckets come in the order of time, each once |
| Summaries.BucketHoldsItsRows | internal/store/telemetry_repository.go:377-382 | a bucket holds exactly the rows observed in its half-open interval |
| Summaries.TimeSeriesConserves | internal/store/telemetry_repository.go:377-382 | the bucket sums equal the totals |
| Summaries.SummaryConserves | internal/store/telemetry_repository.go:187-293 | an available summary conserves usage over buckets, and over models exactly as far as BreakdownConserves says |
| Summaries.SummaryLines | internal/store/telemetry_repository.go:314-412 | every model line is the sum over the rows of its model; the series is a grid of buckets of the width asked for, or of an hour when that is not offered, in which each bucket is the sum of its rows and each row has a bucket |
| LoginLimiter.Limiter.Allow | internal/services/auth.go:233-242 | allows exactly the keys that are not blocked, by the log; drops an entry only after it sat idle, and always when it is asked for one idle for fifteen minutes |
| LoginLimiter.Limiter.EvictOldest | internal/services/auth.go:246-255 | the loop finds and drops an entry that no other is older than, in whatever order the map is visited |
| LoginLimiter.Limiter.Fail | internal/services/auth.go:243-263 | the key just failed is present afterwards, the table never exceeds 10000 entries, and exactly one entry, a least recently updated one, goes when it is full |
| LoginLimiter.Limiter.Login | internal/services/auth.go:87-105 | is refused if and only if the account or the address is blocked; apart from expired entries and evictions it adds nothing when refused, the success of the account when logged in, and a failure of the account and then one of the address when the credentials are invalid |
| LoginLimiter.FailuresAreThrottled | internal/services/auth.go:222-264 | no key has more failures than its threshold within five minutes unless a success or an eviction of its entry falls between them |
| LoginLimiter.AccountsAreThrottled | internal/services/auth.go:87-105 | for accounts the bound is five, on every run of logins |
| LoginLimiter.PressingLocksOut | internal/services/auth.go:230-263 | after five failures of an account, or twenty-five of an address, each within fifteen minutes of the one before and with no success or eviction between, the key is blocked for five minutes from the last, so that Login refuses |
| LoginLimiter.OnlyThatLocksOut | internal/services/auth.go:230-263 | a blocked key has that many failures since its entry began and the last of them is less than five minutes old |
| LoginLimiter.SuccessForgives | internal/services/auth.go:264 | after a success, an expiry or an eviction only later failures count |
| WorkerPool.EveryScheduleIsSafe | internal/adapters/gantry/client.go:244-289 | under every schedule slots, first error and calls are right at each step, and the number of steps is bounded |
| WorkerPool.NeverStuck | internal/adapters/gantry/client.go:246-289 | until the pool has drained some step is possible, so failing fetches never block the producer |
| WorkerPool.DrainedPool | internal/adapters/gantry/client.go:254-292 | a drained pool made every due call exactly once and none after a failed one, filled every slot whose fetch succeeded, and knows a failure exactly when there is one |
| WorkerPool.AtMostFour | internal/adapters/gantry/client.go:247-250 | at every step at most four workers, no more than agents, and at least one if there are agents |
| WorkerPool.AllAnswered | internal/adapters/gantry/client.go:260-274 | every fetch succeeds exactly if all three calls for every agent do |
| WorkerPool.SequentialIs | internal/adapters/gantry/client.go:280-296 | the sequential result: one item per agent in order with its own skills and access, and the delegations joined in agent order |
| WorkerPool.FailuresAreFaults | internal/adapters/gantry/client.go:260-274 | the failures that can be reported are the first failed call of some agent |
| WorkerPool.CollectSnapshot | internal/adapters/gantry/client.go:244-296 | whatever schedule is chosen the result is that of fetching one agent after the other, delegations in agent order, or, when a fetch fails, no snapshot and the failure of some agent |
| EventFold.Update | internal/adapters/gantry/client.go:417-441 | one event takes the digest of a task's events to the digest with the event added, field by field |
| EventFold.NormalizeDelegatedExecutions | internal/adapters/gantry/client.go:399-448 | the fold over a run's events yields for each delegated task the digest of its own events from its first delegation on |
| EventFold.CountedFromDelegation | internal/adapters/gantry/client.go:407-415 | a task counts from its first event that names it as delegated |
| EventFold.DigestTexts | internal/adapters/gantry/client.go:416-433 | type, description, summary and status are the last that a counted event gives, the status of a patch before the plain one; without any the status is running and the others are empty |
| EventFold.DigestTimes | internal/adapters/gantry/client.go:434-441 | the start is that of the first started event with a readable time, the end that of the last event with a final status, and the raw record of an event id is its last payload |
| EventFold.NeverEnds | internal/adapters/gantry/client.go:438-440 | without a final status there is no end |
| EventFold.OrderedByFirstDelegation | internal/adapters/gantry/client.go:408-416 | executions come in the order of their first delegations |
| EventFold.ExecutionIds | internal/adapters/gantry/client.go:443-447 | there is exactly one execution for each delegated task and none for any other |
| EventFold.InterleavingIsIrrelevant | internal/adapters/gantry/client.go:399-448 | streams that keep each task's own order yield the same executions, up to their order |
| EndpointMerge.CreateKeeps | internal/store/repositories.go:139-209 | creating a connection keeps the invariant of connections, canonical endpoints, routes and merges |
| EndpointMerge.UrlKeyIs | migrations/012_runtime_endpoint_aliases.sql:25-26 | addresses are compared without trailing slashes and with ASCII letters lowered, and nothing else |
| EndpointMerge.CreateSucceeds | internal/store/repositories.go:139-209 | a connection is created if and only if its ids are new and no active connection of the organization has its name or its kind and address; then exactly its row and its canonical endpoint are added |
| EndpointMerge.UpdateSettingsSucceeds | internal/store/repositories.go:211-241 | settings are taken if and only if no other active connection has the new address and no alias of the same connection has it |
| EndpointMerge.UpdateSettingsTouches | internal/store/repositories.go:211-241 | exactly the connection, if the tenant sees it, and its canonical endpoint change, and in which fields |
| EndpointMerge.UpdateSettingsKeepsSound | internal/store/repositories.go:211-241 | a settings update keeps uniqueness, canonical rows, routes and merges, whoever asks, whatever becomes of the agreement of addresses |
| EndpointMerge.UpdateSettingsKeepsAgreement | internal/store/repositories.go:211-241 | it keeps the agreement if and only if it does not change the address or credential of an active connection that its tenant cannot see |
| EndpointMerge.ForeignSettingsBreakAgreement | internal/store/repositories.go:220-236 | from the sound tables after one registration, a request of another tenant moves the canonical endpoint and leaves the connection as it was |
| EndpointMerge.ArchiveKeeps | internal/store/repositories.go:391-409 | archiving keeps the whole invariant |
| EndpointMerge.NoSelfMerge | internal/store/repositories.go:441-500 | the repository cannot merge a connection into itself: the unique index on endpoints rejects it |
| EndpointMerge.ConsolidateKeeps | internal/store/repositories.go:441-500 | merging keeps the whole invariant: no cycle arises and exactly one route row stands for the merged connection |
| EndpointMerge.ConsolidateSucceeds | internal/store/repositories.go:441-500 | a merge succeeds if and only if the tenant sees both connections, they are of one kind and the canonical one has no endpoint with that address; then exactly the duplicate and the new row change, and how |
| EndpointMerge.EveryRunIsSound | internal/services/runtime_connections.go:192-357 | over every run of service requests, with lookup and write apart: merges are acyclic, each connection has one canonical endpoint that agrees with it while active, routes match merged connections one to one, and nothing archived is left with synchronisation on |
| EndpointMerge.EndpointStore.Insert | internal/store/repositories.go:139-209 | the new tables, and a roll-back on any conflict |
| EndpointMerge.EndpointStore.SetSettings | internal/store/repositories.go:211-241 | the new tables; the invariant is kept whenever the tenant owns the connection |
| EndpointMerge.EndpointStore.Retire | internal/store/repositories.go:391-409 | archives exactly the active connections that the tenant sees |
| EndpointMerge.EndpointStore.ConsolidateEndpoint | internal/store/repositories.go:441-500 | on success the duplicate points to the canonical connection and the new row stands for it; otherwise nothing changes |
| ControlActions.EveryRunIsLawful | internal/services/control_actions.go:79-497 | any interleaving of requests keeps the invariant over actions, audit trail and calls; while no write fails, no request has lost one |
| ControlActions.OneCallPerKey | internal/services/control_actions.go:79-497 | each idempotency key of an organization causes at most one call that changes a runtime, also with concurrent requests and failing writes |
| ControlActions.RetriesDoNothing | internal/services/control_actions.go:88-92 | a request that finds its key already used never gets an action of its own, whatever other requests do meanwhile, so it causes no write, event or call |
| ControlActions.CallsNeedRunningAction | internal/services/control_actions.go:138-143 | a runtime is called only for a stored running action that is no dry run, on a control-enabled runtime whose adapter supports it, for a deletion after its confirmation, and for a cancellation of a run that is pending or running; the call is recorded with its answer |
| ControlActions.FinishedTrace | internal/services/control_actions.go:79-497 | with working storage a finished action is rejected exactly when its operation is refused, with no call; a dry run succeeds with no call; any other succeeded exactly if its one call succeeded and failed exactly if that call failed, and the audit trail is [rejected], or [requested] and the terminal event of that outcome |
| ControlActions.RefusedForAReason | internal/services/control_actions.go:441-465 | an operation is refused exactly unless the runtime is control-enabled, its adapter registered and able, a deletion confirmed and not of a system-managed agent, a cancelled execution a run that is pending or running |
| ControlActions.EveryRunIsExcused | internal/services/control_actions.go:79-497 | over every run a request that stopped without an action, although what it names exists, was malformed, lost a write, or its key is in use |
| ControlActions.FinalStatusStays | internal/store/control_repository.go:67-82 | nothing changes an action again once it has succeeded, failed or been rejected |
| ControlActions.NeverMisshapen | internal/services/control_actions.go:79-497 | a request that is not finished always has what its next step needs |

## Left out

- Identifiers: ids are integers or texts and always given; places in the collation order of localeCompare are integers, and the comparators need not tell all agents apart. Only order independence asks for a total comparator.
- Unresolved delegations of one orchestrator with equal labels: their order follows the input, so only OrderIndependence.ArrivalOrderIsIrrelevant, which leaves them out, applies then.
- Search.FilterAgentTopology: whether a row matches the query text is a parameter; the normalised haystack is not modelled.
- PostgreSQL: tables are maps with the conflict keys of the queries, a transaction is one step that a fault can undo, advisory locks are a set of held keys under an arbitrary hash of the runtime's id, and unique indexes are checked when a transaction ends.
- SyncService.SyncRepository.TryLock: an advisory lock belongs to its database session, and closing a connection returns the session to the pool; a lock that outlives a failed query or a failed unlock is not modelled.
- Process crashes, and FailRun or finishing a run failing on its own.
- SyncService.Transact: does not write the tables of executions, diagnostics, inventory, capabilities and the skill catalogue.
- SyncService.SyncRepository.PersistSnapshot: does not write those tables either, nor the status of the runtime connection.
- Executions, diagnostics, inventory and capabilities are validated but their tables are not modelled; neither are the runtime_skills catalogue row shared by agents and the bindings that AgentRepository.Create adds.
- Snapshots.ValidateRuntimeSnapshot: trimming removes the white space of Latin-1; other Unicode spaces are not modelled.
- Telemetry.ReportedCostsStay: speaks of the normalized observation; the cost columns, numeric(20, 10), then round further decimals and keep no minus zero.
- Polling.OverlappingPollsEqualOnePass: the source reports each observation unchanged in every window that holds it, and one runtime is polled; concurrent polls of different runtimes write different keys.
- Telemetry.Normalize: filling a missing observation time with the current time is not modelled; a time is always given. Neither are the attributes on context utilisation.
- Decimals.PrintThenParse: amounts written as fractions or with exponents, which the rational parser also reads, are not modelled.
- Floating-point context utilisation and percentiles of a summary, and which of several unknown sources an aggregate lists first.
- ControlActions: the four operations are modelled as steps of concurrent requests, not as methods of one object. The local tombstone of a deleted agent and the verification sync after an action, whose failures only add to the result, are left out; so are payloads.
- ControlActions.EveryRunIsExcused: the id drawn for a new action is one that no action has.
- ControlActions.OneCallPerKey: keys are taken as trimmed; the code looks them up untrimmed and stores them trimmed.
- WorkerPool: what a call answers is fixed by the position of the agent in the list; HTTP, cancellation and time stamps are not modelled.
- EventFold.NormalizeDelegatedExecutions: payload values are the trimmed texts that the fold reads, and times are parsed already.
- EndpointMerge: addresses are compared after removing trailing slashes and lowering ASCII letters; labels, names for display and audit events are not modelled.
- LoginLimiter.Limiter.Login: looking up the user and verifying the password are one parameter; calls are serialised, as the limiter's mutex serialises its own methods.
- HTTP handlers, authentication, encryption, token generation, configuration, the LangGraph and LangSmith clients, the web pages.
