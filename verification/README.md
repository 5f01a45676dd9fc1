# Verified model of the Kubric correlation engine and its neighbours

This project models the multi-tenant correlation engine of `internal/correlation`
and three smaller components that carry loop or state properties of their own, and
proves properties of them over all inputs, runs and interleavings.

## The correlation engine

Events arrive per tenant and are kept in buffers keyed by tenant and event type, at most
1000 per key. Every ten seconds the engine snapshots the buffers, groups recent events by
tenant, matches every rule against every tenant, and turns each match into an incident
unless a cache of fingerprints says it was reported less than two rule windows ago.
Meanwhile events keep arriving, the cache is cleaned, the buffers are pruned, incidents
pass through a bounded channel to a dispatcher, and operators patch statuses.

- `EngineModel` is a state machine with one step per critical section and a nondecreasing
  clock. Everything the environment chooses (arrivals, the orders in which Go ranges over
  its maps, alert IDs, times) is part of the step. A `Trace` keeps what the engine itself
  forgets: all arrivals, all incidents as created, all offers to the channel.
- `CorrelationEngine.Engine` is the engine as a class with the source's fields; each of its
  methods is proved to take exactly one step of that machine, and `PerformAll` composes them:
  whatever commands the object is given, it goes through a run of the machine, so every
  theorem about runs is a theorem about the class.
- `Atomicity` splits evaluations into their critical sections, lets the other goroutines
  run in between, and reduces every schedule of many ticks to a run of the atomic machine.
- `Slices` puts the buffers in the heap, as slices of shared arrays, and shows that the
  in-place updates never reach an array that was handed out.
- `Reachable`, `Dedup`, `Recurrence`, `CacheCleaning`, `BufferRefinement`, `Justification`,
  `Updates`, `OrderIndependence` and `Isolation` prove the properties of whole runs.
- `Clashes`, `CatchAllRule`, `IsolationLimits` and `SharedChannel` show where those properties end: with a
  rule that every event satisfies they build the ticks and runs in which a missing assumption
  breaks the guarantee.
- `Matching` and `Fingerprints` hold the rule matcher and the dedup key, `Subjects` the NATS
  routing, `DefaultRuleSet` the shipped rules, `Pagination` the incident list.
- `Conditions`, `Firing` and `Reporting` say what all this means for the events themselves, without
  the engine's own helpers: when a condition holds, letter by letter and field by field; when a
  rule matches for a tenant, counted over the buffers or the last arrivals; and when that leads
  to an incident, by rule, tenant and the (agent, type, title) of its events.

## The other components

- `Bridge`: the batching loop from NATS to ClickHouse, as the atomic actions of its callback
  and its `select` loop.
- `Zeek`, `ZeekReading` and `ZeekRoundTrip`: the reader of Zeek's tab-separated logs, what it makes
  of any line, a writer for the documented format, and the round trip between them.
- `Monitor` and `Scaling`: the autoscaling monitor, its bounded histories and its decisions, over
  real numbers, and what those mean in thresholds and sums of the samples.

## Assumptions, stated where they are used

- `ColonFreeInputs`: no tenant name contains `:`.
- `ApartFrom`, for the isolation of one tenant: no other tenant's name continues its name behind
  a `|`, nor the other way round. `ValidateTenantID` guarantees both (`Subjects.ValidatedTenantRoundTrips`); ingestion does
  not call it, neither for subjects nor for the Falco hostname used as tenant.
- `WellFormedRules`: rule IDs are distinct and contain no `|`. `ShortWindows`: twice every
  rule's window fits into the cache's hour. Both hold of the shipped rules
  (`DefaultRuleSet.DefaultRulesQualify`).
- `CleanInputs`, for statements about agents, types and titles: tenants, agents and types contain
  neither `:` nor `|`, and titles no `|`. Without it two different findings can share a fingerprint
  (`Reporting.ColonCollides`, `Reporting.BarCollides`).
- An evaluation's incidents are all offered to the channel before the next evaluation, as
  the single ticker goroutine does.

## Where the code and its descriptions differ

- The dedup cache is described as fingerprint to last *seen* time
  (`internal/correlation/engine.go:175`). The code stores the time of the last incident
  *created*: a suppressed match extends nothing (`Dedup.SuppressionNotExtended`). An attack that
  matches at every tick is reported again and again, less than two windows and one gap between
  ticks apart (`Recurrence.AttackReportedAgain`).
- A threshold is described as a number of matching events
  (`internal/correlation/engine.go:104`). The code counts deliveries: one event delivered twice
  satisfies a threshold of two (`Matching.RedeliveryMeetsThreshold`). When an incident's own events
  meet its rule is stated exactly by `Matching.IncidentMeetsItsRuleIff`, also where different
  events share an ID.
- Rules are described as seeing events "on the same agent" and one event "followed by" another
  (`internal/correlation/rules.go:50`, `internal/correlation/rules.go:91`). The code compares neither agents nor
  times within a window: rewriting all agents and shuffling the events changes no rule's answer
  (`Conditions.AgentsAndOrderIgnored`).
- A tenant name with a colon is filed under the part before the colon
  (`Isolation.ColonMisfiles`, `Subjects.RoutingAcceptsColon`).
- Of two colon-free tenants, one can hide the other's incident exactly when its name continues
  the other's behind a bar, or the other way round: that is when their events can share a
  fingerprint (`Fingerprints.TenantsCollideIff`), and when some rule set and run change what is
  created for the other (`IsolationLimits.IsolatedIff`).
- A tick's outcome can depend on map order exactly when two unexpired events of one tenant and
  of different types share an ID, or some rule gives two tenants matches of one fingerprint
  (`OrderIndependence.OrdersDoNotMatterIff`). The second needs a name that continues another
  behind a bar (`Clashes.ApartNoClash`), and happens for any such pair
  (`IsolationLimits.CollidingNamesShowOrder`).
- An evaluation reads its clock before it takes the lock. A prune in that gap is noticed exactly
  when an event expires in between (`Atomicity.GapHarmlessIff`).
- Incidents created in one tick share a creation time and the sort is unstable, so an incident
  can appear on no page while its neighbour appears on two (`Pagination.TieHides`,
  `Pagination.TieRepeats`). Paging is a partition for every choice of orders if and only
  if no such tie crosses a page boundary (`Pagination.PagesPartitionIff`).
- A limit above 500 is described as capped ("max 500", `internal/noc/handler_detection.go:96`);
  the code falls back to 50.
- The documented line `#separator \x09` has a space where the parser looks for a tab, so it is
  never applied, whatever separator it announces (`ZeekRoundTrip.SeparatorLineIgnored`). Logs
  separated by tabs are read correctly because tab is the default.
- The bridge's default subject `kubric.proc.events` yields the tenant `proc` for every event
  (`Bridge.DefaultSubjectTenant`). A clean shutdown flushes the buffer but loses whatever the
  channel still holds (`Bridge.Bridge.LossAtTheEnd`).
- The monitor's "simple linear regression" is the last value less the first, divided by the number
  of samples. An overloaded service ends below the replicas of the health snapshot exactly when
  its own lookup disagrees with the snapshot: it finds so many fewer that one more is still below,
  and is reached before any lookup raises, or it finds nothing, no lookup raises, and the history calls for scaling down
  (`Monitor.OverloadedScaledDownIff`).
- All tenants share one dispatch channel: a send is refused exactly while 512 incidents wait
  (`SharedChannel.RefusedIffFull`), so one tenant's incidents get another's dropped
  (`SharedChannel.BurstDropsAnother`). The run shown has one incident per tick, in 512 ticks ten
  minutes apart during which the dispatcher receives nothing; with more rules it takes fewer.

## Model

| member | source | states |
|---|---|---|
| Isolation.TenantIsolation | internal/correlation/engine.go:331-475 | for every run and colon-free tenants, erasing all other tenants' events leaves a valid run in which the tenant's incidents are the same, in the same order, up to their random IDs, provided no other name continues the tenant's behind a bar or the other way round |
| IsolationLimits.IsolatedIff | internal/correlation/engine.go:331-475 | a tenant is isolated from another, over all rule sets and runs of the two, if and only if neither name continues the other behind a bar |
| IsolationLimits.CollidingNamesLeak | internal/correlation/engine.go:437-448 | when one name continues the other, in the run returned both tenants match in one tick, the other one gets the only incident and this one's match is a dedup hit, while without the other's events it gets an incident |
| Isolation.ShadowStep | internal/correlation/engine.go:331-475 | each step, seen by one tenant, is matched by the erased step or by none; the tenant's buffers, cache entries and incidents stay equal |
| Isolation.OthersUnseen | internal/correlation/engine.go:437-475 | the match of another tenant whose name is apart changes nothing the tenant can see, because their fingerprints never coincide |
| Isolation.SameMatches | internal/correlation/engine.go:415-437 | the tenant's matches in a tick are those of its own tasks alone |
| Isolation.ColonMisfiles | internal/correlation/engine.go:331-406 | an event of a tenant with a colon is evaluated under the part before the colon and not under its own name |
| BufferRefinement.BufferIsHistorySuffix | internal/correlation/engine.go:333-337 | in every reachable state a buffer holds at most 1000 events, and its unexpired part is the unexpired part of a suffix of its key's full history that holds at least the last 1000 arrivals |

| BufferRefinement.FiringRefinesHistory | internal/correlation/engine.go:407-435 | firing on the last 1000 arrivals implies firing on the buffers, which implies firing on full history; all three agree when everything the cap could have cut has expired |
| BufferRefinement.FiresMonotone | internal/correlation/engine.go:415-435 | more fresh events per key, in any map order, never un-fire a rule for a tenant |
| OrderIndependence.OrdersDoNotMatterIff | internal/correlation/engine.go:401-475 | in every state with well-keyed buffers, every rule set's tick has the same cache and the same reports under any two enumeration orders if and only if no two unexpired events of one tenant share an ID across types and no rule gives two tenants matches of one fingerprint |
| OrderIndependence.OrdersDoNotMatter | internal/correlation/engine.go:401-475 | the direction from typed IDs without clashes, for given rules and any two enumeration orders of the buffer map and of the tenant map per rule: same dedup cache, same incidents up to IDs and event order |
| OrderIndependence.ClashShows | internal/correlation/engine.go:439-448 | when a rule gives two tenants matches of one fingerprint, the tenant ranged over first is reported, so two tenant orders have different outcomes |
| Clashes.ApartNoClash | internal/correlation/engine.go:437-437 | tenants whose names are apart never clash |
| Clashes.TickIndependent | internal/correlation/engine.go:437-448 | without clashes, matches of a tick share a fingerprint only under one rule whose window suppresses nothing |
| IsolationLimits.CollidingNamesShowOrder | internal/correlation/engine.go:401-448 | for any two colon-free tenants whose names continue each other, after one event of each the outcome of a tick depends on map order although no ID is shared |
| OrderIndependence.OutcomesDiffer | internal/correlation/engine.go:508-518 | two unexpired events of one tenant sharing an ID across types make a catch-all tick's reports differ between orders that start with their keys |
| OrderIndependence.DedupByType | internal/correlation/engine.go:508-518 | when types do not share IDs, deduplication by first occurrence acts on each event type separately |
| Atomicity.SchedulesAreRuns | internal/correlation/engine.go:383-478 | every schedule of any number of ticks, their matches processed one at a time among ingest, prune, dispatch, write-back and patch steps and cleanings in time, ends between two ticks in the state of the run in which each tick happens at once at its snapshot |
| Atomicity.EvaluationIsAtomic | internal/correlation/engine.go:388-478 | from its snapshot on, an evaluation interleaved with such steps ends in the state of the atomic evaluation followed by those steps in their order |
| Atomicity.GapHarmlessIff | internal/correlation/engine.go:384-395 | a prune between the reading of the clock and the snapshot leaves every tenant's snapshot as it would have been, for every map order, if and only if no event expires in between |
| Atomicity.CleanCommutesIff | internal/correlation/engine.go:439-448 | a cleaning in the middle of a tick commutes with a match, in every state, if and only if it comes in time: at most an hour after the tick, less two windows |
| Slices.SnapshotIsolated | internal/correlation/engine.go:388-395 | after any sequence of in-place ingests and prunes, a snapshot still reads as the buffers did when it was taken, and every stored incident still carries the same events |
| Slices.Append | internal/correlation/engine.go:337-337 | appending writes into the same array exactly while it has capacity and otherwise into a fresh one; the new slice is the old contents and the element |
| Slices.PushOnto | internal/correlation/engine.go:333-337 | dropping the first element by reslicing and appending leaves the last 999 events and the new one, in the same or a new array |
| Slices.FilterInPlace | internal/correlation/engine.go:717-722 | filtering into the slice's own backing array gives exactly the unexpired events in order |
| Slices.BufferStore.Ingest | internal/correlation/engine.go:331-338 | changes the contents of one key as specified and writes to no other buffer and no array handed out |
| Slices.BufferStore.Prune | internal/correlation/engine.go:712-729 | for any map order the buffers become the pruned buffers; arrays handed out are untouched |
| Slices.BufferStore.Snapshot | internal/correlation/engine.go:388-395 | copies every buffer into fresh arrays that serve the contents of that moment |
| Slices.BufferStore.Attach | internal/correlation/engine.go:450-470 | an incident takes over the array its events were compacted in, holding the deduplicated events |
| Slices.BufferStore.PerformAll | internal/correlation/engine.go:323-339 | over any sequence of operations the contents follow the specification and every array handed out keeps its contents |
| Dedup.CreatedIffNotReported | internal/correlation/engine.go:439-473 | in every reachable state a match creates an incident if and only if no stored incident with its fingerprint has CreatedAt > now - 2*window |
| Dedup.IncidentsSpaced | internal/correlation/engine.go:439-448 | stored incidents with one fingerprint are at least two windows apart in every reachable state |
| Dedup.SuppressionNotExtended | internal/correlation/engine.go:442-448 | a suppressed match leaves cache and store alone and cannot extend the suppression |
| Recurrence.AttackReportedAgain | internal/correlation/engine.go:439-448 | in every run, when a fingerprint matches at a tick and at all later ones, each new incident with it follows an earlier one by less than two windows plus the largest gap between ticks, and at the last tick one is less than two windows old |
| Firing.TickFiresIff | internal/correlation/engine.go:383-437 | whatever the map orders, a rule matches for a tenant in a tick if and only if it has a condition and each condition has a hit and no fewer than its minimum count and the rule's threshold, counted over the buffered events of that tenant newer than the rule's window and than five minutes, delivery by delivery |
| Firing.TwoSignals | internal/correlation/engine.go:482-503 | a rule of two conditions that ask for one event each matches for a tenant exactly when each has such an event, buffered and recent |
| Firing.LateralMovementIff | internal/correlation/rules.go:46-75 | the lateral movement rule matches for a tenant exactly when a new process and an outbound connection of that tenant are both less than 30 seconds old, on whatever agents |
| Firing.ArrivalsReported | internal/correlation/engine.go:323-475 | in every run, when each condition has that many hits among the last 1000 arrivals of each key, the tick has the match and afterwards an incident with its fingerprint is of this tick or younger than two windows |
| Reporting.AttackReported | internal/correlation/engine.go:323-475 | in every run over clean names, the same arrivals leave an incident of that rule for that tenant in the store, of this tick or younger than two windows |
| Reporting.ReportedIffNotKnown | internal/correlation/engine.go:437-475 | in every run over clean names, a match adds an incident of its rule and tenant about its set of (agent, type, title) if and only if no stored one of that rule, tenant and set is younger than two windows |
| Reporting.NewTitleReported | internal/correlation/engine.go:575-575 | a match with a title that no recent incident of its rule and tenant has adds an incident, even when agents and types are the same |
| Dedup.CreatedIffUnsuppressed | internal/correlation/engine.go:439-473 | although the loop updates the cache as it goes, a match of a tick yields an incident exactly when the cache at the tick's start does not suppress it |
| Ticks.TickCache | internal/correlation/engine.go:442-447 | a tick's cache is the old one with an entry stamped now for each incident it created |
| Ticks.TickGrows | internal/correlation/engine.go:468-474 | the incidents of a tick, judged by the cache at its start, are what log, result and counter grow by |
| CacheCleaning.CleaningInvisible | internal/correlation/engine.go:700-709 | removing all cleaning from a run gives a run again, with equal buffers, incidents, channel and counters |
| CacheCleaning.SameIncidentsWithoutCleaning | internal/correlation/engine.go:700-709 | from the start, incidents, channel and counters are those of the run without cleaning |
| CacheCleaning.CleaningSafeIff | internal/correlation/engine.go:442-442 | cleaning never changes a dedup decision if and only if twice the window fits into one hour |
| Justification.IncidentsJustified | internal/correlation/engine.go:407-470 | every stored incident was created by a tick of the run at CreatedAt, with the name, description, severity, tactic, technique and ID of a rule, from the window of its tenant's snapshot at that tick: events newer than CreatedAt - min(window, 5 min), none more often than it had arrived, in which every condition had its required hits and which the rule matched exactly |
| Justification.CreatedNew | internal/correlation/engine.go:450-470 | incidents are numbered, dispatched and first stored as new, without an alert and never updated |
| Reachable.BufferRun | internal/correlation/engine.go:331-338 | in every reachable state each buffer holds at most 1000 events, all arrived and all filed under their own key |
| Reachable.StoreRun | internal/correlation/engine.go:450-470 | the incident store is append-only: each record stays the incident created, up to status, alert ID and update time |
| Reachable.IncidentsConserved | internal/correlation/engine.go:255-303 | at tick boundaries created = stored = waiting + received + dropped, and created + suppressed = the matches of all ticks of the run |
| Reachable.RunJudged | internal/correlation/engine.go:437-473 | over any run, incidents created plus dedup hits grow by the number of matches of its ticks |
| Reachable.PipelineRun | internal/correlation/engine.go:255-303 | at every point the incidents created are, in order, those offered and those still to be offered, and those accepted are received first in, first out |
| Reachable.EventsConserved | internal/correlation/engine.go:329-338 | events ingested = buffered + evicted by the cap + pruned, over all keys |
| Updates.UpdatesSurvive | internal/correlation/engine.go:637-644 | in any interleaving of write-backs and patches a stored incident ends with the last accepted status, the last alert ID and the time of the last of these, and nothing else about it changed |

| Updates.StatusNeverReturnsToNew | internal/noc/handler_detection.go:191-205 | statuses stay within new, investigating and resolved, and new means no patch was accepted |
| Matching.MatchRuleExact | internal/correlation/engine.go:482-519 | a rule fires exactly when it has a condition and each has max(1, MinCount, Threshold) hits; the result has no repeated ID, the IDs of all matching events, in first-occurrence order |
| Matching.MatchRuleMonotone | internal/correlation/engine.go:482-503 | adding events anywhere never un-fires a rule |
| Matching.MatchRuleInPlace | internal/correlation/engine.go:482-519 | the loops, the threshold ladder and the compaction compute the specified match |
| Matching.CompactInPlace | internal/correlation/engine.go:509-518 | compacting over the array being ranged over keeps exactly the first event of every ID |
| Matching.ContributingInOrder | internal/correlation/engine.go:484-503 | what the conditions contribute is put together in their order, each with its hits in the order of the window |
| Matching.CollectHits | internal/correlation/engine.go:486-491 | collects exactly the events satisfying a condition, in order |
| Conditions.MatchConditionIff | internal/correlation/engine.go:522-565 | an event satisfies a condition if and only if source and type agree or are wildcards and, for each required field, the pattern stands letter by letter, up to ASCII case, somewhere in the value that this field has |
| Conditions.AgentsAndOrderIgnored | internal/correlation/engine.go:482-537 | whether a rule fires depends neither on the agents of the events nor on their order |
| Conditions.FieldExtracted | internal/correlation/engine.go:539-565 | the value of a field: title, description, source, type, tactic, technique, the indicators with one space between them, the raw field, or nothing |
| Conditions.BeaconingNeedsDirection | internal/correlation/rules.go:175-200 | no event without a direction satisfies the beaconing rule's condition |
| Conditions.EncodedCommandIff | internal/correlation/rules.go:87-116 | a process event satisfies the encoded-command condition exactly when its command line has -enc somewhere, in any case |
| Matching.Required | internal/correlation/engine.go:492-498 | the number of hits needed is the largest of one, the minimum count and the threshold |
| Matching.IncidentMeetsItsRuleIff | internal/correlation/engine.go:499-518 | the events an incident keeps meet its own rule exactly when, for every condition, enough IDs have a first contribution that satisfies it |
| Matching.RedeliveryMeetsThreshold | internal/correlation/engine.go:492-518 | one event delivered twice satisfies a threshold of two, and the incident keeps one event |
| Fingerprints.ComputeFingerprint | internal/correlation/engine.go:570-586 | the loop with its set of seen keys and its partial sort computes the preimage |
| Fingerprints.FingerprintCanonical | internal/correlation/engine.go:570-586 | the preimage depends only on rule ID, tenant and the set of agent:type:title keys |
| Fingerprints.FingerprintInjective | internal/correlation/engine.go:570-586 | without bars in the parts, preimages are equal if and only if rule, tenant and key set are |
| Reporting.FingerprintByFields | internal/correlation/engine.go:570-586 | with no colon in agents and types and no bar in any part, preimages are equal if and only if rule, tenant and the sets of (agent, type, title) are |
| Reporting.TriplesSuffice | internal/correlation/engine.go:570-586 | events with the same set of (agent, type, title) always have the same preimage |
| Reporting.ColonCollides | internal/correlation/engine.go:575-575 | a colon inside an agent makes an event look like one of another agent and type |
| Reporting.BarCollides | internal/correlation/engine.go:575-585 | one event whose title has a bar can have the preimage of two events |
| Fingerprints.FingerprintSeparates | internal/correlation/engine.go:571-585 | with bar-free rule IDs and tenants apart, preimages of different rules or tenants never coincide, whatever the events |
| Fingerprints.TenantsCollideIff | internal/correlation/engine.go:571-585 | for a bar-free rule ID, events of two different tenants can share a preimage if and only if one name continues the other behind a bar |
| Fingerprints.AgentCollides | internal/correlation/engine.go:571-585 | an agent name with a bar gives an event of a tenant the preimage of an event of a tenant whose name continues it |
| EngineModel.KeyRoundTrip | internal/correlation/engine.go:331-406 | splitting the buffer key at its first colon returns the tenant exactly when the tenant has no colon |
| EngineModel.KeysApart | internal/correlation/engine.go:331-331 | for colon-free tenants, events share a buffer exactly when they have the same tenant and type |
| EngineModel.TickTasks | internal/correlation/engine.go:417-435 | for the orders a tick may draw, its iterations are exactly the pairs of a rule and a tenant with recent events, each with the tenant's snapshot |
| EngineModel.MatchesApart | internal/correlation/engine.go:437-437 | no two matches of a tick share a fingerprint when its tenants are apart |
| SharedChannel.RefusedIffFull | internal/correlation/engine.go:256-261 | in every reachable state a send is refused exactly when 512 incidents wait |
| SharedChannel.BurstDropsAnother | internal/correlation/engine.go:254-263 | after a burst of one tenant another tenant's incident is created but dropped, while the same steps without the burst have it accepted |
| DefaultRuleSet.DefaultRulesQualify | internal/correlation/rules.go:22-33 | the shipped rules have distinct bar-free IDs, windows of at most 5 minutes and 50 minutes of slack before the cleaner |
| CorrelationEngine.CollectNewer | internal/correlation/engine.go:408-412 | the loop keeps exactly the events newer than the cutoff |
| CorrelationEngine.GroupByTenant | internal/correlation/engine.go:398-413 | for an arbitrary map order, groups are the per-tenant snapshots in that order, and no group is empty |
| CorrelationEngine.MatchPair | internal/correlation/engine.go:421-437 | windowing, matching and fingerprinting give the match of a rule for a tenant, or none |
| CorrelationEngine.Engine.constructor | internal/correlation/engine.go:213-223 | the engine starts in the machine's initial state |
| CorrelationEngine.Engine.ProcessEvent | internal/correlation/engine.go:323-339 | one ingest step: count the event and push it under its key, dropping the oldest at the cap |
| CorrelationEngine.Engine.IngestFalcoAlert | internal/correlation/engine.go:348-375 | one ingest step of an event with the hostname as tenant and agent, the rule behind `Falco: ` as title, the output as description, the fields as raw data and the severity of the priority |
| CorrelationEngine.FalcoSeverity | internal/correlation/ingestor.go:651-666 | which priorities, in any case, give 5, 4, 3 and 1; all others give 2 |
| CorrelationEngine.Engine.Record | internal/correlation/engine.go:439-474 | a match within two windows of its cache entry only counts a dedup hit; any other creates, caches, stores and counts one incident |
| CorrelationEngine.Engine.EvaluateRules | internal/correlation/engine.go:383-478 | one evaluation step for the orders drawn, returning exactly the incidents it created |
| CorrelationEngine.Engine.Tick | internal/correlation/engine.go:254-263 | an evaluation followed by one non-blocking send per triggered incident |
| CorrelationEngine.Engine.PerformAll | internal/correlation/engine.go:233-303 | whatever sequence of arrivals, ticks, receives, write-backs, patches, cleanings and prunes with nondecreasing times the object performs, it goes through a valid run of the machine |
| CorrelationEngine.Engine.Publish | internal/correlation/engine.go:256-261 | a send succeeds exactly while the channel holds fewer than 512 |
| CorrelationEngine.Engine.Receive | internal/correlation/engine.go:300-303 | takes the oldest waiting incident, if any |
| CorrelationEngine.Engine.PersistAlertId | internal/correlation/engine.go:637-644 | re-reads the stored incident and changes its alert ID and update time and nothing else; unknown IDs change nothing |

| CorrelationEngine.Engine.UpdateIncidentStatus | internal/correlation/engine.go:778-789 | changes status and update time of a stored incident and returns it, or reports it missing |
| CorrelationEngine.Engine.PatchIncident | internal/noc/handler_detection.go:176-205 | refuses any status but investigating and resolved with 422, an unknown incident with 404, and otherwise patches |
| CorrelationEngine.Engine.CleanDedupCache | internal/correlation/engine.go:700-709 | for any map order, deleting while ranging removes exactly the entries older than one hour |
| CorrelationEngine.Engine.PruneBuffer | internal/correlation/engine.go:712-729 | for any map order, every buffer keeps exactly its unexpired events and empty buffers disappear |
| Pagination.ListIncidents | internal/correlation/engine.go:737-767 | returns the requested positions of a listing that holds exactly the stored incidents with the tenant, severity and status asked for, each once, newest first |

| Pagination.ListHandler | internal/noc/handler_detection.go:98-145 | refuses exactly a missing tenant, a bad severity or an unknown status; otherwise at most 500 incidents, each with that tenant and with the severity and status if given, out of a listing of exactly the stored incidents with these; a limit outside 1 to 500 counts as 50 |
| Pagination.SameTimes | internal/correlation/engine.go:756-758 | all listings, whatever the map order and the unstable sort, show the same creation times |
| Pagination.PagesCoverTimes | internal/correlation/engine.go:760-766 | lengths and creation times of successive pages concatenate to those of the whole list, even when each request draws its own order |
| Pagination.PagesPartitionIff | internal/correlation/engine.go:756-766 | every selected incident is on exactly one page for all choices of orders if and only if no tie in creation time crosses a page boundary |
| Pagination.TieRepeats | internal/correlation/engine.go:756-766 | with a tie across a page boundary, the same choice of orders that hides one incident shows its neighbour on two pages |
| Pagination.DistinctTimesPartition | internal/correlation/engine.go:756-766 | with distinct creation times the pages are the whole list |
| Subjects.ExtractInvertsSubject | internal/correlation/ingestor.go:230-236 | extraction inverts subject building exactly for nonempty tenants without a dot |
| Subjects.MatchesExactly | internal/correlation/ingestor.go:241-256 | a subject matches a pattern exactly when it is built from some tenant segment and the pattern's category and class |
| Subjects.AtMostOnePattern | internal/correlation/ingestor.go:206-225 | a subject matches at most one of the eight patterns |
| Subjects.RoutingInvertsBuilding | internal/correlation/ingestor.go:200-236 | a subject is routed to tenant t and parser i exactly when it is the subject built from them |
| Subjects.Routed | internal/correlation/ingestor.go:200-236 | kubric.t.category.class.v1 reaches, by a table of the eight literal pairs, its parser with tenant t, or none |
| Subjects.ValidTenantIDIff | internal/schema/tenant.go:17-38 | validation accepts exactly a letter or digit, up to 61 letters, digits and hyphens, and a letter or digit |
| Subjects.ValidatedTenantRoundTrips | internal/schema/tenant.go:17-49 | a validated tenant survives the subject and the buffer key and contains no separator |
| Subjects.RoutingAcceptsColon | internal/correlation/ingestor.go:200-236 | routing accepts tenants that validation refuses, and files those with a colon under another tenant |
| Bridge.GetenvInt | cmd/nats-clickhouse-bridge/main.go:200-210 | the setting if it is a positive number, otherwise the fallback; so the batch size is positive |
| Bridge.TenantIsSecondToken | cmd/nats-clickhouse-bridge/main.go:72-78 | the tenant is the subject's second token, or "default" when there is none |
| Bridge.TenantReadsBack | cmd/nats-clickhouse-bridge/main.go:71-78 | a tenant reads back from its subject exactly when it is one nonempty token |
| Bridge.DefaultSubjectTenant | cmd/nats-clickhouse-bridge/main.go:152-152 | the default subject makes every event belong to the tenant "proc" |
| Bridge.Bridge.constructor | cmd/nats-clickhouse-bridge/main.go:65-92 | the loop starts with a positive batch size and nothing received |
| Bridge.Bridge.OnMessage | cmd/nats-clickhouse-bridge/main.go:66-83 | undecodable messages vanish; others get the subject's tenant and enter the channel exactly while it holds fewer than 2*batchSize |
| Bridge.Bridge.OnReceive | cmd/nats-clickhouse-bridge/main.go:103-110 | moves the oldest event to the buffer and flushes exactly when the batch is full |
| Bridge.Bridge.OnTick | cmd/nats-clickhouse-bridge/main.go:111-114 | flushes unless the buffer is empty |
| Bridge.Bridge.OnCancel | cmd/nats-clickhouse-bridge/main.go:95-102 | flushes a nonempty buffer before stopping |
| Bridge.Bridge.OnFlushDone | cmd/nats-clickhouse-bridge/main.go:105-118 | success stores the batch and empties the buffer; failure ends the process |
| Bridge.Bridge.Run | cmd/nats-clickhouse-bridge/main.go:65-120 | under any interleaving: flushed + buffer + channel = accepted events in arrival order, flushes hold 1 to batchSize events, the waiting loop's buffer fewer, the channel at most 2*batchSize |
| Bridge.Bridge.Drain | cmd/nats-clickhouse-bridge/main.go:92-120 | while nothing arrives and flushes succeed, the loop stores every accepted event |
| Bridge.Bridge.Conserved | cmd/nats-clickhouse-bridge/main.go:66-83 | received = accepted + dropped + undecodable |
| Bridge.Bridge.LossAtTheEnd | cmd/nats-clickhouse-bridge/main.go:95-102 | a clean shutdown loses exactly the channel's contents; a failed flush loses the batch in hand as well |
| Bridge.FullBatchesAreChunks | cmd/nats-clickhouse-bridge/main.go:103-110 | without ticks the batches are the consecutive chunks of the accepted events |
| Zeek.ParseHeader | internal/zeek/client.go:158-233 | the reader loop computes the header and leaves exactly the text after it; no fields is an error |
| Zeek.ParseGeneric | internal/zeek/client.go:256-303 | the scanner loop reads the specified rows, and fails on a missing header or an overlong line |
| Zeek.ParseRow | internal/zeek/client.go:278-292 | every field of the header gets its cell, marks become empty, and missing cells are empty |
| ZeekReading.LineReads | internal/zeek/client.go:271-292 | any line, with or without a carriage return, reads as the pieces between its separators: marks and missing cells are empty, surplus cells are dropped, the last of two equal names counts |
| ZeekReading.SplitOnIff | internal/zeek/client.go:278-278 | splitting gives exactly the pieces that rejoin to the line and in which no separator begins |
| ZeekReading.HeaderLineReads | internal/zeek/client.go:172-224 | a header line takes effect with a carriage return or without |
| ZeekReading.HeaderStops | internal/zeek/client.go:172-195 | the header ends behind a closing line and before the first line that is no comment |
| ZeekRoundTrip.RoundTripIff | internal/zeek/client.go:9-19 | a written table, with or without a closing line, reads back as the same header and rows if and only if no row's line is blank, a comment or overlong and no cell is a mark |
| ZeekRoundTrip.RowRoundTripIff | internal/zeek/client.go:278-292 | a row's line reads back as the row exactly when none of its cells is a mark |
| ZeekRoundTrip.HeaderRoundTrip | internal/zeek/client.go:9-19 | reading the written header lines gives the header |
| ZeekRoundTrip.SeparatorLineIgnored | internal/zeek/client.go:11-11 | the documented separator line, with a space, changes nothing |
| ZeekReading.SeparatorLineApplied | internal/zeek/client.go:205-208 | written with a tab, the separator directive is honoured |
| Zeek.ParseZeekSet | internal/zeek/client.go:494-510 | the loop collects the trimmed, nonblank members |
| Zeek.SetRoundTripIff | internal/zeek/client.go:494-510 | joined members read back exactly when each is nonempty and has no space around it |
| ZeekReading.SetReads | internal/zeek/client.go:494-510 | a set value reads as its members in order, without the spaces around them and the empty parts |
| Monitor.InfrastructureMonitor.DetectResourceExhaustion | kai/house/monitor.py:46-139 | returns the alerts of the readings before the first that raises; stores them, keeping the last 1000, only when none raised |
| Monitor.InfrastructureMonitor.CollectMetrics | kai/house/monitor.py:141-163 | every reading up to the first that raises extends its history, which stays the last 1440 samples of its log |
| Monitor.HistoriesAreLastSamples | kai/house/monitor.py:147-160 | after any run of collections a history is the last 1440 samples its service ever had |
| Monitor.Levels | kai/house/monitor.py:63-127 | the three threshold ladders give at most one alert each, critical before warning |
| Scaling.AlertsIff | kai/house/monitor.py:55-127 | the alerts are exactly those with the service, time, value, severity and threshold that some reading over one of the six thresholds calls for |
| Monitor.InTroubleIff | kai/house/monitor.py:63-108 | a service has an urgent alert exactly when a reading exceeds 90 % CPU or 900 MB |
| Monitor.PredictOne | kai/house/monitor.py:178-225 | the loop body proposes the plan the last hour's samples call for, or none |
| Monitor.InfrastructureMonitor.PredictCapacityNeeds | kai/house/monitor.py:165-230 | the plans are those of the listed services, in order |
| Monitor.ConfidentPlans | kai/house/monitor.py:203-225 | a plan is confident above 0.7 exactly when it grows at a mean CPU above 91 or shrinks at a mean CPU below 9, a mean memory below 300 and more than one replica |
| Scaling.PlanExactly | kai/house/monitor.py:178-225 | every field of a plan, in terms of the last hour's samples: whether CPU rose by more than 5 per sample, the sums of CPU and memory, and the confidence as the mean's way from 70 to 100 or from 30 to 0 |
| Scaling.SumsAdd | kai/house/monitor.py:194-196 | the sums behind the means add up over joined periods |
| Scaling.MeansBetween | kai/house/monitor.py:194-196 | a mean lies between any lower and upper bound of its samples |
| Monitor.Prioritize | kai/house/monitor.py:248-264 | the two loops compute the decisions, urgent alerts first, stopping at a lookup that raises |
| Monitor.InfrastructureMonitor.AutoScaleDecision | kai/house/monitor.py:232-269 | decides from this call's alerts and plans and keeps the histories bounded |
| Monitor.DecideExactly | kai/house/monitor.py:241-264 | over a consistent snapshot the decision for each service is exactly the one its measurements call for, and no other service gets one |
| Scaling.DecisionsIff | kai/house/monitor.py:186-264 | over a consistent snapshot, one replica more if and only if a reading is exhausted or, in the last hour of at least ten samples, the last CPU exceeds the first by more than 5 times their number and CPU sums to more than 91 times it; one less if and only if not so and CPU sums to less than 9 times, memory to less than 300 times their number, with more than one replica; nothing else |
| Scaling.FallingNeverGrows | kai/house/monitor.py:197-207 | a service whose last recent CPU is at most its first never gets a replica more without an exhausted reading |
| Monitor.DecisionsBounded | kai/house/monitor.py:241-264 | decisions are one replica up or down and at least one; down only without urgent alert at mean CPU below 9 and mean memory below 300; up without urgent alert only above 91 |
| Monitor.OverloadedScaledDownIff | kai/house/monitor.py:249-264 | whatever the lookups answer, a service with an urgent alert ends below the snapshot's replicas exactly when its lookup finds at least two fewer and is reached before any lookup raises, or finds nothing, no lookup raises and its history calls for it |

## Left out

- The SHA-256 digest of a fingerprint, cut to 16 bytes: fingerprints are compared by preimage.
- UUIDs: incident IDs are the numbered draws of a supply; isolation compares incidents without them.
- JSON decoding and the eight payload parsers, their severity tables, indicator lists and timestamp parsing: events arrive normalised.
- `%v` rendering of raw data: a raw field maps to its printed value.
- Unicode: strings are sequences of characters, lower-casing and space trimming are ASCII.
- `time.Duration` overflow and monotonic clocks: times are unbounded integers, and steps read nondecreasing times.
- `SetRules`: the rule list is fixed for a run.
- The atomic counters are advanced together with the critical section beside them.
- TheHive, Shuffle and every other HTTP client: a dispatch may end in a write-back step with any alert ID, or in none.
- Atomicity.EvaluationIsAtomic: starts at the snapshot, because a prune between the reading of the clock and the snapshot can make the tick miss an event that expires in between; `Atomicity.GapHarmlessIff` says exactly when. Cleanings that come too late are excluded for the reason given by `Atomicity.CleanCommutesIff`.
- Isolation.TenantIsolation: covers the incidents created, not their dispatch, because the channel is shared; `SharedChannel.BurstDropsAnother` is a run in which it fails.
- `GetIncident`, `ListTimeline`, `Metrics` and `DispatchByID`: a lookup, single filters over the buffers and re-sending of a stored incident, without further state.
- The descriptions of the shipped rules are empty strings; no decision depends on them.
- A negative offset, which `ListIncidents` would panic on: the only caller clamps it.
- `strconv.Unquote` in the Zeek header is a parameter; file errors and the typed conn, dns, http and ssl readers on top of `ParseGeneric` are not modelled.
- The texts of alerts and plans (`message`, `reason`).
- The shutdown flush is handed the context that was just cancelled; whether it then succeeds is up to the client library, so the model allows both.
- ClickHouse batches either succeed as a whole or fail; the replacement of an unparsable row time by the current time is not modelled.
- Real numbers stand for floating point in the monitor, and one time stands for its several readings of the clock.
- `get_health_summary`: counting and formatting only.
