# A verified model of stouter's stateful core

stouter is a service-mesh daemon. Below its network code sit a handful of small
stateful algorithms whose correctness only shows over whole runs. This project
models them in Dafny and proves what they are for:

- **Load balancing** (`RoundRobin`, `Ejection`, `Balancing`, `BalancerRuns`,
  `FairShares`): smooth weighted round-robin, outlier ejection with capped
  backoff, and connection slots under a hard cap.
- **Replication** (`Replication`, `Daemons`, `FilePoll`, `Clusters`,
  `Divergence`, `HealthChecks`, `HealthGossip`, `HealthReports`): the versioned
  configuration and the health reports, gossiped over a network that loses, duplicates and
  reorders messages, with persists that may fail, restarts and file edits.
- **HTTP attempts** (`RetryBudgets`, `Attempts`): the bounded retry loop, its
  slots, its budget and what the client is told.
- **Shared state** (`IndexCoherence`, `Drain`): interleavings of writers with
  index rebuilds, and of guards with waiters.
- **Configuration, routing, reconciliation** (`Configs`, `Indexes`,
  `AdminEffects`, `Text`, `Routing`, `Codecs`, `Reconcile`).

`Common` holds shared vocabulary. Code that updates state in place is a class
(`Balancer`, `RetryBudget`, `HttpProxy`, `LiveConfig`, `Daemon`,
`HealthTracker`, `ProxyManager`), each method proved against a function on
values; the theorems are about those functions and their runs. Concurrency is a
step relation, and a run is any sequence of enabled steps. Every lemma carries
`{:induction false}`: each induction is the one its body spells out.

## How reality maps to the model

- Integers are unbounded: running weights (`i64`), counters (`u32`, `usize`) and
  versions (`u64`) do not wrap. `active` and `count` are proved never to go
  below zero.
- Time is a natural number of nanoseconds. Clock readings, the routing ticket,
  random bytes, upstream results, persist results, probe results and proxy
  start results are parameters, so theorems hold for all of them.
- Retry tokens are counted exactly in fifths (+1, capped at 100; -5); the
  program keeps an `f64`, so rounding is idealised.
- A persist writes the whole configuration or fails; encoding to and from bytes
  is the identity. Liveness markers (`last_seen`) appear only as the `seen`
  predicate of a request. The sorted list of unhealthy services is a set.
- While an HTTP attempt waits, and between any two of its lock sections, other
  tasks may do anything that keeps the balancer and the budget valid
  (`HttpProxy.OtherTasks`). The ghost multisets `mine` and `rest` separate the
  observed task's slots from theirs, and the ghost `diary` and counters of the
  balancer and the budget hold what the observed task met at each lock.
- `notify_waiters` flags exactly the waiters registered at that moment; the
  atomic counter is sequentially consistent.
- A field name is valid when it is a token (section 5.6.2 of RFC 9110).
- In a cluster only `writers` mutate the configuration, by admin request or by
  editing their file. A writer restarts only while its file holds what it runs
  or something newer, and a restarted node's first report is made after the
  clock has passed its last one; both conditions are shown to be exact.
- A local command-line write edits the file and broadcasts the change itself
  (src/main.rs:444-460) without asking the running daemon. The model has the
  edit, not that broadcast: next to an admin request on the same node the
  command acts as a second writer.
- A persist after a change of the known nodes happens with the merge or later,
  as a `Rewrite` step of its own.

## What turned out not to hold

- Agreement needs a single writer: merges compare with a strict `>`. From any
  initial cluster all runs agree if and only if at most one writer is among its
  nodes (`Divergence.AgreementExactlyWhen`); otherwise two steps part them
  (`Divergence.TwoWritersDiverge`) and no later run repairs it unless somebody
  writes again, whatever other nodes there are (`Divergence.NothingRepairs`). An exchange makes two ends equal if and only if
  equal versions meant equal contents (`Replication.ExchangeMeets`).
- A writer must not restart with another file than it runs, unless that is
  newer: the file is run as it stands, only a poll would raise its version. A
  version that was running can come back with other contents if and only if the
  file is another configuration at the same or a lower version
  (`Divergence.RestartRewrites`). It happens after a persist that failed
  (`Divergence.LostPersistDiverges`) and after an edit at the running version
  that was not polled yet (`Divergence.EditThenRestartDiverges`).
- A restarted node's first health report replaces what peers held from before,
  as documented, if and only if its clock has passed the version of its last
  report (`HealthGossip.FirstReportExactlyWhen`,
  `HealthGossip.FirstReportReplaces`); with an old clock a version comes back
  with other contents (`HealthGossip.OldClockRepeats`).
- The poll loop compares service groups only: a hand edit of the routes at the
  running version is ignored (`FilePoll.RouteEditIgnored`; the exact condition is
  `FilePoll.EditTakenExactlyWhen`).
- A task cancelled between its write and its rebuild, as the timeout around a
  sync can do (src/gossip/mod.rs:441), leaves the indexes stale
  (`IndexCoherence.CancelledRebuildGoesStale`; the exact condition is
  `IndexCoherence.BuiltFromCurrentExactlyWhen`).
- A proxy key joins group and service name with a slash. Keys identify every
  service of a set of groups if and only if no group is another one up to a
  slash, as `a` is of `a/b` (`Reconcile.KeysIdentifyExactlyWhen`; for two given
  services, `Reconcile.KeysEqualExactlyWhen`). Group names without slashes are
  always safe.

## Model

| member | source | states |
|---|---|---|
| `RoundRobin.FullCycle` | src/subscribe/balancer.rs:137-156 | from zero, as many picks as the total weight take every entry exactly its weight and bring all running weights back to zero |
| `RoundRobin.ExactWindow` | src/subscribe/balancer.rs:137-156 | any window of that many picks, starting anywhere, takes every entry exactly its weight |
| `RoundRobin.Periodic` | src/subscribe/balancer.rs:137-156 | the running weights repeat with the total weight as period |
| `RoundRobin.PicksPeriodic` | src/subscribe/balancer.rs:137-156 | so does the sequence of picks |
| `RoundRobin.CyclesEnd` | src/subscribe/balancer.rs:137-156 | every whole number of cycles ends at zero |
| `RoundRobin.RunningIsDrift` | src/subscribe/balancer.rs:137-156 | after n picks, k of them for entry i, its running weight is n·w − W·k |
| `RoundRobin.BoundedDrift` | src/subscribe/balancer.rs:137-156 | W·k < n·w + W: nobody gets a full pick ahead of its share |
| `RoundRobin.RunningFloor` | src/subscribe/balancer.rs:137-156 | a running weight never falls to −W |
| `RoundRobin.NobodyWaits` | src/subscribe/balancer.rs:137-156 | every entry is picked within any window of W picks |
| `Ejection.BackoffAsPromised` | src/subscribe/balancer.rs:195-199 | the ejection lengths are 10, 20, 40, 80, 120, 120, … seconds |
| `Ejection.History` | src/subscribe/balancer.rs:173-201 | for any non-decreasing failure times, the ejections have those lengths, never overlap, and use up three counted failures each |
| `Ejection.EjectsExactlyWhen` | src/subscribe/balancer.rs:183-201 | a failure ejects exactly when it lies outside all earlier ejections and is the third such failure since the last one |
| `Ejection.EjectedIsInside` | src/subscribe/balancer.rs:75-79 | the stored state says "ejected" exactly inside a reported window |
| `Ejection.NeverExtended` | src/subscribe/balancer.rs:186-189 | a failure during an ejection changes nothing |
| `Balancing.FailOpen` | src/subscribe/balancer.rs:204-212 | keeps exactly the elements that satisfy the test, or all if none does; empty only for empty |
| `Balancing.EligibleExactlyWhen` | src/subscribe/balancer.rs:111-135 | a candidate is eligible iff untried, with fewer counted slots than its limit if it has one, undrained unless all such are drained, and not ejected unless all that remain are |
| `Balancing.PickExactlyWhen` | src/subscribe/balancer.rs:108-161 | a pick refuses with AllTried iff all are tried, with AtCapacity iff some are untried and each of those has a limit its count has reached; otherwise it takes an eligible one; a refusal changes nothing |
| `Balancing.FullExactlyWhen` | src/subscribe/balancer.rs:118-128 | the same refusal counted in slots that are really held |
| `Balancing.Balancer.constructor` | src/subscribe/balancer.rs:96-99 | a new balancer knows nothing and holds no slot |
| `Balancing.Balancer.TakeTurn` | src/subscribe/balancer.rs:137-156 | the loop leaves the running weights of one turn and returns the first entry with the highest one |
| `Balancing.Balancer.PickBackend` | src/subscribe/balancer.rs:108-161 | the whole new state is that of the pick; it is refused for capacity iff the slots really held have reached the limit of every untried candidate, and there is one; otherwise exactly one slot is added, on an untried candidate, never beyond its limit |
| `Balancing.Balancer.Reserve` | src/subscribe/balancer.rs:156-160 | counts and hands out exactly one slot more on the node |
| `Balancing.Balancer.Release` | src/subscribe/balancer.rs:55-65 | dropping a held slot lowers its count by exactly one, so the saturating decrement never saturates |
| `Balancing.Balancer.DropCount` | src/subscribe/balancer.rs:57-63 | the decrement removes entries that reach zero |
| `Balancing.Balancer.RetainNodes` | src/subscribe/balancer.rs:166-170 | forgets weights and outliers of nodes that left, and no slot |
| `Balancing.Balancer.RecordSuccess` | src/subscribe/balancer.rs:173-178 | a success resets a known node's outlier state |
| `Balancing.Balancer.RecordFailure` | src/subscribe/balancer.rs:183-201 | the new outlier state and the reported ejection are those of one failure |
| `BalancerRuns.SlotsConserved` | src/subscribe/balancer.rs:55-65 | in every run each count equals the slots held, and a drop always finds a positive count |
| `BalancerRuns.HardCap` | src/subscribe/balancer.rs:118-128 | while a node's limit does not change, the slots held on it never pass it |
| `BalancerRuns.RefusedExactlyWhenFull` | src/subscribe/balancer.rs:118-128 | in every run a pick is refused for capacity iff each untried candidate, and there is one, has a limit that the slots held on it have reached |
| `BalancerRuns.DepartedStartsOver` | src/subscribe/balancer.rs:163-170 | a node that leaves loses its running weight, so one that returns starts from 0; the others and all slots stay |
| `BalancerRuns.WeightsSumToZero` | src/subscribe/balancer.rs:137-156 | over arbitrary candidates, tried sets and ejections the running weights sum to zero as long as none is forgotten |
| `BalancerRuns.TurnIsSpin` | src/subscribe/balancer.rs:145-156 | one turn on the map of running weights is one step of the reference round-robin |
| `BalancerRuns.SteadyRun` | src/subscribe/balancer.rs:137-156 | while the eligible list stays the same, the balancer follows the reference pick by pick, whatever happens in between |
| `BalancerRuns.ExactShare` | src/subscribe/balancer.rs:137-156 | … so any W consecutive picks take each node exactly its weight |
| `BalancerRuns.CyclesReturnToZero` | src/subscribe/balancer.rs:137-156 | … every whole cycle returns the running weights to zero |
| `BalancerRuns.DriftOfRun` | src/subscribe/balancer.rs:137-156 | … and the running weight is the unserved share, bounded as in the reference |
| `BalancerRuns.OutlierFollowsFailures` | src/subscribe/balancer.rs:173-201 | in any run, a node's outlier state is that of its failures since its last success or departure; nothing else restarts the backoff |
| `BalancerRuns.EjectedExactlyWhile` | src/subscribe/balancer.rs:130-135 | a pick sees a node as ejected exactly inside one of the promised windows |
| `FairShares.EligibleIsProper` | src/subscribe/proxy.rs:206-226 | distinct candidates give distinct shares through every filter |
| `FairShares.FairShare` | src/subscribe/balancer.rs:108-161 | from a fresh balancer and one list of distinct unlimited candidates, every full cycle takes each candidate exactly its weight; drained ones never, unless all are |
| `Replication.MergeAllIsNewest` | src/gossip/mod.rs:598-611 | merging any messages leaves the newest of them |
| `Replication.MergeOrderIrrelevant` | src/gossip/mod.rs:598-611 | among agreeing configurations, order and repetition of merges do not matter |
| `Replication.ExchangeMeets` | src/gossip/mod.rs:460-478 | an exchange leaves both ends equal iff equal versions meant equal contents, and then with the newer configuration |
| `Replication.ExchangesSpread` | src/gossip/mod.rs:429-457 | exchanges that chain outward from a holder of the newest configuration bring every node they reach to it |
| `Replication.ChangesExactlyWhen` | src/gossip/mod.rs:631-658 | the change flag is raised iff the merge alters the membership, an address or a relay |
| `Replication.RepeatedSyncIsIdle` | src/gossip/mod.rs:592-674 | receiving the same Sync again changes nothing, in memory or on disk |
| `Replication.SyncSaves` | src/gossip/mod.rs:598-611 | after a Sync the file holds what is running iff a persist that was due succeeded, and is untouched otherwise |
| `Replication.ListedAreTakenOver` | src/gossip/mod.rs:619-658 | after a Sync each listed node with a proper id has the listed address, the listed relay unless the list has neither, and the newer health |
| `Replication.UnlistedStay` | src/gossip/mod.rs:619-658 | nodes that are not listed stay as they were |
| `Replication.JoinSets` | src/gossip/mod.rs:714-742 | a node that joined has the new address; ids that are empty or look like addresses are ignored |
| `Replication.LeaveForgets` | src/gossip/mod.rs:747-753 | a node that left is unknown, and nothing else changes |
| `Replication.RegisterSets` | src/node/relay.rs:50-75 | a registered node is reached through this relay and otherwise as before |
| `Daemons.Daemon.constructor` | src/state.rs:188-217 | a daemon starts with its file's configuration and the indexes built from it |
| `Daemons.Daemon.Rebuild` | src/state.rs:235-240 | both indexes are those of the running configuration |
| `Daemons.Daemon.Merge` | src/gossip/mod.rs:598-616 | a strictly newer configuration is adopted, indexed and, if the persist succeeds, in the file; any other changes nothing |
| `Daemons.Daemon.MergeNodeList` | src/gossip/mod.rs:618-669 | the node list is merged entry by entry, and the flag says exactly whether an address, a relay or the membership changed |
| `Daemons.Daemon.MergeSyncMessage` | src/gossip/mod.rs:592-674 | a Sync merges the configuration and the nodes and persists again if nodes changed |
| `Daemons.Daemon.Apply` | src/gossip/mod.rs:692-759 | every gossip message has exactly the effect of its value-level step and leaves the indexes current |
| `Daemons.Daemon.HandleAdmin` | src/gossip/mod.rs:233-295 | each operation has exactly its effect on the map of services and the route index or is refused for exactly its reasons; a success is persisted, indexed and announced |
| `AdminEffects.MutateDoes` | src/gossip/mod.rs:236-287 | add puts the service under its key, rename moves one key, remove deletes one, routes replace one entry of the route index; each with its exact refusal |
| `AdminEffects.RoutesAcceptedExactlyWhen` | src/config.rs:163-192 | routes are accepted iff the service has an instance and all its instances are HTTP, or the list is empty, and each route is well formed |
| `AdminEffects.SendableExactlyWhen` | src/config.rs:195-204 | a health path is accepted iff it starts with a slash and has no white space, control or non-ASCII character |
| `Daemons.Daemon.PollOnce` | src/gossip/mod.rs:355-411 | a poll adopts, bumps, indexes and announces exactly as its value-level step says, and saves what it adopted if the persist succeeds |
| `Daemons.Daemon.SnapshotNodes` | src/gossip/mod.rs:790-816 | the list sent holds every known node once, and the node itself with its current address and health |
| `FilePoll.VersionOnlyRises` | src/gossip/mod.rs:355-404 | with any outside edits, no step lowers the version, and every change of content raises it |
| `FilePoll.OneContentPerVersion` | src/gossip/mod.rs:355-404 | over any run, one version is one content |
| `FilePoll.FileIsAMemory` | src/gossip/mod.rs:552-577 | without outside edits the file is always a configuration that was running, however many persists fail |
| `FilePoll.PollIsIdle` | src/gossip/mod.rs:355-404 | … so a poll never changes or bumps anything |
| `FilePoll.StepSaves` | src/gossip/mod.rs:565-577 | a step that changes what is running saves it iff its persist succeeds; one that changes nothing leaves the file alone |
| `FilePoll.FileIsCurrent` | src/gossip/mod.rs:552-577 | while no persist fails and nobody edits the file, it always holds what is running |
| `FilePoll.EditTakenExactlyWhen` | src/gossip/mod.rs:370-402 | an edit is taken up iff it raises the version or changes services at the same version; the version it then gets, and what is in the file afterwards |
| `FilePoll.RouteEditIgnored` | src/gossip/mod.rs:376 | an edit of the routes alone at the running version is not taken up |
| `Clusters.ConfigStep` | src/gossip/mod.rs:168-190 | every step of a single-writer cluster, restarts with newer files included, keeps: everything in memory, on disk and in flight was written by the writer |
| `Clusters.Agreement` | src/gossip/mod.rs:598-611 | in every reachable state each configuration held or in flight is one the writer wrote, none is newer than the writer's, and equal versions mean equal contents |
| `Clusters.PollFindsNothing` | src/gossip/mod.rs:370-396 | a node that is not the writer never changes anything by polling its file |
| `Clusters.SavedInRuns` | src/gossip/mod.rs:552-577 | in any run, while a node's persists succeed and nobody edits its file, a restart brings back exactly what it ran |
| `Clusters.DeliveryAdopts` | src/gossip/mod.rs:694-708 | delivering a configuration adopts it iff newer |
| `Clusters.VersionsRise` | src/gossip/mod.rs:598-611 | over any run with any writers, a node that does not restart behind its file never lowers its version |
| `Clusters.HolderKeeps` | src/gossip/mod.rs:598-611 | a node that has what the writer runs later keeps it until then |
| `Clusters.DeliveryInforms` | src/gossip/mod.rs:694-708 | one delivery of what the writer still runs at the end is enough, whatever is interleaved |
| `Clusters.ExchangeByMessages` | src/gossip/mod.rs:460-478 | over the four events of a sync at any steps of a single-writer run, with anything interleaved: both ends finish at the newer of what they had or at something newer that reached them, and at equal versions they are equal |
| `Clusters.ReachableExchange` | src/gossip/mod.rs:168-190 | if either end started with what the writer runs when the sync is done, both ends run it then |
| `Clusters.ReachableSpread` | src/gossip/mod.rs:429-478 | along every chain of syncs in a run, with any other steps in between, each node reached runs what the writer runs, from its delivery on, unless it restarts behind its file |
| `Divergence.TwoWritersDiverge` | src/gossip/mod.rs:600 | from every initial cluster with two writers among its nodes, a run that ends with different contents at one version |
| `Divergence.AgreementExactlyWhen` | src/gossip/mod.rs:598-611 | all runs from an initial cluster, in which writers restart only with what they run or something newer in their file, agree iff at most one writer is among its nodes |
| `Divergence.EqualVersionsNeverMeet` | src/gossip/mod.rs:600 | an exchange at equal versions changes neither end |
| `Divergence.StuckForEver` | src/gossip/mod.rs:600 | no exchanges move a node off the highest version around, whatever the other nodes hold |
| `Divergence.StuckInRuns` | src/gossip/mod.rs:598-611 | over any stretch of a run without writes, with any syncs, losses, repetitions, polls and restarts, a node at the highest version around keeps its configuration unless it restarts behind its file |
| `Divergence.NothingRepairs` | src/gossip/mod.rs:598-611 | two writers can part so that no continuation of the run without a further write ever agrees again |
| `Divergence.RestartRewrites` | src/state.rs:188-217 | for every daemon: after a restart a version that was running can come back with other contents iff the file is another configuration and not a newer one |
| `Divergence.ReissuesExactlyWhen` | src/gossip/mod.rs:565-577 | the next successful mutation after a restart issues a version at or below the one that was running iff the file was behind |
| `Divergence.LostPersistDiverges` | src/gossip/mod.rs:565-577 | in every initial cluster, a writer that restarts behind its failed persist and writes again contradicts its own update in flight |
| `Divergence.EditThenRestartDiverges` | src/main.rs:255-265 | in every initial cluster with a second node, a writer whose file is edited at the running version and that restarts before it polls disagrees with the others at that version |
| `HealthChecks.ReportIsExact` | src/health.rs:44-72 | after every round the published set is exactly the hosted services whose last two probes failed |
| `HealthChecks.PublishedExactlyWhen` | src/health.rs:107-135 | a report is published on the first round and on change, with the clock or the next number as version, whichever is higher; otherwise it stays |
| `HealthChecks.HealthTracker.Record` | src/health.rs:46-51 | counts consecutive failures and says exactly whether the service's health flipped |
| `HealthChecks.HealthTracker.Retain` | src/health.rs:55-59 | forgets what is not hosted and says exactly whether that changed the unhealthy set |
| `HealthChecks.HealthTracker.RunRound` | src/health.rs:98-139 | a round, with probes completing in any order, is the value-level round, and publishes exactly when it says so |
| `HealthChecks.FlipsMeanChange` | src/health.rs:107-128 | something flipped or was dropped iff the unhealthy set changed over the round |
| `HealthGossip.HealthStep` | src/gossip/mod.rs:618-658 | every cluster step keeps all held and sent reports genuine |
| `HealthGossip.ReportsAreGenuine` | src/gossip/mod.rs:626-633 | in every reachable state, with any number of writers, each report about a node is unset or one it published, reports of one version are the same, and nobody stores a report about itself |
| `HealthGossip.SnapshotGenuine` | src/gossip/mod.rs:790-813 | the list a node sends carries only genuine reports |
| `HealthGossip.RegisterGenuine` | src/node/relay.rs:50-75 | a reverse registration reports no health |
| `HealthGossip.HeldOnlyRises` | src/gossip/mod.rs:677-689 | a held report is only replaced by a newer one, and goes only when a NodeLeave removes the entry |
| `HealthGossip.HeldRisesOverRuns` | src/gossip/mod.rs:677-689 | … over any stretch of a run in which the holder does not restart |
| `HealthGossip.PublishRises` | src/health.rs:74-82 | a node's published versions strictly rise |
| `HealthGossip.FirstReportExactlyWhen` | src/health.rs:74-82 | the first report of a restarted node keeps all reports in order iff the clock has passed its last published version |
| `HealthGossip.FirstReportReplaces` | src/gossip/mod.rs:677-689 | a peer that holds an earlier report takes the first new one iff the clock has passed it |
| `HealthGossip.OldClockRepeats` | src/health.rs:74-82 | from every initial cluster, a node that publishes, restarts and publishes at the same clock time issues one version with two contents |
| `HealthReports.ReportsComeFromProbes` | src/health.rs:98-139 | end to end over checkers, gossip and restarts: every report held or in flight about a node is unset or names exactly the services whose last two probes had failed at some moment of that node's rounds |
| `HealthReports.ProbeStep` | src/health.rs:130-135 | a round that changes the report publishes exactly it, and any other publishes nothing |
| `RetryBudgets.Ledger` | src/subscribe/http.rs:540-575 | tokens plus five times the retries never exceed the start plus the requests; at most 100 are banked |
| `RetryBudgets.WindowBound` | src/subscribe/http.rs:540-575 | in any contiguous stretch with N requests and R retries, 5·R ≤ 100 + N |
| `RetryBudgets.RequestsEarnRetries` | src/subscribe/http.rs:540-575 | n requests from t fifths bank min(t + n, 100), and a retry is then granted iff t + n is at least 5 |
| `RetryBudgets.RetryBudget.constructor` | src/subscribe/http.rs:555-557 | the budget starts full |
| `RetryBudgets.RetryBudget.Credit` | src/subscribe/http.rs:560-563 | a request earns a fifth of a retry, up to the cap |
| `RetryBudgets.RetryBudget.TryWithdraw` | src/subscribe/http.rs:566-574 | a retry is granted exactly when a whole one is banked, and then spent |
| `Attempts.Prefer` | src/subscribe/proxy.rs:245-251 | keeps the preferred backends, or all if there is none |
| `Attempts.PreferHealthy` | src/subscribe/proxy.rs:234-242 | kept are exactly the items that are seen, unless none is, and among those the healthy ones, unless none is |
| `Attempts.PreferHealthyInOrder` | src/subscribe/proxy.rs:245-251 | what is kept stays in order |
| `Attempts.SubsetExactlyWhen` | src/config.rs:68-71 | in a label subset are exactly the backends that carry every one of its label pairs |
| `Attempts.HttpProxy.Handle` | src/subscribe/http.rs:166-179 | one request: one deposit, at most two retries charged, at most 1 + tokens spent sends that may have reached a backend; POST, PATCH, CONNECT and extension methods, and bodies above 64 KiB or of unknown length, reach at most one; 400 exactly when a body of at most 64 KiB cannot be read |
| `Attempts.HttpProxy.Attempt` | src/subscribe/http.rs:300-422 | for all upstream results and with other workers acting between any two lock sections: exactly the answering node's slot is kept; tried nodes are distinct, at most three, inside the label subset, and stale or unhealthy only if all there were; the newest backend answer wins over any error; every error is the one its last try explains; the balancer sees exactly one pick per try over the preferred backends, at its time, and is told of all hosting nodes first and of the answers and failed connects in order; and it gives up only when a retry would be unsafe, tries ran out, the budget denied it, or its last pick met every node tried or full |
| `Attempts.HttpProxy.TryBackends` | src/subscribe/http.rs:320-421 | the loop, with the same promises over the preferred backends |
| `Attempts.HttpProxy.TryOne` | src/subscribe/http.rs:325-340 | one round either ends the loop with an explained outcome, recording the counts a refused pick met, or logs one more safe try |
| `Attempts.HttpProxy.TryNode` | src/subscribe/http.rs:336-365 | a picked node is logged once, and a node without a URI ends the loop without a slot |
| `Attempts.HttpProxy.SendTo` | src/subscribe/http.rs:351-414 | moving on means it was safe; stopping after a safe try means it was the last one or the budget denied it; the balancer is told of the result |
| `Attempts.HttpProxy.OnAnswer` | src/subscribe/http.rs:364-388 | an answer is recorded as a success; it is retried iff 502, 503 or 504, idempotent, replayable, not last and not denied by the budget; the older answer's slot is dropped |
| `Attempts.HttpProxy.OnFailure` | src/subscribe/http.rs:390-414 | only a failed connect is recorded against the node and, with a replayable body, moves on; the slot is dropped in every case |
| `Attempts.HttpProxy.Settle` | src/subscribe/http.rs:416-421 | a backend answer beats a proxy error, and an unused answer's slot is dropped |
| `Attempts.CloseBooks` | src/subscribe/http.rs:364-388 | tries that may have reached a backend number at most one plus those that were paid for |
| `Attempts.AnyAnswerIsKept` | src/subscribe/http.rs:416-421 | if any try was answered there is an answer to return |
| `Attempts.LastAnswerIsNewest` | src/subscribe/http.rs:416-421 | the answer kept is that of the last answered try |
| `Attempts.ReachedIsCount` | src/subscribe/http.rs:351-414 | counted as possibly delivered are exactly the answers, other errors and timeouts |
| `Attempts.NotesExactlyWhen` | src/subscribe/http.rs:364-414 | a node is reported working iff it answered a try, and broken at a time iff a try failed to connect to it then |
| `Attempts.PickRefuses` | src/subscribe/http.rs:325-333 | a refused pick means every backend was tried or is full |
| `IndexCoherence.IndexesAreBuilds` | src/state.rs:235-240 | in every interleaving, cancelled tasks included, each published index is the build of a configuration that was current |
| `IndexCoherence.IndexesNeverGoBack` | src/state.rs:235-240 | and never moves to an older version |
| `IndexCoherence.BuiltFromCurrentExactlyWhen` | src/gossip/mod.rs:441 | with nothing pending, both indexes are built from the current configuration iff nothing was written yet or some task took up its rebuild after the last write; otherwise both are behind |
| `IndexCoherence.CurrentWhenQuiet` | src/gossip/mod.rs:281-292 | if no task is cancelled before its rebuild, both indexes are current whenever nothing is pending |
| `IndexCoherence.CancelledRebuildGoesStale` | src/gossip/mod.rs:441 | a run in which a cancelled sync leaves the indexes stale |
| `Drain.NoLostWakeup` | src/state.rs:130-156 | in every interleaving the counter is the number of live guards, and a waiter blocked without a notification means the count is positive or a notification is due |
| `Drain.TrueMeansZero` | src/state.rs:139-156 | returning true implies a check that saw zero, with no guard alive |
| `Drain.DrainIsNoticed` | src/state.rs:139-156 | once drained and undisturbed, every own step of a waiter brings it one closer to true, and at most three are needed |
| `Drain.NobodyStuck` | src/state.rs:139-156 | in a drained state every waiter has such a step |
| `Drain.CheckFirstLosesWakeup` | src/state.rs:143-148 | checking before registering admits a run that sleeps until the timeout |
| `Configs.AsMapIsComplete` | src/config.rs:268-275 | with unique keys every listed service is found under its key |
| `Configs.UpsertRefines` | src/config.rs:322-341 | upsert is a map update; uniqueness is kept and the version rises by one |
| `Configs.UpsertInPlace` | src/config.rs:322-341 | upsert replaces a service in its place or adds it at the end; everything else stays where it was |
| `Configs.RemoveRefines` | src/config.rs:398-423 | remove is a map removal; it fails iff the key is absent |
| `Configs.RenameRefines` | src/config.rs:427-464 | rename moves one entry to its new key; it fails iff the old key is absent or the new one taken |
| `Configs.LiveConfig.constructor` | src/config.rs:268-275 | holds the given configuration |
| `Configs.LiveConfig.UpsertService` | src/config.rs:322-341 | the in-place edit is the value-level upsert |
| `Configs.LiveConfig.RemoveService` | src/config.rs:398-423 | the in-place edit is the value-level removal; an error changes nothing |
| `Configs.LiveConfig.RenameService` | src/config.rs:427-464 | the in-place edit is the value-level rename; an error changes nothing |
| `Configs.LiveConfig.ReplaceRoutes` | src/config.rs:382-394 | the in-place edit is the value-level replacement; an error changes nothing |
| `Configs.SeparateRoutes` | src/config.rs:388-389 | the routes of other services in order, and where the service's first route was |
| `Indexes.BuildServiceIndex` | src/state.rs:268-276 | the nested loops fill the index of all services in order |
| `Indexes.ServiceIndexHoldsLast` | src/state.rs:268-276 | the index finds the last service listed under (node, name) |
| `Indexes.ServiceIndexHoldsOnly` | src/state.rs:268-276 | and holds nothing that is not listed |
| `Indexes.BuildRouteIndex` | src/state.rs:278-284 | the loop fills the route index |
| `Indexes.RouteIndexAt` | src/state.rs:278-284 | a service's entry is its routes in configured order, and exists iff it has any |
| `Indexes.ClampNeverNeeded` | src/config.rs:388-391 | the insertion point never exceeds the kept routes, and what is before it stays |
| `Indexes.SetRoutesAt` | src/config.rs:382-394 | the service gets exactly the new routes; the other routes keep their order |
| `Indexes.SetRoutesInPlace` | src/config.rs:387-391 | the new routes stand where the first old one stood, or at the end |
| `Indexes.SetRoutesChangesOneEntry` | src/config.rs:382-394 | only the service's entry of the route index changes, and nothing of the service index |
| `Routing.PrefixIsSegments` | src/config.rs:142-147 | a prefix without a final slash matches exactly the paths that begin with its segments |
| `Routing.SlashPrefixIsDeeper` | src/config.rs:142-147 | a prefix with a final slash matches exactly the paths that go deeper than its stem |
| `Routing.FirstMatch` | src/subscribe/http.rs:462-465 | the first route whose conditions hold, or none iff none do; see MatchesExactlyWhen for the conditions |
| `Routing.MatchesExactlyWhen` | src/config.rs:116-147 | a request matches iff its path lies under the prefix by whole segments, its method is the one asked for, and each listed header is there with exactly its value, whatever the case of the listed name |
| `Routing.SelectedExactlyWhen` | src/subscribe/http.rs:461-483 | the selected route fits the request and no earlier one does; none is selected iff none fits |
| `Routing.SubsetInterval` | src/subscribe/http.rs:469-481 | a subset is chosen by exactly the tickets of its own interval |
| `Routing.SubsetShare` | src/subscribe/http.rs:466-481 | each subset is chosen by exactly its weight in tickets |
| `Routing.SubsetMissing` | src/subscribe/http.rs:466-481 | the scan finds no subset iff the ticket is not below the total |
| `Routing.ValidatedTotal` | src/config.rs:172-174 | a validated route has a positive total weight |
| `Routing.ValidatedChoice` | src/subscribe/http.rs:461-483 | for validated routes the first match decides, the chosen subset has a weight, and the fallback to the first subset is never used |
| `Codecs.HexRoundTrip` | src/subscribe/http.rs:759-783 | bytes survive hex encoding and decoding |
| `Codecs.NodeHostRoundTrip` | src/subscribe/http.rs:759-783 | every node id of any length survives hex, 62-character labels, suffix and decoding |
| `Codecs.NodeHostLabels` | src/subscribe/http.rs:756-768 | the labels of a host are the chunks and the suffix, each within the 63 octets of a name label (section 2.3.4 of RFC 1035) |
| `Codecs.NodeHostsDistinct` | src/subscribe/http.rs:756-768 | distinct ids never share a pool key |
| `Codecs.ContextRoundTrip` | src/subscribe/http.rs:689-736 | every valid trace context parses back from its printed form |
| `Codecs.HeaderRoundTrip` | src/subscribe/http.rs:689-736 | printing a parsed version-00 header gives the trimmed header (section 3.2 of W3C Trace Context) |
| `Codecs.AcceptedExactlyWhen` | src/subscribe/http.rs:689-713 | a version-00 header is accepted iff it is, up to surrounding space, the printed form of a valid context |
| `Codecs.AcceptedIsWellFormed` | src/subscribe/http.rs:699-708 | accepted are only 32, 16 and 2 lower-case hexadecimal digits, the first two not all zero |
| `Codecs.LaterVersions` | src/subscribe/http.rs:693-701 | a later version is read as its first four fields; version ff never |
| `Codecs.TrimTakesSpace` | src/subscribe/http.rs:690 | exactly the white space at both ends is ignored |
| `Codecs.ChildStaysInTrace` | src/subscribe/http.rs:729-748 | the header sent upstream is valid, in the same trace, with the same flags and the fresh span id |
| `Reconcile.NamesMatchExactly` | src/subscribe/mod.rs:195-271 | the port table lists exactly the running proxies' names, and no two proxies share one |
| `Reconcile.ProxyManager.constructor` | src/subscribe/mod.rs:127-138 | nothing runs at first |
| `Reconcile.ProxyManager.Stop` | src/subscribe/mod.rs:206-212 | aborts one task and frees its name |
| `Reconcile.ProxyManager.Start` | src/subscribe/mod.rs:241-269 | a started proxy is entered in both maps; a failed start leaves only its aborted task |
| `Reconcile.ProxyManager.Refresh` | src/subscribe/mod.rs:220-229 | a running proxy's domains and labels are updated, its port kept |
| `Reconcile.ProxyManager.Prune` | src/subscribe/mod.rs:195-212 | exactly the proxies not desired on their port any more are stopped |
| `Reconcile.ProxyManager.StartMissing` | src/subscribe/mod.rs:218-271 | in any order: running ones are kept and refreshed, missing ones started unless their name is taken or the start fails |
| `Reconcile.ProxyManager.Pass` | src/subscribe/mod.rs:195-271 | after a pass every running proxy is desired on its requested port; unchanged ones are the same task, not aborted, and all others were; a desired one without a proxy failed to start or lost its name to a running one; no task is orphaned |
| `Reconcile.ProxyManager.Run` | src/subscribe/mod.rs:140-272 | over any number of passes the maps stay in step, and a proxy every pass wants unchanged is never restarted |
| `Reconcile.KeysEqualExactlyWhen` | src/subscribe/mod.rs:167 | two services share a key iff they are the same, or one group is the other up to a slash and the names make up the difference |
| `Reconcile.KeysDistinct` | src/subscribe/mod.rs:167 | without slashes in the groups, services share a key iff they are the same |
| `Reconcile.GroupsCollideExactlyWhen` | src/subscribe/mod.rs:167 | two groups can have services with one key iff one is the other up to a slash |
| `Reconcile.KeysIdentifyExactlyWhen` | src/subscribe/mod.rs:167 | keys identify every service of a set of groups iff no two of them are so related; groups without slashes never are |

## Left out

- TLS, certificates and admin authorisation (src/tls.rs, src/pki.rs): wrappers over libraries.
- yamux sessions, tunnels, relays and reverse workers (src/mux.rs, src/node/): network plumbing; of the relay only its update of the known nodes is modelled.
- hyper's client and server, pooling, upgrades, hop-by-hop headers and body streaming: each upstream call is an arbitrary result.
- The TCP retry loop `serve_client` (src/subscribe/proxy.rs:97-170): a simpler form of the HTTP loop, with the same picks and no retry after data was sent.
- Building the candidate list (`service_backends`): theorems take any list; only distinctness of node ids is used, and only where stated.
- Building the desired set and `local_port_for`: a reconcile pass takes any desired map.
- Length-prefixed framing, MessagePack and JSON: the identity on the modelled data.
- `write_atomic`, file permissions and static configuration fields: a persist succeeds whole or fails.
- `Config::validate` beyond the checks that mutations make.
- `StreamPool`, idle timers, byte copying, `fix_unroutable_addrs`, `local_target`: input and output, or rests on library semantics.
- The broadcast a local command-line write makes itself: a cluster whose command line and daemon both write has two writers.
- Metrics, access logs, spans, REST API, status printing and the command line.
- A probe task that panics, which ends a health round early (src/health.rs:116).
- Liveness marking by `last_seen` and its expiry: a parameter of each request.
- The length limit of the URI parser: a node id whose URI does not parse is the `uriOk` parameter.
- Mutex poisoning and allocation failure.
