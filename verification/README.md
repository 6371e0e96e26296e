# A verified model of go-service-link

go-service-link gives a Go process service discovery (etcd, ZooKeeper, Nacos, Consul), load
balancing, and configuration that is synchronised with a configuration centre. This project
models the parts whose behaviour is spread over several functions, goroutines or processes, and
proves what they keep. `dafny verify dfyconfig.toml` checks it with Dafny 4.11.

Where the Go code updates an object in place, the model is a class with the same fields and a
method for each operation, proved against a function on values; where goroutines interleave, the
model is a step system over those values, and the theorems speak about all its runs. Vendor
servers appear as abstract stores: a map of configurations, a tree of nodes, a map of keys with
leases. What a request answers, what a probe finds and what the clock says are parameters or
nondeterministic choices.

## Components

| files | what they model |
|---|---|
| `Common.dfy` | results, options, service instances |
| `ConsistentHash.dfy`, `RingProperties.dfy` | the cached ring, the stateless ring it should agree with, minimal disruption, staleness |
| `RoundRobin.dfy` | the wrapping 64-bit counter, its fairness, and that of services that share it |
| `ConfigModel.dfy`, `ConfigManager.dfy`, `ConfigOutcomes.dfy`, `ConfigSyncProperties.dfy` | what JSON keeps of a configuration, and version reconciliation of configurations, with each sync of a key in one piece: its outcome in versions, contents and notifications, and what runs of such syncs keep |
| `ConfigInterleaving.dfy`, `ConfigConvergence.dfy`, `ConfigPasses.dfy`, `ConfigFaults.dfy`, `ConfigRegress.dfy`, `ConfigAbsent.dfy` | the same with get, local read, compare, replace, marshal and put as separate steps of any number of threads: that one thread by itself does what the sync in one piece does, whatever fails, what holds in every run, how managers converge, also by whole syncs of several keys, and exactly when versions can go down |
| `NacosKeys.dfy` | which configuration keys share a Nacos data ID |
| `StopChannels.dfy` | the map of stop channels of the health checkers |
| `HealthCache.dfy`, `CacheHistory.dfy` | the health data of cached instances, read off the history of deliveries and probes |
| `Discovery.dfy`, `LiveCheckers.dfy`, `LostCheckers.dfy`, `Selection.dfy` | the discovery object, which cached instances are being checked at the address they have, how checkers are lost, selection through the shared balancer |
| `Timing.dfy` | the same with time: tickers with room for one tick, probes that last up to the timeout |
| `ClientPool.dfy`, `PoolDeadlock.dfy`, `NestedCalls.dfy` | the bounded pools of clients, the exact size that excludes deadlock, and the nesting of the code's own calls |
| `ZkPaths.dfy`, `NodeTree.dfy` | path texts, and the creation of nodes and their parents in a tree others also add to |
| `EtcdRegistry.dfy` | registration, deregistration and re-registration over keys with leases |

## What comes out

* Under every interleaving the manager that holds the greatest version of a configuration keeps
  it, and two later passes of syncs bring everyone to that version
  (`ConfigConvergence.AnyRunThenTwoPasses`); if the syncs that were under way have ended by then,
  everyone stays there until somebody refreshes the key. A `SyncConfig` of several keys that runs by
  itself is such a pass, up to the first key that fails, so two rounds of whole syncs converge as
  well (`ConfigPasses.TwoRoundsConverge`). On the way stored and local versions can go down, because
  nothing re-checks a version before it is put or replaced; `ConfigRegress.StoredNeverFallsIff` and
  `ConfigAbsent.HeldVersionNeverFallsIff` say exactly from which states they cannot. Versions converge, documents need not: `TwoPassesAgreeIff` says when they do. The
  repository's README says that a version that is not newer is synced to the configuration centre;
  for equal versions the code writes nothing, and the model follows the code.
* The validation callback of a configuration is not stored. A configuration that its own callback
  accepts and whose content reads back empty is uploaded once and then rejected by every later
  sync (`ConfigSyncProperties.ResyncWritesNothing`). The integer 0 reads back as a float, which is
  never empty; a map with keys of any type cannot be written at all.
* Adding an instance to a freshly built ring moves keys only to that instance. The ring is cached
  by list length alone: with the hash in use, the cached ring still leads to the same endpoints (ID,
  host and ports) as a fresh one exactly when the two agree on the virtual-node labels of both lists
  (`RingProperties.StaleRingIsFreshIff`). One balancer serves all services, so a service can be
  answered with an instance of another one; the possible answers are exactly the instances in the
  node table, with the health data they had when the ring was built.
* Round robin starts at index 1 because the counter is advanced before it is used (the balancer
  test of the repository expects 0). The counts of two instances stay within one of each other
  without a wraparound of the counter; across it they do exactly when the number of instances
  divides 2^64. That counts all calls, and the counter is shared: a service that gets every k-th
  call is served fairly exactly when k and the number of its instances have no common divisor
  (`RoundRobin.FairIffCoprime`). Two services of two instances, called in turn, each get the same
  instance every time.
* No stop channel is ever closed twice and a key never has two open checkers. `Close` passes
  whole checker keys where a service name is expected, so a map that is not empty never becomes
  empty (`StopChannels.SomeKeySurvives`). A checker dials the address it was started with. With
  ticks in one piece, all cached instances are checked at the addresses they have in every run
  exactly when each address has a port and no two share a checker key: an instance that restarts
  elsewhere under its ID, or was registered with another port than it is listed with, is probed at
  the first address alone (`LiveCheckers.CheckedIffUnambiguous`, `MovedInstanceIsUnchecked`). The
  second critical section of a tick closes whatever the map holds by then, and a checker whose
  context is done leaves its entry behind: `LiveCheckers.AlwaysCheckedIff` says exactly which runs
  keep every cached instance checked.
* Probes of a cached instance, and the first one after it was admitted, are at most an interval
  and a timeout apart. No healthy entry is ever withheld as stale exactly when the two together stay
  below the minimum healthy time and no list names an ID twice, and `GetInstances` shows failures in
  time under the same condition (`Timing.NeverStaleIff`, `FailuresShowIff`). Of two entries with one
  ID only the first is probed.
* A set of tasks sharing a pool is free of deadlock exactly when the pool has more clients than
  the sum of their peaks, each less one. A ZooKeeper keep-alive that re-registers
  `/services/<name>/<id>` from nothing needs 6 clients; the default is 5.
* The etcd client remembers one lease. Deregistering an instance removes, besides its own key,
  the key of the latest registration. Registrations at once keep their leases apart exactly when
  the field is assigned between any two puts of different keys, repeated puts included.
  `GetInstances` also returns the instances of services whose
  names begin with the one asked for.

## Model

| member | source | states |
|---|---|---|
| ConsistentHash.ConsistentHashBalancer.Select | servicediscovery/balancer/consistent_hash.go:32-66 | fails only on an empty list; otherwise answers with the stateless owner of the key under the list that last forced a rebuild, and keeps the ring a sorted permutation of all the points of that list |
| ConsistentHash.ConsistentHashBalancer.Rebuild | servicediscovery/balancer/consistent_hash.go:40-57 | the new ring is a sorted permutation of the ten points of every instance, and the node table holds the last writer of each point |
| ConsistentHash.ConsistentHashBalancer.AppendInstance | servicediscovery/balancer/consistent_hash.go:43-49 | the ten writes of one instance extend ring and table by exactly its points |
| ConsistentHash.ExchangeSort | servicediscovery/balancer/consistent_hash.go:50-56 | sorts in place, keeping every point as often as it was there |
| ConsistentHash.Winner | servicediscovery/balancer/consistent_hash.go:59-65 | some write has the least clockwise distance from the key's hash, and among those as near it is the last |
| ConsistentHash.OwnerIsUnique | servicediscovery/balancer/consistent_hash.go:43-65 | any write at the least clockwise distance that no later write equals decides the owner: the stateless answer is well defined |
| ConsistentHash.SuccessorIsNearest | servicediscovery/balancer/consistent_hash.go:59-65 | on a sorted ring, the first point at or after the hash, or the first of all, is at the least clockwise distance |
| ConsistentHash.LastWriterOwnsTheSlot | servicediscovery/balancer/consistent_hash.go:45-47 | where hashes collide, the table holds the instance that wrote last |
| ConsistentHash.ScanFindsOwner | servicediscovery/balancer/consistent_hash.go:43-65 | scanning any sorted permutation of the points and looking up the table gives the stateless owner |
| ConsistentHash.LabelsDiffer | servicediscovery/balancer/consistent_hash.go:45 | the ten labels of a host are ten different texts: the host, a colon and a decimal digit |
| RingProperties.OnlyTheNewInstanceTakesKeys | servicediscovery/balancer/consistent_hash.go:40-65 | for any hash, inserting an instance anywhere in the list sends a key to that instance or leaves it where it was |
| RingProperties.HiddenInstancesDoNotMatter | servicediscovery/balancer/consistent_hash.go:43-48 | an instance whose host comes again later never owns a key, so dropping all such instances changes no answer |
| RingProperties.StaleRingIsFreshIff | servicediscovery/balancer/consistent_hash.go:40-65 | with the hash in use, a ring built from one list answers every key with the same endpoint as a ring built from another exactly when the two do so for the virtual-node labels of both lists |
| RingProperties.AlikeUnderEveryHashIff | servicediscovery/balancer/consistent_hash.go:43-48 | what can be told without the hash: two lists give the same endpoints under every hash exactly when they have the same endpoints, in order, once hidden instances are dropped |
| RingProperties.RingComesFromTheStartOfTheStretch | servicediscovery/balancer/consistent_hash.go:40-57 | over any sequence of calls, the ring comes from the first list of the current stretch of equally long lists |
| RingProperties.SelectRun | servicediscovery/balancer/consistent_hash.go:32-66 | every answer of any sequence of calls with changing lists and keys is the stateless one on the list that last forced a rebuild |
| RingProperties.SecondServiceGetsTheFirstOnesInstance | servicediscovery/discovery.go:180-202 | with the one balancer, a one-instance service asked second is answered with the instance of the service asked first |
| RoundRobin.RoundRobinBalancer.Select | servicediscovery/balancer/round_robin.go:27-33 | fails without touching the counter on an empty list; otherwise advances the 64-bit counter with wraparound and answers with the instance at the new value modulo the length |
| RoundRobin.RoundRobinBalancer.SelectWindow | servicediscovery/balancer/round_robin.go:27-33 | a window of calls takes consecutive counter values |
| RoundRobin.FairWithoutWrap | servicediscovery/balancer/round_robin.go:31-32 | in any window without a wraparound, two instances are chosen equally often up to one |
| RoundRobin.FairAcrossWrap | servicediscovery/balancer/round_robin.go:31-32 | across one wraparound up to two, and up to one where the number of instances divides 2^64 |
| RoundRobin.WrapFavoursTheFirst | servicediscovery/balancer/round_robin.go:31-32 | where it does not divide 2^64, a concrete window chooses the first instance twice more than the last |
| RoundRobin.WithinOneIffDividesWrap | servicediscovery/balancer/round_robin.go:31-32 | the bound of one holds over all windows with at most one wraparound exactly when the number of instances divides 2^64 |
| RoundRobin.FairIffCoprime | servicediscovery/discovery.go:180-202 | a service that gets every k-th call of the shared counter is served fairly up to one, in every window without a wraparound, exactly when k and the number of its instances have no common divisor |
| RoundRobin.FairWhenCoprime | servicediscovery/balancer/round_robin.go:31-32 | one direction for one window, whatever the numbers |
| RoundRobin.InTurnEachSticksToOne | servicediscovery/discovery.go:330-339 | two services of two instances that are called in turn each get one index for ever |
| RoundRobin.FirstIndexIsOne | servicediscovery/balancer/round_robin.go:31 | a fresh balancer starts at index 1 |
| ConfigModel.OnlyEmptyIff | foundation/helper/helper.go:120-139 | nil, the empty string, the integer 0, false, the empty slice and the empty map of any keys are empty, and nothing else |
| ConfigModel.ReadBackIff | dynaconfig/provider/provider.go:30-34 | a value reads back as another exactly when the second has its shape, with integers as floats; maps of any keys and values without JSON read back as nothing |
| ConfigModel.Lifted | dynaconfig/config_manager.go:141-144 | a version below 1 becomes 1 on the first upload and nothing else changes |
| ConfigModel.ReadBackIsJson | dynaconfig/provider/provider.go:30-34 | what was read back from JSON is read back unchanged ever after |
| ConfigModel.Encode | dynaconfig/provider/etcd_provider.go:111-114 | storing a document keeps its version and gives a content that JSON holds; one read back before is stored unchanged |
| ConfigManager.ConfigProvider.PutConfig | dynaconfig/provider/etcd_provider.go:107-139 | fails without writing when the content cannot be marshalled; otherwise writes what reads back, perhaps even when it fails |
| ConfigManager.ConfigManager.SyncConfig | dynaconfig/config_manager.go:119-178 | local configurations, stored configurations, notifications and the error are those of syncing the keys one after the other up to the first that fails |
| ConfigManager.ConfigManager.SyncOne | dynaconfig/config_manager.go:121-174 | one key: reject, skip, adopt and notify, upload or keep, as validation and the two versions decide |
| ConfigManager.ConfigManager.OnChange | dynaconfig/config_manager.go:205-223 | a delivered configuration with content and a greater version replaces the entry, without a callback, and is notified once; any other changes nothing |
| ConfigManager.ConfigManager.RefreshConfig | dynaconfig/config_manager.go:181-191 | replaces a known entry unconditionally and starts a sync; an unknown key changes nothing |
| ConfigOutcomes.SyncReplacesIff | dynaconfig/config_manager.go:121-164 | the entry becomes the stored document, without a callback, exactly when that has content and a greater version; otherwise it changes at most its version, from below 1 to 1 where it is uploaded first |
| ConfigOutcomes.SyncNotifiesIff | dynaconfig/config_manager.go:164 | exactly these replacements are notified, once, with the key and the new version |
| ConfigOutcomes.SyncStoresIff | dynaconfig/config_manager.go:132-168 | the stored side changes exactly when an accepted configuration meets nothing or an older version, JSON can hold it, and the put takes effect |
| ConfigOutcomes.SyncFailsIff | dynaconfig/config_manager.go:121-170 | the four ways in which the sync of a key fails |
| ConfigOutcomes.SyncSkipsIff | dynaconfig/config_manager.go:132-136 | a key is skipped exactly when nothing is stored and its own callback refuses it and asks to skip |
| ConfigOutcomes.EventStoresIff | dynaconfig/config_manager.go:132-168 | in a run, an event touches its own manager alone, and stores exactly what its sync uploads |
| ConfigOutcomes.SyncAllNotifies | dynaconfig/config_manager.go:120-174 | a sync notifies the replacements among the keys up to the first that fails, in the order of the keys |
| ConfigOutcomes.SyncAllReplaces | dynaconfig/config_manager.go:120-174 | after a sync without error exactly the entries that were notified are replaced |
| ConfigOutcomes.WatchedReplacesIff | dynaconfig/config_manager.go:205-223 | the watch callback replaces and notifies exactly for content with a greater version |
| ConfigOutcomes.RunNotifies | dynaconfig/config_manager.go:119-223 | over any run of whole syncs and deliveries, a manager notifies exactly the replacements of its entries, in their order |
| ConfigSyncProperties.CompletedSyncSettles | dynaconfig/config_manager.go:119-178 | a sync without error leaves every key not skipped with both versions at the greater of the two, where a local version below 1 counts as 1 only if nothing was stored |
| ConfigSyncProperties.ResyncWritesNothing | dynaconfig/config_manager.go:119-178 | a second sync changes nothing on either side, and succeeds exactly when everything stored passes the default validation |
| ConfigSyncProperties.LeftAloneStaysSo | dynaconfig/config_manager.go:132-136 | a skipped key is skipped again |
| ConfigSyncProperties.AtomicRunsOnlyGrow | dynaconfig/config_manager.go:120-174 | with each sync of a key in one piece, over any run of syncs and deliveries by any managers with any faults, no stored or local version decreases and the notified versions of a key strictly increase |
| ConfigInterleaving.RunFollows | dynaconfig/config_manager.go:119-223 | over any interleaving of the separate steps, rules on what is held, stored, published, adopted and written that are consistent with each other hold in every state |
| ConfigInterleaving.DocumentsKeepTheirOrigin | dynaconfig/config_manager.go:119-223 | whatever holds of all documents known for a key and survives lifting and marshalling holds of every document stored, held, delivered or in flight later |
| ConfigConvergence.GreatestVersionIsNeverLost | dynaconfig/config_manager.go:119-178 | under every interleaving of threads, faults, retries, deliveries and refreshes elsewhere, a manager holding the greatest version keeps exactly that configuration, and no greater version appears |
| ConfigConvergence.SoloSettles | dynaconfig/config_manager.go:121-174 | a thread that runs without interruption does to its key what the decision table says and touches no other manager |
| ConfigConvergence.SettlingIsTheAtomicSync | dynaconfig/config_manager.go:121-174 | so the step system and the object agree on a sync in one piece |
| ConfigFaults.SoloIsTheAtomicSync | dynaconfig/config_manager.go:121-174 | and so they do whatever request fails: in the entry, the stored side and what is published |
| ConfigFaults.FailuresEndTheSync | dynaconfig/config_manager.go:122-148 | a failed get or put ends the whole sync, unless the put is tried again; a put that succeeds leads to the next key |
| ConfigFaults.DeliveryIsTheCallback | dynaconfig/config_manager.go:205-223 | a delivery in the step system does to the entry what the watch callback does, and nothing else |
| ConfigConvergence.SoloElsewhere | dynaconfig/config_manager.go:120-174 | a sync of another key leaves this key alone, but that an object they share may be lifted |
| ConfigConvergence.TwoPassesConverge | dynaconfig/config_manager.go:119-178 | two passes of syncs, of any managers and keys in any orders, bring every manager and the stored side to the greatest version of a key they reach |
| ConfigConvergence.AnyRunThenTwoPasses | dynaconfig/config_manager.go:119-223 | the same after any interleaved run; and if no sync of the key is under way after that run, everyone stays there in every later run without a refresh of the key |
| ConfigPasses.SyncAloneIsAPass | dynaconfig/config_manager.go:119-178 | a `SyncConfig` of any keys that runs by itself leaves stored, published and held configurations as the pass of the syncs of its keys up to the first that fails |
| ConfigPasses.OrderIsWholeUnlessOneFails | dynaconfig/config_manager.go:119-178 | that pass leaves keys out only behind one whose sync fails when its turn comes |
| ConfigPasses.RoundIsAPass | dynaconfig/config_manager.go:119-178 | whole syncs of any managers one after the other are one pass |
| ConfigPasses.TwoRoundsConverge | dynaconfig/config_manager.go:119-178 | two rounds of whole syncs bring everyone to the greatest version of a key that they get to |
| ConfigConvergence.EveryoneStays | dynaconfig/config_manager.go:119-223 | once everyone is at one version and no sync of the key is under way, no run without a refresh of the key leaves that state |
| ConfigConvergence.TwoPassesAgreeIff | dynaconfig/config_manager.go:132-173 | after the two passes everyone has the same document exactly when all documents of the greatest version were the same before, counting what the first pass uploads first where nothing is stored |
| ConfigRegress.StoredNeverFallsIff | dynaconfig/config_manager.go:121-174 | from a state of rest, over all runs with faults and retries, the stored version never goes down exactly when the newer versions that can be uploaded are all one, or what is stored fails validation; where nothing is stored, exactly when all valid configurations would be uploaded with one version and none is newer, unless what they upload fails validation |
| ConfigAbsent.HeldVersionNeverFallsIff | dynaconfig/config_manager.go:132-168 | from a state of rest, over all runs, the version a manager holds never goes down exactly when at most one version ahead of its own can reach it (or what is stored fails validation): the stored one and the greater ones that can be read back; where nothing is stored, those that other managers upload at once, lifted, and the greater ones that they upload over any first version that can be read back |
| ConfigRegress.RemoteVersionCanRegress | dynaconfig/config_manager.go:167-168 | the smallest example: with 1 stored and 2 and 3 held, some run lowers the stored version |
| ConfigRegress.LocalVersionCanRegress | dynaconfig/config_manager.go:159-162 | with 2 stored and 1 and 3 held, some run lowers the version the first manager holds |
| NacosKeys.DataIdText | dynaconfig/provider/nacos_provider.go:85-86 | the data ID is the key without a first slash, each other slash a dot |
| NacosKeys.KeysCollideIff | dynaconfig/provider/nacos_provider.go:85-86 | two keys get one data ID exactly when, a leading slash aside, they differ only in which separator stands where |
| NacosKeys.UsualKeysAreSeparate | dynaconfig/provider/nacos_provider.go:113-114 | keys that start with a slash and contain no dot have data IDs of their own |
| StopChannels.ChannelsStayConsistent | servicediscovery/discovery.go:352-445 | over every interleaving of starts, stops, stop-alls and reaping ticks nothing is closed twice, and a checker's channel is open exactly while it is the map entry of its key |
| StopChannels.StartOpensOne | servicediscovery/discovery.go:351-362 | a start gives its key an open checker, the one it had or a new one at the given address, and touches no other |
| StopChannels.StopClosesIt | servicediscovery/discovery.go:426-433 | a stop closes the open checker of its key and no other |
| StopChannels.StopAllStopsTheService | servicediscovery/discovery.go:436-445 | stopping a service closes all its checkers, and those of others whose keys begin with its name and a dash |
| StopChannels.OneOpenCheckerPerKey | servicediscovery/discovery.go:352-360 | a key never has two checkers with open channels |
| StopChannels.CloseOneMore | servicediscovery/discovery.go:438-443 | closing keys one by one comes to the same as closing them together |
| StopChannels.SomeKeySurvives | servicediscovery/discovery.go:342-345 | some key of a non-empty map is under no other key taken as a service name |
| HealthCache.Find | servicediscovery/discovery.go:448-459 | the first instance with the ID, if there is one |
| HealthCache.MergedIsVisibleIff | servicediscovery/discovery.go:266-277 | a delivered instance that was given up or never known is offered at once; a known healthy one exactly if it was before |
| HealthCache.MergingAgainChangesNothing | servicediscovery/discovery.go:266-287 | delivering the same list again renews nobody's time stamp and changes nothing |
| HealthCache.Probe | servicediscovery/discovery.go:378-394 | a probe changes the first instance with the ID and no other |
| HealthCache.FilterSelects | servicediscovery/discovery.go:462-470 | the answer has the healthy, fresh entries once each and in their order: they are at strictly increasing indices, which are all the indices of such entries |
| HealthCache.CacheListsTheLastDelivered | servicediscovery/discovery.go:263-322 | over every history, the cache lists ID, host, ports and metadata as the last delivered list does |
| HealthCache.FilterKeepsTheVisible | servicediscovery/discovery.go:462-470 | what passes the filter is exactly what is listed, healthy and fresh |
| HealthCache.HealthyIffBelowTheLimit | servicediscovery/discovery.go:380-388 | over every history with a limit of at least 1 and clean deliveries, each cached entry, duplicates included, is healthy exactly while its counter is below the limit |
| HealthCache.CacheFollowsHistory | servicediscovery/discovery.go:266-287 | counter, health and time stamp of a cached instance are the trailing failed probes since its last admission, whether they are fewer than the limit, and the time of the last probe or admission |
| CacheHistory.CacheIsItsHistory | servicediscovery/discovery.go:263-289 | in every reachable state of the step system, the cached list of a service is the one its own history gives |
| CacheHistory.ReachableCacheTellsItsHistory | servicediscovery/discovery.go:376-395 | so in every reachable state, torn ticks included, the two statements about counters hold |
| Discovery.DiscoveryWithLB.constructor | servicediscovery/discovery.go:213-231 | starts empty, with a limit of at least 1 and a minimum healthy time that is set |
| Discovery.DiscoveryWithLB.StartHealthCheck | servicediscovery/discovery.go:351-362 | makes a channel and enters it with its checker unless the key is there; keeps the channels consistent |
| Discovery.DiscoveryWithLB.StopHealthCheck | servicediscovery/discovery.go:426-433 | closes and removes the entry of the key, if any |
| Discovery.DiscoveryWithLB.StopAllHealthChecks | servicediscovery/discovery.go:436-445 | in whatever order the map is ranged over, closes and removes exactly the keys that start with the name and a dash |
| Discovery.DiscoveryWithLB.Close | servicediscovery/discovery.go:342-348 | whatever the orders, exactly the keys survive that have no other key followed by a dash as a prefix |
| Discovery.DiscoveryWithLB.FindInstance | servicediscovery/discovery.go:448-459 | the first cached instance with the ID |
| Discovery.DiscoveryWithLB.FilterHealthyInstances | servicediscovery/discovery.go:462-470 | exactly the healthy, fresh instances, once each, in their order |
| Discovery.DiscoveryWithLB.Register | servicediscovery/discovery.go:241-247 | starts a checker, whatever the port, exactly when the registry accepted the instance |
| Discovery.DiscoveryWithLB.Deregister | servicediscovery/discovery.go:250-253 | stops the checker whatever the registry answers |
| Discovery.DiscoveryWithLB.MergeAll | servicediscovery/discovery.go:266-286 | keeps length and order of the delivered list; healthy known instances keep their health data, all others are admitted as healthy now, and those not cached get a checker for each port |
| Discovery.DiscoveryWithLB.AdmitAll | servicediscovery/discovery.go:312-322 | keeps length and order of the loaded list, admits every instance as healthy now and starts its checkers |
| Discovery.DiscoveryWithLB.OnWatched | servicediscovery/discovery.go:263-289 | cache and channels after a delivery are those of the step: the list merged, checkers started for instances not cached before |
| Discovery.DiscoveryWithLB.GetInstances | servicediscovery/discovery.go:298-327 | a cached service is filtered and nothing changes; another is loaded, its checkers started, and filtered; a backend error changes nothing; the answer has exactly the healthy, fresh entries, once each, in their order |
| Discovery.DiscoveryWithLB.RecordProbe | servicediscovery/discovery.go:375-396 | the first critical section: records the probe on the instance or reports it gone |
| Discovery.DiscoveryWithLB.OnTick | servicediscovery/discovery.go:372-406 | a whole tick: records the probe, or closes the entry the map holds for the key |
| Discovery.TickStopsIff | servicediscovery/discovery.go:372-406 | a whole tick stops nobody while its instance is listed; where it is gone, it stops the open checker of its key and no other |
| Discovery.TornTickIsWhole | servicediscovery/discovery.go:372-406 | the two critical sections with nothing between them are a whole tick |
| Discovery.DiscoveryWithLB.OnContextDone | servicediscovery/discovery.go:364-366 | a checker whose context is done ends, and its entry stays |
| Discovery.WhatIsLeftSurvives | servicediscovery/discovery.go:343-345 | when every key left over was visited and every key removed was under a visited one, the survivors do not depend on the order |
| LiveCheckers.SameLengthIDsAreUnambiguousIff | servicediscovery/discovery.go:352 | with instance IDs of one length, no two addresses share a checker key exactly when every instance has a single one |
| LiveCheckers.CheckedIffUnambiguous | servicediscovery/discovery.go:278-285 | with whole ticks, and nothing ended or deregistered, all cached instances have in every run an open checker that dials the host and first port they have, exactly when every known address has a port and no two share a checker key |
| LiveCheckers.HarmlessIff | servicediscovery/discovery.go:398-405 | one action of a run leaves all cached instances checked at their addresses exactly when it closes no channel and ends no checker of one that is cached, and delivers none whose entry an ended checker has left behind |
| LiveCheckers.AlwaysCheckedIff | servicediscovery/discovery.go:241-285 | over any run of deliveries, loads, registrations, deregistrations, contexts that end, and ticks whole or torn, with ports and unambiguous keys, every cached instance is checked at its address in every state exactly when every action is harmless in that sense |
| LiveCheckers.AmbiguousKeysLeaveOneUnchecked | servicediscovery/discovery.go:352-357 | of two addresses with one key, the second is cached without a checker |
| LiveCheckers.MovedInstanceIsUnchecked | servicediscovery/discovery.go:278-285 | an instance that comes back on another host under its ID is not checked there |
| LiveCheckers.OtherwiseRegisteredIsUnchecked | servicediscovery/discovery.go:241-247 | nor is one that was registered with another port than it is listed with |
| LiveCheckers.TwiceListedIsUnchecked | servicediscovery/discovery.go:312-322 | nor the second of two entries with one ID and different hosts |
| LostCheckers.TornTickLosesTheChecker | servicediscovery/discovery.go:396-405 | the smallest example: an instance that comes back between the two critical sections of a tick ends up cached and unchecked |
| LostCheckers.EndedContextLosesTheChecker | servicediscovery/discovery.go:364-366 | so does an instance that is registered with a context that ends, and then loaded |
| LostCheckers.LostForGood | servicediscovery/discovery.go:268-284 | and both stay so for as long as the watch keeps listing the instance |
| Selection.Select | servicediscovery/discovery.go:330-339 | fails when the backend fails or nothing is visible; otherwise answers with the owner under the list that last forced a rebuild, of whichever service that was |
| Selection.AnswersAreTheTable | servicediscovery/balancer/consistent_hash.go:40-65 | with the hash in use, the instances a ring answers with are exactly those in the node table of the list it was built from |
| Selection.EveryAnswerIsVisibleIff | servicediscovery/discovery.go:330-339 | whatever the key, `GetInstances` would return an instance with the ID, host and ports of the answer, exactly when for every instance in the node table a healthy, fresh one with its ID, host and ports is cached |
| Timing.EventKeepsPunctual | servicediscovery/discovery.go:362-407 | every event keeps each running checker's next probe due within an interval and a timeout of the last touch of its instance |
| Timing.ProbesArePaced | servicediscovery/discovery.go:363-389 | over every timed run, successive probes of a cached instance, and the first after its admission, are recorded at most an interval and a timeout apart |
| Timing.OfferedIsReturned | servicediscovery/discovery.go:462-470 | offered means that `GetInstances` returns some entry with the ID |
| Timing.FailuresShowIff | servicediscovery/discovery.go:380-388 | over all timed runs, every listed instance is offered exactly while its trailing failures are fewer than the limit, exactly when interval and timeout together are below the minimum healthy time and no list names an ID twice |
| Timing.FailingIsWithdrawn | servicediscovery/discovery.go:380-388 | with no ID listed twice, whatever the minimum healthy time, an instance that only fails is no longer offered after the limit times an interval and a timeout |
| Timing.RepeatedGoesStale | servicediscovery/discovery.go:378-394 | where lists may name an ID twice, the second entry goes stale while it is healthy |
| Timing.RepeatedHidesFailures | servicediscovery/discovery.go:266-277 | and it can keep the ID on offer after the limit of failed probes |
| Timing.NeverStaleIff | servicediscovery/discovery.go:462-470 | over all timed runs, no healthy cached entry is withheld as stale exactly when interval and timeout together are below the minimum healthy time and no list names an ID twice |
| ClientPool.ClientPool.Get | foundation/clientpool/zookeeper_pool.go:68-70 | takes the client that waited longest |
| ClientPool.ClientPool.Put | foundation/clientpool/etcd_pool.go:48-54 | puts the client back, or closes it when the pool is full |
| ClientPool.ClientPool.Close | foundation/clientpool/etcd_pool.go:57-62 | drains and closes exactly the clients in the pool |
| ClientPool.MoveConserves | foundation/clientpool/zookeeper_pool.go:68-79 | a put of a taken client finds room |
| ClientPool.ClientsAreConserved | foundation/clientpool/zookeeper_pool.go:68-79 | in every run that returns only what it took, the clients made are the clients in the pool and in use, and none is closed |
| ClientPool.FirstInFirstOut | foundation/clientpool/zookeeper_pool.go:68-79 | in every such run, clients are taken in the order in which they were made and returned |
| ClientPool.PutKeepsOrCloses | foundation/clientpool/etcd_pool.go:48-54 | a put of any client leaves it in the pool, or closed when that is full |
| PoolDeadlock.EnoughClientsNeverDeadlock | foundation/clientpool/zookeeper_pool.go:68-79 | with more clients than the sum of the peaks, each less one, no schedule reaches a state in which all unfinished tasks wait |
| PoolDeadlock.TooFewClientsCanDeadlock | foundation/clientpool/zookeeper_pool.go:68-70 | with fewer, a schedule that does is constructed |
| PoolDeadlock.DeadlockFreeIff | foundation/clientpool/zookeeper_pool.go:68-79 | the exact size of a pool for given tasks |
| PoolDeadlock.EnoughClientsFinish | foundation/clientpool/zookeeper_pool.go:68-79 | with enough clients every schedule ends, and ends with all tasks finished |
| NestedCalls.CallNests | servicediscovery/zookeeper_discovery.go:107-109 | a call that holds a client while it makes others holds, at its peak, as many as the calls nest deep, and returns all |
| NestedCalls.CopiesAreDeadlockFreeIff | foundation/clientpool/etcd_pool.go:43-54 | k such calls at once are free of deadlock exactly when the pool has more than k times the depth less one |
| NestedCalls.KeepAliveDepth | servicediscovery/zookeeper_discovery.go:257-275 | a keep-alive that re-registers a path of n components with no ancestor in place holds n + 3 clients |
| NestedCalls.KeepAliveNeeds | servicediscovery/zookeeper_discovery.go:107-127 | k of them are free of deadlock exactly when the pool has more than k (n + 2) clients |
| NestedCalls.DefaultPoolBlocksOneKeepAlive | servicediscovery/zookeeper_discovery.go:54-56 | for the path of a service instance, 5 clients can block a single chain and 6 cannot |
| NestedCalls.EtcdDepths | servicediscovery/etcd_discovery.go:299-323 | re-registration from a get or a recovery nests 3 deep, from a watch 4 |
| NestedCalls.DefaultEtcdPool | servicediscovery/etcd_discovery.go:54-57 | with 5 clients at most two recoveries, or one watch, are safe |
| NestedCalls.NacosDoesNotBlockIff | servicediscovery/nacos_discovery.go:93-188 | a registration whose call fails again and again does not block exactly while twice the failures stay below the pool size |
| ZkPaths.TrimTakesTheSlashes | dynaconfig/provider/zookeeper_provider.go:97 | trimming takes all slashes off both ends of any text, and nothing else |
| ZkPaths.SplitThenJoin | dynaconfig/provider/zookeeper_provider.go:97 | the parts of any text have no slashes and, joined with slashes, give the text back |
| ZkPaths.ComponentsOfRendered | dynaconfig/provider/zookeeper_provider.go:97 | trimming and splitting a clean absolute path gives back its components |
| ZkPaths.DirOfRendered | servicediscovery/zookeeper_discovery.go:219-222 | the directory of a clean absolute path is its parent's path, or the root for a single component |
| ZkPaths.LockIsASibling | dynaconfig/provider/zookeeper_provider.go:153-156 | the lock path of a key has the parent of the key itself |
| NodeTree.ZooKeeper.EnsureParentNodes | servicediscovery/zookeeper_discovery.go:215-254 | with others adding nodes and requests failing, creates only missing ancestors, empty, each under an existing parent, and on success all are there; takes and gives clients exactly as its call tree does; blocks, when undisturbed, exactly when the clients do not exceed the missing ancestors |
| NodeTree.ZooKeeper.EnsurePath | dynaconfig/provider/zookeeper_provider.go:96-117 | the loop promises the same, and undisturbed leaves the same tree |
| NodeTree.ZooKeeper.Create | servicediscovery/zookeeper_discovery.go:242-247 | one attempt: makes the node if its parent is there and it is missing, perhaps even when it fails |
| NodeTree.ZooKeeper.Register | servicediscovery/zookeeper_discovery.go:141-206 | on success the node and all its ancestors are there, nothing was created without a parent, and a node it created holds the value; undisturbed, it blocks exactly when there are fewer clients than missing ancestors and two |
| NodeTree.ZooKeeper.CheckAndReRegister | servicediscovery/zookeeper_discovery.go:107-138 | adds nothing but services, with their remembered records, and empty nodes above them; success leaves every remembered service in the tree, undisturbed with its record if it was missing and no service's node is above another's; when all are there it creates nothing; takes and gives clients exactly as its call tree does; undisturbed and with clients enough it succeeds |
| NodeTree.ZooKeeper.GetInstances | servicediscovery/zookeeper_discovery.go:364-411 | answers with nodes one component below the service's node, with their values, and undisturbed with all of them |
| NodeTree.ChildrenAreBelow | servicediscovery/zookeeper_discovery.go:373 | a node is among the children of a path exactly when it is that path and one component more |
| NodeTree.CheckedAreRestored | servicediscovery/zookeeper_discovery.go:107-138 | what a check created for a service holds the service's record, and undisturbed so does every service that was missing |
| NodeTree.OthersAnswerAsBefore | servicediscovery/zookeeper_discovery.go:185-195 | undisturbed, a registration leaves the answer for every node that is not above it as it was |
| NodeTree.RegisteredIsFound | servicediscovery/zookeeper_discovery.go:185-195 | undisturbed, a new registration adds itself, and nothing else, to what its service is answered with |
| NodeTree.ZooKeeper.PutConfig | dynaconfig/provider/zookeeper_provider.go:145-180 | ensuring the parents of the lock makes the creation of the key find its parent; on success the key holds the value; whatever fails and is retried, the key's value is the old one or the new one and no other value changes |
| NodeTree.NothingInPlace | servicediscovery/zookeeper_discovery.go:219-240 | with no ancestor in place, one less than the number of components are missing |
| NodeTree.NodeHasAncestors | servicediscovery/zookeeper_discovery.go:234-236 | in an ancestor-closed tree, finding the parent means that all ancestors are there |
| NodeTree.QuietTree | servicediscovery/zookeeper_discovery.go:215-254 | adding only missing ancestors until none is missing gives one tree, however it is done |
| EtcdRegistry.RegisterThenGet | servicediscovery/etcd_discovery.go:168-187 | registering, and then getting from the store, adds exactly the instance, with the same ID, host and ports, its four metadata and no failed checks, to what the service had |
| EtcdRegistry.FetchedIsStored | servicediscovery/zookeeper_discovery.go:150-159 | reading takes the ports from the metadata, so the record ZooKeeper holds reads back the same |
| EtcdRegistry.EtcdDiscovery.Register | servicediscovery/etcd_discovery.go:133-212 | remembers a new service, grants a fresh lease into the single field and puts the key under it, with every partial failure; no lease ever holds two keys |
| EtcdRegistry.EtcdDiscovery.Deregister | servicediscovery/etcd_discovery.go:264-296 | removes the key and whatever hangs on the latest lease; a failed delete changes nothing, a failed revoke spares the others |
| EtcdRegistry.EtcdDiscovery.CheckAndReRegister | servicediscovery/etcd_discovery.go:99-130 | removes and overwrites nothing, writes only what register would; success leaves every remembered service stored; when all are stored it writes nothing, so a second run does not |
| EtcdRegistry.LeasesStayApart | servicediscovery/etcd_discovery.go:157-187 | over every sequential run of registrations, deregistrations, failures and expiries, a lease holds at most one key |
| EtcdRegistry.DeregistrationSparesOthersIff | servicediscovery/etcd_discovery.go:268-285 | deregistering removes the instance's key and at most one other, the one on the latest lease, and spares all others exactly when that lease holds no other key |
| EtcdRegistry.OnlyTheLatestIsAtRisk | servicediscovery/etcd_discovery.go:167-187 | over every run, only the key of the last granted registration can hang on the latest lease |
| EtcdRegistry.DeregisteringTheLatestSparesOthers | servicediscovery/etcd_discovery.go:264-289 | so deregistering the instance registered last removes its key alone |
| EtcdRegistry.DeregisteringTheFirstRemovesTheSecond | servicediscovery/etcd_discovery.go:277-281 | and registering two, then deregistering the first, removes both |
| EtcdRegistry.LeasesStayApartIff | servicediscovery/etcd_discovery.go:167-187 | over any interleaving of any registrations, with grants and puts that fail, lose their replies and are repeated, no two keys ever hang on one lease exactly when the field is assigned between any two puts of different keys |
| EtcdRegistry.RepeatedPutMovesTheKey | servicediscovery/etcd_discovery.go:185-190 | a put whose reply was lost is tried again, and moves the key to the lease that is in the field by then |
| EtcdRegistry.RacingRegistrationsShareALease | servicediscovery/etcd_discovery.go:167-186 | the smallest example: two registrations that both assign the field before either puts |
| EtcdRegistry.PrefixMatchesLongerNames | servicediscovery/etcd_discovery.go:373-380 | a stored key starts with a service's path exactly when its service name starts with that name |
| EtcdRegistry.KeysAreUnambiguous | servicediscovery/etcd_discovery.go:184 | names and IDs without slashes can be read back from a key |
| EtcdRegistry.GetInstancesIsExactIff | servicediscovery/etcd_discovery.go:369-411 | the answer is the service's own instances exactly when no stored service has a longer name that starts with its name |

## Left out

- Vendor clients, TLS, logging, factories, the HTTP and TCP code of health checks, `NoopDiscovery` and `RandomBalancer`: foreign calls or choices without structure; what a probe finds is a parameter.
- CRC-32 and the text of JSON: the hash is an arbitrary function to 32 bits; of JSON the model keeps which Go values can be written and what kind of value they read back as, without loss of digits or of invalid text.
- Retries with back-off: a request ends in success or error; where a retry runs other code again or can repeat a write (a put of a configuration, the creation of a node, the re-registration of a service) the attempts are modelled, without their delays.
- The Go memory model: a region under a mutex is one step; `Close` ranges over the channel map without its lock, and changes made at the same time are not modelled.
- Contexts: one that is done ends its checker between ticks; in `Timing.dfy` none is ever done, and no run closes the discovery object while others use it.
- Time: one clock reading for each critical section; in `Timing.dfy` a checker with a tick begins its probe at once, waiting for a lock takes no time, and nothing is deregistered.
- Discovery.DiscoveryWithLB.GetInstances: the miss and the load are one call; in the step system a load can come at any time, cached or not.
- ConfigManager.ConfigManager: holds each configuration as a value; two entries that share one configuration object, and an object replaced while a sync holds it, are in the step system of `ConfigInterleaving.dfy`.
- ConfigManager.ConfigManager.RefreshConfig: reports that a sync is due; the sync itself is a thread of the step system.
- ConfigConvergence.TwoPassesConverge: a pass is made of syncs one after the other, none of which loses a request; `ConfigPasses.dfy` shows that whole syncs of several keys are such passes.
- ConfigConvergence.AnyRunThenTwoPasses: syncs that are still under way after the run do not move during the passes; that everyone stays at the version is claimed only if there are none.
- ConfigConvergence.TwoPassesAgreeIff: the passes sync this key alone, because lifting an object that two keys share can add a document of version 1.
- ConfigRegress.StoredNeverFallsIff: a stored version is at least 1, as every version the code stores first is; the state of rest has nothing newer than the stored version still to be delivered.
- ConfigAbsent.HeldVersionNeverFallsIff: the same state of rest; where nothing is stored, nothing was published either.
- The health cache of the configuration manager and the tempo of its checks; a failed watch that resyncs is a sync like any other.
- ConsistentHash.ConsistentHashBalancer.Rebuild: the ring is an array of its final length that is filled from the front, so the growth of the Go slice is not modelled.
- HealthCache: the counter of failed checks is unbounded.
- LiveCheckers.AlwaysCheckedIff: every known address has a port and a checker key of its own; where one has not, `CheckedIffUnambiguous` gives a run that leaves it unchecked.
- NodeTree.ZooKeeper: other clients only add nodes; expiry of ephemeral nodes and deletion by others are not modelled, nor are the nodes below the lock.
- NodeTree.ZooKeeper.CheckAndReRegister: what it puts back is stated for services none of whose nodes is above another's, as it is for all paths `/services/<name>/<id>`.
- NodeTree.ZooKeeper.GetInstances: a child that cannot be read is left out; the check it sets off on the way is `CheckAndReRegister`, and only its use of clients is counted.
- ZooKeeper keys that are not clean absolute paths (empty components, trailing slashes).
- EtcdRegistry.EtcdDiscovery.CheckAndReRegister: no key disappears while it runs.
- EtcdRegistry.EtcdDiscovery.Register: the instance ID is given, as after the code has chosen one; the keep-alive channel itself is not modelled.
- EtcdRegistry.LeasesStayApartIff: nothing is deregistered and no lease expires during the race; a request whose reply is lost is carried out before it is repeated.
- NestedCalls.NacosDoesNotBlockIff: one chain in which a single service is missing each time; the error that the outer registration still returns is not modelled.
- Consul, and what Nacos does with instance IDs: they depend on server behaviour that is not in the repository.
