# Edge metrics: a model and its proofs

A Dafny model of the server and the exporter of an edge-device monitoring system, with proofs
of what they promise over whole runs.

- **Reconciliation.** Devices kept in a table are published to a Kubernetes namespace as a
  Service and an Endpoints each. A periodic reconciler (`Syncer.dfy`, specified in
  `Reconcile.dfy`) counts failures between cycles, drops the Endpoints of a device after three
  unhealthy cycles and removes the objects of devices no longer listed. A one-shot reconciler and
  single-device, delete and cleanup operations work on the same objects (`KubeSync.dfy`).
  `SyncProperties.dfy`, `Grace.dfy`, `ClusterRuns.dfy`, `GraceRuns.dfy` and `Agreement.dfy` hold what
  follows from the specifications; `SyncerLoop.dfy` interleaves the ticker loop, callers of `TriggerSync` and `Stop`, and
  `SyncerHistory.dfy` reads off the order of their actions which Sync each of them has run.
- **Names.** `Naming.dfy` covers the device id check, the object names made from ids, and the
  slicing that undoes it.
- **Configuration.** `ConfigStore.dfy` is the devices table, `ConfigHandlers.dfy` what each HTTP
  request does to it, `ConfigServer.dfy` the handlers step by step, and `ConfigProperties.dfy` the
  round trips, the composition of patches and the invariants of the table.
- **Shelly RPC.** `ShellyProtocol.dfy` is the protocol of connections, requests and replies as a
  state machine with one step per stretch of code between two awaits; `ShellyServer.dfy` is the
  server's classes, proved against it, and `ShellyHttp.dfy` what GET /metrics raises, catches and answers.
- **Exporter.** `LiveMetrics.dfy` is the metrics dictionary that scrapes and enable requests share
  by reference, `Exporter.dfy` the objects that implement it, and `Reload.dfy` reloading and the
  collectors it rebuilds.
- **Collectors.** `Rapl.dfy` (wrapping energy counters), `CpuStat.dfy` (processor usage) and
  `Tegrastats.dfy` (the processor list of a Jetson).

Calls to Kubernetes, the database, devices and files are parameters that say how each call ends: a
Kubernetes call is acknowledged, refused, or applied with its reply lost; a database statement
succeeds or fails; a file can be read or not. Methods follow the code step by step and are proved
against functions on the state; the lemmas are about those functions.

`dafny verify dfyconfig.toml` checks the whole project.

## What the proofs found

Some promises hold only under a condition. Each is stated with its exact condition, proved both ways.

- The two reconcilers reach the same Endpoints if and only if no listed unhealthy device starts with
  Endpoints that have no Service (`Agreement.ReconcilersAgree`). No reconciliation ever removes
  such Endpoints (`ClusterRuns.OrphanSurvivesRuns`).
- A cycle creates orphaned Endpoints exactly when a stale Endpoints survives its deletion and its
  Service does not (`ClusterRuns.SyncOrphansIff`); the one-shot reconciler also when the reply to
  the Service's deletion is lost (`ClusterRuns.PruneOrphansIff`), as does deleting one device's objects
  (`ClusterRuns.DeleteOrphansIff`). Cleanup deletes all Services before any Endpoints: when it is
  stopped by an error it orphans the Endpoints of every Service it had removed
  (`ClusterRuns.CleanupOrphansIff`, `ClusterRuns.InterruptedCleanupOrphans`). These conditions together
  decide every run (`ClusterRuns.NoOrphansThroughoutIff`). The periodic report lists such
  Services as deleted whatever happened (`SyncProperties.ReportedDeletedMayRemain`).
- Enable requests and scrapes lose no update if and only if the metrics dictionary starts non-empty;
  from an empty one an accepted request can be undone (`LiveMetrics.LosslessIff`,
  `LiveMetrics.EmptyStartLoses`). A rejected request may still have changed flags
  (`LiveMetrics.RequestChangesIff`).
- A failed reload changes nothing unless it had already rebuilt the collectors and then met a
  `metrics` section that is not a dictionary: the collectors are then those of a configuration that
  is not in force (`Reload.FailedReloadChangesNothingIff`), until a later reload rebuilds them
  again (`Reload.CollectorsMatchIff`). A reload requested while another is under way is lost
  (`Reload.RequestIsServedIff`).
- Putting back what GET answered changes nothing if and only if both ports are non-zero and the
  stored address could be read (`ConfigProperties.PutBackIff`): PATCH can store a zero port, and a
  failed read during PUT erases the address (`ConfigProperties.PutKeepsAddressIff`).
- Two patches equal their merge if and only if the second holds no ineffective value (of a wrong
  type, or a null address) under a key the first one changes (`ConfigProperties.PatchesComposeIff`).
- The Shelly registry agrees with the open connections throughout a run if and only if no two of
  them identify as the same device (`ShellyProtocol.RegistryAgreesIff`); otherwise an old
  connection's end drops the new one's entry (`ShellyProtocol.StaleHandlerDropsNewEntry`).
- The Shelly server's answers 502 and 504 are never given: the connection is looked up in the same
  uninterrupted stretch that listed it, and a call turns its own timeout into a plain exception
  (`ShellyHttp.HttpHandler.HandleMetrics`, `ShellyHttp.GatewayTimeoutIff`).
- RAPL energy is exact if and only if every two successive reads are less than one turn of the
  counter apart and the clock has moved, or nothing was used (`Rapl.EnergyExactIff`); a range
  that is not the counter's modulus is off by the difference at each wrap (`Rapl.EnergyTelescopes`).

Where code and documentation disagree, the model follows the code. The exporter's README says a
discovered metric is registered as disabled; the code registers it as enabled. The API description
says a sync deletes the objects of unhealthy devices; the periodic reconciler, which answers that
request when it is running, keeps their Services and drops their Endpoints only after the grace
period. It also says that PUT keeps the stored address when none is given; the code does so only
if the address can be read.

## Model

| member | source | states |
|---|---|---|
| Naming.RegexIsHostLabel | server/kubernetes/validate.go:9 | the id pattern, under ordinary regular-expression semantics, matches exactly the lower-case host-name labels of section 2.1 of RFC 1123 |
| Naming.ValidateDeviceID | server/kubernetes/validate.go:14-28 | an id is accepted if and only if it is a host-name label of at most 240 characters |
| Naming.NamesCollideIffSameLowercase | server/kubernetes/service.go:20 | two ids share their objects if and only if they differ at most in case |
| Naming.ValidIdsNameInjectively | server/kubernetes/validate.go:11-28 | on accepted ids naming is injective, fits in 253 characters, and slicing off the prefix gives the id back |
| Naming.SeededIdsCanCollide | server/main.go:131-159 | two distinct ids that only seeding lets in own the same objects, and validation rejects one of them |
| Naming.CleanupHitsListedName | server/handlers/syncer.go:156-162 | slicing a listed name and formatting it again gives that name if and only if it is prefix plus a lower-case rest |
| Cluster.Client.CreateOrUpdateService | server/kubernetes/service.go:15-63 | after the call the named Service has the wanted type and truncated port exactly when the get succeeded and the write was applied; nothing else changes; success is reported exactly when both were acknowledged |
| Cluster.Client.DeleteService | server/kubernetes/service.go:66-80 | the named Service is gone unless the call was refused; deleting what is absent succeeds |
| Cluster.Client.ListEdgeServices | server/kubernetes/service.go:101-124 | every managed name, each once |
| Cluster.Client.CreateOrUpdateEndpoints | server/kubernetes/endpoints.go:14-66 | the same for Endpoints, with address and port |
| Cluster.Client.DeleteEndpoints | server/kubernetes/endpoints.go:69-83 | the same for deleting Endpoints |
| Cluster.Client.ListEdgeEndpoints | server/kubernetes/endpoints.go:104-127 | every managed Endpoints name, each once |
| Cluster.ToInt32 | server/kubernetes/service.go:38 | the port as a signed 32-bit number, equal modulo two to the power 32, unchanged when it fits |
| Reconcile.CheckDeviceHealth | server/handlers/health.go:23-62 | a device is healthy if and only if it has an address other than the unknown one and its probe answers 200; unreachable if and only if such a device does not answer; unknown otherwise without an address |
| SyncerService.Syncer.Sync | server/handlers/syncer.go:77-170 | one cycle: the new cluster and failure counts, the three early errors, the report (deletions in any order) and the grace log, for every outcome of every call |
| SyncerService.Syncer.VisitDevices | server/handlers/syncer.go:107-153 | the device loop, for any list of devices |
| SyncerService.Syncer.VisitDevice | server/handlers/syncer.go:109-153 | one pass of it: publish and reset the count, or count up and drop the Endpoints from the third failure on |
| SyncerService.Syncer.CleanUp | server/handlers/syncer.go:155-167 | the cleanup loop, whatever the order in which the map is walked, removes the same objects and counts and reports each name once |
| SyncProperties.VisitedAlone | server/handlers/syncer.go:109-153 | in a list of distinct names each device ends as if it were visited alone |
| SyncProperties.ListedSlot | server/handlers/syncer.go:109-167 | a whole cycle leaves a listed device what its own visit leaves it |
| SyncProperties.UnlistedSlot | server/handlers/syncer.go:155-167 | a whole cycle leaves an unlisted device what the deletions that were applied leave it, and no count if its Service existed |
| SyncProperties.SelfStabilises | server/handlers/syncer.go:98-169 | one error-free cycle from any well-named state: Services are the old ones of listed devices plus those of healthy ones, each healthy device has a Service of its own id, type and port and Endpoints of its own id, address and port, sick ones keep their Service and, within the grace period, their Endpoints, and of unlisted devices only Endpoints that had no Service remain |
| SyncProperties.SecondCycleIsQuiet | server/handlers/syncer.go:98-169 | the same cycle again reports nothing created, deleted or failed |
| SyncProperties.ThreeCyclesConverge | server/handlers/syncer.go:109-169 | from the third repetition on the cluster no longer changes |
| SyncProperties.ListedSettles | server/handlers/syncer.go:109-153 | the closed form of any number of error-free cycles for a listed device, count included |
| SyncProperties.OrderIrrelevant | server/handlers/syncer.go:109-167 | two cycles over the same devices in different orders give the same state |
| SyncProperties.ReportConserves | server/handlers/syncer.go:109-169 | whatever fails, created, updated and failed together number the healthy devices, and deleted lists exactly the existing Services of no listed device |
| SyncProperties.ReportedIsPublished | server/handlers/syncer.go:113-143 | a device is reported created or updated if and only if it was healthy and both calls were acknowledged, according to whether its Service existed, and failed at the call that was not; when acknowledged its Service and Endpoints carry its id, type, address and port |
| SyncProperties.ReportedDeletedMayRemain | server/handlers/syncer.go:156-167 | a stale Service is always reported deleted, and is gone if and only if its deletion was applied |
| Grace.CounterCountsSickCycles | server/handlers/syncer.go:113-163 | over every run the count of a device is the number of cycles in which it was listed and unhealthy since it was last healthy or collected |
| Grace.GraceEndsAfterThreeSickCycles | server/handlers/syncer.go:145-151 | a cycle ends the grace period of a device if and only if it is unhealthy in it and that number has reached three |
| Grace.EndpointsVanishIff | server/handlers/syncer.go:113-167 | Endpoints disappear in a cycle if and only if the device is sick for at least the third time and the deletion is applied, or it is collected and the deletion is applied |
| GraceRuns.CounterCountsInAnyRun | server/handlers/syncer.go:113-163 | the same count over runs in which the other operations come between the cycles |
| GraceRuns.GraceEndsInAnyRun | server/handlers/syncer.go:145-151 | likewise the end of the grace period |
| Grace.StoredDevicesHaveDistinctNames | server/repository/device_repository.go:48-58 | distinct lower-case ids give distinct object names |
| KubeSync.SyncDevices | server/kubernetes/sync.go:33-151 | the one-shot reconciler: new cluster, early errors, and the report, for every outcome of every call |
| KubeSync.KeepHealthy | server/kubernetes/sync.go:176-184 | the filter keeps the healthy devices in order |
| KubeSync.TakeClaims | server/kubernetes/sync.go:63-114 | its device loop, with names taken off the list of existing Services as they are processed |
| KubeSync.PruneAll | server/kubernetes/sync.go:116-148 | its cleanup loop in any order: Endpoints are deleted only after the Service was acknowledged deleted, and each name is filed as deleted or failed once |
| KubeSync.SyncSingleDevice | server/kubernetes/sync.go:299-370 | the single-device operation, its refusals and its result; a failed listing counts as no existing Service |
| KubeSync.GetDeviceByID | server/kubernetes/sync.go:496-509 | a device if and only if one of the list has the id |
| KubeSync.FoundIsFirst | server/kubernetes/sync.go:502-508 | the device found is the first with the id |
| KubeSync.DeleteDeviceResources | server/kubernetes/sync.go:433-467 | the delete operation, its error when there is no client, and its outcome |
| KubeSync.CleanupAllResources | server/kubernetes/sync.go:512-546 | Services in listed order up to the first error, then Endpoints; success if and only if every deletion was acknowledged |
| KubeSync.GetSyncStatus | server/kubernetes/sync.go:236-296 | the four errors in their order; otherwise one entry per device, and how many devices have both objects |
| ClusterRuns.SyncOrphansIff | server/handlers/syncer.go:109-167 | from a state without orphans a cycle leaves none if and only if every stale Endpoints that survives keeps its Service |
| ClusterRuns.PruneOrphansIff | server/kubernetes/sync.go:116-148 | the same for the one-shot reconciler, whose lost replies also orphan |
| ClusterRuns.DeleteOrphansIff | server/kubernetes/sync.go:440-460 | the same for deleting one device's objects |
| ClusterRuns.CleanupOrphansIff | server/kubernetes/sync.go:529-545 | cleanup that gets past the Services leaves no orphan if and only if it removes every Endpoints; cleanup that stops at a Service, if and only if none of the Services it had removed, in listing order, has Endpoints |
| ClusterRuns.InterruptedCleanupOrphans | server/kubernetes/sync.go:529-545 | cleanup refused a later Service orphans the Endpoints of an earlier one |
| ClusterRuns.StepOrphansIff | server/kubernetes/sync.go:78-148 | any of the five operations leaves a state without orphans if and only if its condition holds |
| ClusterRuns.NoOrphansThroughoutIff | server/handlers/syncer.go:118-167 | a run is free of orphans throughout if and only if each operation meets its condition in the state it starts from |
| ClusterRuns.CleanupLeavesNothing | server/kubernetes/sync.go:529-545 | with acknowledged deletions cleanup empties the namespace, orphans included |
| ClusterRuns.NoOrphansInAnyRun | server/kubernetes/sync.go:78-148 | in every run of all five operations whose deletions succeed, every Endpoints has its Service, whatever creates, updates, gets and lists fail |
| ClusterRuns.OrphanSurvivesRuns | server/kubernetes/sync.go:116-148 | orphaned Endpoints that no operation names survive every run of reconciliations |
| Agreement.ReconcilersAgree | server/kubernetes/sync.go:63-148 | three error-free cycles and one error-free one-shot run reach the same Endpoints if and only if no listed unhealthy device starts with orphaned Endpoints; Services differ only by those of listed unhealthy devices |
| Agreement.TwoCyclesDoNotAgree | server/handlers/syncer.go:145-151 | fewer than three cycles do not |
| Agreement.StatusCountsHealthy | server/kubernetes/sync.go:275-293 | after either, the status report counts exactly the healthy devices as synced |
| Agreement.OneShotHealthy | server/kubernetes/sync.go:78-100 | after an error-free one-shot run every healthy device has a Service and Endpoints of its own id, type, address and port |
| Agreement.DevicesReportTells | server/kubernetes/sync.go:64-114 | of every healthy device the one-shot report says created, updated, or failed and at which call, if and only if that is what became of its calls |
| Agreement.PruningReportTells | server/kubernetes/sync.go:116-148 | of every stale Service it says deleted if and only if both deletions were acknowledged, and otherwise which was the first that was not |
| Agreement.SingleRefusals | server/kubernetes/sync.go:299-324 | each refusal of the single-device operation, and that none changes anything |
| Agreement.SingleReportsAsAll | server/kubernetes/sync.go:326-369 | otherwise it answers what the one-shot reconciler, with the same calls failing, reports of the device |
| Agreement.DevicesReportConserves | server/kubernetes/sync.go:64-150 | whatever fails, the four lists together number the healthy devices plus the existing Services no healthy device with an address claims |
| Agreement.SingleDoesItsShare | server/kubernetes/sync.go:310-370 | the single-device operation leaves a healthy device's objects as the one-shot reconciler does, with the same calls failing, and touches no others |
| Agreement.DeleteUndoesSingle | server/kubernetes/sync.go:433-467 | deleting a device's objects undoes a single-device operation that found none, whatever became of its calls |
| SyncerLoop.EveryInterleaving | server/handlers/syncer.go:46-79 | over every interleaving of ticks, calls and one Stop: whoever is in Sync holds the mutex, and the state is that of whole cycles in mutex order plus the devices visited so far |
| SyncerLoop.SyncsAreExclusiveAndSerial | server/handlers/syncer.go:76-79 | at most one Sync body runs, the reset channel holds at most one token, and between bodies the state is that of the completed cycles run one after another |
| SyncerHistory.TriggerSyncRunsItsSync | server/handlers/syncer.go:172-180 | every return of TriggerSync comes after its own call, its own lock and the end of the Sync it then ran, which is in the log |
| SyncerHistory.TickRunsASync | server/handlers/syncer.go:58-73 | between a tick the loop takes and its next select it runs one Sync to its end |
| SyncerHistory.SyncsPerTick | server/handlers/syncer.go:62-69 | the loop begins as many Syncs as it takes ticks, at most one behind |
| SyncerHistory.LogIsSyncsBegun | server/handlers/syncer.go:76-79 | the Syncs completed are those begun, in order, save the one in progress |
| SyncerHistory.TriggerSyncResetsTimer | server/handlers/syncer.go:70-71 | a returned TriggerSync leaves a reset until the loop takes it, which clears the waiting tick |
| SyncerHistory.StateAgrees | server/handlers/syncer.go:58-73 | in every interleaving the loop, each call and both channels are where the actions so far put them |
| SyncerLoop.StoppedForGood | server/handlers/syncer.go:46-74 | once Stop has returned the loop has exited and in no continuation acts again |
| SyncerLoop.TriggerSyncReturns | server/handlers/syncer.go:172-180 | from every reachable state a pending TriggerSync can be brought to its return without any action of the loop but finishing a Sync it is in |
| SyncerLoop.StopCanReturn | server/handlers/syncer.go:46-74 | from every reachable state a pending Stop can be brought to its return without another tick or call |
| ConfigStore.DecodedIff | server/repository/device_repository.go:111-126 | a row fails to decode if and only if a text column does; null and empty columns read as empty |
| ConfigStore.RowRoundTrip | server/repository/device_repository.go:186-222 | writing a record to nullable columns and reading it back loses nothing |
| ConfigStore.SQLiteStore.Get | server/repository/device_repository.go:84-129 | absent, unreadable or the stored record |
| ConfigStore.SQLiteStore.List | server/repository/device_repository.go:131-184 | fails if and only if the query fails or some row does not decode; otherwise every record once, by ascending id |
| ConfigStore.ListIsDetermined | server/repository/device_repository.go:131-137 | a table has only one such list |
| ConfigStore.SQLiteStore.Create | server/repository/device_repository.go:186-222 | adds the record, unless the id is taken |
| ConfigStore.SQLiteStore.Update | server/repository/device_repository.go:224-270 | replaces the record of an existing id, and only that |
| ConfigStore.SQLiteStore.Upsert | server/repository/device_repository.go:272-286 | updates or creates, and says which |
| ConfigStore.SQLiteStore.Delete | server/repository/device_repository.go:288-304 | removes the row, with an error when there is none |
| ConfigStore.SQLiteStore.Exists | server/repository/device_repository.go:306-313 | whether there is a row |
| ConfigServer.Handler.GetConfig | server/handlers/config_handlers.go:28-69 | the reply of GET |
| ConfigServer.Handler.UpdateConfig | server/handlers/config_handlers.go:72-196 | PUT: the reply, the table after it and the reload asked of the device, for every body and every failing call |
| ConfigServer.Handler.CreateConfig | server/handlers/config_handlers.go:199-335 | POST, likewise |
| ConfigServer.Handler.DeleteConfig | server/handlers/config_handlers.go:338-365 | DELETE, likewise |
| ConfigServer.Handler.PatchConfig | server/handlers/config_handlers.go:408-518 | PATCH, likewise, reload included; a refused patch stores nothing |
| ConfigServer.Handler.PatchExtras | server/handlers/config_handlers.go:488-500 | the loop over the patch, in any order: null removes an extra key, any other value replaces it |
| ConfigServer.Handler.ReadBody | server/handlers/config_handlers.go:94-145 | the record PUT and POST read from a body |
| ConfigServer.Handler.PatchDeviceBasics | server/handlers/device_handlers.go:264-339 | PATCH of the basic fields, likewise |
| ConfigProperties.PutAcceptedIff | server/handlers/config_handlers.go:72-196 | PUT succeeds if and only if the id is valid, the body has a type and, if any, an allowed address, and the statements work; it says whether the device was new; otherwise 400 or 500, and nothing changes |
| ConfigProperties.PostAcceptedIff | server/handlers/config_handlers.go:199-335 | the same for POST, with 409 for a taken id |
| ConfigProperties.PatchAcceptedIff | server/handlers/config_handlers.go:408-518 | the same for PATCH, with 404 for an unknown device |
| ConfigProperties.DeleteThenGet | server/handlers/config_handlers.go:338-365 | DELETE removes the device and no other, and answers whether there was one |
| ConfigProperties.GetIff | server/handlers/config_handlers.go:32-50 | GET finds a device if and only if it is stored and decodes |
| ConfigProperties.StringsOfParts | server/handlers/config_handlers.go:113-119 | the texts of a metrics list are those of its parts, in order |
| ConfigProperties.PutThenGet | server/handlers/config_handlers.go:94-168 | after an accepted PUT, GET answers the body key by key: own keys unchanged, standard ones with the defaults 9100 and 9101 and without fractions, no address; a given address is stored; other devices answer as before |
| ConfigProperties.StrsOfStrings | server/handlers/config_handlers.go:113-119 | a metrics list of strings only is stored and answered unchanged |
| ConfigProperties.PutBackIff | server/handlers/config_handlers.go:54-66 | putting back what GET answered leaves the table unchanged if and only if both ports are non-zero and the address could be read or is empty |
| ConfigProperties.PutKeepsAddressIff | server/handlers/config_handlers.go:147-150 | PUT without an address keeps the stored one if and only if it could be read |
| ConfigProperties.PutIsIdempotent | server/handlers/config_handlers.go:94-168 | the same PUT again changes nothing, with the exact exception |
| ConfigProperties.PostIsPutOnNewDevices | server/handlers/config_handlers.go:199-335 | POST creates a device if and only if the id is new, PUT would accept and an address is given; it then stores what PUT would |
| ConfigProperties.ReloadsGoToStoredAddress | server/handlers/config_handlers.go:186-189 | only an accepted PUT or PATCH asks a device to reload, if it has an address, at the address and port now stored; it is answered as triggered if and only if the device was asked and accepted |
| ConfigProperties.PatchThenGet | server/handlers/config_handlers.go:440-500 | after an accepted PATCH request GET answers, key by key, what the patch says where it has an effect (null resets or removes) and what it answered before elsewhere; the stored address is the patch's or the old one; other devices are unchanged |
| ConfigProperties.PatchDeviceIsPatchOfBasics | server/handlers/device_handlers.go:286-339 | PATCH of a device's basics is PATCH of its configuration with the basic keys that are neither null nor empty, save that it refuses an empty address |
| ConfigProperties.PatchesComposeIff | server/handlers/config_handlers.go:440-500 | patching twice is patching with the right-biased merge, on every record, if and only if the second patch shadows no effect of the first |
| ConfigProperties.PatchRequestsCompose | server/handlers/config_handlers.go:408-518 | the same through the store: two accepted requests leave the table, and the reply, of their merge |
| ConfigProperties.EveryRunIsSound | server/handlers/config_handlers.go:121-168 | over every run of requests and failures: stored ids are valid, rows decode, addresses are allowed or empty, and extra keys never repeat a standard field |
| ConfigProperties.PortsStaySet | server/handlers/config_handlers.go:136-141 | without a patch that sets a port to zero no stored port is zero |
| ConfigProperties.ListedDevicesAreStored | server/repository/device_repository.go:131-184 | a listing of such a table has distinct lower-case ids and distinct object names of at most 253 characters, as the reconciliation theorems assume |
| ShellyProtocol.CorrelatedRun | exporter/shelly_server.py:161-204 | over every interleaving the table holds exactly the calls in flight, and every result, pending or returned, carries its call's own id |
| ShellyProtocol.SettledForGood | exporter/shelly_server.py:198-204 | over every run a completed or cancelled future stays as it is until its call has ended, and an ended call keeps its outcome and has no future: each future is completed at most once |
| ShellyProtocol.RepliesAreDelivered | exporter/shelly_server.py:84-93 | a reply to a pending request completes it on any connection, unless the connection is not yet identified and the source of the reply raises |
| ShellyProtocol.SourcesNameConnections | exporter/shelly_server.py:84-89 | the first usable source, or without one the remote address, names and registers the connection; later messages do not |
| ShellyProtocol.CallsReturnFirstReply | exporter/shelly_server.py:161-204 | a call that returns, returns the first message with its id delivered after it began |
| ShellyProtocol.LateReplyUnclaimed | exporter/shelly_server.py:185-204 | a reply to an ended or unknown call matches nothing and changes nothing |
| ShellyProtocol.ReplyAfterTimeoutIsLost | exporter/shelly_server.py:178-204 | a reply between a timeout and its call's end is taken for an answer, and lost |
| ShellyProtocol.CallsCanEnd | exporter/shelly_server.py:172-186 | from every reachable state a call in flight ends after at most three steps of its own, with its first reply or a timeout |
| ShellyProtocol.RegisteredIsAlwaysLive | exporter/shelly_server.py:84-108 | in every run a registered connection is open and has identified itself as that device |
| ShellyProtocol.RegistryAgreesIff | exporter/shelly_server.py:27-48 | the registry agrees with the open identified connections throughout a run if and only if no two of them ever claim the same device |
| ShellyProtocol.StaleHandlerDropsNewEntry | exporter/shelly_server.py:105-108 | closing a device's old connection drops the entry of its new one |
| ShellyServer.ConnectionRegistry.Register | exporter/shelly_server.py:27-31 | the device's entry is replaced |
| ShellyServer.ConnectionRegistry.Unregister | exporter/shelly_server.py:33-38 | the device's entry is removed, whichever socket it holds |
| ShellyServer.ConnectionRegistry.GetConnection | exporter/shelly_server.py:40-43 | the device's socket, if any |
| ShellyServer.WebSocketHandler.HandleMessage | exporter/shelly_server.py:76-99 | one message is one step of the protocol, whatever raises |
| ShellyServer.WebSocketHandler.IdentifySender | exporter/shelly_server.py:84-89 | the first usable source names the connection and registers it |
| ShellyServer.WebSocketHandler.DispatchRpcResponse | exporter/shelly_server.py:188-204 | the future of the message's id, if pending, gets the message; matched or not is reported |
| ShellyServer.WebSocketHandler.Disconnected | exporter/shelly_server.py:105-108 | the end of a connection is the protocol's closing step |
| ShellyServer.WebSocketHandler.BeginRequest | exporter/shelly_server.py:159-174 | a request adds a fresh pending future under its id |
| ShellyServer.WebSocketHandler.Wake | exporter/shelly_server.py:177-186 | a woken call returns its message or a timeout, and is off the table |
| ShellyServer.WebSocketHandler.TimeOut | exporter/shelly_server.py:177-184 | the timeout cancels the call's future |
| ShellyServer.WebSocketHandler.FailSend | exporter/shelly_server.py:172-186 | a failed send takes the call off the table |
| ShellyServer.WebSocketHandler.Abort | exporter/shelly_server.py:185-186 | so does cancelling the call |
| ShellyServer.ConnectionRegistry.GetAllDevices | exporter/shelly_server.py:45-48 | every registered device once |
| ShellyHttp.HttpHandler.HandleMetrics | exporter/shelly_server.py:336-396 | GET /metrics, for every end of the call: 404 if and only if no device is connected, and the branches answering 502 and 504 are never reached |
| ShellyHttp.CallsRaisePlainly | exporter/shelly_server.py:172-186 | a call returns its message if and only if both awaits succeed, is cancelled if and only if one of them is, and never lets a timeout out |
| ShellyHttp.GatewayTimeoutIff | exporter/shelly_server.py:386-396 | 504 is answered if and only if a call lets a timeout escape |
| ShellyHttp.MetricsReplyInEveryRun | exporter/shelly_server.py:356-396 | over every interleaving a request for a connected device is answered 200 if and only if its call returned in time and the first message with its id carries a result, not at all if and only if it was cancelled, and otherwise 500 |
| LiveMetrics.InterleavingsAreSimple | exporter/exporter.py:59-103 | from a non-empty dictionary every reload-free interleaving of scrapes and requests has the meaning of whole operations on one dictionary |
| LiveMetrics.NoLostUpdates | exporter/exporter.py:59-103 | the names are those there were and those discovered, and each flag is the last value a request assigned, else its initial value, else the enabled of its discovery |
| LiveMetrics.LosslessIff | exporter/exporter.py:61 | every interleaving has that meaning if and only if the dictionary starts non-empty |
| LiveMetrics.EmptyStartLoses | exporter/exporter.py:86-97 | from an empty one, two scrapes undo an accepted request |
| LiveMetrics.RequestChangesIff | exporter/exporter.py:227-250 | a request, even a rejected one, changes flags if and only if the entries it processed end on another value for a known name |
| LiveMetrics.RejectedRequestCanWrite | exporter/exporter.py:240-248 | a rejected request that turned a metric off |
| Exporter.Exporter.BeginScrape | exporter/exporter.py:59-62 | the first critical section, on references |
| Exporter.Exporter.EndScrape | exporter/exporter.py:85-103 | the second, on references |
| Exporter.Exporter.Expose | exporter/exporter.py:105-116 | whether a metric is yielded: its flag in the scrape's dictionary at that moment |
| LiveMetrics.ExposedIsEnabledNow | exporter/exporter.py:105-116 | from a non-empty dictionary, in every interleaving, a metric is yielded if and only if it is enabled in the configuration at that moment |
| Exporter.Exporter.PostEnable | exporter/exporter.py:197-283 | an enable request and its reply: unreadable, oversized, malformed and too long requests, requests that cannot be saved, and all others |
| Exporter.Exporter.EnableLocked | exporter/exporter.py:227-250 | its critical section, on references, with the reply it leads to |
| Exporter.RepliesIff | exporter/exporter.py:203-278 | success is answered if and only if every entry is a boolean of a known name and the save succeeded, and what the other codes mean |
| Exporter.BadTypeIff | exporter/exporter.py:235-237 | a wrong type is answered if and only if some entry is not a boolean, and names the first |
| Exporter.UnknownNamesIff | exporter/exporter.py:240-248 | otherwise unknown names are answered, all of them, if there are any |
| Exporter.Exporter.ApplyUpdates | exporter/exporter.py:233-243 | its loop: entries up to the first that is not a boolean, known names assigned, unknown ones collected in order |
| Reload.Reloader.InitializeCollectors | exporter/exporter.py:420-463 | collectors exist if and only if the device type is a string whose collector can be built and the Shelly section is a dictionary |
| Reload.Reloader.ApplyNewConfig | exporter/exporter.py:466-552 | what a loaded configuration replaces: the configuration, the collectors, both or neither |
| Reload.Reloader.ReloadOnce | exporter/exporter.py:631-640 | the same for one pass of the loop, failed loads included |
| Reload.ReloadOutcome | exporter/exporter.py:475-552 | what a reload does, configuration by configuration: with the sections in force the loaded one takes over alone; with others the collectors built from it do, and it with them; neither if the metrics of either cannot be read |
| Reload.SameSectionsIff | exporter/exporter.py:475-491 | the sections are the same if and only if device type and Shelly section are, missing ones counting as null and empty |
| Reload.BuiltIff | exporter/exporter.py:433-463 | when collectors can be built, and when a Shelly collector is among them |
| Reload.StartsIff | exporter/exporter.py:583-604 | when the exporter starts; its collectors then match |
| Reload.ReadableMetricsIff | exporter/exporter.py:513-517 | which metrics sections cannot be read |
| Reload.FailedReloadChangesNothingIff | exporter/exporter.py:500-526 | a reload that does not install its configuration changes nothing if and only if it did not rebuild the collectors; if it did, a metrics section was unreadable |
| Reload.FailedReloadCanReplaceCollectors | exporter/exporter.py:504-517 | such a reload |
| Reload.CollectorsMatchIff | exporter/exporter.py:475-546 | over every run from startup the collectors match the configuration in force if and only if the last reload that rebuilt them also installed its configuration |
| Reload.ReadableConfigsMatch | exporter/exporter.py:475-546 | while every loaded metrics section is readable they always match |
| Reload.StepMends | exporter/exporter.py:481-510 | off the match only a reload that rebuilds and installs leads back |
| Reload.RequestIsServedIff | exporter/exporter.py:631-642 | a reload request can lead to a reload that starts after it without another request if and only if none is under way when it arrives, and then stays pending until one begins |
| Reload.RequestDuringReloadIsLost | exporter/exporter.py:631-642 | after a request during a reload no reload starts until the next request |
| Rapl.RaplCollector.CollectRapl | exporter/collectors/edge_server.py:143-164 | every domain's power and remembered reading, failed reads included |
| Rapl.DeltaExactIff | exporter/collectors/edge_server.py:154-157 | the corrected difference is the true growth if and only if that is below the range, and never exceeds it |
| Rapl.EnergyTelescopes | exporter/collectors/edge_server.py:143-164 | over any run of frequent reads, with failures and wraps, reported energy is the true energy from first to last read, off by range minus modulus at each wrap |
| Rapl.EnergyExactIff | exporter/collectors/edge_server.py:143-164 | with the right range reported energy never exceeds the true one, and equals it if and only if no two successive reads lose any |
| CpuStat.CpuUsage.CollectCpuUsage | exporter/collectors/edge_server.py:184-222 | usage of every processor present in this and the last readable sample, and the counters kept |
| CpuStat.CpuUsage.ReadTimes | exporter/collectors/edge_server.py:192-207 | idle and total of each processor, short lines skipped |
| CpuStat.UsageBoundIff | exporter/collectors/edge_server.py:212-215 | a usage lies between 0 and 100 if and only if idle grew by between nothing and the total's growth |
| CpuStat.SumGrows | exporter/collectors/edge_server.py:203-206 | columns that do not decrease give such growth |
| CpuStat.UsageByColumns | exporter/collectors/edge_server.py:203-215 | the usage of a sample by its columns: all time since the last readable sample but that in the columns idle and iowait |
| CpuStat.SumOfParts | exporter/collectors/edge_server.py:206 | the total is additive over any division of the columns |
| CpuStat.UsageIsAPercentage | exporter/collectors/edge_server.py:192-222 | in any run whose counters grow in a fixed number of columns every reported usage lies between 0 and 100 |
| CpuStat.LosingAColumnBreaksTheBound | exporter/collectors/edge_server.py:203-205 | without a fixed number of columns it can be 200 |
| Tegrastats.CpuSection | exporter/collectors/jetson_orin.py:89-118 | the metrics of every core, the average and the number of active cores |
| Tegrastats.MatchIff | exporter/collectors/jetson_orin.py:101-104 | an entry is read if and only if the pattern matches at its start |
| Tegrastats.MatchedNumbers | exporter/collectors/jetson_orin.py:101-104 | its numbers are then the one matched and the longest that can be |
| Tegrastats.ListRoundTrip | exporter/collectors/jetson_orin.py:91-111 | printing any cores, joined by commas with any blanks around them, and parsing gives every core back at its index |
| Tegrastats.EntryRoundTrip | exporter/collectors/jetson_orin.py:97-104 | the same for one entry |
| Tegrastats.SplitOfJoin | exporter/collectors/jetson_orin.py:91 | splitting undoes joining |
| Tegrastats.JoinOfSplit | exporter/collectors/jetson_orin.py:91 | joining undoes splitting |
| Tegrastats.ActiveCounts | exporter/collectors/jetson_orin.py:113-118 | the active count is the number of cores that are on |
| Tegrastats.AverageTimesCount | exporter/collectors/jetson_orin.py:115-118 | there is an average if and only if some core is on, and times their number it is the total usage |
| Tegrastats.TotalOfParts | exporter/collectors/jetson_orin.py:112 | the total usage is additive over any division of the cores |
| Tegrastats.AverageIsBetween | exporter/collectors/jetson_orin.py:115-117 | the average lies between the least and the greatest usage of the active cores |

## Left out

- Objects that other parties create: object names are assumed to be names this program gives, and an existing object of such a name that carries no managed label is not modelled.
- Device ids written by seeding, which skips validation: the runs of configuration requests start from an empty table, and the theorems on reconciliation ask for distinct names.
- The cluster operations other than the periodic cycle are whole steps: their interleaving with a cycle in progress is not modelled, only that of the cycles themselves.
- Labels, ports' names and other fixed fields of Services and Endpoints; resource versions and conflicts on update end as refused writes.
- Lower-casing and blanks beyond ASCII, and digits beyond ASCII in a tegrastats line.
- Integer widths other than the port's: counters and energies are unbounded, and a number too large for a Go integer is not modelled.
- JSON and YAML texts: encoding and decoding are assumed inverse, numbers are reals, and a number and a boolean are never equal, as 1 and true are in Python.
- Timestamps, and collations of the database other than by code point.
- Concurrent requests for one device: each request to the configuration handlers is one step.
- Saving the exporter's configuration to its file and sending it to the server, beyond whether an enable request was saved; the other management requests.
- Reloads between a scrape's two critical sections: the theorems on the metrics dictionary exclude reloads, as the one on collectors excludes none.
- Requests to the exporter before it has a configuration, waiting for one at startup beyond its result, and the servers a process starts.
- Fairness: `TriggerSync` and `Stop` are shown able to return from every state, not to be scheduled.
- The Shelly server's other HTTP requests, the contents of its answers, and the order in which it lists several devices.
- Request ids are fresh, and hashable JSON ids of other types than strings stand for strings of their own.
- RAPL domains that share a name overwrite each other's metric: energy is followed by domain, not by metric name. Likewise processor usage goes by the line's first word.
- Rounding of reported values.
- The discovery of sensors, the other sections of a tegrastats line, the other Jetson collectors, authentication, address ranges, manifests and front ends: lookups and straight-line code that would add only easy members.
- Health probing itself: each probe's answer is an input of the cycle that asks for it.
