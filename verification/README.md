# Verified model of the device firmware's stateful components

A Dafny model of the parts of the firmware whose correctness depends on more than one function at a
time, with proofs about whole runs, all inputs and all interleavings.

| files | what they model |
|---|---|
| `CapVisibility`, `CapTypes`, `CapRegister`, `CapRegistration`, `CapWorld`, `CapInvariant`, `CapTheorems`, `CapDrain`, `CapProgress`, `CapLifecycle`, `CapCallbacks`, `CapStartAll`, `CapAdvertise`, `CapExposure`, `CapAdmission`, `CapRegistry` | the capability registry, `components/claw_cap/src/claw_cap.c` |
| `HttpPool`, `HttpWorld`, `HttpInvariant`, `HttpTheorems`, `HttpEviction`, `HttpMatching`, `HttpWrappers`, `HttpReuse` | the HTTP connection reuse pool, `components/http_reuse/esp_http_client_reuse.c` |
| `FeishuVarint`, `FeishuFrame`, `FeishuCodec`, `FeishuHeader`, `FeishuWire` | the Feishu WebSocket frame codec, `components/cap_im_platform/src/cap_im_feishu.c` |
| `Migration`, `MigrationTable` | the migration of the legacy language-model settings, `components/app_config/app_config.c` |
| `QqReassembly`, `DedupRing` | inbound fragments and duplicate messages, `components/cap_im_platform/src/cap_im_qq.c` |
| `BlockPadding`, `PercentCoding` | upload padding and percent-encoding, `components/cap_im_platform/src/cap_im_wechat.c`, `components/official_http_server/http_server_utils.c` |

`dafny verify dfyconfig.toml` checks the whole project.

**How state is modelled.** The registry and the pool appear twice. `CapWorld` and `HttpWorld` are state
machines: one step per region that runs under the lock and per callback or client call outside it, in
any order, so that every interleaving the lock allows is a run. A step that is not possible where it is
tried leaves the state alone. The classes `Registry` and `ReuseLayer` hold the same tables as fields and
update them with the loops of the source; each method for a region or callback is proved to be one step of
the state machine and each whole operation of `Registry` a run of it, so what is proved of all runs holds of the
methods. `HttpWrappers` puts the steps of the HTTP wrappers together in the same way. The other components are classes or array
methods proved against a specification function, with the theorems stated about that function.

**Where the answers are pinned.** Laws such as a round trip hold of more than one format, and a method
proved equal to a function says no more than the function. So for each part there are also theorems that say
what comes out in terms of the inputs alone: `CapAdmission` (who may call what, from the descriptor's fields
and the configured lists), `CapRegistration` (what is accepted and left behind), `CapCallbacks` (which callbacks
run, in which order), `HttpMatching` (which handle serves which endpoint), `FeishuWire` (tags and bytes),
`MigrationTable` (the presets and every key), and the sections on single bytes, messages and events in
`BlockPadding`, `PercentCoding`, `DedupRing` and `QqReassembly`.

**What comes from outside.** Callback results, allocation results, socket health, real client calls, the
choice of tick and the order of steps are parameters of the steps. Administrative operations on the
registry run one at a time, while any number of calls come and go between their steps. A call is
identified by a non-zero 32-bit number (the address of its stack frame), which is why its 32-bit
counter provably cannot wrap. Applications use an HTTP handle from one task at a time and clean it up
once. The block cipher is any permutation of 16-byte blocks.

**Promises that do not hold as they stand**, each with inputs that show it and the exact condition:

- A tool listed for an agent can be impossible to call by its name, because registration lets one
  descriptor's id equal another's name: `ShadowedTool` is one registration after which it happens.
  `AdvertisedIsAdmittedIff` gives the exact condition.
- The eviction loop compares raw 32-bit tick values. `RecentEvicted` is, for every pool size and timeout a
  build can have and with the reaper on time, a reachable state in which, after a wrap, it evicts one of the
  more recent connections. It also starts its search from the largest tick value: `NothingEvicted` is such a
  state in which all connections of a full pool carry that value, so none is evicted and the connection coming
  back is destroyed. `VictimLeastRecentIff` and `EvictionExact` give the exact condition for both.
- If power is lost between the two erases of the migration, the next start can fill settings from a
  provider that an unknown profile had hidden: `HidingStore` is such a store, `CrashConvergesIff` gives the
  exact condition.
- A message whose id hashes to zero counts as seen until 64 other messages have been accepted (`ZeroKey` has
  the exact condition). The id "j-sECsu2660-" does (`ZeroIdHash`), so a QQ client that has just started drops a
  message with this id as a duplicate (`FirstMessageLost`). `HashZeroIff` says which ids do. QQ ids are any
  JSON strings; whether one of WeChat's, which are decimal numbers, does is not shown.

## Model

| member | source | states |
|---|---|---|
| CapTheorems.SlotGraphAlways | components/claw_cap/src/claw_cap.c:1122-1257 | in every reachable state each occupied descriptor slot is listed by exactly one occupied group, points back to it, has its state, and has an id and a name of its own; occupied groups have ids of their own; free descriptor and group slots are zero |
| CapTypes.ListedExactlyOnce | components/claw_cap/src/claw_cap.c:1192-1257 | the listing group and the position in its member list are unique |
| CapInvariant.ApplyKeeps | components/claw_cap/src/claw_cap.c:1192-1868 | every step of every operation and call keeps the slot graph, the call counts and the relation between a group's state and where the running operation stands |
| CapTheorems.AccountingAlways | components/claw_cap/src/claw_cap.c:1823-1868 | in every reachable state a slot's counter is the number of calls in flight on it, below 2^32; a free slot has none; and the guards around the decrement are true for every call in flight |
| CapInvariant.GuardsHold | components/claw_cap/src/claw_cap.c:1860-1867 | a call that returns finds its slot in range, occupied and with a positive counter |
| CapTheorems.CallPinsSlot | components/claw_cap/src/claw_cap.c:1852-1868 | across any run that does not finish the call, its slot index keeps the descriptor that admitted it, through growth, clearing and reuse of other slots |
| CapTheorems.StepPinsSlot | components/claw_cap/src/claw_cap.c:1122-1136 | no single step frees or reassigns a slot with a call in flight |
| CapTheorems.FreedOnlyAtZero | components/claw_cap/src/claw_cap.c:1603-1632 | a slot is freed only by the unload of its own group, with no call in flight on any member |
| CapTheorems.UnloadingIsQuiet | components/claw_cap/src/claw_cap.c:1608-1632 | throughout an unload, its stop callbacks included, no call is in flight on the group |
| CapTheorems.BusyIffCalls | components/claw_cap/src/claw_cap.c:1105-1120 | the wait loop's test is true exactly when some call is in flight on the group |
| CapTheorems.GroupSumIsCalls | components/claw_cap/src/claw_cap.c:1105-1120 | the sum of the members' counters is the number of calls in flight on the group |
| CapTheorems.NoCallWhileDraining | components/claw_cap/src/claw_cap.c:591-597 | a disabled, draining or unloading group is given no new call, whoever the caller is |
| CapTheorems.DrainShrinks | components/claw_cap/src/claw_cap.c:1591-1632 | while unregister waits, no step adds a call to the group and finishing a call removes exactly that one |
| CapTheorems.DrainProgress | components/claw_cap/src/claw_cap.c:1591-1632 | throughout the wait the calls left are those it started with that have not finished |
| CapTheorems.DrainEnds | components/claw_cap/src/claw_cap.c:1603-1626 | once all those calls have finished the next turn unloads the group; before that it goes on exactly while time remains |
| CapDrain.DrainToRelease | components/claw_cap/src/claw_cap.c:1567-1635 | over every run, through wait, timeout, other operations and a second unregister, a group marked by unregister either is still there, unchanged and on its way out, with exactly its unfinished calls left, or was released after all of them had finished |
| CapDrain.StepKeepsDeparting | components/claw_cap/src/claw_cap.c:1567-1635 | no single step gets such a group back or gives it a call; only its own unload releases it |
| CapDrain.TimedOutStaysDraining | components/claw_cap/src/claw_cap.c:1621-1624 | after a timeout the group stays draining whatever runs, until unregister is called for it again |
| CapProgress.OperationsFinish | components/claw_cap/src/claw_cap.c:1433-1632 | over every run, whatever calls come and go, an operation is at rest after a bounded number of its moves, turns that wait for calls left aside |
| CapProgress.OperationsEnd | components/claw_cap/src/claw_cap.c:1433-1632 | every single move shrinks what remains, except a turn of the wait loop on a busy group with time left |
| CapProgress.OthersDoNotDelay | components/claw_cap/src/claw_cap.c:1807-1868 | calls and visibility changes in between do not add to what remains |
| CapTheorems.RestingStates | components/claw_cap/src/claw_cap.c:1433-1483 | between operations no group is unloading; while the registry is started none is merely registered; while it is stopped none is started; members share the group's state |
| CapProgress.StartAllOutcome | components/claw_cap/src/claw_cap.c:1433-1458 | whatever calls run meanwhile, start_all on a stopped registry ends with it started and every group started, disabled or draining |
| CapProgress.StopAllOutcome | components/claw_cap/src/claw_cap.c:1460-1483 | whatever calls run meanwhile, stop_all ends with the registry stopped and every group registered, disabled or draining |
| CapLifecycle.InitOncePerRegistration | components/claw_cap/src/claw_cap.c:1030-1069 | over every run, after a successful init the same slot gets another init callback only if a descriptor was registered there in between |
| CapLifecycle.StartFollowsInit | components/claw_cap/src/claw_cap.c:1030-1069 | every start callback of a descriptor with an init comes after that init succeeded in the same registration |
| CapLifecycle.StartedMeansStartsSucceeded | components/claw_cap/src/claw_cap.c:1485-1530 | a group seen started outside an enable had its own and all members' start callbacks succeed in its latest enable |
| CapCallbacks.StopPhaseRuns | components/claw_cap/src/claw_cap.c:1071-1103 | over every run, between the start and the end of the stop phase of a disable or unregister exactly one stop runs for each member that has one, from the last to the first, then the group's own, and nothing else |
| CapCallbacks.StartPhaseRuns | components/claw_cap/src/claw_cap.c:1030-1069 | over every run, an enable runs the group's start, then for each member in order its init, unless it has succeeded, and its start: all of them successfully, or up to the first failure |
| CapStartAll.StartAllSkipsDisabled | components/claw_cap/src/claw_cap.c:1433-1458 | a group that is disabled when start_all begins is disabled at its end, and no enable of it begins |
| CapRegister.ValidateFromIff | components/claw_cap/src/claw_cap.c:971-1005 | the validation loop accepts exactly the lists with usable descriptors that clash neither with each other nor with the registry |
| CapRegister.CapacitySuffices | components/claw_cap/src/claw_cap.c:1192-1257 | once the allocations succeed registration always succeeds or reports the group's own init failure: the out-of-slots branches are unreachable |
| CapRegister.EnsuredSuffices | components/claw_cap/src/claw_cap.c:856-969 | growth keeps every slot at its index, zeroes the new ones and leaves at least the free slots asked for |
| CapRegister.FillEnlists | components/claw_cap/src/claw_cap.c:1236-1251 | the registration loop hands distinct, formerly free slots to the descriptors in order and touches no other slot |
| CapRegister.RegisterKeepsGraph | components/claw_cap/src/claw_cap.c:1192-1257 | whichever way registration ends, the slot graph holds and everything registered before is where it was, unchanged |
| CapRegistration.RegisterIff | components/claw_cap/src/claw_cap.c:720-1005 | with memory, a group is registered exactly when its id is given and not in use, it has descriptors, each has an id and a name that no registered or other descriptor has and something to execute if the model may call it, and its init succeeds |
| CapRegistration.FirstFaultDecides | components/claw_cap/src/claw_cap.c:971-1005 | the first faulty descriptor decides: invalid argument if it is incomplete, invalid state if its id or name is taken |
| CapRegistration.NoMemory | components/claw_cap/src/claw_cap.c:856-1225 | without memory for a full table or for the member list the group is refused with that error |
| CapRegistration.RegisteredAs | components/claw_cap/src/claw_cap.c:1218-1251 | the group takes a free slot and its descriptors the lowest free slots in order, each registered, with no init done and no call counted |
| CapVisibility.TableIsLastList | components/claw_cap/src/claw_cap.c:1302-1389 | for every history of updates the session table answers each session with the last list it was given, or nothing if that was empty |
| CapVisibility.UpdatedLookup | components/claw_cap/src/claw_cap.c:1302-1389 | an update changes the answer for its own session only |
| CapVisibility.SessionTable.Find | components/claw_cap/src/claw_cap.c:278-294 | the search returns the session's first row, or none when there is none |
| CapVisibility.SessionTable.ShiftDown | components/claw_cap/src/claw_cap.c:1302-1389 | removal closes the gap in place and keeps the order of the rest |
| CapVisibility.SessionTable.Grow | components/claw_cap/src/claw_cap.c:1302-1389 | growth keeps every row at its index |
| CapVisibility.SessionTable.Set | components/claw_cap/src/claw_cap.c:1302-1389 | the array operation is the specified update, with its error cases |
| CapAdvertise.AdvertisedIsAdmitted | components/claw_cap/src/claw_cap.c:340-387 | when no id is another's name, the tools listed for an agent are exactly the descriptors its calls are admitted to, by name or by id |
| CapAdvertise.AdvertisedIsAdmittedIff | components/claw_cap/src/claw_cap.c:340-387 | in general this holds of calls by name if and only if no listed tool's name is an earlier descriptor's id |
| CapAdvertise.NameReachesSlot | components/claw_cap/src/claw_cap.c:758-779 | a search for a descriptor's name finds it exactly when no earlier descriptor has that name as id |
| CapAdvertise.ToolsAreTheAdmissibleWords | components/claw_cap/src/claw_cap.c:1823-1851 | every listed name is admitted and every admitted word leads to a listed tool |
| CapAdvertise.CallersAreOrdered | components/claw_cap/src/claw_cap.c:605-634 | what a sub-agent may call an agent may, and what an agent may call any other caller may |
| CapExposure.ShadowedTool | components/claw_cap/src/claw_cap.c:758-812 | a registry reached by one registration in which a listed tool is refused when called by its name |
| CapExposure.VisibleAsConfigured | components/claw_cap/src/claw_cap.c:655-688 | after every run a group is visible to a session exactly as the global list and the session's list that the run set last say |
| CapExposure.ListsAreReplayed | components/claw_cap/src/claw_cap.c:1279-1389 | in every run the session rows are those of its accepted updates, and nothing else touches them or the global list |
| CapAdmission.AgentCallIff | components/claw_cap/src/claw_cap.c:605-688 | after any run an agent's call lands on a slot exactly when that is the first one with the word as id or name, is registered or started, has something to execute, is callable or hybrid, may be called by the model, is not kept from a sub-agent that calls, and its group is shown by the lists configured last |
| CapAdmission.OtherCallIff | components/claw_cap/src/claw_cap.c:1823-1856 | any other caller's lands there exactly when that slot is registered or started and has something to execute |
| CapAdmission.ToolsAre | components/claw_cap/src/claw_cap.c:340-388 | after any run the tool list names exactly the slots with those fields, in slot order |
| CapRegistry.Registry.FindCapSlot | components/claw_cap/src/claw_cap.c:758-779 | the loop finds the first slot that answers to the word as id or name |
| CapRegistry.Registry.Conflicts | components/claw_cap/src/claw_cap.c:794-812 | the loop finds a clash exactly when there is one |
| CapRegistry.Registry.Validate | components/claw_cap/src/claw_cap.c:971-1005 | the nested loops return the specified error, or none |
| CapRegistry.Registry.CountCaps | components/claw_cap/src/claw_cap.c:814-840 | the loops count free and used slots |
| CapRegistry.Registry.EnsureCapCapacity | components/claw_cap/src/claw_cap.c:856-908 | the grown table is the specified one, or nothing changes |
| CapRegistry.Registry.EnsureGroupCapacity | components/claw_cap/src/claw_cap.c:910-969 | the same for groups |
| CapRegistry.Registry.SetState | components/claw_cap/src/claw_cap.c:1007-1028 | the group and exactly its members take the new state |
| CapRegistry.Registry.HasActiveCalls | components/claw_cap/src/claw_cap.c:1105-1120 | true exactly when a member is busy |
| CapRegistry.Registry.ClearGroup | components/claw_cap/src/claw_cap.c:1122-1136 | the group and exactly its members become zero |
| CapRegistry.Registry.HandOutSlots | components/claw_cap/src/claw_cap.c:1236-1251 | the loop is the specified assignment of slots, stopping at the first missing one |
| CapRegistry.Registry.Register | components/claw_cap/src/claw_cap.c:1192-1257 | registration as one step of the state machine, with its error |
| CapRegistry.Registry.CheckCall | components/claw_cap/src/claw_cap.c:1823-1851 | the error for every caller, and the fields of the slot found for which there is none |
| CapRegistry.Registry.AdmitCall | components/claw_cap/src/claw_cap.c:1823-1856 | the first locked region of a call: counted exactly when admitted |
| CapRegistry.Registry.FinishCall | components/claw_cap/src/claw_cap.c:1860-1868 | the second locked region: the counter of the admitted slot goes down by one |
| CapRegistry.Registry.AuthorizeSlot | components/claw_cap/src/claw_cap.c:605-634 | the order of the authorisation tests; they all pass exactly for these fields of the descriptor |
| CapRegistry.Registry.GroupIsVisible | components/claw_cap/src/claw_cap.c:655-688 | visibility read from the array of sessions |
| CapRegistry.Registry.BuildTools | components/claw_cap/src/claw_cap.c:340-388 | the loop lists the authorised names in slot order |
| CapRegistry.Registry.SetSessionGroups | components/claw_cap/src/claw_cap.c:1302-1389 | the update of one session as a step, or an error and no change |
| CapRegistry.Registry.EnableRegion | components/claw_cap/src/claw_cap.c:1497-1516 | the first locked region of enable |
| CapRegistry.Registry.StartCallbackAt | components/claw_cap/src/claw_cap.c:1030-1069 | one callback of the start phase; a failure ends the phase and only a successful init is remembered |
| CapRegistry.Registry.ServeCalls | components/claw_cap/src/claw_cap.c:1807-1868 | any sequence of calls beginning and ending is the corresponding run of the state machine |
| CapRegistry.Registry.RunStartCallbacks | components/claw_cap/src/claw_cap.c:1030-1069 | the callback loop, with calls coming and going between callbacks, leaves the group started if all succeed and disabled otherwise, and is a run of the state machine |
| CapRegistry.Registry.EnableEndRegion | components/claw_cap/src/claw_cap.c:1518-1529 | the last locked region of enable, with rollback after a failure |
| CapRegistry.Registry.EnableGroup | components/claw_cap/src/claw_cap.c:1485-1530 | a whole enable, with calls coming and going between its callbacks and regions, is a run from rest to rest; each error has its cause, and success and failure leave the group in the state promised, with all its start callbacks run or those up to the first failure |
| CapRegistry.Registry.RegisterAndEnable | components/claw_cap/src/claw_cap.c:1404-1431 | a whole registration, which goes on to enable the group in a started registry |
| CapRegistry.Registry.DisableRegion | components/claw_cap/src/claw_cap.c:1532-1565 | the locked region of disable |
| CapRegistry.Registry.EndDisable | components/claw_cap/src/claw_cap.c:1532-1565 | the return from disable after its stop callbacks |
| CapRegistry.Registry.StopCallbackAt | components/claw_cap/src/claw_cap.c:1071-1103 | one callback of a stop phase, as a step; it fails exactly when a callback ran and reported an error |
| CapRegistry.Registry.DrainRegion | components/claw_cap/src/claw_cap.c:1581-1601 | unregister closes the group, and rejects only the unloading state |
| CapRegistry.Registry.PollRegion | components/claw_cap/src/claw_cap.c:1603-1626 | one turn of the wait loop |
| CapRegistry.Registry.ClearRegion | components/claw_cap/src/claw_cap.c:1630-1634 | the last locked region of unregister |
| CapRegistry.Registry.RunStopCallbacks | components/claw_cap/src/claw_cap.c:1071-1103 | the callback loop, with calls in between, logs the stop of every member that has one, last to first, then the group's, and reports an error exactly when one of them failed |
| CapRegistry.Registry.DisableGroup | components/claw_cap/src/claw_cap.c:1532-1565 | a whole disable, with calls in between; all stop callbacks run, last to first, and the group ends disabled even when one fails |
| CapRegistry.Registry.WaitForCalls | components/claw_cap/src/claw_cap.c:1603-1626 | the wait loop ends, to unload exactly when no call is left, with the calls that finished gone and no other |
| CapRegistry.Registry.UnregisterGroup | components/claw_cap/src/claw_cap.c:1567-1635 | a whole unregister, for any timeout, traffic and callback results: the slot is free and every call that was in flight has finished, or it timed out with the group draining and exactly the unfinished calls left; once freed all its stop callbacks have run, and it fails exactly when one of them did |
| CapRegistry.Registry.StartAllTurn | components/claw_cap/src/claw_cap.c:1433-1458 | one turn of the start_all loop |
| CapRegistry.Registry.StopAllTurn | components/claw_cap/src/claw_cap.c:1460-1483 | one turn of the stop_all loop |
| CapRegistry.Registry.StartAllGroups | components/claw_cap/src/claw_cap.c:1433-1458 | a whole start_all, with the enables it calls and any traffic, ends started with every group started, disabled or draining; those disabled before stay disabled and are not enabled meanwhile |
| CapRegistry.Registry.StopAllGroups | components/claw_cap/src/claw_cap.c:1460-1483 | a whole stop_all ends stopped with every group registered, disabled or draining, and never reports an error |
| HttpInvariant.ApplyKeeps | components/http_reuse/esp_http_client_reuse.c:286-713 | every step keeps pool, lease list, ledger of handles, request counts and time stamps in agreement |
| HttpTheorems.PoolConservation | components/http_reuse/esp_http_client_reuse.c:499-713 | in every reachable state every live handle is in exactly one place, pool clients are distinct, pool and leases are disjoint, a node is leased exactly while someone uses the handle, and the pool is within its limit |
| HttpTheorems.OthersCannotTouch | components/http_reuse/esp_http_client_reuse.c:286-490 | reaping, eviction and work on other handles leave a handle that is not idle where it is |
| HttpTheorems.HeldNeverDestroyed | components/http_reuse/esp_http_client_reuse.c:286-490 | no step destroys a handle an application holds, and it leaves the application's hands only through its own perform or cleanup |
| HttpTheorems.DestroyedOnce | components/http_reuse/esp_http_client_reuse.c:273-284 | over every run each destruction answers one creation |
| HttpTheorems.RetryAtMostOnce | components/http_reuse/esp_http_client_reuse.c:616-647 | over a lease the real perform runs as often as the application asked, plus at most once, and only after a pool hit |
| HttpTheorems.OnlyAHitRearms | components/http_reuse/esp_http_client_reuse.c:325-360 | only a new pool hit on the handle allows another retry |
| HttpTheorems.EntersPoolPerformed | components/http_reuse/esp_http_client_reuse.c:680-711 | a new handle enters the pool only at its cleanup and only if the application performed on it in that lease |
| HttpPool.ReapShrinks | components/http_reuse/esp_http_client_reuse.c:286-314 | reaping removes only idle clients, each once, and changes no other node |
| HttpTheorems.ReapedConcat | components/http_reuse/esp_http_client_reuse.c:286-314 | reaping keeps the order of the list |
| HttpPool.ElapsedIsAge | components/http_reuse/esp_http_client_reuse.c:286-314 | the wrapped tick difference is the true age below 2^32 ticks |
| HttpTheorems.ReapIsExact | components/http_reuse/esp_http_client_reuse.c:286-314 | with true ages below 2^32 a reap removes exactly the idle handles that have reached the timeout |
| HttpTheorems.IdleAgeBounded | components/http_reuse/esp_http_client_reuse.c:73-89 | if the reaper has always run within the last P ticks and timeout + P is below 2^32, no idle handle gets older than timeout + P, however often the counter wraps |
| HttpPool.ScanIs | components/http_reuse/esp_http_client_reuse.c:451-473 | the victim is the first idle node with the least tick value, and none when every idle node has the largest |
| HttpPool.OldestNoneIff | components/http_reuse/esp_http_client_reuse.c:451-473 | there is no victim exactly when every idle node carries the largest tick value |
| HttpPool.MakeRoomShrinks | components/http_reuse/esp_http_client_reuse.c:451-473 | eviction ends, removes only idle clients, and succeeds exactly when the pool is then below its limit |
| HttpPool.MakeRoomIsMinimal | components/http_reuse/esp_http_client_reuse.c:451-473 | it evicts no more clients than it must |
| HttpEviction.VictimIsLeastRecent | components/http_reuse/esp_http_client_reuse.c:451-473 | before the first wrap the victim is a least recently updated idle handle |
| HttpEviction.RecentEvicted | components/http_reuse/esp_http_client_reuse.c:451-473 | for every pool size from two and timeout from three ticks on (builds have at least four and five seconds), a state reached with the reaper on time in which a handle coming back destroys a more recent one than another that stays |
| HttpEviction.NothingEvicted | components/http_reuse/esp_http_client_reuse.c:451-477 | for every pool size and timeout above zero, a state reached with the reaper on time in which the pool is full of idle handles and there is no victim, so that the next connection coming back is destroyed |
| HttpEviction.VictimLeastRecentIff | components/http_reuse/esp_http_client_reuse.c:451-473 | with idle handles less than 2^32 ticks apart, a victim is found and is least recent if and only if no wrap lies between their updates and one of them does not carry the largest tick value |
| HttpEviction.EvictionExact | components/http_reuse/esp_http_client_reuse.c:444-473 | the same at the end of every run with a timely reaper, before and after the reap that precedes eviction |
| HttpEviction.LeaveEvicts | components/http_reuse/esp_http_client_reuse.c:444-490 | a handle coming back to a full pool takes the victim's place, or is on its way to destruction when there is no victim |
| HttpMatching.HitIff | components/http_reuse/esp_http_client_reuse.c:253-360 | a pooled handle is handed out exactly when, after the reap, it is the first idle one with the target's transport, port and host up to ASCII case, and its connection is healthy; its node keeps its endpoint |
| HttpMatching.HitIsFresh | components/http_reuse/esp_http_client_reuse.c:325-360 | and only if it was idle for less than the timeout |
| HttpMatching.UnhealthyIsDestroyed | components/http_reuse/esp_http_client_reuse.c:325-360 | if its connection is broken it is removed and destroyed |
| HttpMatching.NodeEndpoint | components/http_reuse/esp_http_client_reuse.c:444-490 | over every run the endpoint of a pooled handle is one given when it came back to the pool |
| HttpMatching.StepKeepsEndpoint | components/http_reuse/esp_http_client_reuse.c:286-490 | no step changes the endpoint of a handle in the pool |
| HttpWrappers.OthersLeaveAlone | components/http_reuse/esp_http_client_reuse.c:286-490 | a step of another task, the reaper or the clock changes nothing about a handle that is not idle: its place, node, lease entry and counts |
| HttpWrappers.WholePerform | components/http_reuse/esp_http_client_reuse.c:616-647 | a whole perform, with any steps of others in between: the request runs once, and a second time exactly when it failed on a connection still armed by its pool hit |
| HttpWrappers.WholeCleanup | components/http_reuse/esp_http_client_reuse.c:649-713 | a whole cleanup, with any steps of others in between: when the handle ends idle in the pool, and that it is dead otherwise |
| HttpWrappers.WholeInitHit | components/http_reuse/esp_http_client_reuse.c:528-588 | a whole init that hits the pool: the handle has the target's transport, port and host and its lease begins armed, or it is dead when its url could not be set |
| HttpWrappers.WholeInitNew | components/http_reuse/esp_http_client_reuse.c:590-614 | a whole init that makes a handle: outside the pool, with a lease entry exactly when memory allows |
| HttpReuse.ReuseLayer.ReapIdle | components/http_reuse/esp_http_client_reuse.c:286-314 | the list loop removes and destroys what the specification says, in order |
| HttpReuse.ReuseLayer.FindVictim | components/http_reuse/esp_http_client_reuse.c:451-473 | the scan loop |
| HttpReuse.ReuseLayer.Evict | components/http_reuse/esp_http_client_reuse.c:451-473 | the eviction loop |
| HttpReuse.ReuseLayer.Take | components/http_reuse/esp_http_client_reuse.c:325-360 | a pool hit has the target's transport, port and host and becomes the caller's, an unhealthy one is destroyed |
| HttpReuse.ReuseLayer.DetachAndDestroy | components/http_reuse/esp_http_client_reuse.c:424-442 | a pool hit that cannot be pointed at the url is removed and destroyed |
| HttpReuse.ReuseLayer.TrackLease | components/http_reuse/esp_http_client_reuse.c:384-402 | a new handle gets one lease entry, or none when memory is short |
| HttpReuse.ReuseLayer.RemoveLease | components/http_reuse/esp_http_client_reuse.c:404-422 | the entry is removed and says whether the application performed |
| HttpReuse.ReuseLayer.MarkPerform | components/http_reuse/esp_http_client_reuse.c:616-630 | the first locked region of perform |
| HttpReuse.ReuseLayer.DecideRetry | components/http_reuse/esp_http_client_reuse.c:632-646 | the second locked region: at most one retry, only after a pool hit |
| HttpReuse.ReuseLayer.CleanupRegion | components/http_reuse/esp_http_client_reuse.c:649-690 | the first locked region of cleanup |
| HttpReuse.ReuseLayer.InsertRegion | components/http_reuse/esp_http_client_reuse.c:444-490 | insertion after reaping and eviction, or an error and no insertion |
| FeishuVarint.VarintRoundTrip | components/cap_im_platform/src/cap_im_feishu.c:678-695 | reading what was written for any 64-bit value, anywhere in a buffer, gives the value and the position after it; at most 10 bytes |
| FeishuVarint.ReadFits | components/cap_im_platform/src/cap_im_feishu.c:678-695 | on any bytes the reader yields only 64-bit values |
| FeishuCodec.RoundTrip | components/cap_im_platform/src/cap_im_feishu.c:773-954 | parsing the encoding of any frame the struct can hold, with any payload, returns that frame |
| FeishuCodec.HeaderParses | components/cap_im_platform/src/cap_im_feishu.c:730-771 | a header without zero bytes that fits its arrays is read back as written |
| FeishuCodec.SignRoundTrip | components/cap_im_platform/src/cap_im_feishu.c:801-810 | negative service and method numbers survive the 64-bit wire form |
| FeishuCodec.SendFrame | components/cap_im_platform/src/cap_im_feishu.c:922-954 | the writer succeeds exactly when the encoding fits the 1024-byte buffer, and then has written the encoding; it says exactly when a payload length wraps its test; the four numbers follow their literal tags |
| FeishuCodec.WriteVarint | components/cap_im_platform/src/cap_im_feishu.c:853-869 | the loop appends the varint exactly when it fits |
| FeishuCodec.WriteBytes | components/cap_im_platform/src/cap_im_feishu.c:871-887 | a length-delimited field is appended exactly when it fits; position plus length wrapping 32 bits is an outcome of its own |
| FeishuCodec.WriteHeader | components/cap_im_platform/src/cap_im_feishu.c:903-920 | a nested header is appended exactly when it fits; its own buffer never overflows |
| FeishuVarint.OrIsSum | components/cap_im_platform/src/cap_im_feishu.c:686 | OR-ing in seven bits shifted past those already read adds them |
| FeishuCodec.ReadVarintLoop | components/cap_im_platform/src/cap_im_feishu.c:678-695 | the reading loop, with its bitwise or, is the specified reader on every input |
| FeishuCodec.SkipFieldAt | components/cap_im_platform/src/cap_im_feishu.c:697-728 | skipping by wire type is as specified on every input |
| FeishuCodec.ParseHeaderLoop | components/cap_im_platform/src/cap_im_feishu.c:730-771 | the header loop is the specified reader on every input |
| FeishuCodec.ParseFrameLoop | components/cap_im_platform/src/cap_im_feishu.c:773-834 | the frame loop is the specified reader on every input |
| FeishuFrame.ParseConcat | components/cap_im_platform/src/cap_im_feishu.c:773-834 | parsing a concatenation is continuing the parse from the first part's frame |
| FeishuFrame.SpliceUnknown | components/cap_im_platform/src/cap_im_feishu.c:697-728 | an unknown field of any skippable wire type at a field boundary leaves the parsed frame unchanged |
| FeishuFrame.UnknownIgnored | components/cap_im_platform/src/cap_im_feishu.c:826-830 | reading an unknown field on its own changes nothing |
| FeishuFrame.OtherNumbersQualify | components/cap_im_platform/src/cap_im_feishu.c:788-830 | every number below 2^29 other than 1 to 5 and 8 counts as unknown |
| FeishuFrame.LastOneWins | components/cap_im_platform/src/cap_im_feishu.c:773-834 | each scalar and the payload depend on the bytes alone if the bytes set them, and on the starting frame otherwise |
| FeishuFrame.HeadersAppend | components/cap_im_platform/src/cap_im_feishu.c:811-818 | headers append to those already there, up to 16 |
| FeishuHeader.HeaderConcat | components/cap_im_platform/src/cap_im_feishu.c:730-771 | reading a header's bytes in two parts is continuing with the second from the first part's header |
| FeishuHeader.SpliceInHeader | components/cap_im_platform/src/cap_im_feishu.c:730-771 | an unknown field at a field boundary inside a header leaves the header read from it unchanged |
| FeishuHeader.SpliceNested | components/cap_im_platform/src/cap_im_feishu.c:811-818 | and so the frame the header is nested in |
| FeishuWire.ReadVarintIff | components/cap_im_platform/src/cap_im_feishu.c:678-695 | the reader takes at most ten bytes, all but the last with the high bit set, as the number their groups of seven bits carry, modulo 2^64; it fails exactly when the next ten all have it set |
| FeishuWire.VarintIs | components/cap_im_platform/src/cap_im_feishu.c:853-869 | a value is written as the shortest such bytes that carry it |
| FeishuWire.ScalarTags | components/cap_im_platform/src/cap_im_feishu.c:788-810 | a varint after the tag of field 1, 2, 3 or 4 sets the sequence id, the log id, the service or the method and nothing else; the last two as 32-bit two's complement |
| FeishuWire.LiteralTags | components/cap_im_platform/src/cap_im_feishu.c:788-810 | the same for the tag bytes 8, 16, 24 and 32 |
| FeishuWire.BytesTags | components/cap_im_platform/src/cap_im_feishu.c:811-825 | bytes after the tag of field 8 are the payload, those of field 5 join the headers as one, up to sixteen |
| FeishuWire.HeaderTags | components/cap_im_platform/src/cap_im_feishu.c:755-767 | inside a header field 1 is the key, cut to 31 bytes, and field 2 the value, cut to 127, both at a zero byte |
| FeishuWire.HeaderCut | components/cap_im_platform/src/cap_im_feishu.c:811-818 | a header that breaks off keeps what was read before |
| FeishuWire.Rejected | components/cap_im_platform/src/cap_im_feishu.c:697-728 | frames with an unended varint, another wire type or too few bytes are malformed |
| FeishuWire.ShortBytes | components/cap_im_platform/src/cap_im_feishu.c:811-825 | so are those with fewer bytes than their length says |
| FeishuWire.SentBytes | components/cap_im_platform/src/cap_im_feishu.c:936-951 | what is sent is tag 8, 16, 24 and 32 with the four numbers, tag 42 with each header as tags 10 and 18, and tag 66 with the payload, in that order |
| Migration.CrashConvergesIff | components/app_config/app_config.c:262-410 | for every store: any sequence of interrupted runs followed by one more ends where a single run ends, if and only if no known provider is hidden by an unknown profile with something left to fill; one interruption is enough to tell |
| Migration.KnownProfileConverges | components/app_config/app_config.c:262-410 | in particular for an empty or known profile |
| Migration.HiddenProviderDiverges | components/app_config/app_config.c:400-407 | with a hidden provider, losing power between the two erases makes the rerun end elsewhere |
| Migration.HidingStore | components/app_config/app_config.c:400-407 | a store with profile "x" and provider "openai" where one run leaves the backend unset and an interrupted one sets it |
| Migration.PlannedRest | components/app_config/app_config.c:262-410 | after any number of commits of a run, the rest of its plan is what the same run would plan anew |
| Migration.UpgradeResult | components/app_config/app_config.c:262-410 | a run that can read everything ends with empty fields filled from the preset, the old backend renamed, the legacy keys absent and every other key present or absent as it was |
| MigrationTable.SevenPresets | components/app_config/app_config.c:102-180 | the seven legacy ids and the eight fallbacks of each |
| MigrationTable.NoOtherPreset | components/app_config/app_config.c:199-215 | no other id has a preset |
| MigrationTable.UpgradeMeans | components/app_config/app_config.c:262-410 | when every value read fits its buffer, what each key ends with, with the literal sizes and names |
| MigrationTable.UpgradeRefused | components/app_config/app_config.c:262-410 | otherwise the run writes nothing |
| Migration.SecondRunIsNoOp | components/app_config/app_config.c:262-410 | a second run commits nothing, for every store |
| Migration.UserValuesSurvive | components/app_config/app_config.c:217-260 | at every point of a run each non-empty setting has its old value, except the backend "anthropic" |
| Migration.SettingsStore.GetString | components/settings/settings_store.c:57-97 | a missing key reads as empty, a value too long for the buffer is an error |
| Migration.SettingsStore.EraseKey | components/settings/settings_store.c:161-193 | erasing a missing key succeeds and commits nothing |
| Migration.SettingsStore.WriteIfEmpty | components/app_config/app_config.c:217-236 | commits the fallback exactly when the value is empty |
| Migration.SettingsStore.ReplaceIfMatch | components/app_config/app_config.c:238-260 | commits the replacement exactly when the value matches |
| Migration.SettingsStore.UpgradeLegacy | components/app_config/app_config.c:262-410 | the code commits the planned writes in order, all of them or as many as there is power for |
| QqReassembly.StreamDelivers | components/cap_im_platform/src/cap_im_qq.c:192-278 | any stream of payloads, each complete or cut short, queues exactly the complete ones, byte for byte and in order, whatever was in progress before |
| QqReassembly.NothingInvented | components/cap_im_platform/src/cap_im_qq.c:192-278 | on any events at all, a queued frame is the whole payload of one event, or every byte of it was sent for its place in a payload of that length |
| QqReassembly.PartFed | components/cap_im_platform/src/cap_im_qq.c:242-277 | what one part of a payload does: it starts, continues exactly where the last one ended, completes or gives up |
| QqReassembly.WholeQueued | components/cap_im_platform/src/cap_im_qq.c:234-240 | a payload that arrives whole is queued, if memory and queue allow, and disturbs none in progress |
| QqReassembly.NotCounted | components/cap_im_platform/src/cap_im_qq.c:227-233 | anything but text with data, or before the queue exists, changes nothing |
| QqReassembly.GapStops | components/cap_im_platform/src/cap_im_qq.c:253-257 | after a gap no frame comes of the rest of that payload |
| QqReassembly.Inbound.HandleData | components/cap_im_platform/src/cap_im_qq.c:224-278 | the code does what the specification says for every event, error and shortage that keeps it inside its buffer; the others are named exactly, and none of them is a part that ends within its payload |
| QqReassembly.Inbound.Append | components/cap_im_platform/src/cap_im_qq.c:258-277 | the part is appended and terminated inside the buffer, and the payload delivered when whole and given up when exceeded |
| DedupRing.SeenIff | components/cap_im_platform/src/cap_im_qq.c:150-169 | a non-zero key is rejected if and only if it is among the last 64 accepted |
| DedupRing.AcceptedAtTurn | components/cap_im_platform/src/cap_im_qq.c:150-169 | the same for each message of any stream |
| DedupRing.AcceptedStaysRejected | components/cap_im_platform/src/cap_im_qq.c:150-169 | an accepted key is rejected while fewer than 64 others have been accepted after it |
| DedupRing.SpacedOut | components/cap_im_platform/src/cap_im_qq.c:150-169 | two acceptances of one key have at least 64 acceptances between them |
| DedupRing.WindowDistinct | components/cap_im_platform/src/cap_im_qq.c:150-169 | non-zero ring entries are pairwise distinct |
| DedupRing.ZeroKey | components/cap_im_platform/src/cap_im_qq.c:150-169 | the key zero counts as seen exactly until 64 keys have been accepted, or while it is recent |
| DedupRing.ZerosRejected | components/cap_im_platform/src/cap_im_qq.c:150-169 | a stream of messages with the key zero is rejected from its first message on |
| DedupRing.HashOf | components/cap_im_platform/src/cap_im_qq.c:133-147 | the loop computes the hash, and the basis for a missing id |
| DedupRing.HashZeroIff | components/cap_im_platform/src/cap_im_qq.c:133-147 | an id hashes to zero exactly when its last byte is the hash of the bytes before it |
| DedupRing.HashIs | components/cap_im_platform/src/cap_im_qq.c:133-147 | the hash starts from its basis and takes the bytes from first to last |
| DedupRing.MixIs | components/cap_im_platform/src/cap_im_qq.c:142-143 | each byte is XORed in and the result multiplied modulo 2^64 |
| DedupRing.ZeroIdHash | components/cap_im_platform/src/cap_im_qq.c:133-147 | the id "j-sECsu2660-" hashes to zero |
| DedupRing.ZeroIdDropped | components/cap_im_platform/src/cap_im_qq.c:150-169 | a message with this id counts as seen exactly until 64 messages have been accepted, or while it is recent |
| DedupRing.FirstMessageLost | components/cap_im_platform/src/cap_im_qq.c:150-169 | the first message after a start, with this id, is reported as seen |
| DedupRing.Ring.CheckAndRecord | components/cap_im_platform/src/cap_im_wechat.c:251-271 | the ring array holds the window of the last 64 accepted keys; an empty id is never recorded |
| BlockPadding.EncryptDecrypts | components/cap_im_platform/src/cap_im_wechat.c:910-985 | decrypting an encryption returns the plaintext, for every plaintext and permutation |
| BlockPadding.DecryptsIffEncrypted | components/cap_im_platform/src/cap_im_wechat.c:910-985 | a ciphertext decrypts if and only if it is some plaintext's encryption, and re-encrypts to itself |
| BlockPadding.AnnouncedSize | components/cap_im_platform/src/cap_im_wechat.c:1953 | the size announced before the upload is the length of the ciphertext |
| BlockPadding.EncryptIs | components/cap_im_platform/src/cap_im_wechat.c:922-962 | under every ciphertext lies the plaintext and k bytes that all equal k, from 1 to 16, up to a multiple of 16 |
| BlockPadding.DecryptIs | components/cap_im_platform/src/cap_im_wechat.c:925-978 | a ciphertext decrypts to a plaintext exactly when its length is a multiple of 16 and that plaintext with such a padding lies under it |
| BlockPadding.MapBlocksAt | components/cap_im_platform/src/cap_im_wechat.c:952-962 | block k of the output is the image of block k |
| BlockPadding.CryptBlocks | components/cap_im_platform/src/cap_im_wechat.c:952-962 | the in-place loop maps every block, or stops at the first the driver refuses |
| BlockPadding.CheckPadding | components/cap_im_platform/src/cap_im_wechat.c:965-978 | the backward loop accepts exactly the buffers that end in k bytes that all equal k, from 1 to 16 |
| BlockPadding.Crypt | components/cap_im_platform/src/cap_im_wechat.c:910-985 | both directions, byte by byte, and the exact cause of every error |
| PercentCoding.RoundTrip | components/official_http_server/http_server_utils.c:26-77 | the server's decoder returns every string the client encodes |
| PercentCoding.EncodedIff | components/cap_im_platform/src/cap_im_wechat.c:1012-1053 | the encoder's outputs are exactly the strings of unreserved characters and upper-case escapes of other bytes, and on them it undoes the decoder |
| PercentCoding.EncodeIsCanonical | components/cap_im_platform/src/cap_im_wechat.c:1032-1046 | the output uses only unreserved characters and escapes and is at most three times as long |
| PercentCoding.EncodeHasNoZero | components/cap_im_platform/src/cap_im_wechat.c:1032-1049 | the output contains no terminator of its own |
| PercentCoding.EncodedAs | components/cap_im_platform/src/cap_im_wechat.c:1032-1046 | letters, digits, '-', '.', '_' and '~' are written as they are, any other byte as '%' and its two upper-case hexadecimal digits |
| PercentCoding.DecodedEscape | components/official_http_server/http_server_utils.c:26-77 | '%' and two hexadecimal digits of either case are read as the byte they name |
| PercentCoding.DecodedByte | components/official_http_server/http_server_utils.c:26-77 | '+' is read as a space, and a byte that begins no escape as itself |
| PercentCoding.EncodeDup | components/cap_im_platform/src/cap_im_wechat.c:1018-1053 | the cursor loop writes the encoding inside its buffer and terminates it |
| PercentCoding.DecodeInPlace | components/official_http_server/http_server_utils.c:26-77 | decoding in place gives what a decoder with its own output buffer would, on every input, and touches nothing past the terminator |

## Left out

- Overlapping administrative operations on one group: enable, disable and unregister keep a slot index across an unlock, so the registry results need them serialised; calls overlap with them freely.
- `claw_cap_register`, which registers through a group held in a local variable: groups are values here.
- Allocation failure between the two halves of an array growth, and of the strings inside a session row or a group copy: growth and copies succeed or do nothing.
- Registry start-up and `initialized` checks, catalogues, listings, snapshots, descriptions cut at 4-byte characters, JSON schemas and the text a call writes to its output.
- Pointers handed out by the registry (execute functions and names read after the unlock): their slot is proved to stay, the callback itself is not modelled.
- CapRegistry.Registry.SetSessionGroups: when the table cannot grow it returns an error and leaves everything unchanged, which is not a step of `CapWorld`.
- The HTTP client behind the reuse layer, endpoint parsing from urls, and resetting method, body and timeouts of a reused handle; an endpoint that cannot be read is a parameter.
- HTTP handles used from two tasks at once or cleaned up twice.
- Feishu lengths whose offset wraps the 32-bit size: the reader stops there with Unmodelled and the writer with WriteWraps, and neither claims anything of what follows.
- FeishuCodec.RoundTrip: key and value must be free of zero bytes and fit their arrays, as C strings in the struct are.
- Feishu message handling above the frame, downloads and attachments.
- Table-driven loading and saving of the other settings; null arguments of the settings functions.
- A store whose commit fails for another reason than lost power: such a run stops at the same places.
- QqReassembly.Inbound.HandleData: stops with Overrun where the code would write past its buffer, on a part that ends past the announced payload and does not fit; it claims nothing of what follows. The WebSocket client reports no such part.
- BlockPadding.Crypt: stops with Unmodelled on decrypting an empty input, where the code looks at the byte before its buffer, and on inputs so near 2^32 bytes that padding wraps the length.
- AES, MD5, base64, JSON, QR codes and login, text chunking, the ring caches for context tokens and pending files.
- The agent loop, event router, scheduler, memory, command line, web pages, display and Wi-Fi set-up.
