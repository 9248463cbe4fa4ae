# Verified model of the studio worker's stateful core

The studio worker is a daemon that loads models on one machine, serves them locally, and takes
jobs from a studio. This project models the parts of it where state, concurrency, failures and
hand-written parsing meet, and proves what those parts promise:

- **The model host** (`Lifecycles`, `Admissions`, `Residencies`, `Hosts`, `HostInvariants`,
  `HostTheorems`, `HostMemory`, `HostAnswers`, `HostSteps`, `HostObject`, `HostRestores`, `GroupRuns`,
  `SwapWaits`, `RestoreRuns`, `RestoredGroups`). One step of the state machine is one critical section under the host's
  `entries` lock, or one step of a detached load, unload or request thread. Runs are arbitrary
  sequences of steps, so every interleaving, every failed save, every time-out, every restart and a
  crash between any two saves of a load is covered. `HostObject` is the host as an object whose
  methods update its fields in place, each proved to take the step of the state machine.
- **Log replication** (`LogRings`): the daemon's bounded ring with sequence numbers and the tray
  UI's copy of it, through evictions, failed polls and daemon restarts.
- **Log shipping** (`LogShipments`): the bounded queue of entries waiting for the studio.
- **The multipart parser** (`MultipartScans`, `Multiparts`, `MultipartForms`, `Texts`,
  `PartHeaders`, `FormRoundTrips`, `MultipartFailures`):
  `multipart/form-data` bodies (section 4 of RFC 7578, delimiters as in section 5.1.1 of RFC 2046)
  over bytes, with the scan proved to accept exactly a grammar of segments, and a printer of forms
  that parsing undoes. A byte is written as the character of the same number; text is what RFC 3629
  encodes.
- **Registration** (`Registrations`): the worker's request for the studio's approval, one step for
  each thing a crash can fall between.
- **Job logs, log files, respawning, restarting, GLB files** (`JobLogs`, `LogTrims`, `Respawns`,
  `ExeWatches`, `Glbs`).

Methods are written in the source's form, with fields updated in place and the source's loops. Each
is proved to compute a function on values; the lemmas are about those functions and about runs of
them.

## Where the code does less than its documentation says

Each names the lemmas that say when the documented claim holds, or what holds instead.

- "At most one member of an exclusive group is `loading` or `loaded`"
  (docs/runtime/model-lifecycle.md:60): it holds at every point of a run exactly if each load that
  goes through comes while no other member is loading, or only one is while the loaded model itself
  is unloading. `GroupRuns.GroupsStayExclusiveIff`, and `HostMemory.SwapOverlaps` for a concrete run.
  What does hold in every state is that two members are never both *live* (loaded, or loading with
  no unload deferred).
- A model that is asked to load while it unloads is marked resident but is not loaded:
  `HostTheorems.LoadTakesEffect`.
- "When the daemon starts it loads every resident model" (docs/runtime/model-lifecycle.md:69), and
  the next start tries again whatever failed: two residents of one exclusive group are possible
  (`RestoredGroups.RivalsCanBeResident`), and then one may take the other's wish away. A start keeps
  all wishes, however its loads, their threads and requests interleave, if and only if no two
  enabled residents share a group: `RestoredGroups.WishesAreKeptIff`. What becomes of each model is
  `RestoreRuns.RestoreKeepsWishes`.
- The accounted memory bound is not kept by swaps: `HostMemory.LoadKeepsBoundIff`. Counting the
  outgoing members as gone it is, unless the device was over-committed before:
  `HostMemory.SwapLoadFits` and `Admissions.SwapFitsIff`.
- "An `after` beyond the newest number answers the whole ring" (src/runtime.rs:229-230): only while
  the ring has dropped nothing; otherwise the subtraction wraps and nothing is answered.
  `LogRings.WholeRingToClientsAheadIff`.
- "The oldest entries are dropped and a warn-level marker records the loss"
  (src/runtime.rs:50-51): markers are themselves dropped, a batch put back into a full queue drops
  without one, and a session that ends while its pump is sending (src/ws/session.rs:586-593) drops
  the batch in flight without one. `LogShipments.MarkersTellAllIff`.
- "Run `studio-worker register --reset`" (src/runtime.rs:868-872) clears the file but not the memory
  of the daemon that says so: it goes on refusing until it is reset itself or started again.
  `Registrations.RefusedUntilReset`.
- A log trim whose copy or truncation fails half-way leaves lines twice, and lines written between
  the two are lost (the latter is documented): `LogTrims.TrimKeepsSuffixIff`.
- When granted credentials cannot be saved the worker does not "re-register from scratch on the
  next restart" (src/auto_register.rs:358): it asks about the same request again, provided that was
  saved. `Registrations.UnsavedApprovalAsksAgain`.

## Model

| member | source | states |
|---|---|---|
| Lifecycles.WorkIsConserved | src/lifecycle.rs:77-145 | Over any sequence of requests and finish events, expected or not: every load begun has ended exactly once unless one is running now, likewise unloads, and an unload is deferred only while loading |
| Lifecycles.Lifecycle.constructor | src/lifecycle.rs:66-71 | A new lifecycle is unloaded with nothing deferred |
| Lifecycles.Lifecycle.AskLoad | src/lifecycle.rs:77-88 | The in-place transition and its command are those of the state machine: a load cancels a deferred unload and is dropped while unloading |
| Lifecycles.Lifecycle.AskUnload | src/lifecycle.rs:91-106 | Likewise: an unload while loading is deferred, a failed model becomes unloaded |
| Lifecycles.Lifecycle.EndLoad | src/lifecycle.rs:109-131 | Likewise: a finish is refused unless loading, and a deferred unload begins when the load ends well |
| Lifecycles.Lifecycle.EndUnload | src/lifecycle.rs:133-145 | Likewise for the end of an unload |
| Admissions.SwapFitsIff | src/host.rs:695-703 | What stays, the newcomer and the margin fit the device for every admitted newcomer of a swap exactly when the device was not over-committed before, or the swap frees less than the margin |
| Residencies.LoadingAgrees | src/residency.rs:32-66 | Loading agrees with the file it leaves, restores exactly what a file of the version says, moves any other readable file away, never touches an unreadable one, and saves later changes exactly with a path to a file that is not unreadable |
| Residencies.SetIsAtomic | src/residency.rs:84-107 | A `set` makes exactly the asked change in memory and file alike, or, exactly when it changes something and its save fails, none; and answers which |
| Residencies.WriteReplaces | src/config.rs:424-440 | The write operations, done to the end, put exactly the new text in place and leave no temporary |
| Residencies.WriteCutOff | src/config.rs:424-440 | Cut off anywhere before the rename they leave the file as it was, and a given-up temporary is gone |
| Residencies.CrashKeepsOldOrNew | src/residency.rs:84-107 | After a crash between any two operations of a persisted `set`, of the process or of the machine (text not flushed counts as lost), the text written in any pieces, a reload gives the set from before or, after the rename, the new one |
| Residencies.UnflushedIsLost | src/config.rs:434-436 | Without the flush a completed write may leave no readable contents |
| Residencies.Residency.Load | src/residency.rs:32-66 | The object starts as loading says, and quarantines a bad file |
| Residencies.Residency.Mark | src/residency.rs:84-107 | The object's `set` persists before it commits |
| HostInvariants.NextKeeps | src/host.rs:317-384 | Every event of the host keeps the invariant that ties lifecycles, threads, weights, lanes, requests, residency and its file together |
| HostInvariants.ExecKeeps | src/host.rs:433-672 | So does every run of events, in any interleaving |
| HostTheorems.OneThreadPerTransition | src/host.rs:614-672 | In every reachable state there is exactly one load thread if loading, exactly one unload thread if unloading and none otherwise; weights are held exactly while loaded or unloading; an unload is deferred only while loading |
| HostTheorems.FinishesAreExpected | src/host.rs:631-637 | Neither "finished in a state that never started it" branch is reachable |
| HostTheorems.LiveModelsAreApartAndResident | src/host.rs:344-376 | In every reachable state two members of an exclusive group are never both live, and every live model is resident in memory and, when persisted, in what a restart restores |
| HostTheorems.FailedLoadChangesLittle | src/host.rs:317-364 | A refused load, or one of an unknown or disabled model, changes nothing; one whose save fails starts nothing and makes nobody live or resident but the model itself resident |
| HostTheorems.LoadTakesEffect | src/host.rs:364-376 | A load that goes through leaves the model resident, answers its state, and leaves it live exactly if it was not unloading |
| HostTheorems.UnloadTakesEffect | src/host.rs:379-385 | An unload either changes nothing, for an unknown model or a failed save, or leaves the model neither live nor resident; other models are untouched |
| HostTheorems.GroupIsExclusiveAfterLoadIff | src/host.rs:323-376 | After a load that goes through at most one member of the group is loading or loaded exactly if no other was loading before, or only one was and the model was unloading |
| GroupRuns.GroupsStayExclusiveIff | src/host.rs:323-376 | Along every run, at most one member of every exclusive group is loading or loaded at all points if and only if every load that goes through comes when no other member of its group is loading, or only one is and the model is unloading |
| GroupRuns.OnlyLoadsStart | src/host.rs:323-385 | No other event, and no load that fails, makes a model loading or loaded that was neither |
| SwapWaits.LoadStartsThread | src/host.rs:369-376 | A load that goes through for a model not loaded starts a thread that is to wait for exactly the models it swaps out |
| SwapWaits.SwapsWait | src/host.rs:588-611 | In every run a load thread has ended its wait for each outgoing model, seeing it unloaded or failed or timing out, before it asks the engine for its own |
| SwapWaits.IncomingLoadWaits | src/host.rs:588-611 | Unless one of its waits timed out, every model the load swapped out was unloaded or failed at some point between the load and the engine's turn |
| HostTheorems.OneClosurePerLane | src/host.rs:433-455 | In every reachable state a lane runs at most one closure |
| HostTheorems.ClosuresStartOnCurrentWeights | src/host.rs:457-482 | A closure that starts runs on its model's current handle, however long ago it was looked up |
| HostTheorems.ReloadGetsFreshLane | src/host.rs:614-625 | A load that ends well gives the model a new lane, free, uncancelled and unknown to every request, serving the weights just loaded |
| HostTheorems.NoClosureStartsOnCancelled | src/host.rs:457-470 | No step starts a closure on a cancelled lane or clears its flag |
| HostTheorems.DrainedLaneNeverServes | src/host.rs:641-660 | After an unload whose drain got the lane's mutex nothing runs on that lane, then or ever after, not even a request that took its handle before |
| HostTheorems.LoadedIsServed | src/host.rs:472-482 | In every reachable state a new request for a model is given exactly the model's current weights and lane if and only if the model is loaded, and otherwise changes nothing |
| HostTheorems.FreeLaneRuns | src/host.rs:433-470 | A request that finds its lane's mutex free takes it and runs, or, if the lane is cancelled, is over and gives it back |
| HostTheorems.ReloadedServes | src/host.rs:614-625 | After a load that ends well with no unload deferred, a request that comes next runs on the weights just loaded |
| HostAnswers.AnswerOfUnknown | src/host.rs:318 | A load of a model that is not in the catalogue is answered so and changes nothing |
| HostAnswers.LoadAnswers | src/host.rs:317-376 | What a load answers, for any catalogue, state and probe: disabled; or, for a model unloaded or failed, refused, with both numbers, exactly if its estimate and the margin exceed the memory measured, or else the total less the estimates of all loading, loaded and unloading models, with the estimates of the members it swaps out added, or if nothing is known; or that a save failed, exactly if one does; or that it went through |
| HostAnswers.LoadEffect | src/host.rs:364-376 | What a load that goes through does to every model: residency, state, weights and deferred unload, in terms of the states before |
| HostAnswers.UnloadEffect | src/host.rs:379-385 | What an unload answers and does to every model, in terms of the states before |
| HostSteps.EndWaitIs | src/host.rs:588-608 | A load thread goes on behind an outgoing model exactly if that is unloaded or failed, or after a time-out |
| HostSteps.EndGoodLoadIs | src/host.rs:614-630 | The end of a good load installs its weights behind a new lane, leaves the model loaded, or unloading by a new thread if that was deferred, and touches nothing else |
| HostSteps.EndBadLoadIs | src/host.rs:614-630 | The end of a bad load leaves the model failed for that reason, without weights, whatever was deferred |
| HostSteps.RaiseCancelIs | src/host.rs:641-648 | An unload thread raises the flag of its model's current lane and of no other |
| HostSteps.EndDrainIs | src/host.rs:648-655 | It goes on exactly when nobody holds that lane's mutex, or after a time-out |
| HostSteps.EndUnloadIs | src/host.rs:655-671 | At last the model is unloaded and without weights, and nothing else changes |
| HostSteps.LockLaneIs | src/host.rs:433-455 | A request takes a free lane's mutex; for a busy one it waits or gives up as it was asked |
| HostSteps.CheckCancelIs | src/host.rs:457-470 | With the mutex it runs unless the lane was cancelled, and then gives the mutex back |
| HostSteps.ReturnIs | src/host.rs:438-455 | A request that returns gives the mutex back |
| HostSteps.NewProcessIs | src/host.rs:171-188 | A new process holds nothing and runs nothing, and is resident as its file says |
| HostMemory.LoadedAfterLoad | src/host.rs:679-693 | A load adds exactly its model's estimate to the sum over all loading, loaded and unloading models if it starts one, and nothing otherwise; outgoing models still count |
| HostMemory.LoadKeepsBoundIff | src/host.rs:344-363 | A load that starts keeps that sum plus the margin within the total exactly if it would have been admitted without the swap's credit |
| HostMemory.SwapLoadFits | src/host.rs:344-363 | Less the estimates of the outgoing members, that sum fits the device with the margin after an admitted load, unless the device was over-committed and they give back at least the margin |
| HostMemory.AccountedMemoryFits | src/admission.rs:172-214 | Along every run with memory accounted and no swaps, the estimates of all loading, loaded and unloading models plus the margin never exceed the device's total |
| HostMemory.SwapOverlaps | src/host.rs:588-611 | Two loads of one group in a row: both are loading at once, and their estimates exceed the device |
| HostObject.ModelHost.constructor | src/host.rs:171-188 | A host starts with what residency loads and nothing else |
| HostObject.ModelHost.SetResident | src/residency.rs:84-107 | The in-place residency change and its answer are those of the state machine |
| HostObject.ModelHost.SpawnUnload | src/host.rs:641-645 | Likewise for the unload thread, which keeps the lane of the moment |
| HostObject.ModelHost.RequestUnloadLocked | src/host.rs:532-544 | Likewise for an unload request under the lock |
| HostObject.ModelHost.RequestLoadLocked | src/host.rs:369-374 | Likewise for a load request under the lock |
| HostObject.ModelHost.SwapAllOut | src/host.rs:365-368 | The loop over the outgoing members does what the state machine says, stopping at the first failed save |
| HostObject.ModelHost.Load | src/host.rs:317-376 | `load`, state and answer, is the state machine's |
| HostObject.ModelHost.Unload | src/host.rs:379-385 | `unload`, state and answer, is the state machine's |
| HostObject.ModelHost.FinishLoad | src/host.rs:614-639 | The end of a load is the state machine's |
| HostObject.ModelHost.FinishUnload | src/host.rs:655-671 | The end of an unload is the state machine's |
| HostObject.ModelHost.StoreCancel | src/host.rs:646-647 | The unload thread raises the flag of the lane it was spawned with |
| HostObject.ModelHost.CloneLane | src/host.rs:472-482 | A lookup hands out the handle of a loaded model, and answers the state of any other |
| HostObject.ModelHost.LockBusy | src/host.rs:433-455 | A request gets a free lane's mutex; of a busy lane it waits or gives up |
| HostObject.ModelHost.Serve | src/host.rs:457-470 | With the mutex a request runs exactly if the lane is not cancelled |
| HostObject.ModelHost.Unlock | src/host.rs:438-455 | A request that is over gives the mutex back |
| HostObject.ModelHost.RestoreResidents | src/host.rs:389-430 | Restoring loads the resident models in catalogue order, whatever each load answers |
| HostRestores.LoadIsItsSets | src/host.rs:364-375 | A load that passes admission is its residency changes in order and, if all are saved, the load request |
| HostRestores.CrashInLoadRestores | src/host.rs:364-368 | A process that dies inside a load after any number of its saves: the next starts with the old wishes and the model's own, less those of the outgoing members saved since, so every other live model is restored |
| HostRestores.FailedSaveEndsLoad | src/host.rs:364-368 | A save that fails is the load's last |
| HostRestores.LoadLeavesOthers | src/host.rs:323-343 | A load leaves every model alone that is neither its own nor of its group |
| RestoreRuns.WishedAreInOrder | src/host.rs:411-415 | A restore asks for exactly the resident models of the catalogue, in its order |
| RestoreRuns.RestoreKeepsWishes | src/host.rs:387-430 | However the loads of a restore, the ends of their threads and requests interleave: a model is live exactly if its load went through and since then no other of its group's did and its own did not end with an error; resident exactly if it was and no other of its group's load went through while it was live; failed exactly if its load ended with an error; unloaded if its load did not go through |
| RestoredGroups.CompatibleAreKept | src/host.rs:387-430 | If no two enabled residents share an exclusive group, the resident set never changes during a restore |
| RestoredGroups.WishesAreKeptIff | src/host.rs:387-430 | Every restore, in any interleaving and with any failures, keeps all wishes if and only if no two enabled residents share an exclusive group |
| RestoredGroups.RestoreEventsAreRestore | src/host.rs:411-429 | The loads that the restoring loop makes are a whole restore in that sense |
| RestoredGroups.RivalsCanBeResident | src/host.rs:323-376 | A concrete run after which two members of one group are resident, in memory and for the next start: the first one's load failed |
| LogRings.WorkerLogRing.Push | src/job_log.rs:199-207 | The ring after a push is that of a history one entry longer |
| LogRings.RingHoldsNewest | src/job_log.rs:197-208 | The ring of a daemon holds its newest entries in order, as many as there are up to the cap, and its number is how many were logged |
| LogRings.PageOfHistory | src/runtime.rs:231-238 | What a poll answers, by history, the wrapped subtraction included |
| LogRings.WholeRingToClientsAheadIff | src/runtime.rs:227-238 | A client ahead of the daemon gets the whole ring exactly if the subtraction does not underflow |
| LogRings.Replica.Apply | src/daemon_link.rs:197-210 | Applying a page replaces the ring when the number went backwards, else extends it, and keeps the newest |
| LogRings.Replica.Forget | src/daemon_link.rs:213-233 | Clearing forgets the entries and the number to ask after |
| LogRings.PollShows | src/daemon_link.rs:197-210 | What the replica shows after a poll, by what it saw and what the daemon logged since |
| LogRings.PollShowsAllIff | src/runtime.rs:227-238 | A replica in step equals the daemon's ring after a poll exactly if the two histories agree wherever that ring reaches below the replica's number, or, with the replica ahead, if the ring has dropped nothing |
| LogRings.ReplicaEqualsDaemonAtEachPoll | src/daemon_link.rs:358-370 | Over any run of entries, polls, failed polls and daemon restarts the replica equals the daemon's ring and number at every successful poll if and only if each poll meets that condition, however much was logged in between |
| LogRings.HistoryIsLogged | src/job_log.rs:197-208 | Over any run the daemon's history is exactly what was logged since its process started |
| LogRings.SeenIsBeginning | src/daemon_link.rs:358-370 | As long as the daemon does not restart every poll meets it |
| LogShipments.ShipQueue.Push | src/runtime.rs:1679-1696 | A push to a full queue drops the oldest items and leaves a marker with their number before the entry |
| LogShipments.ShipQueue.Take | src/ws/session.rs:1337-1343 | The pump takes the whole queue |
| LogShipments.ShipQueue.Restore | src/runtime.rs:1707-1715 | A batch put back comes before what arrived meanwhile, clipped to the cap from the front |
| LogShipments.EntriesKeepTheirOrder | src/runtime.rs:1679-1715 | Over any run of pushes, sent batches, batches put back and pumps aborted mid-send, what was shipped, is in flight and waits holds each entry at most once, in the order of logging, and the queue stays within its cap |
| LogShipments.PushKeepsNewest | src/runtime.rs:1681-1694 | A push to a queue below the cap loses nothing; to a full one it keeps exactly the newest items but two less than the cap, a marker of how many went, and the entry |
| LogShipments.RequeueKeepsNewest | src/runtime.rs:1706-1714 | A batch put back goes first, and of all the newest items up to the cap are kept |
| LogShipments.LostAtSomeStep | src/runtime.rs:1681-1714 | Over any run, an entry that is neither shipped nor in flight nor waiting was lost at a push to a full queue with at least the cap less two newer items behind it, at a batch put back with at least a cap of newer ones behind it, or with an aborted pump |
| LogShipments.MarkersTellAllIff | src/runtime.rs:46-52 | The markers never tell of more drops than entries lost, and tell of every one exactly if no marker was dropped, no batch put back overflowed and no pump was aborted before its batch was sent |
| LogShipments.AbortLosesSilently | src/ws/session.rs:580-593 | A session that ends mid-send: one entry logged, none left, no marker |
| MultipartScans.ReadFrom | src/multipart.rs:50-69 | The parser's loop gives the parts of the scan in order, or the first error met |
| MultipartScans.ScanSeesSegments | src/multipart.rs:50-69 | Whatever segments a body is built from, the parser sees exactly those |
| MultipartScans.ClosedIsRebuilt | src/multipart.rs:50-69 | A body scanned to its closing delimiter is built from segments, consecutive and in order, each part's data ending at the first delimiter after its headers |
| MultipartScans.ParsesIffRebuilt | src/multipart.rs:50-69 | From behind the first delimiter, for any reading of one part, the loop gives these parts exactly if a list of segments and a closing delimiter follow and the segments read as them |
| Multiparts.FindIsFirst | src/multipart.rs:152-156 | `find` answers the first occurrence at or after a position, or that there is none |
| Multiparts.ReadQuoted | src/multipart.rs:121-139 | The loop over a quoted value reads what unquoting says, on every input |
| Multiparts.ReadParameters | src/multipart.rs:108-149 | The loop of `parameters` reads what the recursive reading says, and ends on every input |
| Multiparts.ReadDisposition | src/multipart.rs:82-95 | A Content-Disposition of another kind than form-data gives nothing; else its last name and filename count |
| Multiparts.ReadLine | src/multipart.rs:77-98 | One header line changes the fields as the reading of lines says |
| Multiparts.ReadPart | src/multipart.rs:72-105 | One part is read from its headers, or has no name |
| Multiparts.ReadBody | src/multipart.rs:42-70 | `parse`, on every input, is the specified parse |
| MultipartForms.ClearOfDelimiterIff | src/multipart.rs:44-63 | For a boundary without CR, data ends at its delimiter exactly if it holds none |
| MultipartForms.UnquoteUndoesEscape | src/multipart.rs:121-139 | Unquoting undoes escaping for every value |
| MultipartForms.ParametersUndoPrinting | src/multipart.rs:108-149 | For any list of keys that read as themselves and arbitrary values, `parameters` gives back exactly the printed list, whatever separators precede it |
| MultipartForms.MixedParametersAreRead | src/multipart.rs:108-149 | So it does for lists whose values are printed quoted or, where they hold no semicolon and nothing to trim, bare |
| MultipartForms.LookupIsFirst | src/multipart.rs:34-37 | The parameter looked up is the first of its name, whatever its case |
| MultipartForms.LastNameCounts | src/multipart.rs:88-94 | Of several parameters named `name` or `filename` the last counts |
| MultipartForms.BoundaryUndoesPrinting | src/multipart.rs:29-39 | The boundary is read back from a content type that carries it, quoted or bare, behind any other parameters |
| FormRoundTrips.ReadsPart | src/multipart.rs:72-105 | A part's printed headers read as that part: name, file name, content type, bytes |
| FormRoundTrips.StartsAtForm | src/multipart.rs:43-49 | Parsing starts at the form, behind the opening or behind any preamble that holds no delimiter |
| FormRoundTrips.ParsedDataIsClear | src/multipart.rs:62-68 | No parsed part's data holds the delimiter |
| FormRoundTrips.ParsesIffForm | src/multipart.rs:42-70 | For every body and boundary: `parse` gives these parts if and only if the body is an opening, at its start or behind a preamble ending at the first delimiter, then segments that read as them, then a closing delimiter |
| FormRoundTrips.FormsRoundTripIff | src/multipart.rs:162-183 | For every list of parts, preamble, transport paddings and epilogue: parsing the printed form gives exactly those parts in order if and only if no part's data holds the delimiter |
| Texts.Utf8Iff | src/multipart.rs:64-65 | What the parser takes for UTF-8 is exactly the concatenations of encoded Unicode scalar values |
| Texts.TrimIsBetweenSpaces | src/multipart.rs:81-96 | Trimming text gives what lies between its first and last character that is no Unicode white space |
| Texts.EqIgnoreCaseIff | src/multipart.rs:82-91 | Two byte strings are taken as equal exactly if they differ in the case of ASCII letters only |
| MultipartFailures.FailsIff | src/multipart.rs:42-70 | For every body, boundary and error: `parse` fails with it if and only if the body holds neither an opening nor a delimiter and the error says so, or the body is an opening, readable segments, and then, counted as the next part, a line without end, headers without end, data without a delimiter, or a part that cannot be read, and the error is that |
| PartHeaders.PartIsSaid | src/multipart.rs:64-105 | What is read of a part: that its headers are no text, that no line names it, or its data with name, file name and content type as the last lines saying them say: Content-Disposition lines of the form-data kind by their last parameter of that name, Content-Type lines by their trimmed value |
| PartHeaders.LinesAreParted | src/multipart.rs:76 | The lines of the headers are what CRLFs part them into |
| PartHeaders.BoundaryIff | src/multipart.rs:29-39 | A content type carries a boundary if and only if it is `multipart/form-data`, in any case, with parameters, and the first named boundary is that and not empty |
| PartHeaders.DelimitersAre | src/multipart.rs:43-60 | The byte strings the parser looks for |
| Registrations.RequestsKeepTheirSecrets | src/auto_register.rs:83-386 | In every state reachable from a first configuration, across crashes anywhere and failed saves, a request id in memory or on disk is paired with the very secret posted for it, and never lies beside credentials; what is polled is such a pair |
| Registrations.NothingIsMissing | src/auto_register.rs:100-122 | When the worker chooses what to do it has an install id and a secret: the fallbacks are never needed |
| Registrations.BetweenTwoPosts | src/auto_register.rs:223-239 | Between an accepted post and the next post lies a 404, a rejection, a reset, or a crash while neither a request id nor credentials are on disk |
| Registrations.CrashRepostsIff | src/auto_register.rs:88-127 | After a crash the worker serves if credentials are on disk, polls the very request on disk if there is one, and posts another exactly if there is neither |
| Registrations.UnsavedApprovalAsksAgain | src/auto_register.rs:341-365 | Credentials that could not be saved: the next process asks about the same saved request again |
| Registrations.CredentialsAreGranted | src/auto_register.rs:340-349 | In every state reachable from a first configuration, credentials in memory or on disk are that configuration's own, or exactly the worker id and token of one approval that arrived while polling |
| Registrations.ApprovalIsKept | src/auto_register.rs:340-360 | An approval that is saved leaves exactly its credentials, and the install id as it was, to the next process, which serves |
| Registrations.AskIs | src/auto_register.rs:83-154 | From any state that asks: when the worker serves, polls or posts, with which request and secret, what is made up, and what of it is saved |
| Registrations.PostIs | src/auto_register.rs:156-246 | What memory, disk and the studio know after a post that was accepted, lost or failed |
| Registrations.PollIs | src/auto_register.rs:268-386 | What memory and disk hold after each answer to a poll, saved or not, and where it leads |
| Registrations.ResetIs | src/runtime.rs:735-759 | A reset clears everything in memory and, if saved, on disk, and leads to asking, or ends the loop; only a worker that serves or refuses is reset |
| Registrations.FileResetStartsOver | src/runtime.rs:864-873 | Resetting the file leaves a running daemon what it holds, and the next process nothing |
| Registrations.AnswersTell | src/auto_register.rs:156-386 | What a tick answers is what memory then says: pending under its id exactly while a request is held, approved exactly if the worker serves, rejected exactly if it refuses |
| Registrations.OnlyStoringForgets | src/auto_register.rs:223-239 | If no save fails, a crash forgets an accepted request only between the studio's reply and its save, or if the file was reset under the running daemon |
| Registrations.StoringForgets | src/auto_register.rs:223-239 | There it does: a concrete run that posts twice |
| Registrations.RefusedUntilReset | src/runtime.rs:864-873 | Resetting the file, or anything but its own reset and a new process, leaves a daemon whose request was rejected refusing |
| Registrations.TicksAreRuns | src/auto_register.rs:83-127 | A tick, whichever way it branches, is a run of the state machine |
| Registrations.Registration.SaveConfig | src/config.rs:360-362 | A save writes all of memory or nothing |
| Registrations.Registration.EnsureInstallState | src/auto_register.rs:129-154 | Install id and secret are made up only when missing, the secret only with no request open, and saved if so |
| Registrations.Registration.CreateRequest | src/auto_register.rs:156-246 | Posting, storing the id and saving are the state machine's steps; the answer is pending under the studio's id exactly if the post was accepted |
| Registrations.Registration.PollExisting | src/auto_register.rs:268-386 | Polling, and what each answer stores and saves, are the state machine's steps; a poll that fails or finds it pending keeps the asked id pending, a 404 answers pristine |
| Registrations.Registration.Tick | src/auto_register.rs:83-127 | One tick takes the state machine from asking to asking, ready or refused, and answers accordingly |
| Registrations.Registration.ResetRegistration | src/runtime.rs:735-759 | A reset clears memory, then saves; a failed save leaves the file and ends the loop |
| JobLogs.PushShowsHistory | src/job_log.rs:74-99 | One push to the bounded store keeps it showing what the unbounded history says: the 128 newest entries, each with its last 400 clipped lines since it started and the number of the others |
| JobLogs.ShownIsDistinct | src/job_log.rs:79-90 | No job is shown twice |
| JobLogs.PushedIsShown | src/job_log.rs:74-99 | What was just pushed is shown as the last line of its job's only entry, unchanged if its message is within the limit, and else cut to the limit and marked |
| JobLogs.JobLogStore.PushLine | src/job_log.rs:74-99 | The code of a push does what one push on values does |
| JobLogs.JobLogStore.Push | src/job_log.rs:74-99 | The store keeps showing its history, one push longer |
| JobLogs.JobLogStore.Get | src/job_log.rs:102-108 | The log of a job is there exactly if an entry of it is kept, and is that entry's |
| LogTrims.ShiftKeeps | src/log_trim.rs:39-46 | Shifting the copies drops at most the oldest, wherever a rename fails, and done, leaves room for the newest |
| LogTrims.TrimAnswers | src/log_trim.rs:29-49 | When a trim leaves the live file alone, fails, or empties it and answers its size |
| LogTrims.TrimLeaves | src/log_trim.rs:39-46 | Once the copies are shifted, `.1` is what was copied of the live file, and every other copy is the one that came there |
| LogTrims.TrimKeepsSuffixIff | src/log_trim.rs:29-49 | With no line written twice, what the files hold stays a contiguous suffix of everything written exactly if the trim copies nothing, or all and truncates with nothing written in between |
| LogTrims.FilesHoldSuffix | src/log_trim.rs:29-49 | So it does over any run of appends and such trims, failed ones among them |
| LogTrims.AppendedIsLast | src/log_trim.rs:29-49 | In every run what is appended ends what was written and the live file |
| LogTrims.CopiesAreGenerations | src/log_trim.rs:29-49 | Over any run without a failed trim the numbered copies are the most recent generations, newest first, at most `keep` of them |
| LogTrims.LogFiles.RenameUp | src/log_trim.rs:40-45 | One rename: a missing copy is no failure |
| LogTrims.LogFiles.Trim | src/log_trim.rs:29-49 | `trim`, with any of its steps failing, is the specified one |
| Respawns.TriesIff | src/daemon_link.rs:398-450 | On a monotone clock a tick tries to start a daemon exactly if the lock is free, nothing was reached or held since a free tick at least the grace ago, and every earlier try is at least the backoff ago |
| Respawns.TriesAreFew | src/daemon_link.rs:414-425 | In a time T there are at most T / backoff + 1 tries |
| Respawns.Poller.TickOnce | src/daemon_link.rs:358-465 | One tick updates the two times, decides the try and answers the link state, which names a daemon as started from the end of the grace on unless this very try failed |
| ExeWatches.RestartsIff | src/exe_watch.rs:82-109 | A restart is decided exactly if the file is another than the baseline and nothing but that identity was seen since an earlier observation at least the settle time ago |
| ExeWatches.BaselineIsLastRestart | src/exe_watch.rs:99-101 | The baseline is what was last restarted on, or what the process started from |
| ExeWatches.RestartsDiffer | src/exe_watch.rs:79-81 | Restarts one after the other are on different identities |
| ExeWatches.FirstRestartDiffers | src/exe_watch.rs:79-81 | The first is not on the one the process started from |
| ExeWatches.FirstMissingIff | src/exe_watch.rs:83-88 | A missing file is reported as first exactly if the observation before found one |
| ExeWatches.ExeWatch.Observe | src/exe_watch.rs:82-109 | The in-place check decides and remembers as specified |
| Glbs.WordAtIff | src/glb.rs:35-37 | A word is read at a place exactly if its four little-endian bytes stand there |
| Glbs.ChecksIff | src/glb.rs:40-63 | The check passes exactly the files under 4 GiB that start with magic, version 2, their own length and a JSON chunk type |
| Glbs.CheckTellsFirst | src/glb.rs:40-63 | A file that does not pass is told the first thing wrong with it, with the numbers that are written there |
| Glbs.Pad | src/glb.rs:66-71 | Padding appends the fewest fill bytes that align the length |
| Glbs.Assemble | src/glb.rs:74-87 | Assembling writes header, padded JSON chunk and padded binary chunk |
| Glbs.AssembledChecksIff | src/glb.rs:40-87 | An assembled file passes the check exactly if its length fits 32 bits, and is found of wrong length otherwise |
| Glbs.ChunksReadBack | src/glb.rs:74-87 | Both padded chunks are read back by their length fields, and the second ends the file |
| Glbs.ViewsReadBack | src/glb.rs:187-201 | For any blobs the views are aligned, in order without overlap, within the buffer, and read back as the blobs |
| Glbs.BlobsReadBackFromFile | src/glb.rs:187-235 | So they are in the assembled file, behind the binary chunk's header |
| Glbs.BufferWriter.Push | src/glb.rs:187-201 | One push appends the bytes, pads, and records where they start |
| Glbs.BufferWriter.PushAll | src/glb.rs:204-209 | Pushing blobs one by one gives the specified buffer and views |

## Left out

- The catalogue is fixed, its ids distinct and its estimates not negative: editing it is list code, and changing groups under loaded models is outside the protocol.
- HostObject.ModelHost: each method is one uninterrupted step; the waits of load and unload threads, and what runs between steps, exist only in the state machine's interleavings.
- Condition variables, time-outs and thread panics: a wait is a step that may succeed or time out at any moment.
- RestoreRuns.RestoreKeepsWishes: other loads and unloads asked for while a start restores are not part of its runs; they are of the runs of `HostTheorems`.
- `admit_transient`, `load_transient` and host memory (src/host.rs:232-312, src/admission.rs:70-120): one-shot checks without state.
- Rounding of 32-bit floats: memory sizes are reals.
- The JSON and TOML texts of residency and configuration: a file is its decoded value or does not decode, and an atomic write replaces it or fails.
- LogRings.WorkerLogRing.Push: the 64-bit counter's own wrap after 2^64 entries is not modelled; the subtraction that does wrap is.
- LogShipments.Next: a frame whose send failed counts as not sent, though the studio may have it; entries are named by their number; their text, the tracing event and the second ring are left out.
- MultipartScans.ReadFrom: the scan takes the search and the reading of one part as parameters; `Multiparts.ReadBody` supplies the source's.
- FormRoundTrips.FormsRoundTripIff: a content type is printed only if it is one trimmed line of UTF-8, since the parser trims it; names and file names are any UTF-8 text, and boundaries any bytes but CR.
- Registrations.Next: the studio gives a request id to one secret only, and ids, secrets and hashes are opaque; a post the studio took but whose reply was lost is not an accepted one. Concurrent edits of other configuration fields (src/control.rs:161-177) are not interleaved, and the observer's "pending since" time is left out.
- Respawns.Poller.TickOnce: error texts and the reason of a failed start are left out; an unreadable lock does not end an absence, as in the code.
- LogTrims.Trimming: file names and kinds of errors are left out; a missing live file is `None`.
- Glbs.Assemble: the JSON document is its bytes; the cube's geometry and its PNG are input blobs.
- HTTP routing, sockets, TLS, engines, downloads, updates, the tray UI's windows, presence probes and the command line: plumbing over libraries.
- `src/job_gate.rs` and the update drain: one compare-and-swap each.
