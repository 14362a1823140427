# Zero Hour agent bridge and launcher: verified models

This project models the parts of the repository whose correctness is not
visible from a single function body, and proves what they promise.

- **Tactical event stream** (`AgentBridge/events.go`). `Events`, `Ordering`,
  `Diff`, `DiffProperties` and `ReportedEvents` cover the snapshot differ and
  coalescing of the world, `Hud` the differ of the HUD, and `EventDetails` the
  details of events; `DiffLaws`, `DiffReports`, `DiffUrgency`, `HudLaws` and
  `DetailContents` say, by the snapshots alone, what is reported when. `EventFilters` says what clients' filters see of merged
  events, `ReportedKinds`, `EventReveals` and `RevealedRuns` what they see of
  those that can be reported. `EventStream` has the mutex sections
  of `eventStream`, each a method proved equal to a function on the stream's
  state. `EventProtocol` puts those functions into a state machine: pollers
  that may commit after an idle stop, flushes, idle timers that may fire late,
  and any number of SSE handlers whose reads, writes, waits and exits
  interleave freely. `EventInvariant` shows what every step keeps,
  `EventSafety` and `EventSubscribers` state the results over all runs,
  `EventArrival` follows a change from its commit to the client, and `EventRuns` has the runs in which
  the guarantees end.
- **Sessions** (`AgentBridge/session.go`). `Session` has the critical sections
  of a session and of the store of sessions; `SessionProtocol` and
  `SessionReplacement` are the state machines over all interleavings, the
  latter on the table operations of `SessionTable` that the store uses too.
- **Media reader and BIG packer**
  (`WebAssembly/harness/launcher-asset-worker.js`). `BigFormat` is the format
  read at once, `BigReader` the chunked validator over a growing buffer,
  `BigWriter` the two packers, `BigRoundTrip` their agreement and `BigArchives`
  the archives accepted. `IsoReader`
  reads entries of cooked and raw CD images. `Cabinet`, `CabinetExtraction`
  and `CabinetSplitting` cover block-by-block expansion with a sliding
  dictionary, partial writes, folders as a writer leaves them, and independence
  of the cut into blocks.
- **ADPCM and WAV** (`WebAssembly/shims/Mss.H`). `Adpcm` is a decoder that
  takes each channel's bytes apart; `AdpcmDecoder` and `AdpcmBlocks` are the
  interleaved two-pass decoder proved against it, `AdpcmAllocation` its 32-bit
  allocation and the stores that leave it;
  `AdpcmFill` says which samples it writes; `AdpcmQuantiser`, `AdpcmChannel` and
  `AdpcmEncoder` look at it from the encoder's side. `Wav` is the chunk walker
  and the image that decompression writes, `WavChunks` the files it reads.
- **Matrix inversion** (`WebAssembly/shims/D3DX8Math.h`). `Matrix` is the
  algebra of determinants, `MatrixElimination` the elimination on the left
  half, `MatrixPivots` and `MatrixBounds` when it fails, told by the input,
  and `MatrixInversion` the algorithm in place.
- **Shims and codecs**. `Wildcard` (`WebAssembly/shims/windows.h`), `Utf8` and
  `Utf8RoundTrip` (`WebAssembly/src/wasm_agent_api.cpp`, after RFC 3629).
- **Virtual drive** (`WebAssembly/harness/launcher-desktop-apps.js`). `Drive` has
  the edits, `DriveTree` that they keep the drive one tree.

`Common`, `Numbers` and `Decimals` hold shared vocabulary. Go slices, maps and
channels become sequences, maps and one-slot options; C strings and images
become byte sequences. A method that changes state is specified by a function
of the old state, and the results are proved about those functions.

`dafny verify dfyconfig.toml` checks everything.

## What the proofs show to be false

- Reading from cursor 0 never reports overflow, so a client that starts there
  silently misses exactly the events already evicted
  (`EventSafety.CursorZeroSkipsTheEvicted`; a run for every ring size in
  `EventRuns.CursorZeroLoses`).
- A client without a cursor that connects after an idle stop, before anything
  new is flushed, is told that its cursor expired
  (`EventSafety.NewcomersAreStaleAfterAnIdleStop`; such a run in
  `EventRuns.NewcomerIsToldToResync`).
- Coalescing hides events from some filter as soon as a run names more than
  128 objects (`EventFilters.CoalescingHidesNothing`,
  `EventFilters.The129thObjectIsHidden`), and the differ then loses objects
  (`DiffProperties.DiffConservesObjects`, `DiffProperties.CrowdIsNotConserved`).
- A merged event can pass a filter with a region that none of its parts passes,
  because the merged area spans places outside it. It never does for a filter
  without a region, or if no kind of event with objects passes the rest of the
  filter, and otherwise three snapshots suffice
  (`RevealedRuns.CoalescingRevealsNothingReported`,
  `RevealedRuns.MergedDamagePassesAlone`).
- The count of a merged event depends on the iteration order of a Go map and
  can differ from the number of changes listed
  (`EventDetails.CountAfterAnyMerge`, `EventDetails.CountCanBeWrong`).
- A raw CD image refuses an aligned read of no bytes that the cooked image
  allows (`IsoReader.RawReadsAsCooked`).
- ADPCM output can contain samples that were never written
  (`AdpcmFill.EverySampleIsWritten`, `AdpcmFill.FillsExactly`).
- A large ADPCM stream is written past its allocation, whose 32-bit size has
  wrapped, exactly when its image takes 2^32 bytes or more
  (`AdpcmAllocation.StoresOutsideExactly`, `AdpcmAllocation.LargeStreamOverruns`).
- The fixed pivot tolerance refuses invertible matrices
  (`MatrixInversion.InvertibleButRefused`, with the exact condition in
  `MatrixPivots.FailsExactlyWhenRefused`).
- Text sent through `unicode_to_utf8` and read back by `decode_utf8` is not
  always what it was (`Utf8RoundTrip.EncodeThenDecode`,
  `Utf8RoundTrip.EncodeThenDecodeWide`, `Utf8RoundTrip.TextsThatDoNotSurvive`).

## Model

| member | source | states |
|---|---|---|
| TacticalEvents.EventArea.IncludePosition | AgentBridge/events.go:92-114 | The area is updated in place to the least box around its old extent and the position; a position of fewer than two coordinates changes nothing |
| TacticalEvents.FilterAccepts | AgentBridge/events.go:1155-1185 | The search through types, relationships, IDs, severity, wake flag and area decides exactly whether every criterion that is present is met |
| TacticalEvents.SeveritiesAreOrdered | AgentBridge/events.go:60-84 | info, notice, warning and critical rank in this order, and anything else below them |
| TacticalEvents.IntersectingSharesAPoint | AgentBridge/events.go:116-119 | Two areas intersect exactly when they share a point, if only on their edges |
| TacticalEvents.FilterIsItsCriteria | AgentBridge/events.go:1155-1185 | A filter accepts what each of its criteria accepts by itself; an event without a relationship passes every filter for relationships |
| TacticalEvents.MergeEvents | AgentBridge/events.go:946-1004 | Merging an event into the pending one: higher severity, either wake flag, latest frame, IDs appended without duplicates up to 128, areas joined |
| TacticalEvents.AppendIdsSummary | AgentBridge/events.go:946-1004 | Appending IDs never exceeds 128, repeats and invents none, and loses none unless the limit is reached |
| TacticalEvents.CoalescedIds | AgentBridge/events.go:946-1004 | After any run of events of one kind the pending IDs are duplicate-free and are the union of all IDs exactly when that union has at most 128 members |
| TacticalEvents.CoalescedUrgency | AgentBridge/events.go:946-1004 | The merged severity is the greatest of the run, and is one of its severities; the merged wake flag is the disjunction |
| TacticalEvents.CoalescedStamp | AgentBridge/events.go:946-966 | The merged event has the frame and snapshot of the last of the run |
| TacticalEvents.CoalescedArea | AgentBridge/events.go:92-119 | The merged event has an area exactly when some event had one, and it contains them all |
| TacticalEvents.CoalescedAreaIsLeast | AgentBridge/events.go:92-119 | No box that contains all the areas is smaller than the merged one |
| TacticalEvents.CoalescedKind | AgentBridge/events.go:946-1004 | Merging keeps the type and the relationship of the run |
| TacticalEvents.MergedIsAccepted | AgentBridge/events.go:1155-1185 | A filter that accepts one event of a run accepts the merged event, if no ID was dropped |
| EventFilters.CoalescingHidesNothing | AgentBridge/events.go:946-1004 | For the filters that a request can build, coalescing hides no event of a run if and only if the run names at most 128 distinct objects |
| EventFilters.HiddenId | AgentBridge/events.go:969-973 | An object that the limit dropped from the merged event is hidden from the filter that asks for it |
| EventFilters.The129thObjectIsHidden | AgentBridge/events.go:969-973 | A concrete run: an event about 128 objects, then one about another, which a filter for that object accepts alone and refuses merged |
| EventFilters.MergedHasAcceptedPart | AgentBridge/events.go:1155-1185 | Whatever events are merged, a filter without a region that asks at most one thing of severity, waking and objects accepts the merged event only if it accepts one of its parts |
| EventFilters.CoalescingRevealsNothing | AgentBridge/events.go:946-1004 | What merging alone guarantees, for events of any severity and wake flag whether or not the differs report them: a filter accepts no merged event none of whose parts it accepts, if and only if it has no region and asks at most one thing of severity above info, waking and objects |
| ReportedKinds.ReportsAreTied | AgentBridge/events.go:446-529 | In every report of the differ the kind and the relationship fix the wake flag and, for the kinds that name objects, the severity; the relationship is "self" or one that an object of the two snapshots has |
| ReportedKinds.AccumulatedAreTied | AgentBridge/events.go:275-340 | Accumulating reports keeps that tie: every accumulated event is of one kind, with the wake flag and severity fixed by kind and relationship, and without IDs or area if the kind names no object |
| ReportedKinds.ReportedAreTied | AgentBridge/events.go:386-529 | The same of every event that a comparison hands on |
| ReportedKinds.HudEventsAreTied | AgentBridge/events.go:553-617 | Every HUD event is about no object and has a wake flag fixed by its type, or, for a subtitle, by its severity |
| EventReveals.RunShape | AgentBridge/events.go:946-1004 | Reported events that share a pending key are all of one kind of the world differ or all of the HUD, so that severity and wake flag never vary independently within a run |
| EventReveals.RevealsNothingWithoutRegion | AgentBridge/events.go:1155-1185 | Over runs of reported events, a filter without a region, whatever else it asks, accepts the merged event only if it accepts one of its parts |
| RevealedRuns.OneAfterTheOther | AgentBridge/events.go:446-529 | For every kind that names objects, three snapshots in which it happens to one object and then to another, each comparison reporting that and nothing else |
| RevealedRuns.CoalescingRevealsNothingReported | AgentBridge/events.go:946-1004 | For a filter that a request can build, over the runs the differs can report: no merged event passes it without one of its parts passing, if and only if it has no region or no kind with objects passes the rest of it; the same holds if only runs over consecutive snapshots are considered |
| RevealedRuns.MergedDamagePassesAlone | AgentBridge/events.go:470-483 | Damage reported at two corners outside any given region over three polls: a filter for damage in the region accepts neither event and accepts the merged one |
| RevealedRuns.CriticalDamageIsNotRevealed | AgentBridge/events.go:470-483 | A filter for critical damage in a region is never told more than it asked for, since damage is never critical |
| EventDetails.DetailsRecord.Record | AgentBridge/events.go:298-321 | One report to the accumulator: named values are copied in, or a change is appended and counted unless 128 are there |
| EventDetails.DetailsRecord.Finish | AgentBridge/events.go:334-336 | An empty list of changes is removed |
| EventDetails.ReportedAreTallied | AgentBridge/events.go:275-340 | Whatever is reported, an event leaves the accumulator with 1 to 128 changes and a count equal to their number, or with neither |
| DetailContents.ReportedChanges | AgentBridge/events.go:298-321 | The changes an event leaves the accumulator with are the first 128 reported, in their order |
| DetailContents.ReportedValue | AgentBridge/events.go:298-321 | Any other value is the one reported last under its name |
| EventDetails.MergeDetailsInOrder | AgentBridge/events.go:974-1003 | The loop over the incoming details, for any iteration order of the Go map, leaves the merge of the details in that order |
| DetailContents.MergedDetail | AgentBridge/events.go:974-1003 | Whatever the iteration order, changes are joined oldest first and messages newest first, both up to 128, other values are replaced by those that come in, and what does not come in stays |
| DetailContents.RunKeepsTheFirst | AgentBridge/events.go:974-1003 | After any run of merges, each in any order, the pending changes and messages are the first 128 of all of them |
| EventDetails.CountAfterMerging | AgentBridge/events.go:974-1003 | For an event as the accumulator makes it, the merged count is the number of merged changes if and only if, when changes come in, nothing was pending, or 128 come in, or Go visits the count before the changes; when none come in, if and only if it was right before |
| EventDetails.CountAfterAnyMerge | AgentBridge/events.go:974-1003 | The merged count is right in every iteration order if and only if nothing was pending or 128 changes come in |
| EventDetails.CountCanBeWrong | AgentBridge/events.go:974-1003 | One pending change and one incoming, changes visited first: two changes, and a count of one |
| Ordering.SortKeys | AgentBridge/events.go:1012-1016 | Sorting the keys of a map lists each of them once, in increasing order |
| Ordering.ListingIsUnique | AgentBridge/events.go:1012-1016 | A set has one increasing listing, so the order of a flush does not depend on map iteration |
| Ordering.SortIdsSummary | AgentBridge/events.go:324-340 | Sorting IDs permutes them into increasing order |
| SnapshotDiff.NameIsInjective | AgentBridge/events.go:386-529 | No two kinds of event share a type name |
| SnapshotDiff.KeyTextIsInjective | AgentBridge/events.go:275-322 | The accumulator key, type and relationship joined by a NUL, tells every pair apart |
| SnapshotDiff.EventAccumulator.AddEmission | AgentBridge/events.go:275-309 | One call of add: a new event under its key, or the severity, IDs and area of the event already there raised, at most 128 IDs |
| SnapshotDiff.EventAccumulator.SortedEvents | AgentBridge/events.go:324-340 | The accumulated events, each once, in the order of their keys, with their IDs sorted |
| SnapshotDiff.DiffPlayer | AgentBridge/events.go:386-529 | The branches for one player add exactly the elimination and economy changes between the snapshots |
| SnapshotDiff.DiffEconomy | AgentBridge/events.go:633-672 | The economy branches: money, power and progress, with their severities |
| SnapshotDiff.DiffObject | AgentBridge/events.go:386-529 | The branches for one current object: appearance, damage, completion, destruction and threat, each against the object of the same ID before |
| SnapshotDiff.DiffLoss | AgentBridge/events.go:386-529 | An object that is gone is reported as out of sight or disappeared, by who owned it |
| SnapshotDiff.DiffCapability | AgentBridge/events.go:674-727 | Queue changes, readiness and completed upgrades of one capability entry |
| SnapshotDiff.DiffEventSnapshots | AgentBridge/events.go:386-529 | The differ as a whole lists exactly the events that the emissions of all its branches accumulate to; without a previous snapshot, only the baseline |
| DiffLaws.EmitsWhatHappened | AgentBridge/events.go:402-529 | Told by the fields of the two snapshots alone, for every kind and relationship: a report about an object is made exactly when it is new, was lost, lost more than 0.5 of its health, was completed, was destroyed, began attacking or has a changed capability, as the kind says; one without an object exactly when the game, a player or a local economy changed in that way |
| DiffReports.ReportedWhenItHappened | AgentBridge/events.go:402-529 | An event of a kind and relationship is reported if and only if that happened to some object, or was noticed of the game or a player |
| DiffReports.EventNamesItsSubjects | AgentBridge/events.go:275-340 | The event names, once and in order, only objects to which it happened, and all of them if and only if they are at most 128 |
| DiffReports.EventIsAroundItsSubjects | AgentBridge/events.go:302-309 | It has an area if and only if some object to which it happened has a place; the area contains the places of all of them, and no smaller box does |
| DiffUrgency.EventIsAsUrgent | AgentBridge/events.go:402-440 | The severity of an event without objects is the greatest of what was noticed: an eliminated local player is critical, power lost a warning, power regained, progress or a start a notice |
| DiffUrgency.EventIsOfTheSnapshot | AgentBridge/events.go:376-384 | Every event bears the frame and number of the current snapshot |
| DiffReports.ListHoldsTheEvents | AgentBridge/events.go:324-340 | The list handed on holds the event of every kind and relationship that has one, and nothing else |
| DiffReports.BaselineAndOutcome | AgentBridge/events.go:386-401 | Without an earlier snapshot the baseline is reported, the outcome if there is one, and nothing else |
| DiffProperties.SelfDiffIsSilent | AgentBridge/events.go:386-529 | Comparing a snapshot with itself yields no event |
| DiffProperties.IdsForGroup | AgentBridge/events.go:386-529 | The IDs added under the key of an appearance or a loss are exactly the objects that appeared or went in that group |
| DiffProperties.MovementEventIds | AgentBridge/events.go:386-529 | A movement event names exactly the part of its group that fits the limit |
| DiffProperties.GroupsAreDisjoint | AgentBridge/events.go:386-529 | An object belongs to at most one group of appearances or losses |
| DiffProperties.MovedIsInAGroup | AgentBridge/events.go:386-529 | Every object that came or went belongs to some group |
| DiffProperties.MovementsAreReportedOnce | AgentBridge/events.go:386-529 | No object is named by two appearance or loss events |
| DiffProperties.ReportsAreTrue | AgentBridge/events.go:386-529 | Appearance events name only new objects and loss events only departed ones |
| DiffProperties.DiffConservesObjects | AgentBridge/events.go:386-529 | Previous IDs, minus the lost, plus the appeared, are the current IDs if and only if no group exceeds 128 objects |
| DiffProperties.CrowdIsNotConserved | AgentBridge/events.go:386-529 | A concrete pair of snapshots: 129 neutral objects appear at once and no comparison of the two conserves them |
| ReportedEvents.ReportedAreWellFormed | AgentBridge/events.go:275-340 | Every reported event has at most 128 distinct IDs, a box for its area and one of the four severities |
| EventStreams.EventStream.AddSubscriber | AgentBridge/events.go:796-821 | A subscription gets a fresh number and an empty notify slot, cancels the idle timer and starts the poller if it is stopped |
| EventStreams.EventStream.RemoveSubscriber | AgentBridge/events.go:823-843 | Unsubscribing twice changes nothing; the last one out starts the idle timer |
| EventStreams.EventStream.IdleTimeout | AgentBridge/events.go:857-870 | With no subscriber the run stops, the snapshot and the pending events are dropped and gapCursor moves past the newest cursor; a stale timer changes nothing else |
| EventStreams.EventStream.MergePending | AgentBridge/events.go:946-1004 | The pending event under the key of type and relationship is merged with the new one |
| HudDiff.DiffHudSnapshots | AgentBridge/events.go:553-617 | The HUD differ reports, in this order, new messages, a changed or closed popup, a changed subtitle and changed visible timers, each with its severity and wake flag, and nothing without an earlier HUD |
| HudLaws.HudEventsTellOfChanges | AgentBridge/events.go:553-617 | A HUD event is reported if and only if the HUD now shows a message, popup, subtitle or visible timers it did not show before, or closed its popup; with the severity that belongs to it, and waking unless it is mere information |
| EventStreams.EventStream.CommitPoll | AgentBridge/events.go:901-944 | Committing a snapshot stores it with inherited capabilities and merges every change of the world, and of the HUD while someone wants it, into pending; the first snapshot and an outcome ask for an immediate flush |
| EventSubscribers.ClientsAreCounted | AgentBridge/events.go:796-843 | After any run the two subscriber counts are the numbers of connected handlers that asked for the HUD and for capabilities |
| EventSubscribers.WantedHudIsMerged | AgentBridge/events.go:901-944 | A poll that brings a HUD while some connected handler asked for it stores it and merges all its changes after those of the world; while none did it leaves the HUD alone |
| EventSubscribers.HudIsForgotten | AgentBridge/events.go:823-843 | No HUD is remembered once the last handler that asked for it has left, so a later one is not told of changes since an old one |
| EventSubscribers.TimerIsSetForNobody | AgentBridge/events.go:796-870 | The idle timer is set exactly while the poller runs without subscribers, and exactly then its firing stops the poller |
| EventSubscribers.ComparedWithTheLast | AgentBridge/events.go:857-944 | The next snapshot is compared with the last one committed since the poller stopped, with the capabilities last sent; after a stop with none |
| EventArrival.PendingIsCoalesced | AgentBridge/events.go:937-1043 | After any run, what is pending under a type and relationship is the coalescing of exactly the events of that key committed since the last flush or effective idle stop |
| EventArrival.AcceptedChangesArrive | AgentBridge/events.go:901-1068 | A committed change that a handler's filter accepts is numbered by the next flush inside an event the filter accepts, if that flush coalesces it with changes of at most 128 objects; a handler whose transcript begins before that event has it on its wire, or a resync notice past it, or is yet to read it |
| EventArrival.ServedClientsAreTold | AgentBridge/events.go:1280-1353 | The same, without condition on the transcript, for every handler that was in its loop at a positive cursor when the change was committed, whatever happens afterwards |
| EventStreams.EventStream.FlushPending | AgentBridge/events.go:1006-1034 | A flush numbers the pending events in the order of their keys, keeps the newest replayLimit events, empties pending and leaves a token in every notify slot |
| EventStreams.EventStream.ReadAfter | AgentBridge/events.go:1045-1068 | The events after a cursor, with the stale, overflow and ahead flags |
| EventProtocol.ChainPassesOnce | AgentBridge/events.go:1318-1352 | In a transcript whose items join up, every cursor of the span is passed by exactly one item, and no other cursor by any |
| EventProtocol.ChainWithoutResync | AgentBridge/events.go:1318-1352 | A transcript without a resync is every cursor in increasing order |
| EventProtocol.ProjectIsStable | AgentBridge/events.go:1318-1352 | Events flushed later do not change what an earlier transcript sent |
| EventProtocol.ProjectWithoutResync | AgentBridge/events.go:1330-1339 | Reading a stretch of the log sends its accepted events in order |
| EventInvariant.AfterReadsTheLog | AgentBridge/events.go:1045-1068 | Against the log of everything flushed: overflow is reported exactly when a positive cursor has an unread event that left the ring; otherwise every later event is returned; cursor 0 gets whatever is retained |
| EventInvariant.StaleMeansBeforeTheGap | AgentBridge/events.go:1048-1050 | A positive assigned cursor is stale exactly when it was assigned before the last idle stop |
| EventInvariant.RetainedAreNewest | AgentBridge/events.go:1023-1025 | Evicting by slices keeps exactly the newest events of the log |
| EventInvariant.ReadKeeps | AgentBridge/events.go:1318-1352 | A read keeps the handler invariant: transcript, output and remaining work stay consistent with the log, after an overflow as well |
| EventInvariant.ProcessKeeps | AgentBridge/events.go:1330-1339 | Processing one event, written, filtered or failed, keeps the handler invariant |
| EventInvariant.HandlerOutlivesFlush | AgentBridge/events.go:1006-1034 | A flush keeps every handler consistent and gives every subscriber a token |
| EventInvariant.StepKeeps | AgentBridge/events.go:796-1068 | Every step of every interleaving keeps the invariant of the stream and all its handlers |
| EventSafety.NoSilentLoss | AgentBridge/events.go:1278-1352 | In every run a handler has passed each cursor after its start exactly once, by an event or by a resync notice, and has written the notices and the accepted events and nothing else |
| EventSafety.InOrderWithoutResync | AgentBridge/events.go:1318-1352 | Without a resync it has read every cursor of its span in order and written exactly the accepted events of that stretch of the log |
| EventSafety.TheLogOnlyGrows | AgentBridge/events.go:1017-1022 | Cursors are consecutive and never reassigned |
| EventSafety.EvictionIsReported | AgentBridge/events.go:1319-1339 | A handler whose unread event was evicted is told to resync at its next read and moves to the newest cursor; otherwise that read returns every later event |
| EventSafety.NoLostWakeup | AgentBridge/events.go:1027-1032 | A waiting handler has consumed all it read, and if events beyond its cursor exist it can wake |
| EventSafety.LeavesTheLoop | AgentBridge/events.go:1318-1353 | A handler leaves its loop if and only if its request or session ends, or a heartbeat, a resync notice or an event that its filter accepts cannot be written |
| EventSafety.OnlyIdleStopsMoveTheGap | AgentBridge/events.go:857-870 | No step but an effective idle stop changes gapCursor, and that sets it just past the newest cursor |
| EventSafety.GapIsStableWhileSubscribed | AgentBridge/events.go:857-870 | gapCursor does not change while anyone is subscribed, whatever stale timers fire |
| EventSafety.StaleExactlyBeforeTheLastStop | AgentBridge/events.go:1048-1050 | After an idle stop a positive assigned cursor is stale exactly when it had been assigned by then |
| EventSafety.NothingStaleBeforeAnyStop | AgentBridge/events.go:1048-1050 | Before any idle stop no cursor is stale |
| EventSafety.ResumedClientsLearnOfTheGap | AgentBridge/events.go:1299-1304 | A client that resumes across an idle stop is told to resync before anything else |
| EventSafety.EpochsCountIdleStops | AgentBridge/events.go:1017-1022 | The history variable behind the staleness results is the number of idle stops when the event was flushed |
| EventSafety.CursorZeroSkipsTheEvicted | AgentBridge/events.go:1058-1068 | A handler that reads from cursor 0, whatever the others do before it processes its first event, silently misses exactly the events already evicted at the read |
| EventRuns.CursorZeroLoses | AgentBridge/events.go:1058-1068 | For every ring size, a run in which a client asks for everything from cursor 0, one event more than the ring holds is flushed, and the client is given the second event with no notice of the first |
| EventSafety.NewcomersAreStaleAfterAnIdleStop | AgentBridge/events.go:1286-1304 | A handler without a cursor that opens after an idle stop writes a resync notice first if and only if something was flushed, and either nothing since that stop or so much between its two reads that its event left the ring; otherwise it has written nothing |
| EventSafety.NewcomersBeforeAnyStop | AgentBridge/events.go:1286-1304 | Before any idle stop only eviction between the two reads makes such a handler write a resync notice |
| EventRuns.NewcomerIsToldToResync | AgentBridge/events.go:1286-1304 | For every ring size, a run in which one client comes and goes, the poller stops idle, and the next client, without a cursor and with nothing flushed since, is sent a resync notice |
| Decimals.DecimalIsInjective | AgentBridge/session.go:106-106 | Request identifiers of different calls differ, and none is empty |
| Sessions.Session.BeginCall | AgentBridge/session.go:102-107 | A call takes the next number as its identifier and makes an empty one-slot channel |
| Sessions.Session.RegisterCall | AgentBridge/session.go:109-117 | A closed session registers nothing; an open one enters the call under its identifier |
| Sessions.Session.ForgetCall | AgentBridge/session.go:119-123 | The deferred deletion removes only the identifier of the call |
| Sessions.Session.Dispatch | AgentBridge/session.go:144-170 | One message of the read loop: only a response with a known identifier is delivered, an unsuccessful one without an error is given one, and a full slot drops it |
| Sessions.Session.CloseOnce | AgentBridge/session.go:172-178 | Closing marks the session closed and touches nothing else |
| Sessions.SessionStore.RegisterSession | AgentBridge/session.go:189-197 | The newcomer takes the identifier; a different session that held it is closed, the newcomer is not |
| Sessions.SessionStore.RemoveSession | AgentBridge/session.go:199-205 | A session removes only itself; a successor under the same identifier stays |
| SessionTable.MirrorsThroughout | AgentBridge/session.go:189-211 | The table of session objects and the table of session numbers stay images of one another through registration and removal, and lookups in both agree |
| SessionTable.MirrorsNewcomer | AgentBridge/session.go:189-197 | A new session given the next number is registered in both tables alike |
| Sessions.SessionStore.CloseAll | AgentBridge/session.go:224-236 | Shutdown empties the store and closes every session that was in it |
| SessionProtocol.CallStepMoves | AgentBridge/session.go:97-142 | Every step of a call changes its own pending entry and slot only, as its phase demands |
| SessionProtocol.StepKeeps | AgentBridge/session.go:97-178 | Every step of every interleaving of calls, reader and close keeps the invariant |
| SessionProtocol.RepliesAreTheCallsOwn | AgentBridge/session.go:97-142 | A returned reply belongs to the first message that entered the channel, which bears the identifier of the call; a disconnect is reported only after the session closed |
| SessionProtocol.RepliesTellTheResponse | AgentBridge/session.go:143-171 | A returned reply has the result of the first response to arrive for the call; it has no error exactly if that response was successful and carried none, else the error it carried, or invalid_engine_response if it carried none |
| SessionProtocol.OnlyResponsesAreRead | AgentBridge/session.go:143-152 | The reader takes up responses with an identifier and passes over every other message |
| SessionProtocol.ResponsesAreDelivered | AgentBridge/session.go:128-171 | A response to a waiting call that is read, looked up, offered, taken and returned is what the call returns |
| SessionProtocol.PendingIsTheOpenCalls | AgentBridge/session.go:97-123 | pending holds exactly the calls between registration and return |
| SessionProtocol.NoReplyIsLost | AgentBridge/session.go:134-141 | A waiting call can take a reply if and only if one has arrived, and it takes the first |
| SessionProtocol.LateRepliesFindNobody | AgentBridge/session.go:159-169 | A response is handed on if and only if its call is open when it is looked up |
| SessionReplacement.StepKeeps | AgentBridge/session.go:189-236 | Every step of registration, replacement, removal and shutdown keeps the invariant of the store |
| SessionReplacement.ReplacedSessionsAreClosed | AgentBridge/session.go:189-197 | A replaced session is closed or its close is under way, and is closed once its successor has finished registering |
| SessionReplacement.SuccessorsAreNeverEvicted | AgentBridge/server.go:195-211 | The newest session under an identifier is found by a lookup exactly until its own handler removes it, whatever the removals of those it replaced |
| SessionReplacement.LookupsFindTheNewest | AgentBridge/session.go:207-211 | Whatever a lookup finds is the newest session registered under the identifier |
| Numbers.NumbersRoundTrip | WebAssembly/harness/launcher-asset-worker.js:41-63 | Four bytes written in either order read back as the number modulo 2^32 |
| Numbers.BigEndianKeepsOrder | WebAssembly/harness/launcher-asset-worker.js:41-63 | The most significant byte stands first: comparing big-endian fields byte by byte compares their numbers |
| Numbers.LittleEndianIsReversed | WebAssembly/harness/launcher-asset-worker.js:41-63 | The other order has the same bytes from the other end |
| BigFormat.ErrorsPersist | WebAssembly/harness/launcher-asset-worker.js:247-268 | A directory that fails to parse fails the same way however many entries are asked for |
| BigFormat.ParsedEntriesFit | WebAssembly/harness/launcher-asset-worker.js:247-268 | Parsed paths have 1 to 260 bytes and no NUL, entries end inside the archive, and the records take exactly the directory |
| BigFormat.AcceptedEntriesFit | WebAssembly/harness/launcher-asset-worker.js:195-275 | In an accepted archive every entry lies inside the archive, none starts inside the directory, the directory has at most 64 MB, and the required content is there |
| BigArchives.AcceptsExactlyArchives | WebAssembly/harness/launcher-asset-worker.js:195-276 | An archive is accepted if and only if it is, byte by byte, BIGF, its size, its number of entries, and that many records with readable paths whose contents lie inside it and after the directory, within the limits, with the required contents among them |
| BigReader.DirectoryBuffer.Grow | WebAssembly/harness/launcher-asset-worker.js:227-241 | Growth, by chunks and then by doubling, ends with enough room and never exceeds 64 MB |
| BigReader.DirectoryBuffer.Append | WebAssembly/harness/launcher-asset-worker.js:216-244 | The buffer stays the prefix of the directory after byte 16 |
| BigReader.DirectoryBuffer.Ensure | WebAssembly/harness/launcher-asset-worker.js:216-245 | Either the buffer covers the wanted length, or the length exceeds 64 MB or the archive, and the matching error is returned |
| BigReader.FindTerminator | WebAssembly/harness/launcher-asset-worker.js:251-259 | The scan, fetching chunks as it goes, finds the terminator or the error that the whole directory has |
| BigReader.ReadRecord | WebAssembly/harness/launcher-asset-worker.js:247-268 | One record read through the buffer is that of the whole directory |
| BigReader.ValidateBig | WebAssembly/harness/launcher-asset-worker.js:195-275 | The chunked validation gives exactly the outcome, success or error, of reading the directory at once |
| BigWriter.PackScripts | WebAssembly/harness/launcher-asset-worker.js:889-913 | The script packer produces the image of the list of files |
| BigWriter.PackCursors | WebAssembly/harness/launcher-asset-worker.js:956-982 | The cursor packer produces the same image, or refuses an unexpected or too large total |
| BigWriter.Measure | WebAssembly/harness/launcher-asset-worker.js:895-897 | The two sums of a packer are the directory size and the data size |
| BigWriter.RecordAt | WebAssembly/harness/launcher-asset-worker.js:905-909 | The k-th record stands where the sizes of those before it put it |
| BigWriter.ContentAt | WebAssembly/harness/launcher-asset-worker.js:910-912 | The bytes of the k-th file stand where the sizes of those before it put them |
| BigRoundTrip.PrefixParses | WebAssembly/harness/launcher-asset-worker.js:247-268 | The first k records of an image parse to the first k files |
| BigRoundTrip.PackedIsAccepted | WebAssembly/harness/launcher-asset-worker.js:195-275 | The image of any list of files within the limits is accepted and reads back as that list |
| BigRoundTrip.AcceptedIsWithinLimits | WebAssembly/harness/launcher-asset-worker.js:195-275 | Beyond any limit, the image is refused or reads back as something else |
| BigRoundTrip.BigRoundTrip | WebAssembly/harness/launcher-asset-worker.js:195-275 | The round trip holds if and only if the list has at most 200000 entries, 64 MB of directory, valid paths, less than 2^32 bytes and the required content |
| BigRoundTrip.EntriesTileTheImage | WebAssembly/harness/launcher-asset-worker.js:899-911 | Entries follow one another from the end of the directory to the end of the image and hold the bytes of the files |
| IsoReader.Read | WebAssembly/harness/launcher-asset-worker.js:143-172 | The reader of an entry, for both layouts, with every slice inside what was read and every error path |
| IsoReader.RawReadBytes | WebAssembly/harness/launcher-asset-worker.js:155-171 | Byte i of a raw read comes from ((L+i)/2048)*2352+16+(L+i)%2048 |
| IsoReader.RawReadsAsCooked | WebAssembly/harness/launcher-asset-worker.js:143-172 | A raw image reads as the cooked image of the same disc if and only if the read is not an aligned read of no bytes that the cooked image would allow |
| IsoReader.BothSucceedOrFail | WebAssembly/harness/launcher-asset-worker.js:155-160 | A raw read succeeds exactly when its bytes lie in complete sectors and it is not an aligned read of nothing |
| Cabinet.UpdatedDictionary | WebAssembly/harness/launcher-asset-worker.js:757-767 | The new dictionary is the last 32768 bytes, or all, of the old one and the block |
| Cabinet.WindowOfWindow | WebAssembly/harness/launcher-asset-worker.js:757-767 | Keeping only the window loses nothing: it stays the end of everything expanded |
| Cabinet.OverlapContinues | WebAssembly/harness/launcher-asset-worker.js:849-855 | What a block contributes to an entry is what the entry was missing, at the place where it was missing it |
| Cabinet.NextBlock | WebAssembly/harness/launcher-asset-worker.js:1063-1075 | One block: bounds, signature, inflation against the dictionary and size, with every error |
| Cabinet.ExpandSettles | WebAssembly/harness/launcher-asset-worker.js:1062-1088 | Once there is enough or something failed, further blocks change nothing |
| Cabinet.ReadGroup | WebAssembly/harness/launcher-asset-worker.js:1047-1091 | Each requested entry gets exactly its stretch of the expanded folder, or the error of the expansion |
| CabinetExtraction.WriteAll | WebAssembly/harness/launcher-asset-worker.js:769-783 | Partial writes add up to the whole; only storage that stops or misreports makes it fail |
| CabinetExtraction.WriteShares | WebAssembly/harness/launcher-asset-worker.js:847-858 | A block adds to every file its share, and to the progress the bytes written |
| CabinetExtraction.WriteBlocks | WebAssembly/harness/launcher-asset-worker.js:822-865 | The loop over blocks leaves in every file its part of the stream, and the progress is the sum of the parts |
| CabinetExtraction.ExtractFolder | WebAssembly/harness/launcher-asset-worker.js:811-887 | On success every file is its entry's stretch of the folder, with a valid header, and progress has grown by the sum of the sizes; otherwise the failure is that of the folder, of the first bad header, or of unreliable storage |
| CabinetExtraction.HeadersAreMagic | WebAssembly/harness/launcher-asset-worker.js:866-880 | An archive must begin with BIGF, a video with BIK or KB2 |
| CabinetExtraction.TotalOfStretches | WebAssembly/harness/launcher-asset-worker.js:855-856 | The bytes written for all entries are the sum of their sizes |
| CabinetSplitting.ExpandsToBlocks | WebAssembly/harness/launcher-asset-worker.js:822-865 | Expansion reads whole blocks in order and stops at the first point where it has enough |
| CabinetSplitting.AnyCutExtractsTheSame | WebAssembly/harness/launcher-asset-worker.js:822-865 | For any cut of a folder into blocks, stored or compressed, the entries come out as their stretches of the whole, exactly when the blocks reach their last byte |
| CabinetSplitting.WrittenFolderIsExtracted | WebAssembly/harness/launcher-asset-worker.js:823-868 | A folder written plain, or with any compressor that inflate undoes given the last 32768 bytes before each block, is extracted as the stream it was cut from |
| CabinetSplitting.YieldIsStretches | WebAssembly/harness/launcher-asset-worker.js:1048-1091 | The buffers that reading a group fills are exactly the entries' stretches of the stream, so that what is shown of the stretches holds of the buffers |
| CabinetSplitting.FirstFaultIsReported | WebAssembly/harness/launcher-asset-worker.js:823-850 | The first block needed that lacks the CK signature, does not inflate, or inflates to another size decides the error |
| Adpcm.Next | WebAssembly/shims/Mss.H:1072-1105 | Expanding a nibble keeps the predictor in 16 bits and the index in 0 to 88 |
| AdpcmDecoder.DecodeNibble | WebAssembly/shims/Mss.H:1072-1105 | The in-place expansion of one nibble changes one channel's state and returns its predictor |
| AdpcmQuantiser.NibbleHasADirection | WebAssembly/shims/Mss.H:1090-1097 | A nibble below 8 never lowers the predictor, one from 8 on never raises it |
| AdpcmQuantiser.NibbleMovesByEighths | WebAssembly/shims/Mss.H:1090-1092 | Short of saturation a nibble with magnitude m moves the predictor by (2m + 1) eighths of the step, rounded down |
| AdpcmQuantiser.NibbleIsMirrored | WebAssembly/shims/Mss.H:1090-1097 | A nibble and the nibble plus 8 move it by equal and opposite amounts |
| AdpcmQuantiser.NibbleMovesTheIndex | WebAssembly/shims/Mss.H:1085-1104 | Magnitudes below 4 lower the index by one, the others raise it by 2, 4, 6 or 8, within the table |
| AdpcmQuantiser.StepsGrow | WebAssembly/shims/Mss.H:1074-1084 | The 89 steps grow strictly from 7 to 32767 |
| AdpcmQuantiser.QuantiserLaw | WebAssembly/shims/Mss.H:1072-1105 | For any 16-bit target within two steps of the predictor the nibble that a quantiser picks decodes to within an eighth of the step, and less than one, of it |
| AdpcmChannel.SlowSignalsAreTracked | WebAssembly/shims/Mss.H:1072-1105 | Any signal whose neighbours differ by at most 7 stays within two steps of the decoder throughout, from any starting index |
| AdpcmChannel.EncodedChannelIsHeard | WebAssembly/shims/Mss.H:1174-1228 | Every sample of a channel coded by that quantiser is decoded to within an eighth of the step then in force, and less than one, of the one meant |
| AdpcmDecoder.OneMoreSample | WebAssembly/shims/Mss.H:1213-1224 | Storing one sample, if the block has a frame for it, touches no other place of the output |
| AdpcmDecoder.OneMoreByte | WebAssembly/shims/Mss.H:1203-1227 | The next payload byte advances the channel whose turn it is by two samples and no other channel |
| AdpcmDecoder.OwnerOfGroup | WebAssembly/shims/Mss.H:1209-1211 | Payload bytes belong to the channels in turn, four at a time |
| AdpcmDecoder.DecodePayload | WebAssembly/shims/Mss.H:1203-1227 | The nested loops over groups, channels and bytes leave every channel as if its bytes had been decoded alone |
| AdpcmDecoder.DecodeBlock | WebAssembly/shims/Mss.H:1174-1228 | A whole block, headers included, writes the block's frames and nothing else |
| AdpcmBlocks.CountFrames | WebAssembly/shims/Mss.H:1130-1139 | The counting pass, whose guard and sum wrap at 2^32, ends with the capacity of the block layout modulo 2^32 |
| AdpcmAllocation.AllocationHolds | WebAssembly/shims/Mss.H:1148-1150 | The allocation computed in 32 bits holds header and samples if and only if 44 + 2 * frames * channels is below 2^32, and is then exactly that |
| AdpcmAllocation.DecodeSamples | WebAssembly/shims/Mss.H:1128-1229 | The second pass ends with exactly the frames the first counted, capped by the declared count, and every sample is that of the per-channel decoder; for blocks of at most 2^30 bytes some store lands outside the 32-bit allocation if and only if 44 + 2 * frames * channels is 2^32 or more |
| AdpcmAllocation.BlockStartsNear | WebAssembly/shims/Mss.H:1170-1229 | Below every limit, and no further from it than a block is long, some block starts whose header is stored as a sample |
| AdpcmAllocation.StoresOutsideExactly | WebAssembly/shims/Mss.H:1148-1229 | Among the samples that a decoded stream stores one is outside the allocation if and only if the image does not fit 32 bits |
| AdpcmBlocks.DecodeAll | WebAssembly/shims/Mss.H:1170-1229 | The second pass, though its position may wrap at 2^32, writes all frames and stops |
| AdpcmEncoder.EncodedStreamIsHeard | WebAssembly/shims/Mss.H:1170-1229 | What decompression leaves for a stream of blocks written by such an encoder (headers, then rounds of four bytes per channel, the lower half of a byte first) is in every block, frame and channel the sample meant: the first of a block exactly, the others within an eighth of the step and less than one |
| WavChunks.EncodedIsDecompressed | WebAssembly/shims/Mss.H:1110-1150 | Such a stream of one to eight channels is decompressed, to as many frames as were encoded modulo 2^32, and one of more channels is refused |
| AdpcmAllocation.ShortStreamsFit | WebAssembly/shims/Mss.H:1130-1150 | A stream of at most 2^30 - 12 bytes always fits its allocation |
| AdpcmAllocation.LargeStreamOverruns | WebAssembly/shims/Mss.H:1148-1229 | A concrete mono stream just above 2^30 bytes gets 2934 bytes for an image of 4294970230, and stores a block header at byte 8208 |
| AdpcmFill.ShareIsLength | WebAssembly/shims/Mss.H:1209-1211 | The number of payload bytes of a channel depends on the length of the payload only |
| AdpcmFill.ShareInRounds | WebAssembly/shims/Mss.H:1209-1211 | Whole rounds give every channel four bytes and the rest go to the channels in turn |
| AdpcmFill.LastShareIsLeast | WebAssembly/shims/Mss.H:1209-1211 | No channel has fewer bytes than the last |
| AdpcmFill.EverySampleIsWritten | WebAssembly/shims/Mss.H:1170-1229 | Every output sample is written if and only if in each decoded block the last channel has bytes for all of the block's frames |
| AdpcmFill.FillsExactly | WebAssembly/shims/Mss.H:975-981 | A block not cut short is filled if and only if it is mono or its payload, modulo four bytes per channel, is less than half a byte per channel |
| AdpcmFill.UncutStream | WebAssembly/shims/Mss.H:1203-1227 | A stream that no declared count cuts short is filled if and only if that holds of its block size and of its last block |
| AdpcmFill.StereoCanBeLeftUnwritten | WebAssembly/shims/Mss.H:1203-1227 | One stereo group counts five frames and writes one sample of the second channel |
| Wav.WavInfo | WebAssembly/shims/Mss.H:982-1063 | The chunk walk, with 32-bit wrap-around of offsets, gives what the recursive reading of the chunks gives, and always ends |
| WavChunks.ParsesItsChunks | WebAssembly/shims/Mss.H:982-1063 | A file of any chunks in any order is read as its last format, last sample count and last data chunk say, wherever they stand; it is refused exactly without a format or data, or with a format chunk of fewer than 16 bytes |
| WavChunks.PcmIsCounted | WebAssembly/shims/Mss.H:1041-1048 | PCM data of n frames is counted as n samples, whatever the sample size |
| WavChunks.AdpcmIsCounted | WebAssembly/shims/Mss.H:1041-1061 | A count in the file goes before any other; without one ADPCM counts as many frames as decompression yields |
| Wav.WriteHeader | WebAssembly/shims/Mss.H:1148-1168 | The stores into the 44-byte header produce the canonical PCM header |
| WavChunks.ImageIsAWaveFile | WebAssembly/shims/Mss.H:1148-1168 | A decompressed image is a file of exactly two chunks, its format and its samples |
| WavChunks.FormatFields | WebAssembly/shims/Mss.H:1152-1166 | The format written is 16-bit PCM with the channels, the rate, and the matching bytes per second and per frame |
| Wav.Decompress | WebAssembly/shims/Mss.H:1110-1236 | Something is decompressed exactly for an ADPCM stream of 1 to 8 channels with room for block headers and at least one frame; the size returned is the 32-bit one, the header and every decoded sample are stored whatever that size, and a store lands outside it if and only if 44 + 2 * frames * channels is 2^32 or more |
| Wav.ParsesTheDecompressed | WebAssembly/shims/Mss.H:982-1063 | Parsing the decompressed image, whatever follows it in memory, returns PCM, 16 bits, the rate and channels, data at byte 44 and as many samples as were decoded, if the image ends more than eight bytes below 2^32; a larger one, followed by zeros, is refused |
| Wildcard.WildcardMatch | WebAssembly/shims/windows.h:2498-2526 | The loop that remembers only the last star returns true exactly when the name matches, with a star for any run and a question mark for any character, up to case; it terminates |
| Wildcard.CaseDoesNotMatter | WebAssembly/shims/windows.h:2498-2526 | Upper and lower case of A to Z are the same to a pattern and to a name |
| Wildcard.PlainPatternsAreNames | WebAssembly/shims/windows.h:2498-2526 | A pattern without wildcards matches the name itself, up to case, and no other |
| Wildcard.QuestionMarksCount | WebAssembly/shims/windows.h:2498-2526 | Question marks match the names of that length |
| Wildcard.StarMatchesEndings | WebAssembly/shims/windows.h:2498-2526 | A star before a plain ending matches exactly the names that end so |
| Wildcard.EarlierStarIsObsolete | WebAssembly/shims/windows.h:2503-2508 | Once a later star is reached, no other choice for an earlier star can matter |
| Wildcard.RetryAdvances | WebAssembly/shims/windows.h:2515-2519 | When the literal after the star fails at the first place, the star must swallow a character |
| Wildcard.StarChoosesASuffix | WebAssembly/shims/windows.h:2503-2508 | A star matches only if the rest matches some suffix |
| Wildcard.AtNameEnd | WebAssembly/shims/windows.h:2522-2525 | At the end of the name only stars may be left in the pattern |
| Matrix.Leibniz | WebAssembly/shims/D3DX8Math.h:256-318 | The determinant used here is the signed sum over all 24 permutations |
| Matrix.DeterminantOfSwap | WebAssembly/shims/D3DX8Math.h:284-291 | Exchanging rows negates the determinant |
| Matrix.DeterminantOfScaledRow | WebAssembly/shims/D3DX8Math.h:293-297 | Scaling a row scales it |
| Matrix.DeterminantOfSubtraction | WebAssembly/shims/D3DX8Math.h:299-307 | Subtracting a multiple of another row leaves it unchanged |
| MatrixInversion.ReachedAfterSwap | WebAssembly/shims/D3DX8Math.h:284-291 | A row exchange keeps the relation of both halves to the matrix and its determinant |
| MatrixInversion.ReachedAfterDivision | WebAssembly/shims/D3DX8Math.h:293-297 | So does dividing the pivot row |
| MatrixInversion.ReachedAfterSubtraction | WebAssembly/shims/D3DX8Math.h:299-307 | So does clearing another row |
| MatrixInversion.ReachedAtEnd | WebAssembly/shims/D3DX8Math.h:310-318 | When the left half is the identity, the right half is a two-sided inverse and the accumulated product is the determinant |
| MatrixInversion.FindPivot | WebAssembly/shims/D3DX8Math.h:267-275 | The pivot is the first of the largest candidates at or below the diagonal |
| MatrixElimination.LargestEntry | WebAssembly/shims/D3DX8Math.h:267-275 | Its row is a largest candidate, and every earlier one is strictly smaller |
| MatrixInversion.MatrixInverse | WebAssembly/shims/D3DX8Math.h:256-318 | A returned matrix is a two-sided inverse and the determinant that of the matrix, not zero; nothing is returned, and the determinant reported as zero, if and only if for some k, with k rows of the matrix chosen by their leading minors, every other row has a minor within the tolerance times that of the chosen rows |
| MatrixPivots.MinorsWrittenOut | WebAssembly/shims/D3DX8Math.h:267-282 | Those minors are the determinants of one, two, three and four rows in the first columns |
| MatrixPivots.CandidateIsQuotient | WebAssembly/shims/D3DX8Math.h:267-275 | After k turns each pivot candidate is the quotient of two minors of the matrix |
| MatrixPivots.SameChoice | WebAssembly/shims/D3DX8Math.h:267-282 | Choosing by minors and choosing by candidates pick the same row, and refuse together |
| MatrixPivots.FailsExactlyWhenRefused | WebAssembly/shims/D3DX8Math.h:267-307 | The elimination fails exactly under the condition on the minors of the input |
| MatrixBounds.TurnDoubles | WebAssembly/shims/D3DX8Math.h:293-307 | With the largest pivots a turn at most doubles the remaining entries |
| MatrixBounds.StuckMeansSmall | WebAssembly/shims/D3DX8Math.h:277-282 | If column k has no candidate above the tolerance, the determinant is at most 24 tolerances times the cube of the entry bound |
| MatrixBounds.WellScaledIsInverted | WebAssembly/shims/D3DX8Math.h:277-282 | A matrix with entries of size at most B and a determinant of size above 24 * 0.00000001 * B^3 is inverted |
| MatrixBounds.InvertedHasDeterminant | WebAssembly/shims/D3DX8Math.h:277-282 | An inverted matrix has a determinant of size at least the fourth power of the tolerance |
| MatrixBounds.IdentityIsInverted | WebAssembly/shims/D3DX8Math.h:256-318 | The identity is inverted |
| MatrixElimination.StuckForGood | WebAssembly/shims/D3DX8Math.h:277-282 | Once a column has no candidate above the tolerance there is no result |
| MatrixInversion.TinyFirstColumnIsRefused | WebAssembly/shims/D3DX8Math.h:277-282 | A first column within the tolerance is refused at once |
| MatrixBounds.SingularIsRefused | WebAssembly/shims/D3DX8Math.h:277-282 | A singular matrix is always refused |
| MatrixInversion.InvertibleButRefused | WebAssembly/shims/D3DX8Math.h:277-282 | An invertible matrix with tiny entries is refused and reported as singular |
| Utf8.AppendCodepoint | WebAssembly/src/wasm_agent_api.cpp:174-191 | The bytes appended for a code point |
| Utf8.EncodeIsUtf8Char | WebAssembly/src/wasm_agent_api.cpp:174-191 | Every scalar value is written as one character of the grammar of RFC 3629, section 4, that means it |
| Utf8.Utf8CharIsEncoded | WebAssembly/src/wasm_agent_api.cpp:174-191 | Every character of the grammar is the encoding of the scalar value it means |
| Utf8.ParseOfEncode | WebAssembly/src/wasm_agent_api.cpp:174-191 | Parsing undoes encoding |
| Utf8.EncodeOfParse | WebAssembly/src/wasm_agent_api.cpp:613-669 | Encoding undoes parsing: no text has a second spelling |
| Utf8.RangeTestsAreTheGrammar | WebAssembly/src/wasm_agent_api.cpp:640-654 | The tests on the accumulated value are the byte ranges of the grammar |
| Utf8.DecodeOne | WebAssembly/src/wasm_agent_api.cpp:621-654 | One turn of the decoder accepts exactly the characters of the grammar and yields their numbers |
| Utf8.DecodeUtf8 | WebAssembly/src/wasm_agent_api.cpp:613-669 | Exactly the well-formed strings of at most 4096 characters are accepted, and the output is their UTF-16 or UTF-32 form and a zero |
| Utf8.UnicodeToUtf8 | WebAssembly/src/wasm_agent_api.cpp:193-223 | The encoding of the code points, unpaired surrogates replaced, up to 1024 of them, and whether there were more |
| Utf8RoundTrip.BadUnitsAreReplaced | WebAssembly/src/wasm_agent_api.cpp:193-223 | An unpaired surrogate or a unit beyond U+10FFFF is sent as EF BF BD |
| Utf8RoundTrip.CodepointsOfWiden | WebAssembly/src/wasm_agent_api.cpp:193-223 | Reading back what the decoder stored gives the code points, for both sizes of WideChar |
| Utf8RoundTrip.DecodeThenEncode | WebAssembly/src/wasm_agent_api.cpp:193-223 | Decoding and encoding again gives the original bytes if and only if there are at most 1024 characters |
| Utf8RoundTrip.CStringOfEncode | WebAssembly/src/wasm_agent_api.cpp:193-223 | Only the code point 0 is written with a zero byte, so the C string of the written text ends at its first NUL |
| Utf8RoundTrip.EncodeThenDecode | WebAssembly/src/wasm_agent_api.cpp:193-223 | The other way round, 16-bit text comes back from decode_utf8 as it was if and only if no surrogate is unpaired, it has no NUL and at most 1024 code points |
| Utf8RoundTrip.EncodeThenDecodeWide | WebAssembly/src/wasm_agent_api.cpp:193-223 | 32-bit text comes back if and only if it has only scalar values, no NUL and at most 1024 units |
| Utf8RoundTrip.TextsThatDoNotSurvive | WebAssembly/src/wasm_agent_api.cpp:193-223 | Concrete texts that do not come back: an unpaired surrogate, a NUL, a number beyond Unicode, 1025 letters, and a surrogate pair in 32-bit units |
| Drive.CandidatesDiffer | WebAssembly/harness/launcher-desktop-apps.js:104-107 | Different numbers give names that differ in more than case |
| Drive.NumberedWithExtension | WebAssembly/harness/launcher-desktop-apps.js:101-107 | The number goes before the part from the last dot on |
| Drive.NumberedWithoutExtension | WebAssembly/harness/launcher-desktop-apps.js:101-107 | Without a dot, or with nothing before the only one, it goes to the end |
| Drive.TakenNumbersAreFew | WebAssembly/harness/launcher-desktop-apps.js:106-107 | The numbers 2, 3, ... that are all taken are no more than the siblings |
| Drive.VirtualDrive.UniqueName | WebAssembly/harness/launcher-desktop-apps.js:99-108 | The search ends; its result is no sibling's name up to case: the requested name if free, else the first free numbered one |
| Drive.FreeNamesAreKept | WebAssembly/harness/launcher-desktop-apps.js:99-100 | A name that nobody in the folder has is kept as asked for, whoever has it elsewhere |
| Drive.OwnNameIsFree | WebAssembly/harness/launcher-desktop-apps.js:99-100 | A node may be renamed to its own name, in another case if wanted |
| Drive.NamesakeBecomesTwo | WebAssembly/harness/launcher-desktop-apps.js:104-107 | The first namesake in a folder gets number 2 |
| Drive.VirtualDrive.Subtree | WebAssembly/harness/launcher-desktop-apps.js:445-450 | The fixpoint loop ends with exactly the node and everything that hangs below it |
| Drive.ClosedHoldsDescendants | WebAssembly/harness/launcher-desktop-apps.js:445-450 | A set closed under children holds every descendant, through any number of parents |
| Drive.DeletingASubtreeKeepsTheDrive | WebAssembly/harness/launcher-desktop-apps.js:451-451 | Without a subtree, and only without it, the rest is a drive with distinct IDs, no missing parent and distinct sibling names |
| Drive.CreatingKeepsTheDrive | WebAssembly/harness/launcher-desktop-apps.js:412-414 | A new node in an existing folder under a free name keeps the drive valid |
| Drive.RenamingKeepsTheDrive | WebAssembly/harness/launcher-desktop-apps.js:415-418 | A rename to a free name keeps the drive valid |
| Drive.Requested | WebAssembly/harness/launcher-desktop-apps.js:408-408 | A requested name has no forbidden character and is as long as the trimmed input |
| Drive.RequestedCharacters | WebAssembly/harness/launcher-desktop-apps.js:408-408 | Character by character: the nine that a file name may not have become dashes, the rest stays |
| Drive.TrimTakesBlanks | WebAssembly/harness/launcher-desktop-apps.js:408-408 | Trimming takes blanks off both ends, all those of String.prototype.trim, and nothing else |
| Drive.CleanNamesAreKept | WebAssembly/harness/launcher-desktop-apps.js:408-408 | A name without forbidden characters or blank ends is asked for as it stands |
| Drive.RepairIsFinal | WebAssembly/harness/launcher-desktop-apps.js:408-408 | Repairing a repaired name changes nothing |
| Drive.CreatingNeedsTheFolder | WebAssembly/harness/launcher-desktop-apps.js:412-414 | A new node is an orphan if and only if its folder does not exist |
| Drive.VirtualDrive.CreateFolder | WebAssembly/harness/launcher-desktop-apps.js:406-426 | One new folder with a unique name, or, if it cannot be stored or the name is empty, the drive as before |
| Drive.VirtualDrive.RenameSelected | WebAssembly/harness/launcher-desktop-apps.js:406-426 | Only the selected node gets the unique name, or nothing changes |
| Drive.VirtualDrive.DeleteSelected | WebAssembly/harness/launcher-desktop-apps.js:428-460 | Exactly the selected node and what hangs below it are gone, never the root; a failed persist restores the drive |
| DriveTree.EditKeepsTheTree | WebAssembly/harness/launcher-desktop-apps.js:406-460 | Creating, renaming and deleting keep the drive valid and every node hanging below a root that is there and has no parent |
| DriveTree.TheDriveStaysATree | WebAssembly/harness/launcher-desktop-apps.js:406-460 | Over any sequence of edits the drive stays one tree: no detached cycle of folders can arise |
| DriveTree.SeedIsATree | WebAssembly/harness/launcher-desktop-apps.js:11-25 | The drive that a new visitor gets is such a tree |

## Left out

- HudDiff.DiffHudSnapshots: summaries and details of HUD events are not modelled.
- TacticalEvents.MergeEvents: summaries are left out of the merged event, and its details are merged in EventDetails.
- SnapshotDiff.EventAccumulator.AddEmission: summaries are not modelled; the details that add records are those of EventDetails.
- SnapshotDiff.EventAccumulator.SortedEvents: the removal of an empty list of changes is that of EventDetails.
- EventDetails.DetailsRecord.Record: a change is an opaque text; its id and template fields are not told apart.
- TacticalEvents.EventArea.IncludePosition: positions are reals, so rounding of float64 is not modelled.
- SnapshotDiff.DiffEventSnapshots: texts of summaries and details are not modelled; the capability map is a list without repeated keys, in the order in which Go happens to visit it.
- EventArrival.AcceptedChangesArrive: a change is one of the events that the differs hand to mergePending, and the limit of 128 objects is on the group that one flush coalesces; that a flush follows is not claimed.
- EventFilters.CoalescingHidesNothing: a filter is what parseEventFilter returns; the parsing of the query text is not modelled.
- EventSafety.NoSilentLoss: cursors, subscription numbers and request numbers are unbounded; the wrap of uint64 is not modelled.
- EventProtocol: tickers, request timeouts and HTTP are steps that may happen at any time, and a poll may commit even after its run was cancelled; that a step eventually happens is not claimed.
- Sessions.Session.Dispatch: the lookup and the send are one step here; SessionProtocol separates them and lets other steps come between.
- SessionProtocol: encoding of arguments, the wire and the write mutex are not modelled; a write succeeds or fails at will.
- BigReader.ValidateBig: the lower-cased windows-1252 reading of a path is an uninterpreted function of its bytes.
- BigWriter.PackScripts: loading the files and writing the finished archive to storage are not part of it.
- IsoReader.Read: finding the layout and the directory of an image is not modelled.
- Cabinet.NextBlock: DEFLATE is an uninterpreted function of the block and the dictionary that may fail; checksums are not read, as in the source.
- CabinetExtraction.ExtractFolder: one folder of one group; the grouping of targets by cabinet and folder is not modelled.
- AdpcmQuantiser.QuantiserLaw: the repository has no encoder; the quantiser and the block writer are the reference that the decoder is held to.
- CabinetSplitting.WrittenFolderIsExtracted: the repository writes no cabinets; the writer is any compressor that inflate undoes.
- AdpcmAllocation.DecodeSamples: what the stores past a wrapped allocation destroy is not modelled, nor is a failed allocation; a block is at most 2^31 bytes, where AIL_WAV_info reads 16 bits.
- Wav.WavInfo: the image is the memory from its pointer on, which may be longer than the file; what lies after it reads as zero.
- Wav.Decompress: null pointers for the outputs are not modelled, and the header and the samples are two arrays rather than one allocation; the byte at which each sample is stored is AdpcmAllocation.Lands.
- Wav.ParsesTheDecompressed: an image that ends in the last eight bytes below 2^32 is refused because the chunk walk's guard wraps, but malloc cannot provide such an image in a 32-bit address space.
- MatrixInversion.MatrixInverse: exact reals; rounding, infinities and NaN are not modelled, and the null check of the output pointer is left out.
- Utf8.UnicodeToUtf8: code units are natural numbers, so a negative WideChar is not modelled.
- Wildcard.WildcardMatch: std::tolower is that of the "C" locale.
- Drive.VirtualDrive.UniqueName: lower-casing is that of ASCII.
- Drive.VirtualDrive.CreateFolder: fresh identifiers and the clock are parameters; nodes managed by the engine, the version-2 migration, imports and the user interface are left out.
- REST field validation, SSE and JSON formatting, WebRTC, service workers, terrain quantisation, Miles playback and the Win32 stubs: each is settled by reading one branch or rests on code outside this model.
