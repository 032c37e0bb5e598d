# Verified models of the Akonadi client library

Dafny models of the six stateful parts of the Akonadi client library, with proofs about their
whole runs. `dafny verify dfyconfig.toml` checks everything.

## Collection synchronisation

`CollectionSync` reconciles a local collection tree with a remote listing that may come in
chunks and in any order, while create, modify, move and delete jobs finish in any order.

- `CollectionSync` is the job itself, on the node objects of `SyncNodes`: child lists, remote-id
  maps, waiting remote nodes and marks, updated in place. Each method is proved against the state
  transition of the same name in `SyncState`.
- `SyncListing`, `SyncMatching`, `SyncGrowth` and `SyncDeletion` say what the local tree, the
  matching, a new node and the deletion search mean.
- `SyncIdentity` says for which listed collection a remote one is taken, in terms of what the
  server listed and in which order.
- `SyncLedger`, `SyncRun` and `SyncContent` follow one pass over waiting nodes; `SyncSystem` puts
  client, server tree and backend together as a step system; `SyncConvergence` and
  `SyncTheorems` prove what every run of it keeps and reaches.
- `SyncSteps`, `SyncUpdates`, `SyncMoves` and `SyncRemoval` say exactly which modify, move and delete
  jobs each step issues, in full and in incremental listings; `SyncGlobal` is convergence with
  global remote ids; `SyncSurvival` says when something outlives the removal of its parent.
- `SyncPass`, `SyncStranding` and `SyncStrandedRuns` prove when a run can end with the orphan
  error: exactly when some listed collection's parent is missing while an ancestor of that parent
  was recovered by name. `SyncLimits` has the smallest example, and what the error about broken
  chains of parents does and leaves undone.

Assumed of the surroundings: jobs succeed, also a creation below a collection that was deleted
meanwhile; the server hands out positive uids it never used, and deletes with a collection all below
it; a deletion means the collection with the uid or, without uid, those with the remote id; the local
listing reports each stored collection once, with its parent by uid; the server tree is
connected; accepted remote collections have remote ids that are unique (per parent, or globally)
and none equals the root's; the parent of each is in the local tree or listed too, which in global
mode includes that the parent relation has no cycle; the modes are set before the first delivery.
In hierarchical mode the listing also fits the local tree (`SyncMatching.Fits`): what is matched is
unambiguous, and nothing can be stranded. That holds whenever no local remote id is empty
(`SyncSystem.AllRidsListingFits`); otherwise `SyncStrandedRuns.StrandedIff` shows that it cannot be
done without.

## Change recorder

`ChangeRecorder` is a queue of notifications kept in a file. `DataStream` is the byte format,
`ChangeFile` the file, with its count-and-version word, its start offset and its records;
`RecorderState` has the operations and their runs, and the plain recorder they refine. The file is
a byte sequence, and loading is defined on every byte sequence: none of the results assumes a
well-formed file. Opening and writing files succeeds.

## Fetch job, model, cache, resolver

- `FilterDescendants` reduces a list of collections to roots whose trees do not overlap;
  `FetchProtocol` and `CollectionFetchJob` are nested fetch jobs with their batching timer, and
  `FetchResults` says what they found when they end.
- `ModelState` and `CollectionModel` are the model's four hash maps, with insertion, removal and
  index navigation.
- `CacheState` and `EntityCache` are the bounded cache with asynchronous fetches.
- `PathSplitting` and `CollectionPathResolver` convert between paths and ids.

`Collections` and `Trees` hold what the parts share: collection values, lists, sums of families
of multisets, and trees given by parent pointers.

## What the code does differently from what it says

- `findBestLocalAncestor` is documented never to return null, and the error for a broken chain of
  parents suggests that every such chain is reported. A remote collection without any parent is
  created below the root instead (`SyncLimits.ParentlessLandsAtRoot`). And the error ends the pass
  before the creations it had already decided on are issued (`SyncLimits.BrokenPass`).
- The recovery of lost remote ids by name can strand nodes below the recovered collection, so that
  a complete listing ends with the orphan error (`SyncStrandedRuns.StrandedIff`,
  `SyncLimits.RecoveryStrands`). And the deletion search stops at local collections without remote
  id: what is at or below them stays on the server (`SyncTheorems.ConvergesIff`).
- A collection that an incremental listing changes below one it reports as removed can outlive that
  one: if it is still to be created when the deletion is issued, it is created below a collection
  that is gone (`SyncSurvival.SurvivesIff`).
- With global remote ids, a collection whose new parent is not there yet is not moved; it stays
  where it was unless the parent came with the local tree (`SyncGlobal.GlobalConvergence`).
- `EntityCache::update` is documented to trigger a re-fetch; it does so only for an entry that is
  still pending, and otherwise just drops it (`EntityCache.EntityCache.update`).
- `splitPath` does not pass over an escaped slash at the very end of a path, and `path()` does not
  escape names (`PathSplitting.SplitInvertsJoin`, `CollectionPathResolver.PathRoundTrip`).
- The collection model enters an invalid collection when a collection is delivered twice before
  its parent (`ModelState.DeliveredTwice`), and removing a row forgets only one level of children,
  so that deeper ones are cut off (`ModelState.RemovalGroundedIff`).

## Model

| member | source | states |
|---|---|---|
| SyncTheorems.Convergence | akonadi/collectionsync.cpp:518-588 | any run of a full hierarchical sync of a complete listing that commits leaves every accepted path stored once, with the remote data except that a local display attribute wins; beside that it leaves exactly what is at or below collections that had no remote id and no match while their parent had one, and leaves that as it was |
| SyncTheorems.ConvergesIff | akonadi/collectionsync.cpp:449-471 | so the server ends as the accepted remote tree and nothing else if and only if in the beginning every collection without remote id whose parent is matched, or is the root, is matched itself |
| SyncGlobal.GlobalConvergence | akonadi/collectionsync.cpp:337-588 | with global remote ids, any run of a full sync of a complete listing that commits leaves every accepted collection stored with the listed data, a local display attribute winning, below the match of its parent, except that one whose parent was not there in the beginning may have stayed where it was; beside that it leaves exactly what did not stand at or below a collection that could be deleted in the beginning, and as it was |
| SyncGlobal.NothingElseIff | akonadi/collectionsync.cpp:449-483 | so nothing but listed collections is left if and only if in the beginning every unmatched collection stood at or below one that could be deleted |
| SyncMoves.MovesExact | akonadi/collectionsync.cpp:361-368 | every step with global remote ids issues exactly one move for each collection it updates whose parent has a match other than the node it hangs on, to that match, and no other; a move is used up only when it finishes |
| SyncMoves.NeedsIsElsewhere | akonadi/collectionsync.cpp:361-368 | for a collection that is updated while its parent has a match, a move is needed if and only if the server stores it elsewhere |
| SyncMoves.MovedHome | akonadi/collectionsync.cpp:337-383 | in every run with global remote ids, a collection updated while its parent had a match is stored below exactly that match at the commit, unless it was deleted |
| SyncRemoval.RemovalsExact | akonadi/collectionsync.cpp:527-543 | every step of an incremental sync, in either mode, issues with multiplicity exactly one delete job for each collection reported as removed and not yet handled that matches a local one (with global remote ids: for each reported one), for that local one, and no other; before the local listing is done the reports are kept |
| SyncRemoval.RemovedIsGone | akonadi/collectionsync.cpp:489-546 | in either mode, if a delete job was issued and no listed collection is to be put below its target, neither the target nor anything at or below it is on the server at the commit |
| SyncSurvival.SurvivesIff | akonadi/collectionsync.cpp:404-546 | with hierarchical remote ids, some way to go on from a reachable state leaves something at or below a collection that is being deleted if and only if a listed collection without a match has it as the match of its parent |
| SyncSurvival.CreatedBelowRemoved | akonadi/collectionsync.cpp:404-546 | in either mode, such a collection does outlive the deletion in some continuation of the run |
| SyncUpdates.UpdatesExact | akonadi/collectionsync.cpp:337-372 | every step in either mode, full or incremental, issues exactly one modify job for each listed collection whose match it processes, with the listed data, the local display attribute and the local parent |
| SyncUpdates.JobsCarry | akonadi/collectionsync.cpp:337-402 | in every reachable state the modify jobs in flight carry listed data under the uid and parent of the match, and the create jobs the listed data below the match of the listed parent |
| SyncUpdates.CreatedAsStored | akonadi/collectionsync.cpp:404-427 | a created collection enters the local tree with the uid, parent, name and display attribute the server stores |
| SyncStrandedRuns.StrandedIff | akonadi/collectionsync.cpp:192-325 | with unique sibling names, some run ends with the orphan error if and only if an accepted collection has a parent without a match in the initial tree while an ancestor of that parent has one found by name and not along the remote ids |
| SyncStranding.StuckCreate | akonadi/collectionsync.cpp:404-427 | a collection waiting at the wrong place stays there whatever is created, and once no job is left the sync ends with the orphan error |
| SyncPass.PassIsExact | akonadi/collectionsync.cpp:297-332 | from any hierarchical state, which waiting nodes a pass hands over, for which it starts creations, and where each of the others waits next |
| SyncTheorems.WaitsWhereItBelongs | akonadi/collectionsync.cpp:257-325 | after every step once the local listing is done, a waiting collection and its parent are both missing, and it waits at the deepest existing node of its path, on which all its matched ancestors lie, or in global mode at the root |
| SyncTheorems.OutcomeIsCommit | akonadi/collectionsync.cpp:565-588 | in either mode, when the listing fits, no error is ever reached; the commit comes at most once, exactly when both listings are complete and no job is in flight |
| SyncTheorems.CommitIsFinal | akonadi/collectionsync.cpp:565-588 | no step is possible after the commit |
| SyncTheorems.Conservation | akonadi/collectionsync.cpp:337-427 | the job counter equals the jobs in flight; no accepted collection is ever handled twice; at commit each was handled exactly once, progress is accepted collections plus deletions, and the total exceeds it by what was skipped |
| SyncTheorems.TargetsAlive | akonadi/collectionsync.cpp:337-505 | in a full hierarchical sync of a complete listing the target of every job in flight exists on the server |
| SyncTheorems.JobRunsEnd | akonadi/collectionsync.cpp:374-427 | after the last delivery at most WorkLeft job results can follow |
| SyncTheorems.JobsUseUpWork | akonadi/collectionsync.cpp:374-427 | every job result, in either mode, strictly lowers the amount of work left, which is never negative |
| SyncTheorems.NoDeadlock | akonadi/collectionsync.cpp:518-588 | in either mode a run that has not committed can always go on |
| SyncTheorems.CallsAreLegal | akonadi/collectionsync.cpp:404-427 | what the methods demand of their callers, and the assertions about known uids and parents, hold in every reachable state |
| SyncSystem.StepInv | akonadi/collectionsync.cpp:518-588 | every delivery and every job result keeps the invariant of client, listing and server, in either mode |
| SyncConvergence.StepConv | akonadi/collectionsync.cpp:297-505 | every step of a full hierarchical sync keeps the server on course: local tree and server agree, deletions are under way for exactly what nobody matched and the search reaches, the content of every matched collection is stored or in flight, and nothing else is touched |
| SyncConvergence.DeletionStarts | akonadi/collectionsync.cpp:432-505 | when deletion starts, every unprocessed collection lies below one of the jobs issued or at or below an unmatched collection without remote id; the targets are not nested, and none has a processed collection below |
| SyncRun.NothingStuck | akonadi/collectionsync.cpp:257-325 | with a closed listing and no creation in flight, every accepted collection has its local node and nothing waits anywhere, in either mode |
| SyncRun.DisconnectedIff | akonadi/collectionsync.cpp:169-185 | a local listing, however it was cut and ordered, is rejected if and only if some listed parent is neither the root nor listed, and then nothing else happens |
| SyncLedger.ProcessPendingOk | akonadi/collectionsync.cpp:297-332 | one pass accounts for every collection it takes up: matched, in creation, or waiting at the right place |
| SyncLedger.MatchUnprocessed | akonadi/collectionsync.cpp:304-310 | the assertion that a matched node was not processed before holds for every remote node taken up |
| SyncLedger.RecordedGrows | akonadi/collectionsync.cpp:404-427 | a created collection changes the match of nothing but itself, and the waiting place only of what waits at its parent, so re-examining that parent suffices |
| SyncGrowth.GrownMatch | akonadi/collectionsync.cpp:215-290 | a new leaf is the match of the collection it was created for, and no other match changes, recovered ones included |
| SyncGrowth.FitsGrown | akonadi/collectionsync.cpp:192-290 | creating a listed collection neither makes matches ambiguous nor lets anything be stranded |
| SyncListing.ArrivalOrderIndependence | akonadi/collectionsync.cpp:114-148 | any two arrival orders of one local listing give the same nodes, the same children under each parent and the same parked uids |
| SyncListing.ReceivedKeepsListOk | akonadi/collectionsync.cpp:114-166 | every node is listed once under its parent, or parked once; remote-id maps lead to children with that remote id and know all of them |
| SyncListing.NothingParkedIff | akonadi/collectionsync.cpp:169-185 | nothing is parked if and only if every parent was received |
| SyncMatching.MatchIsWalk | akonadi/collectionsync.cpp:215-250 | where no local remote id is empty, hierarchical matching is following the path of remote ids from the root |
| SyncMatching.BestIsDeepest | akonadi/collectionsync.cpp:257-290 | the best ancestor is the node at the longest existing prefix of the path, and is exact only for the collection itself |
| SyncMatching.WalkInjective | akonadi/collectionsync.cpp:215-250 | no two paths of remote ids lead to one node |
| SyncMatching.MatchInjective | akonadi/collectionsync.cpp:215-250 | no two accepted collections of a fitting listing match one local node |
| SyncIdentity.MatchInListing | akonadi/collectionsync.cpp:192-250 | below the match of its parent a remote collection is taken for the last listed child with its remote id; if there is none, and never directly below the root or without a name, for the first listed child with its name that has no remote id |
| SyncIdentity.GlobalMatchInListing | akonadi/collectionsync.cpp:215-220 | with global remote ids it is taken for the last listed collection with its remote id |
| SyncDeletion.FindUnprocessedExact | akonadi/collectionsync.cpp:449-471 | on any connected tree and any marking, the search lists each unprocessed node with a remote id, only processed ancestors and no processed descendant exactly once, and nothing else |
| SyncDeletion.HasProcessedIff | akonadi/collectionsync.cpp:432-443 | the recursive check holds if and only if some node at or below is processed |
| SyncDeletion.DeletableSafe | akonadi/collectionsync.cpp:445-471 | deletable nodes are not nested, none is the root, and none has a processed node at or below it |
| SyncLimits.RecoveryStrands | akonadi/collectionsync.cpp:192-209 | a server with two collections, one without remote id, and a complete listing of four, from which some run of steps ends with the orphan error, in either delivery mode |
| SyncLimits.BrokenChainIff | akonadi/collectionsync.cpp:297-325 | the exact condition for the error about broken chains of parents |
| SyncLimits.BrokenPass | akonadi/collectionsync.cpp:297-332 | a pass reports the error if and only if something waiting is broken; then nothing after the first such collection is taken up, and of those before it only the updates are issued |
| SyncLimits.ParentlessLandsAtRoot | akonadi/collectionsync.cpp:215-230 | a remote collection without any parent is created below the root, not reported |
| CollectionSync.CollectionSync.constructor | akonadi/collectionsync.cpp:90-107 | the initial state: the processed root, filed by uid and by the empty remote id |
| CollectionSync.CollectionSync.setHierarchicalRemoteIds | akonadi/collectionsync.cpp:678-681 | sets the mode and nothing else |
| CollectionSync.CollectionSync.setStreamingEnabled | akonadi/collectionsync.cpp:667-670 | sets the flag and nothing else |
| CollectionSync.CollectionSync.createLocalNode | akonadi/collectionsync.cpp:114-148 | files a new node, gives it its parked children, and hangs it below its parent or parks it |
| CollectionSync.CollectionSync.createRemoteNode | akonadi/collectionsync.cpp:151-159 | a collection with a remote id waits at the root, others are skipped |
| CollectionSync.CollectionSync.localCollectionsReceived | akonadi/collectionsync.cpp:162-166 | the loop does createLocalNode for each collection in order |
| CollectionSync.CollectionSync.localCollectionFetchResult | akonadi/collectionsync.cpp:169-185 | rejects a disconnected tree, otherwise starts processing |
| CollectionSync.CollectionSync.findLocalChildNodeByName | akonadi/collectionsync.cpp:192-209 | the first child with the name and no remote id, never below the root |
| CollectionSync.CollectionSync.findMatchingLocalNode | akonadi/collectionsync.cpp:215-250 | computes the specified match by following node pointers |
| CollectionSync.CollectionSync.findBestLocalAncestor | akonadi/collectionsync.cpp:257-290 | computes the specified best ancestor and whether it is exact |
| CollectionSync.CollectionSync.processPendingRemoteNodes | akonadi/collectionsync.cpp:297-332 | the pass over waiting nodes, with the creations of all parents issued in any order of the hash, has the specified effect |
| CollectionSync.CollectionSync.updateLocalCollection | akonadi/collectionsync.cpp:337-372 | issues the modify job under the old parent, in global mode the move job, and marks the node |
| CollectionSync.CollectionSync.updateLocalCollectionResult | akonadi/collectionsync.cpp:374-383 | counts the result and checks for the end |
| CollectionSync.CollectionSync.moveResult | akonadi/collectionsync.cpp:374-383 | a move counts as a finished job but not as progress |
| CollectionSync.CollectionSync.createLocalCollections | akonadi/collectionsync.cpp:390-402 | one create job for each remote node, counted |
| CollectionSync.CollectionSync.createLocalCollectionResult | akonadi/collectionsync.cpp:404-427 | the new node is processed, what waits at its parent (and in global mode at the root) is re-examined, and the end is checked |
| CollectionSync.CollectionSync.hasProcessedChildren | akonadi/collectionsync.cpp:432-443 | computes the recursive check over node pointers |
| CollectionSync.CollectionSync.findUnprocessedLocalCollections | akonadi/collectionsync.cpp:449-471 | computes the deletion search over node pointers |
| CollectionSync.CollectionSync.deleteUnprocessedLocalNodes | akonadi/collectionsync.cpp:476-483 | except in incremental mode, issues one delete job for exactly each deletable collection |
| CollectionSync.CollectionSync.deleteLocalCollections | akonadi/collectionsync.cpp:489-505 | one counted delete job for each collection of the list |
| CollectionSync.CollectionSync.deleteLocalCollectionsResult | akonadi/collectionsync.cpp:507-513 | counts the result and checks for the end |
| CollectionSync.CollectionSync.execute | akonadi/collectionsync.cpp:518-546 | does nothing before the local listing is done; otherwise passes over the root, deletes, and checks for the end |
| CollectionSync.CollectionSync.findPendingRemoteNodes | akonadi/collectionsync.cpp:551-559 | finds exactly the remote nodes that wait at or below the node |
| CollectionSync.CollectionSync.checkDone | akonadi/collectionsync.cpp:565-588 | commits, or reports orphans, exactly when nothing is outstanding |
| CollectionSync.CollectionSync.setRemoteCollections | akonadi/collectionsync.cpp:628-639 | files a full listing or a chunk and processes it |
| CollectionSync.CollectionSync.setRemoteChanges | akonadi/collectionsync.cpp:641-654 | files an incremental listing and the removals, and processes them |
| CollectionSync.CollectionSync.retrievalDone | akonadi/collectionsync.cpp:672-676 | ends the delivery and processes what there is |
| RecorderState.CrashRecovery | akonadi/changerecorder_p.cpp:118-190 | at every point of every run, with the recorder destroyed, reconfigured, unconfigured or switched off and on at will, the queue in memory is that of a plain recorder without counters and bytes, and every file loads to what the plain one has stored under its name |
| RecorderState.NothingLost | akonadi/changerecorder_p.cpp:118-190 | as long as recording is not switched, the file in use loads to the queue in memory at every point |
| RecorderState.OffsetDiscipline | akonadi/changerecorder_p.cpp:319-430 | while recording and unless a rewrite is due, the file is current, its stored offset is the one in memory, and offset plus queue is what it stores; an old file is never patched |
| RecorderState.SetUpIsLive | akonadi/changerecorder_p.cpp:67-126 | a recorder set up on any file, old, current or damaged, starts in order with what the file loads to; without a file, with the migrated list |
| RecorderState.PatchStep | akonadi/changerecorder_p.cpp:319-340 | one more in-place patch keeps file and queue in step |
| RecorderState.DequeuesInPlace | akonadi/changerecorder_p.cpp:399-415 | from a full save on, each dequeue that leaves something changes only the eight bytes of the offset in the one file, and lets the next one do the same |
| RecorderState.DequeuedOk | akonadi/changerecorder_p.cpp:399-415 | a dequeue takes off exactly the head and keeps the invariant, by patch or by rewrite |
| RecorderState.ConfiguredOk | akonadi/changerecorder.cpp:42-54 | configuring loads whatever the file holds, and unconfiguring keeps the queue |
| ChangeFile.RoundTrip | akonadi/changerecorder_p.cpp:132-190 | loading what was saved gives the queue back, for every queue shorter than 2^32 and whatever order sets were written in, and asks for no rewrite |
| ChangeFile.KnownFile | akonadi/changerecorder_p.cpp:132-190 | one file given byte by byte, with null and empty fields and a negative id, is what a full save of its change writes and loads as that change |
| ChangeFile.OldRoundTrip | akonadi/changerecorder_p.cpp:142-158 | a file of the old format loads completely and asks for a rewrite |
| ChangeFile.PatchIs | akonadi/changerecorder_p.cpp:319-340 | overwriting bytes 8 to 15 of any current file changes the number of skipped records and nothing else |
| ChangeFile.PatchDrops | akonadi/changerecorder_p.cpp:319-340 | patching in k makes a saved queue load without its first k entries |
| ChangeFile.CountDecodes | akonadi/changerecorder_p.cpp:128-149 | the packed word decodes to count and version 1, a bare count to version 0 |
| ChangeFile.RecordInverse | akonadi/changerecorder_p.cpp:305-317 | a written record reads back as its message, whatever follows it |
| DataStream.SetInverse | akonadi/changerecorder_p.cpp:316 | a set written in any order reads back as the set |
| DataStream.TextInverse | akonadi/changerecorder_p.cpp:311 | strings, null and empty ones apart, read back as written |
| DataStream.U64IsBigEndian | akonadi/changerecorder_p.cpp:363-373 | 64-bit words are written with the most significant byte first |
| DataStream.DamagedLengths | akonadi/changerecorder_p.cpp:160-175 | what arrays and strings read as when their length is cut off, too large, or odd |
| ChangeRecorder.ChangeRecorder.addToStream | akonadi/changerecorder_p.cpp:305-317 | appends a record of the message |
| ChangeRecorder.ChangeRecorder.saveTo | akonadi/changerecorder_p.cpp:362-381 | produces a saved form of the queue with start offset 0 |
| ChangeRecorder.ChangeRecorder.loadFrom | akonadi/changerecorder_p.cpp:132-190 | the reading loop computes the specified load of any bytes |
| ChangeRecorder.ChangeRecorder.saveNotifications | akonadi/changerecorder_p.cpp:342-360 | a full save, or nothing without settings |
| ChangeRecorder.ChangeRecorder.writeStartOffset | akonadi/changerecorder_p.cpp:319-340 | patches the offset in place, or nothing without settings |
| ChangeRecorder.ChangeRecorder.loadNotifications | akonadi/changerecorder_p.cpp:67-126 | loads the file, after writing the migrated list if there was none |
| ChangeRecorder.ChangeRecorder.notificationsLoaded | akonadi/changerecorder_p.cpp:426-430 | resets the known count and the offset |
| ChangeRecorder.ChangeRecorder.notificationsEnqueued | akonadi/changerecorder_p.cpp:383-397 | counts the added messages and saves |
| ChangeRecorder.ChangeRecorder.notificationsErased | akonadi/changerecorder_p.cpp:417-424 | recounts and saves in full |
| ChangeRecorder.ChangeRecorder.dequeueNotification | akonadi/changerecorder_p.cpp:399-415 | takes off the head; keeps the invariant whichever way it is recorded |
| ChangeRecorder.ChangeRecorder.enqueue | akonadi/monitor_p.cpp:412-447 | messages added by the monitor are recorded |
| ChangeRecorder.ChangeRecorder.erase | akonadi/monitor_p.cpp:210-232 | a queue changed in another way is recorded |
| ChangeRecorder.ChangeRecorder.setConfig | akonadi/changerecorder.cpp:42-54 | configures or unconfigures the file |
| ChangeRecorder.ChangeRecorder.replayNext | akonadi/changerecorder.cpp:56-83 | terminates with the specified reply and queue |
| ChangeRecorder.ReplayInOrder | akonadi/changerecorder.cpp:56-83 | a replay takes off exactly the maximal prefix nobody wants, and the reply is about the message after it, or that there is none |
| ChangeRecorder.ChangeRecorder.changeProcessed | akonadi/changerecorder.cpp:91-103 | takes off the head if there is one and recording is on |
| ChangeRecorder.ChangeRecorder.setChangeRecordingEnabled | akonadi/changerecorder.cpp:105-118 | switching on makes the next change rewrite the file |
| FilterDescendants.NonOverlappingRoots | akonadi/collectionfetchjob.cpp:323-360 | for different non-root collections of one tree, the kept ones have disjoint trees that together are exactly the trees of all |
| FilterDescendants.KeptIffTopmost | akonadi/collectionfetchjob.cpp:340-357 | a collection is kept if and only if no other one of the list is above it |
| FilterDescendants.OrderKept | akonadi/collectionfetchjob.cpp:353-357 | the kept collections are in input order |
| FilterDescendants.AncestorsAreAbove | akonadi/collectionfetchjob.cpp:328-338 | the collected ids are those of the proper ancestors, the root apart |
| FilterDescendants.filterDescendants | akonadi/collectionfetchjob.cpp:323-360 | the loops with sorted lists and binary search keep exactly what is not overlapped |
| FilterDescendants.WalkEndsIff | akonadi/collectionfetchjob.cpp:329-338 | what the filter demands of a collection is exactly that its walk up ends |
| FilterDescendants.AncestorsOf | akonadi/collectionfetchjob.cpp:327-338 | the list stays sorted and holds exactly the ancestor ids |
| FilterDescendants.BinaryFind | akonadi/collectionfetchjob.cpp:345 | binary search on a sorted list is membership |
| FetchProtocol.ExactlyOnce | akonadi/collectionfetchjob.cpp:69-100 | whatever the timers do and however jobs are nested, a finished job announced exactly its collections, each as often as it has it; a single fetch in order |
| FetchProtocol.NeverTooMuch | akonadi/collectionfetchjob.cpp:290-313 | what a single fetch has announced so far is a prefix of what it received |
| FetchProtocol.StepInv | akonadi/collectionfetchjob.cpp:362-404 | responses, timers and results keep the accounts of every job balanced |
| FetchProtocol.EndedSettled | akonadi/collectionfetchjob.cpp:389-402 | an ended job with nothing pending has announced all it has |
| FetchResults.RootsFoundRight | akonadi/collectionfetchjob.cpp:379-388 | in every run, a job that looks for roots ends with collections none of which stands at or below another, and whose trees together are exactly the trees of what its subjobs brought |
| FetchResults.RecursiveOnce | akonadi/collectionfetchjob.cpp:362-404 | a closed recursive fetch of different bases of one tree announced everything below them exactly once, even where the bases overlap |
| FetchResults.NothingHangs | akonadi/collectionfetchjob.cpp:82-88 | in every run, whoever holds something back has its timer running, and a composite job that expects no further result has ended |
| CollectionFetchJob.CollectionFetchJob.timeout | akonadi/collectionfetchjob.cpp:69-80 | what is pending is passed on once, and the timer stops |
| CollectionFetchJob.CollectionFetchJob.subJobCollectionReceived | akonadi/collectionfetchjob.cpp:82-88 | keeps what a subjob announced and starts the timer |
| CollectionFetchJob.CollectionFetchJob.flushIterativeResult | akonadi/collectionfetchjob.cpp:90-100 | what is pending is passed on once |
| CollectionFetchJob.CollectionFetchJob.doHandleResponse | akonadi/collectionfetchjob.cpp:290-313 | a fetched collection is kept and becomes pending |
| CollectionFetchJob.CollectionFetchJob.takeResult | akonadi/collectionfetchjob.cpp:389-402 | the subjob announces what it holds before its collections are taken over |
| CollectionFetchJob.CollectionFetchJob.takeBase | akonadi/collectionfetchjob.cpp:379-388 | once all bases are there, the job keeps and announces ones that do not stand below each other and cover exactly the trees of all bases |
| CollectionFetchJob.CollectionFetchJob.takeRoots | akonadi/collectionfetchjob.cpp:362-378 | once the roots are known, one fresh connected subjob is started for each of them, in order |
| ModelState.FixpointExact | akonadi/collectionmodel_p.cpp:145-223 | once nothing can be placed, the known collections are exactly those received whose whole chain of parents was received |
| ModelState.BatchesDoNotMatter | akonadi/collectionmodel_p.cpp:145-223 | two runs from the empty model over the same collections, however ordered, cut into batches and iterated over, know the same collections and keep the same others for later |
| ModelState.RunExact | akonadi/collectionmodel_p.cpp:145-223 | a whole run from the empty model knows exactly the delivered collections whose chain of parents was delivered, with the data delivered |
| ModelState.ChangedOk | akonadi/collectionmodel_p.cpp:145-223 | an acceptable batch keeps the index and the files in order, receives exactly the batch and keeps every collection connected |
| ModelState.Navigation | akonadi/collectionmodel.cpp:113-178 | for every index reachable from the root and every row, the parent of the child index is that index, and looking the child up by id gives the same index |
| ModelState.IndexIff | akonadi/collectionmodel.cpp:113-136 | there is an index for a row exactly in the first column, below the root or an item of the first column, and within the rows; it is the index of a child |
| ModelState.LookUpIff | akonadi/collectionmodel_p.cpp:226-246 | an id can be looked up exactly if it and its parent are known; the index has the column asked for and the row of the id |
| ModelState.RowsAppended | akonadi/collectionmodel_p.cpp:193-210 | new children come behind the rows already there, in the order they came, and no other row changes |
| ModelState.RowsMoveUp | akonadi/collectionmodel_p.cpp:248-278 | after a removal the rows before it stay and those behind it move up by one, in order; no row below another parent that is left changes |
| ModelState.RemoveRowOk | akonadi/collectionmodel_p.cpp:248-278 | removal keeps every known collection listed exactly once under its parent, which is what navigation rests on |
| ModelState.PlaceBucketOk | akonadi/collectionmodel_p.cpp:193-210 | placing a bucket keeps that too, and loses nothing that was received |
| ModelState.RefiledIff | akonadi/collectionmodel_p.cpp:149-162 | the files of new collections stay in order exactly when a delivered collection is not waiting in them already |
| ModelState.DeliveredTwice | akonadi/collectionmodel_p.cpp:201-204 | a child delivered twice before its parent enters the model as an invalid collection |
| ModelState.RemovalGroundedIff | akonadi/collectionmodel_p.cpp:267-274 | after removing a row every collection left is connected to the root if and only if no child of the removed collection had children of its own |
| ModelState.MovedSubtree | akonadi/collectionmodel_p.cpp:145-278 | a removed collection delivered again below another parent, with the children removed with it, makes its whole old subtree known, connected and reachable again |
| ModelState.ReachableIff | akonadi/collectionmodel_p.cpp:226-246 | an item can be reached by index navigation if and only if its known parents lead to the root |
| ModelState.OrphansStay | akonadi/collectionmodel_p.cpp:267-274 | grandchildren of a removed collection stay known, and the index of their children is still given out |
| CollectionModel.CollectionModel.constructor | akonadi/collectionmodel_p.h:49-61 | an empty model is in order |
| CollectionModel.CollectionModel.collectionsChanged | akonadi/collectionmodel_p.cpp:145-223 | on any model and any batch, takes the batch and places what can be placed, in some order, until nothing can; with an acceptable batch it keeps the invariants and receives exactly the batch |
| CollectionModel.CollectionModel.removeRowFromModel | akonadi/collectionmodel_p.cpp:248-278 | removes the row or reports an index out of bounds, keeps the invariants, and keeps all connected exactly when no child of the removed collection has children |
| CacheState.ShrunkIs | akonadi/entitycache_p.h:207-212 | shrinking takes off a prefix with nothing pending in it and no more than needed; whatever is pending stays |
| CacheState.RequestedBounded | akonadi/entitycache_p.h:154-164 | after a request the cache is within its capacity or its head is pending |
| CacheState.ProcessedOk | akonadi/entitycache_p.h:178-197 | a result, even for an entry that is gone, keeps ids distinct and every pending entry covered by a fetch in flight |
| CacheState.ResultAnswers | akonadi/entitycache_p.h:178-197 | the result for a waiting id: from then on the id is answered with the first collection fetched if and only if that has the id and nobody invalidated the entry, and with an empty one otherwise; every other entry and answer stays |
| CacheState.RequestAnswered | akonadi/entitycache_p.h:107-197 | from request to result, whatever happens to other ids: while it waits the id is answered with an empty collection, then as above, with invalidated meaning invalidated since the request |
| CacheState.RunOk | akonadi/entitycache_p.h:107-197 | at every point of a run whoever waits has a fetch in flight, and an answer is empty or was fetched under the id asked for |
| CacheState.InvalidatedUnanswered | akonadi/entitycache_p.h:117-123 | an invalidated id is answered with an empty collection, all others as before |
| CacheState.DropsOne | akonadi/entitycache_p.h:126-136 | dropping an entry leaves exactly the others, in their order |
| CacheState.UpdateFetchesAgain | akonadi/entitycache_p.h:126-164 | an update fetches the id again exactly if it still waited, and then it waits at the end of the queue behind the others |
| EntityCache.EntityCache.constructor | akonadi/entitycache_p.h:80-83 | an empty cache, of any capacity |
| EntityCache.EntityCache.isCached | akonadi/entitycache_p.h:94-98 | some entry has the id and is not pending |
| EntityCache.EntityCache.isRequested | akonadi/entitycache_p.h:101-104 | some entry has the id |
| EntityCache.EntityCache.retrieve | akonadi/entitycache_p.h:107-114 | a valid entry for the id if there is one, otherwise an empty collection; never one that was not fetched under that id |
| EntityCache.EntityCache.invalidate | akonadi/entitycache_p.h:117-123 | the id is answered empty from then on, all others as before |
| EntityCache.EntityCache.update | akonadi/entitycache_p.h:126-136 | drops exactly the entry; one that still waited waits again, at the end, with one more fetch in flight |
| EntityCache.EntityCache.ensureCached | akonadi/entitycache_p.h:139-147 | requests the id if it has no entry and changes nothing otherwise; available exactly if there was an entry that waits no more |
| EntityCache.EntityCache.request | akonadi/entitycache_p.h:154-164 | shrinks, then enqueues a pending entry with a fetch in flight, within the bounds |
| EntityCache.EntityCache.shrinkCache | akonadi/entitycache_p.h:207-212 | the loop computes the specified shrinking |
| EntityCache.EntityCache.processResult | akonadi/entitycache_p.h:178-197 | the waiting id is answered with the first collection fetched if that has the id and the entry was not invalidated, otherwise empty; all other entries stay as they were |
| PathSplitting.SplitInvertsJoin | akonadi/collectionpathresolver.cpp:43-67 | splitting undoes joining escaped parts if and only if no part but the last ends in a backslash (except before an empty last one), the last does not end in a slash, and the parts are not one empty part |
| PathSplitting.splitPath | akonadi/collectionpathresolver.cpp:43-67 | the index loop computes the specified splitting |
| PathSplitting.UnescapeEscape | akonadi/collectionpathresolver.cpp:54-55 | unescaping undoes escaping on every string |
| CollectionPathResolver.PathRoundTrip | akonadi/collectionpathresolver.cpp:96-178 | in every tree, the path of a collection leads back to it if and only if all names on the path are free of slashes, the first and the last are not empty, and none but the last ends in a backslash |
| CollectionPathResolver.ResolveBack | akonadi/collectionpathresolver.cpp:117-129 | with unique sibling names, resolving a collection and then the path found gives the collection started from exactly under that condition |
| CollectionPathResolver.DelimitedPath | akonadi/collectionpathresolver.cpp:131-147 | a path that leads back to its names does so with or without a delimiter at either end |
| CollectionPathResolver.EscapedPathLeads | akonadi/collectionpathresolver.cpp:43-147 | with its names escaped and delimiters at both ends, a path leads to its collection if and only if splitting undoes the joining of those names |
| CollectionPathResolver.ResolveDelimited | akonadi/collectionpathresolver.cpp:78-147 | so the job built from the path of a collection, with or without outer delimiters, ends at that collection |
| CollectionPathResolver.NamesInjective | akonadi/collectionpathresolver.cpp:96-114 | with unique sibling names, names from the root determine the collection |
| CollectionPathResolver.CollectionPathResolver.resolvePath | akonadi/collectionpathresolver.cpp:78-129 | ends with the collection that has exactly the names of the path, and fails if and only if there is none |
| CollectionPathResolver.CollectionPathResolver.resolveCollection | akonadi/collectionpathresolver.cpp:117-129 | ends with the names that lead to the collection, and fails if and only if it does not exist |
| CollectionPathResolver.CollectionPathResolver.jobResult | akonadi/collectionpathresolver.cpp:78-129 | one fetch result: an empty one fails; otherwise one step down to the first child with the name, or one step up |
| CollectionPathResolver.CollectionPathResolver.doStart | akonadi/collectionpathresolver.cpp:185-206 | the empty path and the root are resolved at once, otherwise the first fetch starts |
| CollectionPathResolver.CollectionPathResolver.FromPath | akonadi/collectionpathresolver.cpp:131-147 | starts at the root with the parts of the path between its outer delimiters |
| CollectionPathResolver.CollectionPathResolver.FromCollection | akonadi/collectionpathresolver.cpp:149-157 | starts at the collection with no names yet |

## Left out

- Failing jobs and the rollback of the surrounding transaction: TransactionSequence decides them.
- SyncGlobal.GlobalConvergence: says of a collection whose parent was missing in the beginning only that it is stored where it was or below the match of its parent, since the code leaves the deferred move open.
- SyncRemoval.RemovedIsGone: with global remote ids the condition is sufficient only; whether a collection moved below the removed one survives also depends on which other removals hit it on the way.
- The end of an incremental sync is given by its jobs (UpdatesExact, MovesExact, RemovalsExact, JobsCarry) and by RemovedIsGone, not by one description of the server tree.
- The assertion that what is deleted has a remote id (akonadi/collectionsync.cpp:493): a collection reported as removed without remote id, or found by name only, violates it.
- The parent that a modify job writes along: it is the one the collection has while the session runs its jobs in the order they were issued, so the server keeps it.
- The references that modified and created collections carry to their parents, beyond uid, in the server tree: the server stores the parent's uid.
- SyncTheorems.JobRunsEnd: bounds the job results after the last delivery; deliveries themselves can be empty and so unboundedly many.
- Create jobs remember their local parent by uid instead of by pointer, and remote nodes are values.
- Attributes other than the display attribute, and the error texts.
- The legacy change list in the settings is a parameter of setConfig; its format is not modelled.
- QDataStream is part of Qt: the byte format in DataStream is its documented one, with a short read yielding zero or null.
- What decides whether a notification is available, pipelined or unwanted is a parameter of replayNext, as is how the monitor changes the queue.
- RecorderState.NothingLost: leaves out runs that switch recording, since the file goes stale while it is off; CrashRecovery says what it then holds.
- Files that cannot be opened, the debug dump of the file, and the creation of directories.
- FetchProtocol: failing subjobs, the wire commands, and scopes; a list of bases that yields no roots leaves the job without subjobs and without a result, as in the code.
- FilterDescendants.filterDescendants: demands that every listed collection has the root above it, because the loop of the code does not end otherwise, as WalkEndsIff states.
- CollectionModel.CollectionModel.collectionsChanged: keeps the invariants only if known collections keep their parent and waiting ones are not delivered again; RefiledIff and DeliveredTwice show that the latter is needed.
- Statistics, roles, signals, drag and drop and header data of the collection model, and its branch for collections whose parent was removed before.
- EntityCache: generic in the source, for collections here; the list cache, and which of two results in flight for one id is the fresher.
- EntityCache.EntityCache.request: with a capacity below one demands a pending entry, without which the code would look at the head of an empty queue.
- Widgets, dialogs, action managers, D-Bus agents, proxy models, EntityTreeModel and the attribute serializers.
