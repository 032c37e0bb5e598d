/** What one step of a synchronisation does to the jobs and the marks, in either mode and whether
    the listing is full or incremental (akonadi/collectionsync.cpp). */
module SyncSteps {
  import opened Collections
  import opened SyncState
  import opened SyncMatching
  import opened SyncGrowth
  import opened SyncLedger
  import opened SyncRun
  import opened SyncContent
  import opened SyncSystem

  // ------------------------------------------------------------------ steps and what they report

  /** A delivery by which the collections in `removed` were reported as removed. */
  ghost predicate DeliveryReports(s: System, s': System, removed: seq<Collection>) {
    || (exists cols :: Changes(s, s', cols, removed))
    || (removed == [] && ((exists cols :: LocalBatch(s, s', cols)) || LocalDone(s, s')
        || (exists cols :: Chunk(s, s', cols)) || DeliveryEnds(s, s')))
  }

  ghost predicate Reports(s: System, s': System, removed: seq<Collection>) {
    DeliveryReports(s, s', removed) || (removed == [] && JobStep(s, s'))
  }

  /** Every step is one that reports something, or nothing. */
  lemma StepReports(s: System, s': System) returns (removed: seq<Collection>)
    requires Step(s, s')
    ensures Reports(s, s', removed)
  {
    removed := [];
    if cols, rs :| Changes(s, s', cols, rs) {
      removed := rs;
    }
  }

  lemma ReportsAreSteps(s: System, s': System, removed: seq<Collection>)
    requires Reports(s, s', removed)
    ensures Step(s, s')
  {
  }

  // ------------------------------------------------------------------ executing

  /** The delivery from c to c' comes down to executing s2, which differs from c by what was filed
      and reported only. */
  ghost predicate Executes(c: State, s2: State, c': State, removed: seq<Collection>, A: set<Collection>) {
    && c' == Execute(s2) && Opened(s2, A, ROOT_ID)
    && s2.tree == c.tree && s2.processed == c.processed && s2.jobs == c.jobs && s2.moves == c.moves
    && s2.handled == c.handled && s2.deleted == c.deleted
    && s2.incremental == c'.incremental && s2.deliveryDone == c'.deliveryDone
    && s2.removedRemoteCollections == c.removedRemoteCollections + removed
  }

  /** What is filed before the execution. */
  ghost predicate Prepared(c: State, s2: State, removed: seq<Collection>, A: set<Collection>) {
    && Opened(s2, A, ROOT_ID) && s2.outcomes == [] && (s2.deliveryDone ==> Closed(s2.tree, A))
    && s2.tree == c.tree && s2.processed == c.processed && s2.jobs == c.jobs && s2.moves == c.moves
    && s2.handled == c.handled && s2.deleted == c.deleted
    && s2.removedRemoteCollections == c.removedRemoteCollections + removed
  }

  lemma PreparedExecutes(c: State, s2: State, removed: seq<Collection>, A: set<Collection>)
    requires Prepared(c, s2, removed, A)
    ensures Executes(c, s2, Execute(s2), removed, A)
  {
    ExecuteOk(s2, A);
  }

  lemma NothingMore<T>(a: seq<T>)
    ensures a + [] == a
  {
  }

  lemma LocalDonePrepares(s: System, s': System, remote: set<Collection>)
    requires Inv(s, remote) && LocalDone(s, s')
    ensures Prepared(s.client, s.client.(localListDone := true), [], Seen(s, remote))
    ensures s'.client == Execute(s.client.(localListDone := true)) && Seen(s', remote) == Seen(s, remote)
  {
    var A := Seen(s, remote);
    ListedTreeOk(s, remote);
    FitsSubset(s.client.tree, A, AcceptedOf(remote));
    ListingOpens(s.client, s.client.(localListDone := true), A);
    NothingMore(s.client.removedRemoteCollections);
  }

  lemma FiledPrepares(s: System, s': System, remote: set<Collection>, cols: seq<Collection>, s2: State,
          removed: seq<Collection>)
    requires Inv(s, remote) && Delivers(s, cols) && s.client.localListDone
    requires FiledThenExecuted(s.client, cols, s'.client, s2)
    requires s2.removedRemoteCollections == s.client.removedRemoteCollections + removed
    requires s'.undelivered == s.undelivered - Elements(cols)
    ensures Prepared(s.client, s2, removed, Seen(s', remote))
  {
    var A := Seen(s, remote);
    DeliveryExtends(s, remote, cols);
    ChunkOpens(s.client, s2, A, cols);
    var u := s.undelivered - Elements(cols);
    if s2.deliveryDone {
      assert remote - u == remote;
    }
  }

  lemma EndPrepared(c: State, A: set<Collection>)
    requires Syncing(c, A) && c.outcomes == [] && Closed(c.tree, A) && c.removedRemoteCollections == []
    ensures Prepared(c, c.(deliveryDone := true), [], A)
  {
    var s2 := c.(deliveryDone := true);
    EndOpens(c, A, ROOT_ID);
    assert Opened(s2, A, ROOT_ID);
  }

  lemma EndPrepares(s: System, s': System, remote: set<Collection>)
    requires Inv(s, remote) && DeliveryEnds(s, s') && s.client.localListDone
    ensures Prepared(s.client, s.client.(deliveryDone := true), [], Seen(s', remote))
    ensures s'.client == Execute(s.client.(deliveryDone := true))
  {
    assert remote - s.undelivered == remote;
    EndPrepared(s.client, Seen(s, remote));
  }

  lemma ChangesPrepares(s: System, s': System, remote: set<Collection>, cols: seq<Collection>,
          removed: seq<Collection>) returns (s2: State)
    requires Inv(s, remote) && Changes(s, s', cols, removed) && s'.client.localListDone
    ensures Prepared(s.client, s2, removed, Seen(s', remote)) && s'.client == Execute(s2)
  {
    ChangesInv(s, s', remote, cols, removed);
    s2 := ChangesFile(s.client, cols, removed);
    FiledPrepares(s, s', remote, cols, s2, removed);
  }

  lemma ChunkPrepares(s: System, s': System, remote: set<Collection>, cols: seq<Collection>) returns (s2: State)
    requires Inv(s, remote) && Chunk(s, s', cols) && s'.client.localListDone
    ensures Prepared(s.client, s2, [], Seen(s', remote)) && s'.client == Execute(s2)
  {
    ChunkInv(s, s', remote, cols);
    s2 := ChunkFiles(s.client, cols);
    NothingMore(s.client.removedRemoteCollections);
    FiledPrepares(s, s', remote, cols, s2, []);
  }

  /** Once the local listing is complete, every delivery is filed and executed. */
  lemma DeliveryExecutes(s: System, s': System, remote: set<Collection>, removed: seq<Collection>)
          returns (s2: State)
    requires Inv(s, remote) && DeliveryReports(s, s', removed) && s'.client.localListDone
    ensures Executes(s.client, s2, s'.client, removed, Seen(s', remote))
    ensures s'.server == s.server
  {
    if cols :| Changes(s, s', cols, removed) {
      s2 := ChangesPrepares(s, s', remote, cols, removed);
    } else if LocalDone(s, s') {
      LocalDonePrepares(s, s', remote);
      s2 := s.client.(localListDone := true);
    } else if cols :| Chunk(s, s', cols) {
      s2 := ChunkPrepares(s, s', remote, cols);
    } else {
      EndPrepares(s, s', remote);
      s2 := s.client.(deliveryDone := true);
    }
    PreparedExecutes(s.client, s2, removed, Seen(s', remote));
  }

  // ------------------------------------------------------------------ delete jobs

  /** One delete job for each collection of a list. */
  ghost function DeleteList(cols: seq<Collection>): multiset<Job> {
    if cols == [] then multiset{} else DeleteList(cols[..|cols| - 1]) + multiset{Delete(cols[|cols| - 1])}
  }

  lemma {:induction false} DeleteListCounts(cols: seq<Collection>)
    ensures forall c: Collection :: DeleteList(cols)[Delete(c)] == multiset(cols)[c]
    ensures forall j: Job :: !j.Delete? ==> DeleteList(cols)[j] == 0
  {
    if cols != [] {
      DeleteListCounts(cols[..|cols| - 1]);
      assert cols == cols[..|cols| - 1] + [cols[|cols| - 1]];
    }
  }

  lemma {:induction false} IssueDeletesIs(s: State, cols: seq<Collection>)
    ensures var s' := IssueDeletes(s, cols);
      && s'.jobs == s.jobs + DeleteList(cols) && s'.deleted == s.deleted + multiset(cols)
      && s' == s.(pendingJobs := s'.pendingJobs, jobs := s'.jobs, deleted := s'.deleted)
  {
    if cols != [] {
      IssueDeletesIs(s, cols[..|cols| - 1]);
      assert cols == cols[..|cols| - 1] + [cols[|cols| - 1]];
    }
  }

  /** The local collections a list of removed ones stands for; global remote ids are passed on. */
  function ToDelete(t: Tree, removed: seq<Collection>): seq<Collection> {
    if t.hierarchicalRIDs then MatchingLocals(t, removed) else removed
  }

  /** What a full listing deletes. */
  ghost function Unlisted(s: State): set<Collection> {
    if s.deliveryDone && !s.incremental then DeletableCollections(s.tree, s.processed) else {}
  }

  lemma PassKeepsDeletes(s: State, n: Id)
    requires !SweepAll(SetWaiting(s, n, []), Waiting(s, n)).aborted
    ensures SameDeletes(s.jobs, ProcessPendingRemoteNodes(s, n).jobs)
  {
    var w := SweepAll(SetWaiting(s, n, []), Waiting(s, n));
    SweepAllJobs(SetWaiting(s, n, []), Waiting(s, n));
    assert ProcessPendingRemoteNodes(s, n).jobs == w.state.jobs + w.creations;
  }

  /** Executing is a pass over the root, and then the deletions. */
  lemma ExecutedIs(s: State, A: set<Collection>)
    requires Opened(s, A, ROOT_ID)
    ensures var s1 := ProcessPendingRemoteNodes(s, ROOT_ID); var s' := Execute(s);
      var todo := ToDelete(s.tree, s.removedRemoteCollections);
      && SameControl(s1, s) && Syncing(s1, A)
      && s'.tree == s.tree && s'.processed == s1.processed && s'.moves == s1.moves
      && s'.removedRemoteCollections == []
      && s'.jobs == s1.jobs + multiset(DeleteJobs(Unlisted(s1))) + DeleteList(todo)
      && s'.deleted == s.deleted + multiset(Unlisted(s1)) + multiset(todo)
      && SameDeletes(s.jobs, s1.jobs)
  {
    PassOk(s, A, ROOT_ID);
    PassKeepsDeletes(s, ROOT_ID);
    var s1 := ProcessPendingRemoteNodes(s, ROOT_ID);
    DeleteUnprocessedExact(s1);
    DeleteRemovedExact(if s1.deliveryDone then DeleteUnprocessedLocalNodes(s1) else s1);
  }

  lemma DeleteUnprocessedExact(s: State)
    ensures var s' := if s.deliveryDone then DeleteUnprocessedLocalNodes(s) else s;
      && s'.jobs == s.jobs + multiset(DeleteJobs(Unlisted(s))) && s'.deleted == s.deleted + multiset(Unlisted(s))
      && s'.tree == s.tree && s'.processed == s.processed && s'.moves == s.moves
      && s'.removedRemoteCollections == s.removedRemoteCollections
  {
    assert DeleteJobs({}) == {};
  }

  lemma DeleteLocalsIs(s: State, cols: seq<Collection>)
    ensures var s' := DeleteLocalCollections(s, cols);
      s'.jobs == s.jobs + DeleteList(cols) && s'.deleted == s.deleted + multiset(cols)
  {
    IssueDeletesIs(s.(totalAmount := s.totalAmount + |cols|), cols);
  }

  lemma DeleteRemovedStarts(s: State)
    ensures DeleteRemoved(s) ==
      DeleteLocalCollections(s, ToDelete(s.tree, s.removedRemoteCollections)).(removedRemoteCollections := [])
  {
  }

  lemma DeleteRemovedJobs(s: State)
    ensures var s' := DeleteRemoved(s); var todo := ToDelete(s.tree, s.removedRemoteCollections);
      s'.jobs == s.jobs + DeleteList(todo) && s'.deleted == s.deleted + multiset(todo)
  {
    DeleteLocalsIs(s, ToDelete(s.tree, s.removedRemoteCollections));
    DeleteRemovedStarts(s);
  }

  lemma DeleteRemovedExact(s: State)
    ensures var s' := DeleteRemoved(s); var todo := ToDelete(s.tree, s.removedRemoteCollections);
      && s'.jobs == s.jobs + DeleteList(todo) && s'.deleted == s.deleted + multiset(todo)
      && s'.tree == s.tree && s'.processed == s.processed && s'.moves == s.moves
      && s'.removedRemoteCollections == []
  {
    DeleteRemovedIs(s);
    DeleteRemovedJobs(s);
  }

  // ------------------------------------------------------------------ create jobs

  lemma UnmatchedOne(w: Sweep, c: Collection)
    requires Match(w.state.tree, c).None?
    ensures ProcessOne(w, c).state.moves == w.state.moves && ProcessOne(w, c).state.tree == w.state.tree
  {
    if !w.aborted && MatchParent(w.state.tree, c).None? {
      assert ProcessOne(w, c) == ProcessPremature(w, Best(w.state.tree, c), c);
    }
  }

  lemma {:induction false} UnmatchedSweep(s: State, cs: seq<Collection>)
    requires forall c :: c in cs ==> Match(s.tree, c).None?
    ensures SweepAll(s, cs).state.moves == s.moves && SweepAll(s, cs).state.tree == s.tree
  {
    if cs != [] {
      UnmatchedSweep(s, cs[..|cs| - 1]);
      UnmatchedOne(SweepAll(s, cs[..|cs| - 1]), cs[|cs| - 1]);
    }
  }

  /** A pass that finds no match only creates. */
  ghost predicate OnlyCreating(s: State, s': State) {
    && SameControl(s', s) && s'.processed == s.processed && s'.moves == s.moves
    && s.jobs <= s'.jobs && OnlyCreates(s'.jobs - s.jobs)
  }

  lemma UnmatchedPass(s: State, A: set<Collection>, n: Id)
    requires Opened(s, A, n) && forall c :: c in Waiting(s, n) ==> Match(s.tree, c).None?
    ensures OnlyCreating(s, ProcessPendingRemoteNodes(s, n)) && Syncing(ProcessPendingRemoteNodes(s, n), A)
  {
    PassOk(s, A, n);
    var s0 := SetWaiting(s, n, []);
    UnmatchedSweep(s0, Waiting(s, n));
    SweepAllJobs(s0, Waiting(s, n));
    var w := SweepAll(s0, Waiting(s, n));
    var s' := ProcessPendingRemoteNodes(s, n);
    assert s'.jobs == w.state.jobs + w.creations;
    assert s'.jobs - s.jobs == w.creations;
  }

  lemma CreatesKeepDeletes(js: multiset<Job>, js': multiset<Job>)
    requires js <= js' && OnlyCreates(js' - js)
    ensures SameDeletes(js, js')
  {
    assert js' == js + (js' - js);
  }

  lemma OnlyCreatingTwice(s: State, s': State, s'': State)
    requires OnlyCreating(s, s') && OnlyCreating(s', s'')
    ensures OnlyCreating(s, s'')
  {
    assert s''.jobs - s.jobs == (s'.jobs - s.jobs) + (s''.jobs - s'.jobs);
  }

  /** Whatever waits where a creation is felt was unmatched, and is still. */
  lemma AnchoredUnmatched(s: State, A: set<Collection>, j: Job, x: Id)
    requires Syncing(s, A) && j in s.jobs && j.Create? && x != ROOT_ID && x !in s.tree.localUidMap
    ensures var r := CreateRecorded(s, j, x);
      forall c :: c in Waiting(r, Anchor(s.tree, j.localParent)) ==> Match(r.tree, c).None?
  {
    var r := CreateRecorded(s, j, x);
    RecordedGrows(s, A, j, x);
    WaitingSeen(s, A, Anchor(s.tree, j.localParent));
    assert CreatesRightly(s.tree, s.jobs, A, j);
    forall c | c in Waiting(r, Anchor(s.tree, j.localParent)) ensures Match(r.tree, c).None? {
      assert c in A && !Reached(s.tree, c);
    }
  }

  lemma StillUnmatched(s: State, A: set<Collection>, n: Id)
    requires Syncing(s, A)
    ensures forall c :: c in Waiting(s, n) ==> Match(s.tree, c).None?
  {
    WaitingSeen(s, A, n);
    forall c | c in Waiting(s, n) ensures Match(s.tree, c).None? {
      assert !Reached(s.tree, c);
    }
  }

  lemma CheckDoneKeeps(s: State)
    ensures CheckDone(s) == s.(outcomes := CheckDone(s).outcomes)
  {
  }

  /** What is not about the jobs themselves stays as it was. */
  ghost predicate SameTrees(c: State, c': State) {
    && c'.tree == c.tree && c'.processed == c.processed && c'.localListDone == c.localListDone
    && c'.deliveryDone == c.deliveryDone && c'.deleted == c.deleted
    && c'.removedRemoteCollections == c.removedRemoteCollections
  }

  /** A finished modify or delete job is gone, and that is all. */
  lemma FinishedIs(c: State, j: Job)
    ensures SameTrees(c, JobDone(c, j)) && JobDone(c, j).moves == c.moves && JobDone(c, j).jobs == c.jobs - multiset{j}
  {
    CheckDoneKeeps(c.(jobs := c.jobs - multiset{j}, pendingJobs := c.pendingJobs - 1, progress := c.progress + 1));
  }

  lemma MovedIs(c: State, m: Move)
    ensures var c' := MoveDone(c, m);
      SameTrees(c, c') && c'.jobs == c.jobs && c'.moves == c.moves - multiset{m}
  {
    CheckDoneKeeps(c.(moves := c.moves - multiset{m}, pendingJobs := c.pendingJobs - 1));
  }

  /** A finished creation marks the new node and starts further creations, nothing else. */
  lemma CreateDoneIs(s: State, A: set<Collection>, j: Job, x: Id)
    requires Syncing(s, A) && j in s.jobs && j.Create? && x != ROOT_ID && x !in s.tree.localUidMap
    ensures OnlyCreating(CreateRecorded(s, j, x), CreateDone(s, j, x))
    ensures Syncing(CreateDone(s, j, x), A)
  {
    var r := CreateRecorded(s, j, x);
    RecordedOpens(s, A, j, x);
    AnchoredUnmatched(s, A, j, x);
    var s1 := ProcessPendingRemoteNodes(r, j.localParent);
    if s.tree.hierarchicalRIDs {
      UnmatchedPass(r, A, j.localParent);
      SyncingSame(s1, CheckDone(s1), A);
    } else {
      CreateDoneGlobally(s, A, j, x);
    }
  }

  lemma OnlyCreatesAdded(js: multiset<Job>, js': multiset<Job>)
    requires js <= js' && OnlyCreates(js' - js)
    ensures forall k: Job :: !k.Create? ==> js'[k] == js[k]
  {
    assert js' == js + (js' - js);
  }

  /** It leaves all other jobs alone. */
  lemma CreateDoneJobs(s: State, A: set<Collection>, j: Job, x: Id)
    requires Syncing(s, A) && j in s.jobs && j.Create? && x != ROOT_ID && x !in s.tree.localUidMap
    ensures forall k: Job :: !k.Create? ==> CreateDone(s, j, x).jobs[k] == s.jobs[k]
  {
    CreateDoneIs(s, A, j, x);
    OnlyCreatesAdded(CreateRecorded(s, j, x).jobs, CreateDone(s, j, x).jobs);
  }

  lemma CreateDoneGlobally(s: State, A: set<Collection>, j: Job, x: Id)
    requires Syncing(s, A) && j in s.jobs && j.Create? && x != ROOT_ID && x !in s.tree.localUidMap
    requires !s.tree.hierarchicalRIDs
    ensures OnlyCreating(CreateRecorded(s, j, x), CreateDone(s, j, x))
    ensures Syncing(CreateDone(s, j, x), A)
  {
    var r := CreateRecorded(s, j, x);
    FirstPassCreates(s, A, j, x);
    RootOpens(s, A, j, x);
    var s1 := ProcessPendingRemoteNodes(r, j.localParent);
    UnmatchedPass(s1, A, ROOT_ID);
    var s2 := ProcessPendingRemoteNodes(s1, ROOT_ID);
    OnlyCreatingTwice(r, s1, s2);
    SyncingSame(s2, CheckDone(s2), A);
  }

  /** The pass over the parent creates only, and leaves nothing matched at the root. */
  lemma FirstPassCreates(s: State, A: set<Collection>, j: Job, x: Id)
    requires Syncing(s, A) && j in s.jobs && j.Create? && x != ROOT_ID && x !in s.tree.localUidMap
    requires !s.tree.hierarchicalRIDs
    ensures var r := CreateRecorded(s, j, x); var s1 := ProcessPendingRemoteNodes(r, j.localParent);
      OnlyCreating(r, s1) && forall c :: c in Waiting(s1, ROOT_ID) ==> Match(s1.tree, c).None?
  {
    var r := CreateRecorded(s, j, x);
    RecordedOpens(s, A, j, x);
    AnchoredUnmatched(s, A, j, x);
    var s1 := ProcessPendingRemoteNodes(r, j.localParent);
    if j.localParent == ROOT_ID {
      UnmatchedPass(r, A, ROOT_ID);
      StillUnmatched(s1, A, ROOT_ID);
    } else {
      WaitsAtRoot(s, A, j.localParent);
      EmptyPass(r, j.localParent);
      assert Waiting(s1, ROOT_ID) == Waiting(r, ROOT_ID);
    }
  }

  // ------------------------------------------------------------------ the local listing

  lemma DeliveryKeepsListing(s: System, s': System, remote: set<Collection>)
    requires Inv(s, remote) && DeliveryStep(s, s') && s.client.localListDone
    ensures s'.client.localListDone
  {
    if cols :| Chunk(s, s', cols) {
      ChunkInv(s, s', remote, cols);
    } else if cols, removed :| Changes(s, s', cols, removed) {
      ChangesInv(s, s', remote, cols, removed);
    } else {
      DeliveryEndsInv(s, s', remote);
    }
  }

  lemma CreateKeepsListing(s: System, s': System, remote: set<Collection>, j: Job, x: Id)
    requires Inv(s, remote) && CreateFinishes(s, s', j, x) && s.client.localListDone
    ensures s'.client.localListDone
  {
    CreateDoneIs(s.client, Seen(s, remote), j, x);
  }

  lemma JobDoneKeepsListing(c: State, j: Job)
    ensures JobDone(c, j).localListDone == c.localListDone
  {
  }

  lemma MoveDoneKeepsListing(c: State, m: Move)
    ensures MoveDone(c, m).localListDone == c.localListDone
  {
  }

  lemma JobKeepsListing(s: System, s': System, remote: set<Collection>)
    requires Inv(s, remote) && JobStep(s, s') && s.client.localListDone
    ensures s'.client.localListDone
  {
    if j :| ModifyFinishes(s, s', j) {
      JobDoneKeepsListing(s.client, j);
    } else if j :| DeleteFinishes(s, s', j) {
      JobDoneKeepsListing(s.client, j);
    } else if m :| MoveFinishes(s, s', m) {
      MoveDoneKeepsListing(s.client, m);
    } else {
      var j, x :| CreateFinishes(s, s', j, x);
      CreateKeepsListing(s, s', remote, j, x);
    }
  }

  /** Once complete, the local listing stays so. */
  lemma ListingStays(s: System, s': System, remote: set<Collection>)
    requires Inv(s, remote) && Step(s, s') && s.client.localListDone
    ensures s'.client.localListDone
  {
    if DeliveryStep(s, s') {
      DeliveryKeepsListing(s, s', remote);
    } else {
      JobKeepsListing(s, s', remote);
    }
  }

  /** Only the end of the local listing starts the synchronisation proper. */
  lemma ListingStep(s: System, s': System, remote: set<Collection>)
    requires Inv(s, remote) && Step(s, s') && !s.client.localListDone && s'.client.localListDone
    ensures LocalDone(s, s')
  {
    if JobStep(s, s') {
      NoJobBeforeListing(s, s', remote);
    } else {
      ListingDelivery(s, s');
    }
  }

  lemma ListingDelivery(s: System, s': System)
    requires DeliveryStep(s, s') && !s.client.localListDone && s'.client.localListDone
    ensures LocalDone(s, s')
  {
    if LocalDone(s, s') {
    } else if cols :| Chunk(s, s', cols) {
      ChunkKeepsListing(s.client, cols);
    } else if cols, removed :| Changes(s, s', cols, removed) {
      ChangesKeepListing(s.client, cols, removed);
    } else if DeliveryEnds(s, s') {
    } else if cols :| LocalBatch(s, s', cols) {
    }
  }

  lemma NoJobBeforeListing(s: System, s': System, remote: set<Collection>)
    requires Inv(s, remote) && JobStep(s, s')
    ensures s.client.localListDone
  {
    if j :| ModifyFinishes(s, s', j) {
      assert j in s.client.jobs;
    } else if j :| DeleteFinishes(s, s', j) {
      assert j in s.client.jobs;
    } else if m :| MoveFinishes(s, s', m) {
      assert m in s.client.moves;
    } else {
      var j, x :| CreateFinishes(s, s', j, x);
      assert j in s.client.jobs;
    }
  }

  lemma ChunkKeepsListing(c: State, cols: seq<Collection>)
    requires !c.localListDone
    ensures !SetRemoteCollections(c, cols).localListDone
  {
    var s2 := ChunkFiles(c, cols);
  }

  lemma ChangesKeepListing(c: State, cols: seq<Collection>, removed: seq<Collection>)
    requires !c.localListDone
    ensures !SetRemoteChanges(c, cols, removed).localListDone
  {
    var s2 := ChangesFile(c, cols, removed);
  }

  /** Until the local listing is complete the server stays as it is. */
  lemma ServerStays(s: System, s': System, remote: set<Collection>)
    requires Inv(s, remote) && Step(s, s') && !s.client.localListDone
    ensures s'.server == s.server
  {
    if JobStep(s, s') {
      NoJobBeforeListing(s, s', remote);
    }
  }

  lemma {:induction false} ServerAtListing(run: seq<System>, remote: set<Collection>, i: nat)
    requires Run(run, remote) && i < |run| && !run[i].client.localListDone
    ensures run[i].server == run[0].server
  {
    if i > 0 {
      var k: nat := i - 1;
      RunInv(run, remote, k);
      assert run[k + 1] == run[i] && Step(run[k], run[k + 1]);
      if run[k].client.localListDone {
        ListingStays(run[k], run[i], remote);
      }
      ServerAtListing(run, remote, k);
      ServerStays(run[k], run[i], remote);
    }
  }
}
