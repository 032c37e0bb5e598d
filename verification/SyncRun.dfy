/** What every event keeps: the ledger of accepted collections, the job and progress counts,
    and the rule that the outcome is a single commit once everything is delivered and no
    job is in flight. */
module SyncRun {
  import opened Collections
  import opened SyncState
  import opened SyncListing
  import opened SyncMatching
  import opened SyncGrowth
  import opened SyncLedger

  /** The job counter counts the jobs in flight; each job other than a move, once done,
      counted as progress. */
  ghost predicate Counts(s: State) {
    && s.pendingJobs == |s.jobs| + |s.moves|
    && s.progress + |s.jobs| == |s.handled| + |s.deleted|
  }

  /** The parts no pass over waiting nodes touches. */
  ghost predicate SameControl(s: State, t: State) {
    && s.tree == t.tree
    && s.incremental == t.incremental && s.streaming == t.streaming
    && s.localListDone == t.localListDone && s.deliveryDone == t.deliveryDone
    && s.progress == t.progress && s.totalAmount == t.totalAmount
    && s.removedRemoteCollections == t.removedRemoteCollections
    && s.deleted == t.deleted
  }

  ghost predicate SameFlags(s: State, t: State) {
    && s.incremental == t.incremental && s.streaming == t.streaming
    && s.localListDone == t.localListDone && s.deliveryDone == t.deliveryDone
  }

  ghost predicate OnlyDeletes(js: multiset<Job>) {
    forall j :: j in js ==> j.Delete?
  }

  // ------------------------------------------------------------------ counting

  lemma UpdateCounts(s: State, x: Id, c: Collection)
    requires Counts(s)
    ensures var s' := UpdateLocalCollection(s, x, c);
      SameControl(s', s) && Counts(s') && s'.outcomes == s.outcomes && s.processed <= s'.processed
      && (s.tree.hierarchicalRIDs ==> s'.moves == s.moves)
  {
    var local := Node(s.tree, x).collection;
    var s1 := s.(pendingJobs := s.pendingJobs + 1,
                 jobs := s.jobs + multiset{ModifyJob(local, c)},
                 handled := s.handled + multiset{c});
    assert Counts(s1);
    MoveCounts(s1, local, c);
  }

  lemma MoveCounts(s: State, local: Collection, remote: Collection)
    requires Counts(s)
    ensures var s' := MoveIfNeeded(s, local, remote);
      SameControl(s', s) && Counts(s') && s'.outcomes == s.outcomes && s'.processed == s.processed
  {
    var s' := MoveIfNeeded(s, local, remote);
    if s' != s {
      assert |s'.moves| == |s.moves| + 1;
    }
  }

  ghost predicate SweepCounts(w: Sweep, w': Sweep) {
    && SameControl(w'.state, w.state) && Counts(w'.state) && |w'.creations| == |w'.created|
    && (w.state.tree.hierarchicalRIDs ==> w'.state.moves == w.state.moves)
    && w.state.processed <= w'.state.processed
    && (!w'.aborted ==> w'.state.outcomes == w.state.outcomes)
  }

  lemma CreationCounts(w: Sweep, j: Job, c: Collection)
    requires Counts(w.state) && |w.creations| == |w.created| && !w.aborted
    ensures SweepCounts(w, w.(creations := w.creations + multiset{j}, created := w.created + multiset{c}))
  {
  }

  lemma ParkCounts(w: Sweep, n: Id, c: Collection)
    requires Counts(w.state) && |w.creations| == |w.created| && !w.aborted
    ensures SweepCounts(w, w.(state := SetWaiting(w.state, n, Waiting(w.state, n) + [c])))
  {
  }

  lemma ProcessOneCounts(w: Sweep, c: Collection)
    requires Counts(w.state) && |w.creations| == |w.created|
    ensures SweepCounts(w, ProcessOne(w, c))
  {
    if !w.aborted {
      var t := w.state.tree;
      var x := FindMatchingLocalNode(t, c);
      var p := FindMatchingLocalNode(t, c.Parent());
      var b := FindBestLocalAncestor(t, c).node;
      if x.Some? {
        UpdateCounts(w.state, x.value, c);
      } else if p.Some? {
        CreationCounts(w, CreateJob(t, p.value, c), c);
      } else if b.Some? {
        ParkCounts(w, b.value, c);
      }
    }
  }

  lemma {:induction false} SweepAllCounts(s: State, cs: seq<Collection>)
    requires Counts(s)
    ensures var w := SweepAll(s, cs);
      && SameControl(w.state, s) && Counts(w.state) && |w.creations| == |w.created|
      && (s.tree.hierarchicalRIDs ==> w.state.moves == s.moves)
      && s.processed <= w.state.processed
      && (!w.aborted ==> w.state.outcomes == s.outcomes)
  {
    if cs != [] {
      SweepAllCounts(s, cs[..|cs| - 1]);
      ProcessOneCounts(SweepAll(s, cs[..|cs| - 1]), cs[|cs| - 1]);
    }
  }

  lemma ProcessPendingCounts(s: State, n: Id)
    requires Counts(s) && !SweepAll(SetWaiting(s, n, []), Waiting(s, n)).aborted
    ensures var s' := ProcessPendingRemoteNodes(s, n);
      SameControl(s', s) && Counts(s') && s'.outcomes == s.outcomes && s.processed <= s'.processed
      && (s.tree.hierarchicalRIDs ==> s'.moves == s.moves)
  {
    SweepAllCounts(SetWaiting(s, n, []), Waiting(s, n));
  }

  lemma {:induction false} IssueDeletesCounts(s: State, cols: seq<Collection>)
    ensures var s' := IssueDeletes(s, cols);
      && s'.jobs >= s.jobs && OnlyDeletes(s'.jobs - s.jobs)
      && s'.pendingJobs == s.pendingJobs + |cols| && |s'.jobs| == |s.jobs| + |cols|
      && |s'.deleted| == |s.deleted| + |cols|
      && s' == s.(pendingJobs := s'.pendingJobs, jobs := s'.jobs, deleted := s'.deleted)
  {
    if cols != [] {
      IssueDeletesCounts(s, cols[..|cols| - 1]);
      var u := IssueDeletes(s, cols[..|cols| - 1]);
      var d := multiset{Delete(cols[|cols| - 1])};
      assert (u.jobs + d) - s.jobs == (u.jobs - s.jobs) + d;
    }
  }

  lemma {:induction false} DeleteJobsCount(cols: set<Collection>)
    ensures |DeleteJobs(cols)| == |cols|
  {
    if cols != {} {
      var c := Pick(cols);
      DeleteJobsCount(cols - {c});
      assert DeleteJobs(cols) == DeleteJobs(cols - {c}) + {Delete(c)};
    } else {
      assert DeleteJobs(cols) == {};
    }
  }

  /** Deleting the unprocessed nodes only adds delete jobs. */
  lemma DeleteUnprocessedIs(s: State)
    ensures var s' := DeleteUnprocessedLocalNodes(s);
      && s'.jobs >= s.jobs && OnlyDeletes(s'.jobs - s.jobs)
      && (Counts(s) ==> Counts(s'))
      && s'.totalAmount - s.totalAmount == |s'.deleted| - |s.deleted|
      && s' == s.(pendingJobs := s'.pendingJobs, totalAmount := s'.totalAmount, jobs := s'.jobs, deleted := s'.deleted)
  {
    var cols := DeletableCollections(s.tree, s.processed);
    DeleteJobsCount(cols);
    var d := multiset(DeleteJobs(cols));
    assert (s.jobs + d) - s.jobs == d;
    assert |d| == |cols|;
    assert |multiset(cols)| == |cols|;
  }

  lemma DeleteRemovedIs(s: State)
    ensures var s' := DeleteRemoved(s);
      && s'.jobs >= s.jobs && OnlyDeletes(s'.jobs - s.jobs)
      && (Counts(s) ==> Counts(s'))
      && s'.totalAmount - s.totalAmount == |s'.deleted| - |s.deleted|
      && s' == s.(pendingJobs := s'.pendingJobs, totalAmount := s'.totalAmount, jobs := s'.jobs, deleted := s'.deleted,
                  removedRemoteCollections := [])
      && (s.removedRemoteCollections == [] ==> s' == s)
  {
    var cols := if s.tree.hierarchicalRIDs then MatchingLocals(s.tree, s.removedRemoteCollections)
        else s.removedRemoteCollections;
    IssueDeletesCounts(s.(totalAmount := s.totalAmount + |cols|), cols);
  }

  // ------------------------------------------------------------------ jobs that create nothing

  lemma LedgerMoreJobs(s: State, js: multiset<Job>, js': multiset<Job>, A: set<Collection>)
    requires Ledger(s, js, A)
    requires forall j: Job :: j.Create? ==> js'[j] == js[j]
    ensures Ledger(s, js', A)
  {
    forall c | c in A ensures Settled(s, js', c) {
      assert Settled(s, js, c);
    }
    forall j | j in js' ensures CreatesRightly(s.tree, js', A, j) {
      if j.Create? {
        assert j in js;
        assert CreatesRightly(s.tree, js, A, j);
      }
    }
  }

  // ------------------------------------------------------------------ nothing is stuck

  /** A complete listing is closed under parents, and its parent relation has no cycle. */
  ghost predicate ClosedListing(hierarchical: bool, A: set<Collection>) {
    if hierarchical then forall c :: c in A ==> c.Parent().IsRoot() || HasPath(A, PathOf(c.Parent()))
    else (exists rank: map<string, nat> :: RankedListing(A, rank))
  }

  ghost predicate HasPath(A: set<Collection>, p: Path) {
    exists d :: d in A && PathOf(d) == p
  }

  /** The parent's remote id is the root's, or belongs to a listed collection of smaller rank. */
  ghost predicate RankedListing(A: set<Collection>, rank: map<string, nat>) {
    && (forall c :: c in A ==> c.Rid() in rank)
    && (forall c :: c in A && c.Parent().Rid() != "" ==>
          exists d :: d in A && d.Rid() == c.Parent().Rid() && rank[d.Rid()] < rank[c.Rid()])
  }

  /** What a listing must have for every collection to find its place in a local tree: each
      parent is in the tree or listed as well. */
  ghost predicate Closed(t: Tree, A: set<Collection>) {
    if t.hierarchicalRIDs then forall c {:trigger MatchParent(t, c)} :: c in A ==> ParentKnown(t, A, c)
    else exists rank: map<string, nat> :: RankedIn(t, A, rank)
  }

  ghost predicate ParentKnown(t: Tree, A: set<Collection>, c: Collection) {
    MatchParent(t, c).Some? || HasPath(A, PathOf(c.Parent()))
  }

  ghost predicate RankedIn(t: Tree, A: set<Collection>, rank: map<string, nat>) {
    && (forall c :: c in A ==> c.Rid() in rank)
    && (forall c :: c in A && c.Parent().Rid() !in t.localRidMap ==>
          exists d :: d in A && d.Rid() == c.Parent().Rid() && rank[d.Rid()] < rank[c.Rid()])
  }

  /** A listing that is complete in itself is complete for every tree. */
  lemma CompleteIsClosed(t: Tree, A: set<Collection>)
    requires TreeOk(t) && GoodListing(t.hierarchicalRIDs, A) && ClosedListing(t.hierarchicalRIDs, A)
    ensures Closed(t, A)
  {
    if t.hierarchicalRIDs {
      forall c | c in A ensures ParentKnown(t, A, c) {
        MatchStep(t, c);
      }
    } else {
      var rank: map<string, nat> :| RankedListing(A, rank);
      assert RankedIn(t, A, rank);
    }
  }

  /** Creating a listed collection keeps that. */
  lemma ClosedGrown(t: Tree, A: set<Collection>, p: Id, r: Collection, x: Id)
    requires TreeOk(t) && Fits(t, A) && Closed(t, A) && r in A && CanCreate(t, p, r, x)
    ensures Closed(CreateLocalNode(t, Created(t, p, r, x)), A)
  {
    var t' := CreateLocalNode(t, Created(t, p, r, x));
    CreatedIsNewLeaf(t, p, r, x);
    if t.hierarchicalRIDs {
      forall c | c in A ensures ParentKnown(t', A, c) {
        assert MatchParent(t, c).Some? || MatchParent(t, c).None?;
        GrownMatch(t, A, p, r, x, c);
      }
    } else {
      var rank: map<string, nat> :| RankedIn(t, A, rank);
      assert RankedIn(t', A, rank);
    }
  }

  lemma {:induction false} NothingMissingHierarchical(s: State, js: multiset<Job>, A: set<Collection>, c: Collection)
    requires TreeOk(s.tree) && s.tree.hierarchicalRIDs && Fits(s.tree, A) && Closed(s.tree, A)
    requires Ledger(s, js, A) && (forall j :: j in js ==> !j.Create?) && c in A
    ensures Match(s.tree, c).Some?
    decreases |PathOf(c)|
  {
    assert Settled(s, js, c);
    if MatchParent(s.tree, c).None? {
      var d :| d in A && PathOf(d) == PathOf(c.Parent());
      NothingMissingHierarchical(s, js, A, d);
      ListedInChains(A, c);
      ListedInChains(A, d);
      assert AgreeAt(s.tree, d, c.parent);
    }
  }

  lemma {:induction false} NothingMissingGlobal(s: State, js: multiset<Job>, A: set<Collection>,
          rank: map<string, nat>, c: Collection)
    requires TreeOk(s.tree) && !s.tree.hierarchicalRIDs && RankedIn(s.tree, A, rank)
    requires Ledger(s, js, A) && (forall j :: j in js ==> !j.Create?) && c in A
    ensures Match(s.tree, c).Some?
    decreases rank[c.Rid()]
  {
    assert Settled(s, js, c);
    if c.Parent().Rid() !in s.tree.localRidMap {
      var d :| d in A && d.Rid() == c.Parent().Rid() && rank[d.Rid()] < rank[c.Rid()];
      NothingMissingGlobal(s, js, A, rank, d);
    }
  }

  /** With a closed listing and no creation in flight, every accepted collection has its
      local node and nothing waits anywhere: no node is ever stuck. */
  lemma NothingStuck(s: State, js: multiset<Job>, A: set<Collection>)
    requires TreeOk(s.tree) && Fits(s.tree, A) && Closed(s.tree, A)
    requires Ledger(s, js, A) && forall j :: j in js ==> !j.Create?
    ensures forall c :: c in A ==> Match(s.tree, c).Some?
    ensures !HasOrphans(s)
  {
    forall c | c in A ensures Match(s.tree, c).Some? {
      if s.tree.hierarchicalRIDs {
        NothingMissingHierarchical(s, js, A, c);
      } else {
        var rank: map<string, nat> :| RankedIn(s.tree, A, rank);
        NothingMissingGlobal(s, js, A, rank, c);
      }
    }
    forall n ensures Waiting(s, n) == [] {
      assert WaitingOk(s, A, n);
      assert forall c :: c in Waiting(s, n) ==> WaitsRightly(s.tree, A, n, c);
      EmptyIff(Waiting(s, n));
    }
  }

  // ------------------------------------------------------------------ the invariant

  /** While the local listing is incomplete, remote nodes only pile up at the root. */
  ghost predicate Listing(s: State, A: set<Collection>) {
    && !s.localListDone
    && ListOk(s.tree)
    && s.processed == {ROOT_ID}
    && NoDup(Waiting(s, ROOT_ID)) && Elements(Waiting(s, ROOT_ID)) == A
    && (forall n :: n in s.pendingRemoteNodes && n != ROOT_ID ==> s.pendingRemoteNodes[n] == [])
    && s.jobs == multiset{} && s.moves == multiset{} && s.handled == multiset{} && s.deleted == multiset{}
    && s.pendingJobs == 0 && s.progress == 0
    && s.outcomes == []
  }

  /** Afterwards, everything accepted is on the ledger. */
  ghost predicate Syncing(s: State, A: set<Collection>) {
    && s.localListDone
    && ROOT_ID in s.processed
    && TreeOk(s.tree) && Fits(s.tree, A)
    && Ledger(s, s.jobs, A)
    && HandledOnce(s.tree, s.handled, A)
    && Counts(s)
  }

  ghost predicate OutcomeOk(s: State) {
    s.outcomes == if s.localListDone && s.deliveryDone && s.pendingJobs == 0 then [Committed] else []
  }

  ghost predicate ClientOk(s: State, A: set<Collection>) {
    && GoodListing(s.tree.hierarchicalRIDs, A)
    && (s.deliveryDone && s.localListDone ==> Closed(s.tree, A))
    && (if s.localListDone then Syncing(s, A) else Listing(s, A))
    && OutcomeOk(s)
  }

  lemma SyncingSame(s: State, s': State, A: set<Collection>)
    requires Syncing(s, A) && s' == s.(outcomes := s'.outcomes)
    ensures Syncing(s', A)
  {
    LedgerSame(s, s', s.jobs, A);
  }

  lemma CheckDoneOk(s: State, A: set<Collection>)
    requires GoodListing(s.tree.hierarchicalRIDs, A) && Syncing(s, A) && s.outcomes == []
    requires s.deliveryDone ==> Closed(s.tree, A)
    ensures ClientOk(CheckDone(s), A)
    ensures CheckDone(s) == s.(outcomes := CheckDone(s).outcomes)
  {
    if s.deliveryDone && s.pendingJobs <= 0 {
      NothingLeft(s, A);
    }
    CheckDoneOutcome(s);
    SyncingSame(s, CheckDone(s), A);
  }

  lemma CheckDoneOutcome(s: State)
    requires s.localListDone && s.outcomes == [] && s.pendingJobs >= 0
    requires s.deliveryDone && s.pendingJobs <= 0 ==> !HasOrphans(s)
    ensures CheckDone(s) == s.(outcomes := CheckDone(s).outcomes) && OutcomeOk(CheckDone(s))
  {
  }

  lemma NothingLeft(s: State, A: set<Collection>)
    requires Closed(s.tree, A) && Syncing(s, A)
    requires s.pendingJobs <= 0
    ensures s.pendingJobs == 0 && !HasOrphans(s)
  {
    assert |s.jobs| == 0;
    NothingStuck(s, s.jobs, A);
  }

  /** Everything accepted is settled, except perhaps what waits at n. */
  ghost predicate Opened(s: State, A: set<Collection>, n: Id) {
    && s.localListDone && ROOT_ID in s.processed
    && TreeOk(s.tree) && Fits(s.tree, A) && Counts(s)
    && NoDup(Waiting(s, n)) && (forall c :: c in Waiting(s, n) ==> c in A)
    && Ledger(SetWaiting(s, n, []), s.jobs, A - Elements(Waiting(s, n)))
    && HandledOnce(s.tree, s.handled, A - Elements(Waiting(s, n)))
  }

  /** One pass over a place whose nodes are the only unsettled ones. */
  lemma PassOk(s: State, A: set<Collection>, n: Id)
    requires Opened(s, A, n)
    ensures !SweepAll(SetWaiting(s, n, []), Waiting(s, n)).aborted
    ensures var s' := ProcessPendingRemoteNodes(s, n);
      SameControl(s', s) && Syncing(s', A) && s'.outcomes == s.outcomes
      && (s.tree.hierarchicalRIDs ==> s'.moves == s.moves)
  {
    var B := A - Elements(Waiting(s, n));
    assert B + Elements(Waiting(s, n)) == A;
    ProcessPendingOk(s, B, n);
    SweepAllOk(SetWaiting(s, n, []), B, Waiting(s, n));
    ProcessPendingCounts(s, n);
  }

  /** Executing once only the nodes at the root are unsettled. */
  lemma ExecuteOk(s: State, A: set<Collection>)
    requires Opened(s, A, ROOT_ID) && s.outcomes == []
    requires s.deliveryDone ==> Closed(s.tree, A)
    ensures ClientOk(Execute(s), A)
    ensures Execute(s).tree == s.tree && SameFlags(Execute(s), s) && Execute(s).removedRemoteCollections == []
    ensures Execute(s).totalAmount - s.totalAmount == |Execute(s).deleted| - |s.deleted|
  {
    PassOk(s, A, ROOT_ID);
    var s1 := ProcessPendingRemoteNodes(s, ROOT_ID);
    DeletingKeeps(s1, A);
    var s2 := if s1.deliveryDone then DeleteUnprocessedLocalNodes(s1) else s1;
    CheckDoneOk(DeleteRemoved(s2), A);
  }

  /** Issuing deletions disturbs no entry of the ledger. */
  lemma DeletingKeeps(s1: State, A: set<Collection>)
    requires Syncing(s1, A)
    ensures var s2 := if s1.deliveryDone then DeleteUnprocessedLocalNodes(s1) else s1; var s3 := DeleteRemoved(s2);
      && Syncing(s3, A) && s3.outcomes == s1.outcomes && SameFlags(s3, s1) && s3.tree == s1.tree
      && s3.removedRemoteCollections == []
      && s3.totalAmount - s1.totalAmount == |s3.deleted| - |s1.deleted|
  {
    var s2 := if s1.deliveryDone then DeleteUnprocessedLocalNodes(s1) else s1;
    DeleteUnprocessedIs(s1);
    DeleteRemovedIs(s2);
    var s3 := DeleteRemoved(s2);
    LedgerSame(s1, s3, s1.jobs, A);
    OnlyDeletesAdded(s1.jobs, s2.jobs, s3.jobs);
    LedgerMoreJobs(s3, s1.jobs, s3.jobs, A);
  }

  lemma OnlyDeletesAdded(a: multiset<Job>, b: multiset<Job>, c: multiset<Job>)
    requires a <= b <= c && (a == b || OnlyDeletes(b - a)) && OnlyDeletes(c - b)
    ensures forall j: Job :: j.Create? ==> c[j] == a[j]
  {
    forall j: Job | j.Create? ensures c[j] == a[j] {
      assert (c - b)[j] == 0;
      assert a == b || (b - a)[j] == 0;
    }
  }

  // ------------------------------------------------------------------ events

  /** Remote collections with a remote id are accepted, all others skipped. */
  function Accepted(cols: seq<Collection>): seq<Collection> {
    if cols == [] then []
    else if cols[|cols| - 1].Rid() == "" then Accepted(cols[..|cols| - 1])
    else Accepted(cols[..|cols| - 1]) + [cols[|cols| - 1]]
  }

  function AcceptedSet(cols: seq<Collection>): set<Collection> {
    Elements(Accepted(cols))
  }

  lemma {:induction false} CreateRemoteNodesIs(s: State, cols: seq<Collection>)
    ensures var s' := CreateRemoteNodes(s, cols);
      && Waiting(s', ROOT_ID) == Waiting(s, ROOT_ID) + Accepted(cols)
      && (forall n :: n != ROOT_ID ==> Waiting(s', n) == Waiting(s, n))
      && s' == s.(pendingRemoteNodes := s'.pendingRemoteNodes)
  {
    if cols != [] {
      CreateRemoteNodesIs(s, cols[..|cols| - 1]);
    }
  }

  lemma SetWaitingAt(s: State, x: Id, cs: seq<Collection>)
    ensures forall n {:trigger Waiting(SetWaiting(s, x, cs), n)} ::
      Waiting(SetWaiting(s, x, cs), n) == if n == x then cs else Waiting(s, n)
  {
  }

  /** A chunk brings collections that were not accepted before, each once. */
  ghost predicate FreshChunk(A: set<Collection>, cols: seq<Collection>) {
    NoDup(Accepted(cols)) && forall c :: c in Accepted(cols) ==> c !in A
  }

  /** Taking the old and the new nodes off the root leaves everything else settled. */
  lemma ChunkOpens(s: State, s2: State, A: set<Collection>, cols: seq<Collection>)
    requires Syncing(s, A) && FreshChunk(A, cols) && Filed(s, s2, cols)
    requires Fits(s.tree, A + AcceptedSet(cols))
    ensures Opened(s2, A + AcceptedSet(cols), ROOT_ID)
    ensures (A + AcceptedSet(cols)) - Elements(Waiting(s2, ROOT_ID)) == A - Elements(Waiting(s, ROOT_ID))
  {
    FiledWaiting(s, s2, cols);
    WaitingSeen(s, A, ROOT_ID);
    NoDupConcat(Waiting(s, ROOT_ID), Accepted(cols));
    TakeWaiting(s, A, ROOT_ID);
    assert (A + AcceptedSet(cols)) - Elements(Waiting(s2, ROOT_ID)) == A - Elements(Waiting(s, ROOT_ID));
    LedgerSame(SetWaiting(s, ROOT_ID, []), SetWaiting(s2, ROOT_ID, []), s.jobs, A - Elements(Waiting(s, ROOT_ID)));
  }

  lemma FiledWaiting(s: State, s2: State, cols: seq<Collection>)
    requires Filed(s, s2, cols)
    ensures Waiting(s2, ROOT_ID) == Waiting(s, ROOT_ID) + Accepted(cols)
    ensures forall n :: Waiting(SetWaiting(s2, ROOT_ID, []), n) == Waiting(SetWaiting(s, ROOT_ID, []), n)
  {
    var s1 := CreateRemoteNodes(s, cols);
    CreateRemoteNodesIs(s, cols);
    SetWaitingAt(s, ROOT_ID, []);
    SetWaitingAt(s1, ROOT_ID, []);
    assert forall n :: Waiting(SetWaiting(s2, ROOT_ID, []), n) == Waiting(SetWaiting(s1, ROOT_ID, []), n);
  }

  lemma WaitingSeen(s: State, A: set<Collection>, n: Id)
    requires Ledger(s, s.jobs, A)
    ensures NoDup(Waiting(s, n)) && forall c :: c in Waiting(s, n) ==> c in A && !Reached(s.tree, c)
  {
    assert WaitingOk(s, A, n);
    assert forall c :: c in Waiting(s, n) ==> WaitsRightly(s.tree, A, n, c);
  }

  /** When the local listing has just finished, everything is still at the root. */
  lemma ListingOpens(s: State, s1: State, A: set<Collection>)
    requires Listing(s, A) && TreeOk(s.tree) && Fits(s.tree, A)
    requires s1 == s.(localListDone := true)
    ensures Opened(s1, A, ROOT_ID)
    ensures A - Elements(Waiting(s1, ROOT_ID)) == {}
  {
    var s' := SetWaiting(s1, ROOT_ID, []);
    assert A - Elements(Waiting(s1, ROOT_ID)) == {};
    forall n ensures WaitingOk(s', {}, n) {
      assert Waiting(s', n) == [];
    }
  }

  /** Further local collections arrive. */
  lemma LocalBatchOk(s: State, A: set<Collection>, cols: seq<Collection>)
    requires ClientOk(s, A) && !s.localListDone && FreshListing(s.tree, cols)
    ensures ClientOk(s.(tree := LocalCollectionsReceived(s.tree, cols)), A)
  {
    ReceivedKeepsListOk(s.tree, cols);
    ReceivedMode(s.tree, cols);
  }

  lemma {:induction false} ReceivedMode(t: Tree, cols: seq<Collection>)
    ensures LocalCollectionsReceived(t, cols).hierarchicalRIDs == t.hierarchicalRIDs
  {
    if cols != [] {
      ReceivedMode(t, cols[..|cols| - 1]);
    }
  }

  /** The local listing is complete and connected. */
  lemma LocalDoneOk(s: State, A: set<Collection>)
    requires ClientOk(s, A) && !s.localListDone && TreeOk(s.tree) && Fits(s.tree, A)
    requires s.deliveryDone ==> Closed(s.tree, A)
    ensures ClientOk(LocalFetchResult(s), A)
    ensures LocalFetchResult(s).tree == s.tree && SameFlags(LocalFetchResult(s), s.(localListDone := true))
    ensures LocalFetchResult(s).removedRemoteCollections == []
    ensures LocalFetchResult(s).totalAmount - s.totalAmount == |LocalFetchResult(s).deleted| - |s.deleted|
  {
    ListingOpens(s, s.(localListDone := true), A);
    ExecuteOk(s.(localListDone := true), A);
  }

  lemma UpdateKeepsListing(s: State, x: Id, c: Collection)
    ensures UpdateLocalCollection(s, x, c).localListDone == s.localListDone
  {
    assert StartUpdate(s, Node(s.tree, x).collection, c).localListDone == s.localListDone;
  }

  lemma OneKeepsListing(w: Sweep, c: Collection)
    ensures ProcessOne(w, c).state.localListDone == w.state.localListDone
  {
    if !w.aborted {
      var t := w.state.tree;
      var x, p := FindMatchingLocalNode(t, c), FindMatchingLocalNode(t, c.Parent());
      if x.Some? {
        UpdateKeepsListing(w.state, x.value, c);
      } else if p.Some? {
        assert ProcessOne(w, c) == ProcessCreatable(w, p.value, c);
      } else {
        assert ProcessOne(w, c) == ProcessPremature(w, FindBestLocalAncestor(t, c).node, c);
      }
    }
  }

  lemma {:induction false} SweepKeepsListing(s: State, cs: seq<Collection>)
    ensures SweepAll(s, cs).state.localListDone == s.localListDone
  {
    if cs != [] {
      SweepKeepsListing(s, cs[..|cs| - 1]);
      OneKeepsListing(SweepAll(s, cs[..|cs| - 1]), cs[|cs| - 1]);
    }
  }

  lemma ParkedIffMissing(hierarchical: bool, cols: seq<Collection>)
    requires FreshListing(InitialTree(hierarchical), cols)
    ensures LocalCollectionsReceived(InitialTree(hierarchical), cols).localPendingCollections != map[] <==>
      exists c :: c in cols && c.Parent().Uid() != ROOT_ID && c.Parent().Uid() !in ListedIds(cols)
  {
    var t0 := InitialTree(hierarchical);
    var t := LocalCollectionsReceived(t0, cols);
    InitialListOk(hierarchical);
    ReceivedKeepsListOk(t0, cols);
    ReceivedNodes(t0, cols);
    NothingParkedIff(t);
    NodesAreListed(hierarchical, cols);
  }

  lemma NodesAreListed(hierarchical: bool, cols: seq<Collection>)
    requires FreshListing(InitialTree(hierarchical), cols)
    ensures var t := LocalCollectionsReceived(InitialTree(hierarchical), cols);
      && (forall c :: c in cols ==> Holds(t, c) && c.Uid() != ROOT_ID)
      && (forall x :: x in t.localUidMap && x != ROOT_ID ==> Node(t, x).collection in cols)
  {
    var t0 := InitialTree(hierarchical);
    var t := LocalCollectionsReceived(t0, cols);
    ReceivedNodes(t0, cols);
    forall c | c in cols ensures Holds(t, c) && c.Uid() != ROOT_ID {
      var i :| 0 <= i < |cols| && cols[i] == c;
      assert IsNew(t0, cols[i]);
    }
    forall x | x in t.localUidMap && x != ROOT_ID ensures Node(t, x).collection in cols {
      var i :| 0 <= i < |cols| && cols[i].Uid() == x;
      assert Holds(t, cols[i]);
    }
  }

  /** A local listing, in whatever order it came, is rejected exactly if the parent of some listed
      collection is neither the root nor listed; then nothing happens but the error. Otherwise the
      synchronisation proper begins. */
  lemma DisconnectedIff(s: State, cols: seq<Collection>)
    requires !s.localListDone && FreshListing(InitialTree(s.tree.hierarchicalRIDs), cols)
    requires s.tree == LocalCollectionsReceived(InitialTree(s.tree.hierarchicalRIDs), cols)
    ensures var s' := LocalFetchResult(s);
      if exists c :: c in cols && c.Parent().Uid() != ROOT_ID && c.Parent().Uid() !in ListedIds(cols)
      then s' == s.(outcomes := s.outcomes + [InconsistentLocalTree])
      else s'.localListDone
  {
    ParkedIffMissing(s.tree.hierarchicalRIDs, cols);
    if s.tree.localPendingCollections == map[] {
      var s1 := s.(localListDone := true);
      SweepKeepsListing(SetWaiting(s1, ROOT_ID, []), Waiting(s1, ROOT_ID));
      ExecuteKeepsListing(s1);
    }
  }

  lemma ExecuteKeepsListing(s: State)
    requires s.localListDone && ProcessPendingRemoteNodes(s, ROOT_ID).localListDone
    ensures Execute(s).localListDone
  {
    var s1 := ProcessPendingRemoteNodes(s, ROOT_ID);
    DeleteUnprocessedIs(s1);
    DeleteRemovedIs(if s1.deliveryDone then DeleteUnprocessedLocalNodes(s1) else s1);
  }

  /** A chunk of remote collections has been filed, and nothing else changed that matters. */
  ghost predicate Filed(s: State, s2: State, cols: seq<Collection>) {
    && s2.tree == s.tree && s2.processed == s.processed && s2.localListDone == s.localListDone
    && s2.pendingRemoteNodes == CreateRemoteNodes(s, cols).pendingRemoteNodes
    && s2.jobs == s.jobs && s2.moves == s.moves && s2.handled == s.handled && s2.deleted == s.deleted
    && s2.pendingJobs == s.pendingJobs && s2.progress == s.progress && s2.outcomes == s.outcomes
  }

  /** The nodes of a chunk are executed; by then delivery may have ended. */
  lemma ChunkOk(s: State, s2: State, A: set<Collection>, cols: seq<Collection>)
    requires ClientOk(s, A) && !s.deliveryDone && FreshChunk(A, cols) && Filed(s, s2, cols)
    requires GoodListing(s.tree.hierarchicalRIDs, A + AcceptedSet(cols))
    requires s.localListDone ==> Fits(s.tree, A + AcceptedSet(cols))
    requires s2.deliveryDone && s.localListDone ==> Closed(s.tree, A + AcceptedSet(cols))
    ensures ClientOk(Execute(s2), A + AcceptedSet(cols)) && Execute(s2).tree == s.tree && SameFlags(Execute(s2), s2)
    ensures Execute(s2).removedRemoteCollections == if s.localListDone then [] else s2.removedRemoteCollections
    ensures Execute(s2).totalAmount - s2.totalAmount == |Execute(s2).deleted| - |s.deleted|
  {
    if s.localListDone {
      ChunkOpens(s, s2, A, cols);
      ExecuteOk(s2, A + AcceptedSet(cols));
    } else {
      ListingMore(s, s2, A, cols);
    }
  }

  lemma ListingMore(s: State, s2: State, A: set<Collection>, cols: seq<Collection>)
    requires Listing(s, A) && FreshChunk(A, cols) && Filed(s, s2, cols)
    ensures Listing(s2, A + AcceptedSet(cols))
  {
    CreateRemoteNodesIs(s, cols);
    assert Waiting(s2, ROOT_ID) == Waiting(s, ROOT_ID) + Accepted(cols);
    NoDupConcat(Waiting(s, ROOT_ID), Accepted(cols));
    forall n | n in s2.pendingRemoteNodes && n != ROOT_ID ensures s2.pendingRemoteNodes[n] == [] {
      assert Waiting(CreateRemoteNodes(s, cols), n) == Waiting(s, n);
    }
  }

  /** A modify or delete job finishes. */
  lemma JobDoneOk(s: State, A: set<Collection>, j: Job)
    requires ClientOk(s, A) && j in s.jobs && !j.Create? && s.localListDone
    ensures ClientOk(JobDone(s, j), A)
    ensures JobDone(s, j) == s.(jobs := s.jobs - multiset{j}, pendingJobs := s.pendingJobs - 1,
                                progress := s.progress + 1, outcomes := JobDone(s, j).outcomes)
  {
    var s' := s.(jobs := s.jobs - multiset{j}, pendingJobs := s.pendingJobs - 1, progress := s.progress + 1);
    LedgerMoreJobs(s, s.jobs, s'.jobs, A);
    LedgerSame(s, s', s'.jobs, A);
    CheckDoneOk(s', A);
  }

  /** A move job finishes. */
  lemma MoveDoneOk(s: State, A: set<Collection>, m: Move)
    requires ClientOk(s, A) && m in s.moves && s.localListDone
    ensures ClientOk(MoveDone(s, m), A)
    ensures MoveDone(s, m) == s.(moves := s.moves - multiset{m}, pendingJobs := s.pendingJobs - 1,
                                 outcomes := MoveDone(s, m).outcomes)
  {
    var s' := s.(moves := s.moves - multiset{m}, pendingJobs := s.pendingJobs - 1);
    LedgerSame(s, s', s.jobs, A);
    CheckDoneOk(s', A);
  }

  // ------------------------------------------------------------------ create jobs

  /** What a finished create job leaves: the new tree, and nothing changed beside it but the
      waiting lists, what was issued, and the counts. */
  ghost predicate Recorded(s: State, j: Job, x: Id, s': State)
    requires j.Create?
  {
    && s'.tree == CreateRecorded(s, j, x).tree && SameFlags(s', s)
    && s'.totalAmount == s.totalAmount && s'.deleted == s.deleted
    && s'.removedRemoteCollections == s.removedRemoteCollections
  }

  lemma RecordedClosed(s: State, A: set<Collection>, j: Job, x: Id)
    requires Syncing(s, A) && j in s.jobs && j.Create? && x != ROOT_ID && x !in s.tree.localUidMap
    ensures Closed(s.tree, A) ==> Closed(CreateRecorded(s, j, x).tree, A)
  {
    RecordedGrows(s, A, j, x);
    assert CreatesRightly(s.tree, s.jobs, A, j);
    if Closed(s.tree, A) {
      ClosedGrown(s.tree, A, j.localParent, j.remote, x);
    }
  }

  /** With hierarchical remote ids, re-examining the parent settles everything. */
  lemma CreateDoneHierarchical(s: State, A: set<Collection>, j: Job, x: Id)
    requires ClientOk(s, A) && s.localListDone && s.tree.hierarchicalRIDs
    requires j in s.jobs && j.Create? && x != ROOT_ID && x !in s.tree.localUidMap
    ensures ClientOk(CreateDone(s, j, x), A)
    ensures Recorded(s, j, x, CreateDone(s, j, x))
  {
    var r := CreateRecorded(s, j, x);
    RecordedOpens(s, A, j, x);
    RecordedClosed(s, A, j, x);
    PassOk(r, A, j.localParent);
    CheckDoneOk(ProcessPendingRemoteNodes(r, j.localParent), A);
  }

  lemma RecordedOpens(s: State, A: set<Collection>, j: Job, x: Id)
    requires Syncing(s, A)
    requires j in s.jobs && j.Create? && x != ROOT_ID && x !in s.tree.localUidMap
    ensures Opened(CreateRecorded(s, j, x), A, Anchor(s.tree, j.localParent))
    ensures CreateRecorded(s, j, x).tree.hierarchicalRIDs == s.tree.hierarchicalRIDs
  {
    var r := CreateRecorded(s, j, x);
    var a := Anchor(s.tree, j.localParent);
    RecordedGrows(s, A, j, x);
    RecordedLedger(s, r, A, j, x, a);
    RecordedHandled(s, r.tree, A, j, x, a);
    assert WaitingOk(s, A, a);
    assert forall c :: c in Waiting(s, a) ==> WaitsRightly(s.tree, A, a, c);
  }

  /** Re-examining a place where nothing waits changes nothing but the bookkeeping. */
  lemma EmptyPass(s: State, n: Id)
    requires Waiting(s, n) == []
    ensures ProcessPendingRemoteNodes(s, n) == SetWaiting(s, n, [])
    ensures forall m :: Waiting(SetWaiting(s, n, []), m) == Waiting(s, m)
  {
    var s' := SetWaiting(s, n, []);
    assert s'.jobs + multiset{} == s'.jobs;
    assert s'.handled + multiset{} == s'.handled;
  }

  /** With global remote ids nothing waits anywhere but at the root. */
  lemma WaitsAtRoot(s: State, A: set<Collection>, n: Id)
    requires !s.tree.hierarchicalRIDs && Ledger(s, s.jobs, A) && n != ROOT_ID
    ensures Waiting(s, n) == []
  {
    assert WaitingOk(s, A, n);
    assert forall c :: c in Waiting(s, n) ==> WaitsRightly(s.tree, A, n, c);
    EmptyIff(Waiting(s, n));
  }

  /** Where everything is settled, any place may be re-examined. */
  lemma SettledOpens(s: State, A: set<Collection>, n: Id)
    requires Syncing(s, A)
    ensures Opened(s, A, n)
  {
    TakeWaiting(s, A, n);
    WaitingSeen(s, A, n);
  }

  /** The end of delivery settles nothing and unsettles nothing. */
  lemma EndOpens(s: State, A: set<Collection>, n: Id)
    requires Syncing(s, A)
    ensures Opened(s.(deliveryDone := true), A, n)
  {
    var s' := s.(deliveryDone := true);
    SettledOpens(s, A, n);
    SetWaitingAt(s, n, []);
    SetWaitingAt(s', n, []);
    LedgerSame(SetWaiting(s, n, []), SetWaiting(s', n, []), s.jobs, A - Elements(Waiting(s, n)));
  }

  /** So the pass over the parent leaves exactly the root to be re-examined. */
  lemma RootOpens(s: State, A: set<Collection>, j: Job, x: Id)
    requires Syncing(s, A) && !s.tree.hierarchicalRIDs
    requires j in s.jobs && j.Create? && x != ROOT_ID && x !in s.tree.localUidMap
    ensures var r := CreateRecorded(s, j, x); var s1 := ProcessPendingRemoteNodes(r, j.localParent);
      Opened(s1, A, ROOT_ID) && SameControl(s1, r) && s1.outcomes == s.outcomes
  {
    var r := CreateRecorded(s, j, x);
    RecordedOpens(s, A, j, x);
    var s1 := ProcessPendingRemoteNodes(r, j.localParent);
    if j.localParent == ROOT_ID {
      PassOk(r, A, ROOT_ID);
      SettledOpens(s1, A, ROOT_ID);
    } else {
      WaitsAtRoot(s, A, j.localParent);
      EmptyPass(r, j.localParent);
      SetWaitingAt(r, ROOT_ID, []);
      SetWaitingAt(s1, ROOT_ID, []);
      LedgerSame(SetWaiting(r, ROOT_ID, []), SetWaiting(s1, ROOT_ID, []), r.jobs, A - Elements(Waiting(r, ROOT_ID)));
    }
  }

  lemma CreateDoneGlobal(s: State, A: set<Collection>, j: Job, x: Id)
    requires ClientOk(s, A) && s.localListDone && !s.tree.hierarchicalRIDs
    requires j in s.jobs && j.Create? && x != ROOT_ID && x !in s.tree.localUidMap
    ensures ClientOk(CreateDone(s, j, x), A)
    ensures Recorded(s, j, x, CreateDone(s, j, x))
  {
    RootOpens(s, A, j, x);
    RecordedClosed(s, A, j, x);
    var s1 := ProcessPendingRemoteNodes(CreateRecorded(s, j, x), j.localParent);
    PassOk(s1, A, ROOT_ID);
    CheckDoneOk(ProcessPendingRemoteNodes(s1, ROOT_ID), A);
  }
}
