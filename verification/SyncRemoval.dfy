/** What an incremental synchronisation deletes: exactly what was reported as removed, and what
    becomes of it on the server (akonadi/collectionsync.cpp, execute). */
module SyncRemoval {
  import opened Collections
  import opened Trees
  import opened SyncState
  import opened SyncMatching
  import opened SyncGrowth
  import opened SyncLedger
  import opened SyncRun
  import opened SyncContent
  import opened SyncSystem
  import opened SyncSteps
  import opened SyncMoves

  // ------------------------------------------------------------------ which deletions are issued

  /** The collection a delete job for a removed one names: the local one it matches or, with global
      remote ids, itself. */
  ghost predicate StandsFor(t: Tree, c: Collection, col: Collection) {
    if t.hierarchicalRIDs then Match(t, c).Some? && Node(t, Match(t, c).value).collection == col else c == col
  }

  /** How many of the removed collections stand for col. */
  ghost function Hits(t: Tree, removed: seq<Collection>, col: Collection): nat {
    |set i | 0 <= i < |removed| && StandsFor(t, removed[i], col)|
  }

  lemma HitsMore(t: Tree, removed: seq<Collection>, col: Collection)
    requires removed != []
    ensures Hits(t, removed, col) ==
      Hits(t, removed[..|removed| - 1], col) + One(StandsFor(t, removed[|removed| - 1], col))
  {
    var n := |removed| - 1;
    var front := removed[..n];
    var a := set i | 0 <= i < |removed| && StandsFor(t, removed[i], col);
    var b := set i | 0 <= i < |front| && StandsFor(t, front[i], col);
    assert forall i :: 0 <= i < n ==> front[i] == removed[i];
    if StandsFor(t, removed[n], col) {
      assert a == b + {n};
    } else {
      assert a == b;
    }
  }

  /** The list of what is to be deleted counts them. */
  lemma {:induction false} ToDeleteCounts(t: Tree, removed: seq<Collection>, col: Collection)
    ensures multiset(ToDelete(t, removed))[col] == Hits(t, removed, col)
  {
    if removed == [] {
      assert (set i | 0 <= i < |removed| && StandsFor(t, removed[i], col)) == {};
    } else {
      var front, c := removed[..|removed| - 1], removed[|removed| - 1];
      assert removed == front + [c];
      ToDeleteCounts(t, front, col);
      HitsMore(t, removed, col);
    }
  }

  /** How often a job finishes in this step. */
  ghost function Ends(s: System, s': System, col: Collection): nat {
    One(DeleteFinishes(s, s', Delete(col)))
  }

  lemma ExecuteRemovals(c: State, s2: State, c': State, removed: seq<Collection>, A: set<Collection>, col: Collection)
    requires Executes(c, s2, c', removed, A) && c'.incremental
    ensures var todo := c.removedRemoteCollections + removed;
      && c'.tree == c.tree && c'.removedRemoteCollections == []
      && c'.deleted[col] == c.deleted[col] + Hits(c.tree, todo, col)
      && c'.jobs[Delete(col)] == c.jobs[Delete(col)] + Hits(c.tree, todo, col)
  {
    ExecutedIs(s2, A);
    var todo := c.removedRemoteCollections + removed;
    var s1 := ProcessPendingRemoteNodes(s2, ROOT_ID);
    assert Unlisted(s1) == {} && DeleteJobs({}) == {};
    ToDeleteCounts(c.tree, todo, col);
    DeleteListCounts(ToDelete(c.tree, todo));
  }

  lemma JobRemovals(s: System, s': System, remote: set<Collection>, col: Collection)
    requires Inv(s, remote) && JobStep(s, s')
    ensures s.client.localListDone && s'.client.removedRemoteCollections == s.client.removedRemoteCollections == []
    ensures s'.client.deleted == s.client.deleted
    ensures s'.client.jobs[Delete(col)] + Ends(s, s', col) == s.client.jobs[Delete(col)]
  {
    NoJobBeforeListing(s, s', remote);
    var r := ResultOf(s, s');
    match r
    case PlainResult(j) => PlainRemovals(s, s', j, col);
    case MoveResult(m) => MoveRemovals(s, s', m, col);
    case CreateResult(j, x) => CreateRemovals(s, s', remote, j, x, col);
  }

  lemma FinishedOnce(s: System, s': System, col: Collection)
    requires DeleteFinishes(s, s', Delete(col))
    ensures s'.client.jobs[Delete(col)] + 1 == s.client.jobs[Delete(col)]
  {
    FinishedIs(s.client, Delete(col));
  }

  lemma PlainRemovals(s: System, s': System, j: Job, col: Collection)
    requires ModifyFinishes(s, s', j) || DeleteFinishes(s, s', j)
    ensures s'.client.removedRemoteCollections == s.client.removedRemoteCollections
    ensures s'.client.deleted == s.client.deleted
    ensures s'.client.jobs[Delete(col)] + Ends(s, s', col) == s.client.jobs[Delete(col)]
  {
    FinishedIs(s.client, j);
    if DeleteFinishes(s, s', Delete(col)) {
      FinishedOnce(s, s', col);
    }
  }

  lemma MoveRemovals(s: System, s': System, m: Move, col: Collection)
    requires MoveFinishes(s, s', m)
    ensures s'.client.removedRemoteCollections == s.client.removedRemoteCollections
    ensures s'.client.deleted == s.client.deleted
    ensures s'.client.jobs[Delete(col)] + Ends(s, s', col) == s.client.jobs[Delete(col)]
  {
    MovedIs(s.client, m);
    if DeleteFinishes(s, s', Delete(col)) {
      FinishedOnce(s, s', col);
    }
  }

  lemma CreateDeletesNothing(c: State, A: set<Collection>, j: Job, x: Id, col: Collection)
    requires Syncing(c, A) && j in c.jobs && j.Create? && x != ROOT_ID && x !in c.tree.localUidMap
    ensures var c' := CreateDone(c, j, x);
      && c'.removedRemoteCollections == c.removedRemoteCollections && c'.deleted == c.deleted
      && c'.jobs[Delete(col)] == c.jobs[Delete(col)]
  {
    CreateDoneIs(c, A, j, x);
    CreateDoneJobs(c, A, j, x);
  }

  lemma CreateRemovals(s: System, s': System, remote: set<Collection>, j: Job, x: Id, col: Collection)
    requires Inv(s, remote) && CreateFinishes(s, s', j, x) && s.client.localListDone
    ensures s'.client.removedRemoteCollections == s.client.removedRemoteCollections
    ensures s'.client.deleted == s.client.deleted
    ensures s'.client.jobs[Delete(col)] + Ends(s, s', col) == s.client.jobs[Delete(col)]
  {
    CreateDeletesNothing(s.client, Seen(s, remote), j, x, col);
    if DeleteFinishes(s, s', Delete(col)) {
      FinishedOnce(s, s', col);
    }
  }

  lemma EarlyKept(s: System, s': System, removed: seq<Collection>)
    requires DeliveryReports(s, s', removed) && !s.client.localListDone && !s'.client.localListDone
    requires !LocalDone(s, s')
    ensures s'.client.removedRemoteCollections == s.client.removedRemoteCollections + removed
  {
    if cols :| Changes(s, s', cols, removed) {
      var s2 := ChangesFile(s.client, cols, removed);
    } else {
      NothingMore(s.client.removedRemoteCollections);
      if cols :| Chunk(s, s', cols) {
        var s2 := ChunkFiles(s.client, cols);
      }
    }
  }

  lemma LocalDoneLists(s: System, s': System, remote: set<Collection>)
    requires Inv(s, remote) && LocalDone(s, s')
    ensures s'.client.localListDone
  {
    LocalDoneSame(s, s', remote);
  }

  /** What is reported before the local listing is complete is kept for later. */
  lemma EarlyReports(s: System, s': System, remote: set<Collection>, removed: seq<Collection>)
    requires Inv(s, remote) && DeliveryReports(s, s', removed) && !s'.client.localListDone
    ensures s'.client.removedRemoteCollections == s.client.removedRemoteCollections + removed
    ensures s'.client.deleted == multiset{} && s'.client.jobs == multiset{}
  {
    ReportsAreSteps(s, s', removed);
    StepInv(s, s', remote);
    if s.client.localListDone {
      ListingStays(s, s', remote);
    }
    if LocalDone(s, s') {
      LocalDoneLists(s, s', remote);
    }
    EarlyKept(s, s', removed);
  }

  /** Every step of an incremental sync, in either mode, issues exactly one delete job for each
      collection reported as removed and not yet handled that stands for something local (with
      global remote ids: for each reported one), and no other delete job; what is reported before
      the local listing is complete is kept until then. */
  lemma RemovalsExact(s: System, s': System, remote: set<Collection>, removed: seq<Collection>, col: Collection)
    requires Inv(s, remote) && Reports(s, s', removed) && s'.client.incremental
    ensures var c, c' := s.client, s'.client; var todo := c.removedRemoteCollections + removed;
      if c'.localListDone then
        && c'.removedRemoteCollections == []
        && c'.deleted[col] == c.deleted[col] + Hits(c.tree, todo, col)
        && c'.jobs[Delete(col)] + Ends(s, s', col) == c.jobs[Delete(col)] + Hits(c.tree, todo, col)
      else
        c'.removedRemoteCollections == todo && c'.deleted == multiset{} && c'.jobs == multiset{}
  {
    if DeliveryReports(s, s', removed) {
      if s'.client.localListDone {
        var s2 := DeliveryExecutes(s, s', remote, removed);
        ExecuteRemovals(s.client, s2, s'.client, removed, Seen(s', remote), col);
        if DeleteFinishes(s, s', Delete(col)) {
          FinishedOnce(s, s', col);
        }
      } else {
        EarlyReports(s, s', remote, removed);
      }
    } else {
      JobRemovals(s, s', remote, col);
      ReportsAreSteps(s, s', removed);
      ListingStays(s, s', remote);
      NothingHit(s.client.tree, col);
      NothingMore(s.client.removedRemoteCollections);
    }
  }

  lemma NothingHit(t: Tree, col: Collection)
    ensures Hits(t, [], col) == 0
  {
    ToDeleteCounts(t, [], col);
  }

  // ------------------------------------------------------------------ what is gone

  /** No listed collection is going to be put below a: what belongs there is there already. */
  ghost predicate LeftAlone(t: Tree, A: set<Collection>, a: Id) {
    forall c :: c in A && MatchParent(t, c) == Some(a) ==>
      Match(t, c).Some? && LocalParent(t, Match(t, c).value) == a
  }

  /** A delete job for col means a: by uid, or by remote id if col has no uid. */
  ghost predicate Means(s: System, col: Collection, a: Id) {
    || col.Uid() == a
    || (!s.client.tree.hierarchicalRIDs && col.Uid() < 0 && col.Uid() !in s.server && col.Rid() != ""
        && a in s.server && s.server[a].remoteId == col.Rid())
  }

  /** a is still to be deleted, or it is gone together with everything below it. */
  ghost predicate Fading(s: System, remote: set<Collection>, col: Collection, a: Id) {
    && s.client.localListDone && a in s.client.tree.localUidMap && a != ROOT_ID
    && LeftAlone(s.client.tree, AcceptedOf(remote), a)
    && (a in s.server ==> Means(s, col, a) && Delete(col) in s.client.jobs)
    && (a !in s.server ==> forall x :: x in s.server ==> s.server[x].parent != a)
  }

  /** Whoever hangs on something that is removed is removed, too. */
  lemma RemovedWithParent(server: Server, c: Collection, a: Id)
    requires a in server && a !in RemoveCollection(server, c)
    ensures forall x :: x in RemoveCollection(server, c) ==> server[x].parent != a
  {
    var d :| d in Addressed(server, c) && Under(ServerParents(server), a, d);
    forall x | x in RemoveCollection(server, c) ensures server[x].parent != a {
      UnderStep(ServerParents(server), x, d);
    }
  }

  lemma ExecuteKeeps(s: State, A: set<Collection>, col: Collection)
    requires Opened(s, A, ROOT_ID)
    ensures Execute(s).tree == s.tree && Execute(s).jobs[Delete(col)] >= s.jobs[Delete(col)]
  {
    ExecutedIs(s, A);
    DeletesOnlyAdded(s.jobs, ProcessPendingRemoteNodes(s, ROOT_ID).jobs, Execute(s).jobs, col);
  }

  lemma DeletesOnlyAdded(js: multiset<Job>, js1: multiset<Job>, js2: multiset<Job>, col: Collection)
    requires SameDeletes(js, js1) && js1 <= js2
    ensures js2[Delete(col)] >= js[Delete(col)]
  {
  }

  /** A delivery changes neither the server nor the local tree, and forgets no delete job. */
  lemma DeliveryKeeps(s: System, s': System, remote: set<Collection>, removed: seq<Collection>, col: Collection)
    requires Inv(s, remote) && DeliveryReports(s, s', removed) && s.client.localListDone
    ensures s'.client.localListDone && s'.server == s.server && s'.client.tree == s.client.tree
    ensures Delete(col) in s.client.jobs ==> Delete(col) in s'.client.jobs
  {
    ReportsAreSteps(s, s', removed);
    ListingStays(s, s', remote);
    var s2 := DeliveryExecutes(s, s', remote, removed);
    ExecuteKeeps(s2, Seen(s', remote), col);
  }

  lemma DeliveryFades(s: System, s': System, remote: set<Collection>, removed: seq<Collection>, col: Collection, a: Id)
    requires Inv(s, remote) && DeliveryReports(s, s', removed) && Fading(s, remote, col, a)
    ensures Fading(s', remote, col, a)
  {
    DeliveryKeeps(s, s', remote, removed, col);
  }

  /** With global remote ids the server keeps the remote ids the local tree holds. */
  ghost predicate RidsAgree(s: System) {
    !s.client.tree.hierarchicalRIDs ==>
      forall x :: x in s.server ==> s.server[x].remoteId == Node(s.client.tree, x).collection.Rid()
  }

  lemma ModifyFades(s: System, s': System, remote: set<Collection>, j: Job, col: Collection, a: Id)
    requires RidsAgree(s) && RidsAgree(s') && ModifyFinishes(s, s', j) && Fading(s, remote, col, a)
    ensures Fading(s', remote, col, a)
  {
    FinishedIs(s.client, j);
  }

  lemma DeleteFades(s: System, s': System, remote: set<Collection>, j: Job, col: Collection, a: Id)
    requires DeleteFinishes(s, s', j) && Fading(s, remote, col, a)
    ensures Fading(s', remote, col, a)
  {
    FinishedIs(s.client, j);
    if a in s.server {
      if j == Delete(col) {
        assert a in Addressed(s.server, col);
        UnderRefl(ServerParents(s.server), a);
      }
      if a !in s'.server {
        RemovedWithParent(s.server, j.col, a);
      }
    }
  }

  /** No move under way leads below a. */
  lemma MoveLeavesAlone(s: State, A: set<Collection>, U: set<Collection>, m: Move, a: Id)
    requires Syncing(s, A) && A <= U && MoveRight(s, A, m) && LeftAlone(s.tree, U, a)
    ensures m.dest.Uid() != a
  {
    var c :| c in A && MoveFor(s.tree, c, m);
    MatchIsNode(s.tree, A, c);
    assert c in U && MatchParent(s.tree, c) == Some(m.dest.Uid());
  }

  lemma MoveFades(s: System, s': System, remote: set<Collection>, m: Move, col: Collection, a: Id)
    requires MoveFinishes(s, s', m) && Fading(s, remote, col, a) && m.dest.Uid() != a
    ensures Fading(s', remote, col, a)
  {
    MovedIs(s.client, m);
  }

  /** A new leaf below another node leaves a alone. */
  lemma LeafLeavesAlone(t: Tree, A: set<Collection>, p: Id, r: Collection, x: Id, a: Id)
    requires TreeOk(t) && Fits(t, A) && r in A && CanCreate(t, p, r, x) && a in t.localUidMap && LeftAlone(t, A, a)
    ensures LeftAlone(CreateLocalNode(t, Created(t, p, r, x)), A, a) && p != a
  {
    var t' := CreateLocalNode(t, Created(t, p, r, x));
    LeafMaps(t, p, r, x);
    CreatedIsNewLeaf(t, p, r, x);
    forall c | c in A && MatchParent(t', c) == Some(a)
      ensures Match(t', c).Some? && LocalParent(t', Match(t', c).value) == a
    {
      if t.hierarchicalRIDs {
        ListedInChains(A, c);
        ListedInChains(A, r);
        ChainMatch(t, A, p, r, x, c.parent);
      }
      assert MatchParent(t, c) == Some(a);
      GrownMatch(t, A, p, r, x, c);
      MatchIsNode(t, A, c);
    }
  }

  lemma CreateLeavesAlone(c: State, A: set<Collection>, U: set<Collection>, j: Job, x: Id, a: Id)
    requires Syncing(c, A) && A <= U && Fits(c.tree, U) && j in c.jobs && j.Create?
    requires x != ROOT_ID && x !in c.tree.localUidMap && a in c.tree.localUidMap && LeftAlone(c.tree, U, a)
    ensures var c' := CreateDone(c, j, x);
      && c'.localListDone && c'.tree.hierarchicalRIDs == c.tree.hierarchicalRIDs && a in c'.tree.localUidMap
      && LeftAlone(c'.tree, U, a)
    ensures j.col.Parent().Uid() != a && x != a
  {
    CreateDoneIs(c, A, j, x);
    RecordedGrows(c, A, j, x);
    assert CreatesRightly(c.tree, c.jobs, A, j);
    LeafLeavesAlone(c.tree, U, j.localParent, j.remote, x, a);
    LeafMaps(c.tree, j.localParent, j.remote, x);
    MatchIsNode(c.tree, A, j.remote);
  }

  lemma CreateFades(s: System, s': System, remote: set<Collection>, j: Job, x: Id, col: Collection, a: Id)
    requires AgreesInv(s, remote) && CreateFinishes(s, s', j, x) && Fading(s, remote, col, a)
    ensures Fading(s', remote, col, a)
  {
    CreateDeletesNothing(s.client, Seen(s, remote), j, x, col);
    CreateLeavesAlone(s.client, Seen(s, remote), AcceptedOf(remote), j, x, a);
    InsertFades(s, s', col, x, j.col, a);
  }

  lemma InsertFades(s: System, s': System, col: Collection, x: Id, c: Collection, a: Id)
    requires s'.server == Insert(s.server, x, c) && x > ROOT_ID && x != a && c.Parent().Uid() != a
    requires s'.client.tree.hierarchicalRIDs == s.client.tree.hierarchicalRIDs
    ensures a in s'.server <==> a in s.server
    ensures Means(s, col, a) ==> Means(s', col, a)
    ensures (forall y :: y in s.server ==> s.server[y].parent != a) ==>
      forall y :: y in s'.server ==> s'.server[y].parent != a
  {
  }

  lemma FinishedFades(s: System, s': System, remote: set<Collection>, j: Job, col: Collection, a: Id)
    requires AgreesInv(s, remote) && Fading(s, remote, col, a)
    requires ModifyFinishes(s, s', j) || DeleteFinishes(s, s', j)
    ensures Fading(s', remote, col, a)
  {
    if ModifyFinishes(s, s', j) {
      StepAgrees(s, s', remote);
      ModifyFades(s, s', remote, j, col, a);
    } else {
      DeleteFades(s, s', remote, j, col, a);
    }
  }

  lemma MovedFades(s: System, s': System, remote: set<Collection>, m: Move, col: Collection, a: Id)
    requires AgreesInv(s, remote) && Fading(s, remote, col, a) && MoveFinishes(s, s', m)
    ensures Fading(s', remote, col, a)
  {
    assert MoveRight(s.client, Seen(s, remote), m);
    MoveLeavesAlone(s.client, Seen(s, remote), AcceptedOf(remote), m, a);
    MoveFades(s, s', remote, m, col, a);
  }

  lemma StepFades(s: System, s': System, remote: set<Collection>, col: Collection, a: Id)
    requires AgreesInv(s, remote) && Step(s, s') && Fading(s, remote, col, a)
    ensures Fading(s', remote, col, a)
  {
    if JobStep(s, s') {
      var r := ResultOf(s, s');
      match r
      case PlainResult(j) => FinishedFades(s, s', remote, j, col, a);
      case MoveResult(m) => MovedFades(s, s', remote, m, col, a);
      case CreateResult(j, x) => CreateFades(s, s', remote, j, x, col, a);
    } else {
      var removed := StepReports(s, s');
      DeliveryFades(s, s', remote, removed, col, a);
    }
  }

  lemma NextFades(run: seq<System>, remote: set<Collection>, i: nat, col: Collection, a: Id)
    requires Run(run, remote) && i < |run| - 1 && Fading(run[i], remote, col, a)
    ensures Fading(run[i + 1], remote, col, a)
  {
    RunAgrees(run, remote, i);
    StepFades(run[i], run[i + 1], remote, col, a);
  }

  lemma {:induction false} RunFades(run: seq<System>, remote: set<Collection>, k: nat, i: nat, col: Collection, a: Id)
    requires Run(run, remote) && k <= i < |run| && Fading(run[k], remote, col, a)
    ensures Fading(run[i], remote, col, a)
    decreases i - k
  {
    if k < i {
      NextFades(run, remote, k, col, a);
      RunFades(run, remote, k + 1, i, col, a);
    }
  }

  lemma NothingUnder(server: Server, a: Id)
    requires a !in server && forall x :: x in server ==> server[x].parent != a
    ensures forall x :: x in server ==> !Under(ServerParents(server), x, a)
  {
    forall x, k: nat | x in server ensures Up(ServerParents(server), x, k) != a {
      NeverThere(server, a, x, k);
    }
  }

  lemma {:induction false} NeverThere(server: Server, a: Id, x: Id, k: nat)
    requires a !in server && x != a && forall y :: y in server ==> server[y].parent != a
    ensures Up(ServerParents(server), x, k) != a
    decreases k
  {
    if k > 0 && x in server {
      NeverThere(server, a, server[x].parent, k - 1);
    }
  }

  /** In every run, in either mode: once a delete job for a collection was issued, and no listed
      collection is to be put below that one, then after the commit neither it nor anything at or
      below it is on the server. */
  lemma RemovedIsGone(run: seq<System>, remote: set<Collection>, k: nat, i: nat, col: Collection, a: Id)
    requires Run(run, remote) && k <= i < |run| && run[k].client.localListDone
    requires Delete(col) in run[k].client.jobs && a in run[k].server && Means(run[k], col, a)
    requires a in run[k].client.tree.localUidMap && a != ROOT_ID
    requires LeftAlone(run[k].client.tree, AcceptedOf(remote), a) && Committed in run[i].client.outcomes
    ensures a !in run[i].server && forall x :: x in run[i].server ==> !Under(ServerParents(run[i].server), x, a)
  {
    RunFades(run, remote, k, i, col, a);
    RunInv(run, remote, i);
    assert |run[i].client.jobs| == 0;
    NothingUnder(run[i].server, a);
  }
}
