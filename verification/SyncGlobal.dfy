/** How a full synchronisation with global remote ids leaves the server: what is listed is stored
    with the listed data and below its listed parent, and what is not is gone as far as the search
    for unlisted collections reaches (akonadi/collectionsync.cpp). */
module SyncGlobal {
  import opened Collections
  import opened Trees
  import opened SyncState
  import opened SyncListing
  import opened SyncMatching
  import opened SyncGrowth
  import opened SyncLedger
  import opened SyncRun
  import opened SyncDeletion
  import opened SyncContent
  import opened SyncSystem
  import opened SyncConvergence
  import opened SyncSteps
  import opened SyncMoves
  import opened SyncTheorems

  // ------------------------------------------------------------------ deletions

  /** The delete job for a node. */
  function DeletionOf(t: Tree, d: Id): Job {
    Delete(Node(t, d).collection)
  }

  /** Every deletable node at or above x still waits for its delete job. */
  ghost predicate StillThere(t: Tree, processed: set<Id>, jobs: multiset<Job>, x: Id) {
    forall d {:trigger Below(t, x, d)} :: Deletable(t, processed, d) && Below(t, x, d) ==> DeletionOf(t, d) in jobs
  }

  ghost predicate DeletionRight(t: Tree, processed: set<Id>, jobs: multiset<Job>, j: Job) {
    j.Delete? ==> jobs[j] == 1 && exists d :: Deletable(t, processed, d) && j == DeletionOf(t, d)
  }

  /** Delete jobs are under way, once each, for deletable nodes, and the server holds exactly the
      local collections that none of the finished ones has taken away. */
  ghost predicate DeletesOut(t: Tree, processed: set<Id>, jobs: multiset<Job>, server: Server) {
    && (forall j {:trigger DeletionRight(t, processed, jobs, j)} :: j in jobs ==> DeletionRight(t, processed, jobs, j))
    && (forall x {:trigger StillThere(t, processed, jobs, x)} ::
          x in server <==> x in t.localUidMap && x != ROOT_ID && StillThere(t, processed, jobs, x))
  }

  lemma GlobalDeletionStarts(t: Tree, processed: set<Id>, jobs: multiset<Job>, server: Server, jobs': multiset<Job>)
    requires NodesOk(t.localUidMap) && Undeleted(t, jobs, server)
    requires jobs' == jobs + multiset(DeleteJobs(DeletableCollections(t, processed)))
    ensures DeletesOut(t, processed, jobs', server)
  {
    var ds := DeleteJobs(DeletableCollections(t, processed));
    forall j | j in jobs' ensures DeletionRight(t, processed, jobs', j) {
      if j.Delete? {
        assert jobs[j] == 0;
        assert j in ds;
        var c :| c in DeletableCollections(t, processed) && j == Delete(c);
        var d :| d in t.localUidMap && Deletable(t, processed, d) && Node(t, d).collection == c;
        assert j == DeletionOf(t, d);
      }
    }
    forall x ensures StillThere(t, processed, jobs', x) {
      forall d | Deletable(t, processed, d) ensures DeletionOf(t, d) in jobs' {
        assert Node(t, d).collection in DeletableCollections(t, processed);
        assert DeletionOf(t, d) in ds;
      }
    }
  }

  /** Where the server keeps its collections: unprocessed ones where they were listed, and whoever
      was moved below a processed one. */
  ghost predicate Housed(t: Tree, processed: set<Id>, server: Server) {
    && (forall x {:trigger x in processed} :: x in server && x !in processed ==> server[x].parent == LocalParent(t, x))
    && (forall x {:trigger LocalParent(t, x)} :: x in server ==>
          server[x].parent == LocalParent(t, x) || server[x].parent in processed)
  }

  lemma DeletableUnnested(t: Tree, processed: set<Id>, d: Id, e: Id)
    requires Deletable(t, processed, d) && Deletable(t, processed, e) && Below(t, d, e)
    ensures d == e
  {
    if d != e {
      DeletableSafe(t, processed, e, d);
    }
  }

  lemma {:induction false} BelowIsUnder(t: Tree, processed: set<Id>, jobs: multiset<Job>, server: Server, x: Id, d: Id)
    requires TreeOk(t) && DeletesOut(t, processed, jobs, server) && Housed(t, processed, server)
    requires Deletable(t, processed, d) && x in server && Below(t, x, d)
    ensures Under(ServerParents(server), x, d)
    decreases if x in LocalParents(t) then Depth(LocalParents(t), x) else 0
  {
    assert StillThere(t, processed, jobs, x);
    if x == d {
      UnderRefl(ServerParents(server), x);
    } else {
      var y := LocalParent(t, x);
      LocalStep(t, x);
      UnderStep(LocalParents(t), x, d);
      assert LocalParents(t)[x] == y;
      if y == ROOT_ID {
        RootAtTop(LocalParents(t), d);
      }
      forall e | Deletable(t, processed, e) && Below(t, y, e) ensures DeletionOf(t, e) in jobs {
        UnderStep(LocalParents(t), x, e);
        assert Below(t, x, e);
      }
      assert StillThere(t, processed, jobs, y);
      BelowIsUnder(t, processed, jobs, server, y, d);
      UnderStep(ServerParents(server), x, d);
    }
  }

  lemma {:induction false} NeverReaches(t: Tree, processed: set<Id>, server: Server, x: Id, d: Id, k: nat)
    requires TreeOk(t) && Housed(t, processed, server) && Deletable(t, processed, d)
    requires (forall y :: y in processed ==> y in t.localUidMap) && (forall y :: y in server ==> y in LocalParents(t))
    requires !Below(t, x, d)
    ensures Up(ServerParents(server), x, k) != d
    decreases k
  {
    UnderRefl(LocalParents(t), d);
    if k > 0 && x in server {
      var q := server[x].parent;
      UnderStep(LocalParents(t), x, d);
      assert LocalParents(t)[x] == LocalParent(t, x);
      assert q in processed ==> !Below(t, q, d);
      NeverReaches(t, processed, server, q, d, k - 1);
    }
  }

  /** On the server, deleting d takes away exactly what hangs at or below d in the local tree. */
  lemma RemovesBelow(t: Tree, processed: set<Id>, jobs: multiset<Job>, server: Server, d: Id)
    requires TreeOk(t) && DeletesOut(t, processed, jobs, server) && Housed(t, processed, server)
    requires Deletable(t, processed, d) && DeletionOf(t, d) in jobs
    requires forall y :: y in processed ==> y in t.localUidMap
    ensures d in server
    ensures forall x :: x in RemoveCollection(server, Node(t, d).collection) <==> x in server && !Below(t, x, d)
  {
    forall e | Deletable(t, processed, e) && Below(t, d, e) ensures DeletionOf(t, e) in jobs {
      DeletableUnnested(t, processed, d, e);
    }
    assert StillThere(t, processed, jobs, d);
    assert Node(t, d).collection.Uid() == d;
    RemovesByUid(server, Node(t, d).collection);
    forall x | x in server ensures Under(ServerParents(server), x, d) <==> Below(t, x, d) {
      if Below(t, x, d) {
        BelowIsUnder(t, processed, jobs, server, x, d);
      } else {
        forall y | y in server ensures y in LocalParents(t) {
          assert y in server <==> y in t.localUidMap && y != ROOT_ID && StillThere(t, processed, jobs, y);
        }
        forall k: nat ensures Up(ServerParents(server), x, k) != d {
          NeverReaches(t, processed, server, x, d, k);
        }
      }
    }
  }

  lemma GlobalRemove(t: Tree, processed: set<Id>, jobs: multiset<Job>, server: Server, j: Job)
    requires TreeOk(t) && DeletesOut(t, processed, jobs, server) && Housed(t, processed, server)
    requires j in jobs && j.Delete? && forall y :: y in processed ==> y in t.localUidMap
    ensures DeletesOut(t, processed, jobs - multiset{j}, RemoveCollection(server, j.col))
    ensures forall x :: x in processed && x in server ==> x in RemoveCollection(server, j.col)
  {
    assert DeletionRight(t, processed, jobs, j);
    var d :| Deletable(t, processed, d) && j == DeletionOf(t, d);
    RemovesBelow(t, processed, jobs, server, d);
    var jobs' := jobs - multiset{j};
    var server' := RemoveCollection(server, j.col);
    forall k | k in jobs' ensures DeletionRight(t, processed, jobs', k) {
      assert k in jobs && DeletionRight(t, processed, jobs, k);
    }
    forall e | Deletable(t, processed, e) ensures DeletionOf(t, e) in jobs' <==> DeletionOf(t, e) in jobs && e != d {
      assert Node(t, e).collection.Uid() == e && Node(t, d).collection.Uid() == d;
    }
    forall x ensures x in server' <==> x in t.localUidMap && x != ROOT_ID && StillThere(t, processed, jobs', x) {
      assert x in server <==> x in t.localUidMap && x != ROOT_ID && StillThere(t, processed, jobs, x);
      if StillThere(t, processed, jobs, x) && !Below(t, x, d) {
        assert StillThere(t, processed, jobs', x);
      }
      if StillThere(t, processed, jobs', x) {
        assert StillThere(t, processed, jobs, x);
        assert !Below(t, x, d);
      }
    }
  }

  // ------------------------------------------------------------------ new leaves

  /** x becomes a new leaf below p. */
  ghost predicate NewLeaf(t: Tree, t': Tree, p: Id, x: Id) {
    && TreeOk(t) && x !in t.localUidMap && x != ROOT_ID && p in t.localUidMap
    && LocalParents(t') == LocalParents(t)[x := p]
    && (forall y :: y in t'.localUidMap <==> y in t.localUidMap || y == x)
    && (forall y :: y in t.localUidMap ==> Node(t', y).collection == Node(t, y).collection)
  }

  lemma LeafBelow(t: Tree, t': Tree, p: Id, x: Id, y: Id, a: Id)
    requires NewLeaf(t, t', p, x)
    ensures y in t.localUidMap ==> (Below(t', y, a) <==> Below(t, y, a))
    ensures Below(t', x, a) <==> a == x || Below(t, p, a)
    ensures y in t.localUidMap && Below(t, y, a) ==> a in t.localUidMap
  {
    var par := LocalParents(t);
    RootedLeaf(par, LocalParents(t'), x, p);
    if y == ROOT_ID {
      if Below(t, y, a) {
        RootAtTop(par, a);
      }
      if Below(t', y, a) {
        RootAtTop(LocalParents(t'), a);
      }
      UnderRefl(par, y);
      UnderRefl(LocalParents(t'), y);
    } else if y in t.localUidMap {
      assert y in par;
      if Below(t, y, a) {
        UnderDepth(par, y, a);
      }
    }
  }

  /** A processed leaf below a processed node changes nothing about what can be deleted. */
  lemma LeafDeletable(t: Tree, t': Tree, processed: set<Id>, p: Id, x: Id, d: Id)
    requires NewLeaf(t, t', p, x) && p in processed && (forall y :: y in processed ==> y in t.localUidMap)
    ensures Deletable(t', processed + {x}, d) <==> Deletable(t, processed, d)
  {
    if d in t.localUidMap && d != ROOT_ID && Node(t, d).collection.Rid() != "" {
      LeafBelow(t, t', p, x, x, d);
      forall y | y in t'.localUidMap ensures y in t.localUidMap ==> (Below(t', y, d) <==> Below(t, y, d)) {
        LeafBelow(t, t', p, x, y, d);
      }
      forall a ensures Below(t', d, a) <==> Below(t, d, a)
        ensures Below(t, d, a) ==> a in t.localUidMap {
        LeafBelow(t, t', p, x, d, a);
      }
      LeafDeletableOld(t, t', processed, p, x, d);
    } else if d == x {
      UnderRefl(LocalParents(t'), x);
    }
  }

  lemma LeafDeletableOld(t: Tree, t': Tree, processed: set<Id>, p: Id, x: Id, d: Id)
    requires NewLeaf(t, t', p, x) && p in processed && (forall y :: y in processed ==> y in t.localUidMap)
    requires d in t.localUidMap && d != ROOT_ID
    requires Below(t', x, d) <==> d == x || Below(t, p, d)
    requires forall y :: y in t.localUidMap ==> (Below(t', y, d) <==> Below(t, y, d))
    requires forall a :: (Below(t', d, a) <==> Below(t, d, a)) && (Below(t, d, a) ==> a in t.localUidMap)
    ensures Deletable(t', processed + {x}, d) <==> Deletable(t, processed, d)
  {
    if Deletable(t, processed, d) {
      assert !Below(t', x, d);
    }
  }

  lemma LeafDeletesOut(t: Tree, t': Tree, processed: set<Id>, jobs: multiset<Job>, jobs': multiset<Job>,
          server: Server, server': Server, p: Id, x: Id)
    requires NewLeaf(t, t', p, x) && p in processed && (forall y :: y in processed ==> y in t.localUidMap)
    requires DeletesOut(t, processed, jobs, server) && SameDeletes(jobs, jobs')
    requires server'.Keys == server.Keys + {x} && x !in server
    ensures DeletesOut(t', processed + {x}, jobs', server')
  {
    var processed' := processed + {x};
    forall d ensures Deletable(t', processed', d) <==> Deletable(t, processed, d)
      ensures Deletable(t, processed, d) ==> DeletionOf(t', d) == DeletionOf(t, d)
    {
      LeafDeletable(t, t', processed, p, x, d);
    }
    forall j | j in jobs' ensures DeletionRight(t', processed', jobs', j) {
      if j.Delete? {
        assert jobs'[j] == jobs[j];
        assert DeletionRight(t, processed, jobs, j);
        var d :| Deletable(t, processed, d) && j == DeletionOf(t, d);
        assert Deletable(t', processed', d) && j == DeletionOf(t', d);
      }
    }
    forall y ensures y in server' <==>
        y in t'.localUidMap && y != ROOT_ID && StillThere(t', processed', jobs', y)
    {
      LeafStillThere(t, t', processed, jobs, jobs', p, x, y);
    }
  }

  lemma LeafStillThere(t: Tree, t': Tree, processed: set<Id>, jobs: multiset<Job>, jobs': multiset<Job>, p: Id,
          x: Id, y: Id)
    requires NewLeaf(t, t', p, x) && p in processed && SameDeletes(jobs, jobs')
    requires forall d :: Deletable(t', processed + {x}, d) <==> Deletable(t, processed, d)
    requires forall d :: Deletable(t, processed, d) ==> DeletionOf(t', d) == DeletionOf(t, d)
    ensures y in t.localUidMap ==>
      (StillThere(t', processed + {x}, jobs', y) <==> StillThere(t, processed, jobs, y))
    ensures StillThere(t', processed + {x}, jobs', x)
  {
    forall d | Deletable(t, processed, d)
      ensures y in t.localUidMap ==> (Below(t', y, d) <==> Below(t, y, d))
      ensures !Below(t', x, d)
      ensures DeletionOf(t, d) in jobs' <==> DeletionOf(t, d) in jobs
    {
      LeafBelow(t, t', p, x, y, d);
      assert jobs'[DeletionOf(t, d)] == jobs[DeletionOf(t, d)];
    }
  }

  // ------------------------------------------------------------------ on course

  ghost predicate MapsOutgrown(t0: Tree, t: Tree) {
    && (forall x :: x in t0.localUidMap ==>
          x in t.localUidMap && t.localUidMap[x].collection == t0.localUidMap[x].collection)
    && (forall r :: r in t0.localRidMap ==> r in t.localRidMap && t.localRidMap[r] == t0.localRidMap[r])
    && (forall r :: r in t.localRidMap && r !in t0.localRidMap ==> t.localRidMap[r] !in t0.localUidMap)
  }

  /** t has grown out of t0: old nodes and old remote ids are as they were, and each new node was
      created for a listed collection, below what matches that one's parent. */
  ghost predicate Outgrown(t0: Tree, t: Tree, A: set<Collection>) {
    && MapsOutgrown(t0, t)
    && (forall x {:trigger CreatedFor(t, A, x)} :: x in t.localUidMap && x !in t0.localUidMap ==> CreatedFor(t, A, x))
  }

  ghost predicate CreatedFor(t: Tree, A: set<Collection>, x: Id) {
    exists c :: c in A && Match(t, c) == Some(x) && MatchParent(t, c) == Some(LocalParent(t, x))
  }

  /** It was there from the beginning, but its parent was not. */
  ghost predicate Late(t0: Tree, c: Collection) {
    Match(t0, c).Some? && MatchParent(t0, c).None?
  }

  /** Unless it is late, a matched collection is stored below the match of its parent, or on its way. */
  ghost predicate Placed(s: State, server: Server, t0: Tree, c: Collection) {
    var t := s.tree;
    Match(t, c).Some? && MatchParent(t, c).Some? && !Late(t0, c) && Match(t, c).value in server ==>
      || server[Match(t, c).value].parent == MatchParent(t, c).value
      || (NeedsMove(t, c) && MoveOf(t, c) in s.moves)
  }

  ghost predicate OnCourse(s: State, server: Server, A: set<Collection>, t0: Tree) {
    && Agrees(s, server, A) && Outgrown(t0, s.tree, A) && Untouched(s.tree, server, A)
    && (forall c {:trigger Placed(s, server, t0, c)} :: c in A ==> Placed(s, server, t0, c))
    && ContentLedger(s.tree, s.jobs, A, StoredOf(s.tree, server, A), A)
    && (if s.deliveryDone then DeletesOut(s.tree, s.processed, s.jobs, server)
        else Undeleted(s.tree, s.jobs, server))
  }

  /** With a complete listing the match of a parent is processed. */
  lemma ParentIsProcessed(s: State, A: set<Collection>, c: Collection)
    requires Syncing(s, A) && !s.tree.hierarchicalRIDs && ClosedListing(false, A)
    requires c in A && MatchParent(s.tree, c).Some?
    ensures MatchParent(s.tree, c).value in s.processed
  {
    if c.Parent().Rid() != "" {
      var rank: map<string, nat> :| RankedListing(A, rank);
      var d :| d in A && d.Rid() == c.Parent().Rid() && rank[d.Rid()] < rank[c.Rid()];
      assert Settled(s, s.jobs, d);
    }
  }

  lemma CourseHoused(s: State, server: Server, A: set<Collection>)
    requires Syncing(s, A) && !s.tree.hierarchicalRIDs && ClosedListing(false, A) && Agrees(s, server, A)
    ensures Housed(s.tree, s.processed, server)
  {
    forall x | x in server
      ensures server[x].parent == LocalParent(s.tree, x) || server[x].parent in s.processed
    {
      assert server[x].parent == LocalParent(s.tree, x) || MovedTo(s.tree, A, x, server[x].parent);
      if MovedTo(s.tree, A, x, server[x].parent) {
        MovedIsProcessed(s, A, x, server[x].parent);
      }
    }
  }

  lemma MovedIsProcessed(s: State, A: set<Collection>, x: Id, p: Id)
    requires Syncing(s, A) && !s.tree.hierarchicalRIDs && ClosedListing(false, A) && MovedTo(s.tree, A, x, p)
    ensures p in s.processed
  {
    var c :| c in A && NeedsMove(s.tree, c) && Match(s.tree, c) == Some(x) && MatchParent(s.tree, c) == Some(p);
    ParentIsProcessed(s, A, c);
  }

  /** What is processed is on the server. */
  lemma ProcessedStored(s: State, server: Server, A: set<Collection>, t0: Tree, x: Id)
    requires Syncing(s, A) && OnCourse(s, server, A, t0) && x in s.processed && x != ROOT_ID
    ensures x in server
  {
    ProcessedAreNodes(s, A);
    if s.deliveryDone {
      assert StillThere(s.tree, s.processed, s.jobs, x);
    }
  }

  // ------------------------------------------------------------------ executing

  lemma ExecutePlaced(s: State, server: Server, A: set<Collection>, t0: Tree, c: Collection)
    requires Opened(s, A, ROOT_ID) && !s.tree.hierarchicalRIDs && Agrees(s, server, A) && c in A
    requires c !in Waiting(s, ROOT_ID) ==> Placed(s, server, t0, c)
    ensures Placed(Execute(s), server, t0, c)
  {
    ExecuteMarks(s, A);
    if NeedsMove(s.tree, c) {
      ExecuteMoves(s, A, MoveOf(s.tree, c));
    }
    WaitingTakenUp(s, A, c);
    if c in Waiting(s, ROOT_ID) && NeedsMove(s.tree, c) {
      assert WantsNow(s, A, MoveOf(s.tree, c));
    }
  }

  lemma ExecuteDeletes(s: State, server: Server, A: set<Collection>)
    requires Opened(s, A, ROOT_ID) && !s.incremental && s.removedRemoteCollections == []
    requires Undeleted(s.tree, s.jobs, server)
    requires ContentLedger(s.tree, s.jobs, A - Elements(Waiting(s, ROOT_ID)), StoredOf(s.tree, server, A), A)
    ensures var s' := Execute(s);
      && ContentLedger(s.tree, s'.jobs, A, StoredOf(s.tree, server, A), A)
      && if s.deliveryDone then DeletesOut(s.tree, s'.processed, s'.jobs, server)
         else Undeleted(s.tree, s'.jobs, server)
  {
    ExecutedIs(s, A);
    PassConverges(s, server, A);
    var s1 := ProcessPendingRemoteNodes(s, ROOT_ID);
    var s' := Execute(s);
    assert ToDelete(s.tree, []) == [] && DeleteJobs({}) == {};
    assert s'.jobs == s1.jobs + multiset(DeleteJobs(Unlisted(s1)));
    ContentMoreJobs(s.tree, s1.jobs, s'.jobs, A, StoredOf(s.tree, server, A), A);
    if s.deliveryDone {
      GlobalDeletionStarts(s.tree, s1.processed, s1.jobs, server, s'.jobs);
    }
  }

  lemma ExecuteOnCourse(s: State, server: Server, A: set<Collection>, t0: Tree)
    requires Opened(s, A, ROOT_ID) && !s.tree.hierarchicalRIDs && !s.incremental && s.removedRemoteCollections == []
    requires Agrees(s, server, A) && Outgrown(t0, s.tree, A) && Untouched(s.tree, server, A)
    requires forall c :: c in A && c !in Waiting(s, ROOT_ID) ==> Placed(s, server, t0, c)
    requires Undeleted(s.tree, s.jobs, server)
    requires ContentLedger(s.tree, s.jobs, A - Elements(Waiting(s, ROOT_ID)), StoredOf(s.tree, server, A), A)
    requires Execute(s).deliveryDone == s.deliveryDone
    ensures OnCourse(Execute(s), server, A, t0)
  {
    ExecuteAgrees(s, server, A, A);
    ExecuteMarks(s, A);
    ExecuteDeletes(s, server, A);
    forall c | c in A ensures Placed(Execute(s), server, t0, c) {
      ExecutePlaced(s, server, A, t0, c);
    }
  }

  // ------------------------------------------------------------------ jobs

  /** Deletions do not notice other jobs, nor changes on the server that remove and add nothing. */
  lemma DeletesSame(t: Tree, processed: set<Id>, jobs: multiset<Job>, jobs': multiset<Job>, server: Server,
          server': Server)
    requires DeletesOut(t, processed, jobs, server) && SameDeletes(jobs, jobs') && server'.Keys == server.Keys
    ensures DeletesOut(t, processed, jobs', server')
  {
    forall j | j in jobs' ensures DeletionRight(t, processed, jobs', j) {
      if j.Delete? {
        assert jobs'[j] == jobs[j];
        assert DeletionRight(t, processed, jobs, j);
      }
    }
    forall x ensures StillThere(t, processed, jobs', x) <==> StillThere(t, processed, jobs, x) {
      forall d | Deletable(t, processed, d) ensures DeletionOf(t, d) in jobs' <==> DeletionOf(t, d) in jobs {
        assert jobs'[DeletionOf(t, d)] == jobs[DeletionOf(t, d)];
      }
    }
  }

  /** The content of c was written to its match, and nothing else changed. */
  ghost predicate Written(t: Tree, server: Server, server': Server, c: Collection) {
    && Match(t, c).Some? && Match(t, c).value in server && server'.Keys == server.Keys
    && (forall y :: y in server && y != Match(t, c).value ==> server'[y] == server[y])
    && ContentOk(server'[Match(t, c).value], Node(t, Match(t, c).value).collection, c)
  }

  lemma WrittenContent(t: Tree, jobs: multiset<Job>, A: set<Collection>, server: Server, server': Server, j: Job,
          c: Collection)
    requires TreeOk(t) && !t.hierarchicalRIDs && GoodListing(false, A) && c in A && Written(t, server, server', c)
    requires j == ModifyJob(Node(t, Match(t, c).value).collection, c) && j in jobs
    requires ContentLedger(t, jobs, A, StoredOf(t, server, A), A)
    ensures ContentLedger(t, jobs - multiset{j}, A, StoredOf(t, server', A), A)
  {
    var jobs' := jobs - multiset{j};
    forall k | k in jobs' ensures ModifyRight(t, A, k) {
      assert k in jobs && ModifyRight(t, A, k);
    }
    forall d | d in A ensures Stored(t, jobs', StoredOf(t, server', A), d) {
      assert Stored(t, jobs, StoredOf(t, server, A), d);
      if Match(t, d).Some? {
        if d == c {
          assert IsStored(t, server', d);
        } else {
          assert d.Rid() != c.Rid();
          assert Match(t, d) != Match(t, c);
          if ModifyJob(Node(t, Match(t, d).value).collection, d) in jobs {
            assert ModifyJob(Node(t, Match(t, d).value).collection, d) != j;
          } else {
            assert IsStored(t, server, d) && IsStored(t, server', d);
          }
        }
      }
    }
  }

  lemma WriteIsWritten(s: State, server: Server, A: set<Collection>, c: Collection)
    requires Syncing(s, A) && !s.tree.hierarchicalRIDs && c in A && Match(s.tree, c).Some?
    requires Match(s.tree, c).value in server
    ensures Written(s.tree, server, Write(server, ModifyJob(Node(s.tree, Match(s.tree, c).value).collection, c).col), c)
  {
    MatchIsNode(s.tree, A, c);
  }

  lemma WrittenUntouched(t: Tree, server: Server, server': Server, A: set<Collection>, c: Collection)
    requires Written(t, server, server', c) && c in A && Untouched(t, server, A)
    ensures Untouched(t, server', A)
  {
    assert MatchedBy(t, A, Match(t, c).value);
  }

  /** The parts of the course that concern places look at the parents on the server only. */
  lemma PlacedSame(s: State, s': State, server: Server, server': Server, t0: Tree, c: Collection)
    requires Placed(s, server, t0, c) && s'.tree == s.tree && s'.moves == s.moves
    requires forall x :: x in server' ==> x in server && server'[x].parent == server[x].parent
    ensures Placed(s', server', t0, c)
  {
  }

  lemma ModifyTarget(s: State, server: Server, A: set<Collection>, t0: Tree, j: Job) returns (c: Collection)
    requires Syncing(s, A) && !s.tree.hierarchicalRIDs && OnCourse(s, server, A, t0) && j in s.jobs && j.Modify?
    ensures c in A && Written(s.tree, server, Write(server, j.col), c)
    ensures j == ModifyJob(Node(s.tree, Match(s.tree, c).value).collection, c)
  {
    assert ModifyRight(s.tree, A, j);
    c :| c in A && Match(s.tree, c).Some? && j == ModifyJob(Node(s.tree, Match(s.tree, c).value).collection, c);
    assert Settled(s, s.jobs, c);
    MatchIsNode(s.tree, A, c);
    ProcessedStored(s, server, A, t0, Match(s.tree, c).value);
    WriteIsWritten(s, server, A, c);
  }

  lemma ModifyOnCourse(s: State, server: Server, A: set<Collection>, t0: Tree, j: Job)
    requires Syncing(s, A) && !s.tree.hierarchicalRIDs && OnCourse(s, server, A, t0) && j in s.jobs && j.Modify?
    ensures OnCourse(JobDone(s, j), Write(server, j.col), A, t0)
  {
    var server' := Write(server, j.col);
    var c := ModifyTarget(s, server, A, t0, j);
    FinishedIs(s, j);
    ModifyAgrees(s, server, A, j);
    WrittenUntouched(s.tree, server, server', A, c);
    WrittenContent(s.tree, s.jobs, A, server, server', j, c);
    FewerJobs(s.tree, s.processed, s.jobs, server, server', j, s.deliveryDone);
    forall d | d in A ensures Placed(JobDone(s, j), server', t0, d) {
      assert Placed(s, server, t0, d);
      PlacedSame(s, JobDone(s, j), server, server', t0, d);
    }
  }

  lemma FewerJobs(t: Tree, processed: set<Id>, jobs: multiset<Job>, server: Server, server': Server, j: Job, done: bool)
    requires !j.Delete? && server'.Keys == server.Keys
    requires if done then DeletesOut(t, processed, jobs, server) else Undeleted(t, jobs, server)
    ensures if done then DeletesOut(t, processed, jobs - multiset{j}, server')
      else Undeleted(t, jobs - multiset{j}, server')
  {
    if done {
      DeletesSame(t, processed, jobs, jobs - multiset{j}, server, server');
    } else {
      assert forall k :: k in jobs - multiset{j} ==> k in jobs;
    }
  }

  lemma DeleteOnCourse(s: State, server: Server, A: set<Collection>, t0: Tree, j: Job)
    requires Syncing(s, A) && !s.tree.hierarchicalRIDs && OnCourse(s, server, A, t0) && j in s.jobs && j.Delete?
    requires s.deliveryDone ==> ClosedListing(false, A)
    ensures OnCourse(JobDone(s, j), RemoveCollection(server, j.col), A, t0)
  {
    var s' := JobDone(s, j);
    var server' := RemoveCollection(server, j.col);
    FinishedIs(s, j);
    DeleteAgrees(s, server, A, j);
    CourseHoused(s, server, A);
    ProcessedAreNodes(s, A);
    GlobalRemove(s.tree, s.processed, s.jobs, server, j);
    forall c | c in A ensures Placed(s', server', t0, c) {
      PlacedSame(s, s', server, server', t0, c);
    }
    forall c | c in A && Match(s.tree, c).Some?
      ensures Match(s.tree, c).value in server' && server'[Match(s.tree, c).value] == server[Match(s.tree, c).value]
    {
      assert Settled(s, s.jobs, c);
      MatchIsNode(s.tree, A, c);
      ProcessedStored(s, server, A, t0, Match(s.tree, c).value);
    }
    RemoveContent(s.tree, s.jobs, A, server, server', j);
    RemoveUntouched(s.tree, server, server', A);
  }

  lemma RemoveUntouched(t: Tree, server: Server, server': Server, A: set<Collection>)
    requires Untouched(t, server, A) && forall x :: x in server' ==> x in server && server'[x] == server[x]
    ensures Untouched(t, server', A)
  {
  }

  /** Moving changes no content. */
  lemma ReparentContent(t: Tree, jobs: multiset<Job>, A: set<Collection>, server: Server, x: Id, p: Id)
    requires ContentLedger(t, jobs, A, StoredOf(t, server, A), A)
    ensures ContentLedger(t, jobs, A, StoredOf(t, Reparent(server, x, p), A), A)
  {
    forall c | c in A ensures Stored(t, jobs, StoredOf(t, Reparent(server, x, p), A), c) {
      assert Stored(t, jobs, StoredOf(t, server, A), c);
      assert IsStored(t, server, c) ==> IsStored(t, Reparent(server, x, p), c);
    }
  }

  lemma MovePlaced(s: State, server: Server, A: set<Collection>, t0: Tree, m: Move, c: Collection)
    requires Syncing(s, A) && !s.tree.hierarchicalRIDs && MoveRight(s, A, m) && c in A && Placed(s, server, t0, c)
    ensures Placed(s.(moves := s.moves - multiset{m}), Reparent(server, m.col.Uid(), m.dest.Uid()), t0, c)
  {
    if Match(s.tree, c) == Some(m.col.Uid()) {
      OwnMove(s, A, m, c);
    } else if NeedsMove(s.tree, c) {
      assert m != MoveOf(s.tree, c);
    }
  }

  lemma MovePlacesAll(s: State, server: Server, A: set<Collection>, t0: Tree, m: Move)
    requires Syncing(s, A) && !s.tree.hierarchicalRIDs && OnCourse(s, server, A, t0) && m in s.moves
    ensures forall c {:trigger c in A} :: c in A ==>
      Placed(MoveDone(s, m), Reparent(server, m.col.Uid(), m.dest.Uid()), t0, c)
  {
    var s1 := s.(moves := s.moves - multiset{m});
    var server' := Reparent(server, m.col.Uid(), m.dest.Uid());
    MovedIs(s, m);
    forall c | c in A ensures Placed(MoveDone(s, m), server', t0, c) {
      MovePlaced(s, server, A, t0, m, c);
      PlacedSame(s1, MoveDone(s, m), server', server', t0, c);
    }
  }

  lemma MoveOnCourse(s: State, server: Server, A: set<Collection>, t0: Tree, m: Move)
    requires Syncing(s, A) && !s.tree.hierarchicalRIDs && OnCourse(s, server, A, t0) && m in s.moves
    ensures OnCourse(MoveDone(s, m), Reparent(server, m.col.Uid(), m.dest.Uid()), A, t0)
  {
    var server' := Reparent(server, m.col.Uid(), m.dest.Uid());
    MovedIs(s, m);
    MoveAgrees(s, server, A, m);
    assert MoveRight(s, A, m);
    MovePlacesAll(s, server, A, t0, m);
    ReparentContent(s.tree, s.jobs, A, server, m.col.Uid(), m.dest.Uid());
    MovedUntouched(s, server, A, m);
    if s.deliveryDone {
      DeletesSame(s.tree, s.processed, s.jobs, s.jobs, server, server');
    }
  }

  lemma MovedUntouched(s: State, server: Server, A: set<Collection>, m: Move)
    requires MoveRight(s, A, m) && Untouched(s.tree, server, A)
    ensures Untouched(s.tree, Reparent(server, m.col.Uid(), m.dest.Uid()), A)
  {
    var c :| c in A && MoveFor(s.tree, c, m);
    assert MatchedBy(s.tree, A, m.col.Uid());
  }

  // ------------------------------------------------------------------ creations

  lemma LeafOutgrown(t0: Tree, t: Tree, A: set<Collection>, p: Id, r: Collection, x: Id)
    requires TreeOk(t) && !t.hierarchicalRIDs && GoodListing(false, A) && r in A && CanCreate(t, p, r, x)
    requires Outgrown(t0, t, A)
    ensures Outgrown(t0, CreateLocalNode(t, Created(t, p, r, x)), A)
  {
    var t' := CreateLocalNode(t, Created(t, p, r, x));
    LeafMapsOutgrown(t0, t, p, r, x);
    forall y | y in t'.localUidMap && y !in t0.localUidMap ensures CreatedFor(t', A, y) {
      assert y != x ==> CreatedFor(t, A, y);
      LeafCreatedFor(t, A, p, r, x, y);
    }
  }

  lemma LeafMapsOutgrown(t0: Tree, t: Tree, p: Id, r: Collection, x: Id)
    requires TreeOk(t) && !t.hierarchicalRIDs && CanCreate(t, p, r, x) && MapsOutgrown(t0, t)
    ensures var t' := CreateLocalNode(t, Created(t, p, r, x));
      MapsOutgrown(t0, t') && forall y :: y in t'.localUidMap ==> y in t.localUidMap || y == x
  {
    LeafMaps(t, p, r, x);
    CreatedIsNewLeaf(t, p, r, x);
  }

  lemma LeafCreatedFor(t: Tree, A: set<Collection>, p: Id, r: Collection, x: Id, y: Id)
    requires TreeOk(t) && !t.hierarchicalRIDs && GoodListing(false, A) && r in A && CanCreate(t, p, r, x)
    requires y == x || CreatedFor(t, A, y)
    ensures CreatedFor(CreateLocalNode(t, Created(t, p, r, x)), A, y)
  {
    var t' := CreateLocalNode(t, Created(t, p, r, x));
    LeafMaps(t, p, r, x);
    CreatedIsNewLeaf(t, p, r, x);
    if y == x {
      GrownMatch(t, A, p, r, x, r);
      assert Match(t', r) == Some(x) && MatchParent(t', r) == Some(p) && LocalParent(t', x) == p;
    } else {
      var c :| c in A && Match(t, c) == Some(y) && MatchParent(t, c) == Some(LocalParent(t, y));
      GrownMatch(t, A, p, r, x, c);
      MatchIsNode(t, A, c);
      assert Match(t', c) == Some(y) && MatchParent(t', c) == Some(LocalParent(t', y));
    }
  }

  /** A matched collection whose parent is missing is late. */
  lemma MissingIsLate(t0: Tree, t: Tree, A: set<Collection>, c: Collection)
    requires !t.hierarchicalRIDs && !t0.hierarchicalRIDs && GoodListing(false, A) && c in A && Outgrown(t0, t, A)
    requires TreeOk(t) && Match(t, c).Some? && MatchParent(t, c).None?
    ensures Late(t0, c)
  {
    var x := Match(t, c).value;
    assert x !in t0.localUidMap ==> CreatedFor(t, A, x);
  }

  lemma LeafPlaced(s: State, s': State, server: Server, A: set<Collection>, t0: Tree, p: Id, r: Collection, x: Id,
          c: Collection)
    requires TreeOk(s.tree) && !s.tree.hierarchicalRIDs && GoodListing(false, A) && r in A && c in A
    requires CanCreate(s.tree, p, r, x) && x !in server && Outgrown(t0, s.tree, A) && !t0.hierarchicalRIDs
    requires s'.tree == CreateLocalNode(s.tree, Created(s.tree, p, r, x)) && s'.moves == s.moves
    requires Placed(s, server, t0, c)
    ensures Placed(s', Insert(server, x, CreateJob(s.tree, p, r).col), t0, c)
  {
    GrownMatch(s.tree, A, p, r, x, c);
    MatchIsNode(s.tree, A, c);
    LeafNeeds(s.tree, A, p, r, x, c);
    LeafMaps(s.tree, p, r, x);
    if c != r && Match(s.tree, c).Some? && MatchParent(s.tree, c).None? {
      MissingIsLate(t0, s.tree, A, c);
    }
  }

  lemma LeafUntouched(t: Tree, t': Tree, A: set<Collection>, server: Server, r: Collection, x: Id, c: Collection)
    requires Untouched(t, server, A) && r in A && Match(t', r) == Some(x)
    requires forall d :: d in A && Match(t, d).Some? ==> Match(t', d) == Match(t, d)
    requires forall y :: y in server ==> y in t.localUidMap && y != x && Node(t', y).collection == Node(t, y).collection
    ensures Untouched(t', Insert(server, x, c), A)
  {
    assert MatchedBy(t', A, x);
    forall y | MatchedBy(t, A, y) ensures MatchedBy(t', A, y) {
      var d :| d in A && Match(t, d) == Some(y);
      assert Match(t', d) == Some(y);
    }
    forall y | y in Insert(server, x, c) && !MatchedBy(t', A, y)
      ensures Insert(server, x, c)[y] == AsListed(t', y)
    {
      assert y != x && !MatchedBy(t, A, y);
    }
  }

  lemma LeafIsNew(t: Tree, p: Id, r: Collection, x: Id)
    requires TreeOk(t) && CanCreate(t, p, r, x)
    ensures NewLeaf(t, CreateLocalNode(t, Created(t, p, r, x)), p, x)
  {
    LeafMaps(t, p, r, x);
    LeafParents(t, p, r, x);
  }

  lemma CreatePhaseGlobal(s: State, server: Server, A: set<Collection>, j: Job, x: Id, jobs': multiset<Job>)
    requires Syncing(s, A) && !s.tree.hierarchicalRIDs && j in s.jobs && j.Create?
    requires x != ROOT_ID && x !in s.tree.localUidMap && x !in server
    requires s.deliveryDone ==> ClosedListing(false, A)
    requires SameDeletes(s.jobs - multiset{j}, jobs')
    requires if s.deliveryDone then DeletesOut(s.tree, s.processed, s.jobs, server)
             else Undeleted(s.tree, s.jobs, server)
    ensures var t' := CreateRecorded(s, j, x).tree; var server' := Insert(server, x, j.col);
      if s.deliveryDone then DeletesOut(t', s.processed + {x}, jobs', server') else Undeleted(t', jobs', server')
  {
    RecordedGrows(s, A, j, x);
    assert CreatesRightly(s.tree, s.jobs, A, j);
    OneJobLess(s.jobs, j, jobs');
    if s.deliveryDone {
      CreateDeletesOut(s, server, A, j, x, jobs');
    } else {
      LeafUndeleted(s.tree, j.localParent, j.remote, x, s.jobs, jobs', server);
    }
  }

  lemma OneJobLess(jobs: multiset<Job>, j: Job, jobs': multiset<Job>)
    requires j.Create? && SameDeletes(jobs - multiset{j}, jobs')
    ensures SameDeletes(jobs, jobs')
  {
  }

  lemma CreateDeletesOut(s: State, server: Server, A: set<Collection>, j: Job, x: Id, jobs': multiset<Job>)
    requires Syncing(s, A) && !s.tree.hierarchicalRIDs && ClosedListing(false, A) && j in s.jobs && j.Create?
    requires x != ROOT_ID && x !in s.tree.localUidMap && x !in server && SameDeletes(s.jobs, jobs')
    requires DeletesOut(s.tree, s.processed, s.jobs, server)
    ensures DeletesOut(CreateRecorded(s, j, x).tree, s.processed + {x}, jobs', Insert(server, x, j.col))
  {
    RecordedGrows(s, A, j, x);
    assert CreatesRightly(s.tree, s.jobs, A, j);
    ProcessedAreNodes(s, A);
    ParentIsProcessed(s, A, j.remote);
    LeafIsNew(s.tree, j.localParent, j.remote, x);
    LeafDeletesOut(s.tree, CreateRecorded(s, j, x).tree, s.processed, s.jobs, jobs', server,
                   Insert(server, x, j.col), j.localParent, x);
  }

  lemma CreateContentGlobal(s: State, server: Server, A: set<Collection>, j: Job, x: Id, jobs': multiset<Job>)
    requires Syncing(s, A) && j in s.jobs && j.Create? && x != ROOT_ID && x !in s.tree.localUidMap
    requires ContentLedger(s.tree, s.jobs, A, StoredOf(s.tree, server, A), A)
    requires s.jobs - multiset{j} <= jobs' && OnlyCreates(jobs' - (s.jobs - multiset{j}))
    ensures var t' := CreateRecorded(s, j, x).tree;
      ContentLedger(t', jobs', A, StoredOf(t', Insert(server, x, j.col), A), A)
  {
    var t' := CreateRecorded(s, j, x).tree;
    RecordedGrows(s, A, j, x);
    assert CreatesRightly(s.tree, s.jobs, A, j);
    LeafMaps(s.tree, j.localParent, j.remote, x);
    CreateContent(s.tree, t', s.jobs, A, server, j, x);
    var js := s.jobs - multiset{j};
    forall k | k in jobs' && k.Modify? ensures k in js {
      assert jobs' == js + (jobs' - js);
    }
    ContentMoreJobs(t', js, jobs', A, StoredOf(t', Insert(server, x, j.col), A), A);
  }

  lemma CreateOnCourse(s: State, server: Server, A: set<Collection>, t0: Tree, j: Job, x: Id)
    requires Syncing(s, A) && !s.tree.hierarchicalRIDs && !t0.hierarchicalRIDs && OnCourse(s, server, A, t0)
    requires j in s.jobs && j.Create? && x != ROOT_ID && x !in s.tree.localUidMap && x !in server
    requires s.deliveryDone ==> ClosedListing(false, A)
    ensures OnCourse(CreateDone(s, j, x), Insert(server, x, j.col), A, t0)
  {
    CreateDoneIs(s, A, j, x);
    CreateAgrees(s, server, A, j, x);
    CreateLedgers(s, server, A, t0, j, x);
    CreatePlaces(s, server, A, t0, j, x);
  }

  lemma CreateLedgers(s: State, server: Server, A: set<Collection>, t0: Tree, j: Job, x: Id)
    requires Syncing(s, A) && !s.tree.hierarchicalRIDs && OnCourse(s, server, A, t0)
    requires j in s.jobs && j.Create? && x != ROOT_ID && x !in s.tree.localUidMap && x !in server
    requires s.deliveryDone ==> ClosedListing(false, A)
    ensures var s' := CreateDone(s, j, x); var server' := Insert(server, x, j.col);
      && ContentLedger(s'.tree, s'.jobs, A, StoredOf(s'.tree, server', A), A)
      && if s.deliveryDone then DeletesOut(s'.tree, s'.processed, s'.jobs, server')
         else Undeleted(s'.tree, s'.jobs, server')
  {
    var jobs' := CreateDone(s, j, x).jobs;
    var js := s.jobs - multiset{j};
    CreateDoneIs(s, A, j, x);
    CreatesKeepDeletes(js, jobs');
    CreatePhaseGlobal(s, server, A, j, x, jobs');
    CreateContentGlobal(s, server, A, j, x, jobs');
  }

  lemma CreatePlaces(s: State, server: Server, A: set<Collection>, t0: Tree, j: Job, x: Id)
    requires Syncing(s, A) && !s.tree.hierarchicalRIDs && !t0.hierarchicalRIDs && OnCourse(s, server, A, t0)
    requires j in s.jobs && j.Create? && x != ROOT_ID && x !in s.tree.localUidMap && x !in server
    ensures var s' := CreateDone(s, j, x); var server' := Insert(server, x, j.col);
      && Outgrown(t0, s'.tree, A) && Untouched(s'.tree, server', A)
      && forall c {:trigger Placed(s', server', t0, c)} :: c in A ==> Placed(s', server', t0, c)
  {
    var s' := CreateDone(s, j, x);
    var t, t' := s.tree, s'.tree;
    CreateDoneIs(s, A, j, x);
    RecordedGrows(s, A, j, x);
    assert CreatesRightly(t, s.jobs, A, j);
    LeafOutgrown(t0, t, A, j.localParent, j.remote, x);
    LeafMaps(t, j.localParent, j.remote, x);
    forall c | c in A ensures Match(t', c) == if c == j.remote then Some(x) else Match(t, c) {
      GrownMatch(t, A, j.localParent, j.remote, x, c);
    }
    LeafUntouched(t, t', A, server, j.remote, x, j.col);
    forall c | c in A ensures Placed(s', Insert(server, x, j.col), t0, c) {
      assert Placed(s, server, t0, c);
      LeafPlaced(s, s', server, A, t0, j.localParent, j.remote, x, c);
    }
  }

  // ------------------------------------------------------------------ every step

  /** Full listings with global remote ids. */
  ghost predicate FullGlobal(s: System) {
    !s.client.tree.hierarchicalRIDs && !s.client.incremental
  }

  ghost predicate CourseInv(s: System, remote: set<Collection>, t0: Tree) {
    && Inv(s, remote) && ClosedListing(false, AcceptedOf(remote)) && !t0.hierarchicalRIDs
    && s.client.localListDone && FullGlobal(s)
    && OnCourse(s.client, s.server, Seen(s, remote), t0)
  }

  /** What was on course before is so for the collections that need no new look. */
  lemma FiledOnCourse(c: State, s2: State, server: Server, A: set<Collection>, A': set<Collection>, t0: Tree)
    requires OnCourse(c, server, A, t0) && !c.tree.hierarchicalRIDs && !c.deliveryDone && A <= A'
    requires Opened(s2, A', ROOT_ID) && A' - Elements(Waiting(s2, ROOT_ID)) <= A
    requires s2.tree == c.tree && s2.processed == c.processed && s2.jobs == c.jobs && s2.moves == c.moves
    requires !s2.incremental && s2.removedRemoteCollections == [] && Execute(s2).deliveryDone == s2.deliveryDone
    ensures OnCourse(Execute(s2), server, A', t0)
  {
    MoreSeen(c.tree, A, A');
    forall m | m in s2.moves ensures MoveRight(s2, A', m) {
      assert MoveRight(c, A, m);
    }
    PlacesAgree(c, s2, server, A, A');
    UntouchedGrow(c.tree, server, A, A');
    OutgrownMore(t0, c.tree, A, A');
    ContentGrow(c.tree, c.jobs, A' - Elements(Waiting(s2, ROOT_ID)), server, A, A');
    forall d | d in A' && d !in Waiting(s2, ROOT_ID) ensures Placed(s2, server, t0, d) {
      assert d in A' - Elements(Waiting(s2, ROOT_ID));
      assert Placed(c, server, t0, d);
      PlacedSame(c, s2, server, server, t0, d);
    }
    ExecuteOnCourse(s2, server, A', t0);
  }

  lemma OutgrownMore(t0: Tree, t: Tree, A: set<Collection>, A': set<Collection>)
    requires Outgrown(t0, t, A) && A <= A'
    ensures Outgrown(t0, t, A')
  {
    forall x | x in t.localUidMap && x !in t0.localUidMap ensures CreatedFor(t, A', x) {
      assert CreatedFor(t, A, x);
    }
  }

  lemma ChunkOpened(s: System, s': System, remote: set<Collection>, cols: seq<Collection>) returns (s2: State)
    requires Inv(s, remote) && Chunk(s, s', cols) && s.client.localListDone
    ensures Executes(s.client, s2, s'.client, [], Seen(s', remote))
    ensures Seen(s', remote) - Elements(Waiting(s2, ROOT_ID)) <= Seen(s, remote) <= Seen(s', remote)
    ensures s'.server == s.server && s2.incremental == s.client.incremental && s2.removedRemoteCollections == []
  {
    ChunkInv(s, s', remote, cols);
    s2 := ChunkFiles(s.client, cols);
    NothingMore(s.client.removedRemoteCollections);
    FiledPrepares(s, s', remote, cols, s2, []);
    PreparedExecutes(s.client, s2, [], Seen(s', remote));
    DeliveryExtends(s, remote, cols);
    ChunkOpens(s.client, s2, Seen(s, remote), cols);
  }

  lemma ChunkOnCourse(s: System, s': System, remote: set<Collection>, cols: seq<Collection>, t0: Tree)
    requires CourseInv(s, remote, t0) && Chunk(s, s', cols)
    ensures OnCourse(s'.client, s'.server, Seen(s', remote), t0)
  {
    var s2 := ChunkOpened(s, s', remote, cols);
    FiledOnCourse(s.client, s2, s.server, Seen(s, remote), Seen(s', remote), t0);
  }

  lemma EndOnCourse(s: System, s': System, remote: set<Collection>, t0: Tree)
    requires CourseInv(s, remote, t0) && DeliveryEnds(s, s')
    ensures OnCourse(s'.client, s'.server, Seen(s', remote), t0)
  {
    var A := Seen(s, remote);
    var s2 := s.client.(deliveryDone := true);
    assert remote - s.undelivered == remote;
    EndOpens(s.client, A, ROOT_ID);
    ExecuteOk(s2, A);
    FiledOnCourse(s.client, s2, s.server, A, A, t0);
  }

  lemma ListedOnCourse(s: System, s': System, remote: set<Collection>)
    requires Inv(s, remote) && LocalDone(s, s') && FullGlobal(s)
    ensures OnCourse(s'.client, s'.server, Seen(s', remote), s.client.tree)
  {
    var A := Seen(s, remote);
    var s2 := s.client.(localListDone := true);
    ListedTreeOk(s, remote);
    LocalDonePrepares(s, s', remote);
    ExecuteOk(s2, A);
    ListingOpens(s.client, s2, A);
    ListedAgrees(s2, s.server, A);
    ListedMirrors(s2.tree, s.server, A);
    ListingIdle(s.client, s.server, A);
    ExecuteOnCourse(s2, s.server, A, s.client.tree);
  }

  lemma PlainJobOnCourse(s: System, s': System, remote: set<Collection>, t0: Tree, j: Job)
    requires CourseInv(s, remote, t0) && (ModifyFinishes(s, s', j) || DeleteFinishes(s, s', j))
    ensures OnCourse(s'.client, s'.server, Seen(s', remote), t0)
  {
    var A := Seen(s, remote);
    if s.client.deliveryDone {
      SeenAll(s, remote);
    }
    if j.Modify? {
      ModifyOnCourse(s.client, s.server, A, t0, j);
    } else {
      DeleteOnCourse(s.client, s.server, A, t0, j);
    }
  }

  lemma MoveJobOnCourse(s: System, s': System, remote: set<Collection>, t0: Tree, m: Move)
    requires CourseInv(s, remote, t0) && MoveFinishes(s, s', m)
    ensures OnCourse(s'.client, s'.server, Seen(s', remote), t0)
  {
    MoveOnCourse(s.client, s.server, Seen(s, remote), t0, m);
  }

  lemma CreateJobOnCourse(s: System, s': System, remote: set<Collection>, t0: Tree, j: Job, x: Id)
    requires CourseInv(s, remote, t0) && CreateFinishes(s, s', j, x)
    ensures OnCourse(s'.client, s'.server, Seen(s', remote), t0)
  {
    if s.client.deliveryDone {
      SeenAll(s, remote);
    }
    CreateOnCourse(s.client, s.server, Seen(s, remote), t0, j, x);
  }

  lemma JobOnCourse(s: System, s': System, remote: set<Collection>, t0: Tree)
    requires CourseInv(s, remote, t0) && JobStep(s, s')
    ensures OnCourse(s'.client, s'.server, Seen(s', remote), t0)
  {
    if j :| ModifyFinishes(s, s', j) {
      PlainJobOnCourse(s, s', remote, t0, j);
    } else if j :| DeleteFinishes(s, s', j) {
      PlainJobOnCourse(s, s', remote, t0, j);
    } else if m :| MoveFinishes(s, s', m) {
      MoveJobOnCourse(s, s', remote, t0, m);
    } else {
      var j, x :| CreateFinishes(s, s', j, x);
      CreateJobOnCourse(s, s', remote, t0, j, x);
    }
  }

  lemma DeliveryOnCourse(s: System, s': System, remote: set<Collection>, t0: Tree)
    requires CourseInv(s, remote, t0) && DeliveryStep(s, s') && FullGlobal(s')
    ensures OnCourse(s'.client, s'.server, Seen(s', remote), t0)
  {
    if cols :| Chunk(s, s', cols) {
      ChunkOnCourse(s, s', remote, cols, t0);
    } else if DeliveryEnds(s, s') {
      EndOnCourse(s, s', remote, t0);
    } else {
      var cols, removed :| Changes(s, s', cols, removed);
      ChangesInv(s, s', remote, cols, removed);
      assert false;
    }
  }

  lemma StepOnCourse(s: System, s': System, remote: set<Collection>, t0: Tree)
    requires CourseInv(s, remote, t0) && Step(s, s') && FullGlobal(s')
    ensures CourseInv(s', remote, t0)
  {
    StepInv(s, s', remote);
    ListingStays(s, s', remote);
    if JobStep(s, s') {
      JobOnCourse(s, s', remote, t0);
    } else {
      DeliveryOnCourse(s, s', remote, t0);
    }
  }

  /** In every full run with global remote ids, once the local listing t0 is complete. */
  lemma {:induction false} RunOnCourse(run: seq<System>, remote: set<Collection>, i: nat) returns (t0: Tree)
    requires Run(run, remote) && i < |run| && FullGlobal(run[i]) && run[i].client.localListDone
    requires ClosedListing(false, AcceptedOf(remote))
    ensures CourseInv(run[i], remote, t0) && ListedTree(t0, run[0].server)
  {
    RunInv(run, remote, i);
    assert i > 0;
    var k: nat := i - 1;
    RunInv(run, remote, k);
    assert run[k + 1] == run[i] && Step(run[k], run[k + 1]);
    StepInv(run[k], run[i], remote);
    if run[k].client.localListDone {
      t0 := RunOnCourse(run, remote, k);
      StepOnCourse(run[k], run[i], remote, t0);
    } else {
      t0 := run[k].client.tree;
      ServerAtListing(run, remote, k);
      ListingStep(run[k], run[i], remote);
      ListedTreeOk(run[k], remote);
      ListedOnCourse(run[k], run[i], remote);
    }
  }

  // ------------------------------------------------------------------ the server at the end

  /** In the beginning: d has a remote id, nothing at or below it is matched, and everything above it
      is. */
  ghost predicate DeletableAtStart(t0: Tree, server0: Server, A: set<Collection>, d: Id) {
    var par := ServerParents(server0);
    && d in server0 && server0[d].remoteId != ""
    && (forall y :: y in server0 && Under(par, y, d) ==> !MatchedBy(t0, A, y))
    && (forall a :: a in server0 && Under(par, d, a) && a != d ==> MatchedBy(t0, A, a))
  }

  /** x stands at or below such a collection. */
  ghost predicate DroppedAtStart(t0: Tree, server0: Server, A: set<Collection>, x: Id) {
    exists d :: DeletableAtStart(t0, server0, A, d) && Under(ServerParents(server0), x, d)
  }

  /** The server stores c at x, with its data, and below what its parent matches; a collection that
      is late may have stayed where it was. */
  ghost predicate StoredGlobally(t0: Tree, server0: Server, t: Tree, server: Server, c: Collection) {
    && Match(t, c).Some? && MatchParent(t, c).Some? && Match(t, c).value in server
    && var x := Match(t, c).value;
      && ContentOk(server[x], Node(t, x).collection, c)
      && (server[x].parent == MatchParent(t, c).value
          || (Late(t0, c) && x in server0 && server[x].parent == server0[x].parent))
  }

  /** How the server ends. */
  ghost predicate EndsGlobally(t0: Tree, server0: Server, t: Tree, server: Server, A: set<Collection>) {
    && (forall c :: c in A ==> StoredGlobally(t0, server0, t, server, c))
    && (forall x :: x in server && !MatchedBy(t, A, x) ==> x in server0 && server[x] == server0[x])
    && (forall x :: x in server <==> MatchedBy(t, A, x) || (x in server0 && !DroppedAtStart(t0, server0, A, x)))
  }

  lemma MatchAtStart(t0: Tree, t: Tree, A: set<Collection>, x: Id)
    requires !t0.hierarchicalRIDs && !t.hierarchicalRIDs && Outgrown(t0, t, A) && x in t0.localUidMap
    ensures MatchedBy(t, A, x) <==> MatchedBy(t0, A, x)
  {
  }

  lemma OldUnder(t0: Tree, t: Tree, A: set<Collection>, server0: Server, x: Id, y: Id)
    requires ListedTree(t0, server0) && Outgrown(t0, t, A) && TreeOk(t) && x in server0
    ensures Below(t, x, y) <==> Under(ServerParents(server0), x, y)
    ensures Below(t, x, y) ==> y == ROOT_ID || y in server0
  {
    forall z | z in server0
      ensures z in LocalParents(t) && LocalParents(t)[z] == server0[z].parent
      ensures server0[z].parent == ROOT_ID || server0[z].parent in server0
    {
      LocalStep(t0, z);
    }
    UnderRestrict(LocalParents(t), ServerParents(server0), x, y);
    if Under(ServerParents(server0), x, y) {
      ListedRooted(t0, server0);
      UnderDepth(ServerParents(server0), x, y);
    }
  }

  lemma ListedRooted(t0: Tree, server0: Server)
    requires ListedTree(t0, server0)
    ensures LocalParents(t0) == ServerParents(server0) && Rooted(ServerParents(server0))
  {
    forall x | x in server0 ensures x != ROOT_ID && t0.localUidMap[x].collection == Listed(server0, x) {
      LocalStepRoot(t0, server0, x);
    }
    assert LocalParents(t0) == ServerParents(server0);
  }

  lemma LocalStepRoot(t0: Tree, server0: Server, x: Id)
    requires ListedTree(t0, server0) && x in server0
    ensures x != ROOT_ID && t0.localUidMap[x].collection == Listed(server0, x)
  {
  }

  /** Above a new node stands an old processed one, below whatever old node stands above it. */
  lemma {:induction false} OldAboveNew(s: State, A: set<Collection>, t0: Tree, x: Id, d: Id) returns (o: Id)
    requires Syncing(s, A) && !s.tree.hierarchicalRIDs && ClosedListing(false, A) && Outgrown(t0, s.tree, A)
    requires ROOT_ID in t0.localUidMap && d in t0.localUidMap
    requires x in s.tree.localUidMap && x !in t0.localUidMap && Below(s.tree, x, d)
    ensures o in t0.localUidMap && o in s.processed && Below(s.tree, o, d)
    decreases if x in LocalParents(s.tree) then Depth(LocalParents(s.tree), x) else 0
  {
    var t := s.tree;
    assert CreatedFor(t, A, x);
    var c :| c in A && Match(t, c) == Some(x) && MatchParent(t, c) == Some(LocalParent(t, x));
    ParentIsProcessed(s, A, c);
    LocalStep(t, x);
    UnderStep(LocalParents(t), x, d);
    o := LocalParent(t, x);
    if o !in t0.localUidMap {
      o := OldAboveNew(s, A, t0, o, d);
    }
  }

  lemma NewIsProcessed(s: State, A: set<Collection>, t0: Tree, x: Id)
    requires Syncing(s, A) && Outgrown(t0, s.tree, A) && x in s.tree.localUidMap && x !in t0.localUidMap
    ensures x in s.processed && MatchedBy(s.tree, A, x)
  {
    assert CreatedFor(s.tree, A, x);
    var c :| c in A && Match(s.tree, c) == Some(x) && MatchParent(s.tree, c) == Some(LocalParent(s.tree, x));
    assert Settled(s, s.jobs, c);
  }

  /** A sync whose local listing was t0, of a complete listing with global remote ids. */
  ghost predicate Synced(s: State, A: set<Collection>, t0: Tree, server0: Server) {
    && Syncing(s, A) && !s.tree.hierarchicalRIDs && !t0.hierarchicalRIDs && ClosedListing(false, A)
    && Outgrown(t0, s.tree, A) && ListedTree(t0, server0)
  }

  lemma OldMarked(s: State, A: set<Collection>, t0: Tree, server0: Server, x: Id)
    requires Synced(s, A, t0, server0) && x in server0
    ensures x != ROOT_ID && (x in s.processed <==> MatchedBy(t0, A, x))
  {
    LocalStepRoot(t0, server0, x);
    MatchAtStart(t0, s.tree, A, x);
    ProcessedIffMatched(s, A, x);
  }

  /** What could be deleted at the end could be deleted from the beginning. */
  lemma DeletableFromStart(s: State, A: set<Collection>, t0: Tree, server0: Server, d: Id)
    requires Synced(s, A, t0, server0) && Deletable(s.tree, s.processed, d)
    ensures DeletableAtStart(t0, server0, A, d)
  {
    UnderRefl(LocalParents(s.tree), d);
    if d !in t0.localUidMap {
      NewIsProcessed(s, A, t0, d);
    }
    LocalStepRoot(t0, server0, d);
    forall y | y in server0 && Under(ServerParents(server0), y, d) ensures !MatchedBy(t0, A, y) {
      OldUnder(t0, s.tree, A, server0, y, d);
      OldMarked(s, A, t0, server0, y);
    }
    forall a | a in server0 && Under(ServerParents(server0), d, a) && a != d ensures MatchedBy(t0, A, a) {
      OldUnder(t0, s.tree, A, server0, d, a);
      OldMarked(s, A, t0, server0, a);
    }
  }

  lemma DeletableAtEnd(s: State, A: set<Collection>, t0: Tree, server0: Server, d: Id)
    requires Synced(s, A, t0, server0) && DeletableAtStart(t0, server0, A, d)
    ensures Deletable(s.tree, s.processed, d)
  {
    LocalStepRoot(t0, server0, d);
    forall y | y in s.tree.localUidMap && Below(s.tree, y, d) ensures y !in s.processed {
      UnmarkedBelow(s, A, t0, server0, d, y);
    }
    forall a | a in s.tree.localUidMap && Below(s.tree, d, a) && a != d ensures a in s.processed {
      OldUnder(t0, s.tree, A, server0, d, a);
      if a != ROOT_ID {
        OldMarked(s, A, t0, server0, a);
      }
    }
  }

  lemma UnmarkedBelow(s: State, A: set<Collection>, t0: Tree, server0: Server, d: Id, y: Id)
    requires Synced(s, A, t0, server0) && DeletableAtStart(t0, server0, A, d)
    requires y in s.tree.localUidMap && Below(s.tree, y, d)
    ensures y !in s.processed
  {
    LocalStepRoot(t0, server0, d);
    var o := y;
    if y !in t0.localUidMap {
      o := OldAboveNew(s, A, t0, y, d);
    }
    if o == ROOT_ID {
      RootAtTop(LocalParents(s.tree), d);
    }
    OldUnder(t0, s.tree, A, server0, o, d);
    OldMarked(s, A, t0, server0, o);
  }

  lemma DroppedIff(s: State, A: set<Collection>, t0: Tree, server0: Server, x: Id)
    requires Synced(s, A, t0, server0) && x in server0
    ensures DroppedAtStart(t0, server0, A, x) <==> exists d :: Deletable(s.tree, s.processed, d) && Below(s.tree, x, d)
  {
    if d :| DeletableAtStart(t0, server0, A, d) && Under(ServerParents(server0), x, d) {
      DeletableAtEnd(s, A, t0, server0, d);
      OldUnder(t0, s.tree, A, server0, x, d);
    }
    if d :| Deletable(s.tree, s.processed, d) && Below(s.tree, x, d) {
      DeletableFromStart(s, A, t0, server0, d);
      OldUnder(t0, s.tree, A, server0, x, d);
    }
  }

  /** The state in which a full sync has committed. */
  ghost predicate Over(s: State, server: Server, A: set<Collection>, t0: Tree, server0: Server) {
    && Synced(s, A, t0, server0) && OnCourse(s, server, A, t0)
    && s.deliveryDone && s.jobs == multiset{} && s.moves == multiset{}
  }

  lemma ServerAtEnd(s: State, server: Server, A: set<Collection>, t0: Tree, server0: Server, x: Id)
    requires Over(s, server, A, t0, server0)
    ensures x in server <==> MatchedBy(s.tree, A, x) || (x in server0 && !DroppedAtStart(t0, server0, A, x))
    ensures x in server && !MatchedBy(s.tree, A, x) ==> x in server0 && server[x] == server0[x]
  {
    assert x in server <==> x in s.tree.localUidMap && x != ROOT_ID && StillThere(s.tree, s.processed, s.jobs, x);
    MatchedNotRoot(s.tree, A);
    if MatchedBy(s.tree, A, x) {
      ProcessedIffMatched(s, A, x);
      ProcessedStored(s, server, A, t0, x);
    } else {
      UnmatchedAtEnd(s, server, A, t0, server0, x);
    }
  }

  lemma UnmatchedAtEnd(s: State, server: Server, A: set<Collection>, t0: Tree, server0: Server, x: Id)
    requires Over(s, server, A, t0, server0) && !MatchedBy(s.tree, A, x)
    ensures x in server <==> x in server0 && !DroppedAtStart(t0, server0, A, x)
    ensures x in server ==> server[x] == server0[x]
  {
    assert x in server <==> x in s.tree.localUidMap && x != ROOT_ID && StillThere(s.tree, s.processed, s.jobs, x);
    ProcessedIffMatched(s, A, x);
    if x in server0 {
      DroppedIff(s, A, t0, server0, x);
      LocalStepRoot(t0, server0, x);
    } else if x in s.tree.localUidMap && x != ROOT_ID {
      NewIsProcessed(s, A, t0, x);
    }
  }

  lemma ListedAtEnd(s: State, server: Server, A: set<Collection>, t0: Tree, server0: Server, c: Collection)
    requires Over(s, server, A, t0, server0) && c in A
    ensures StoredGlobally(t0, server0, s.tree, server, c)
  {
    var t := s.tree;
    CompleteIsClosed(t, A);
    NothingStuck(s, s.jobs, A);
    ListedParent(s, A, c);
    var x := Match(t, c).value;
    assert Settled(s, s.jobs, c);
    MatchIsNode(t, A, c);
    ProcessedStored(s, server, A, t0, x);
    assert Stored(t, s.jobs, StoredOf(t, server, A), c);
    assert Placed(s, server, t0, c);
    if Late(t0, c) {
      LateStays(s, server, A, t0, server0, c);
    }
  }

  lemma ListedParent(s: State, A: set<Collection>, c: Collection)
    requires Syncing(s, A) && !s.tree.hierarchicalRIDs && ClosedListing(false, A) && c in A
    requires forall d :: d in A ==> Match(s.tree, d).Some?
    ensures MatchParent(s.tree, c).Some?
  {
    if c.Parent().Rid() != "" {
      var rank: map<string, nat> :| RankedListing(A, rank);
      var d :| d in A && d.Rid() == c.Parent().Rid() && rank[d.Rid()] < rank[c.Rid()];
      assert Match(s.tree, d).Some?;
    }
  }

  lemma LateStays(s: State, server: Server, A: set<Collection>, t0: Tree, server0: Server, c: Collection)
    requires Over(s, server, A, t0, server0) && c in A && Late(t0, c)
    requires Match(s.tree, c).Some? && MatchParent(s.tree, c).Some? && Match(s.tree, c).value in server
    ensures var x := Match(s.tree, c).value;
      server[x].parent == MatchParent(s.tree, c).value || (x in server0 && server[x].parent == server0[x].parent)
  {
    var x := Match(s.tree, c).value;
    assert x in t0.localUidMap;
    MatchIsNode(s.tree, A, c);
    LocalStepRoot(t0, server0, x);
    assert server[x].parent == LocalParent(s.tree, x) || MovedTo(s.tree, A, x, server[x].parent);
    if MovedTo(s.tree, A, x, server[x].parent) {
      var d :| d in A && NeedsMove(s.tree, d) && Match(s.tree, d) == Some(x)
        && MatchParent(s.tree, d) == Some(server[x].parent);
      MatchInjective(s.tree, A, c, d);
    }
  }

  lemma EndsAre(s: State, server: Server, A: set<Collection>, t0: Tree, server0: Server)
    requires Over(s, server, A, t0, server0)
    ensures EndsGlobally(t0, server0, s.tree, server, A)
  {
    forall c | c in A ensures StoredGlobally(t0, server0, s.tree, server, c) {
      ListedAtEnd(s, server, A, t0, server0, c);
    }
    forall x
      ensures x in server <==> MatchedBy(s.tree, A, x) || (x in server0 && !DroppedAtStart(t0, server0, A, x))
      ensures x in server && !MatchedBy(s.tree, A, x) ==> x in server0 && server[x] == server0[x]
    {
      ServerAtEnd(s, server, A, t0, server0, x);
    }
  }

  /** Convergence with global remote ids: whatever the interleaving, a full sync of a complete listing
      that commits leaves every listed collection stored with the listed data, a local display
      attribute winning, below the match of its parent - except that one whose parent was not there
      in the beginning may have stayed where it was. Beside these it leaves exactly what did not
      stand at or below a collection that could be deleted in the beginning, and as it was. */
  lemma GlobalConvergence(run: seq<System>, remote: set<Collection>, i: nat) returns (t0: Tree)
    requires Run(run, remote) && i < |run| && FullGlobal(run[i]) && Committed in run[i].client.outcomes
    requires ClosedListing(false, AcceptedOf(remote))
    ensures ListedTree(t0, run[0].server) && Outgrown(t0, run[i].client.tree, AcceptedOf(remote))
    ensures EndsGlobally(t0, run[0].server, run[i].client.tree, run[i].server, AcceptedOf(remote))
  {
    RunInv(run, remote, i);
    CommittedIdle(run[i], remote);
    t0 := RunOnCourse(run, remote, i);
    SeenAll(run[i], remote);
    var s, A := run[i].client, AcceptedOf(remote);
    EndsAre(s, run[i].server, A, t0, run[0].server);
  }

  /** So only listed collections are left exactly when, in the beginning, every unmatched collection
      stood at or below one that could be deleted. */
  lemma NothingElseIff(t0: Tree, server0: Server, t: Tree, server: Server, A: set<Collection>)
    requires EndsGlobally(t0, server0, t, server, A) && Outgrown(t0, t, A) && ListedTree(t0, server0)
    requires !t0.hierarchicalRIDs && !t.hierarchicalRIDs
    ensures (forall x :: x in server ==> MatchedBy(t, A, x)) <==>
      (forall y :: y in server0 && !MatchedBy(t0, A, y) ==> DroppedAtStart(t0, server0, A, y))
  {
    forall y | y in server0 ensures MatchedBy(t, A, y) <==> MatchedBy(t0, A, y) {
      MatchAtStart(t0, t, A, y);
    }
    forall y | y in server0 && !MatchedBy(t0, A, y)
      ensures y in server <==> !DroppedAtStart(t0, server0, A, y)
    {
      assert y in server <==> MatchedBy(t, A, y) || (y in server0 && !DroppedAtStart(t0, server0, A, y));
    }
  }
}
