/** When something outlives the deletion of the collection it belongs below: exactly when a listed
    collection is still to be created there (akonadi/collectionsync.cpp, execute). */
module SyncSurvival {
  import opened Collections
  import opened Trees
  import opened SyncState
  import opened SyncMatching
  import opened SyncLedger
  import opened SyncRun
  import opened SyncSystem
  import opened SyncTheorems
  import opened SyncStrandedRuns
  import opened SyncSteps
  import opened SyncMoves
  import opened SyncRemoval

  ghost predicate NoDeletes(js: multiset<Job>) {
    forall j :: j in js ==> !j.Delete?
  }

  predicate StoredBelow(server: Server, x: Id, a: Id) {
    x in server && server[x].parent == a
  }

  /** a is gone and nothing else will be deleted, while c belongs below a: it is still to be
      created there, or was created meanwhile. */
  ghost predicate Outlives(s: System, remote: set<Collection>, c: Collection, a: Id) {
    var t := s.client.tree;
    && s.client.localListDone && s.client.deliveryDone && NoDeletes(s.client.jobs)
    && c in AcceptedOf(remote) && MatchParent(t, c) == Some(a) && a in t.localUidMap && a !in s.server
    && (Match(t, c).Some? ==> StoredBelow(s.server, Match(t, c).value, a))
  }

  lemma AllSeen(s: System, remote: set<Collection>)
    requires Inv(s, remote) && s.client.deliveryDone
    ensures Seen(s, remote) == AcceptedOf(remote)
  {
    assert remote - s.undelivered == remote;
  }

  lemma PlainOutlives(s: System, s': System, remote: set<Collection>, j: Job, c: Collection, a: Id)
    requires Outlives(s, remote, c, a) && (ModifyFinishes(s, s', j) || DeleteFinishes(s, s', j))
    ensures Outlives(s', remote, c, a)
  {
    FinishedIs(s.client, j);
  }

  /** If c is what a move under way is about, the move leads below the match of its parent. */
  lemma OwnMoveLeads(s: State, A: set<Collection>, m: Move, c: Collection, a: Id)
    requires Syncing(s, A) && MoveRight(s, A, m) && c in A && MatchParent(s.tree, c) == Some(a)
    requires Match(s.tree, c) == Some(m.col.Uid())
    ensures m.dest.Uid() == a
  {
    var d :| d in A && MoveFor(s.tree, d, m);
    MatchIsNode(s.tree, A, d);
    MatchInjective(s.tree, A, c, d);
  }

  lemma MoveOutlives(s: System, s': System, remote: set<Collection>, m: Move, c: Collection, a: Id)
    requires MoveFinishes(s, s', m) && Outlives(s, remote, c, a)
    requires Match(s.client.tree, c) == Some(m.col.Uid()) ==> m.dest.Uid() == a
    ensures Outlives(s', remote, c, a)
  {
    MovedIs(s.client, m);
  }

  lemma MovedOutlives(s: System, s': System, remote: set<Collection>, m: Move, c: Collection, a: Id)
    requires AgreesInv(s, remote) && MoveFinishes(s, s', m) && Outlives(s, remote, c, a)
    ensures Outlives(s', remote, c, a)
  {
    AllSeen(s, remote);
    assert MoveRight(s.client, AcceptedOf(remote), m);
    if Match(s.client.tree, c) == Some(m.col.Uid()) {
      OwnMoveLeads(s.client, AcceptedOf(remote), m, c, a);
    }
    MoveOutlives(s, s', remote, m, c, a);
  }

  lemma CreateOutlives(s: System, s': System, remote: set<Collection>, j: Job, x: Id, c: Collection, a: Id)
    requires Inv(s, remote) && Outlives(s, remote, c, a) && CreateFinishes(s, s', j, x)
    ensures Outlives(s', remote, c, a)
  {
    AllSeen(s, remote);
    CreatedStays(s.client, AcceptedOf(remote), j, x, c, a);
    CreateDeletesNothingMore(s.client, AcceptedOf(remote), j, x);
  }

  /** The parent of c stays matched, and c gets a node if it is the one created. */
  lemma CreatedStays(s: State, A: set<Collection>, j: Job, x: Id, c: Collection, a: Id)
    requires Syncing(s, A) && j in s.jobs && j.Create? && x != ROOT_ID && x !in s.tree.localUidMap
    requires c in A && MatchParent(s.tree, c) == Some(a)
    ensures var s' := CreateDone(s, j, x);
      && SameControl(s', CreateRecorded(s, j, x)) && MatchParent(s'.tree, c) == Some(a)
      && a in s.tree.localUidMap && a in s'.tree.localUidMap
      && Match(s'.tree, c) == (if j.remote == c then Some(x) else Match(s.tree, c))
      && (j.remote == c ==> j.col.Parent().Uid() == a)
  {
    CreateDoneIs(s, A, j, x);
    RecordedGrows(s, A, j, x);
    assert Reached(s.tree, c);
    assert CreatesRightly(s.tree, s.jobs, A, j);
    MatchIsNode(s.tree, A, c);
  }

  lemma CreateDeletesNothingMore(c: State, A: set<Collection>, j: Job, x: Id)
    requires Syncing(c, A) && j in c.jobs && j.Create? && x != ROOT_ID && x !in c.tree.localUidMap
    ensures NoDeletes(c.jobs) ==> NoDeletes(CreateDone(c, j, x).jobs)
  {
    forall k: Job | k in CreateDone(c, j, x).jobs && k.Delete? ensures k in c.jobs {
      CreateDeletesNothing(c, A, j, x, k.col);
    }
  }

  lemma JobOutlives(s: System, s': System, remote: set<Collection>, c: Collection, a: Id)
    requires AgreesInv(s, remote) && Outlives(s, remote, c, a) && JobStep(s, s')
    ensures Outlives(s', remote, c, a)
  {
    var r := ResultOf(s, s');
    match r
    case PlainResult(j) => PlainOutlives(s, s', remote, j, c, a);
    case MoveResult(m) => MovedOutlives(s, s', remote, m, c, a);
    case CreateResult(j, x) => CreateOutlives(s, s', remote, j, x, c, a);
  }

  // ------------------------------------------------------------------ runs that leave something behind

  lemma JobExtends(run: seq<System>, remote: set<Collection>, s': System)
    requires Run(run, remote) && JobStep(Last(run), s')
    ensures Run(run + [s'], remote) && Last(run + [s']) == s'
    ensures 0 <= WorkLeft(s', remote) < WorkLeft(Last(run), remote)
  {
    Extended(run[0], run, Last(run), s');
    RunInv(run, remote, |run| - 1);
    JobsUseUpWork(Last(run), s', remote);
  }

  lemma JobsGoOn(run: seq<System>, remote: set<Collection>) returns (s': System)
    requires Run(run, remote) && Last(run).client.localListDone && Last(run).client.deliveryDone
    requires Committed !in Last(run).client.outcomes
    ensures JobStep(Last(run), s')
  {
    var s := Last(run);
    OutcomeIsCommit(run, remote, |run| - 1);
    if j :| j in s.client.jobs {
      JobPossible(s, j);
      s' :| JobStep(s, s');
    } else {
      assert s.client.jobs == multiset{};
      var m :| m in s.client.moves;
      s' := s.(client := MoveDone(s.client, m), server := Reparent(s.server, m.col.Uid(), m.dest.Uid()));
      assert MoveFinishes(s, s', m);
    }
  }

  /** Once a is gone, the jobs that are left may finish in any order. */
  lemma {:induction false} OutlivingRun(run: seq<System>, remote: set<Collection>, c: Collection, a: Id)
    returns (run': seq<System>)
    requires Run(run, remote) && Outlives(Last(run), remote, c, a)
    ensures Run(run', remote) && run <= run' && Outlives(Last(run'), remote, c, a)
    ensures Committed in Last(run').client.outcomes
    decreases WorkLeft(Last(run), remote)
  {
    var s := Last(run);
    if Committed in s.client.outcomes {
      run' := run;
    } else {
      var s' := JobsGoOn(run, remote);
      RunAgrees(run, remote, |run| - 1);
      JobOutlives(s, s', remote, c, a);
      JobExtends(run, remote, s');
      run' := OutlivingRun(run + [s'], remote, c, a);
    }
  }

  /** c is still to be created below a. */
  ghost predicate ToBeCreated(t: Tree, c: Collection, a: Id) {
    Match(t, c).None? && MatchParent(t, c) == Some(a)
  }

  /** Something is to be created below a, and a is gone or still to be deleted. */
  ghost predicate Doomed(s: System, remote: set<Collection>, col: Collection, c: Collection, a: Id) {
    && s.client.localListDone
    && c in AcceptedOf(remote) && ToBeCreated(s.client.tree, c, a) && a in s.client.tree.localUidMap
    && col.Uid() == a && (a in s.server ==> Delete(col) in s.client.jobs)
  }

  lemma DeliveryDooms(s: System, s': System, remote: set<Collection>, col: Collection, c: Collection, a: Id)
    requires Inv(s, remote) && DeliveryReports(s, s', []) && Doomed(s, remote, col, c, a)
    ensures Doomed(s', remote, col, c, a)
  {
    DeliveryKeeps(s, s', remote, [], col);
  }

  lemma DeliveryExtendsRun(run: seq<System>, remote: set<Collection>, s': System, col: Collection, c: Collection,
          a: Id)
    requires Run(run, remote) && DeliveryReports(Last(run), s', []) && Doomed(Last(run), remote, col, c, a)
    ensures Run(run + [s'], remote) && Last(run + [s']) == s' && Doomed(s', remote, col, c, a)
  {
    ReportsAreSteps(Last(run), s', []);
    Extended(run[0], run, Last(run), s');
    RunInv(run, remote, |run| - 1);
    DeliveryDooms(Last(run), s', remote, col, c, a);
  }

  lemma AllInOneChunk(s: System, remote: set<Collection>) returns (s': System)
    requires Inv(s, remote) && s.client.localListDone && !s.client.deliveryDone
    ensures DeliveryReports(s, s', []) && s'.undelivered == {}
    ensures s'.client.deliveryDone == !s.client.streaming && s'.client.streaming == s.client.streaming
  {
    var cols := Enumerated(s.undelivered);
    assert forall c :: c in cols ==> c in Elements(cols);
    s' := s.(client := SetRemoteCollections(s.client, cols), undelivered := s.undelivered - Elements(cols));
    assert Chunk(s, s', cols);
    ChunkInv(s, s', remote, cols);
    var s2 := ChunkFiles(s.client, cols);
    NothingMore(s.client.removedRemoteCollections);
    FiledPrepares(s, s', remote, cols, s2, []);
    PreparedExecutes(s.client, s2, [], Seen(s', remote));
  }

  lemma EndOfDelivery(s: System, remote: set<Collection>) returns (s': System)
    requires Inv(s, remote) && s.client.localListDone && s.client.streaming && !s.client.deliveryDone
    requires s.undelivered == {}
    ensures DeliveryReports(s, s', []) && s'.client.deliveryDone
  {
    s' := s.(client := RetrievalDone(s.client));
    assert DeliveryEnds(s, s');
    EndPrepares(s, s', remote);
    PreparedExecutes(s.client, s.client.(deliveryDone := true), [], Seen(s', remote));
  }

  /** What is still to be delivered comes first. */
  lemma DeliveredRun(run: seq<System>, remote: set<Collection>, col: Collection, c: Collection, a: Id)
    returns (run': seq<System>)
    requires Run(run, remote) && Doomed(Last(run), remote, col, c, a)
    ensures Run(run', remote) && run <= run' && Doomed(Last(run'), remote, col, c, a)
    ensures Last(run').client.deliveryDone
  {
    if Last(run).client.deliveryDone {
      run' := run;
    } else {
      run' := ChunkedRun(run, remote, col, c, a);
      if !Last(run').client.deliveryDone {
        run' := EndedRun(run', remote, col, c, a);
      }
    }
  }

  lemma ChunkedRun(run: seq<System>, remote: set<Collection>, col: Collection, c: Collection, a: Id)
    returns (run': seq<System>)
    requires Run(run, remote) && Doomed(Last(run), remote, col, c, a) && !Last(run).client.deliveryDone
    ensures Run(run', remote) && run <= run' && Doomed(Last(run'), remote, col, c, a)
    ensures Last(run').undelivered == {} && (Last(run').client.deliveryDone || Last(run').client.streaming)
  {
    RunInv(run, remote, |run| - 1);
    var s' := AllInOneChunk(Last(run), remote);
    DeliveryExtendsRun(run, remote, s', col, c, a);
    run' := run + [s'];
  }

  lemma EndedRun(run: seq<System>, remote: set<Collection>, col: Collection, c: Collection, a: Id)
    returns (run': seq<System>)
    requires Run(run, remote) && Doomed(Last(run), remote, col, c, a)
    requires Last(run).client.streaming && !Last(run).client.deliveryDone && Last(run).undelivered == {}
    ensures Run(run', remote) && run <= run' && Doomed(Last(run'), remote, col, c, a)
    ensures Last(run').client.deliveryDone
  {
    RunInv(run, remote, |run| - 1);
    var s' := EndOfDelivery(Last(run), remote);
    DeliveryExtendsRun(run, remote, s', col, c, a);
    run' := run + [s'];
  }

  lemma DeleteDooms(s: System, s': System, remote: set<Collection>, j: Job, col: Collection, c: Collection, a: Id)
    requires Doomed(s, remote, col, c, a) && DeleteFinishes(s, s', j)
    ensures Doomed(s', remote, col, c, a) && s'.client.deliveryDone == s.client.deliveryDone
  {
    FinishedIs(s.client, j);
    if a in s.server && j == Delete(col) {
      assert a in Addressed(s.server, col);
      UnderRefl(ServerParents(s.server), a);
    }
  }

  lemma DoomedStep(s: System, remote: set<Collection>, j: Job, col: Collection, c: Collection, a: Id)
          returns (s': System)
    requires Doomed(s, remote, col, c, a) && j in s.client.jobs && j.Delete?
    ensures JobStep(s, s') && Doomed(s', remote, col, c, a) && s'.client.deliveryDone == s.client.deliveryDone
  {
    s' := s.(client := JobDone(s.client, j), server := RemoveCollection(s.server, j.col));
    assert DeleteFinishes(s, s', j);
    DeleteDooms(s, s', remote, j, col, c, a);
  }

  /** All deletions come next. */
  lemma {:induction false} DoomedRun(run: seq<System>, remote: set<Collection>, col: Collection, c: Collection, a: Id)
    returns (run': seq<System>)
    requires Run(run, remote) && Doomed(Last(run), remote, col, c, a) && Last(run).client.deliveryDone
    ensures Run(run', remote) && run <= run' && Outlives(Last(run'), remote, c, a)
    decreases WorkLeft(Last(run), remote)
  {
    var s := Last(run);
    if j :| j in s.client.jobs && j.Delete? {
      var s' := DoomedStep(s, remote, j, col, c, a);
      JobExtends(run, remote, s');
      run' := DoomedRun(run + [s'], remote, col, c, a);
    } else {
      run' := run;
    }
  }

  // ------------------------------------------------------------------ the theorem

  ghost predicate SomethingBelow(server: Server, a: Id) {
    exists x :: x in server && Under(ServerParents(server), x, a)
  }

  /** The run can go on to a commit after which a, or something below it, is on the server. */
  ghost predicate CanSurvive(run: seq<System>, a: Id) {
    exists run' :: Steps(run') && run <= run' && Committed in Last(run').client.outcomes
      && SomethingBelow(Last(run').server, a)
  }

  lemma OutlivedIsBelow(run: seq<System>, remote: set<Collection>, c: Collection, a: Id)
    requires Run(run, remote) && Outlives(Last(run), remote, c, a) && Committed in Last(run).client.outcomes
    ensures SomethingBelow(Last(run).server, a)
  {
    var s := Last(run);
    RunInv(run, remote, |run| - 1);
    AllSeen(s, remote);
    CommittedIdle(s, remote);
    assert Settled(s.client, s.client.jobs, c);
    var x := Match(s.client.tree, c).value;
    UnderRefl(ServerParents(s.server), a);
    UnderStep(ServerParents(s.server), x, a);
  }

  /** In either mode: if a listed collection is still to be created below the one that is being
      deleted, some way to go on leaves it on the server. */
  lemma CreatedBelowRemoved(run: seq<System>, remote: set<Collection>, col: Collection, c: Collection, a: Id)
    requires Run(run, remote) && Doomed(Last(run), remote, col, c, a)
    ensures CanSurvive(run, a)
  {
    var run0 := DeliveredRun(run, remote, col, c, a);
    var run1 := DoomedRun(run0, remote, col, c, a);
    var run2 := OutlivingRun(run1, remote, c, a);
    OutlivedIsBelow(run2, remote, c, a);
  }

  lemma RestIsRun(run: seq<System>, run': seq<System>, remote: set<Collection>)
    requires Run(run, remote) && Steps(run') && run <= run'
    ensures Run(run', remote) && run'[|run| - 1] == Last(run)
  {
    assert run'[0] == run[0];
  }

  lemma NothingToCreate(run: seq<System>, remote: set<Collection>, a: Id)
    requires Run(run, remote) && Last(run).client.tree.hierarchicalRIDs && Last(run).client.localListDone
    requires forall c :: c in AcceptedOf(remote) ==> !ToBeCreated(Last(run).client.tree, c, a)
    ensures LeftAlone(Last(run).client.tree, AcceptedOf(remote), a)
  {
    RunInv(run, remote, |run| - 1);
    var t := Last(run).client.tree;
    forall c | c in AcceptedOf(remote) && MatchParent(t, c) == Some(a)
      ensures Match(t, c).Some? && LocalParent(t, Match(t, c).value) == a
    {
      assert !ToBeCreated(t, c, a);
      MatchPlace(t, c);
    }
  }

  /** With hierarchical remote ids: some way to go on leaves something at or below a collection that
      is being deleted if and only if a listed collection is still to be created below it. */
  lemma SurvivesIff(run: seq<System>, remote: set<Collection>, col: Collection, a: Id)
    requires Run(run, remote) && Last(run).client.tree.hierarchicalRIDs && Last(run).client.localListDone
    requires Delete(col) in Last(run).client.jobs && col.Uid() == a && a in Last(run).server
    requires a in Last(run).client.tree.localUidMap && a != ROOT_ID
    ensures CanSurvive(run, a) <==>
      exists c :: c in AcceptedOf(remote) && ToBeCreated(Last(run).client.tree, c, a)
  {
    var s := Last(run);
    var t := s.client.tree;
    if c :| c in AcceptedOf(remote) && ToBeCreated(t, c, a) {
      CreatedBelowRemoved(run, remote, col, c, a);
    } else {
      NothingToCreate(run, remote, a);
      if CanSurvive(run, a) {
        var run' :| Steps(run') && run <= run' && Committed in Last(run').client.outcomes
          && SomethingBelow(Last(run').server, a);
        RestIsRun(run, run', remote);
        RemovedIsGone(run', remote, |run| - 1, |run'| - 1, col, a);
        assert false;
      }
    }
  }
}
