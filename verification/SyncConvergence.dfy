/** With hierarchical remote ids and full listings, every run that commits leaves the server
    with exactly the remote tree. */
module SyncConvergence {
  import opened Collections
  import opened Trees
  import opened SyncState
  import opened SyncListing
  import opened SyncMatching
  import opened SyncGrowth
  import opened SyncLedger
  import opened SyncRun
  import opened SyncContent
  import opened SyncDeletion
  import opened SyncSystem
  import opened SyncSteps

  // ------------------------------------------------------------------ client against server

  /** Everything on the server is a local node, in the same place and, unless that has none, with
      the same remote id. */
  ghost predicate Mirrors(t: Tree, server: Server) {
    forall x {:trigger x in server} :: x in server ==>
      && x in t.localUidMap && x != ROOT_ID
      && server[x].parent == t.localUidMap[x].collection.Parent().Uid()
      && (t.localUidMap[x].collection.Rid() != "" ==> server[x].remoteId == t.localUidMap[x].collection.Rid())
      && (server[x].parent == ROOT_ID || server[x].parent in server)
  }

  ghost predicate Alive(processed: set<Id>, server: Server) {
    forall x :: x in processed && x != ROOT_ID ==> x in server
  }

  /** The data of a local collection as the server would store it. */
  function AsListed(t: Tree, x: Id): ServerNode {
    var c := Node(t, x).collection;
    ServerNode(c.Parent().Uid(), c.Rid(), c.Name(), c.Display())
  }

  /** What no accepted collection matches is stored as it was listed. */
  ghost predicate Untouched(t: Tree, server: Server, A: set<Collection>) {
    forall x {:trigger MatchedBy(t, A, x)} :: x in server && !MatchedBy(t, A, x) ==> server[x] == AsListed(t, x)
  }

  /** An unmatched collection without remote id below a processed one: the search for what to
      delete stops there. */
  ghost predicate Lost(t: Tree, processed: set<Id>, y: Id) {
    && y in t.localUidMap && y != ROOT_ID && y !in processed
    && Node(t, y).collection.Rid() == "" && Node(t, y).collection.Parent().Uid() in processed
  }

  /** So neither it nor anything below it is deleted. */
  ghost predicate Spared(t: Tree, processed: set<Id>, x: Id) {
    exists y :: Lost(t, processed, y) && Below(t, x, y)
  }

  /** A delete job in flight has a living target with nothing processed at or below it. */
  ghost predicate DeleteTarget(t: Tree, processed: set<Id>, jobs: multiset<Job>, server: Server, j: Job) {
    j.Delete? ==>
      && jobs[j] == 1
      && j.col.Uid() in t.localUidMap && j.col.Uid() in server
      && j.col == t.localUidMap[j.col.Uid()].collection && j.col.Rid() != ""
      && (forall y :: y in processed ==> !Below(t, y, j.col.Uid()))
      && (forall b :: b in t.localUidMap && Below(t, j.col.Uid(), b) && b != j.col.Uid() ==> b in processed)
  }

  ghost predicate Doomed(t: Tree, jobs: multiset<Job>, x: Id) {
    exists j :: j in jobs && j.Delete? && Below(t, x, j.col.Uid())
  }

  /** Why a collection is still on the server. */
  ghost predicate Explained(t: Tree, processed: set<Id>, jobs: multiset<Job>, x: Id) {
    x in processed || Doomed(t, jobs, x) || Spared(t, processed, x)
  }

  /** Once deletions are out: what is not processed is about to go or spared, what is spared is
      there, and targets are not nested. */
  ghost predicate Deleting(t: Tree, processed: set<Id>, jobs: multiset<Job>, server: Server) {
    && (forall j {:trigger DeleteTarget(t, processed, jobs, server, j)} :: j in jobs ==>
        DeleteTarget(t, processed, jobs, server, j))
    && (forall x {:trigger Explained(t, processed, jobs, x)} :: x in server ==> Explained(t, processed, jobs, x))
    && (forall x {:trigger Spared(t, processed, x)} :: x in t.localUidMap && Spared(t, processed, x) ==> x in server)
    && (forall j, k :: j in jobs && k in jobs && j.Delete? && k.Delete? && j != k ==>
        !Below(t, j.col.Uid(), k.col.Uid()))
  }

  /** Before: no delete job, and the server holds what the local tree holds. */
  ghost predicate Undeleted(t: Tree, jobs: multiset<Job>, server: Server) {
    && (forall j :: j in jobs ==> !j.Delete?)
    && server.Keys == t.localUidMap.Keys - {ROOT_ID}
  }

  ghost predicate ContentOk(n: ServerNode, local: Collection, c: Collection) {
    && n.remoteId == c.Rid() && n.name == c.Name()
    && n.display == if local.Display().Some? then local.Display() else c.Display()
  }

  ghost predicate IsStored(t: Tree, server: Server, c: Collection) {
    && Match(t, c).Some? && Match(t, c).value in server
    && ContentOk(server[Match(t, c).value], Node(t, Match(t, c).value).collection, c)
  }

  ghost function StoredOf(t: Tree, server: Server, R: set<Collection>): set<Collection> {
    set c | c in R && IsStored(t, server, c)
  }

  ghost predicate Converging(s: State, server: Server, A: set<Collection>) {
    && s.moves == multiset{} && s.removedRemoteCollections == []
    && Mirrors(s.tree, server) && Untouched(s.tree, server, A) && Alive(s.processed, server)
    && (if s.deliveryDone then Deleting(s.tree, s.processed, s.jobs, server) else Undeleted(s.tree, s.jobs, server))
    && ContentLedger(s.tree, s.jobs, A, StoredOf(s.tree, server, A), A)
  }

  // ------------------------------------------------------------------ processed nodes

  lemma LocalStep(t: Tree, x: Id)
    requires TreeOk(t) && x in t.localUidMap && x != ROOT_ID
    ensures x in LocalParents(t) && LocalParents(t)[x] == t.localUidMap[x].collection.Parent().Uid()
    ensures LocalParents(t)[x] in t.localUidMap
    ensures Depth(LocalParents(t), x) == Depth(LocalParents(t), LocalParents(t)[x]) + 1
  {
    DepthStep(LocalParents(t), x);
  }

  /** With a complete listing, whatever matches the parent of a listed collection is processed. */
  lemma MatchParentProcessed(s: State, A: set<Collection>, c: Collection)
    requires Syncing(s, A) && s.tree.hierarchicalRIDs && ClosedListing(true, A)
    requires c in A && MatchParent(s.tree, c).Some?
    ensures MatchParent(s.tree, c).value in s.processed
  {
    if !c.Parent().IsRoot() {
      var d :| d in A && PathOf(d) == PathOf(c.Parent());
      ListedInChains(A, c);
      ListedInChains(A, d);
      assert AgreeAt(s.tree, d, c.parent);
      assert Settled(s, s.jobs, d);
    }
  }

  /** So the parent of a processed node is processed. */
  lemma ParentProcessed(s: State, A: set<Collection>, x: Id)
    requires Syncing(s, A) && s.tree.hierarchicalRIDs && ClosedListing(true, A)
    requires x in s.processed && x != ROOT_ID
    ensures x in s.tree.localUidMap && s.tree.localUidMap[x].collection.Parent().Uid() in s.processed
  {
    var t := s.tree;
    assert MatchedBy(t, A, x);
    var c :| c in A && Match(t, c) == Some(x);
    MatchIsNode(t, A, c);
    MatchPlace(t, c);
    MatchParentProcessed(s, A, c);
  }

  lemma {:induction false} AncestorProcessed(s: State, A: set<Collection>, y: Id, a: Id)
    requires Syncing(s, A) && s.tree.hierarchicalRIDs && ClosedListing(true, A)
    requires y in s.processed && Below(s.tree, y, a)
    ensures a in s.processed
    decreases if y in LocalParents(s.tree) then Depth(LocalParents(s.tree), y) else 0
  {
    if y != a {
      if y == ROOT_ID {
        RootAtTop(LocalParents(s.tree), a);
      } else {
        ParentProcessed(s, A, y);
        LocalStep(s.tree, y);
        UnderStep(LocalParents(s.tree), y, a);
        AncestorProcessed(s, A, LocalParents(s.tree)[y], a);
      }
    }
  }

  /** Every unprocessed node has a topmost unprocessed ancestor. */
  lemma {:induction false} TopUnprocessed(s: State, A: set<Collection>, x: Id) returns (a: Id)
    requires Syncing(s, A) && x in s.tree.localUidMap && x !in s.processed
    ensures a in s.tree.localUidMap && a !in s.processed && Below(s.tree, x, a) && a != ROOT_ID
    ensures s.tree.localUidMap[a].collection.Parent().Uid() in s.processed
    decreases if x in LocalParents(s.tree) then Depth(LocalParents(s.tree), x) else 0
  {
    LocalStep(s.tree, x);
    var p := LocalParents(s.tree)[x];
    if p in s.processed {
      a := x;
      UnderRefl(LocalParents(s.tree), x);
    } else {
      a := TopUnprocessed(s, A, p);
      UnderStep(LocalParents(s.tree), x, a);
    }
  }

  lemma TopIsDeletable(s: State, A: set<Collection>, a: Id)
    requires Syncing(s, A) && s.tree.hierarchicalRIDs && ClosedListing(true, A)
    requires a in s.tree.localUidMap && a !in s.processed && a != ROOT_ID
    requires s.tree.localUidMap[a].collection.Parent().Uid() in s.processed
    ensures s.tree.localUidMap[a].collection.Rid() != "" ==> Deletable(s.tree, s.processed, a)
  {
    forall y | y in s.tree.localUidMap && Below(s.tree, y, a) ensures y !in s.processed {
      if y in s.processed { AncestorProcessed(s, A, y, a); }
    }
    forall b | b in s.tree.localUidMap && Below(s.tree, a, b) && b != a ensures b in s.processed {
      LocalStep(s.tree, a);
      UnderStep(LocalParents(s.tree), a, b);
      AncestorProcessed(s, A, LocalParents(s.tree)[a], b);
    }
  }

  // ------------------------------------------------------------------ deletion starts

  lemma IssuedDelete(t: Tree, processed: set<Id>, j: Job)
    requires NodesOk(t.localUidMap) && j in DeleteJobs(DeletableCollections(t, processed))
    ensures j.Delete? && j.col.Uid() in t.localUidMap && Deletable(t, processed, j.col.Uid())
    ensures j.col == t.localUidMap[j.col.Uid()].collection
  {
    var c :| c in DeletableCollections(t, processed) && j == Delete(c);
    var x :| x in t.localUidMap && Deletable(t, processed, x) && Node(t, x).collection == c;
  }

  /** The root is not spared. */
  lemma SparedIsNode(t: Tree, processed: set<Id>, x: Id)
    requires Spared(t, processed, x)
    ensures x != ROOT_ID
  {
    var y :| Lost(t, processed, y) && Below(t, x, y);
    if x == ROOT_ID {
      RootAtTop(LocalParents(t), y);
    }
  }

  lemma DeletionStarts(s: State, A: set<Collection>, server: Server, jobs': multiset<Job>)
    requires Syncing(s, A) && s.tree.hierarchicalRIDs && ClosedListing(true, A)
    requires Undeleted(s.tree, s.jobs, server)
    requires jobs' == s.jobs + multiset(DeleteJobs(DeletableCollections(s.tree, s.processed)))
    ensures Deleting(s.tree, s.processed, jobs', server)
  {
    var t := s.tree;
    var ds := DeleteJobs(DeletableCollections(t, s.processed));
    forall j | j in jobs' && j.Delete? ensures j in ds && jobs'[j] == 1 {
      assert s.jobs[j] == 0;
    }
    forall j | j in jobs' ensures DeleteTarget(t, s.processed, jobs', server, j) {
      if j.Delete? {
        IssuedDelete(t, s.processed, j);
        ProcessedAreNodes(s, A);
      }
    }
    forall x | x in server ensures Explained(t, s.processed, jobs', x) {
      if x !in s.processed {
        var a := TopUnprocessed(s, A, x);
        TopIsDeletable(s, A, a);
        var c := Node(t, a).collection;
        if c.Rid() == "" {
          assert Lost(t, s.processed, a);
        } else {
          assert c in DeletableCollections(t, s.processed);
          assert Delete(c) in ds;
          assert Delete(c) in jobs';
        }
      }
    }
    forall x | x in t.localUidMap && Spared(t, s.processed, x) ensures x in server {
      SparedIsNode(t, s.processed, x);
    }
    forall j, k | j in jobs' && k in jobs' && j.Delete? && k.Delete? && j != k
      ensures !Below(t, j.col.Uid(), k.col.Uid())
    {
      IssuedDelete(t, s.processed, j);
      IssuedDelete(t, s.processed, k);
      if Below(t, j.col.Uid(), k.col.Uid()) {
        DeletableSafe(t, s.processed, k.col.Uid(), j.col.Uid());
      }
    }
  }

  lemma ProcessedAreNodes(s: State, A: set<Collection>)
    requires Syncing(s, A)
    ensures forall x :: x in s.processed ==> x in s.tree.localUidMap
  {
    forall x | x in s.processed ensures x in s.tree.localUidMap {
      if x != ROOT_ID {
        assert MatchedBy(s.tree, A, x);
        var c :| c in A && Match(s.tree, c) == Some(x);
        MatchIsNode(s.tree, A, c);
      }
    }
  }

  // ------------------------------------------------------------------ executing

  /** What executing does when nothing incremental is going on. */
  lemma ExecuteIs(s: State)
    requires s.localListDone && !s.incremental && s.removedRemoteCollections == []
    requires SameControl(ProcessPendingRemoteNodes(s, ROOT_ID), s)
    ensures var s1 := ProcessPendingRemoteNodes(s, ROOT_ID); var s' := Execute(s);
      && s'.tree == s1.tree && s'.processed == s1.processed && s'.moves == s1.moves
      && s'.removedRemoteCollections == [] && s'.deliveryDone == s1.deliveryDone
      && s'.jobs == if s1.deliveryDone then s1.jobs
          + multiset(DeleteJobs(DeletableCollections(s1.tree, s1.processed))) else s1.jobs
  {
    var s1 := ProcessPendingRemoteNodes(s, ROOT_ID);
    DeleteUnprocessedIs(s1);
    DeleteRemovedIs(if s1.deliveryDone then DeleteUnprocessedLocalNodes(s1) else s1);
  }

  /** The pass over the root, seen from the server. */
  lemma PassConverges(s: State, server: Server, A: set<Collection>)
    requires Opened(s, A, ROOT_ID) && Undeleted(s.tree, s.jobs, server)
    requires ContentLedger(s.tree, s.jobs, A - Elements(Waiting(s, ROOT_ID)), StoredOf(s.tree, server, A), A)
    ensures var s1 := ProcessPendingRemoteNodes(s, ROOT_ID);
      && ContentLedger(s.tree, s1.jobs, A, StoredOf(s.tree, server, A), A)
      && Undeleted(s.tree, s1.jobs, server)
  {
    var B := A - Elements(Waiting(s, ROOT_ID));
    var s1 := ProcessPendingRemoteNodes(s, ROOT_ID);
    assert B + Elements(Waiting(s, ROOT_ID)) == A;
    PassOk(s, A, ROOT_ID);
    PassContent(s, B, StoredOf(s.tree, server, A), A, ROOT_ID);
    assert forall j: Job :: j.Delete? ==> s1.jobs[j] == s.jobs[j];
  }

  lemma ExecuteConverges(s: State, server: Server, A: set<Collection>)
    requires Opened(s, A, ROOT_ID)
    requires s.tree.hierarchicalRIDs && !s.incremental && s.moves == multiset{} && s.removedRemoteCollections == []
    requires s.deliveryDone ==> ClosedListing(true, A)
    requires Mirrors(s.tree, server) && Untouched(s.tree, server, A) && Undeleted(s.tree, s.jobs, server)
    requires ContentLedger(s.tree, s.jobs, A - Elements(Waiting(s, ROOT_ID)), StoredOf(s.tree, server, A), A)
    ensures Converging(Execute(s), server, A)
  {
    PassOk(s, A, ROOT_ID);
    PassConverges(s, server, A);
    ExecuteIs(s);
    PassedConverges(ProcessPendingRemoteNodes(s, ROOT_ID), Execute(s), server, A);
  }

  /** After the pass, the deletions go out if delivery is done. */
  lemma PassedConverges(s1: State, s': State, server: Server, A: set<Collection>)
    requires Syncing(s1, A) && s1.tree.hierarchicalRIDs
    requires s1.deliveryDone ==> ClosedListing(true, A)
    requires Mirrors(s1.tree, server) && Untouched(s1.tree, server, A) && Undeleted(s1.tree, s1.jobs, server)
    requires ContentLedger(s1.tree, s1.jobs, A, StoredOf(s1.tree, server, A), A)
    requires s'.tree == s1.tree && s'.processed == s1.processed && s'.moves == multiset{}
    requires s'.removedRemoteCollections == [] && s'.deliveryDone == s1.deliveryDone
    requires s'.jobs == if s1.deliveryDone then s1.jobs
        + multiset(DeleteJobs(DeletableCollections(s1.tree, s1.processed))) else s1.jobs
    ensures Converging(s', server, A)
  {
    ProcessedAreNodes(s1, A);
    if s1.deliveryDone {
      DeletionStarts(s1, A, server, s'.jobs);
    }
    ContentMoreJobs(s1.tree, s1.jobs, s'.jobs, A, StoredOf(s1.tree, server, A), A);
  }

  // ------------------------------------------------------------------ modify jobs

  /** A matched node carries the remote id of what it matches, or none. */
  lemma MatchRid(t: Tree, R: set<Collection>, c: Collection)
    requires TreeOk(t) && t.hierarchicalRIDs && GoodListing(true, R) && c in R && Match(t, c).Some?
    ensures Match(t, c).value in t.localUidMap && Match(t, c).value != ROOT_ID
    ensures var local := t.localUidMap[Match(t, c).value].collection;
      local.Uid() == Match(t, c).value && (local.Rid() != "" ==> local.Rid() == c.Rid())
  {
    MatchPlace(t, c);
    MatchStep(t, c);
    MatchPlace(t, c.parent);
    MatchBelowIs(t, Match(t, c.parent).value, c);
  }

  lemma WriteIs(t: Tree, R: set<Collection>, server: Server, j: Job, c: Collection)
    requires TreeOk(t) && t.hierarchicalRIDs && GoodListing(true, R) && c in R && Match(t, c).Some?
    requires j == ModifyJob(Node(t, Match(t, c).value).collection, c)
    requires Match(t, c).value in server && Mirrors(t, server) && Untouched(t, server, R)
    ensures var x := Match(t, c).value; var server' := Write(server, j.col);
      && j.col.Uid() == x && Mirrors(t, server') && Untouched(t, server', R) && server'.Keys == server.Keys
      && (forall y :: y in server && y != x ==> server'[y] == server[y])
      && ContentOk(server'[x], Node(t, x).collection, c)
  {
    MatchRid(t, R, c);
    assert MatchedBy(t, R, Match(t, c).value);
  }

  lemma WriteContent(t: Tree, jobs: multiset<Job>, A: set<Collection>, server: Server, j: Job, c: Collection)
    requires TreeOk(t) && t.hierarchicalRIDs && Fits(t, A) && c in A && Match(t, c).Some?
    requires j == ModifyJob(Node(t, Match(t, c).value).collection, c) && j in jobs
    requires Match(t, c).value in server && Mirrors(t, server) && Untouched(t, server, A)
    requires ContentLedger(t, jobs, A, StoredOf(t, server, A), A)
    ensures ContentLedger(t, jobs - multiset{j}, A, StoredOf(t, Write(server, j.col), A), A)
  {
    var server' := Write(server, j.col);
    var jobs' := jobs - multiset{j};
    WriteIs(t, A, server, j, c);
    forall k | k in jobs' ensures ModifyRight(t, A, k) {
      assert k in jobs;
      assert ModifyRight(t, A, k);
    }
    forall d | d in A ensures Stored(t, jobs', StoredOf(t, server', A), d) {
      assert Stored(t, jobs, StoredOf(t, server, A), d);
      if Match(t, d).Some? {
        MatchRid(t, A, d);
        if Match(t, d) == Match(t, c) {
          MatchInjective(t, A, c, d);
          assert IsStored(t, server', d);
        } else if ModifyJob(Node(t, Match(t, d).value).collection, d) in jobs {
          assert ModifyJob(Node(t, Match(t, d).value).collection, d) != j;
        } else {
          assert IsStored(t, server, d);
          assert IsStored(t, server', d);
        }
      }
    }
  }

  lemma DeletingLess(t: Tree, processed: set<Id>, jobs: multiset<Job>, server: Server, server': Server, j: Job)
    requires Deleting(t, processed, jobs, server) && !j.Delete? && server'.Keys == server.Keys
    ensures Deleting(t, processed, jobs - multiset{j}, server')
  {
    var jobs' := jobs - multiset{j};
    forall k | k in jobs' ensures DeleteTarget(t, processed, jobs', server', k) {
      assert k in jobs;
      assert DeleteTarget(t, processed, jobs, server, k);
    }
    forall x | x in server' ensures Explained(t, processed, jobs', x) {
      assert Explained(t, processed, jobs, x);
      if Doomed(t, jobs, x) {
        var k :| k in jobs && k.Delete? && Below(t, x, k.col.Uid());
        assert k in jobs';
      }
    }
  }

  /** What is matched and settled is alive. */
  lemma MatchedAlive(s: State, server: Server, A: set<Collection>, c: Collection)
    requires Syncing(s, A) && Alive(s.processed, server)
    requires c in A && Match(s.tree, c).Some?
    ensures Match(s.tree, c).value in server
  {
    assert Settled(s, s.jobs, c);
    MatchIsNode(s.tree, A, c);
  }

  lemma ModifyConverges(s: State, server: Server, A: set<Collection>, j: Job)
    requires Syncing(s, A) && s.tree.hierarchicalRIDs
    requires Converging(s, server, A) && j in s.jobs && j.Modify?
    ensures Converging(JobDone(s, j), Write(server, j.col), A)
    ensures j.col.Uid() in server
  {
    ModifyWritten(s, server, A, j);
    SameConverging(Less(s, j), JobDone(s, j), Write(server, j.col), A);
  }

  function Less(s: State, j: Job): State {
    s.(jobs := s.jobs - multiset{j})
  }

  lemma SameConverging(s: State, s': State, server: Server, A: set<Collection>)
    requires Converging(s, server, A)
    requires s'.tree == s.tree && s'.processed == s.processed && s'.jobs == s.jobs && s'.moves == s.moves
    requires s'.removedRemoteCollections == s.removedRemoteCollections && s'.deliveryDone == s.deliveryDone
    ensures Converging(s', server, A)
  {
  }

  lemma ModifyWritten(s: State, server: Server, A: set<Collection>, j: Job)
    requires Syncing(s, A) && s.tree.hierarchicalRIDs
    requires Converging(s, server, A) && j in s.jobs && j.Modify?
    ensures Converging(Less(s, j), Write(server, j.col), A)
    ensures j.col.Uid() in server
  {
    assert ModifyRight(s.tree, A, j);
    var c :| c in A && Match(s.tree, c).Some? && j == ModifyJob(Node(s.tree, Match(s.tree, c).value).collection, c);
    MatchedAlive(s, server, A, c);
    WriteIs(s.tree, A, server, j, c);
    WriteContent(s.tree, s.jobs, A, server, j, c);
    if s.deliveryDone {
      DeletingLess(s.tree, s.processed, s.jobs, server, Write(server, j.col), j);
    }
  }

  // ------------------------------------------------------------------ delete jobs

  lemma ServerBelow(t: Tree, server: Server, x: Id, a: Id)
    requires NodesOk(t.localUidMap) && Mirrors(t, server) && x in server
    ensures Under(ServerParents(server), x, a) <==> Below(t, x, a)
  {
    forall y | y in ServerParents(server) ensures y in LocalParents(t) && LocalParents(t)[y] == server[y].parent {
      assert y in server;
    }
    UnderRestrict(LocalParents(t), ServerParents(server), x, a);
  }

  lemma RemoveIs(t: Tree, server: Server, a: Id)
    requires NodesOk(t.localUidMap) && Mirrors(t, server) && a != ROOT_ID
    ensures var server' := Remove(server, a);
      && (forall x :: x in server' <==> x in server && !Below(t, x, a))
      && (forall x :: x in server' ==> server'[x] == server[x])
      && Mirrors(t, server')
  {
    forall x | x in server ensures Under(ServerParents(server), x, a) <==> Below(t, x, a) {
      ServerBelow(t, server, x, a);
    }
    var server' := Remove(server, a);
    forall x | x in server' ensures server'[x].parent == ROOT_ID || server'[x].parent in server' {
      var p := server[x].parent;
      assert x in LocalParents(t) && LocalParents(t)[x] == p;
      UnderStep(LocalParents(t), x, a);
    }
  }

  /** Nothing spared hangs below a deletion target. */
  lemma SparedStays(t: Tree, processed: set<Id>, jobs: multiset<Job>, server: Server, j: Job, x: Id)
    requires TreeOk(t) && DeleteTarget(t, processed, jobs, server, j) && j.Delete? && Spared(t, processed, x)
    ensures !Below(t, x, j.col.Uid())
  {
    var a := j.col.Uid();
    var y :| Lost(t, processed, y) && Below(t, x, y);
    if Below(t, x, a) {
      UnderLinear(LocalParents(t), x, a, y);
      LocalStep(t, y);
      UnderStep(LocalParents(t), y, a);
      assert Below(t, a, y) && a != y;
    }
  }

  lemma RemoveDeleting(t: Tree, processed: set<Id>, jobs: multiset<Job>, server: Server, j: Job)
    requires TreeOk(t) && Mirrors(t, server) && Deleting(t, processed, jobs, server)
    requires j in jobs && j.Delete?
    ensures Deleting(t, processed, jobs - multiset{j}, Remove(server, j.col.Uid()))
  {
    var a := j.col.Uid();
    var jobs' := jobs - multiset{j};
    var server' := Remove(server, a);
    assert DeleteTarget(t, processed, jobs, server, j);
    RemoveIs(t, server, a);
    forall k | k in jobs' ensures DeleteTarget(t, processed, jobs', server', k) {
      assert k in jobs;
      assert DeleteTarget(t, processed, jobs, server, k);
    }
    forall x | x in server' ensures Explained(t, processed, jobs', x) {
      assert Explained(t, processed, jobs, x);
      if Doomed(t, jobs, x) {
        var k :| k in jobs && k.Delete? && Below(t, x, k.col.Uid());
        assert k in jobs';
      }
    }
    forall x | x in t.localUidMap && Spared(t, processed, x) ensures x in server' {
      SparedStays(t, processed, jobs, server, j, x);
    }
  }

  lemma RemoveContent(t: Tree, jobs: multiset<Job>, A: set<Collection>, server: Server, server': Server, j: Job)
    requires ContentLedger(t, jobs, A, StoredOf(t, server, A), A) && !j.Modify?
    requires forall c :: c in A && Match(t, c).Some? ==>
      Match(t, c).value in server' && (Match(t, c).value in server ==>
          server'[Match(t, c).value] == server[Match(t, c).value])
    ensures ContentLedger(t, jobs - multiset{j}, A, StoredOf(t, server', A), A)
  {
    var jobs' := jobs - multiset{j};
    forall k | k in jobs' ensures ModifyRight(t, A, k) {
      assert k in jobs;
      assert ModifyRight(t, A, k);
    }
    forall c | c in A ensures Stored(t, jobs', StoredOf(t, server', A), c) {
      assert Stored(t, jobs, StoredOf(t, server, A), c);
      if Match(t, c).Some? && c in StoredOf(t, server, A) {
        assert IsStored(t, server', c);
      }
    }
  }

  lemma DeleteConverges(s: State, server: Server, A: set<Collection>, j: Job)
    requires Syncing(s, A) && s.tree.hierarchicalRIDs
    requires Converging(s, server, A) && j in s.jobs && j.Delete?
    ensures Converging(JobDone(s, j), Remove(server, j.col.Uid()), A)
    ensures j.col.Uid() in server
  {
    var a := j.col.Uid();
    var server' := Remove(server, a);
    assert DeleteTarget(s.tree, s.processed, s.jobs, server, j);
    RemoveIs(s.tree, server, a);
    RemoveDeleting(s.tree, s.processed, s.jobs, server, j);
    forall c | c in A && Match(s.tree, c).Some?
      ensures Match(s.tree, c).value in server' && server'[Match(s.tree, c).value] == server[Match(s.tree, c).value]
    {
      MatchedAlive(s, server, A, c);
      assert Settled(s, s.jobs, c);
    }
    RemoveContent(s.tree, s.jobs, A, server, server', j);
  }

  // ------------------------------------------------------------------ create jobs

  /** The parent of a collection being created is on the server. */
  lemma CreationParentAlive(s: State, server: Server, A: set<Collection>, j: Job)
    requires Syncing(s, A) && s.tree.hierarchicalRIDs
    requires s.deliveryDone ==> ClosedListing(true, A)
    requires Converging(s, server, A) && j in s.jobs && j.Create?
    ensures j.localParent == ROOT_ID || j.localParent in server
    ensures s.deliveryDone ==> j.localParent in s.processed
  {
    assert CreatesRightly(s.tree, s.jobs, A, j);
    MatchIsNode(s.tree, A, j.remote);
    if s.deliveryDone {
      MatchParentProcessed(s, A, j.remote);
    }
  }

  lemma CreateContent(t: Tree, t': Tree, jobs: multiset<Job>, A: set<Collection>, server: Server, j: Job, x: Id)
    requires ContentLedger(t, jobs, A, StoredOf(t, server, A), A)
    requires j.Create? && j.remote in A && j == CreateJob(t, j.localParent, j.remote) && Match(t, j.remote).None?
    requires TreeOk(t) && GoodListing(t.hierarchicalRIDs, A) && x !in t.localUidMap
    requires Grows(t, t', A, j.remote, x, Anchor(t, j.localParent))
    requires x in t'.localUidMap && t'.localUidMap[x].collection == NewLocal(j, x)
    ensures ContentLedger(t', jobs - multiset{j}, A, StoredOf(t', Insert(server, x, j.col), A), A)
  {
    var jobs' := jobs - multiset{j};
    var server' := Insert(server, x, j.col);
    forall c | c in A && Match(t, c).Some?
      ensures Match(t', c) == Match(t, c) && Match(t, c).value != x
      ensures Node(t', Match(t, c).value).collection == Node(t, Match(t, c).value).collection
    {
      assert Reached(t, c);
      MatchIsNode(t, A, c);
    }
    forall k | k in jobs' ensures ModifyRight(t', A, k) {
      assert k in jobs;
      assert ModifyRight(t, A, k);
    }
    forall c | c in A ensures Stored(t', jobs', StoredOf(t', server', A), c) {
      assert Stored(t, jobs, StoredOf(t, server, A), c);
      assert Reached(t, c) || !Reached(t, c);
      if c == j.remote {
        assert IsStored(t', server', c);
      } else if Match(t, c).Some? && c in StoredOf(t, server, A) {
        assert IsStored(t', server', c);
      }
    }
  }

  lemma LeafDeleting(t: Tree, t': Tree, processed: set<Id>, jobs: multiset<Job>, jobs': multiset<Job>, server: Server,
          server': Server, x: Id, p: Id)
    requires Deleting(t, processed, jobs, server) && SameDeletes(jobs, jobs')
    requires Rooted(LocalParents(t)) && x !in LocalParents(t) && x != ROOT_ID && x !in t.localUidMap
    requires p == ROOT_ID || p in LocalParents(t)
    requires LocalParents(t') == LocalParents(t)[x := p]
    requires p in processed && (forall y :: y in processed ==> y in t.localUidMap)
    requires server.Keys <= t.localUidMap.Keys && ROOT_ID !in server && server'.Keys == server.Keys + {x}
    requires forall y :: y in t'.localUidMap <==> y in t.localUidMap || y == x
    requires forall y :: y in t.localUidMap ==> t'.localUidMap[y].collection == t.localUidMap[y].collection
    ensures Deleting(t', processed + {x}, jobs', server')
  {
    RootedLeaf(LocalParents(t), LocalParents(t'), x, p);
    forall j | j in jobs' && j.Delete? ensures j in jobs && DeleteTarget(t, processed, jobs, server, j) {
      assert jobs'[j] == jobs[j];
    }
    forall y, a | y in t.localUidMap && y != ROOT_ID ensures Below(t', y, a) <==> Below(t, y, a) {
      assert y in LocalParents(t);
    }
    forall j | j in jobs' ensures DeleteTarget(t', processed + {x}, jobs', server', j) {
      if j.Delete? {
        var a := j.col.Uid();
        assert DeleteTarget(t, processed, jobs, server, j);
        forall y | y in processed + {x} ensures !Below(t', y, a) {
          if y == ROOT_ID {
            if Below(t', y, a) {
              RootAtTop(LocalParents(t'), a);
            }
          }
        }
      }
    }
    forall y | y in server' ensures Explained(t', processed + {x}, jobs', y) {
      if y != x {
        assert Explained(t, processed, jobs, y);
        if Doomed(t, jobs, y) {
          var k :| k in jobs && k.Delete? && Below(t, y, k.col.Uid());
          assert jobs'[k] == jobs[k];
          assert k in jobs' && Below(t', y, k.col.Uid());
        } else if Spared(t, processed, y) {
          var z :| Lost(t, processed, z) && Below(t, y, z);
          assert Lost(t', processed + {x}, z) && Below(t', y, z);
        }
      }
    }
    forall y | y in t'.localUidMap && Spared(t', processed + {x}, y) ensures y in server' {
      if y != x {
        var z :| Lost(t', processed + {x}, z) && Below(t', y, z);
        SparedIsNode(t', processed + {x}, y);
        DepthStep(LocalParents(t), z);
        assert Lost(t, processed, z) && Below(t, y, z);
        assert Spared(t, processed, y);
      }
    }
  }

  lemma InsertMirrors(t: Tree, p: Id, r: Collection, x: Id, server: Server)
    requires TreeOk(t) && CanCreate(t, p, r, x) && Mirrors(t, server) && x !in server
    requires p == ROOT_ID || p in server
    ensures Mirrors(CreateLocalNode(t, Created(t, p, r, x)), Insert(server, x, CreateJob(t, p, r).col))
  {
    CreatedIsNewLeaf(t, p, r, x);
    CreateLocalNodeIs(t, Created(t, p, r, x));
  }

  /** What is untouched was unmatched before. */
  lemma CreateUntouched(t: Tree, t': Tree, A: set<Collection>, server: Server, j: Job, x: Id)
    requires TreeOk(t) && GoodListing(t.hierarchicalRIDs, A) && Mirrors(t, server) && Untouched(t, server, A)
    requires j.Create? && j.remote in A && Match(t, j.remote).None? && x !in t.localUidMap
    requires Grows(t, t', A, j.remote, x, Anchor(t, j.localParent))
    ensures Untouched(t', Insert(server, x, j.col), A)
  {
    var server' := Insert(server, x, j.col);
    assert Reached(t, j.remote) || !Reached(t, j.remote);
    assert Match(t', j.remote) == Some(x);
    assert MatchedBy(t', A, x);
    forall y | MatchedBy(t, A, y) ensures MatchedBy(t', A, y) {
      var c :| c in A && Match(t, c) == Some(y);
      assert Reached(t, c);
      assert Match(t', c) == Some(y);
    }
    forall y | y in server' && !MatchedBy(t', A, y) ensures server'[y] == AsListed(t', y) {
      assert !MatchedBy(t, A, y);
    }
  }

  /** What waits at the parent of a created collection has no match yet. */
  lemma RecordedUnmatched(s: State, A: set<Collection>, j: Job, x: Id)
    requires Syncing(s, A) && j in s.jobs && j.Create? && x != ROOT_ID && x !in s.tree.localUidMap
    ensures forall c :: c in Waiting(CreateRecorded(s, j, x), j.localParent) ==>
      Match(CreateRecorded(s, j, x).tree, c).None?
  {
    var r := CreateRecorded(s, j, x);
    RecordedGrows(s, A, j, x);
    WaitingSeen(s, A, j.localParent);
    assert CreatesRightly(s.tree, s.jobs, A, j);
    forall c | c in Waiting(r, j.localParent) ensures Match(r.tree, c).None? {
      assert c in A && !Reached(s.tree, c);
    }
  }

  /** Re-examining what waited below the parent issues creations only. */
  lemma RecordedPass(s: State, A: set<Collection>, F: set<Collection>, j: Job, x: Id)
    requires Syncing(s, A) && s.tree.hierarchicalRIDs
    requires j in s.jobs && j.Create? && x != ROOT_ID && x !in s.tree.localUidMap
    requires ContentLedger(CreateRecorded(s, j, x).tree, s.jobs - multiset{j}, A, F, A)
    ensures var r := CreateRecorded(s, j, x); var s1 := ProcessPendingRemoteNodes(r, j.localParent);
      && SameControl(s1, r) && s1.moves == s.moves
      && ContentLedger(s1.tree, s1.jobs, A, F, A)
      && s1.processed == r.processed && SameDeletes(r.jobs, s1.jobs)
  {
    var r := CreateRecorded(s, j, x);
    RecordedOpens(s, A, j, x);
    RecordedUnmatched(s, A, j, x);
    OpenedPass(r, A, F, j.localParent);
  }

  /** A pass over unmatched collections that were all accepted. */
  lemma OpenedPass(r: State, A: set<Collection>, F: set<Collection>, n: Id)
    requires Opened(r, A, n) && r.tree.hierarchicalRIDs && ContentLedger(r.tree, r.jobs, A, F, A)
    requires forall c :: c in Waiting(r, n) ==> Match(r.tree, c).None?
    ensures var s1 := ProcessPendingRemoteNodes(r, n);
      && SameControl(s1, r) && s1.moves == r.moves && ContentLedger(s1.tree, s1.jobs, A, F, A)
      && s1.processed == r.processed && SameDeletes(r.jobs, s1.jobs)
  {
    PassOk(r, A, n);
    PassContent(r, A, F, A, n);
    assert A + Elements(Waiting(r, n)) == A;
  }

  /** The created collection mirrors the server's, with the content it was created for. */
  lemma CreateMirrors(s: State, server: Server, A: set<Collection>, j: Job, x: Id)
    requires Syncing(s, A) && s.tree.hierarchicalRIDs
    requires s.deliveryDone ==> ClosedListing(true, A)
    requires Converging(s, server, A) && j in s.jobs && j.Create?
    requires x != ROOT_ID && x !in s.tree.localUidMap && x !in server
    ensures var t' := CreateRecorded(s, j, x).tree; var server' := Insert(server, x, j.col);
      && Mirrors(t', server') && Untouched(t', server', A)
      && ContentLedger(t', s.jobs - multiset{j}, A, StoredOf(t', server', A), A)
  {
    var t := s.tree;
    var P := j.localParent;
    assert CreatesRightly(t, s.jobs, A, j);
    RecordedGrows(s, A, j, x);
    CreationParentAlive(s, server, A, j);
    CreatedIsNewLeaf(t, P, j.remote, x);
    CreateLocalNodeIs(t, Created(t, P, j.remote, x));
    InsertMirrors(t, P, j.remote, x, server);
    CreateUntouched(t, CreateRecorded(s, j, x).tree, A, server, j, x);
    CreateContent(t, CreateRecorded(s, j, x).tree, s.jobs, A, server, j, x);
  }

  lemma CreateConverges(s: State, server: Server, A: set<Collection>, j: Job, x: Id)
    requires Syncing(s, A) && s.tree.hierarchicalRIDs
    requires s.deliveryDone ==> ClosedListing(true, A)
    requires Converging(s, server, A) && j in s.jobs && j.Create?
    requires x != ROOT_ID && x !in s.tree.localUidMap && x !in server
    ensures Converging(CreateDone(s, j, x), Insert(server, x, j.col), A)
  {
    CreateMirrors(s, server, A, j, x);
    RecordedPass(s, A, StoredOf(CreateRecorded(s, j, x).tree, Insert(server, x, j.col), A), j, x);
    CreatePhase(s, server, A, j, x, CreateDone(s, j, x).jobs);
  }

  /** The deletion phase is not disturbed by a new processed node. */
  lemma CreatePhase(s: State, server: Server, A: set<Collection>, j: Job, x: Id, jobs': multiset<Job>)
    requires Syncing(s, A) && s.tree.hierarchicalRIDs
    requires s.deliveryDone ==> ClosedListing(true, A)
    requires Converging(s, server, A) && j in s.jobs && j.Create?
    requires x != ROOT_ID && x !in s.tree.localUidMap && x !in server
    requires SameDeletes(s.jobs - multiset{j}, jobs')
    ensures var t' := CreateRecorded(s, j, x).tree; var server' := Insert(server, x, j.col);
      if s.deliveryDone then Deleting(t', s.processed + {x}, jobs', server') else Undeleted(t', jobs', server')
  {
    RecordedGrows(s, A, j, x);
    CreationParentAlive(s, server, A, j);
    assert forall k: Job :: k.Delete? ==> jobs'[k] == s.jobs[k];
    if s.deliveryDone {
      ProcessedAreNodes(s, A);
      LeafPhase(s.tree, j.localParent, j.remote, x, s.processed, s.jobs, jobs', server);
    } else {
      LeafUndeleted(s.tree, j.localParent, j.remote, x, s.jobs, jobs', server);
    }
  }

  lemma LeafUndeleted(t: Tree, p: Id, r: Collection, x: Id, jobs: multiset<Job>, jobs': multiset<Job>, server: Server)
    requires TreeOk(t) && CanCreate(t, p, r, x)
    requires Undeleted(t, jobs, server) && SameDeletes(jobs, jobs')
    ensures Undeleted(CreateLocalNode(t, Created(t, p, r, x)), jobs', Insert(server, x, CreateJob(t, p, r).col))
  {
    CreatedIsNewLeaf(t, p, r, x);
    CreateLocalNodeIs(t, Created(t, p, r, x));
    assert forall k :: k in jobs' && k.Delete? ==> k in jobs;
  }

  lemma LeafPhase(t: Tree, p: Id, r: Collection, x: Id, processed: set<Id>, jobs: multiset<Job>, jobs': multiset<Job>,
          server: Server)
    requires TreeOk(t) && CanCreate(t, p, r, x) && x !in server
    requires Deleting(t, processed, jobs, server) && Mirrors(t, server) && SameDeletes(jobs, jobs')
    requires p in processed && (forall y :: y in processed ==> y in t.localUidMap)
    ensures Deleting(CreateLocalNode(t, Created(t, p, r, x)), processed + {x}, jobs',
        Insert(server, x, CreateJob(t, p, r).col))
  {
    CreatedIsNewLeaf(t, p, r, x);
    CreateLocalNodeIs(t, Created(t, p, r, x));
    LeafParents(t, p, r, x);
    assert forall y :: y in server ==> y in t.localUidMap;
    LeafDeleting(t, CreateLocalNode(t, Created(t, p, r, x)), processed, jobs, jobs', server,
                 Insert(server, x, CreateJob(t, p, r).col), x, p);
  }

  // ------------------------------------------------------------------ whole runs

  /** Full listings with hierarchical remote ids. */
  ghost predicate FullHierarchical(s: System) {
    s.client.tree.hierarchicalRIDs && !s.client.incremental
  }

  ghost predicate ConvInv(s: System, remote: set<Collection>) {
    && Inv(s, remote) && (s.client.tree.hierarchicalRIDs ==> ClosedListing(true, AcceptedOf(remote)))
    && (FullHierarchical(s) && s.client.localListDone ==> Converging(s.client, s.server, Seen(s, remote)))
  }

  lemma InitConv(s: System, remote: set<Collection>)
    requires Init(s, remote)
    requires s.client.tree.hierarchicalRIDs ==> ClosedListing(true, AcceptedOf(remote))
    ensures ConvInv(s, remote)
  {
    InitInv(s, remote);
  }

  /** More accepted collections only weaken what must be shown of each job. */
  lemma ContentGrow(t: Tree, jobs: multiset<Job>, B: set<Collection>, server: Server, A: set<Collection>,
          A': set<Collection>)
    requires ContentLedger(t, jobs, A, StoredOf(t, server, A), A) && A <= A' && B <= A
    ensures ContentLedger(t, jobs, B, StoredOf(t, server, A'), A')
  {
    forall j | j in jobs ensures ModifyRight(t, A', j) {
      assert ModifyRight(t, A, j);
    }
    forall c | c in B ensures Stored(t, jobs, StoredOf(t, server, A'), c) {
      assert Stored(t, jobs, StoredOf(t, server, A), c);
    }
  }

  lemma UntouchedGrow(t: Tree, server: Server, A: set<Collection>, A': set<Collection>)
    requires Untouched(t, server, A) && A <= A'
    ensures Untouched(t, server, A')
  {
    forall x | MatchedBy(t, A, x) ensures MatchedBy(t, A', x) {
      var c :| c in A && Match(t, c) == Some(x);
      assert c in A';
    }
    forall x | x in server && !MatchedBy(t, A', x) ensures server[x] == AsListed(t, x) {
      assert !MatchedBy(t, A, x);
    }
  }

  lemma DeliveredConv(s: System, remote: set<Collection>, cols: seq<Collection>, s2: State)
    requires ConvInv(s, remote) && Delivers(s, cols) && Filed(s.client, s2, cols)
    requires s2.totalAmount == s.client.totalAmount + |cols| && s2.deliveryDone == !s.client.streaming
    requires s2.incremental == s.client.incremental && s2.removedRemoteCollections == s.client.removedRemoteCollections
    requires FullHierarchical(s) && s.client.localListDone
    ensures Converging(Execute(s2), s.server, AcceptedOf(remote - (s.undelivered - Elements(cols))))
  {
    var A := Seen(s, remote);
    DeliveryExtends(s, remote, cols);
    var A' := A + AcceptedSet(cols);
    ChunkOpens(s.client, s2, A, cols);
    ContentGrow(s.client.tree, s.client.jobs, A - Elements(Waiting(s.client, ROOT_ID)), s.server, A, A');
    UntouchedGrow(s.client.tree, s.server, A, A');
    if s2.deliveryDone {
      assert remote - (s.undelivered - Elements(cols)) == remote;
    }
    ExecuteConverges(s2, s.server, A');
  }

  lemma DeliveryEndsConv(s: System, s': System, remote: set<Collection>)
    requires ConvInv(s, remote) && DeliveryEnds(s, s') && FullHierarchical(s) && s.client.localListDone
    ensures Converging(s'.client, s'.server, Seen(s', remote))
  {
    var A := Seen(s, remote);
    var s2 := s.client.(deliveryDone := true);
    assert remote - s.undelivered == remote;
    EndOpens(s.client, A, ROOT_ID);
    ContentGrow(s.client.tree, s.client.jobs, A - Elements(Waiting(s.client, ROOT_ID)), s.server, A, A);
    ExecuteConverges(s2, s.server, A);
  }

  /** A tree that holds what the server lists mirrors it. */
  lemma ListedMirrors(t: Tree, server: Server, A: set<Collection>)
    requires ListedTree(t, server) && Rooted(ServerParents(server))
    ensures Mirrors(t, server) && Untouched(t, server, A) && Undeleted(t, multiset{}, server)
  {
    forall x | x in server ensures server[x].parent == ROOT_ID || server[x].parent in server {
      DepthStep(ServerParents(server), x);
    }
  }

  /** When the listing is complete, nothing is in flight yet. */
  lemma ListingIdle(c: State, server: Server, A: set<Collection>)
    requires Listing(c, A)
    ensures c.jobs == multiset{} && c.moves == multiset{}
    ensures ContentLedger(c.tree, c.jobs, {}, StoredOf(c.tree, server, A), A)
  {
  }

  lemma LocalDoneConv(s: System, s': System, remote: set<Collection>)
    requires ConvInv(s, remote) && LocalDone(s, s') && FullHierarchical(s)
    ensures Converging(s'.client, s'.server, Seen(s', remote))
  {
    var A := Seen(s, remote);
    var s2 := s.client.(localListDone := true);
    ListedTreeOk(s, remote);
    FitsSubset(s.client.tree, A, AcceptedOf(remote));
    ListingOpens(s.client, s2, A);
    ListedMirrors(s2.tree, s.server, A);
    ListingIdle(s.client, s.server, A);
    ExecuteConverges(s2, s.server, A);
  }

  /** Every step keeps the server on course. */
  lemma StepConv(s: System, s': System, remote: set<Collection>)
    requires ConvInv(s, remote) && Step(s, s')
    ensures ConvInv(s', remote)
  {
    StepInv(s, s', remote);
    if FullHierarchical(s') && s'.client.localListDone {
      if s.client.localListDone {
        StepConverges(s, s', remote);
      } else {
        ListingStep(s, s', remote);
        LocalDoneConv(s, s', remote);
      }
    }
  }

  lemma StepConverges(s: System, s': System, remote: set<Collection>)
    requires ConvInv(s, remote) && Step(s, s') && SameMode(s, s')
    requires FullHierarchical(s') && s.client.localListDone
    ensures Converging(s'.client, s'.server, Seen(s', remote))
  {
    if JobStep(s, s') {
      JobStepConverges(s, s', remote);
    } else {
      DeliveryStepConverges(s, s', remote);
    }
  }

  lemma DeliveryStepConverges(s: System, s': System, remote: set<Collection>)
    requires ConvInv(s, remote) && DeliveryStep(s, s') && SameMode(s, s')
    requires FullHierarchical(s') && s.client.localListDone
    ensures Converging(s'.client, s'.server, Seen(s', remote))
  {
    if cols :| Chunk(s, s', cols) {
      ChunkConv(s, s', remote, cols);
    } else if DeliveryEnds(s, s') {
      DeliveryEndsConv(s, s', remote);
    } else {
      var cols, removed :| Changes(s, s', cols, removed);
      ChangesInv(s, s', remote, cols, removed);
      assert false;
    }
  }

  lemma JobStepConverges(s: System, s': System, remote: set<Collection>)
    requires ConvInv(s, remote) && JobStep(s, s') && SameMode(s, s')
    requires FullHierarchical(s') && s.client.localListDone
    ensures Converging(s'.client, s'.server, Seen(s', remote))
  {
    if j :| ModifyFinishes(s, s', j) {
      ModifyConv(s, s', remote, j);
    } else if j :| DeleteFinishes(s, s', j) {
      DeleteConv(s, s', remote, j);
    } else if j, x :| CreateFinishes(s, s', j, x) {
      CreateConv(s, s', remote, j, x);
    }
  }

  lemma ChunkConv(s: System, s': System, remote: set<Collection>, cols: seq<Collection>)
    requires ConvInv(s, remote) && Chunk(s, s', cols) && FullHierarchical(s) && s.client.localListDone
    ensures Converging(s'.client, s'.server, Seen(s', remote))
  {
    var s2 := ChunkFiles(s.client, cols);
    DeliveredConv(s, remote, cols, s2);
  }

  lemma SeenAll(s: System, remote: set<Collection>)
    requires Inv(s, remote) && s.client.deliveryDone
    ensures Seen(s, remote) == AcceptedOf(remote)
  {
    assert remote - s.undelivered == remote;
  }

  lemma ModifyConv(s: System, s': System, remote: set<Collection>, j: Job)
    requires ConvInv(s, remote) && ModifyFinishes(s, s', j) && FullHierarchical(s) && s.client.localListDone
    ensures Converging(s'.client, s'.server, Seen(s', remote))
  {
    ModifyConverges(s.client, s.server, Seen(s, remote), j);
  }

  lemma DeleteConv(s: System, s': System, remote: set<Collection>, j: Job)
    requires ConvInv(s, remote) && DeleteFinishes(s, s', j) && FullHierarchical(s) && s.client.localListDone
    ensures Converging(s'.client, s'.server, Seen(s', remote))
  {
    DeleteConverges(s.client, s.server, Seen(s, remote), j);
    RemovesByUid(s.server, j.col);
  }

  lemma CreateConv(s: System, s': System, remote: set<Collection>, j: Job, x: Id)
    requires ConvInv(s, remote) && CreateFinishes(s, s', j, x) && FullHierarchical(s) && s.client.localListDone
    ensures Converging(s'.client, s'.server, Seen(s', remote))
  {
    CreateConverges(s.client, s.server, Seen(s, remote), j, x);
  }
}
