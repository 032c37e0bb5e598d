/** The synchronisation together with the server it talks to and the backend that feeds it:
    every order of local batches, remote chunks and job completions is a run. */
module SyncSystem {
  import opened Collections
  import opened Trees
  import opened SyncState
  import opened SyncListing
  import opened SyncMatching
  import opened SyncGrowth
  import opened SyncLedger
  import opened SyncRun

  /** A collection as the server stores it; the root is not stored. */
  datatype ServerNode = ServerNode(parent: Id, remoteId: string, name: string, display: Option<string>)

  type Server = map<Id, ServerNode>

  datatype System = System(client: State, server: Server, unlisted: set<Id>, undelivered: set<Collection>)

  // ------------------------------------------------------------------ the server

  function ServerParents(server: Server): ParentMap {
    map x | x in server :: server[x].parent
  }

  /** What the local listing reports for a stored collection: the parent by uid only. */
  function Listed(server: Server, x: Id): Collection
    requires x in server
  {
    Collection(x, server[x].remoteId, server[x].name, server[x].display,
               Collection(server[x].parent, "", "", None, Invalid))
  }

  /** Deleting a collection deletes everything below it. */
  ghost function Remove(server: Server, a: Id): Server {
    map x | x in server && !Under(ServerParents(server), x, a) :: server[x]
  }

  /** Whom a delete job means: the collection with its uid or, if it has none, those with its
      remote id. */
  function Addressed(server: Server, c: Collection): set<Id> {
    if c.Uid() in server then {c.Uid()}
    else if c.Uid() < 0 && c.Rid() != "" then set x | x in server && server[x].remoteId == c.Rid()
    else {}
  }

  ghost function RemoveCollection(server: Server, c: Collection): Server {
    map x | x in server && (forall a :: a in Addressed(server, c) ==> !Under(ServerParents(server), x, a)) :: server[x]
  }

  lemma RemovesByUid(server: Server, c: Collection)
    requires c.Uid() in server
    ensures RemoveCollection(server, c) == Remove(server, c.Uid())
  {
  }

  function Write(server: Server, c: Collection): Server {
    if c.Uid() in server then
      server[c.Uid() := server[c.Uid()].(remoteId := c.Rid(), name := c.Name(), display := c.Display())]
    else server
  }

  function Reparent(server: Server, x: Id, p: Id): Server {
    if x in server then server[x := server[x].(parent := p)] else server
  }

  function Insert(server: Server, x: Id, c: Collection): Server {
    server[x := ServerNode(c.Parent().Uid(), c.Rid(), c.Name(), c.Display())]
  }

  // ------------------------------------------------------------------ runs

  /** The part of a remote listing the sync accepts. */
  ghost function AcceptedOf(remote: set<Collection>): set<Collection> {
    set c | c in remote && c.Rid() != ""
  }

  /** A connected server tree, and a remote listing with unique remote ids. */
  ghost predicate Start(s: System, remote: set<Collection>) {
    && s.client == InitialState(s.client.tree.hierarchicalRIDs, s.client.streaming)
    && Rooted(ServerParents(s.server))
    && GoodListing(s.client.tree.hierarchicalRIDs, AcceptedOf(remote))
    && s.unlisted == s.server.Keys
    && s.undelivered == remote
  }

  /** A local tree that holds exactly what the server lists. */
  ghost predicate ListedTree(t: Tree, server: Server) {
    && TreeOk(t) && t.localUidMap.Keys == {ROOT_ID} + server.Keys
    && forall x :: x in server ==> t.localUidMap[x].collection == Listed(server, x)
  }

  /** The remote listing fits the local tree and is closed, in whatever order the server lists
      its collections. */
  ghost predicate ListingFits(hierarchical: bool, server: Server, A: set<Collection>) {
    forall t: Tree {:trigger ListedTree(t, server)} :: t.hierarchicalRIDs == hierarchical && ListedTree(t, server) ==>
        Fits(t, A) && Closed(t, A)
  }

  ghost predicate Init(s: System, remote: set<Collection>) {
    Start(s, remote) && ListingFits(s.client.tree.hierarchicalRIDs, s.server, AcceptedOf(remote))
  }

  /** That is so in global mode, and when no remote id on the server is empty. */
  lemma AllRidsListingFits(hierarchical: bool, server: Server, A: set<Collection>)
    requires GoodListing(hierarchical, A) && ClosedListing(hierarchical, A)
    requires hierarchical ==> forall x :: x in server ==> server[x].remoteId != ""
    ensures ListingFits(hierarchical, server, A)
  {
    forall t: Tree | t.hierarchicalRIDs == hierarchical && ListedTree(t, server) ensures Fits(t, A) && Closed(t, A) {
      AllRidsFit(t, A);
      CompleteIsClosed(t, A);
    }
  }

  /** A part of the listing that did not arrive yet. */
  ghost predicate BatchOf(s: System, cols: seq<Collection>) {
    forall i :: 0 <= i < |cols| ==>
      cols[i].Uid() in s.unlisted && cols[i].Uid() in s.server && cols[i] == Listed(s.server, cols[i].Uid())
  }

  ghost predicate LocalBatch(s: System, s': System, cols: seq<Collection>) {
    && !s.client.localListDone
    && BatchOf(s, cols) && NoDup(cols)
    && s' == s.(client := s.client.(tree := LocalCollectionsReceived(s.client.tree, cols)),
                unlisted := s.unlisted - ListedIds(cols))
  }

  ghost predicate LocalDone(s: System, s': System) {
    && !s.client.localListDone && s.unlisted == {}
    && s' == s.(client := LocalFetchResult(s.client))
  }

  /** Without streaming, everything comes in one delivery. */
  ghost predicate Delivers(s: System, cols: seq<Collection>) {
    && !s.client.deliveryDone
    && NoDup(cols) && (forall c :: c in cols ==> c in s.undelivered)
    && (!s.client.streaming ==> s.undelivered == Elements(cols))
  }

  ghost predicate Chunk(s: System, s': System, cols: seq<Collection>) {
    && Delivers(s, cols)
    && s' == s.(client := SetRemoteCollections(s.client, cols), undelivered := s.undelivered - Elements(cols))
  }

  ghost predicate Changes(s: System, s': System, cols: seq<Collection>, removed: seq<Collection>) {
    && Delivers(s, cols)
    && s' == s.(client := SetRemoteChanges(s.client, cols, removed), undelivered := s.undelivered - Elements(cols))
  }

  ghost predicate DeliveryEnds(s: System, s': System) {
    && s.client.streaming && !s.client.deliveryDone && s.undelivered == {}
    && s' == s.(client := RetrievalDone(s.client))
  }

  ghost predicate ModifyFinishes(s: System, s': System, j: Job) {
    && j in s.client.jobs && j.Modify?
    && s' == s.(client := JobDone(s.client, j), server := Write(s.server, j.col))
  }

  ghost predicate DeleteFinishes(s: System, s': System, j: Job) {
    && j in s.client.jobs && j.Delete?
    && s' == s.(client := JobDone(s.client, j), server := RemoveCollection(s.server, j.col))
  }

  ghost predicate MoveFinishes(s: System, s': System, m: Move) {
    && m in s.client.moves
    && s' == s.(client := MoveDone(s.client, m), server := Reparent(s.server, m.col.Uid(), m.dest.Uid()))
  }

  /** The server hands out a positive uid it never used before. */
  ghost predicate CreateFinishes(s: System, s': System, j: Job, x: Id) {
    && j in s.client.jobs && j.Create?
    && x > ROOT_ID && x !in s.server && x !in s.client.tree.localUidMap
    && s' == s.(client := CreateDone(s.client, j, x), server := Insert(s.server, x, j.col))
  }

  ghost predicate DeliveryStep(s: System, s': System) {
    || (exists cols :: LocalBatch(s, s', cols))
    || LocalDone(s, s')
    || (exists cols :: Chunk(s, s', cols))
    || (exists cols, removed :: Changes(s, s', cols, removed))
    || DeliveryEnds(s, s')
  }

  ghost predicate JobStep(s: System, s': System) {
    || (exists j :: ModifyFinishes(s, s', j))
    || (exists j :: DeleteFinishes(s, s', j))
    || (exists m :: MoveFinishes(s, s', m))
    || (exists j, x :: CreateFinishes(s, s', j, x))
  }

  ghost predicate Step(s: System, s': System) {
    DeliveryStep(s, s') || JobStep(s, s')
  }

  /** The result a job step is about: a modify or delete job, a move, or a creation. */
  datatype Result = PlainResult(job: Job) | MoveResult(move: Move) | CreateResult(job: Job, id: Id)

  ghost predicate Brings(s: System, s': System, r: Result) {
    match r
    case PlainResult(j) => ModifyFinishes(s, s', j) || DeleteFinishes(s, s', j)
    case MoveResult(m) => MoveFinishes(s, s', m)
    case CreateResult(j, x) => CreateFinishes(s, s', j, x)
  }

  lemma ResultOf(s: System, s': System) returns (r: Result)
    requires JobStep(s, s')
    ensures Brings(s, s', r)
  {
    if j :| ModifyFinishes(s, s', j) || DeleteFinishes(s, s', j) {
      r := PlainResult(j);
    } else if m :| MoveFinishes(s, s', m) {
      r := MoveResult(m);
    } else {
      var j, x :| CreateFinishes(s, s', j, x);
      r := CreateResult(j, x);
    }
  }

  /** A run from any state. */
  ghost predicate Steps(run: seq<System>) {
    run != [] && forall i :: 0 <= i < |run| - 1 ==> Step(run[i], run[i + 1])
  }

  ghost predicate Run(run: seq<System>, remote: set<Collection>) {
    Steps(run) && Init(run[0], remote)
  }

  // ------------------------------------------------------------------ the client's invariant

  /** What has been accepted so far. */
  ghost function Seen(s: System, remote: set<Collection>): set<Collection> {
    AcceptedOf(remote - s.undelivered)
  }

  /** While the listing runs the server is still as it was, and the tree holds what it listed. */
  ghost predicate ListingMatches(s: System) {
    && Rooted(ServerParents(s.server)) && s.unlisted <= s.server.Keys
    && s.client.tree.localUidMap.Keys == {ROOT_ID} + (s.server.Keys - s.unlisted)
    && (forall x :: x in s.client.tree.localUidMap && x != ROOT_ID ==>
        s.client.tree.localUidMap[x].collection == Listed(s.server, x))
  }

  ghost predicate Inv(s: System, remote: set<Collection>) {
    && s.undelivered <= remote
    && GoodListing(s.client.tree.hierarchicalRIDs, AcceptedOf(remote))
    && ClientOk(s.client, Seen(s, remote))
    && (s.client.deliveryDone ==> s.undelivered == {})
    && (if s.client.localListDone then
          Fits(s.client.tree, AcceptedOf(remote)) && Closed(s.client.tree, AcceptedOf(remote))
        else ListingMatches(s) && ListingFits(s.client.tree.hierarchicalRIDs, s.server, AcceptedOf(remote)))
    && (!s.client.incremental || s.client.localListDone ==> s.client.removedRemoteCollections == [])
    && s.client.totalAmount == |remote - s.undelivered| + |s.client.deleted|
  }

  /** The modes never change, except that an incremental delivery makes the sync incremental. */
  ghost predicate SameMode(s: System, s': System) {
    && s'.client.tree.hierarchicalRIDs == s.client.tree.hierarchicalRIDs
    && s'.client.streaming == s.client.streaming
    && (s.client.incremental ==> s'.client.incremental)
  }

  /** Remote collections arriving leave the local side alone. */
  ghost predicate SameLocal(s: System, s': System) {
    s'.client.tree == s.client.tree && s'.client.localListDone == s.client.localListDone && s'.server == s.server
  }

  lemma InitInv(s: System, remote: set<Collection>)
    requires Init(s, remote)
    ensures Inv(s, remote)
  {
    InitialListOk(s.client.tree.hierarchicalRIDs);
    assert remote - s.undelivered == {};
    assert Seen(s, remote) == {};
  }

  lemma GoodSubset(hierarchical: bool, A: set<Collection>, B: set<Collection>)
    requires GoodListing(hierarchical, B) && A <= B
    ensures GoodListing(hierarchical, A)
  {
  }

  lemma {:induction false} AcceptedMembers(cols: seq<Collection>)
    ensures forall c :: c in Accepted(cols) <==> c in cols && c.Rid() != ""
    ensures NoDup(cols) ==> NoDup(Accepted(cols))
  {
    if cols != [] {
      var front := cols[..|cols| - 1];
      var last := cols[|cols| - 1];
      assert cols == front + [last];
      AcceptedMembers(front);
      assert NoDup(cols) ==> last !in front;
    }
  }

  /** A delivery extends what was accepted by new collections, each once. */
  lemma DeliveryExtends(s: System, remote: set<Collection>, cols: seq<Collection>)
    requires Inv(s, remote) && Delivers(s, cols)
    ensures FreshChunk(Seen(s, remote), cols)
    ensures var u := s.undelivered - Elements(cols);
      && Seen(s, remote) + AcceptedSet(cols) == AcceptedOf(remote - u)
      && |remote - u| == |remote - s.undelivered| + |cols|
    ensures GoodListing(s.client.tree.hierarchicalRIDs, Seen(s, remote) + AcceptedSet(cols))
    ensures s.client.localListDone ==> Fits(s.client.tree, Seen(s, remote) + AcceptedSet(cols))
    ensures !s.client.streaming ==> s.undelivered - Elements(cols) == {}
  {
    SplitAccepted(s.undelivered, remote, cols);
    var B := AcceptedOf(remote - (s.undelivered - Elements(cols)));
    GoodSubset(s.client.tree.hierarchicalRIDs, B, AcceptedOf(remote));
    if s.client.localListDone {
      FitsSubset(s.client.tree, B, AcceptedOf(remote));
    }
  }

  lemma SplitAccepted(undelivered: set<Collection>, remote: set<Collection>, cols: seq<Collection>)
    requires undelivered <= remote && NoDup(cols) && forall c :: c in cols ==> c in undelivered
    ensures FreshChunk(AcceptedOf(remote - undelivered), cols)
    ensures var u := undelivered - Elements(cols);
      && AcceptedOf(remote - undelivered) + AcceptedSet(cols) == AcceptedOf(remote - u)
      && |remote - u| == |remote - undelivered| + |cols|
  {
    AcceptedMembers(cols);
    NoDupSize(cols);
    assert remote - (undelivered - Elements(cols)) == (remote - undelivered) + Elements(cols);
  }

  lemma {:induction false} NoDupSize<T>(s: seq<T>)
    requires NoDup(s)
    ensures |Elements(s)| == |s|
  {
    if s != [] {
      var front := s[..|s| - 1];
      NoDupSize(front);
      assert s == front + [s[|s| - 1]];
      assert Elements(s) == Elements(front) + {s[|s| - 1]};
    }
  }

  /** A delivery has been filed and is executed. */
  lemma DeliveredInv(s: System, remote: set<Collection>, cols: seq<Collection>, s2: State)
    requires Inv(s, remote) && Delivers(s, cols) && Filed(s.client, s2, cols)
    requires s2.totalAmount == s.client.totalAmount + |cols|
    requires s2.deliveryDone == !s.client.streaming && s2.streaming == s.client.streaming
    requires s.client.incremental ==> s2.incremental
    requires s2.incremental || s2.removedRemoteCollections == s.client.removedRemoteCollections
    ensures Execute(s2).incremental == s2.incremental && Execute(s2).tree == s.client.tree
    ensures Execute(s2).localListDone == s.client.localListDone
    ensures SameMode(s, System(Execute(s2), s.server, s.unlisted, s.undelivered - Elements(cols)))
    ensures Inv(System(Execute(s2), s.server, s.unlisted, s.undelivered - Elements(cols)), remote)
  {
    DeliveryExtends(s, remote, cols);
    var u := s.undelivered - Elements(cols);
    if s2.deliveryDone {
      assert remote - u == remote;
    }
    ChunkOk(s.client, s2, Seen(s, remote), cols);
  }

  /** A delivery is first filed, then executed. */
  ghost predicate FiledThenExecuted(c: State, cols: seq<Collection>, c': State, s2: State) {
    && Filed(c, s2, cols) && c' == Execute(s2)
    && s2.totalAmount == c.totalAmount + |cols| && s2.deliveryDone == (c.deliveryDone || !c.streaming)
    && s2.streaming == c.streaming && (c.incremental ==> s2.incremental)
    && (s2.incremental || s2.removedRemoteCollections == c.removedRemoteCollections)
  }

  lemma ChunkFiles(c: State, cols: seq<Collection>) returns (s2: State)
    ensures FiledThenExecuted(c, cols, SetRemoteCollections(c, cols), s2)
    ensures s2.incremental == c.incremental && s2.removedRemoteCollections == c.removedRemoteCollections
  {
    var s0 := c.(totalAmount := c.totalAmount + |cols|);
    SameNodesFiled(c, s0, cols);
    var s1 := CreateRemoteNodes(s0, cols);
    s2 := if c.streaming then s1 else s1.(deliveryDone := true);
  }

  lemma ChangesFile(c: State, cols: seq<Collection>, removed: seq<Collection>) returns (s2: State)
    ensures FiledThenExecuted(c, cols, SetRemoteChanges(c, cols, removed), s2) && s2.incremental
    ensures s2.removedRemoteCollections == c.removedRemoteCollections + removed
  {
    var s0 := c.(totalAmount := c.totalAmount + |cols|, incremental := true);
    SameNodesFiled(c, s0, cols);
    var s1 := CreateRemoteNodes(s0, cols);
    s2 := s1.(removedRemoteCollections := s1.removedRemoteCollections + removed);
    if !c.streaming {
      s2 := s2.(deliveryDone := true);
    }
  }

  lemma ChunkInv(s: System, s': System, remote: set<Collection>, cols: seq<Collection>)
    requires Inv(s, remote) && Chunk(s, s', cols)
    ensures Inv(s', remote) && SameMode(s, s') && SameLocal(s, s')
  {
    var s2 := ChunkFiles(s.client, cols);
    DeliveredInv(s, remote, cols, s2);
  }

  lemma ChangesInv(s: System, s': System, remote: set<Collection>, cols: seq<Collection>, removed: seq<Collection>)
    requires Inv(s, remote) && Changes(s, s', cols, removed)
    ensures Inv(s', remote) && SameMode(s, s') && SameLocal(s, s') && s'.client.incremental
  {
    var s2 := ChangesFile(s.client, cols, removed);
    DeliveredInv(s, remote, cols, s2);
  }

  /** Filing remote nodes looks at the waiting lists only. */
  lemma {:induction false} SameNodesFiled(s: State, t: State, cols: seq<Collection>)
    requires s.pendingRemoteNodes == t.pendingRemoteNodes
    ensures CreateRemoteNodes(s, cols).pendingRemoteNodes == CreateRemoteNodes(t, cols).pendingRemoteNodes
    ensures CreateRemoteNodes(t, cols) == t.(pendingRemoteNodes := CreateRemoteNodes(t, cols).pendingRemoteNodes)
  {
    if cols != [] {
      SameNodesFiled(s, t, cols[..|cols| - 1]);
    }
  }

  lemma DeliveryEndsInv(s: System, s': System, remote: set<Collection>)
    requires Inv(s, remote) && DeliveryEnds(s, s')
    ensures Inv(s', remote) && SameMode(s, s') && SameLocal(s, s')
  {
    NothingFiled(s.client);
    assert Seen(s, remote) + {} == Seen(s, remote);
    assert remote - s.undelivered == remote;
    ChunkOk(s.client, s.client.(deliveryDone := true), Seen(s, remote), []);
  }

  /** Announcing the end of delivery files an empty chunk. */
  lemma NothingFiled(c: State)
    ensures Filed(c, c.(deliveryDone := true), []) && AcceptedSet([]) == {}
    ensures FreshChunk({}, []) && forall A :: FreshChunk(A, [])
  {
    assert Accepted([]) == [];
  }

  /** What is still unlisted is new to the tree. */
  lemma BatchFresh(s: System, cols: seq<Collection>)
    requires ListingMatches(s) && NoDup(cols) && BatchOf(s, cols)
    ensures FreshListing(s.client.tree, cols)
  {
    forall i | 0 <= i < |cols| ensures IsNew(s.client.tree, cols[i]) {
      DepthStep(ServerParents(s.server), cols[i].Uid());
    }
    forall i, j | 0 <= i < j < |cols| ensures cols[i].id != cols[j].id {
      assert cols[i] != cols[j];
    }
  }

  /** After a batch the tree still holds what the server lists. */
  lemma BatchMatches(s: System, cols: seq<Collection>)
    requires ListOk(s.client.tree) && ListingMatches(s) && NoDup(cols) && BatchOf(s, cols)
    ensures ListingMatches(s.(client := s.client.(tree := LocalCollectionsReceived(s.client.tree, cols)),
                              unlisted := s.unlisted - ListedIds(cols)))
  {
    var t := s.client.tree;
    BatchFresh(s, cols);
    ReceivedNodes(t, cols);
    ReceivedMode(t, cols);
    var t' := LocalCollectionsReceived(t, cols);
    forall x | x in t'.localUidMap && x != ROOT_ID ensures t'.localUidMap[x].collection == Listed(s.server, x) {
      if x in ListedIds(cols) {
        var i :| 0 <= i < |cols| && cols[i].Uid() == x;
        assert Holds(t', cols[i]);
      } else {
        assert Holds(t, t.localUidMap[x].collection);
        assert Holds(t', t.localUidMap[x].collection);
      }
    }
  }

  lemma LocalBatchInv(s: System, s': System, remote: set<Collection>, cols: seq<Collection>)
    requires Inv(s, remote) && LocalBatch(s, s', cols)
    ensures Inv(s', remote) && SameMode(s, s')
  {
    BatchFresh(s, cols);
    BatchMatches(s, cols);
    LocalBatchOk(s.client, Seen(s, remote), cols);
    ReceivedMode(s.client.tree, cols);
  }

  /** The finished listing is connected and holds what the server lists. */
  lemma ListingComplete(s: System)
    requires ListOk(s.client.tree) && ListingMatches(s) && s.unlisted == {}
    ensures ListedTree(s.client.tree, s.server) && LocalParents(s.client.tree) == ServerParents(s.server)
  {
    var t := s.client.tree;
    forall x | x in t.localUidMap && x != ROOT_ID ensures Node(t, x).collection.Parent().Uid() in t.localUidMap {
      DepthStep(ServerParents(s.server), x);
    }
    NothingParkedIff(t);
    assert LocalParents(t) == ServerParents(s.server);
  }

  lemma ListedTreeOk(s: System, remote: set<Collection>)
    requires Inv(s, remote) && !s.client.localListDone && s.unlisted == {}
    ensures ListedTree(s.client.tree, s.server) && LocalParents(s.client.tree) == ServerParents(s.server)
    ensures Fits(s.client.tree, AcceptedOf(remote)) && Closed(s.client.tree, AcceptedOf(remote))
  {
    ListingComplete(s);
  }

  lemma LocalDoneInv(s: System, s': System, remote: set<Collection>)
    requires Inv(s, remote) && LocalDone(s, s')
    ensures Inv(s', remote) && SameMode(s, s')
  {
    ListedTreeOk(s, remote);
    FitsSubset(s.client.tree, Seen(s, remote), AcceptedOf(remote));
    LocalDoneOk(s.client, Seen(s, remote));
  }

  lemma JobsOnlyAfterListing(s: System, remote: set<Collection>)
    requires Inv(s, remote) && (|s.client.jobs| > 0 || |s.client.moves| > 0)
    ensures s.client.localListDone
  {
  }

  /** The listing as a whole still fits and is closed when one of its collections was created. */
  lemma CreateFits(c: State, A: set<Collection>, U: set<Collection>, j: Job, x: Id)
    requires Syncing(c, A) && A <= U && Fits(c.tree, U) && Closed(c.tree, U)
    requires j in c.jobs && j.Create? && x != ROOT_ID && x !in c.tree.localUidMap
    ensures Fits(CreateRecorded(c, j, x).tree, U) && Closed(CreateRecorded(c, j, x).tree, U)
  {
    RecordedGrows(c, A, j, x);
    assert CreatesRightly(c.tree, c.jobs, A, j);
    FitsGrown(c.tree, U, j.localParent, j.remote, x);
    ClosedGrown(c.tree, U, j.localParent, j.remote, x);
  }

  lemma CreateInv(s: System, s': System, remote: set<Collection>, j: Job, x: Id)
    requires Inv(s, remote) && CreateFinishes(s, s', j, x)
    ensures Inv(s', remote) && SameMode(s, s')
  {
    JobsOnlyAfterListing(s, remote);
    var A := Seen(s, remote);
    RecordedOpens(s.client, A, j, x);
    CreateFits(s.client, A, AcceptedOf(remote), j, x);
    if s.client.tree.hierarchicalRIDs {
      CreateDoneHierarchical(s.client, A, j, x);
    } else {
      CreateDoneGlobal(s.client, A, j, x);
    }
  }

  lemma JobInv(s: System, s': System, remote: set<Collection>, j: Job)
    requires Inv(s, remote) && (ModifyFinishes(s, s', j) || DeleteFinishes(s, s', j))
    ensures Inv(s', remote) && SameMode(s, s')
  {
    JobsOnlyAfterListing(s, remote);
    JobDoneOk(s.client, Seen(s, remote), j);
  }

  lemma MoveInv(s: System, s': System, remote: set<Collection>, m: Move)
    requires Inv(s, remote) && MoveFinishes(s, s', m)
    ensures Inv(s', remote) && SameMode(s, s')
  {
    JobsOnlyAfterListing(s, remote);
    MoveDoneOk(s.client, Seen(s, remote), m);
  }

  /** Every step keeps the invariant, in either mode. */
  lemma StepInv(s: System, s': System, remote: set<Collection>)
    requires Inv(s, remote) && Step(s, s')
    ensures Inv(s', remote) && SameMode(s, s')
  {
    if cols :| LocalBatch(s, s', cols) {
      LocalBatchInv(s, s', remote, cols);
    } else if LocalDone(s, s') {
      LocalDoneInv(s, s', remote);
    } else if cols :| Chunk(s, s', cols) {
      ChunkInv(s, s', remote, cols);
    } else if cols, removed :| Changes(s, s', cols, removed) {
      ChangesInv(s, s', remote, cols, removed);
    } else if DeliveryEnds(s, s') {
      DeliveryEndsInv(s, s', remote);
    } else if j :| ModifyFinishes(s, s', j) {
      JobInv(s, s', remote, j);
    } else if j :| DeleteFinishes(s, s', j) {
      JobInv(s, s', remote, j);
    } else if m :| MoveFinishes(s, s', m) {
      MoveInv(s, s', remote, m);
    } else {
      var j, x :| CreateFinishes(s, s', j, x);
      CreateInv(s, s', remote, j, x);
    }
  }

  lemma {:induction false} RunInv(run: seq<System>, remote: set<Collection>, i: nat)
    requires Run(run, remote) && i < |run|
    ensures Inv(run[i], remote)
  {
    if i == 0 {
      InitInv(run[0], remote);
    } else {
      RunInv(run, remote, i - 1);
      StepInv(run[i - 1], run[i], remote);
    }
  }

  lemma RunStep(run: seq<System>, remote: set<Collection>, i: nat)
    requires Run(run, remote) && i < |run| - 1
    ensures Inv(run[i], remote) && Step(run[i], run[i + 1]) && SameMode(run[i], run[i + 1])
  {
    RunInv(run, remote, i);
    StepInv(run[i], run[i + 1], remote);
  }

  lemma {:induction false} RunMode(run: seq<System>, remote: set<Collection>, i: nat)
    requires Run(run, remote) && i < |run|
    ensures run[i].client.tree.hierarchicalRIDs == run[0].client.tree.hierarchicalRIDs
  {
    if i > 0 {
      RunMode(run, remote, i - 1);
      RunStep(run, remote, i - 1);
    }
  }

  lemma LocalDoneSame(s: System, s': System, remote: set<Collection>)
    requires Inv(s, remote) && LocalDone(s, s')
    ensures s'.client.tree == s.client.tree && s'.client.localListDone
  {
    ListedTreeOk(s, remote);
    FitsSubset(s.client.tree, Seen(s, remote), AcceptedOf(remote));
    LocalDoneOk(s.client, Seen(s, remote));
  }
}
