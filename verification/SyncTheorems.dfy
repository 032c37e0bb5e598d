/** The main results about whole synchronisation runs. */
module SyncTheorems {
  import opened Collections
  import opened Trees
  import opened SyncState
  import opened SyncListing
  import opened SyncMatching
  import opened SyncGrowth
  import opened SyncLedger
  import opened SyncRun
  import opened SyncDeletion
  import opened SyncContent
  import opened SyncSystem
  import opened SyncSteps
  import opened SyncConvergence

  // ------------------------------------------------------------------ the server at the end

  /** The server stores x at the end of a path of remote ids. */
  ghost predicate StoredAt(server: Server, x: Id, p: Path)
    decreases |p|
  {
    if p == [] then x == ROOT_ID
    else x in server && server[x].remoteId == p[|p| - 1] && StoredAt(server, server[x].parent, p[..|p| - 1])
  }

  /** The server stores x where some accepted collection is. */
  ghost predicate StoredAsListed(server: Server, A: set<Collection>, x: Id) {
    exists c :: c in A && StoredAt(server, x, PathOf(c))
  }

  /** The server stores every listed path once, with the listed names; a display attribute the
      local collection had is kept, otherwise the listed one is stored. */
  ghost predicate HoldsRemote(t: Tree, server: Server, A: set<Collection>) {
    && (forall c :: c in A ==> exists x :: StoredAt(server, x, PathOf(c)))
    && (forall x, y, c :: c in A && StoredAt(server, x, PathOf(c)) && StoredAt(server, y, PathOf(c)) ==> x == y)
    && (forall x, c :: c in A && StoredAt(server, x, PathOf(c)) ==>
          x in server && ContentOk(server[x], Node(t, x).collection, c))
  }

  /** And it stores nothing else. */
  ghost predicate ServerIsRemote(t: Tree, server: Server, A: set<Collection>) {
    HoldsRemote(t, server, A) && forall x :: x in server ==> StoredAsListed(server, A, x)
  }

  /** What holds when a full hierarchical sync has committed. */
  ghost predicate Finished(s: State, server: Server, A: set<Collection>) {
    && Syncing(s, A) && s.tree.hierarchicalRIDs && ClosedListing(true, A)
    && Converging(s, server, A) && s.deliveryDone && s.jobs == multiset{}
  }

  /** Processed are exactly the root and what is matched. */
  lemma ProcessedIffMatched(s: State, A: set<Collection>, x: Id)
    requires Syncing(s, A)
    ensures x in s.processed <==> x == ROOT_ID || MatchedBy(s.tree, A, x)
  {
    if c :| c in A && Match(s.tree, c) == Some(x) {
      assert Settled(s, s.jobs, c);
    }
    assert x in s.processed && x != ROOT_ID ==> MatchedBy(s.tree, A, x);
  }

  lemma SparedUnprocessed(s: State, A: set<Collection>, x: Id)
    requires Syncing(s, A) && s.tree.hierarchicalRIDs && ClosedListing(true, A) && Spared(s.tree, s.processed, x)
    ensures x !in s.processed
  {
    var y :| Lost(s.tree, s.processed, y) && Below(s.tree, x, y);
    if x in s.processed {
      AncestorProcessed(s, A, x, y);
      assert false;
    }
  }

  /** At the end the server's collections are the processed and the spared ones. */
  lemma ServerIs(s: State, server: Server, A: set<Collection>, x: Id)
    requires Finished(s, server, A)
    ensures x in server <==>
      (x in s.processed && x != ROOT_ID) || (x in s.tree.localUidMap && Spared(s.tree, s.processed, x))
    ensures x in server && x !in s.processed ==> server[x] == AsListed(s.tree, x)
  {
    if x in server {
      assert Explained(s.tree, s.processed, s.jobs, x);
      ProcessedIffMatched(s, A, x);
    }
    if x in s.tree.localUidMap && Spared(s.tree, s.processed, x) {
      SparedIsNode(s.tree, s.processed, x);
    }
  }

  /** A matched collection is stored under its own remote id, below what its parent matches. */
  lemma MatchIsStored(s: State, server: Server, A: set<Collection>, c: Collection)
    requires Finished(s, server, A) && c in A && Match(s.tree, c).Some?
    ensures var x := Match(s.tree, c).value;
      && x in server && server[x].remoteId == c.Rid() && MatchParent(s.tree, c) == Some(server[x].parent)
      && ContentOk(server[x], Node(s.tree, x).collection, c)
  {
    MatchedAlive(s, server, A, c);
    MatchPlace(s.tree, c);
    assert Stored(s.tree, s.jobs, StoredOf(s.tree, server, A), c);
  }

  lemma {:induction false} ListedIsStored(s: State, server: Server, A: set<Collection>, c: Collection)
    requires Finished(s, server, A) && c in A
    ensures Match(s.tree, c).Some? && StoredAt(server, Match(s.tree, c).value, PathOf(c))
    decreases |PathOf(c)|
  {
    CompleteIsClosed(s.tree, A);
    NothingStuck(s, s.jobs, A);
    MatchIsStored(s, server, A, c);
    assert PathOf(c)[..|PathOf(c)| - 1] == PathOf(c.parent);
    if !c.Parent().IsRoot() {
      var d :| d in A && PathOf(d) == PathOf(c.Parent());
      ListedIsStored(s, server, A, d);
      ListedInChains(A, c);
      ListedInChains(A, d);
      assert AgreeAt(s.tree, d, c.parent);
    }
  }

  /** What is stored at a listed path is what the listed collection matches. */
  lemma {:induction false} StoredIsMatched(s: State, server: Server, A: set<Collection>, x: Id, c: Collection)
    requires Finished(s, server, A) && c in A && StoredAt(server, x, PathOf(c))
    ensures Match(s.tree, c) == Some(x)
    decreases |PathOf(c)|
  {
    var t := s.tree;
    assert PathOf(c)[..|PathOf(c)| - 1] == PathOf(c.parent);
    ListedInChains(A, c);
    var p := server[x].parent;
    if !c.Parent().IsRoot() {
      var d :| d in A && PathOf(d) == PathOf(c.Parent());
      StoredIsMatched(s, server, A, p, d);
      ListedInChains(A, d);
      assert AgreeAt(t, d, c.parent);
    }
    assert MatchParent(t, c) == Some(p);
    MatchParentProcessed(s, A, c);
    ServerIs(s, server, A, x);
    if x in s.processed {
      ProcessedIffMatched(s, A, x);
      var e :| e in A && Match(t, e) == Some(x);
      MatchIsStored(s, server, A, e);
      ListedInChains(A, e);
      SameParents(t, A, e, c);
      SamePathSteps(e, c);
      assert AgreeAt(t, e, c);
    } else {
      SparedParent(s, server, A, x);
    }
  }

  /** Below a processed collection, only collections without remote id are spared. */
  lemma SparedParent(s: State, server: Server, A: set<Collection>, x: Id)
    requires Finished(s, server, A) && x in server && x !in s.processed && server[x].parent in s.processed
    ensures server[x].remoteId == "" && Lost(s.tree, s.processed, x)
  {
    ServerIs(s, server, A, x);
    var y :| Lost(s.tree, s.processed, y) && Below(s.tree, x, y);
    LocalStep(s.tree, x);
    UnderStep(LocalParents(s.tree), x, y);
    if x != y {
      AncestorProcessed(s, A, server[x].parent, y);
      assert false;
    }
  }

  lemma FinishedHolds(s: State, server: Server, A: set<Collection>)
    requires Finished(s, server, A)
    ensures HoldsRemote(s.tree, server, A)
  {
    forall c | c in A ensures exists x :: StoredAt(server, x, PathOf(c)) {
      ListedIsStored(s, server, A, c);
    }
    forall x, y, c | c in A && StoredAt(server, x, PathOf(c)) && StoredAt(server, y, PathOf(c)) ensures x == y {
      StoredIsMatched(s, server, A, x, c);
      StoredIsMatched(s, server, A, y, c);
    }
    forall x, c | c in A && StoredAt(server, x, PathOf(c))
      ensures x in server && ContentOk(server[x], Node(s.tree, x).collection, c)
    {
      StoredIsMatched(s, server, A, x, c);
      MatchIsStored(s, server, A, c);
    }
  }

  /** What is not stored as listed is what was spared. */
  lemma StoredOrSpared(s: State, server: Server, A: set<Collection>, x: Id)
    requires Finished(s, server, A) && x in server
    ensures StoredAsListed(server, A, x) <==> !Spared(s.tree, s.processed, x)
  {
    ServerIs(s, server, A, x);
    ProcessedIffMatched(s, A, x);
    if Spared(s.tree, s.processed, x) {
      SparedUnprocessed(s, A, x);
      forall c | c in A ensures !StoredAt(server, x, PathOf(c)) {
        if StoredAt(server, x, PathOf(c)) {
          StoredIsMatched(s, server, A, x, c);
          assert MatchedBy(s.tree, A, x);
          assert false;
        }
      }
    } else {
      var c :| c in A && Match(s.tree, c) == Some(x);
      ListedIsStored(s, server, A, c);
    }
  }

  // ------------------------------------------------------------------ back to the beginning

  /** t has grown out of t0: what is new matches something, and what is old matches as before. */
  ghost predicate GrownFrom(t0: Tree, t: Tree, A: set<Collection>) {
    && (forall x :: x in t0.localUidMap ==>
          x in t.localUidMap && t.localUidMap[x].collection == t0.localUidMap[x].collection)
    && (forall x {:trigger MatchedBy(t, A, x)} :: x in t.localUidMap && x !in t0.localUidMap ==> MatchedBy(t, A, x))
    && (forall c {:trigger SameOldMatch(t0, t, c)} :: c in A ==> SameOldMatch(t0, t, c))
  }

  ghost predicate SameOldMatch(t0: Tree, t: Tree, c: Collection) {
    && (Match(t0, c).Some? ==> Match(t, c) == Match(t0, c))
    && (Match(t, c).Some? && Match(t, c).value in t0.localUidMap ==> Match(t0, c) == Match(t, c))
  }

  lemma GrownLeaf(t0: Tree, t: Tree, A: set<Collection>, p: Id, r: Collection, x: Id)
    requires GrownFrom(t0, t, A) && TreeOk(t) && t.hierarchicalRIDs && Fits(t, A) && r in A && CanCreate(t, p, r, x)
    ensures GrownFrom(t0, CreateLocalNode(t, Created(t, p, r, x)), A)
  {
    var t' := CreateLocalNode(t, Created(t, p, r, x));
    LeafMaps(t, p, r, x);
    forall c | c in A ensures Match(t', c) == (if c == r then Some(x) else Match(t, c)) && SameOldMatch(t0, t', c) {
      GrownMatch(t, A, p, r, x, c);
      assert SameOldMatch(t0, t, c);
    }
    forall y | y in t'.localUidMap && y !in t0.localUidMap ensures MatchedBy(t', A, y) {
      if y == x {
        assert Match(t', r) == Some(x);
      } else {
        assert MatchedBy(t, A, y);
        var c :| c in A && Match(t, c) == Some(y);
        assert Match(t', c) == Some(y);
      }
    }
  }

  /** Where the sync's tree came from. */
  ghost predicate Origin(server0: Server, s: System, A: set<Collection>) {
    if !s.client.localListDone then s.server == server0
    else exists t0: Tree :: t0.hierarchicalRIDs && ListedTree(t0, server0) && GrownFrom(t0, s.client.tree, A)
  }

  lemma SameTreeOrigin(server0: Server, s: System, s': System, A: set<Collection>)
    requires Origin(server0, s, A) && s.client.localListDone && s'.client.localListDone
    requires s'.client.tree == s.client.tree
    ensures Origin(server0, s', A)
  {
    var t0: Tree :| t0.hierarchicalRIDs && ListedTree(t0, server0) && GrownFrom(t0, s.client.tree, A);
    assert GrownFrom(t0, s'.client.tree, A);
  }

  lemma CreateOrigin(server0: Server, s: System, s': System, remote: set<Collection>, j: Job, x: Id)
    requires Inv(s, remote) && Origin(server0, s, AcceptedOf(remote)) && s.client.tree.hierarchicalRIDs
    requires s.client.localListDone && CreateFinishes(s, s', j, x)
    ensures Origin(server0, s', AcceptedOf(remote))
  {
    var A := AcceptedOf(remote);
    var t := s.client.tree;
    var t0: Tree :| t0.hierarchicalRIDs && ListedTree(t0, server0) && GrownFrom(t0, t, A);
    RecordedGrows(s.client, Seen(s, remote), j, x);
    assert CreatesRightly(t, s.client.jobs, Seen(s, remote), j);
    GrownLeaf(t0, t, A, j.localParent, j.remote, x);
    CreateDoneHierarchical(s.client, Seen(s, remote), j, x);
    assert GrownFrom(t0, s'.client.tree, A);
  }

  lemma JobOrigin(server0: Server, s: System, s': System, remote: set<Collection>)
    requires Inv(s, remote) && Origin(server0, s, AcceptedOf(remote)) && s.client.tree.hierarchicalRIDs
    requires s.client.localListDone && JobStep(s, s')
    ensures Origin(server0, s', AcceptedOf(remote))
  {
    var r := ResultOf(s, s');
    if r.CreateResult? {
      CreateOrigin(server0, s, s', remote, r.job, r.id);
    } else {
      OtherResultKeepsTree(s, s', r);
      SameTreeOrigin(server0, s, s', AcceptedOf(remote));
    }
  }

  lemma OtherResultKeepsTree(s: System, s': System, r: Result)
    requires Brings(s, s', r) && !r.CreateResult?
    ensures s'.client.tree == s.client.tree && s'.client.localListDone == s.client.localListDone
  {
    if r.PlainResult? {
      FinishedIs(s.client, r.job);
    } else {
      MovedIs(s.client, r.move);
    }
  }

  lemma DeliveryOrigin(server0: Server, s: System, s': System, remote: set<Collection>)
    requires Inv(s, remote) && Origin(server0, s, AcceptedOf(remote)) && s.client.localListDone && DeliveryStep(s, s')
    ensures Origin(server0, s', AcceptedOf(remote))
  {
    if cols :| Chunk(s, s', cols) {
      ChunkInv(s, s', remote, cols);
    } else if cols, removed :| Changes(s, s', cols, removed) {
      ChangesInv(s, s', remote, cols, removed);
    } else {
      DeliveryEndsInv(s, s', remote);
    }
    SameTreeOrigin(server0, s, s', AcceptedOf(remote));
  }

  /** The tree as it was listed has grown out of itself. */
  lemma ListedOrigin(server0: Server, s: System, s': System, remote: set<Collection>)
    requires Inv(s, remote) && Origin(server0, s, AcceptedOf(remote)) && s.client.tree.hierarchicalRIDs
    requires LocalDone(s, s')
    ensures Origin(server0, s', AcceptedOf(remote))
  {
    ListedTreeOk(s, remote);
    LocalDoneSame(s, s', remote);
    var t := s'.client.tree;
    forall c | c in AcceptedOf(remote) ensures SameOldMatch(t, t, c) {
    }
    assert GrownFrom(t, t, AcceptedOf(remote));
  }

  lemma StepOrigin(server0: Server, s: System, s': System, remote: set<Collection>)
    requires Inv(s, remote) && Origin(server0, s, AcceptedOf(remote)) && s.client.tree.hierarchicalRIDs && Step(s, s')
    ensures Origin(server0, s', AcceptedOf(remote))
  {
    if s.client.localListDone {
      if JobStep(s, s') {
        JobOrigin(server0, s, s', remote);
      } else {
        DeliveryOrigin(server0, s, s', remote);
      }
    } else {
      ServerStays(s, s', remote);
      if s'.client.localListDone {
        ListingStep(s, s', remote);
        ListedOrigin(server0, s, s', remote);
      }
    }
  }

  /** In the beginning: y is stored without remote id, nothing accepted matches it, but its parent
      is the root or is matched. */
  ghost predicate LostAtStart(t0: Tree, server0: Server, A: set<Collection>, y: Id) {
    && y in server0 && server0[y].remoteId == "" && !MatchedBy(t0, A, y)
    && (server0[y].parent == ROOT_ID || MatchedBy(t0, A, server0[y].parent))
  }

  ghost predicate SparedAtStart(t0: Tree, server0: Server, A: set<Collection>, x: Id) {
    x in server0 && exists y :: LostAtStart(t0, server0, A, y) && Under(ServerParents(server0), x, y)
  }

  /** Old collections match the same as in the beginning. */
  lemma OldMatched(t0: Tree, t: Tree, A: set<Collection>, x: Id)
    requires GrownFrom(t0, t, A) && x in t0.localUidMap
    ensures MatchedBy(t, A, x) <==> MatchedBy(t0, A, x)
  {
    if c :| c in A && Match(t, c) == Some(x) {
      assert SameOldMatch(t0, t, c);
    }
    if c :| c in A && Match(t0, c) == Some(x) {
      assert SameOldMatch(t0, t, c);
    }
  }

  lemma MatchedNotRoot(t: Tree, A: set<Collection>)
    requires TreeOk(t) && GoodListing(t.hierarchicalRIDs, A)
    ensures !MatchedBy(t, A, ROOT_ID)
  {
    forall c | c in A ensures Match(t, c) != Some(ROOT_ID) {
      MatchIsNode(t, A, c);
    }
  }

  lemma LostIff(s: State, A: set<Collection>, t0: Tree, server0: Server, y: Id)
    requires Syncing(s, A) && s.tree.hierarchicalRIDs && t0.hierarchicalRIDs
    requires ListedTree(t0, server0) && GrownFrom(t0, s.tree, A)
    ensures Lost(s.tree, s.processed, y) <==> LostAtStart(t0, server0, A, y)
  {
    MatchedNotRoot(t0, A);
    MatchedNotRoot(s.tree, A);
    ProcessedIffMatched(s, A, y);
    if y in server0 {
      var p := server0[y].parent;
      LocalStep(t0, y);
      OldMatched(t0, s.tree, A, y);
      OldMatched(t0, s.tree, A, p);
      ProcessedIffMatched(s, A, p);
    }
  }

  lemma OldBelow(t0: Tree, t: Tree, A: set<Collection>, server0: Server, x: Id, y: Id)
    requires ListedTree(t0, server0) && GrownFrom(t0, t, A) && TreeOk(t) && x in server0
    ensures Below(t, x, y) <==> Under(ServerParents(server0), x, y)
  {
    forall z | z in server0
      ensures z in LocalParents(t) && LocalParents(t)[z] == server0[z].parent
      ensures server0[z].parent == ROOT_ID || server0[z].parent in server0
    {
      LocalStep(t0, z);
    }
    UnderRestrict(LocalParents(t), ServerParents(server0), x, y);
  }

  lemma SparedIff(s: State, A: set<Collection>, t0: Tree, server0: Server, x: Id)
    requires Syncing(s, A) && s.tree.hierarchicalRIDs && ClosedListing(true, A) && t0.hierarchicalRIDs
    requires ListedTree(t0, server0) && GrownFrom(t0, s.tree, A)
    ensures x in s.tree.localUidMap && Spared(s.tree, s.processed, x) <==> SparedAtStart(t0, server0, A, x)
  {
    var t := s.tree;
    if x in t.localUidMap && Spared(t, s.processed, x) {
      SparedUnprocessed(s, A, x);
      SparedIsNode(t, s.processed, x);
      ProcessedIffMatched(s, A, x);
      var y :| Lost(t, s.processed, y) && Below(t, x, y);
      LostIff(s, A, t0, server0, y);
      OldBelow(t0, t, A, server0, x, y);
    }
    if SparedAtStart(t0, server0, A, x) {
      var y :| LostAtStart(t0, server0, A, y) && Under(ServerParents(server0), x, y);
      LostIff(s, A, t0, server0, y);
      OldBelow(t0, t, A, server0, x, y);
    }
  }

  // ------------------------------------------------------------------ convergence

  /** How the server ends: it holds exactly the listed paths and, as they were, the collections at
      or below those that were lost from the beginning. */
  ghost predicate Converged(t0: Tree, server0: Server, t: Tree, server: Server, A: set<Collection>) {
    && HoldsRemote(t, server, A)
    && (forall x :: x in server ==> (StoredAsListed(server, A, x) <==> !SparedAtStart(t0, server0, A, x)))
    && (forall x :: SparedAtStart(t0, server0, A, x) ==> x in server && server[x] == server0[x])
  }

  lemma FinishedConverged(s: State, server: Server, A: set<Collection>, t0: Tree, server0: Server)
    requires Finished(s, server, A) && t0.hierarchicalRIDs
    requires ListedTree(t0, server0) && GrownFrom(t0, s.tree, A)
    ensures Converged(t0, server0, s.tree, server, A)
  {
    FinishedHolds(s, server, A);
    forall x | x in server ensures StoredAsListed(server, A, x) <==> !SparedAtStart(t0, server0, A, x) {
      StoredOrSpared(s, server, A, x);
      SparedIff(s, A, t0, server0, x);
    }
    forall x | SparedAtStart(t0, server0, A, x) ensures x in server && server[x] == server0[x] {
      SparedIff(s, A, t0, server0, x);
      SparedUnprocessed(s, A, x);
      ServerIs(s, server, A, x);
    }
  }

  lemma {:induction false} RunConv(run: seq<System>, remote: set<Collection>, i: nat)
    requires Run(run, remote) && i < |run|
    requires run[0].client.tree.hierarchicalRIDs ==> ClosedListing(true, AcceptedOf(remote))
    ensures ConvInv(run[i], remote)
  {
    if i == 0 {
      InitConv(run[0], remote);
    } else {
      RunConv(run, remote, i - 1);
      StepConv(run[i - 1], run[i], remote);
    }
  }

  lemma NextOrigin(run: seq<System>, remote: set<Collection>, i: nat)
    requires Run(run, remote) && i < |run| - 1 && run[0].client.tree.hierarchicalRIDs
    requires Origin(run[0].server, run[i], AcceptedOf(remote))
    ensures Origin(run[0].server, run[i + 1], AcceptedOf(remote))
  {
    RunMode(run, remote, i);
    RunStep(run, remote, i);
    StepOrigin(run[0].server, run[i], run[i + 1], remote);
  }

  lemma {:induction false} RunOrigin(run: seq<System>, remote: set<Collection>, i: nat)
    requires Run(run, remote) && i < |run| && run[0].client.tree.hierarchicalRIDs
    ensures Origin(run[0].server, run[i], AcceptedOf(remote))
  {
    if i > 0 {
      RunOrigin(run, remote, i - 1);
      NextOrigin(run, remote, i - 1);
    }
  }

  /** The local tree as it was listed in this run. */
  ghost predicate ListedFirst(run: seq<System>, t0: Tree)
    requires run != []
  {
    t0.hierarchicalRIDs && ListedTree(t0, run[0].server)
  }

  /** Convergence: whatever the interleaving, a full sync of a complete listing with hierarchical
      remote ids that commits leaves the server with exactly the accepted remote tree and the
      collections spared from the beginning. */
  lemma Convergence(run: seq<System>, remote: set<Collection>, i: nat) returns (t0: Tree)
    requires Run(run, remote) && i < |run|
    requires FullHierarchical(run[i]) && Committed in run[i].client.outcomes
    requires ClosedListing(true, AcceptedOf(remote))
    ensures ListedFirst(run, t0)
    ensures Converged(t0, run[0].server, run[i].client.tree, run[i].server, AcceptedOf(remote))
  {
    RunMode(run, remote, i);
    RunConv(run, remote, i);
    RunOrigin(run, remote, i);
    var s := run[i];
    SeenAll(s, remote);
    assert s.client.jobs == multiset{} by {
      assert |s.client.jobs| == 0;
    }
    t0 :| t0.hierarchicalRIDs && ListedTree(t0, run[0].server) && GrownFrom(t0, s.client.tree, AcceptedOf(remote));
    FinishedConverged(s.client, s.server, AcceptedOf(remote), t0, run[0].server);
  }

  /** So the server ends as the remote tree and nothing else exactly when, in the beginning, every
      collection without remote id whose parent is matched is matched itself. */
  lemma ConvergesIff(t0: Tree, server0: Server, t: Tree, server: Server, A: set<Collection>)
    requires Converged(t0, server0, t, server, A)
    ensures ServerIsRemote(t, server, A) <==> forall y :: !LostAtStart(t0, server0, A, y)
  {
    forall y | LostAtStart(t0, server0, A, y) ensures SparedAtStart(t0, server0, A, y) {
      UnderRefl(ServerParents(server0), y);
    }
  }

  // ------------------------------------------------------------------ outcomes

  /** In either mode, the outcome is never an error, and the commit comes at most once and
      exactly when everything is delivered and no job is in flight. */
  lemma OutcomeIsCommit(run: seq<System>, remote: set<Collection>, i: nat)
    requires Run(run, remote) && i < |run|
    ensures var c := run[i].client;
      c.outcomes ==
        if c.localListDone && c.deliveryDone && c.jobs == multiset{} && c.moves == multiset{} then [Committed] else []
  {
    RunInv(run, remote, i);
    var c := run[i].client;
    if c.localListDone {
      assert |c.jobs| == 0 <==> c.jobs == multiset{};
      assert |c.moves| == 0 <==> c.moves == multiset{};
    }
  }

  /** After the commit nothing happens any more. */
  lemma CommitIsFinal(run: seq<System>, remote: set<Collection>, i: nat)
    requires Run(run, remote) && i < |run| && Committed in run[i].client.outcomes
    ensures i == |run| - 1
  {
    RunInv(run, remote, i);
    if i < |run| - 1 {
      NoStepAfterCommit(run[i], run[i + 1], remote);
    }
  }

  lemma NoStepAfterCommit(s: System, s': System, remote: set<Collection>)
    requires Inv(s, remote) && Committed in s.client.outcomes
    ensures !Step(s, s')
  {
    CommittedIdle(s, remote);
    NoStepWhenIdle(s, s');
  }

  lemma CommittedIdle(s: System, remote: set<Collection>)
    requires Inv(s, remote) && Committed in s.client.outcomes
    ensures s.client.localListDone && s.client.deliveryDone && s.client.jobs == multiset{}
        && s.client.moves == multiset{}
  {
    assert |s.client.jobs| == 0 && |s.client.moves| == 0;
  }

  lemma NoStepWhenIdle(s: System, s': System)
    requires s.client.localListDone && s.client.deliveryDone && s.client.jobs == multiset{}
        && s.client.moves == multiset{}
    ensures !DeliveryStep(s, s') && !JobStep(s, s')
  {
  }

  /** Conservation, in either mode: the job counter equals the jobs in flight; at commit every
      accepted collection was updated or created exactly once, progress is the number of
      accepted collections plus deletions, and the total exceeds it by what was skipped. */
  lemma Conservation(run: seq<System>, remote: set<Collection>, i: nat)
    requires Run(run, remote) && i < |run|
    ensures var c := run[i].client;
      && c.pendingJobs == |c.jobs| + |c.moves|
      && (forall r :: c.handled[r] <= if r in AcceptedOf(remote) then 1 else 0)
      && (Committed in c.outcomes ==>
            && c.handled == multiset(AcceptedOf(remote))
            && c.progress == |AcceptedOf(remote)| + |c.deleted|
            && c.totalAmount - c.progress == |remote| - |AcceptedOf(remote)|)
  {
    RunInv(run, remote, i);
    var s := run[i];
    var c := s.client;
    var A := Seen(s, remote);
    assert A <= AcceptedOf(remote);
    if c.localListDone {
      forall r ensures c.handled[r] <= if r in AcceptedOf(remote) then 1 else 0 {
        assert HandledAt(c.tree, c.handled, A, r);
      }
    }
    if Committed in c.outcomes {
      SeenAll(s, remote);
      CommitHandled(s, remote);
    }
  }

  lemma CommitHandled(s: System, remote: set<Collection>)
    requires Inv(s, remote) && Committed in s.client.outcomes
    ensures s.client.handled == multiset(AcceptedOf(remote)) && s.client.jobs == multiset{}
    ensures s.client.totalAmount == |remote| + |s.client.deleted|
  {
    var c := s.client;
    SeenAll(s, remote);
    assert remote - s.undelivered == remote;
    assert |c.jobs| == 0;
    assert c.jobs == multiset{};
    NothingStuck(c, c.jobs, AcceptedOf(remote));
    forall r ensures c.handled[r] == multiset(AcceptedOf(remote))[r] {
      assert HandledAt(c.tree, c.handled, AcceptedOf(remote), r);
    }
  }

  // ------------------------------------------------------------------ nothing is stuck

  /** After every step once the local listing is done, a waiting collection and its parent are
      both missing, and it waits where it belongs: with hierarchical remote ids at the deepest
      existing node of its path, and all its ancestors with a match are on that path; otherwise
      at the root with its parent's remote id unknown. */
  lemma WaitsWhereItBelongs(run: seq<System>, remote: set<Collection>, i: nat, n: Id, c: Collection)
    requires Run(run, remote) && i < |run| && run[i].client.localListDone
    requires c in Waiting(run[i].client, n)
    ensures var t := run[i].client.tree;
      && c in AcceptedOf(remote) && n in t.localUidMap
      && (if t.hierarchicalRIDs then
            && n == Deepest(t, PathOf(c)) && Match(t, c).None? && Match(t, c.Parent()).None?
            && (forall b :: Above(b, c.Parent()) && Match(t, b).Some? ==> Walk(t, PathOf(b)) == Match(t, b))
          else n == ROOT_ID && c.Rid() !in t.localRidMap && c.Parent().Rid() !in t.localRidMap)
  {
    RunInv(run, remote, i);
    var s := run[i];
    var t := s.client.tree;
    assert WaitingOk(s.client, Seen(s, remote), n);
    assert WaitsRightly(t, Seen(s, remote), n, c);
    MatchIsNode(t, Seen(s, remote), c);
    if t.hierarchicalRIDs {
      BestIsDeepest(t, c);
      forall b | Above(b, c.Parent()) && Match(t, b).Some? ensures Walk(t, PathOf(b)) == Match(t, b) {
        AboveRooted(b, c.parent);
        assert !Strandable(t, c);
        WalkIsMatch(t, b);
      }
    }
  }

  /** In full hierarchical syncs no job can fail for want of its target. */
  lemma TargetsAlive(run: seq<System>, remote: set<Collection>, i: nat, j: Job)
    requires Run(run, remote) && i < |run| && FullHierarchical(run[i]) && j in run[i].client.jobs
    requires ClosedListing(true, AcceptedOf(remote))
    ensures match j
      case Create(p, _, _) => p == ROOT_ID || p in run[i].server
      case Modify(col) => col.Uid() in run[i].server
      case Delete(col) => col.Uid() in run[i].server
  {
    RunConv(run, remote, i);
    var s := run[i];
    JobsOnlyAfterListing(s, remote);
    if s.client.deliveryDone { SeenAll(s, remote); }
    if j.Create? {
      CreationParentAlive(s.client, s.server, Seen(s, remote), j);
    } else if j.Modify? {
      ModifyConverges(s.client, s.server, Seen(s, remote), j);
    } else {
      DeleteConverges(s.client, s.server, Seen(s, remote), j);
    }
  }

  // ------------------------------------------------------------------ termination

  /** Work still to be done by jobs: each unhandled collection needs at most two jobs. */
  ghost function WorkLeft(s: System, remote: set<Collection>): int {
    3 * (|AcceptedOf(remote)| - |s.client.handled|) + |s.client.jobs| + |s.client.moves|
  }

  ghost predicate LessWork(s: State, s': State) {
    && |s'.jobs| + |s'.moves| + 2 * |s.handled| < |s.jobs| + |s.moves| + 2 * |s'.handled|
    && |s.handled| <= |s'.handled|
  }

  lemma CreateWorkHierarchical(s: State, A: set<Collection>, j: Job, x: Id)
    requires Syncing(s, A) && s.tree.hierarchicalRIDs
    requires j in s.jobs && j.Create? && x != ROOT_ID && x !in s.tree.localUidMap
    ensures LessWork(s, CreateDone(s, j, x))
  {
    var r := CreateRecorded(s, j, x);
    assert |r.jobs| == |s.jobs| - 1;
    RecordedOpens(s, A, j, x);
    PassOk(r, A, j.localParent);
    PassWork(r, j.localParent);
  }

  lemma CreateWorkGlobal(s: State, A: set<Collection>, j: Job, x: Id)
    requires Syncing(s, A) && !s.tree.hierarchicalRIDs
    requires j in s.jobs && j.Create? && x != ROOT_ID && x !in s.tree.localUidMap
    ensures LessWork(s, CreateDone(s, j, x))
  {
    var r := CreateRecorded(s, j, x);
    assert |r.jobs| == |s.jobs| - 1;
    FirstPassGlobal(s, A, j, x);
    RootOpens(s, A, j, x);
    var s1 := ProcessPendingRemoteNodes(r, j.localParent);
    PassOk(s1, A, ROOT_ID);
    PassWork(s1, ROOT_ID);
  }

  lemma FirstPassGlobal(s: State, A: set<Collection>, j: Job, x: Id)
    requires Syncing(s, A) && !s.tree.hierarchicalRIDs
    requires j in s.jobs && j.Create? && x != ROOT_ID && x !in s.tree.localUidMap
    ensures var r := CreateRecorded(s, j, x); var s1 := ProcessPendingRemoteNodes(r, j.localParent);
      && |s1.jobs| + |s1.moves| + 2 * |r.handled| <= |r.jobs| + |r.moves| + 2 * |s1.handled|
      && |r.handled| <= |s1.handled|
  {
    var r := CreateRecorded(s, j, x);
    if j.localParent == ROOT_ID {
      RecordedOpens(s, A, j, x);
      PassOk(r, A, ROOT_ID);
      PassWork(r, ROOT_ID);
    } else {
      WaitsAtRoot(s, A, j.localParent);
      EmptyPass(r, j.localParent);
    }
  }

  lemma HandledBound(s: System, remote: set<Collection>)
    requires Inv(s, remote)
    ensures |s.client.handled| <= |AcceptedOf(remote)|
  {
    var c := s.client;
    if c.localListDone {
      forall r ensures c.handled[r] <= multiset(AcceptedOf(remote))[r] {
        assert HandledAt(c.tree, c.handled, Seen(s, remote), r);
      }
      MultisetSize(c.handled, multiset(AcceptedOf(remote)));
    }
  }

  lemma {:induction false} MultisetSize<T>(a: multiset<T>, b: multiset<T>)
    requires a <= b
    ensures |a| <= |b|
  {
    assert b == a + (b - a);
  }

  /** The jobs that do not create anything hand over no remote collection. */
  lemma PlainWork(c: State, j: Job)
    requires j in c.jobs
    ensures LessWork(c, JobDone(c, j))
  {
    assert |c.jobs - multiset{j}| == |c.jobs| - 1;
  }

  lemma MoveWork(c: State, m: Move)
    requires m in c.moves
    ensures LessWork(c, MoveDone(c, m))
  {
    assert |c.moves - multiset{m}| == |c.moves| - 1;
  }

  lemma CreateWork(s: System, s': System, remote: set<Collection>, j: Job, x: Id)
    requires Inv(s, remote) && CreateFinishes(s, s', j, x)
    ensures LessWork(s.client, s'.client)
  {
    JobsOnlyAfterListing(s, remote);
    if s.client.tree.hierarchicalRIDs {
      CreateWorkHierarchical(s.client, Seen(s, remote), j, x);
    } else {
      CreateWorkGlobal(s.client, Seen(s, remote), j, x);
    }
  }

  lemma JobWork(s: System, s': System, remote: set<Collection>)
    requires Inv(s, remote) && JobStep(s, s')
    ensures LessWork(s.client, s'.client)
  {
    var r := ResultOf(s, s');
    match r
    case PlainResult(j) => PlainWork(s.client, j);
    case MoveResult(m) => MoveWork(s.client, m);
    case CreateResult(j, x) => CreateWork(s, s', remote, j, x);
  }

  /** Every finished job, in either mode, uses up work: after the last delivery a run can only
      be finitely long. */
  lemma JobsUseUpWork(s: System, s': System, remote: set<Collection>)
    requires Inv(s, remote) && JobStep(s, s')
    ensures 0 <= WorkLeft(s', remote) < WorkLeft(s, remote)
  {
    JobWork(s, s', remote);
    StepInv(s, s', remote);
    HandledBound(s', remote);
  }

  /** Once only jobs are left, a run has no more steps than there is work. */
  lemma {:induction false} JobRunsEnd(run: seq<System>, remote: set<Collection>, i: nat)
    requires Run(run, remote) && i < |run|
    requires forall k :: i <= k < |run| - 1 ==> JobStep(run[k], run[k + 1])
    ensures |run| - 1 - i <= WorkLeft(run[i], remote)
    decreases |run| - i
  {
    RunInv(run, remote, i);
    HandledBound(run[i], remote);
    if i < |run| - 1 {
      JobsUseUpWork(run[i], run[i + 1], remote);
      JobRunsEnd(run, remote, i + 1);
    }
  }

  // ------------------------------------------------------------------ calls are legal

  /** What the methods of the job demand of their callers holds in every reachable state. */
  lemma CallsAreLegal(run: seq<System>, remote: set<Collection>, i: nat)
    requires Run(run, remote) && i < |run|
    ensures var c := run[i].client;
      && (!c.localListDone ==> run[i].unlisted * c.tree.localUidMap.Keys == {})
      && (!c.localListDone && run[i].unlisted == {} ==> Linked(c.tree) && ROOT_ID in c.processed)
      && (c.localListDone ==> Linked(c.tree) && c.tree.localPendingCollections == map[] && ROOT_ID in c.processed)
      && (forall j: Job :: j in c.jobs && j.Create? ==>
            j.localParent in c.tree.localUidMap && j.col.Parent().Uid() == j.localParent)
  {
    RunInv(run, remote, i);
    var s := run[i];
    var c := s.client;
    if !c.localListDone && s.unlisted == {} {
      ListedTreeOk(s, remote);
    }
    forall j: Job | j in c.jobs && j.Create?
      ensures j.localParent in c.tree.localUidMap && j.col.Parent().Uid() == j.localParent
    {
      JobsOnlyAfterListing(s, remote);
      CreationParentKnown(c, Seen(s, remote), j);
    }
  }

  lemma CreationParentKnown(c: State, A: set<Collection>, j: Job)
    requires Syncing(c, A) && j in c.jobs && j.Create?
    ensures j.localParent in c.tree.localUidMap && j.col.Parent().Uid() == j.localParent
  {
    assert CreatesRightly(c.tree, c.jobs, A, j);
    MatchIsNode(c.tree, A, j.remote);
  }

  // ------------------------------------------------------------------ no deadlock

  lemma {:induction false} Enumerated<T>(xs: set<T>) returns (s: seq<T>)
    ensures NoDup(s) && Elements(s) == xs
  {
    s := [];
    if xs != {} {
      var x := Pick(xs);
      var rest := Enumerated(xs - {x});
      assert x !in Elements(rest);
      s := rest + [x];
      NoDupConcat(rest, [x]);
      assert Elements(s) == Elements(rest) + {x};
    }
  }

  /** The server always has a uid left that was never used. */
  lemma {:induction false} FreshId(xs: set<Id>) returns (x: Id)
    ensures forall y :: y in xs ==> y < x
  {
    if xs == {} {
      x := 0;
    } else {
      var y := Pick(xs);
      x := FreshId(xs - {y});
      if x <= y { x := y + 1; }
      forall z | z in xs ensures z < x {
        assert z == y || z in xs - {y};
      }
    }
  }

  lemma ListingPossible(s: System)
    requires !s.client.localListDone && s.unlisted <= s.server.Keys
    ensures exists s' :: DeliveryStep(s, s')
  {
    if s.unlisted == {} {
      var s' := s.(client := LocalFetchResult(s.client));
      assert LocalDone(s, s');
      assert DeliveryStep(s, s');
    } else {
      var x := Pick(s.unlisted);
      var cols := [Listed(s.server, x)];
      assert BatchOf(s, cols);
      var s' := s.(client := s.client.(tree := LocalCollectionsReceived(s.client.tree, cols)),
                   unlisted := s.unlisted - ListedIds(cols));
      assert LocalBatch(s, s', cols);
      assert DeliveryStep(s, s');
    }
  }

  lemma ChunkPossible(s: System)
    requires !s.client.deliveryDone
    ensures exists s' :: DeliveryStep(s, s')
  {
    var cols := Enumerated(s.undelivered);
    assert Delivers(s, cols) by {
      forall c | c in cols ensures c in s.undelivered {
        assert c in Elements(cols);
      }
    }
    var s' := s.(client := SetRemoteCollections(s.client, cols), undelivered := s.undelivered - Elements(cols));
    assert Chunk(s, s', cols);
    assert DeliveryStep(s, s');
  }

  lemma JobPossible(s: System, j: Job)
    requires j in s.client.jobs
    ensures exists s' :: JobStep(s, s')
  {
    if j.Modify? {
      var s' := s.(client := JobDone(s.client, j), server := Write(s.server, j.col));
      assert ModifyFinishes(s, s', j);
      assert JobStep(s, s');
    } else if j.Delete? {
      var s' := s.(client := JobDone(s.client, j), server := RemoveCollection(s.server, j.col));
      assert DeleteFinishes(s, s', j);
      assert JobStep(s, s');
    } else {
      var used := {ROOT_ID} + s.server.Keys + s.client.tree.localUidMap.Keys;
      var x := FreshId(used);
      assert x !in used && ROOT_ID in used;
      assert x !in s.server && x !in s.client.tree.localUidMap;
      var s' := s.(client := CreateDone(s.client, j, x), server := Insert(s.server, x, j.col));
      assert CreateFinishes(s, s', j, x);
      assert JobStep(s, s');
    }
  }

  /** No run gets stuck: in either mode, a run that did not commit yet can go on. */
  lemma NoDeadlock(run: seq<System>, remote: set<Collection>, i: nat)
    requires Run(run, remote) && i < |run|
    ensures Committed in run[i].client.outcomes || exists s' :: Step(run[i], s')
  {
    RunInv(run, remote, i);
    var s := run[i];
    var c := s.client;
    if !c.localListDone || !c.deliveryDone {
      if !c.localListDone { ListingPossible(s); } else { ChunkPossible(s); }
      var s' :| DeliveryStep(s, s');
      assert Step(s, s');
    } else if j :| j in c.jobs {
      JobPossible(s, j);
      var s' :| JobStep(s, s');
      assert Step(s, s');
    } else if m :| m in c.moves {
      var s' := s.(client := MoveDone(c, m), server := Reparent(s.server, m.col.Uid(), m.dest.Uid()));
      assert MoveFinishes(s, s', m);
      assert Step(s, s');
    } else {
      OutcomeIsCommit(run, remote, i);
      assert c.jobs == multiset{} && c.moves == multiset{};
    }
  }
}
