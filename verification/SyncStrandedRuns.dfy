/** The runs that end with the orphan error: they exist exactly when some listed collection lies
    below a missing parent and that one below a node recovered by name
    (akonadi/collectionsync.cpp). */
module SyncStrandedRuns {
  import opened Collections
  import opened SyncState
  import opened SyncListing
  import opened SyncMatching
  import opened SyncGrowth
  import opened SyncLedger
  import opened SyncRun
  import opened SyncContent
  import opened SyncPass
  import opened SyncStranding
  import opened SyncSystem
  import opened SyncTheorems

  // ------------------------------------------------------------------ the order of the listing

  /** Siblings on the server differ in name, and in remote id unless they have none. */
  ghost predicate UniqueSiblings(server: Server) {
    forall x, y :: x in server && y in server && x != y && server[x].parent == server[y].parent ==>
      server[x].name != server[y].name && (server[x].remoteId != "" ==> server[x].remoteId != server[y].remoteId)
  }

  /** Two trees listed from the same server. */
  ghost predicate SameServer(t: Tree, u: Tree, server: Server) {
    && UniqueSiblings(server) && ListedTree(t, server) && ListedTree(u, server)
    && t.hierarchicalRIDs && u.hierarchicalRIDs
  }

  lemma ListedChild(t: Tree, server: Server, y: Id, p: Id)
    requires ListedTree(t, server)
    ensures ChildOf(t.localUidMap, y, p) <==> y in server && server[y].parent == p
    ensures y in server ==>
      Node(t, y).collection.Rid() == server[y].remoteId && Node(t, y).collection.Name() == server[y].name
  {
  }

  lemma ByRidKnown(t: Tree, u: Tree, server: Server, p: Id, r: string)
    requires SameServer(t, u, server) && p in t.localUidMap && r in Node(t, p).childRidMap
    ensures r in Node(u, p).childRidMap && Node(u, p).childRidMap[r] == Node(t, p).childRidMap[r]
  {
    var y := Node(t, p).childRidMap[r];
    assert FilesRids(t.localUidMap, p, t.localUidMap[p].childRidMap);
    assert FilesRids(u.localUidMap, p, u.localUidMap[p].childRidMap);
    ListedChild(t, server, y, p);
    ListedChild(u, server, y, p);
    ListedChild(u, server, Node(u, p).childRidMap[r], p);
  }

  lemma ByNameKnown(t: Tree, u: Tree, server: Server, p: Id, name: string)
    requires SameServer(t, u, server) && p in t.localUidMap
    requires FirstByName(t, Node(t, p).childNodes, name).Some?
    ensures FirstByName(u, Node(u, p).childNodes, name) == FirstByName(t, Node(t, p).childNodes, name)
  {
    var y := FirstByName(t, Node(t, p).childNodes, name).value;
    ByNameIs(t, Node(t, p).childNodes, name);
    ByNameIs(u, Node(u, p).childNodes, name);
    assert ListsChildren(t.localUidMap, p, t.localUidMap[p].childNodes);
    assert ListsChildren(u.localUidMap, p, u.localUidMap[p].childNodes);
    ListedChild(t, server, y, p);
    ListedChild(u, server, y, p);
    var z := FirstByName(u, Node(u, p).childNodes, name);
    if z.Some? {
      ListedChild(u, server, z.value, p);
    }
  }

  /** One step of matching does not depend on the order in which children were listed. */
  lemma SameMatchBelow(t: Tree, u: Tree, server: Server, p: Id, c: Collection)
    requires SameServer(t, u, server) && p in t.localUidMap
    ensures MatchBelow(t, p, c) == MatchBelow(u, p, c)
  {
    if c.Rid() in Node(t, p).childRidMap {
      ByRidKnown(t, u, server, p, c.Rid());
    } else if c.Rid() in Node(u, p).childRidMap {
      ByRidKnown(u, t, server, p, c.Rid());
    } else if FirstByName(t, Node(t, p).childNodes, c.Name()).Some? {
      ByNameKnown(t, u, server, p, c.Name());
    } else if FirstByName(u, Node(u, p).childNodes, c.Name()).Some? {
      ByNameKnown(u, t, server, p, c.Name());
    }
  }

  lemma {:induction false} SameMatch(t: Tree, u: Tree, server: Server, c: Collection)
    requires SameServer(t, u, server) && RootedChain(c)
    ensures Match(t, c) == Match(u, c)
    decreases c
  {
    if !c.IsRoot() {
      SameMatch(t, u, server, c.parent);
      MatchStep(t, c);
      MatchStep(u, c);
      if Match(t, c.parent).Some? {
        MatchPlace(t, c.parent);
        SameMatchBelow(t, u, server, Match(t, c.parent).value, c);
      }
    }
  }

  lemma {:induction false} SameWalk(t: Tree, u: Tree, server: Server, p: Path)
    requires SameServer(t, u, server)
    ensures Walk(t, p) == Walk(u, p)
    decreases |p|
  {
    if p != [] {
      SameWalk(t, u, server, p[..|p| - 1]);
      var up := Walk(t, p[..|p| - 1]);
      if up.Some? {
        WalkPlace(t, p[..|p| - 1]);
        var r := p[|p| - 1];
        if r in Node(t, up.value).childRidMap { ByRidKnown(t, u, server, up.value, r); }
        if r in Node(u, up.value).childRidMap { ByRidKnown(u, t, server, up.value, r); }
      }
    }
  }

  lemma SameStrandable(t: Tree, u: Tree, server: Server, d: Collection)
    requires SameServer(t, u, server) && RootedChain(d) && !d.IsRoot()
    ensures Strandable(t, d) <==> Strandable(u, d)
  {
    SameMatch(t, u, server, d.parent);
    forall b | Above(b, d.parent) ensures Recovered(t, b) <==> Recovered(u, b) {
      AboveRooted(b, d.parent);
      SameMatch(t, u, server, b);
      SameWalk(t, u, server, PathOf(b));
    }
  }

  lemma SameClosed(t: Tree, u: Tree, server: Server, A: set<Collection>)
    requires SameServer(t, u, server) && GoodListing(true, A) && Closed(t, A)
    ensures Closed(u, A)
  {
    forall c | c in A ensures ParentKnown(u, A, c) {
      assert MatchParent(t, c).Some? || MatchParent(t, c).None?;
      ListedInChains(A, c);
      SameMatch(t, u, server, c.parent);
    }
  }

  // ------------------------------------------------------------------ names in the listing

  /** Along the chains of a listing, siblings have the same name exactly when they have the
      same remote id. */
  ghost predicate UniqueNames(A: set<Collection>) {
    forall e, f {:trigger InChains(A, e), InChains(A, f)} ::
      InChains(A, e) && InChains(A, f) && PathOf(e.parent) == PathOf(f.parent) ==>
        (e.name == f.name <==> e.remoteId == f.remoteId)
  }

  /** Then what is matched is unambiguous. */
  lemma {:induction false} AgreeByNames(t: Tree, A: set<Collection>, e: Collection, f: Collection)
    requires TreeOk(t) && t.hierarchicalRIDs && UniqueNames(A) && InChains(A, e) && InChains(A, f)
    ensures AgreeAt(t, e, f)
    decreases e
  {
    ParentInChains(A, e);
    ParentInChains(A, f);
    SamePathSteps(e, f);
    MatchStep(t, e);
    MatchStep(t, f);
    EmptyPathIsRoot(e.parent);
    EmptyPathIsRoot(f.parent);
    if Match(t, e.parent).Some? { MatchPlace(t, e.parent); }
    if Match(t, f.parent).Some? { MatchPlace(t, f.parent); }
    if Match(t, e).Some? { MatchPlace(t, e); }
    if Match(t, f).Some? { MatchPlace(t, f); }
    if !e.parent.IsRoot() && !f.parent.IsRoot() {
      AgreeByNames(t, A, e.parent, f.parent);
    }
    if Match(t, e).Some? && Match(t, e) == Match(t, f) {
      MatchedSame(t, Match(t, e.parent).value, e, f);
    }
  }

  /** Two collections with the same match below one node share the remote id or the name. */
  lemma MatchedSame(t: Tree, p: Id, e: Collection, f: Collection)
    requires ListOk(t) && p in t.localUidMap
    requires MatchBelow(t, p, e).Some? && MatchBelow(t, p, e) == MatchBelow(t, p, f)
    ensures e.Rid() == f.Rid() || e.Name() == f.Name()
  {
    assert FilesRids(t.localUidMap, p, t.localUidMap[p].childRidMap);
    ByNameIs(t, Node(t, p).childNodes, e.Name());
    ByNameIs(t, Node(t, p).childNodes, f.Name());
  }

  lemma CoherentByNames(t: Tree, A: set<Collection>)
    requires TreeOk(t) && t.hierarchicalRIDs && UniqueNames(A)
    ensures Coherent(t, A)
  {
    forall e, f | InChains(A, e) && InChains(A, f) ensures AgreeAt(t, e, f) {
      AgreeByNames(t, A, e, f);
    }
  }

  // ------------------------------------------------------------------ up to the first pass

  ghost function Last(run: seq<System>): System
    requires run != []
  {
    run[|run| - 1]
  }

  /** A run from s0 to s. */
  ghost predicate Leads(s0: System, run: seq<System>, s: System) {
    Steps(run) && run[0] == s0 && Last(run) == s
  }

  lemma Extended(s0: System, run: seq<System>, s: System, s': System)
    requires Leads(s0, run, s) && Step(s, s')
    ensures Leads(s0, run + [s'], s')
  {
    var run' := run + [s'];
    forall i | 0 <= i < |run'| - 1 ensures Step(run'[i], run'[i + 1]) {
      assert i < |run| - 1 ==> Step(run[i], run[i + 1]);
    }
  }

  /** The whole local listing in one batch. */
  ghost predicate WholeListing(server: Server, cols: seq<Collection>) {
    NoDup(cols) && Elements(cols) == set x | x in server :: Listed(server, x)
  }

  lemma WholeBatch(s: System, cols: seq<Collection>)
    requires s.unlisted == s.server.Keys && WholeListing(s.server, cols)
    ensures BatchOf(s, cols) && ListedIds(cols) == s.server.Keys
  {
    forall i | 0 <= i < |cols|
      ensures cols[i].Uid() in s.server && cols[i] == Listed(s.server, cols[i].Uid())
    {
      assert cols[i] in Elements(cols);
    }
    forall x | x in s.server ensures x in ListedIds(cols) {
      assert Listed(s.server, x) in Elements(cols);
      var i :| 0 <= i < |cols| && cols[i] == Listed(s.server, x);
      assert cols[i].Uid() == x;
    }
  }

  /** The local listing arrives, and nothing else yet. */
  lemma LocalArrives(s0: System, remote: set<Collection>) returns (s: System)
    requires Start(s0, remote)
    ensures Leads(s0, [s0, s], s)
    ensures s == s0.(client := s0.client.(tree := s.client.tree), unlisted := {})
    ensures Listing(s.client, {}) && ListedTree(s.client.tree, s.server)
    ensures s.client.tree.hierarchicalRIDs == s0.client.tree.hierarchicalRIDs
  {
    var cols := Enumerated(set x | x in s0.server :: Listed(s0.server, x));
    WholeBatch(s0, cols);
    InitialListOk(s0.client.tree.hierarchicalRIDs);
    assert ListingMatches(s0);
    BatchFresh(s0, cols);
    BatchMatches(s0, cols);
    ReceivedKeepsListOk(s0.client.tree, cols);
    ReceivedMode(s0.client.tree, cols);
    s := s0.(client := s0.client.(tree := LocalCollectionsReceived(s0.client.tree, cols)),
        unlisted := s0.unlisted - ListedIds(cols));
    assert LocalBatch(s0, s, cols);
    assert DeliveryStep(s0, s) && Step(s0, s);
    ListingComplete(s);
  }

  /** A delivery before the local listing is complete only fills the root's waiting list. */
  lemma OnlyFiled(c: State, A: set<Collection>, cols: seq<Collection>)
    requires Listing(c, A) && FreshChunk(A, cols)
    ensures var c' := SetRemoteCollections(c, cols);
      && Listing(c', A + AcceptedSet(cols)) && c'.tree == c.tree
      && c'.streaming == c.streaming && c'.deliveryDone == (c.deliveryDone || !c.streaming)
  {
    var s2 := ChunkFiles(c, cols);
    ListingMore(c, s2, A, cols);
  }

  ghost predicate Delivered(s: System, s0: System, A: set<Collection>) {
    && Listing(s.client, A) && s.client.deliveryDone && ListedTree(s.client.tree, s.server)
    && s.server == s0.server && s.unlisted == {}
    && s.client.tree.hierarchicalRIDs == s0.client.tree.hierarchicalRIDs
  }

  /** The remote listing arrives as well. */
  lemma RemoteArrives(s0: System, remote: set<Collection>) returns (run: seq<System>)
    requires Start(s0, remote)
    ensures run != [] && Leads(s0, run, Last(run)) && Delivered(Last(run), s0, AcceptedOf(remote))
  {
    var s1 := LocalArrives(s0, remote);
    var cols := Enumerated(remote);
    assert forall c :: c in cols <==> c in Elements(cols);
    AcceptedMembers(cols);
    assert AcceptedSet(cols) == AcceptedOf(remote);
    assert {} + AcceptedSet(cols) == AcceptedOf(remote);
    OnlyFiled(s1.client, {}, cols);
    var s2 := s1.(client := SetRemoteCollections(s1.client, cols), undelivered := s1.undelivered - Elements(cols));
    assert Chunk(s1, s2, cols);
    assert DeliveryStep(s1, s2) && Step(s1, s2);
    run := [s0, s1] + [s2];
    Extended(s0, [s0, s1], s1, s2);
    if s1.client.streaming {
      var s3 := s2.(client := RetrievalDone(s2.client));
      assert DeliveryEnds(s2, s3);
      assert DeliveryStep(s2, s3) && Step(s2, s3);
      Extended(s0, run, s2, s3);
      run := run + [s3];
    }
  }

  /** What holds when the listing has been completed. */
  lemma CompletedLoose(c: State, A: set<Collection>)
    requires Listing(c, A) && c.deliveryDone && c.tree.hierarchicalRIDs
    requires TreeOk(c.tree) && GoodListing(true, A) && Coherent(c.tree, A)
    ensures Loose(c.(localListDone := true), A) && AllAtRoot(c.(localListDone := true), A)
  {
    var c1 := c.(localListDone := true);
    forall n ensures WaitsLoosely(c1, A, n) && (n != ROOT_ID ==> Waiting(c1, n) == []) {
      assert c1.pendingRemoteNodes == c.pendingRemoteNodes;
    }
  }

  /** What can be stranded sits below a missing parent and that below the highest collection
      recovered by name. */
  lemma SnagFound(t: Tree, A: set<Collection>, d: Collection) returns (b: Collection, n: Id)
    requires t.hierarchicalRIDs && GoodListing(true, A) && d in A && Strandable(t, d)
    ensures Snag(t, A, d, b, n)
  {
    var b0 :| Above(b0, d.Parent()) && Recovered(t, b0);
    ListedInChains(A, d);
    b := HighestRecovered(t, d.parent, b0);
    assert Above(d.parent, d);
    AboveTrans(b, d.parent, d);
    AboveRooted(b, d);
    n := Walk(t, PathOf(b.Parent())).value;
  }

  // ------------------------------------------------------------------ taking job results

  ghost function Work(c: State, A: set<Collection>): int {
    3 * (|A| - |c.handled|) + |c.jobs|
  }

  lemma WorkNatural(c: State, A: set<Collection>)
    requires Loose(c, A)
    ensures Work(c, A) >= 0
  {
    forall r ensures c.handled[r] <= multiset(A)[r] {
      assert c.handled[r] <= if r in A then 1 else 0;
    }
    MultisetSize(c.handled, multiset(A));
  }

  lemma CreateUsesWork(c: State, A: set<Collection>, j: Job, x: Id)
    requires Loose(c, A) && j in c.jobs && j.Create? && x != ROOT_ID && x !in c.tree.localUidMap
    ensures LessWork(c, CreateDone(c, j, x))
  {
    var r := CreateRecorded(c, j, x);
    assert |r.jobs| == |c.jobs| - 1;
    RecordedLoose(c, A, j, x);
    WaitingRooted(r, A, j.localParent);
    PassIsExact(r, j.localParent);
    PassWork(r, j.localParent);
  }

  /** The result of any job may be the next to arrive. */
  lemma ResultArrives(s: System, j: Job) returns (s': System, x: Id)
    requires j in s.client.jobs
    ensures Step(s, s')
    ensures !j.Create? ==> s'.client == JobDone(s.client, j)
    ensures j.Create? ==> x != ROOT_ID && x !in s.client.tree.localUidMap && s'.client == CreateDone(s.client, j, x)
  {
    x := 0;
    if j.Modify? {
      s' := s.(client := JobDone(s.client, j), server := Write(s.server, j.col));
      assert ModifyFinishes(s, s', j);
    } else if j.Delete? {
      s' := s.(client := JobDone(s.client, j), server := RemoveCollection(s.server, j.col));
      assert DeleteFinishes(s, s', j);
    } else {
      var used := {ROOT_ID} + s.server.Keys + s.client.tree.localUidMap.Keys;
      x := FreshId(used);
      assert x !in used && ROOT_ID in used;
      s' := s.(client := CreateDone(s.client, j, x), server := Insert(s.server, x, j.col));
      assert CreateFinishes(s, s', j, x);
    }
    assert JobStep(s, s');
  }

  lemma BrewingStep(s: System, A: set<Collection>, d: Collection, b: Collection, n: Id, j0: Job, j: Job)
          returns (s': System)
    requires Brewing(s.client, A, d, b, n, j0) && j in s.client.jobs && j != j0
    ensures Step(s, s') && Brewing(s'.client, A, d, b, n, j0) && s'.client.outcomes == s.client.outcomes
    ensures Work(s'.client, A) < Work(s.client, A)
  {
    var x;
    s', x := ResultArrives(s, j);
    if j.Create? {
      BrewingCreate(s.client, A, d, b, n, j0, j, x);
      CreateUsesWork(s.client, A, j, x);
    } else {
      BrewingOther(s.client, A, d, b, n, j0, j);
      PlainWork(s.client, j);
    }
  }

  lemma StuckStep(s: System, A: set<Collection>, d: Collection, b: Collection, n: Id, j: Job) returns (s': System)
    requires Stuck(s.client, A, d, b, n) && j in s.client.jobs && s.client.outcomes == []
    ensures Step(s, s')
    ensures s'.client.outcomes == [UnresolvedOrphans]
      || (Stuck(s'.client, A, d, b, n) && s'.client.outcomes == [] && s'.client.jobs != multiset{})
    ensures Work(s'.client, A) < Work(s.client, A)
  {
    var x;
    s', x := ResultArrives(s, j);
    if j.Create? {
      StuckCreate(s.client, A, d, b, n, j, x);
      CreateUsesWork(s.client, A, j, x);
    } else {
      StuckOther(s.client, A, d, b, n, j);
      PlainWork(s.client, j);
    }
  }

  /** All jobs but the creation of d's parent finish first. */
  lemma {:induction false} BrewingRun(s0: System, run: seq<System>, s: System,
      A: set<Collection>, d: Collection, b: Collection, n: Id, j0: Job) returns (run': seq<System>)
    requires Leads(s0, run, s) && Brewing(s.client, A, d, b, n, j0) && s.client.outcomes == []
    ensures run' != [] && Leads(s0, run', Last(run'))
    ensures var c := Last(run').client; Stuck(c, A, d, b, n) && c.outcomes == [] && c.jobs != multiset{}
    decreases Work(s.client, A)
  {
    var c := s.client;
    WorkNatural(c, A);
    if c.jobs == multiset{j0} {
      BrewingEnds(c, A, d, b, n, j0);
      run' := run;
    } else {
      assert CreatesRightly(c.tree, c.jobs, A, j0);
      assert c.jobs == multiset{j0} + (c.jobs - multiset{j0});
      var j :| j in c.jobs - multiset{j0};
      var s' := BrewingStep(s, A, d, b, n, j0, j);
      Extended(s0, run, s, s');
      run' := BrewingRun(s0, run + [s'], s', A, d, b, n, j0);
    }
  }

  /** Then all the others. */
  lemma {:induction false} StuckRun(s0: System, run: seq<System>, s: System,
      A: set<Collection>, d: Collection, b: Collection, n: Id) returns (run': seq<System>)
    requires Leads(s0, run, s) && Stuck(s.client, A, d, b, n) && s.client.outcomes == [] && s.client.jobs != multiset{}
    ensures run' != [] && Leads(s0, run', Last(run')) && Last(run').client.outcomes == [UnresolvedOrphans]
    decreases Work(s.client, A)
  {
    WorkNatural(s.client, A);
    var j :| j in s.client.jobs;
    var s' := StuckStep(s, A, d, b, n, j);
    Extended(s0, run, s, s');
    if s'.client.outcomes == [UnresolvedOrphans] {
      run' := run + [s'];
    } else {
      run' := StuckRun(s0, run + [s'], s', A, d, b, n);
    }
  }

  // ------------------------------------------------------------------ the theorem

  /** Some run ends with the orphan error. */
  ghost predicate CanStrand(s0: System) {
    exists run :: Steps(run) && run[0] == s0 && UnresolvedOrphans in Last(run).client.outcomes
  }

  /** The local listing is complete, and the nodes at the root are taken up. */
  lemma ListingEnds(s: System, s0: System, A: set<Collection>)
    requires Delivered(s, s0, A)
    ensures var s' := s.(client := LocalFetchResult(s.client));
      Step(s, s') && s'.client == Execute(s.client.(localListDone := true))
  {
    var s' := s.(client := LocalFetchResult(s.client));
    assert LocalDone(s, s');
    assert DeliveryStep(s, s') && Step(s, s');
  }

  lemma StrandingRun(s0: System, remote: set<Collection>, t: Tree, d0: Collection)
    requires Start(s0, remote) && s0.client.tree.hierarchicalRIDs
    requires UniqueSiblings(s0.server) && UniqueNames(AcceptedOf(remote))
    requires ListedTree(t, s0.server) && t.hierarchicalRIDs && d0 in AcceptedOf(remote) && Strandable(t, d0)
    requires Closed(t, AcceptedOf(remote))
    ensures CanStrand(s0)
  {
    var A := AcceptedOf(remote);
    var run := RemoteArrives(s0, remote);
    var s := Last(run);
    var u := s.client.tree;
    CoherentByNames(u, A);
    ListedInChains(A, d0);
    SameStrandable(t, u, s0.server, d0);
    SameClosed(t, u, s0.server, A);
    var b0, n := SnagFound(u, A, d0);
    var d, b, up := Normalized(u, A, d0, b0, n);
    CompletedLoose(s.client, A);
    ExecuteBrews(s.client.(localListDone := true), A, d, b, n, up);
    ListingEnds(s, s0, A);
    var s' := s.(client := LocalFetchResult(s.client));
    Extended(s0, run, s, s');
    var run1 := BrewingRun(s0, run + [s'], s', A, d, b, n, CreationOf(u, up));
    var run2 := StuckRun(s0, run1, Last(run1), A, d, b, n);
    assert Steps(run2) && run2[0] == s0 && UnresolvedOrphans in Last(run2).client.outcomes;
  }

  /** Without anything that can be stranded the listing fits, in whatever order the server
      lists its collections. */
  lemma NothingStrandableFits(s0: System, remote: set<Collection>, t: Tree)
    requires Start(s0, remote) && s0.client.tree.hierarchicalRIDs
    requires UniqueSiblings(s0.server) && UniqueNames(AcceptedOf(remote))
    requires ListedTree(t, s0.server) && t.hierarchicalRIDs && NothingStrandable(t, AcceptedOf(remote))
    requires Closed(t, AcceptedOf(remote))
    ensures Init(s0, remote)
  {
    var A := AcceptedOf(remote);
    forall u: Tree | u.hierarchicalRIDs && ListedTree(u, s0.server) ensures Fits(u, A) && Closed(u, A) {
      CoherentByNames(u, A);
      SameClosed(t, u, s0.server, A);
      forall d | d in A ensures !Strandable(u, d) {
        ListedInChains(A, d);
        SameStrandable(t, u, s0.server, d);
        assert !Strandable(t, d);
      }
    }
  }

  /** With a closed listing and unique sibling names, some run ends with the orphan error if and only if an accepted
      collection has a parent without a match in the initial local tree, while an ancestor of
      that parent has one that was found by name and not along the remote ids. */
  lemma StrandedIff(s0: System, remote: set<Collection>, t: Tree)
    requires Start(s0, remote) && s0.client.tree.hierarchicalRIDs
    requires UniqueSiblings(s0.server) && UniqueNames(AcceptedOf(remote))
    requires ListedTree(t, s0.server) && t.hierarchicalRIDs && Closed(t, AcceptedOf(remote))
    ensures CanStrand(s0) <==> exists d :: d in AcceptedOf(remote) && Strandable(t, d)
  {
    var A := AcceptedOf(remote);
    if d :| d in A && Strandable(t, d) {
      StrandingRun(s0, remote, t, d);
    } else {
      NothingStrandableFits(s0, remote, t);
      if CanStrand(s0) {
        var run :| Steps(run) && run[0] == s0 && UnresolvedOrphans in Last(run).client.outcomes;
        OutcomeIsCommit(run, remote, |run| - 1);
        assert false;
      }
    }
  }
}
