/** Two limits of the synchronisation (akonadi/collectionsync.cpp). Recovering a lost remote id
    by name is not known to the search for the best ancestor, so a collection below a recovered
    one can be left waiting at the wrong place for ever; and a remote collection without any
    parent is not always rejected. */
module SyncLimits {
  import opened Collections
  import opened Trees
  import opened SyncState
  import opened SyncListing
  import opened SyncMatching
  import opened SyncRun
  import opened SyncSystem
  import opened SyncStrandedRuns

  // a server with /A/B whose B has lost its remote id, and the local tree listed from it
  const SERVER: Server := map[1 := ServerNode(ROOT_ID, "a", "A", None), 2 := ServerNode(1, "", "B", None)]

  const TREE := Tree(true,
    map[ROOT_ID := LocalNode(ROOT, [1], map["a" := 1]),
        1 := LocalNode(Listed(SERVER, 1), [2], map[]),
        2 := LocalNode(Listed(SERVER, 2), [], map[])],
    map["" := ROOT_ID], map[])

  // a remote chain /a/b/c/d
  const A := Collection(-1, "a", "A", None, ROOT)
  const B := Collection(-1, "b", "B", None, A)
  const C := Collection(-1, "c", "C", None, B)
  const D := Collection(-1, "d", "D", None, C)
  const REMOTE := {A, B, C, D}

  function Beginning(streaming: bool): System {
    System(InitialState(true, streaming), SERVER, SERVER.Keys, REMOTE)
  }

  lemma ServerRooted()
    ensures Rooted(ServerParents(SERVER))
  {
    var par := ServerParents(SERVER);
    assert Up(par, 1, 1) == ROOT_ID;
    assert Up(par, 2, 2) == ROOT_ID;
  }

  lemma TreeChildren(x: Id, p: Id)
    ensures ChildOf(TREE.localUidMap, x, p) <==> (x == 1 && p == ROOT_ID) || (x == 2 && p == 1)
  {
  }

  lemma TreeLists(p: Id)
    requires p in TREE.localUidMap
    ensures ListsChildren(TREE.localUidMap, p, TREE.localUidMap[p].childNodes)
    ensures FilesRids(TREE.localUidMap, p, TREE.localUidMap[p].childRidMap)
  {
    forall x ensures ChildOf(TREE.localUidMap, x, p) <==> (x == 1 && p == ROOT_ID) || (x == 2 && p == 1) {
      TreeChildren(x, p);
    }
    if p == ROOT_ID {
      assert TREE.localUidMap[p].childNodes == [1];
    } else if p == 1 {
      assert TREE.localUidMap[p].childNodes == [2];
    } else {
      assert TREE.localUidMap[p].childNodes == [];
    }
  }

  lemma TreeInOrder()
    ensures ListOk(TREE)
  {
    forall p | p in TREE.localUidMap
      ensures ListsChildren(TREE.localUidMap, p, TREE.localUidMap[p].childNodes)
      ensures FilesRids(TREE.localUidMap, p, TREE.localUidMap[p].childRidMap)
    {
      TreeLists(p);
    }
    forall x, p | ChildOf(TREE.localUidMap, x, p) ensures p in TREE.localUidMap {
      TreeChildren(x, p);
    }
  }

  lemma TreeListed()
    ensures ListedTree(TREE, SERVER)
  {
    ServerRooted();
    TreeInOrder();
    assert LocalParents(TREE) == ServerParents(SERVER);
  }

  lemma Paths()
    ensures PathOf(A) == ["a"] && PathOf(B) == ["a", "b"] && PathOf(C) == ["a", "b", "c"]
        && PathOf(D) == ["a", "b", "c", "d"]
    ensures RootedChain(A) && RootedChain(B) && RootedChain(C) && RootedChain(D)
  {
    assert PathOf(ROOT) == [];
    assert PathOf(A) == PathOf(ROOT) + ["a"];
    assert PathOf(B) == PathOf(A) + ["b"];
    assert PathOf(C) == PathOf(B) + ["c"];
    assert PathOf(D) == PathOf(C) + ["d"];
  }

  /** The remote listing is in order, and closed. */
  lemma RemoteInOrder()
    ensures AcceptedOf(REMOTE) == REMOTE && GoodListing(true, REMOTE) && ClosedListing(true, REMOTE)
  {
    Paths();
    forall c | c in REMOTE ensures c.Parent().IsRoot() || HasPath(REMOTE, PathOf(c.Parent())) {
      assert c == A || c.Parent() in REMOTE;
    }
  }

  /** All its names and remote ids differ. */
  lemma RemoteNames()
    ensures UniqueNames(REMOTE)
  {
    forall e, f | InChains(REMOTE, e) && InChains(REMOTE, f) && PathOf(e.parent) == PathOf(f.parent)
      ensures e.name == f.name <==> e.remoteId == f.remoteId
    {
      ChainMembers(e);
      ChainMembers(f);
    }
  }

  lemma ChainMembers(e: Collection)
    requires InChains(REMOTE, e)
    ensures e in REMOTE
  {
    assert !Above(e, ROOT);
    assert Above(e, A) ==> e == ROOT;
    assert Above(e, B) ==> e == A || Above(e, A);
    assert Above(e, C) ==> e == B || Above(e, B);
    assert Above(e, D) ==> e == C || Above(e, C);
  }

  /** B is found by its name only, so C's parent is there while D, whose parent is missing, is
      looked for from A. */
  lemma StrandsD()
    ensures Strandable(TREE, D)
  {
    Paths();
    assert Match(TREE, A) == Some(1);
    assert FirstByName(TREE, [2], "B") == Some(2);
    assert Match(TREE, B) == Some(2);
    assert FirstByName(TREE, [], "C") == None;
    assert Match(TREE, C) == None;
    assert ["a", "b"][..1] == ["a"] && ["a"][..0] == [];
    assert Walk(TREE, ["a"]) == Some(1);
    assert Walk(TREE, ["a", "b"]) == None;
    assert Above(B, C) && Recovered(TREE, B);
  }

  /** Some run of this sync, from the listing to the last job result, ends with the orphan error,
      in either delivery mode, although the remote listing is complete. */
  lemma RecoveryStrands(streaming: bool)
    ensures Start(Beginning(streaming), REMOTE) && CanStrand(Beginning(streaming))
  {
    ServerRooted();
    RemoteInOrder();
    RemoteNames();
    TreeListed();
    StrandsD();
    CompleteIsClosed(TREE, REMOTE);
    assert D in AcceptedOf(REMOTE);
    StrandedIff(Beginning(streaming), REMOTE, TREE);
  }

  // ------------------------------------------------------------------ broken chains

  /** The chain of parents reaches the root before it reaches a collection without a parent. */
  predicate ChainToRoot(c: Collection)
    decreases c
  {
    c.IsRoot() || (!(c.Parent().Uid() < 0 && c.Parent().Rid() == "") && ChainToRoot(c.Parent()))
  }

  lemma {:induction false} NoAncestorIff(t: Tree, c: Collection)
    requires t.hierarchicalRIDs
    ensures FindBestLocalAncestor(t, c).node.None? <==> !ChainToRoot(c)
    decreases c
  {
    if !c.IsRoot() && !(c.Parent().Uid() < 0 && c.Parent().Rid() == "") {
      NoAncestorIff(t, c.Parent());
    }
  }

  /** The exact condition for the error about broken chains of parents: neither the collection
      nor its parent has a match, and the chain does not end in the root. */
  lemma BrokenChainIff(w: Sweep, c: Collection)
    requires !w.aborted && w.state.tree.hierarchicalRIDs
    ensures ProcessOne(w, c).aborted <==>
      && FindMatchingLocalNode(w.state.tree, c).None? && FindMatchingLocalNode(w.state.tree, c.Parent()).None?
      && !ChainToRoot(c)
  {
    NoAncestorIff(w.state.tree, c);
  }

  /** What the error is about. */
  ghost predicate Broken(t: Tree, c: Collection) {
    Match(t, c).None? && MatchParent(t, c).None? && !ChainToRoot(c)
  }

  /** The first n of a list come before the first broken one, or are all if there is none. */
  ghost predicate UpToBroken(t: Tree, cs: seq<Collection>, n: nat) {
    && n <= |cs| && (forall i :: 0 <= i < n ==> !Broken(t, cs[i]))
    && (n < |cs| ==> Broken(t, cs[n]))
  }

  ghost function Matches(t: Tree, cs: seq<Collection>): set<Id> {
    set c | c in cs && Match(t, c).Some? :: Match(t, c).value
  }

  /** Only what comes before the first broken one is taken up. */
  ghost predicate CutShort(s: State, cs: seq<Collection>, w: Sweep, n: nat) {
    && n <= |cs| && w.state.tree == s.tree && w.aborted == (n < |cs|)
    && w.state.processed == s.processed + Matches(s.tree, cs[..n])
    && w.state.outcomes == (if n < |cs| then s.outcomes + [BrokenAncestorChain] else s.outcomes)
    && (forall j: Job :: !j.Modify? ==> w.state.jobs[j] == s.jobs[j])
  }

  /** What one remote node does to the parts looked at here. */
  ghost predicate Taken(t: Tree, s: State, s': State, ids: set<Id>, broken: bool) {
    && s.tree == t == s'.tree && s'.processed == s.processed + ids
    && s'.outcomes == (if broken then s.outcomes + [BrokenAncestorChain] else s.outcomes)
    && (forall j: Job :: !j.Modify? ==> s'.jobs[j] == s.jobs[j])
  }

  lemma MatchedTaken(s: State, x: Id, c: Collection)
    requires s.tree.hierarchicalRIDs
    ensures Taken(s.tree, s, UpdateLocalCollection(s, x, c), {x}, false)
  {
  }

  lemma PrematureTaken(w: Sweep, b: Option<Id>, c: Collection)
    ensures Taken(w.state.tree, w.state, ProcessPremature(w, b, c).state, {}, b.None?)
  {
  }

  lemma OneTaken(w: Sweep, c: Collection)
    requires w.state.tree.hierarchicalRIDs && !w.aborted
    ensures ProcessOne(w, c).aborted == Broken(w.state.tree, c)
    ensures Taken(w.state.tree, w.state, ProcessOne(w, c).state, Matches(w.state.tree, [c]), Broken(w.state.tree, c))
  {
    BrokenChainIff(w, c);
    NoAncestorIff(w.state.tree, c);
    var t := w.state.tree;
    if Match(t, c).Some? {
      MatchedTaken(w.state, Match(t, c).value, c);
      assert Matches(t, [c]) == {Match(t, c).value};
    } else {
      assert Matches(t, [c]) == {};
      if MatchParent(t, c).None? {
        PrematureTaken(w, Best(t, c), c);
      } else {
        assert ProcessOne(w, c).state == w.state;
      }
    }
  }

  lemma {:induction false} SweepCutShort(s: State, cs: seq<Collection>, n: nat)
    requires s.tree.hierarchicalRIDs && UpToBroken(s.tree, cs, n)
    ensures CutShort(s, cs, SweepAll(s, cs), n)
  {
    if cs != [] {
      var front, c := cs[..|cs| - 1], cs[|cs| - 1];
      if n < |cs| - 1 {
        SweepCutShort(s, front, n);
        assert front[..n] == cs[..n];
      } else {
        SweepCutShort(s, front, |cs| - 1);
        CutShortMore(s, cs, SweepAll(s, front), n);
      }
    }
  }

  lemma CutShortMore(s: State, cs: seq<Collection>, w: Sweep, n: nat)
    requires cs != [] && s.tree.hierarchicalRIDs && UpToBroken(s.tree, cs, n) && n >= |cs| - 1
    requires CutShort(s, cs[..|cs| - 1], w, |cs| - 1)
    ensures CutShort(s, cs, ProcessOne(w, cs[|cs| - 1]), n)
  {
    var front, c := cs[..|cs| - 1], cs[|cs| - 1];
    OneTaken(w, c);
    assert front[..|front|] == front;
    if n == |cs| {
      assert cs[..n] == front + [c];
      assert Matches(s.tree, front + [c]) == Matches(s.tree, front) + Matches(s.tree, [c]);
    }
  }

  /** A pass reports the error if and only if something waiting is broken. Then nothing after the
      first such collection is taken up, and of those before it only the updates are issued: their
      creations are dropped. */
  lemma BrokenPass(s: State, x: Id, n: nat)
    requires s.tree.hierarchicalRIDs && UpToBroken(s.tree, Waiting(s, x), n)
    ensures var s' := ProcessPendingRemoteNodes(s, x); var cs := Waiting(s, x);
      && s'.processed == s.processed + Matches(s.tree, cs[..n])
      && s'.outcomes == (if n < |cs| then s.outcomes + [BrokenAncestorChain] else s.outcomes)
      && (n < |cs| ==> forall j: Job :: !j.Modify? ==> s'.jobs[j] == s.jobs[j])
  {
    SweepCutShort(SetWaiting(s, x, []), Waiting(s, x), n);
  }

  /** So a collection without any parent, broken as its chain is, is created below the root
      instead of being reported. */
  lemma ParentlessLandsAtRoot(w: Sweep, c: Collection)
    requires !w.aborted && w.state.tree.hierarchicalRIDs
    requires !c.IsRoot() && c.Rid() != "" && c.Parent() == Invalid
    ensures !ChainToRoot(c) && ProcessOne(w, c) == ProcessCreatable(w, ROOT_ID, c)
  {
  }
}
