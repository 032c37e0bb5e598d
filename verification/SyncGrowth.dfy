/** How one created collection changes what matches and where nodes wait: nothing but its own
    match appears, and only nodes waiting at one known place are affected. */
module SyncGrowth {
  import opened Collections
  import opened Trees
  import opened SyncState
  import opened SyncListing
  import opened SyncMatching

  /** The collection a create job for r below p reports under uid x. */
  function Created(t: Tree, p: Id, r: Collection, x: Id): Collection {
    NewLocal(CreateJob(t, p, r), x)
  }

  /** r is not there yet, its parent is, and x is unused. */
  ghost predicate CanCreate(t: Tree, p: Id, r: Collection, x: Id) {
    && Match(t, r).None? && MatchParent(t, r) == Some(p) && p in t.localUidMap
    && x != ROOT_ID && x !in t.localUidMap
    && r.Rid() != ""
  }

  lemma CreatedIsNewLeaf(t: Tree, p: Id, r: Collection, x: Id)
    requires TreeOk(t) && CanCreate(t, p, r, x)
    ensures var col := Created(t, p, r, x);
      && IsNew(t, col) && col.Parent().Uid() == p && col.Rid() == r.Rid()
      && Parked(t, x) == [] && Parked(t, p) == []
    ensures var t' := CreateLocalNode(t, Created(t, p, r, x));
      && t'.localUidMap[x] == LocalNode(Created(t, p, r, x), [], map[])
      && t'.localPendingCollections == map[]
      && t'.hierarchicalRIDs == t.hierarchicalRIDs
      && t'.localRidMap == if t.hierarchicalRIDs then t.localRidMap else t.localRidMap[r.Rid() := x]
  {
    CreateLocalNodeIs(t, Created(t, p, r, x));
  }

  lemma LeafParents(t: Tree, p: Id, r: Collection, x: Id)
    requires TreeOk(t) && CanCreate(t, p, r, x)
    ensures LocalParents(CreateLocalNode(t, Created(t, p, r, x))) == LocalParents(t)[x := p]
  {
    CreatedIsNewLeaf(t, p, r, x);
    CreateLocalNodeIs(t, Created(t, p, r, x));
    var a := LocalParents(CreateLocalNode(t, Created(t, p, r, x)));
    var b := LocalParents(t)[x := p];
    assert a.Keys == b.Keys;
  }

  lemma GrownTreeOk(t: Tree, p: Id, r: Collection, x: Id)
    requires TreeOk(t) && CanCreate(t, p, r, x)
    ensures TreeOk(CreateLocalNode(t, Created(t, p, r, x)))
  {
    var t' := CreateLocalNode(t, Created(t, p, r, x));
    CreatedIsNewLeaf(t, p, r, x);
    CreateLocalNodeIs(t, Created(t, p, r, x));
    CreateKeepsListOk(t, Created(t, p, r, x));
    LeafParents(t, p, r, x);
    RootedLeaf(LocalParents(t), LocalParents(t'), x, p);
  }

  // ------------------------------------------------------------------ hierarchical ids

  /** The grown tree's maps: only p knows a new remote id, and the new node knows none. */
  lemma LeafMaps(t: Tree, p: Id, r: Collection, x: Id)
    requires TreeOk(t) && CanCreate(t, p, r, x)
    ensures var t' := CreateLocalNode(t, Created(t, p, r, x));
      && (forall y :: y in t'.localUidMap <==> y in t.localUidMap || y == x)
      && Node(t', x) == LocalNode(Created(t, p, r, x), [], map[])
      && Node(t', p) == AddChild(Node(t, p), x, r.Rid())
      && (forall y :: y != x && y != p ==> Node(t', y) == Node(t, y))
      && (forall y :: y != x ==> Node(t', y).collection == Node(t, y).collection)
  {
    CreatedIsNewLeaf(t, p, r, x);
    CreateLocalNodeIs(t, Created(t, p, r, x));
  }

  /** The new remote id was not known to the parent before. */
  lemma NewRid(t: Tree, p: Id, r: Collection, x: Id)
    requires TreeOk(t) && t.hierarchicalRIDs && CanCreate(t, p, r, x) && RootedChain(r) && !r.IsRoot()
    ensures r.Rid() !in Node(t, p).childRidMap
  {
    MatchStep(t, r);
  }

  /** Walks change only where they end with the new remote id below p. */
  lemma {:induction false} LeafWalk(t: Tree, p: Id, r: Collection, x: Id, path: Path)
    requires TreeOk(t) && CanCreate(t, p, r, x) && r.Rid() !in Node(t, p).childRidMap
    ensures Walk(CreateLocalNode(t, Created(t, p, r, x)), path) ==
      if path != [] && path[|path| - 1] == r.Rid() && Walk(t, path[..|path| - 1]) == Some(p) then Some(x)
          else Walk(t, path)
    decreases |path|
  {
    LeafMaps(t, p, r, x);
    if path != [] {
      LeafWalk(t, p, r, x, path[..|path| - 1]);
      if Walk(t, path[..|path| - 1]).Some? {
        WalkPlace(t, path[..|path| - 1]);
      }
    }
  }

  /** What hangs deepest at another node than p stays there. */
  lemma {:induction false} LeafDeepest(t: Tree, p: Id, r: Collection, x: Id, path: Path)
    requires TreeOk(t) && CanCreate(t, p, r, x) && r.Rid() !in Node(t, p).childRidMap
    requires Deepest(t, path) != p
    ensures Deepest(CreateLocalNode(t, Created(t, p, r, x)), path) == Deepest(t, path)
    decreases |path|
  {
    LeafWalk(t, p, r, x, path);
    if path != [] && Walk(t, path).None? {
      assert Walk(t, path[..|path| - 1]) != Some(p);
      LeafDeepest(t, p, r, x, path[..|path| - 1]);
    }
  }

  lemma {:induction false} SameByName(t: Tree, t': Tree, kids: seq<Id>, name: string)
    requires forall k :: k in kids ==> Node(t', k).collection == Node(t, k).collection
    ensures FirstByName(t', kids, name) == FirstByName(t, kids, name)
  {
    if kids != [] {
      SameByName(t, t', kids[1..], name);
    }
  }

  lemma {:induction false} ByNameAppend(t: Tree, kids: seq<Id>, x: Id, name: string)
    requires Node(t, x).collection.Rid() != ""
    ensures FirstByName(t, kids + [x], name) == FirstByName(t, kids, name)
  {
    if kids == [] {
      assert (kids + [x])[1..] == [];
    } else {
      assert (kids + [x])[1..] == kids[1..] + [x];
      ByNameAppend(t, kids[1..], x, name);
    }
  }

  /** One step of matching below an old node changes only for the new remote id below p. */
  lemma LeafMatchBelow(t: Tree, p: Id, r: Collection, x: Id, q: Id, c: Collection)
    requires TreeOk(t) && CanCreate(t, p, r, x) && q in t.localUidMap
    ensures MatchBelow(CreateLocalNode(t, Created(t, p, r, x)), q, c) ==
      if q == p && c.Rid() == r.Rid() then Some(x) else MatchBelow(t, q, c)
  {
    var t' := CreateLocalNode(t, Created(t, p, r, x));
    LeafMaps(t, p, r, x);
    var kids := Node(t, q).childNodes;
    assert ListsChildren(t.localUidMap, q, t.localUidMap[q].childNodes);
    SameByName(t, t', kids, c.Name());
    if q == p {
      assert Node(t', q).childNodes == kids + [x];
      ByNameAppend(t', kids, x, c.Name());
    }
  }

  lemma LeafBelowNothing(t: Tree, p: Id, r: Collection, x: Id, c: Collection)
    requires TreeOk(t) && CanCreate(t, p, r, x)
    ensures MatchBelow(CreateLocalNode(t, Created(t, p, r, x)), x, c) == None
  {
    LeafMaps(t, p, r, x);
  }

  /** Along all chains of the listing, only r's own path gets a new match. */
  lemma {:induction false} ChainMatch(t: Tree, A: set<Collection>, p: Id, r: Collection, x: Id, e: Collection)
    requires TreeOk(t) && t.hierarchicalRIDs && GoodListing(true, A) && Coherent(t, A) && r in A
        && CanCreate(t, p, r, x)
    requires e.IsRoot() || InChains(A, e)
    ensures Match(CreateLocalNode(t, Created(t, p, r, x)), e) == if PathOf(e) == PathOf(r) then Some(x) else Match(t, e)
    decreases e
  {
    var t' := CreateLocalNode(t, Created(t, p, r, x));
    CreatedIsNewLeaf(t, p, r, x);
    ListedInChains(A, r);
    if !e.IsRoot() {
      ParentInChains(A, e);
      ChainMatch(t, A, p, r, x, e.parent);
      MatchStep(t, e);
      MatchStep(t', e);
      MatchStep(t, r);
      NewRid(t, p, r, x);
      SamePathSteps(e, r);
      SameParents(t, A, e, r);
      if PathOf(e.parent) == PathOf(r) {
        LeafBelowNothing(t, p, r, x, e);
        assert AgreeAt(t, e.parent, r);
      } else if Match(t, e.parent).Some? {
        MatchPlace(t, e.parent);
        LeafMatchBelow(t, p, r, x, Match(t, e.parent).value, e);
      }
    }
  }

  /** Equal paths are equal step by step. */
  lemma SamePathSteps(e: Collection, r: Collection)
    requires RootedChain(e) && !e.IsRoot() && RootedChain(r) && !r.IsRoot()
    ensures PathOf(e) == PathOf(r) <==> PathOf(e.parent) == PathOf(r.parent) && e.Rid() == r.Rid()
    ensures PathOf(e.parent) == PathOf(e) ==> false
  {
    assert PathOf(e) == PathOf(e.parent) + [e.remoteId];
    assert PathOf(r) == PathOf(r.parent) + [r.remoteId];
    assert PathOf(e)[..|PathOf(e)| - 1] == PathOf(e.parent) && PathOf(r)[..|PathOf(r)| - 1] == PathOf(r.parent);
  }

  lemma EmptyPathIsRoot(e: Collection)
    requires RootedChain(e)
    ensures PathOf(e) == [] <==> e.IsRoot()
  {
  }

  /** Parents match the same node exactly when their paths are the same, if r's has a match. */
  lemma SameParents(t: Tree, A: set<Collection>, e: Collection, r: Collection)
    requires TreeOk(t) && t.hierarchicalRIDs && Coherent(t, A) && InChains(A, e) && InChains(A, r)
    requires Match(t, r.parent).Some?
    ensures Match(t, e.parent) == Match(t, r.parent) <==> PathOf(e.parent) == PathOf(r.parent)
  {
    ParentInChains(A, e);
    ParentInChains(A, r);
    EmptyPathIsRoot(e.parent);
    EmptyPathIsRoot(r.parent);
    MatchPlace(t, r.parent);
    if Match(t, e.parent).Some? { MatchPlace(t, e.parent); }
    if !e.parent.IsRoot() && !r.parent.IsRoot() {
      assert AgreeAt(t, e.parent, r.parent);
    }
  }

  // ------------------------------------------------------------------ both modes

  /** Where nodes wait that a creation below p can affect. */
  ghost function Anchor(t: Tree, p: Id): Id {
    if t.hierarchicalRIDs then p else ROOT_ID
  }

  /** The created collection matches the new node, every other one matches as before. */
  lemma GrownMatch(t: Tree, A: set<Collection>, p: Id, r: Collection, x: Id, c: Collection)
    requires TreeOk(t) && GoodListing(t.hierarchicalRIDs, A) && r in A && c in A && CanCreate(t, p, r, x)
    requires t.hierarchicalRIDs ==> Coherent(t, A)
    ensures Match(CreateLocalNode(t, Created(t, p, r, x)), c) == if c == r then Some(x) else Match(t, c)
    ensures MatchParent(t, c).Some? ==> MatchParent(CreateLocalNode(t, Created(t, p, r, x)), c) == MatchParent(t, c)
  {
    CreatedIsNewLeaf(t, p, r, x);
    if t.hierarchicalRIDs {
      ListedInChains(A, c);
      ListedInChains(A, r);
      ChainMatch(t, A, p, r, x, c);
      ChainMatch(t, A, p, r, x, c.parent);
      if !c.parent.IsRoot() {
        assert AgreeAt(t, c.parent, r);
      } else {
        EmptyPathIsRoot(c.parent);
        EmptyPathIsRoot(r);
      }
    }
  }

  /** While its parent is missing, a collection waits where its parent would be created. */
  lemma BestIsGrandparent(t: Tree, c: Collection)
    requires t.hierarchicalRIDs && TreeOk(t) && RootedChain(c) && !c.IsRoot() && !c.parent.IsRoot()
    requires MatchParent(t, c).None? && !Strandable(t, c) && Match(t, c.parent.parent).Some?
    ensures Best(t, c) == Match(t, c.parent.parent)
    ensures Walk(t, PathOf(c.parent.parent)) == Match(t, c.parent.parent)
  {
    var g := c.parent.parent;
    assert Above(g, c.parent);
    assert !Recovered(t, g);
    WalkIsMatch(t, g);
    BestIsDeepest(t, c);
    if Walk(t, PathOf(c.parent)).Some? { WalkIsMatch(t, c.parent); }
    assert PathOf(c)[..|PathOf(c)| - 1] == PathOf(c.parent);
    assert PathOf(c.parent)[..|PathOf(c.parent)| - 1] == PathOf(g);
    assert Walk(t, PathOf(c.parent)).None? && Walk(t, PathOf(c)).None?;
    assert Deepest(t, PathOf(c)) == Deepest(t, PathOf(c.parent)) == Deepest(t, PathOf(g));
    DeepestOfWalk(t, PathOf(g));
  }

  lemma DeepestOfWalk(t: Tree, path: Path)
    requires Walk(t, path).Some?
    ensures Deepest(t, path) == Walk(t, path).value
  {
  }

  /** Nodes waiting anywhere else still wait rightly. */
  lemma GrownWaiting(t: Tree, A: set<Collection>, p: Id, r: Collection, x: Id, c: Collection)
    requires TreeOk(t) && Fits(t, A) && r in A && c in A && CanCreate(t, p, r, x)
    requires Match(t, c).None? && MatchParent(t, c).None? && Best(t, c) != Some(Anchor(t, p))
    ensures var t' := CreateLocalNode(t, Created(t, p, r, x));
      Match(t', c).None? && MatchParent(t', c).None? && Best(t', c) == Best(t, c)
  {
    var t' := CreateLocalNode(t, Created(t, p, r, x));
    CreatedIsNewLeaf(t, p, r, x);
    if t.hierarchicalRIDs {
      ListedInChains(A, c);
      ListedInChains(A, r);
      ChainMatch(t, A, p, r, x, c);
      ChainMatch(t, A, p, r, x, c.parent);
      NewRid(t, p, r, x);
      GrownTreeOk(t, p, r, x);
      BestIsDeepest(t, c);
      BestIsDeepest(t', c);
      LeafDeepest(t, p, r, x, PathOf(c));
      if PathOf(c.parent) == PathOf(r) {
        SamePathSteps(c.parent, r);
        SameParents(t, A, c.parent, r);
        assert !Strandable(t, c);
        BestIsGrandparent(t, c);
      }
      MatchStep(t', c);
    }
  }

  // ------------------------------------------------------------------ the listing still fits

  lemma GrownCoherent(t: Tree, A: set<Collection>, p: Id, r: Collection, x: Id)
    requires TreeOk(t) && t.hierarchicalRIDs && GoodListing(true, A) && Coherent(t, A) && r in A
        && CanCreate(t, p, r, x)
    ensures Coherent(CreateLocalNode(t, Created(t, p, r, x)), A)
  {
    var t' := CreateLocalNode(t, Created(t, p, r, x));
    forall e, f | InChains(A, e) && InChains(A, f) ensures AgreeAt(t', e, f) {
      ChainMatch(t, A, p, r, x, e);
      ChainMatch(t, A, p, r, x, f);
      assert AgreeAt(t, e, f);
      if Match(t, e).Some? { MatchPlace(t, e); }
      if Match(t, f).Some? { MatchPlace(t, f); }
    }
  }

  /** A recovered ancestor in the grown tree was recovered before. */
  lemma GrownRecovered(t: Tree, A: set<Collection>, p: Id, r: Collection, x: Id, d: Collection, b: Collection)
    requires TreeOk(t) && t.hierarchicalRIDs && Fits(t, A) && r in A && d in A && CanCreate(t, p, r, x)
    requires MatchParent(t, d).None? && Above(b, d.parent)
    ensures !Recovered(CreateLocalNode(t, Created(t, p, r, x)), b)
  {
    var t' := CreateLocalNode(t, Created(t, p, r, x));
    ListedInChains(A, d);
    ListedInChains(A, r);
    AboveRooted(b, d.parent);
    NewRid(t, p, r, x);
    if !b.IsRoot() {
      AboveTrans(b, d.parent, d);
      assert InChains(A, b);
      ChainMatch(t, A, p, r, x, b);
      assert !Strandable(t, d);
      LeafWalk(t, p, r, x, PathOf(b));
      if PathOf(b) == PathOf(r) {
        SamePathSteps(b, r);
        SameParents(t, A, b, r);
        assert Above(b.parent, b);
        AboveTrans(b.parent, b, d.parent);
        assert !Recovered(t, b.parent);
        AboveRooted(b.parent, b);
        WalkIsMatch(t, b.parent);
        assert PathOf(b)[..|PathOf(b)| - 1] == PathOf(b.parent);
      } else {
        assert !Recovered(t, b);
      }
    }
  }

  /** Creating a listed collection keeps the listing fitting. */
  lemma FitsGrown(t: Tree, A: set<Collection>, p: Id, r: Collection, x: Id)
    requires TreeOk(t) && Fits(t, A) && r in A && CanCreate(t, p, r, x)
    ensures Fits(CreateLocalNode(t, Created(t, p, r, x)), A)
  {
    var t' := CreateLocalNode(t, Created(t, p, r, x));
    CreatedIsNewLeaf(t, p, r, x);
    if t.hierarchicalRIDs {
      GrownCoherent(t, A, p, r, x);
      forall d | d in A ensures !Strandable(t', d) {
        GrownMatch(t, A, p, r, x, d);
        if MatchParent(t, d).None? {
          forall b | Above(b, d.Parent()) ensures !Recovered(t', b) {
            GrownRecovered(t, A, p, r, x, d, b);
          }
        }
      }
    }
  }
}
