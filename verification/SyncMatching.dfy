/** What finding a local match means: with hierarchical remote ids it is following a path of
    remote ids from the root, with detours by name where a remote id was lost; with global ones
    a look-up by remote id (akonadi/collectionsync.cpp, findMatchingLocalNode and
    findBestLocalAncestor). */
module SyncMatching {
  import opened Collections
  import opened Trees
  import opened SyncState
  import opened SyncListing

  type Path = seq<string>

  /** Remote ids from just below the root down to the collection. */
  function PathOf(c: Collection): Path
    decreases c
  {
    if c.Invalid? || c.IsRoot() then [] else PathOf(c.parent) + [c.remoteId]
  }

  /** A chain of collections with remote ids that ends in the root. */
  predicate RootedChain(c: Collection)
    decreases c
  {
    c.IsRoot() || (c.Collection? && c.remoteId != "" && RootedChain(c.parent))
  }

  /** The connected local tree of a finished listing. */
  ghost predicate TreeOk(t: Tree) {
    && ListOk(t)
    && t.localPendingCollections == map[]
    && Rooted(LocalParents(t))
  }

  ghost predicate AllHaveRids(t: Tree) {
    forall x :: x in t.localUidMap && x != ROOT_ID ==> t.localUidMap[x].collection.Rid() != ""
  }

  // ------------------------------------------------------------------ paths of remote ids

  /** Follows a path of remote ids through the per-parent maps. */
  function Walk(t: Tree, p: Path): Option<Id> {
    if p == [] then Some(ROOT_ID)
    else
      var up := Walk(t, p[..|p| - 1]);
      if up.Some? && p[|p| - 1] in Node(t, up.value).childRidMap
      then Some(Node(t, up.value).childRidMap[p[|p| - 1]])
      else None
  }

  /** The node at the longest prefix that can be walked. */
  function Deepest(t: Tree, p: Path): Id {
    if p == [] then ROOT_ID
    else if Walk(t, p).Some? then Walk(t, p).value
    else Deepest(t, p[..|p| - 1])
  }

  lemma WalkPlace(t: Tree, p: Path)
    requires NodesOk(t.localUidMap) && RidMapsOk(t.localUidMap) && Walk(t, p).Some?
    ensures Walk(t, p).value in t.localUidMap
    ensures p != [] ==>
      && Walk(t, p).value != ROOT_ID
      && Node(t, Walk(t, p).value).collection.Rid() == p[|p| - 1]
      && Walk(t, p[..|p| - 1]) == Some(Node(t, Walk(t, p).value).collection.Parent().Uid())
  {
    if p != [] {
      WalkPlace(t, p[..|p| - 1]);
      var up := Walk(t, p[..|p| - 1]).value;
      assert FilesRids(t.localUidMap, up, t.localUidMap[up].childRidMap);
    }
  }

  /** No two paths lead to the same node. */
  lemma {:induction false} WalkInjective(t: Tree, p: Path, q: Path)
    requires NodesOk(t.localUidMap) && RidMapsOk(t.localUidMap)
    requires Walk(t, p).Some? && Walk(t, p) == Walk(t, q)
    ensures p == q
  {
    WalkPlace(t, p);
    WalkPlace(t, q);
    if p != [] && q != [] {
      WalkInjective(t, p[..|p| - 1], q[..|q| - 1]);
      assert p == p[..|p| - 1] + [p[|p| - 1]];
      assert q == q[..|q| - 1] + [q[|q| - 1]];
    }
  }

  lemma {:induction false} NoneByName(t: Tree, kids: seq<Id>, name: string)
    requires AllHaveRids(t) && forall x :: x in kids ==> x in t.localUidMap && x != ROOT_ID
    ensures FirstByName(t, kids, name) == None
  {
    if kids != [] {
      assert kids[0] in kids && forall x :: x in kids[1..] ==> x in kids;
      NoneByName(t, kids[1..], name);
    }
  }

  lemma NoRecoveryByName(t: Tree, p: Id, name: string)
    requires ListOk(t) && AllHaveRids(t)
    ensures FindLocalChildNodeByName(t, p, name) == None
  {
    if p in t.localUidMap {
      assert ListsChildren(t.localUidMap, p, t.localUidMap[p].childNodes);
      assert forall x :: x in t.localUidMap[p].childNodes ==> ChildOf(t.localUidMap, x, p);
      NoneByName(t, t.localUidMap[p].childNodes, name);
    }
  }

  /** When no local collection has lost its remote id, matching a rooted chain is walking its
      path. */
  lemma {:induction false} MatchIsWalk(t: Tree, c: Collection)
    requires TreeOk(t) && t.hierarchicalRIDs && AllHaveRids(t) && RootedChain(c)
    ensures FindMatchingLocalNode(t, c) == Walk(t, PathOf(c))
    decreases c
  {
    if !c.IsRoot() {
      var p := PathOf(c);
      assert p[..|p| - 1] == PathOf(c.parent);
      MatchIsWalk(t, c.parent);
      var up := Walk(t, PathOf(c.parent));
      if up.Some? {
        NoRecoveryByName(t, up.value, c.Name());
      }
    }
  }

  /** The best ancestor of a rooted chain is the deepest node on its path. */
  lemma {:induction false} BestIsDeepest(t: Tree, c: Collection)
    requires t.hierarchicalRIDs && RootedChain(c)
    ensures FindBestLocalAncestor(t, c) == Ancestor(Some(Deepest(t, PathOf(c))), Walk(t, PathOf(c)).Some?)
    decreases c
  {
    if !c.IsRoot() {
      var p := PathOf(c);
      assert p[..|p| - 1] == PathOf(c.parent);
      BestIsDeepest(t, c.parent);
    }
  }

  lemma {:induction false} DeepestIsNode(t: Tree, p: Path)
    requires NodesOk(t.localUidMap) && RidMapsOk(t.localUidMap)
    ensures Deepest(t, p) in t.localUidMap
  {
    if p != [] {
      if Walk(t, p).Some? {
        WalkPlace(t, p);
      } else {
        DeepestIsNode(t, p[..|p| - 1]);
      }
    }
  }

  /** If a path breaks off below q's front, everything under q hangs on the node before. */
  lemma {:induction false} DeepestBelowGap(t: Tree, q: Path, p: Path)
    requires q != [] && q <= p && Walk(t, q).None? && Walk(t, q[..|q| - 1]).Some?
    ensures Deepest(t, p) == Walk(t, q[..|q| - 1]).value && Walk(t, p).None?
  {
    if |p| == |q| {
      assert p == q;
      assert q[..|q| - 1] == [] || Walk(t, q[..|q| - 1]).Some?;
    } else {
      assert q <= p[..|p| - 1];
      DeepestBelowGap(t, q, p[..|p| - 1]);
    }
  }

  // ------------------------------------------------------------------ matching by name

  lemma {:induction false} ByNameIs(t: Tree, kids: seq<Id>, name: string)
    ensures var y := FirstByName(t, kids, name);
      y.Some? ==>
        y.value in kids && Node(t, y.value).collection.Rid() == "" && Node(t, y.value).collection.Name() == name
    ensures FirstByName(t, kids, name).None? ==>
      forall x :: x in kids && Node(t, x).collection.Rid() == "" ==> Node(t, x).collection.Name() != name
  {
    if kids != [] {
      ByNameIs(t, kids[1..], name);
    }
  }

  /** A walk along remote ids is followed by the matching, too. */
  lemma {:induction false} WalkIsMatch(t: Tree, c: Collection)
    requires t.hierarchicalRIDs && RootedChain(c) && Walk(t, PathOf(c)).Some?
    ensures FindMatchingLocalNode(t, c) == Walk(t, PathOf(c))
    decreases c
  {
    if !c.IsRoot() {
      var p := PathOf(c);
      assert p[..|p| - 1] == PathOf(c.parent);
      WalkIsMatch(t, c.parent);
    }
  }

  /** One step of matching below a known parent. */
  function MatchBelow(t: Tree, p: Id, c: Collection): Option<Id> {
    if c.Rid() in Node(t, p).childRidMap then Some(Node(t, p).childRidMap[c.Rid()])
    else FindLocalChildNodeByName(t, p, c.Name())
  }

  lemma MatchStep(t: Tree, c: Collection)
    requires t.hierarchicalRIDs && RootedChain(c) && !c.IsRoot()
    ensures var p := FindMatchingLocalNode(t, c.parent);
      FindMatchingLocalNode(t, c) == if p.None? then None else MatchBelow(t, p.value, c)
    ensures c.parent.IsRoot() ==> FindMatchingLocalNode(t, c.parent) == Some(ROOT_ID)
  {
  }

  /** What a matched child is: a child of the parent, with the remote id, or with the name and
      no remote id. */
  lemma MatchBelowIs(t: Tree, p: Id, c: Collection)
    requires ListOk(t) && p in t.localUidMap && MatchBelow(t, p, c).Some?
    ensures var y := MatchBelow(t, p, c).value;
      && ChildOf(t.localUidMap, y, p)
      && (Node(t, y).collection.Rid() == c.Rid() || Node(t, y).collection.Rid() == "")
  {
    assert FilesRids(t.localUidMap, p, t.localUidMap[p].childRidMap);
    assert ListsChildren(t.localUidMap, p, t.localUidMap[p].childNodes);
    ByNameIs(t, t.localUidMap[p].childNodes, c.Name());
  }

  /** Where a matched collection is in the tree. */
  lemma {:induction false} MatchPlace(t: Tree, c: Collection)
    requires ListOk(t) && t.hierarchicalRIDs && RootedChain(c) && FindMatchingLocalNode(t, c).Some?
    ensures FindMatchingLocalNode(t, c).value in t.localUidMap
    ensures !c.IsRoot() ==>
      && FindMatchingLocalNode(t, c).value != ROOT_ID
      && FindMatchingLocalNode(t, c.parent) 
          == Some(Node(t, FindMatchingLocalNode(t, c).value).collection.Parent().Uid())
    decreases c
  {
    if !c.IsRoot() {
      MatchStep(t, c);
      MatchPlace(t, c.parent);
      MatchBelowIs(t, FindMatchingLocalNode(t, c.parent).value, c);
    }
  }

  // ------------------------------------------------------------------ chains of a listing

  /** b is a proper ancestor in the chain of parents of c. */
  predicate Above(b: Collection, c: Collection)
    decreases c
  {
    c.Collection? && !c.IsRoot() && (b == c.parent || Above(b, c.parent))
  }

  /** A collection of the listing, or an ancestor of one below the root. */
  ghost predicate InChains(A: set<Collection>, e: Collection) {
    !e.IsRoot() && RootedChain(e) && exists c :: c in A && (e == c || Above(e, c))
  }

  lemma {:induction false} AboveTrans(a: Collection, b: Collection, c: Collection)
    requires Above(a, b) && (b == c || Above(b, c))
    ensures Above(a, c)
    decreases c
  {
    if b != c && b != c.parent {
      AboveTrans(a, b, c.parent);
    }
  }

  lemma {:induction false} AboveRooted(b: Collection, c: Collection)
    requires RootedChain(c) && Above(b, c)
    ensures RootedChain(b)
    decreases c
  {
    if b != c.parent {
      AboveRooted(b, c.parent);
    }
  }

  lemma ListedInChains(A: set<Collection>, c: Collection)
    requires c in A && RootedChain(c) && !c.IsRoot()
    ensures InChains(A, c) && (!c.parent.IsRoot() ==> InChains(A, c.parent))
  {
    assert Above(c.parent, c);
    AboveRooted(c.parent, c);
  }

  lemma ParentInChains(A: set<Collection>, e: Collection)
    requires InChains(A, e)
    ensures RootedChain(e.parent) && (!e.parent.IsRoot() ==> InChains(A, e.parent))
  {
    var c :| c in A && (e == c || Above(e, c));
    assert Above(e.parent, e);
    AboveTrans(e.parent, e, c);
  }

  // ------------------------------------------------------------------ a listing

  /** What a remote listing promises: remote ids unique per parent with rooted chains in
      hierarchical mode, globally unique remote ids otherwise. */
  ghost predicate GoodListing(hierarchical: bool, A: set<Collection>) {
    if hierarchical then
      && (forall c :: c in A ==> RootedChain(c) && !c.IsRoot())
      && (forall c, d :: c in A && d in A && PathOf(c) == PathOf(d) ==> c == d)
    else
      && (forall c :: c in A ==> c.Rid() != "")
      && (forall c, d :: c in A && d in A && c.Rid() == d.Rid() ==> c == d)
  }

  /** The same path has the same match, and different paths have different ones. */
  ghost predicate AgreeAt(t: Tree, e: Collection, f: Collection) {
    && (PathOf(e) == PathOf(f) ==> Match(t, e) == Match(t, f))
    && (Match(t, e).Some? && Match(t, e) == Match(t, f) ==> PathOf(e) == PathOf(f))
  }

  ghost predicate Coherent(t: Tree, A: set<Collection>) {
    forall e, f {:trigger AgreeAt(t, e, f)} :: InChains(A, e) && InChains(A, f) ==> AgreeAt(t, e, f)
  }

  /** A node that was recovered by name although its path of remote ids breaks off: nothing
      that waits for its parent below such a node is ever looked at from there. */
  ghost predicate Recovered(t: Tree, b: Collection) {
    Match(t, b).Some? && Walk(t, PathOf(b)).None?
  }

  /** Its parent is missing, and some ancestor of the parent was recovered by name. */
  ghost predicate Strandable(t: Tree, d: Collection) {
    MatchParent(t, d).None? && exists b :: Above(b, d.Parent()) && Recovered(t, b)
  }

  ghost predicate NothingStrandable(t: Tree, A: set<Collection>) {
    forall d {:trigger Strandable(t, d)} :: d in A ==> !Strandable(t, d)
  }

  /** The listing fits the local tree: what is matched is unambiguous and, with hierarchical
      remote ids, nothing can be stranded below a node recovered by name. */
  ghost predicate Fits(t: Tree, A: set<Collection>) {
    && GoodListing(t.hierarchicalRIDs, A)
    && (t.hierarchicalRIDs ==> Coherent(t, A) && NothingStrandable(t, A))
  }

  lemma FitsSubset(t: Tree, A: set<Collection>, B: set<Collection>)
    requires Fits(t, B) && A <= B
    ensures Fits(t, A)
  {
    forall d | d in A && t.hierarchicalRIDs ensures !Strandable(t, d) {
      assert d in B;
    }
    forall e, f | InChains(A, e) && InChains(A, f) && t.hierarchicalRIDs ensures AgreeAt(t, e, f) {
      assert InChains(B, e) && InChains(B, f);
    }
  }

  ghost function Match(t: Tree, c: Collection): Option<Id> {
    FindMatchingLocalNode(t, c)
  }

  ghost function MatchParent(t: Tree, c: Collection): Option<Id> {
    FindMatchingLocalNode(t, c.Parent())
  }

  ghost function Best(t: Tree, c: Collection): Option<Id> {
    FindBestLocalAncestor(t, c).node
  }

  /** When no local collection has lost its remote id, every good listing fits. */
  lemma AllRidsFit(t: Tree, A: set<Collection>)
    requires TreeOk(t) && GoodListing(t.hierarchicalRIDs, A) && (t.hierarchicalRIDs ==> AllHaveRids(t))
    ensures Fits(t, A)
  {
    if t.hierarchicalRIDs {
      forall e, f | InChains(A, e) && InChains(A, f) ensures AgreeAt(t, e, f) {
        MatchIsWalk(t, e);
        MatchIsWalk(t, f);
        if Match(t, e).Some? && Match(t, e) == Match(t, f) {
          WalkInjective(t, PathOf(e), PathOf(f));
        }
      }
      forall d | d in A ensures !Strandable(t, d) {
        forall b | Above(b, d.Parent()) ensures !Recovered(t, b) {
          ListedInChains(A, d);
          AboveRooted(b, d.parent);
          MatchIsWalk(t, b);
        }
      }
    }
  }

  /** Matches of listed collections are nodes other than the root. */
  lemma MatchIsNode(t: Tree, A: set<Collection>, c: Collection)
    requires TreeOk(t) && GoodListing(t.hierarchicalRIDs, A) && c in A
    ensures Match(t, c).Some? ==> Match(t, c).value in t.localUidMap && Match(t, c).value != ROOT_ID
    ensures MatchParent(t, c).Some? ==> MatchParent(t, c).value in t.localUidMap
    ensures Best(t, c).Some? && Best(t, c).value in t.localUidMap
  {
    if t.hierarchicalRIDs {
      BestIsDeepest(t, c);
      DeepestIsNode(t, PathOf(c));
      if Match(t, c).Some? { MatchPlace(t, c); }
      if MatchParent(t, c).Some? { MatchPlace(t, c.parent); }
    }
  }

  /** Distinct listed collections never match the same node. */
  lemma MatchInjective(t: Tree, A: set<Collection>, c: Collection, d: Collection)
    requires TreeOk(t) && Fits(t, A) && c in A && d in A
    requires Match(t, c).Some? && Match(t, c) == Match(t, d)
    ensures c == d
  {
    if t.hierarchicalRIDs {
      ListedInChains(A, c);
      ListedInChains(A, d);
      assert AgreeAt(t, c, d);
    }
  }
}
