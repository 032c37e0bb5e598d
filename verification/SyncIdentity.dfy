/** Which local collection a remote one is taken for, in terms of what the server listed and in
    which order (akonadi/collectionsync.cpp, findMatchingLocalNode and findLocalChildNodeByName). */
module SyncIdentity {
  import opened Collections
  import opened SyncState
  import opened SyncListing
  import opened SyncMatching

  /** The listed children of p, in the order they were listed. */
  function Brood(cols: seq<Collection>, p: Id): seq<Collection> {
    if cols == [] then []
    else
      var front := Brood(cols[..|cols| - 1], p);
      if cols[|cols| - 1].Parent().Uid() == p then front + [cols[|cols| - 1]] else front
  }

  /** y is the last one with the remote id. */
  predicate LastWithRid(b: seq<Collection>, r: string, y: Id) {
    exists k :: 0 <= k < |b| && b[k].Uid() == y && b[k].Rid() == r && forall l :: k < l < |b| ==> b[l].Rid() != r
  }

  predicate LostRid(c: Collection, name: string) {
    c.Rid() == "" && c.Name() == name
  }

  /** y is the first one with the name and without a remote id. */
  predicate FirstWithName(b: seq<Collection>, name: string, y: Id) {
    exists k :: 0 <= k < |b| && b[k].Uid() == y && LostRid(b[k], name) && forall l :: 0 <= l < k ==>
      !LostRid(b[l], name)
  }

  lemma LastWithRidMore(b: seq<Collection>, c: Collection, r: string, y: Id)
    ensures LastWithRid(b + [c], r, y) <==> if c.Rid() == r then y == c.Uid() else LastWithRid(b, r, y)
  {
    var b' := b + [c];
    if c.Rid() == r {
      assert b'[|b|] == c;
    } else {
      assert forall k :: 0 <= k < |b| ==> b'[k] == b[k];
      if k :| 0 <= k < |b| && b[k].Uid() == y && b[k].Rid() == r && forall l :: k < l < |b| ==> b[l].Rid() != r {
        assert b'[k].Rid() == r;
      }
    }
  }

  /** The nodes of a list of collections, in order. */
  ghost predicate NodesOf(t: Tree, kids: seq<Id>, b: seq<Collection>) {
    |kids| == |b| && forall k :: 0 <= k < |b| ==> b[k].Uid() == kids[k] && Node(t, kids[k]).collection == b[k]
  }

  /** A map files the last child with each remote id, and nothing else. */
  ghost predicate FilesLast(rids: map<string, Id>, b: seq<Collection>) {
    forall r, y {:trigger LastWithRid(b, r, y)} :: (r in rids && rids[r] == y) <==> (r != "" && LastWithRid(b, r, y))
  }

  lemma FilesLastMore(n: LocalNode, b: seq<Collection>, c: Collection)
    requires FilesLast(n.childRidMap, b)
    ensures FilesLast(AddChild(n, c.Uid(), c.Rid()).childRidMap, b + [c])
  {
    var rids := AddChild(n, c.Uid(), c.Rid()).childRidMap;
    forall r, y ensures (r in rids && rids[r] == y) <==> (r != "" && LastWithRid(b + [c], r, y)) {
      LastWithRidMore(b, c, r, y);
      assert LastWithRid(b, r, y) || !LastWithRid(b, r, y);
    }
  }

  lemma {:induction false} AdoptedInOrder(t: Tree, n: LocalNode, kids: seq<Id>, b: seq<Collection>)
    requires n.childNodes == [] && n.childRidMap == map[] && NodesOf(t, kids, b)
    ensures AddChildren(t, n, kids).childNodes == kids && FilesLast(AddChildren(t, n, kids).childRidMap, b)
  {
    if kids == [] {
      assert FilesLast(map[], b);
    } else {
      var front, c := b[..|b| - 1], b[|b| - 1];
      assert b == front + [c];
      AdoptedInOrder(t, n, kids[..|kids| - 1], front);
      FilesLastMore(AddChildren(t, n, kids[..|kids| - 1]), front, c);
    }
  }

  /** The children known for p, be it in the tree or not yet. */
  function Kids(t: Tree, p: Id): seq<Id> {
    if p in t.localUidMap then t.localUidMap[p].childNodes else Parked(t, p)
  }

  /** The tree keeps the children in the order they were listed, and files the last one with each
      remote id, below their parent or in the whole tree. */
  ghost predicate InOrder(t: Tree, cols: seq<Collection>) {
    && (forall p {:trigger Brood(cols, p)} :: NodesOf(t, Kids(t, p), Brood(cols, p)))
    && (forall p {:trigger Brood(cols, p)} :: p in t.localUidMap ==>
          FilesLast(t.localUidMap[p].childRidMap, Brood(cols, p)))
    && (!t.hierarchicalRIDs ==> FilesLast(t.localRidMap - {""}, cols))
  }

  lemma {:induction false} NothingListed(p: Id)
    ensures Brood([], p) == []
  {
  }

  lemma InitialInOrder(hierarchical: bool)
    ensures InOrder(InitialTree(hierarchical), [])
  {
    forall p ensures NodesOf(InitialTree(hierarchical), Kids(InitialTree(hierarchical), p), Brood([], p)) {
      NothingListed(p);
    }
  }

  lemma KidsAfter(t: Tree, col: Collection, p: Id)
    requires IsNew(t, col) && p != col.id && col.id !in Kids(t, p)
    ensures var t' := CreateLocalNode(t, col);
      Kids(t', p) == if p == col.Parent().Uid() then Kids(t, p) + [col.id] else Kids(t, p)
  {
    CreateLocalNodeIs(t, col);
  }

  /** The nodes of a list stay what they are, and a listed collection gets its own. */
  lemma NodesStay(t: Tree, col: Collection, kids: seq<Id>, b: seq<Collection>)
    requires IsNew(t, col) && NodesOf(t, kids, b)
    requires forall k :: 0 <= k < |kids| ==> kids[k] in t.localUidMap
    ensures NodesOf(CreateLocalNode(t, col), kids, b)
    ensures NodesOf(CreateLocalNode(t, col), kids + [col.id], b + [col])
  {
    CreateLocalNodeIs(t, col);
  }

  lemma {:induction false} BroodListed(cols: seq<Collection>, p: Id)
    ensures forall c :: c in Brood(cols, p) ==> c in cols
  {
    if cols != [] {
      BroodListed(cols[..|cols| - 1], p);
    }
  }

  /** One more collection is listed. */
  lemma CreateInOrder(t: Tree, cols: seq<Collection>, col: Collection)
    requires InOrder(t, cols) && IsNew(t, col) && forall c :: c in cols ==> c.Uid() in t.localUidMap
    ensures InOrder(CreateLocalNode(t, col), cols + [col])
  {
    var t' := CreateLocalNode(t, col);
    var cols' := cols + [col];
    assert cols'[..|cols|] == cols;
    forall p ensures NodesOf(t', Kids(t', p), Brood(cols', p))
      ensures p in t'.localUidMap ==> FilesLast(t'.localUidMap[p].childRidMap, Brood(cols', p))
    {
      CreateOneInOrder(t, cols, col, p);
    }
    if !t.hierarchicalRIDs {
      FilesLastMore(LocalNode(col, [], t.localRidMap - {""}), cols, col);
      assert t'.localRidMap - {""} == AddChild(LocalNode(col, [], t.localRidMap - {""}), col.id, col.Rid()).childRidMap;
    }
  }

  lemma CreateOneInOrder(t: Tree, cols: seq<Collection>, col: Collection, p: Id)
    requires InOrder(t, cols) && IsNew(t, col) && forall c :: c in cols ==> c.Uid() in t.localUidMap
    ensures var t' := CreateLocalNode(t, col);
      && NodesOf(t', Kids(t', p), Brood(cols + [col], p))
      && (p in t'.localUidMap ==> FilesLast(t'.localUidMap[p].childRidMap, Brood(cols + [col], p)))
  {
    var t' := CreateLocalNode(t, col);
    var cols' := cols + [col];
    assert cols'[..|cols|] == cols;
    var b := Brood(cols, p);
    assert NodesOf(t, Kids(t, p), b);
    BroodListed(cols, p);
    forall k | 0 <= k < |b| ensures Kids(t, p)[k] in t.localUidMap {
      assert b[k] in b;
    }
    NodesStay(t, col, Kids(t, p), b);
    CreateLocalNodeIs(t, col);
    if p == col.id {
      AdoptedInOrder(t, LocalNode(col, [], map[]), Parked(t, p), b);
    } else {
      KidsAfter(t, col, p);
      if p in t.localUidMap && p == col.Parent().Uid() {
        FilesLastMore(t.localUidMap[p], b, col);
      }
    }
  }

  /** The whole listing, in whatever batches it came. */
  lemma {:induction false} ListedInOrder(hierarchical: bool, cols: seq<Collection>)
    requires FreshListing(InitialTree(hierarchical), cols)
    ensures InOrder(LocalCollectionsReceived(InitialTree(hierarchical), cols), cols)
    ensures LocalCollectionsReceived(InitialTree(hierarchical), cols).hierarchicalRIDs == hierarchical
  {
    var t0 := InitialTree(hierarchical);
    if cols == [] {
      InitialInOrder(hierarchical);
    } else {
      var front, last := cols[..|cols| - 1], cols[|cols| - 1];
      assert cols == front + [last];
      FreshPrefix(t0, cols);
      ReceivedNodes(t0, front);
      ListedInOrder(hierarchical, front);
      var t := LocalCollectionsReceived(t0, front);
      forall c | c in front ensures c.Uid() in t.localUidMap {
        assert Holds(t, c);
      }
      CreateInOrder(t, front, last);
    }
  }

  lemma {:induction false} FoundByName(t: Tree, kids: seq<Id>, b: seq<Collection>, name: string, y: Id)
    requires NodesOf(t, kids, b)
    ensures FirstByName(t, kids, name) == Some(y) <==> FirstWithName(b, name, y)
  {
    if b != [] {
      FoundByName(t, kids[1..], b[1..], name, y);
      if LostRid(b[0], name) {
        assert FirstByName(t, kids, name) == Some(b[0].Uid());
      } else {
        FirstWithNameLater(b, name, y);
      }
    }
  }

  lemma FirstWithNameLater(b: seq<Collection>, name: string, y: Id)
    requires b != [] && !LostRid(b[0], name)
    ensures FirstWithName(b, name, y) <==> FirstWithName(b[1..], name, y)
  {
    var rest := b[1..];
    if FirstWithName(b, name, y) {
      var k :| 0 <= k < |b| && b[k].Uid() == y && LostRid(b[k], name)
        && forall l :: 0 <= l < k ==> !LostRid(b[l], name);
      assert rest[k - 1] == b[k];
      assert forall l :: 0 <= l < k - 1 ==> rest[l] == b[l + 1];
    }
    if FirstWithName(rest, name, y) {
      var k :| 0 <= k < |rest| && rest[k].Uid() == y && LostRid(rest[k], name)
        && forall l :: 0 <= l < k ==> !LostRid(rest[l], name);
      assert b[k + 1] == rest[k];
      assert forall l :: 1 <= l < k + 1 ==> b[l] == rest[l - 1];
    }
  }

  /** Some listed child of p has the remote id. */
  predicate SomeRid(b: seq<Collection>, r: string) {
    exists k :: 0 <= k < |b| && b[k].Rid() == r
  }

  lemma {:induction false} SomeIsLast(b: seq<Collection>, r: string)
    requires SomeRid(b, r)
    ensures exists y :: LastWithRid(b, r, y)
  {
    var front, c := b[..|b| - 1], b[|b| - 1];
    assert b == front + [c];
    if c.Rid() == r {
      LastWithRidMore(front, c, r, c.Uid());
    } else {
      var k :| 0 <= k < |b| && b[k].Rid() == r;
      assert front[k] == b[k];
      SomeIsLast(front, r);
      var y :| LastWithRid(front, r, y);
      LastWithRidMore(front, c, r, y);
    }
  }

  lemma MatchBelowListed(t: Tree, p: Id, c: Collection, b: seq<Collection>, y: Id)
    requires NodesOf(t, Node(t, p).childNodes, b) && FilesLast(Node(t, p).childRidMap, b) && c.Rid() != ""
    ensures MatchBelow(t, p, c) == Some(y) <==>
      if SomeRid(b, c.Rid()) then LastWithRid(b, c.Rid(), y)
      else p != ROOT_ID && c.Name() != "" && FirstWithName(b, c.Name(), y)
  {
    var rids := Node(t, p).childRidMap;
    FoundByName(t, Node(t, p).childNodes, b, c.Name(), y);
    if SomeRid(b, c.Rid()) {
      SomeIsLast(b, c.Rid());
      var z :| LastWithRid(b, c.Rid(), z);
      assert c.Rid() in rids;
    }
    assert c.Rid() in rids ==> LastWithRid(b, c.Rid(), rids[c.Rid()]);
    assert LastWithRid(b, c.Rid(), y) || !LastWithRid(b, c.Rid(), y);
  }

  /** Below the match of its parent, a remote collection is taken for the last listed child with
      its remote id; if there is none, and never directly below the root, for the first listed
      child with its name that has no remote id. */
  lemma MatchInListing(cols: seq<Collection>, c: Collection, p: Id, y: Id)
    requires FreshListing(InitialTree(true), cols) && RootedChain(c) && !c.IsRoot()
    requires var t := LocalCollectionsReceived(InitialTree(true), cols);
      p in t.localUidMap && Match(t, c.parent) == Some(p)
    ensures var b := Brood(cols, p);
      Match(LocalCollectionsReceived(InitialTree(true), cols), c) == Some(y) <==>
        if SomeRid(b, c.Rid()) then LastWithRid(b, c.Rid(), y)
        else p != ROOT_ID && c.Name() != "" && FirstWithName(b, c.Name(), y)
  {
    var t := LocalCollectionsReceived(InitialTree(true), cols);
    var b := Brood(cols, p);
    ListedInOrder(true, cols);
    MatchStep(t, c);
    assert NodesOf(t, Kids(t, p), b) && FilesLast(Node(t, p).childRidMap, b);
    MatchBelowListed(t, p, c, b, y);
  }

  /** With global remote ids it is taken for the last listed collection with its remote id. */
  lemma GlobalMatchInListing(cols: seq<Collection>, c: Collection, y: Id)
    requires FreshListing(InitialTree(false), cols) && c.Rid() != ""
    ensures Match(LocalCollectionsReceived(InitialTree(false), cols), c) == Some(y) <==> LastWithRid(cols, c.Rid(), y)
  {
    ListedInOrder(false, cols);
    assert LastWithRid(cols, c.Rid(), y) || !LastWithRid(cols, c.Rid(), y);
    var t := LocalCollectionsReceived(InitialTree(false), cols);
    assert c.Rid() in t.localRidMap - {""} <==> c.Rid() in t.localRidMap;
  }
}
