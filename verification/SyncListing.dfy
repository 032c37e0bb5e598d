/** Building the local tree from a listing that arrives in any order
    (akonadi/collectionsync.cpp, createLocalNode). */
module SyncListing {
  import opened Collections
  import opened SyncState

  type Nodes = map<Id, LocalNode>

  ghost predicate ChildOf(m: Nodes, x: Id, p: Id) {
    x in m && x != ROOT_ID && m[x].collection.Parent().Uid() == p
  }

  ghost predicate NodesOk(m: Nodes) {
    && ROOT_ID in m && m[ROOT_ID].collection == ROOT
    && forall x :: x in m ==> m[x].collection.Collection? && m[x].collection.Uid() == x
  }

  /** Each node is listed exactly once below its parent, and nowhere else. */
  ghost predicate ListsChildren(m: Nodes, p: Id, kids: seq<Id>) {
    NoDup(kids) && forall x :: x in kids <==> ChildOf(m, x, p)
  }

  ghost predicate ChildrenOk(m: Nodes) {
    forall p {:trigger ListsChildren(m, p, m[p].childNodes)} :: p in m ==> ListsChildren(m, p, m[p].childNodes)
  }

  /** The remote-id map of a node leads to children with that remote id, and knows the
      remote id of every child that has one. */
  ghost predicate FilesRids(m: Nodes, p: Id, rids: map<string, Id>) {
    && (forall r :: r in rids ==> r != "" && ChildOf(m, rids[r], p) && m[rids[r]].collection.Rid() == r)
    && (forall x :: ChildOf(m, x, p) && m[x].collection.Rid() != "" ==> m[x].collection.Rid() in rids)
  }

  ghost predicate RidMapsOk(m: Nodes) {
    forall p {:trigger FilesRids(m, p, m[p].childRidMap)} :: p in m ==> FilesRids(m, p, m[p].childRidMap)
  }

  /** Exactly the children of missing parents are parked, each once. */
  ghost predicate ParkedOk(m: Nodes, parked: map<Id, seq<Id>>) {
    && (forall p {:trigger ListsChildren(m, p, parked[p])} :: p in parked ==>
          p !in m && parked[p] != [] && ListsChildren(m, p, parked[p]))
    && (forall x, p {:trigger ChildOf(m, x, p)} :: ChildOf(m, x, p) ==> p in m || p in parked)
  }

  /** With global remote ids, the map from remote id to node. */
  ghost predicate GlobalRidsOk(t: Tree) {
    && "" in t.localRidMap && t.localRidMap[""] == ROOT_ID
    && (!t.hierarchicalRIDs ==>
          && (forall r :: r in t.localRidMap ==>
                t.localRidMap[r] in t.localUidMap && t.localUidMap[t.localRidMap[r]].collection.Rid() == r)
          && (forall x :: x in t.localUidMap && t.localUidMap[x].collection.Rid() != "" ==>
                t.localUidMap[x].collection.Rid() in t.localRidMap))
  }

  ghost predicate ListOk(t: Tree) {
    && NodesOk(t.localUidMap)
    && ChildrenOk(t.localUidMap)
    && RidMapsOk(t.localUidMap)
    && ParkedOk(t.localUidMap, t.localPendingCollections)
    && GlobalRidsOk(t)
  }

  lemma InitialListOk(hierarchical: bool)
    ensures ListOk(InitialTree(hierarchical))
  {
  }

  /** Adopting a list of children: they are appended in order, and their remote ids filed. */
  lemma {:induction false} AddChildrenIs(t: Tree, n: LocalNode, kids: seq<Id>)
    ensures AddChildren(t, n, kids).collection == n.collection
    ensures AddChildren(t, n, kids).childNodes == n.childNodes + kids
    ensures forall r :: r in AddChildren(t, n, kids).childRidMap ==>
      var v := AddChildren(t, n, kids).childRidMap[r];
      (r in n.childRidMap && v == n.childRidMap[r]) || (v in kids && r != "" && Node(t, v).collection.Rid() == r)
    ensures forall x :: x in kids && Node(t, x).collection.Rid() != "" ==>
      Node(t, x).collection.Rid() in AddChildren(t, n, kids).childRidMap
    ensures n.childRidMap.Keys <= AddChildren(t, n, kids).childRidMap.Keys
  {
    if kids != [] {
      var last := kids[|kids| - 1];
      var front := kids[..|kids| - 1];
      assert kids == front + [last];
      AddChildrenIs(t, n, front);
      assert n.childNodes + kids == n.childNodes + front + [last];
    }
  }

  /** A collection that is not in the tree yet, and is not its own parent. */
  ghost predicate IsNew(t: Tree, col: Collection) {
    col.Collection? && col.id != ROOT_ID && col.id !in t.localUidMap && col.Parent().Uid() != col.id
  }

  /** Where a new collection goes, in terms of the tree before it arrived. */
  lemma CreateLocalNodeIs(t: Tree, col: Collection)
    requires IsNew(t, col)
    ensures var t' := CreateLocalNode(t, col); var x := col.id; var p := col.Parent().Uid();
      && t'.localUidMap.Keys == t.localUidMap.Keys + {x}
      && t'.localUidMap[x] == AddChildren(t, LocalNode(col, [], map[]), Parked(t, x))
      && t'.localUidMap[x].collection == col
      && (forall y :: y in t.localUidMap ==>
            t'.localUidMap[y] == if y == p then AddChild(t.localUidMap[y], x, col.Rid()) else t.localUidMap[y])
  {
    AddChildrenIs(t, LocalNode(col, [], map[]), Parked(t, col.id));
  }

  lemma CreateKeepsNodes(t: Tree, col: Collection)
    requires IsNew(t, col) && NodesOk(t.localUidMap)
    ensures NodesOk(CreateLocalNode(t, col).localUidMap)
    ensures forall y, p :: ChildOf(CreateLocalNode(t, col).localUidMap, y, p) <==>
      ChildOf(t.localUidMap, y, p) || (y == col.id && p == col.Parent().Uid())
  {
    CreateLocalNodeIs(t, col);
  }

  /** m' is m with a new node x below q. */
  ghost predicate Extends(m: Nodes, m': Nodes, x: Id, q: Id) {
    && x !in m && m'.Keys == m.Keys + {x}
    && (forall y :: y in m ==> m'[y].collection == m[y].collection)
    && (forall y, p {:trigger ChildOf(m', y, p)} :: ChildOf(m', y, p) <==> ChildOf(m, y, p) || (y == x && p == q))
  }

  lemma ListsExtend(m: Nodes, m': Nodes, x: Id, q: Id, p: Id, kids: seq<Id>)
    requires Extends(m, m', x, q) && ListsChildren(m, p, kids)
    ensures ListsChildren(m', p, if p == q then kids + [x] else kids)
  {
    assert !ChildOf(m, x, p);
    assert x !in kids;
    forall y ensures y in (if p == q then kids + [x] else kids) <==> ChildOf(m', y, p) {
      assert y in kids <==> ChildOf(m, y, p);
    }
  }

  lemma FilesExtend(m: Nodes, m': Nodes, x: Id, q: Id, p: Id, rids: map<string, Id>)
    requires Extends(m, m', x, q) && FilesRids(m, p, rids)
    ensures FilesRids(m', p, if p == q && m'[x].collection.Rid() != "" then rids[m'[x].collection.Rid() := x] else rids)
  {
    assert p == q ==> ChildOf(m', x, p);
  }

  lemma CreateExtends(t: Tree, col: Collection)
    requires IsNew(t, col) && NodesOk(t.localUidMap)
    ensures Extends(t.localUidMap, CreateLocalNode(t, col).localUidMap, col.id, col.Parent().Uid())
  {
    CreateLocalNodeIs(t, col);
    CreateKeepsNodes(t, col);
  }

  lemma CreateKeepsChildren(t: Tree, col: Collection)
    requires ListOk(t) && IsNew(t, col)
    ensures ChildrenOk(CreateLocalNode(t, col).localUidMap)
  {
    CreateLocalNodeIs(t, col);
    CreateExtends(t, col);
    var m := t.localUidMap;
    var m' := CreateLocalNode(t, col).localUidMap;
    var q := col.Parent().Uid();
    forall p | p in m' ensures ListsChildren(m', p, m'[p].childNodes) {
      if p != col.id {
        assert ListsChildren(m, p, m[p].childNodes);
        ListsExtend(m, m', col.id, q, p, m[p].childNodes);
      } else {
        AddChildrenIs(t, LocalNode(col, [], map[]), Parked(t, p));
        if p in t.localPendingCollections {
          assert ListsChildren(m, p, t.localPendingCollections[p]);
          ListsExtend(m, m', col.id, q, p, Parked(t, p));
        } else {
          NoChildrenParked(t, p);
        }
      }
    }
  }

  /** A missing node without parked children has no children at all. */
  lemma NoChildrenParked(t: Tree, p: Id)
    requires ParkedOk(t.localUidMap, t.localPendingCollections)
    requires p !in t.localUidMap && p !in t.localPendingCollections
    ensures forall y :: !ChildOf(t.localUidMap, y, p)
  {
  }

  lemma CreateKeepsRids(t: Tree, col: Collection)
    requires ListOk(t) && IsNew(t, col)
    ensures RidMapsOk(CreateLocalNode(t, col).localUidMap)
  {
    CreateLocalNodeIs(t, col);
    CreateExtends(t, col);
    var m := t.localUidMap;
    var m' := CreateLocalNode(t, col).localUidMap;
    var q := col.Parent().Uid();
    forall p | p in m' ensures FilesRids(m', p, m'[p].childRidMap) {
      if p != col.id {
        assert FilesRids(m, p, m[p].childRidMap);
        FilesExtend(m, m', col.id, q, p, m[p].childRidMap);
      } else {
        AdoptedRids(t, col);
        FilesExtend(m, m', col.id, q, p, m'[p].childRidMap);
      }
    }
  }

  lemma AdoptedRids(t: Tree, col: Collection)
    requires ParkedOk(t.localUidMap, t.localPendingCollections) && IsNew(t, col)
    ensures FilesRids(t.localUidMap, col.id, AddChildren(t, LocalNode(col, [], map[]), Parked(t, col.id)).childRidMap)
  {
    AddChildrenIs(t, LocalNode(col, [], map[]), Parked(t, col.id));
    if col.id in t.localPendingCollections {
      assert ListsChildren(t.localUidMap, col.id, t.localPendingCollections[col.id]);
    } else {
      NoChildrenParked(t, col.id);
    }
  }

  lemma CreateKeepsParked(t: Tree, col: Collection)
    requires ListOk(t) && IsNew(t, col)
    ensures ParkedOk(CreateLocalNode(t, col).localUidMap, CreateLocalNode(t, col).localPendingCollections)
  {
    CreateLocalNodeIs(t, col);
    CreateExtends(t, col);
    var m := t.localUidMap;
    var t' := CreateLocalNode(t, col);
    var q := col.Parent().Uid();
    forall p | p in t'.localPendingCollections
      ensures p !in t'.localUidMap && t'.localPendingCollections[p] != []
      ensures ListsChildren(t'.localUidMap, p, t'.localPendingCollections[p])
    {
      if p in t.localPendingCollections {
        assert ListsChildren(m, p, t.localPendingCollections[p]);
      } else {
        NoChildrenParked(t, p);
      }
      ListsExtend(m, t'.localUidMap, col.id, q, p, Parked(t, p));
    }
  }

  lemma CreateKeepsGlobalRids(t: Tree, col: Collection)
    requires ListOk(t) && IsNew(t, col)
    ensures GlobalRidsOk(CreateLocalNode(t, col))
  {
    CreateLocalNodeIs(t, col);
  }

  /** Every newly listed collection keeps the tree in order. */
  lemma CreateKeepsListOk(t: Tree, col: Collection)
    requires ListOk(t) && IsNew(t, col)
    ensures ListOk(CreateLocalNode(t, col))
  {
    CreateKeepsNodes(t, col);
    CreateKeepsChildren(t, col);
    CreateKeepsRids(t, col);
    CreateKeepsParked(t, col);
    CreateKeepsGlobalRids(t, col);
  }

  /** A listing: distinct new collections, none its own parent. */
  ghost predicate FreshListing(t: Tree, cols: seq<Collection>) {
    && (forall i :: 0 <= i < |cols| ==> IsNew(t, cols[i]))
    && (forall i, j :: 0 <= i < j < |cols| ==> cols[i].id != cols[j].id)
  }

  ghost function ListedIds(cols: seq<Collection>): set<Id> {
    set i | 0 <= i < |cols| :: cols[i].Uid()
  }

  lemma FreshPrefix(t: Tree, cols: seq<Collection>)
    requires FreshListing(t, cols) && cols != []
    ensures FreshListing(t, cols[..|cols| - 1])
    ensures cols[|cols| - 1].Uid() !in ListedIds(cols[..|cols| - 1])
    ensures ListedIds(cols) == ListedIds(cols[..|cols| - 1]) + {cols[|cols| - 1].Uid()}
  {
    var front := cols[..|cols| - 1];
    assert forall i :: 0 <= i < |front| ==> front[i] == cols[i];
    forall x | x in ListedIds(cols) ensures x in ListedIds(front) + {cols[|cols| - 1].Uid()} {
      var i :| 0 <= i < |cols| && cols[i].Uid() == x;
      if i < |front| { assert front[i].Uid() == x; }
    }
    forall x | x in ListedIds(front) + {cols[|cols| - 1].Uid()} ensures x in ListedIds(cols) {
      if x in ListedIds(front) {
        var i :| 0 <= i < |front| && front[i].Uid() == x;
        assert cols[i].Uid() == x;
      }
    }
  }

  /** The collection is in the tree, under its uid. */
  ghost predicate Holds(t: Tree, c: Collection) {
    c.Uid() in t.localUidMap && t.localUidMap[c.Uid()].collection == c
  }

  lemma CreateHolds(t: Tree, col: Collection)
    requires IsNew(t, col)
    ensures CreateLocalNode(t, col).localUidMap.Keys == t.localUidMap.Keys + {col.id}
    ensures Holds(CreateLocalNode(t, col), col)
    ensures forall c {:trigger Holds(t, c)} :: Holds(t, c) ==> Holds(CreateLocalNode(t, col), c)
  {
    CreateLocalNodeIs(t, col);
  }

  /** After any batches, the tree holds the old and the listed collections, and no others. */
  lemma {:induction false} ReceivedNodes(t: Tree, cols: seq<Collection>)
    requires FreshListing(t, cols)
    ensures LocalCollectionsReceived(t, cols).localUidMap.Keys == t.localUidMap.Keys + ListedIds(cols)
    ensures forall c {:trigger Holds(LocalCollectionsReceived(t, cols), c)} ::
      c in cols || Holds(t, c) ==> Holds(LocalCollectionsReceived(t, cols), c)
  {
    if cols != [] {
      var front := cols[..|cols| - 1];
      var last := cols[|cols| - 1];
      FreshPrefix(t, cols);
      ReceivedNodes(t, front);
      var u := LocalCollectionsReceived(t, front);
      CreateHolds(u, last);
      forall c | c in cols || Holds(t, c) ensures Holds(CreateLocalNode(u, last), c) {
        assert c in front || Holds(t, c) ==> Holds(u, c);
        assert c in cols ==> c in front || c == last;
      }
    }
  }

  /** Any batches keep the tree in order. */
  lemma {:induction false} ReceivedKeepsListOk(t: Tree, cols: seq<Collection>)
    requires ListOk(t) && FreshListing(t, cols)
    ensures ListOk(LocalCollectionsReceived(t, cols))
  {
    if cols != [] {
      FreshPrefix(t, cols);
      ReceivedNodes(t, cols[..|cols| - 1]);
      ReceivedKeepsListOk(t, cols[..|cols| - 1]);
      CreateKeepsListOk(LocalCollectionsReceived(t, cols[..|cols| - 1]), cols[|cols| - 1]);
    }
  }

  /** The same parent/child relation and the same parked children. */
  ghost predicate SameShape(ta: Tree, tb: Tree) {
    && ta.localUidMap.Keys == tb.localUidMap.Keys
    && (forall p :: p in ta.localUidMap ==>
          multiset(ta.localUidMap[p].childNodes) == multiset(tb.localUidMap[p].childNodes))
    && ta.localPendingCollections.Keys == tb.localPendingCollections.Keys
    && (forall p :: p in ta.localPendingCollections ==>
          multiset(ta.localPendingCollections[p]) == multiset(tb.localPendingCollections[p]))
  }

  /** The shape of a tree in order is determined by the collections it holds. */
  lemma ShapeDetermined(ta: Tree, tb: Tree)
    requires ListOk(ta) && ListOk(tb) && SameCollections(ta.localUidMap, tb.localUidMap)
    ensures SameShape(ta, tb)
  {
    SameChildren(ta.localUidMap, tb.localUidMap);
    ParkedParents(ta, tb);
    ParkedParents(tb, ta);
    forall p | p in ta.localPendingCollections
      ensures multiset(ta.localPendingCollections[p]) == multiset(tb.localPendingCollections[p])
    {
      assert ListsChildren(ta.localUidMap, p, ta.localPendingCollections[p]);
      assert ListsChildren(tb.localUidMap, p, tb.localPendingCollections[p]);
      SameLists(ta.localUidMap, tb.localUidMap, p, ta.localPendingCollections[p], tb.localPendingCollections[p]);
    }
  }

  /** The parent/child relation does not depend on the order in which the local listing
      arrives, nor does the set of missing parents. */
  lemma ArrivalOrderIndependence(t: Tree, a: seq<Collection>, b: seq<Collection>)
    requires ListOk(t) && FreshListing(t, a) && FreshListing(t, b) && multiset(a) == multiset(b)
    ensures SameShape(LocalCollectionsReceived(t, a), LocalCollectionsReceived(t, b))
  {
    ReceivedKeepsListOk(t, a);
    ReceivedKeepsListOk(t, b);
    SameReception(t, a, b);
    ShapeDetermined(LocalCollectionsReceived(t, a), LocalCollectionsReceived(t, b));
  }

  /** Permuted listings put the same collections into the tree. */
  lemma SameReception(t: Tree, a: seq<Collection>, b: seq<Collection>)
    requires NodesOk(t.localUidMap)
    requires FreshListing(t, a) && FreshListing(t, b) && multiset(a) == multiset(b)
    ensures SameCollections(LocalCollectionsReceived(t, a).localUidMap, LocalCollectionsReceived(t, b).localUidMap)
  {
    ReceivedNodes(t, a);
    ReceivedNodes(t, b);
    SameMembers(a, b);
    SameListedIds(a, b);
    SameListedIds(b, a);
    var ta := LocalCollectionsReceived(t, a);
    var tb := LocalCollectionsReceived(t, b);
    forall x | x in ta.localUidMap ensures ta.localUidMap[x].collection == tb.localUidMap[x].collection {
      if x in ListedIds(a) {
        var i :| 0 <= i < |a| && a[i].Uid() == x;
        assert a[i] in b;
        assert Holds(ta, a[i]) && Holds(tb, a[i]);
      } else {
        var c := t.localUidMap[x].collection;
        assert Holds(t, c);
        assert Holds(ta, c) && Holds(tb, c);
      }
    }
  }

  lemma SameListedIds(a: seq<Collection>, b: seq<Collection>)
    requires forall c :: c in a ==> c in b
    ensures ListedIds(a) <= ListedIds(b)
  {
    forall x | x in ListedIds(a) ensures x in ListedIds(b) {
      var i :| 0 <= i < |a| && a[i].Uid() == x;
      assert a[i] in b;
    }
  }

  lemma SameMembers<T>(a: seq<T>, b: seq<T>)
    requires multiset(a) == multiset(b)
    ensures forall x :: x in a <==> x in b
  {
    forall x ensures x in a <==> x in b {
      assert x in multiset(a) <==> x in multiset(b);
    }
  }

  ghost predicate SameCollections(m: Nodes, n: Nodes) {
    m.Keys == n.Keys && forall x :: x in m ==> m[x].collection == n[x].collection
  }

  lemma SameLists(m: Nodes, n: Nodes, p: Id, a: seq<Id>, b: seq<Id>)
    requires SameCollections(m, n) && ListsChildren(m, p, a) && ListsChildren(n, p, b)
    ensures multiset(a) == multiset(b)
  {
    forall x ensures multiset(a)[x] == multiset(b)[x] {
      NoDupCount(a, x);
      NoDupCount(b, x);
      assert ChildOf(m, x, p) <==> ChildOf(n, x, p);
    }
  }

  lemma SameChildren(m: Nodes, n: Nodes)
    requires SameCollections(m, n) && ChildrenOk(m) && ChildrenOk(n)
    ensures forall p :: p in m ==> multiset(m[p].childNodes) == multiset(n[p].childNodes)
  {
    forall p | p in m ensures multiset(m[p].childNodes) == multiset(n[p].childNodes) {
      assert ListsChildren(m, p, m[p].childNodes);
      assert ListsChildren(n, p, n[p].childNodes);
      SameLists(m, n, p, m[p].childNodes, n[p].childNodes);
    }
  }

  lemma ParkedParents(ta: Tree, tb: Tree)
    requires SameCollections(ta.localUidMap, tb.localUidMap)
    requires ParkedOk(ta.localUidMap, ta.localPendingCollections)
    requires ParkedOk(tb.localUidMap, tb.localPendingCollections)
    ensures ta.localPendingCollections.Keys <= tb.localPendingCollections.Keys
  {
    forall p | p in ta.localPendingCollections ensures p in tb.localPendingCollections {
      assert ListsChildren(ta.localUidMap, p, ta.localPendingCollections[p]);
      var x := ta.localPendingCollections[p][0];
      assert x in ta.localPendingCollections[p];
      assert ChildOf(tb.localUidMap, x, p);
    }
  }

  /** Nothing is parked exactly when the parent of every listed collection was listed too. */
  lemma NothingParkedIff(t: Tree)
    requires ListOk(t)
    ensures t.localPendingCollections == map[] <==>
      forall x :: x in t.localUidMap && x != ROOT_ID ==> Node(t, x).collection.Parent().Uid() in t.localUidMap
  {
    if t.localPendingCollections != map[] {
      assert t.localPendingCollections.Keys != {};
      var p := Pick(t.localPendingCollections.Keys);
      assert ListsChildren(t.localUidMap, p, t.localPendingCollections[p]);
      var x := t.localPendingCollections[p][0];
      assert x in t.localPendingCollections[p];
      assert Node(t, x).collection.Parent().Uid() == p;
    } else {
      assert forall x :: x in t.localUidMap && x != ROOT_ID ==>
        ChildOf(t.localUidMap, x, Node(t, x).collection.Parent().Uid());
    }
  }
}
