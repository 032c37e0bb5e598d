/** Which local collections a full sync deletes: the recursive search over child lists
    (akonadi/collectionsync.cpp, hasProcessedChildren and findUnprocessedLocalCollections)
    finds exactly the deletable ones. */
module SyncDeletion {
  import opened Collections
  import opened Trees
  import opened SyncState
  import opened SyncListing

  /** A tree whose child lists and parent links agree and whose chains end in the root. */
  ghost predicate Linked(t: Tree) {
    NodesOk(t.localUidMap) && ChildrenOk(t.localUidMap) && Rooted(LocalParents(t))
  }

  /** How far a walk away from the root can still go. */
  ghost function Room(t: Tree, x: Id): nat
    requires Linked(t) && x in t.localUidMap
  {
    var par := LocalParents(t);
    assert x == ROOT_ID || x in par;
    assert x in par ==> DepthBound(par, par.Keys, Height(par));
    if x == ROOT_ID then Height(par) + 1 else Height(par) - Depth(par, x)
  }

  lemma ChildStep(t: Tree, x: Id, p: Id)
    requires Linked(t) && ChildOf(t.localUidMap, x, p)
    ensures p in t.localUidMap
    ensures x in LocalParents(t) && LocalParents(t)[x] == p
    ensures Depth(LocalParents(t), x) == Depth(LocalParents(t), p) + 1
    ensures Room(t, x) < Room(t, p)
  {
    DepthStep(LocalParents(t), x);
    assert DepthBound(LocalParents(t), LocalParents(t).Keys, Height(LocalParents(t)));
  }

  ghost predicate AllChildren(t: Tree, kids: seq<Id>, p: Id) {
    forall x :: x in kids ==> ChildOf(t.localUidMap, x, p)
  }

  lemma ListedAreChildren(t: Tree, p: Id)
    requires Linked(t) && p in t.localUidMap
    ensures AllChildren(t, t.localUidMap[p].childNodes, p) && NoDup(t.localUidMap[p].childNodes)
    ensures forall x :: ChildOf(t.localUidMap, x, p) ==> x in t.localUidMap[p].childNodes
  {
    assert ListsChildren(t.localUidMap, p, t.localUidMap[p].childNodes);
  }

  // ------------------------------------------------------------------ the search

  /** Some node at or below x is processed. */
  predicate HasProcessedChildren(t: Tree, processed: set<Id>, x: Id)
    requires Linked(t) && x in t.localUidMap
    decreases Room(t, x), |t.localUidMap[x].childNodes| + 1
  {
    ListedAreChildren(t, x);
    x in processed || AnyProcessed(t, processed, t.localUidMap[x].childNodes, x)
  }

  predicate AnyProcessed(t: Tree, processed: set<Id>, kids: seq<Id>, ghost p: Id)
    requires Linked(t) && p in t.localUidMap && AllChildren(t, kids, p)
    decreases Room(t, p), |kids|
  {
    if kids == [] then false
    else
      ChildStep(t, kids[0], p);
      HasProcessedChildren(t, processed, kids[0]) || AnyProcessed(t, processed, kids[1..], p)
  }

  function FindUnprocessedLocalCollections(t: Tree, processed: set<Id>, x: Id): seq<Collection>
    requires Linked(t) && x in t.localUidMap
    decreases Room(t, x), |t.localUidMap[x].childNodes| + 1
  {
    if x !in processed then
      if HasProcessedChildren(t, processed, x) || t.localUidMap[x].collection.Rid() == "" then []
      else [t.localUidMap[x].collection]
    else
      ListedAreChildren(t, x);
      FindAllUnprocessed(t, processed, t.localUidMap[x].childNodes, x)
  }

  function FindAllUnprocessed(t: Tree, processed: set<Id>, kids: seq<Id>, ghost p: Id): seq<Collection>
    requires Linked(t) && p in t.localUidMap && AllChildren(t, kids, p)
    decreases Room(t, p), |kids|
  {
    if kids == [] then []
    else
      ChildStep(t, kids[0], p);
      FindUnprocessedLocalCollections(t, processed, kids[0]) + FindAllUnprocessed(t, processed, kids[1..], p)
  }

  // ------------------------------------------------------------------ what it finds

  /** A node below x is at or below one of its children. */
  lemma {:induction false} BelowChild(t: Tree, y: Id, x: Id)
    requires Linked(t) && y in t.localUidMap && Below(t, y, x) && y != x
    ensures exists k :: ChildOf(t.localUidMap, k, x) && Below(t, y, k)
    decreases if y == ROOT_ID then 0 else Depth(LocalParents(t), y)
  {
    var par := LocalParents(t);
    if y != ROOT_ID {
      UnderStep(par, y, x);
      DepthStep(par, y);
      if par[y] == x {
        UnderRefl(par, y);
        assert ChildOf(t.localUidMap, y, x);
      } else {
        BelowChild(t, par[y], x);
        var k :| ChildOf(t.localUidMap, k, x) && Below(t, par[y], k);
        UnderStep(par, y, k);
      }
    }
  }

  lemma ChildBelow(t: Tree, k: Id, x: Id)
    requires Linked(t) && ChildOf(t.localUidMap, k, x)
    ensures Below(t, k, x) && !Below(t, x, k) && k != x
  {
    ChildStep(t, k, x);
    UnderRefl(LocalParents(t), x);
    UnderStep(LocalParents(t), k, x);
    if Below(t, x, k) {
      UnderDepth(LocalParents(t), x, k);
    }
  }

  /** The check for processed nodes is exact. */
  lemma {:induction false} HasProcessedIff(t: Tree, processed: set<Id>, x: Id)
    requires Linked(t) && x in t.localUidMap
    ensures HasProcessedChildren(t, processed, x) <==>
        exists y :: y in t.localUidMap && y in processed && Below(t, y, x)
    decreases Room(t, x), |t.localUidMap[x].childNodes| + 1
  {
    ListedAreChildren(t, x);
    UnderRefl(LocalParents(t), x);
    var kids := t.localUidMap[x].childNodes;
    AnyProcessedIff(t, processed, kids, x);
    if HasProcessedChildren(t, processed, x) && x !in processed {
      var k, y :| k in kids && y in t.localUidMap && y in processed && Below(t, y, k);
      ChildBelow(t, k, x);
      UnderTrans(LocalParents(t), y, k, x);
    }
    if y :| y in t.localUidMap && y in processed && Below(t, y, x) && y != x {
      BelowChild(t, y, x);
    }
  }

  lemma {:induction false} AnyProcessedIff(t: Tree, processed: set<Id>, kids: seq<Id>, p: Id)
    requires Linked(t) && p in t.localUidMap && AllChildren(t, kids, p)
    ensures AnyProcessed(t, processed, kids, p) <==>
      exists k, y :: k in kids && y in t.localUidMap && y in processed && Below(t, y, k)
    decreases Room(t, p), |kids|
  {
    if kids != [] {
      ChildStep(t, kids[0], p);
      HasProcessedIff(t, processed, kids[0]);
      AnyProcessedIff(t, processed, kids[1..], p);
      if AnyProcessed(t, processed, kids, p) && HasProcessedChildren(t, processed, kids[0]) {
        var y :| y in t.localUidMap && y in processed && Below(t, y, kids[0]);
        assert kids[0] in kids;
      }
      assert forall k :: k in kids ==> k == kids[0] || k in kids[1..];
    }
  }

  /** The deletable nodes at or below x. */
  ghost predicate Finds(t: Tree, processed: set<Id>, x: Id, c: Collection) {
    exists y :: y in t.localUidMap && Deletable(t, processed, y) && Below(t, y, x) && t.localUidMap[y].collection == c
  }

  /** All proper ancestors of x are processed. */
  ghost predicate Open(t: Tree, processed: set<Id>, x: Id) {
    forall a :: a in t.localUidMap && Below(t, x, a) && a != x ==> a in processed
  }

  lemma OpenChild(t: Tree, processed: set<Id>, k: Id, x: Id)
    requires Linked(t) && ChildOf(t.localUidMap, k, x) && Open(t, processed, x) && x in processed
    ensures Open(t, processed, k)
  {
    ChildStep(t, k, x);
    forall a | a in t.localUidMap && Below(t, k, a) && a != k ensures a in processed {
      UnderStep(LocalParents(t), k, a);
    }
  }

  /** An unprocessed node hides everything below it: only it may be deletable there. */
  lemma FindsUnprocessed(t: Tree, processed: set<Id>, x: Id, c: Collection)
    requires Linked(t) && x in t.localUidMap && x !in processed && x != ROOT_ID && Open(t, processed, x)
    ensures Finds(t, processed, x, c) <==>
      c == t.localUidMap[x].collection && c.Rid() != "" && !HasProcessedChildren(t, processed, x)
  {
    HasProcessedIff(t, processed, x);
    UnderRefl(LocalParents(t), x);
    if Finds(t, processed, x, c) {
      var y :| y in t.localUidMap && Deletable(t, processed, y) && Below(t, y, x) && t.localUidMap[y].collection == c;
      assert y == x;
    }
    if c == t.localUidMap[x].collection && c.Rid() != "" && !HasProcessedChildren(t, processed, x) {
      assert Deletable(t, processed, x);
    }
  }

  /** A processed node is not deletable itself; its children are searched. */
  lemma FindsProcessed(t: Tree, processed: set<Id>, x: Id, c: Collection)
    requires Linked(t) && x in t.localUidMap && x in processed
    ensures Finds(t, processed, x, c) <==> exists k :: ChildOf(t.localUidMap, k, x) && Finds(t, processed, k, c)
  {
    UnderRefl(LocalParents(t), x);
    if Finds(t, processed, x, c) {
      var y :| y in t.localUidMap && Deletable(t, processed, y) && Below(t, y, x) && t.localUidMap[y].collection == c;
      assert Below(t, y, y) by { UnderRefl(LocalParents(t), y); }
      assert y != x;
      BelowChild(t, y, x);
      var k :| ChildOf(t.localUidMap, k, x) && Below(t, y, k);
      assert Finds(t, processed, k, c);
    }
    if k :| ChildOf(t.localUidMap, k, x) && Finds(t, processed, k, c) {
      var y :| y in t.localUidMap && Deletable(t, processed, y) && Below(t, y, k) && t.localUidMap[y].collection == c;
      ChildBelow(t, k, x);
      UnderTrans(LocalParents(t), y, k, x);
    }
  }

  /** Subtrees of different children share no node. */
  lemma SiblingsDisjoint(t: Tree, processed: set<Id>, p: Id, j: Id, k: Id, c: Collection)
    requires Linked(t) && ChildOf(t.localUidMap, j, p) && ChildOf(t.localUidMap, k, p) && j != k
    ensures !(Finds(t, processed, j, c) && Finds(t, processed, k, c))
  {
    if Finds(t, processed, j, c) && Finds(t, processed, k, c) {
      var par := LocalParents(t);
      var y :| y in t.localUidMap && Below(t, y, j) && t.localUidMap[y].collection == c;
      var z :| z in t.localUidMap && Below(t, z, k) && t.localUidMap[z].collection == c;
      assert y == z;
      ChildStep(t, j, p);
      ChildStep(t, k, p);
      UnderLinear(par, y, j, k);
      if Under(par, j, k) {
        UnderDepth(par, j, k);
      } else {
        UnderDepth(par, k, j);
      }
    }
  }

  lemma {:induction false} FindUnprocessedIs(t: Tree, processed: set<Id>, x: Id)
    requires Linked(t) && x in t.localUidMap && Open(t, processed, x) && ROOT_ID in processed
    ensures NoDup(FindUnprocessedLocalCollections(t, processed, x))
    ensures forall c :: c in FindUnprocessedLocalCollections(t, processed, x) <==> Finds(t, processed, x, c)
    decreases Room(t, x), |t.localUidMap[x].childNodes| + 1
  {
    if x !in processed {
      forall c ensures c in FindUnprocessedLocalCollections(t, processed, x) <==> Finds(t, processed, x, c) {
        FindsUnprocessed(t, processed, x, c);
      }
    } else {
      ListedAreChildren(t, x);
      var kids := t.localUidMap[x].childNodes;
      FindAllIs(t, processed, kids, x);
      forall c ensures c in FindUnprocessedLocalCollections(t, processed, x) <==> Finds(t, processed, x, c) {
        FindsProcessed(t, processed, x, c);
        if k :| ChildOf(t.localUidMap, k, x) && Finds(t, processed, k, c) {
          assert k in kids;
        }
      }
    }
  }

  lemma {:induction false} FindAllIs(t: Tree, processed: set<Id>, kids: seq<Id>, p: Id)
    requires Linked(t) && p in t.localUidMap && AllChildren(t, kids, p) && NoDup(kids)
    requires Open(t, processed, p) && p in processed && ROOT_ID in processed
    ensures NoDup(FindAllUnprocessed(t, processed, kids, p))
    ensures forall c :: c in FindAllUnprocessed(t, processed, kids, p) <==>
        exists k :: k in kids && Finds(t, processed, k, c)
    decreases Room(t, p), |kids|
  {
    if kids != [] {
      var rest := kids[1..];
      ChildStep(t, kids[0], p);
      OpenChild(t, processed, kids[0], p);
      FindUnprocessedIs(t, processed, kids[0]);
      FindAllIs(t, processed, rest, p);
      var a := FindUnprocessedLocalCollections(t, processed, kids[0]);
      var b := FindAllUnprocessed(t, processed, rest, p);
      forall c | c in b ensures c !in a {
        var k :| k in rest && Finds(t, processed, k, c);
        SiblingsDisjoint(t, processed, p, kids[0], k, c);
      }
      NoDupConcat(a, b);
      forall c ensures c in a + b <==> exists k :: k in kids && Finds(t, processed, k, c) {
        assert kids[0] in kids;
        assert forall k :: k in kids <==> k == kids[0] || k in rest;
      }
    }
  }

  /** Safe and exact deletion: for any marking, the search lists each deletable collection
      once and nothing else. */
  lemma FindUnprocessedExact(t: Tree, processed: set<Id>)
    requires Linked(t) && ROOT_ID in processed
    ensures NoDup(FindUnprocessedLocalCollections(t, processed, ROOT_ID))
    ensures forall c :: c in FindUnprocessedLocalCollections(t, processed, ROOT_ID) <==>
        c in DeletableCollections(t, processed)
  {
    assert Open(t, processed, ROOT_ID) by {
      forall a | a in t.localUidMap && Below(t, ROOT_ID, a) ensures a == ROOT_ID {
        UnderDepth(LocalParents(t), ROOT_ID, a);
        RootAtTop(LocalParents(t), a);
      }
    }
    FindUnprocessedIs(t, processed, ROOT_ID);
    forall c ensures Finds(t, processed, ROOT_ID, c) <==> c in DeletableCollections(t, processed) {
      if c in DeletableCollections(t, processed) {
        var y :| y in t.localUidMap && Deletable(t, processed, y) && Node(t, y).collection == c;
        assert Below(t, y, ROOT_ID) by { assert y in LocalParents(t); }
      }
    }
  }

  lemma RootAtTop(par: ParentMap, a: Id)
    requires ROOT_ID !in par && Under(par, ROOT_ID, a)
    ensures a == ROOT_ID
  {
    var k: nat :| Up(par, ROOT_ID, k) == a;
  }

  /** No two deletable nodes are nested, none is the root, and neither deletes anything that
      was processed. */
  lemma DeletableSafe(t: Tree, processed: set<Id>, x: Id, y: Id)
    requires Deletable(t, processed, x) && y in t.localUidMap && Below(t, y, x)
    ensures x != ROOT_ID && y !in processed
    ensures y != x ==> !Deletable(t, processed, y)
  {
    UnderRefl(LocalParents(t), x);
  }
}
