/** Reducing a list of collections to roots whose trees do not overlap
    (akonadi/collectionfetchjob.cpp, filterDescendants). */
module FilterDescendants {
  import opened Collections
  import opened Trees

  // ------------------------------------------------------------------ sorted lists of ids

  predicate Sorted(s: seq<Id>) {
    forall i, j :: 0 <= i < j < |s| ==> s[i] <= s[j]
  }

  /** First position whose element is not smaller than x. */
  method LowerBound(s: seq<Id>, x: Id) returns (pos: nat)
    requires Sorted(s)
    ensures pos <= |s|
    ensures forall i :: 0 <= i < pos ==> s[i] < x
    ensures forall i :: pos <= i < |s| ==> x <= s[i]
  {
    pos := 0;
    var end := |s|;
    while pos < end
      invariant pos <= end <= |s|
      invariant forall i :: 0 <= i < pos ==> s[i] < x
      invariant forall i :: end <= i < |s| ==> x <= s[i]
    {
      var mid := (pos + end) / 2;
      if s[mid] < x {
        pos := mid + 1;
      } else {
        end := mid;
      }
    }
  }

  /** Binary search finds exactly the elements of a sorted list. */
  method BinaryFind(s: seq<Id>, x: Id) returns (found: bool)
    requires Sorted(s)
    ensures found <==> x in s
  {
    var pos := LowerBound(s, x);
    found := pos < |s| && s[pos] == x;
  }

  // ------------------------------------------------------------------ the filter

  /** Up to the root, all collections have parents. */
  predicate RootedChain(c: Collection)
    decreases c
  {
    c.IsRoot() || (c.Collection? && RootedChain(c.parent))
  }

  /** Some proper ancestor is the root. */
  predicate HasRootAbove(c: Collection) {
    c.Collection? && RootedChain(c.parent)
  }

  /** The collection k steps up; an invalid collection is its own parent. */
  function Ancestor(c: Collection, k: nat): Collection {
    if k == 0 then c else Ancestor(c.Parent(), k - 1)
  }

  predicate RootAfter(c: Collection, k: nat) {
    Ancestor(c, k).IsRoot()
  }

  lemma {:induction false} RootedChainIff(c: Collection)
    ensures RootedChain(c) <==> exists k: nat :: RootAfter(c, k)
    decreases c
  {
    if c.Invalid? {
      forall k: nat ensures !RootAfter(c, k) {
        InvalidAbove(k);
      }
    } else if c.IsRoot() {
      assert RootAfter(c, 0);
    } else {
      RootedChainIff(c.parent);
      if k: nat :| RootAfter(c.parent, k) {
        assert RootAfter(c, k + 1);
      }
      if k: nat :| RootAfter(c, k) {
        assert RootAfter(c.parent, k - 1);
      }
    }
  }

  lemma {:induction false} InvalidAbove(k: nat)
    ensures Ancestor(Invalid, k) == Invalid
  {
    if k > 0 {
      InvalidAbove(k - 1);
    }
  }

  /** The walk up from a collection, which only stops below a root, ends exactly when one of its
      proper ancestors is the root. */
  lemma WalkEndsIff(c: Collection)
    ensures HasRootAbove(c) <==> exists k: nat :: RootAfter(c.Parent(), k)
  {
    RootedChainIff(c.Parent());
  }

  /** The ids the filter lists for a collection: its parent's, even if that is the root, and
      those of the ancestors between the parent and the root. */
  function AncestorIds(c: Collection): set<Id>
    requires HasRootAbove(c)
    decreases c
  {
    {c.parent.Uid()} + if c.parent.IsRoot() || c.parent.Parent().IsRoot() then {} else AncestorIds(c.parent)
  }

  predicate Filterable(list: seq<Collection>) {
    forall i :: 0 <= i < |list| ==> HasRootAbove(list[i])
  }

  /** Some collection of the list is a proper ancestor. */
  predicate Overlapped(list: seq<Collection>, c: Collection)
    requires HasRootAbove(c)
  {
    exists j :: 0 <= j < |list| && list[j].Uid() in AncestorIds(c)
  }

  /** Ids of the overlapped ones among the first n of a list. */
  ghost function OverlappedIds(list: seq<Collection>): set<Id>
    requires Filterable(list)
  {
    set i | 0 <= i < |list| && Overlapped(list, list[i]) :: list[i].Uid()
  }

  /** The elements whose id is not excluded, in their order. */
  function Without(list: seq<Collection>, exclude: set<Id>): seq<Collection> {
    if list == [] then []
    else
      var front := Without(list[..|list| - 1], exclude);
      if list[|list| - 1].Uid() in exclude then front else front + [list[|list| - 1]]
  }

  method AncestorsOf(collection: Collection) returns (ancestors: seq<Id>)
    requires HasRootAbove(collection)
    ensures Sorted(ancestors) && Elements(ancestors) == AncestorIds(collection)
  {
    var parent := collection.Parent();
    ancestors := [parent.Uid()];
    if parent.IsRoot() {
      return;
    }
    ghost var all := AncestorIds(collection);
    while !parent.Parent().IsRoot()
      invariant RootedChain(parent) && !parent.IsRoot()
      invariant Sorted(ancestors)
      invariant Elements(ancestors) + (if parent.Parent().IsRoot() then {} else AncestorIds(parent)) == all
      decreases parent
    {
      parent := parent.Parent();
      var pos := LowerBound(ancestors, parent.Uid());
      InsertedElements(ancestors, pos, parent.Uid());
      ancestors := ancestors[..pos] + [parent.Uid()] + ancestors[pos..];
    }
  }

  lemma InsertedElements(s: seq<Id>, pos: nat, x: Id)
    requires pos <= |s|
    ensures Elements(s[..pos] + [x] + s[pos..]) == Elements(s) + {x}
  {
    assert s == s[..pos] + s[pos..];
  }

  method filterDescendants(list: seq<Collection>) returns (result: seq<Collection>)
    requires Filterable(list)
    ensures result == Without(list, OverlappedIds(list))
  {
    var ids: seq<seq<Id>> := [];
    for n := 0 to |list|
      invariant |ids| == n
      invariant forall i :: 0 <= i < n ==> Sorted(ids[i]) && Elements(ids[i]) == AncestorIds(list[i])
    {
      var ancestors := AncestorsOf(list[n]);
      ids := ids + [ancestors];
    }

    var excludeList := exclude(list, ids);

    result := [];
    for n := 0 to |list|
      invariant result == Without(list[..n], excludeList)
    {
      assert list[..n + 1][..n] == list[..n];
      if list[n].Uid() !in excludeList {
        result := result + [list[n]];
      }
    }
    assert list[..|list|] == list;
  }

  method exclude(list: seq<Collection>, ids: seq<seq<Id>>) returns (excludeList: set<Id>)
    requires Filterable(list) && |ids| == |list|
    requires forall i :: 0 <= i < |list| ==> Sorted(ids[i]) && Elements(ids[i]) == AncestorIds(list[i])
    ensures excludeList == OverlappedIds(list)
  {
    excludeList := {};
    for j := 0 to |list|
      invariant forall x :: x in excludeList <==>
        exists i :: 0 <= i < |list| && list[i].Uid() == x && Overlapped(list[..j], list[i])
    {
      ghost var before := excludeList;
      for i := 0 to |ids|
        invariant forall x :: x in excludeList <==>
            x in before || exists k :: 0 <= k < i && list[k].Uid() == x && list[j].Uid() in AncestorIds(list[k])
      {
        var found := BinaryFind(ids[i], list[j].Uid());
        assert found <==> list[j].Uid() in Elements(ids[i]);
        if found {
          excludeList := excludeList + {list[i].Uid()};
        }
      }
      forall c: Collection | HasRootAbove(c)
        ensures Overlapped(list[..j + 1], c) <==> Overlapped(list[..j], c) || list[j].Uid() in AncestorIds(c)
      {
        OverlappedNext(list, j, c);
      }
    }
    assert list[..|list|] == list;
    forall x ensures x in excludeList <==> x in OverlappedIds(list) {
    }
  }

  lemma OverlappedNext(list: seq<Collection>, j: nat, c: Collection)
    requires j < |list| && HasRootAbove(c)
    ensures Overlapped(list[..j + 1], c) <==> Overlapped(list[..j], c) || list[j].Uid() in AncestorIds(c)
  {
    if Overlapped(list[..j], c) {
      var k :| 0 <= k < |list[..j]| && list[..j][k].Uid() in AncestorIds(c);
      assert list[..j + 1][k] == list[..j][k];
    }
    if list[j].Uid() in AncestorIds(c) {
      assert list[..j + 1][j] == list[j];
    }
    if Overlapped(list[..j + 1], c) {
      var k :| 0 <= k < |list[..j + 1]| && list[..j + 1][k].Uid() in AncestorIds(c);
      if k < j {
        assert list[..j][k] == list[..j + 1][k];
      }
    }
  }

  // ------------------------------------------------------------------ what it means

  /** The collection's chain of parents is the one of the tree. */
  ghost predicate ChainIn(par: ParentMap, c: Collection)
    decreases c
  {
    c.IsRoot() || (c.Collection? && c.id in par && par[c.id] == c.parent.Uid() && ChainIn(par, c.parent))
  }

  /** The listed ids are those of the proper ancestors, except that the root counts only as a
      parent. */
  lemma {:induction false} AncestorsAreAbove(par: ParentMap, c: Collection, a: Id)
    requires Rooted(par) && ChainIn(par, c) && !c.IsRoot() && HasRootAbove(c) && a != ROOT_ID
    ensures a in AncestorIds(c) <==> a != c.Uid() && Under(par, c.Uid(), a)
    decreases c
  {
    UnderStep(par, c.id, a);
    DepthStep(par, c.id);
    if c.parent.IsRoot() {
      RootIsTop(par, a);
    } else {
      AncestorsAreAbove(par, c.parent, a);
      UnderRefl(par, c.parent.id);
      if Under(par, c.parent.id, c.id) {
        UnderDepth(par, c.parent.id, c.id);
      }
      if c.parent.Parent().IsRoot() {
        UnderStep(par, c.parent.id, a);
        RootIsTop(par, a);
      }
    }
  }

  lemma RootIsTop(par: ParentMap, a: Id)
    requires ROOT_ID !in par && a != ROOT_ID
    ensures !Under(par, ROOT_ID, a)
  {
  }

  /** A list of collections of the tree, none of them the root. */
  ghost predicate ListIn(par: ParentMap, list: seq<Collection>) {
    && Rooted(par) && Filterable(list)
    && forall i :: 0 <= i < |list| ==> ChainIn(par, list[i]) && list[i].Uid() in par
  }

  ghost function FilteredRoots(list: seq<Collection>): seq<Collection>
    requires Filterable(list)
  {
    Without(list, OverlappedIds(list))
  }

  /** x belongs to one of the trees below the given collections. */
  ghost predicate Covered(par: ParentMap, list: seq<Collection>, x: Id) {
    exists c :: c in list && Under(par, x, c.Uid())
  }

  lemma {:induction false} WithoutIs(list: seq<Collection>, exclude: set<Id>)
    ensures forall c :: c in Without(list, exclude) <==> c in list && c.Uid() !in exclude
  {
    if list != [] {
      assert list == list[..|list| - 1] + [list[|list| - 1]];
      WithoutIs(list[..|list| - 1], exclude);
    }
  }

  /** Kept are exactly the collections none of whose proper ancestors is in the list. */
  lemma KeptIffTopmost(par: ParentMap, list: seq<Collection>, c: Collection)
    requires ListIn(par, list) && c in list
    ensures c in FilteredRoots(list) <==> forall d :: d in list && Under(par, c.Uid(), d.Uid()) ==> d.Uid() == c.Uid()
  {
    WithoutIs(list, OverlappedIds(list));
    forall i, j | 0 <= i < |list| && 0 <= j < |list|
      ensures list[j].Uid() in AncestorIds(list[i]) <==>
          list[j].Uid() != list[i].Uid() && Under(par, list[i].Uid(), list[j].Uid())
    {
      AncestorsAreAbove(par, list[i], list[j].Uid());
    }
    if d :| d in list && Under(par, c.Uid(), d.Uid()) && d.Uid() != c.Uid() {
      var i :| 0 <= i < |list| && list[i] == c;
      var j :| 0 <= j < |list| && list[j] == d;
      assert Overlapped(list, list[i]);
    }
    if c !in FilteredRoots(list) {
      var i :| 0 <= i < |list| && list[i].Uid() == c.Uid() && Overlapped(list, list[i]);
      var j :| 0 <= j < |list| && list[j].Uid() in AncestorIds(list[i]);
      assert list[j] in list;
    }
  }

  /** Above every collection of the list, or at it, stands one that is kept. */
  lemma {:induction false} KeptAbove(par: ParentMap, list: seq<Collection>, c: Collection) returns (top: Collection)
    requires ListIn(par, list) && c in list
    ensures top in FilteredRoots(list) && Under(par, c.Uid(), top.Uid())
    decreases Depth(par, c.Uid())
  {
    KeptIffTopmost(par, list, c);
    if c in FilteredRoots(list) {
      UnderRefl(par, c.Uid());
      top := c;
    } else {
      var d :| d in list && Under(par, c.Uid(), d.Uid()) && d.Uid() != c.Uid();
      UnderDepth(par, c.Uid(), d.Uid());
      top := KeptAbove(par, list, d);
      UnderTrans(par, c.Uid(), d.Uid(), top.Uid());
    }
  }

  /** The trees below the filtered roots cover exactly what the trees below all of them cover. */
  lemma SameCover(par: ParentMap, list: seq<Collection>, x: Id)
    requires ListIn(par, list)
    ensures Covered(par, FilteredRoots(list), x) <==> Covered(par, list, x)
  {
    WithoutIs(list, OverlappedIds(list));
    if c :| c in list && Under(par, x, c.Uid()) {
      var top := KeptAbove(par, list, c);
      UnderTrans(par, x, c.Uid(), top.Uid());
    }
  }

  /** No id belongs to the trees below two different filtered roots. */
  lemma DisjointRoots(par: ParentMap, list: seq<Collection>, c: Collection, d: Collection, x: Id)
    requires ListIn(par, list) && c in FilteredRoots(list) && d in FilteredRoots(list)
    requires Under(par, x, c.Uid()) && Under(par, x, d.Uid())
    ensures c.Uid() == d.Uid()
  {
    WithoutIs(list, OverlappedIds(list));
    KeptIffTopmost(par, list, c);
    KeptIffTopmost(par, list, d);
    UnderLinear(par, x, c.Uid(), d.Uid());
  }

  /** The kept collections keep their order. */
  lemma {:induction false} OrderKept(list: seq<Collection>, exclude: set<Id>) returns (at: seq<nat>)
    ensures |at| == |Without(list, exclude)|
    ensures forall i :: 0 <= i < |at| ==> at[i] < |list| && list[at[i]] == Without(list, exclude)[i]
    ensures forall i, j :: 0 <= i < j < |at| ==> at[i] < at[j]
  {
    at := [];
    if list != [] {
      at := OrderKept(list[..|list| - 1], exclude);
      if list[|list| - 1].Uid() !in exclude {
        at := at + [|list| - 1];
      }
    }
  }

  /** Non-overlapping roots: for a list of different collections of one tree, none of them the
      root, the filtered roots are kept in order, each once; their trees share nothing and
      together are the trees of the list. */
  lemma NonOverlappingRoots(par: ParentMap, list: seq<Collection>)
    requires ListIn(par, list)
    requires forall i, j :: 0 <= i < j < |list| ==> list[i].Uid() != list[j].Uid()
    ensures var roots := FilteredRoots(list);
      && (forall i, j, x :: 0 <= i < j < |roots| ==> !(Under(par, x, roots[i].Uid()) && Under(par, x, roots[j].Uid())))
      && (forall x :: Covered(par, roots, x) <==> Covered(par, list, x))
  {
    var roots := FilteredRoots(list);
    var at := OrderKept(list, OverlappedIds(list));
    forall i, j, x | 0 <= i < j < |roots| ensures !(Under(par, x, roots[i].Uid()) && Under(par, x, roots[j].Uid())) {
      assert roots[i].Uid() != roots[j].Uid() by {
        assert list[at[i]] == roots[i] && list[at[j]] == roots[j] && at[i] < at[j];
      }
      if Under(par, x, roots[i].Uid()) && Under(par, x, roots[j].Uid()) {
        DisjointRoots(par, list, roots[i], roots[j], x);
      }
    }
    forall x ensures Covered(par, roots, x) <==> Covered(par, list, x) {
      SameCover(par, list, x);
    }
  }
}
