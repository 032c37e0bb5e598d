/** The four maps of the collection model, what arriving and vanishing collections do to them,
    and how views navigate them (akonadi/collectionmodel.cpp, akonadi/collectionmodel_p.cpp). */
module ModelState {
  import opened Collections
  import opened Trees

  datatype Model = Model(
    collections: map<Id, Collection>,
    childCollections: map<Id, seq<Id>>,
    newCollections: map<Id, Collection>,
    newChildCollections: map<Id, seq<Id>>)

  const EMPTY := Model(map[], map[], map[], map[])

  // ------------------------------------------------------------------ look-ups

  function Value(m: map<Id, Collection>, x: Id): Collection {
    if x in m then m[x] else Invalid
  }

  function ListOf(m: map<Id, seq<Id>>, x: Id): seq<Id> {
    if x in m then m[x] else []
  }

  /** First position of x, or -1. */
  function IndexOf(s: seq<Id>, x: Id): (r: int)
    ensures -1 <= r < |s|
    ensures r >= 0 ==> s[r] == x
    ensures r == -1 ==> x !in s
  {
    if s == [] then -1
    else if s[0] == x then 0
    else
      var r := IndexOf(s[1..], x);
      if r < 0 then -1 else r + 1
  }

  lemma IndexOfAt(s: seq<Id>, k: nat)
    requires NoDup(s) && k < |s|
    ensures IndexOf(s, s[k]) == k
  {
    var r := IndexOf(s, s[k]);
    assert s[k] in s;
  }

  /** No index stands for the root, which is not an item of the model itself. */
  datatype Index = NoIndex | At(row: int, column: int, id: Id)

  function RowCount(m: Model, parent: Index): int {
    |ListOf(m.childCollections, if parent.At? then parent.id else ROOT_ID)|
  }

  /** There is one column, and only its items have children. */
  function IndexAt(m: Model, row: int, column: int, parent: Index): Index {
    if column >= 1 || column < 0 || (parent.At? && parent.column > 0) then NoIndex
    else
      var list := ListOf(m.childCollections, if parent.At? then parent.id else ROOT_ID);
      if row < 0 || row >= |list| || list[row] !in m.collections then NoIndex
      else At(row, column, m.collections[list[row]].Uid())
  }

  function ParentOf(m: Model, i: Index): Index {
    if i.NoIndex? || Value(m.collections, i.id).Uid() < 0 then NoIndex
    else
      var parentCol := Value(m.collections, m.collections[i.id].Parent().Uid());
      if parentCol.Uid() < 0 then NoIndex
      else
        var row := IndexOf(ListOf(m.childCollections, parentCol.Parent().Uid()), parentCol.Uid());
        if row < 0 then NoIndex else At(row, 0, parentCol.Uid())
  }

  function IndexForId(m: Model, x: Id, column: int): Index {
    if x !in m.collections then NoIndex
    else
      var p := m.collections[x].Parent().Uid();
      if p != ROOT_ID && p !in m.collections then NoIndex
      else
        var list := ListOf(m.childCollections, p);
        var row := IndexOf(list, x);
        if row >= 0 then At(row, column, Value(m.collections, list[row]).Uid()) else NoIndex
  }

  // ------------------------------------------------------------------ changes

  /** A known collection is updated; a new one is filed under its parent for later. */
  function Take(m: Model, col: Collection): Model {
    var x := col.Uid();
    var p := col.Parent().Uid();
    if x in m.collections then m.(collections := m.collections[x := col])
    else m.(newChildCollections := m.newChildCollections[p := ListOf(m.newChildCollections, p) + [x]],
            newCollections := m.newCollections[x := col])
  }

  function TakeAll(m: Model, cols: seq<Collection>): Model {
    if cols == [] then m else Take(TakeAll(m, cols[..|cols| - 1]), cols[|cols| - 1])
  }

  predicate Placeable(m: Model, p: Id) {
    p in m.newChildCollections && (p in m.collections || p == ROOT_ID)
  }

  /** Moves new collections into the model. An id that is not new any more enters it as an
      invalid collection. */
  function Insert(m: Model, ids: seq<Id>): Model {
    if ids == [] then m
    else
      var m1 := Insert(m, ids[..|ids| - 1]);
      var x := ids[|ids| - 1];
      m1.(collections := m1.collections[x := Value(m1.newCollections, x)], newCollections := m1.newCollections - {x})
  }

  function PlaceBucket(m: Model, p: Id): Model {
    var ids := ListOf(m.newChildCollections, p);
    var m1 := Insert(m, ids);
    m1.(childCollections := m1.childCollections[p := ListOf(m1.childCollections, p) + ids],
        newChildCollections := m1.newChildCollections - {p})
  }

  /** Removes a row with the collection in it and that collection's children. */
  function RemoveRow(m: Model, p: Id, row: int): Model
    requires 0 <= row < |ListOf(m.childCollections, p)|
  {
    var list := ListOf(m.childCollections, p);
    var x := list[row];
    m.(collections := m.collections - Elements(ListOf(m.childCollections, x)) - {x},
       childCollections := (m.childCollections - {x})[p := list[..row] + list[row + 1..]])
  }

  // ------------------------------------------------------------------ the index invariant

  ghost predicate IsChild(m: map<Id, Collection>, x: Id, p: Id) {
    x in m && m[x].Parent().Uid() == p
  }

  /** A list names, each once, exactly the collections with a given parent. */
  ghost predicate Lists(m: map<Id, Collection>, p: Id, list: seq<Id>) {
    NoDup(list) && forall x :: x in list <==> IsChild(m, x, p)
  }

  ghost predicate Wellformed(m: map<Id, Collection>) {
    forall x :: x in m ==> m[x].Collection? && m[x].id == x && x > ROOT_ID && m[x].Parent().Uid() != x
  }

  /** Each known collection is listed once, below its parent, and nothing else is listed. */
  ghost predicate IndexOk(m: Model) {
    && Wellformed(m.collections)
    && forall p {:trigger Lists(m.collections, p, ListOf(m.childCollections, p))} ::
         Lists(m.collections, p, ListOf(m.childCollections, p))
  }

  /** New collections are unknown, and filed exactly under their parents. */
  ghost predicate NewOk(m: Model) {
    && Wellformed(m.newCollections) && m.newCollections.Keys !! m.collections.Keys
    && (forall p {:trigger Lists(m.newCollections, p, ListOf(m.newChildCollections, p))} ::
          Lists(m.newCollections, p, ListOf(m.newChildCollections, p)))
  }

  /** Nothing filed could be placed. */
  ghost predicate NothingPlaceable(m: Model) {
    forall p :: !Placeable(m, p)
  }

  /** A batch names new collections once, and known ones with the parent they have; a new one
      has not been received before. */
  ghost predicate Acceptable(m: Model, col: Collection) {
    && col.Collection? && col.id > ROOT_ID && col.Parent().Uid() != col.id
    && col.id !in m.newCollections
    && (col.id in m.collections ==> col.Parent().Uid() == m.collections[col.id].Parent().Uid())
  }

  ghost predicate AcceptableBatch(m: Model, cols: seq<Collection>) {
    && (forall i :: 0 <= i < |cols| ==> Acceptable(m, cols[i]))
    && (forall i, j :: 0 <= i < j < |cols| ==> cols[i].Uid() != cols[j].Uid())
  }

  /** All collections received and not removed, placed or not. */
  function Received(m: Model): map<Id, Collection> {
    m.newCollections + m.collections
  }

  function Merged(r: map<Id, Collection>, cols: seq<Collection>): map<Id, Collection> {
    if cols == [] then r else Merged(r, cols[..|cols| - 1])[cols[|cols| - 1].Uid() := cols[|cols| - 1]]
  }

  lemma EmptyOk()
    ensures IndexOk(EMPTY) && NewOk(EMPTY) && NothingPlaceable(EMPTY)
  {
    forall p ensures Lists(EMPTY.collections, p, ListOf(EMPTY.childCollections, p)) {
      assert forall x :: x in ListOf(EMPTY.childCollections, p) <==> IsChild(EMPTY.collections, x, p);
    }
    forall p ensures Lists(EMPTY.newCollections, p, ListOf(EMPTY.newChildCollections, p)) {
      assert forall x :: x in ListOf(EMPTY.newChildCollections, p) <==> IsChild(EMPTY.newCollections, x, p);
    }
  }

  lemma ListsSame(m: map<Id, Collection>, m': map<Id, Collection>, p: Id, list: seq<Id>)
    requires Lists(m, p, list) && forall x :: IsChild(m', x, p) <==> IsChild(m, x, p)
    ensures Lists(m', p, list)
  {
  }

  lemma ListsGrow(m: map<Id, Collection>, col: Collection, p: Id, list: seq<Id>)
    requires Lists(m, p, list) && col.Collection? && col.id !in m
    ensures Lists(m[col.id := col], p, if p == col.Parent().Uid() then list + [col.id] else list)
  {
    assert !IsChild(m, col.id, p);
    NoDupConcat(list, [col.id]);
  }

  lemma TakeKnown(m: Model, col: Collection)
    requires IndexOk(m) && NewOk(m) && Acceptable(m, col) && col.id in m.collections
    ensures IndexOk(Take(m, col)) && NewOk(Take(m, col))
  {
    var m' := Take(m, col);
    forall p ensures Lists(m'.collections, p, ListOf(m'.childCollections, p)) {
      assert Lists(m.collections, p, ListOf(m.childCollections, p));
      ListsSame(m.collections, m'.collections, p, ListOf(m.childCollections, p));
    }
    forall p ensures Lists(m'.newCollections, p, ListOf(m'.newChildCollections, p)) {
      assert Lists(m.newCollections, p, ListOf(m.newChildCollections, p));
    }
  }

  lemma TakeNew(m: Model, col: Collection)
    requires IndexOk(m) && NewOk(m) && Acceptable(m, col) && col.id !in m.collections
    ensures IndexOk(Take(m, col)) && NewOk(Take(m, col))
  {
    var m' := Take(m, col);
    forall p ensures Lists(m'.collections, p, ListOf(m'.childCollections, p)) {
      assert Lists(m.collections, p, ListOf(m.childCollections, p));
    }
    forall p ensures Lists(m'.newCollections, p, ListOf(m'.newChildCollections, p)) {
      assert Lists(m.newCollections, p, ListOf(m.newChildCollections, p));
      ListsGrow(m.newCollections, col, p, ListOf(m.newChildCollections, p));
    }
  }

  lemma TakeOk(m: Model, col: Collection)
    requires IndexOk(m) && NewOk(m) && Acceptable(m, col)
    ensures IndexOk(Take(m, col)) && NewOk(Take(m, col))
    ensures Received(Take(m, col)) == Received(m)[col.id := col]
    ensures Take(m, col).collections.Keys == m.collections.Keys
    ensures forall x :: x in Take(m, col).collections && x != col.id ==> Take(m, col).collections[x] == m.collections[x]
    ensures Take(m, col).newCollections.Keys <= m.newCollections.Keys + {col.id}
  {
    if col.id in m.collections {
      TakeKnown(m, col);
    } else {
      TakeNew(m, col);
    }
  }

  /** Otherwise acceptable, a collection keeps the files of new collections in order exactly
      when it is not waiting in them already. */
  lemma RefiledIff(m: Model, col: Collection)
    requires IndexOk(m) && NewOk(m) && Acceptable(m.(newCollections := m.newCollections - {col.Uid()}), col)
    ensures NewOk(Take(m, col)) <==> col.id !in m.newCollections
  {
    if col.id !in m.newCollections {
      TakeOk(m, col);
    } else {
      var m' := Take(m, col);
      var q := m.newCollections[col.id].Parent().Uid();
      var p := col.Parent().Uid();
      assert Lists(m.newCollections, q, ListOf(m.newChildCollections, q));
      assert IsChild(m.newCollections, col.id, q);
      var list := ListOf(m.newChildCollections, q);
      var k :| 0 <= k < |list| && list[k] == col.id;
      var list' := ListOf(m'.newChildCollections, q);
      assert list'[k] == col.id;
      if p == q {
        assert list'[|list|] == col.id && !NoDup(list');
      } else {
        assert !IsChild(m'.newCollections, col.id, q);
      }
      assert !Lists(m'.newCollections, q, list');
    }
  }

  /** A child delivered twice before its parent enters the model as an invalid collection. */
  lemma DeliveredTwice(child: Collection, parent: Collection)
    requires child.Collection? && parent.Collection? && child.id != parent.id && child.id > ROOT_ID
        && parent.id > ROOT_ID
    requires child.parent.Uid() == parent.id && parent.parent.Uid() == ROOT_ID
    ensures var m := PlaceBucket(PlaceBucket(Take(Take(Take(EMPTY, child), child), parent), ROOT_ID), parent.id);
      NothingPlaceable(m) && child.id in m.collections && m.collections[child.id] == Invalid
  {
    var x := child.id;
    assert [] + [x] == [x] && [x] + [x] == [x, x] && [] + [parent.id] == [parent.id];
    var m1 := Take(EMPTY, child);
    assert m1.newChildCollections == map[parent.id := [x]];
    var m2 := Take(m1, child);
    assert m2.newChildCollections == map[parent.id := [x, x]] && m2.newCollections == map[x := child];
    var m3 := Take(m2, parent);
    assert m3.newChildCollections == map[parent.id := [x, x]][ROOT_ID := [parent.id]];
    var m4 := PlaceBucket(m3, ROOT_ID);
    InsertOne(m3, parent.id);
    assert m4.newChildCollections == map[parent.id := [x, x]] && m4.newCollections == map[x := child];
    InsertTwice(m4, x);
    assert Insert(m4, [x, x]).newChildCollections == m4.newChildCollections by {
      InsertOne(m4, x);
      assert [x, x][..1] == [x];
    }
    assert PlaceBucket(m4, parent.id).newChildCollections == map[];
  }

  lemma InsertOne(m: Model, x: Id)
    ensures Insert(m, [x]) == m.(collections := m.collections[x := Value(m.newCollections, x)],
        newCollections := m.newCollections - {x})
  {
    assert [x][..0] == [];
  }

  lemma InsertTwice(m: Model, x: Id)
    ensures x in Insert(m, [x, x]).collections && Insert(m, [x, x]).collections[x] == Invalid
  {
    InsertOne(m, x);
    assert [x, x][..1] == [x];
  }

  // ------------------------------------------------------------------ placing a bucket

  lemma {:induction false} InsertIs(m: Model, ids: seq<Id>)
    requires NoDup(ids) && forall x :: x in ids ==> x in m.newCollections
    ensures var m' := Insert(m, ids);
      && m'.childCollections == m.childCollections && m'.newChildCollections == m.newChildCollections
      && (forall x :: x in m'.collections <==> x in m.collections || x in ids)
      && (forall x :: x in m'.collections ==> m'.collections[x] == if x in ids then m.newCollections[x]
          else m.collections[x])
      && m'.newCollections == m.newCollections - Elements(ids)
  {
    if ids != [] {
      var front := ids[..|ids| - 1];
      var x := ids[|ids| - 1];
      assert ids == front + [x];
      assert x !in front;
      InsertIs(m, front);
      ElementsLast(ids);
      assert Value(Insert(m, front).newCollections, x) == m.newCollections[x];
    }
  }

  /** What placing the children of a known collection comes to. */
  lemma PlaceBucketIs(m: Model, p: Id)
    requires NewOk(m)
    ensures var m' := PlaceBucket(m, p);
      && (forall x :: x in m'.collections <==> x in m.collections || IsChild(m.newCollections, x, p))
      && (forall x :: x in m'.collections ==> m'.collections[x] == if x in m.newCollections then m.newCollections[x]
          else m.collections[x])
      && (forall x :: x in m'.newCollections <==> x in m.newCollections && !IsChild(m.newCollections, x, p))
      && (forall x :: x in m'.newCollections ==> m'.newCollections[x] == m.newCollections[x])
      && m'.newChildCollections == m.newChildCollections - {p}
      && (forall q :: ListOf(m'.childCollections, q) ==
            ListOf(m.childCollections, q) + if q == p then ListOf(m.newChildCollections, p) else [])
  {
    var ids := ListOf(m.newChildCollections, p);
    assert Lists(m.newCollections, p, ids);
    assert forall x :: x in ids <==> IsChild(m.newCollections, x, p);
    InsertIs(m, ids);
  }

  lemma PlaceIndexOk(m: Model, p: Id)
    requires IndexOk(m) && NewOk(m)
    ensures IndexOk(PlaceBucket(m, p))
  {
    PlaceBucketIs(m, p);
    var m' := PlaceBucket(m, p);
    forall q ensures Lists(m'.collections, q, ListOf(m'.childCollections, q)) {
      PlacedLists(m, p, q);
    }
  }

  lemma PlacedLists(m: Model, p: Id, q: Id)
    requires IndexOk(m) && NewOk(m)
    ensures Lists(PlaceBucket(m, p).collections, q, ListOf(PlaceBucket(m, p).childCollections, q))
  {
    PlaceBucketIs(m, p);
    var m' := PlaceBucket(m, p);
    var a, b := ListOf(m.childCollections, q), ListOf(m.newChildCollections, q);
    assert Lists(m.collections, q, a);
    assert Lists(m.newCollections, q, b);
    forall x ensures IsChild(m'.collections, x, q) <==>
        IsChild(m.collections, x, q) || (q == p && IsChild(m.newCollections, x, p)) {
    }
    if q == p {
      forall i, j | 0 <= i < |a| && 0 <= j < |b| ensures a[i] != b[j] {
        assert IsChild(m.collections, a[i], q) && IsChild(m.newCollections, b[j], q);
      }
      assert NoDup(a + b);
    } else {
      assert a + [] == a;
    }
  }

  lemma PlaceNewOk(m: Model, p: Id)
    requires NewOk(m)
    ensures NewOk(PlaceBucket(m, p))
  {
    PlaceBucketIs(m, p);
    var m' := PlaceBucket(m, p);
    forall q ensures Lists(m'.newCollections, q, ListOf(m'.newChildCollections, q)) {
      assert Lists(m.newCollections, q, ListOf(m.newChildCollections, q));
      assert forall x :: IsChild(m'.newCollections, x, q) <==> IsChild(m.newCollections, x, q) && q != p;
      if q == p {
        assert ListOf(m'.newChildCollections, q) == [];
      }
    }
    assert forall x :: x in m'.newCollections ==> x !in m'.collections;
  }

  lemma PlaceBucketOk(m: Model, p: Id)
    requires IndexOk(m) && NewOk(m)
    ensures IndexOk(PlaceBucket(m, p)) && NewOk(PlaceBucket(m, p)) && Received(PlaceBucket(m, p)) == Received(m)
  {
    PlaceIndexOk(m, p);
    PlaceNewOk(m, p);
    PlaceBucketIs(m, p);
    var m' := PlaceBucket(m, p);
    forall x ensures x in Received(m') <==> x in Received(m) {
    }
    forall x | x in Received(m) ensures Received(m')[x] == Received(m)[x] {
    }
    assert Received(m') == Received(m);
  }

  // ------------------------------------------------------------------ the fixpoint

  function Chain(r: map<Id, Collection>): ParentMap {
    map x | x in r :: r[x].Parent().Uid()
  }

  /** Every known collection hangs on a chain of received parents up to the root. */
  ghost predicate Grounded(m: Model) {
    forall x :: x in m.collections ==> Under(Chain(Received(m)), x, ROOT_ID)
  }

  lemma {:induction false} UnderGrows(par: ParentMap, par': ParentMap, x: Id, k: nat)
    requires Up(par, x, k) == ROOT_ID && ROOT_ID !in par'
    requires forall y :: y in par ==> y in par' && par'[y] == par[y]
    ensures Under(par', x, ROOT_ID)
    decreases k
  {
    if x == ROOT_ID {
      UnderRefl(par', x);
    } else {
      UnderGrows(par, par', par[x], k - 1);
      UnderStep(par', x, ROOT_ID);
    }
  }

  lemma PlaceGrounded(m: Model, p: Id)
    requires IndexOk(m) && NewOk(m) && Placeable(m, p) && Grounded(m)
    ensures Grounded(PlaceBucket(m, p))
  {
    PlaceBucketOk(m, p);
    PlaceBucketIs(m, p);
    var par := Chain(Received(m));
    forall x | x in PlaceBucket(m, p).collections ensures Under(par, x, ROOT_ID) {
      if x !in m.collections {
        UnderRefl(par, ROOT_ID);
        UnderStep(par, x, ROOT_ID);
      }
    }
  }

  lemma TakeGrounded(m: Model, col: Collection)
    requires IndexOk(m) && NewOk(m) && Acceptable(m, col) && Grounded(m)
    ensures Grounded(Take(m, col))
  {
    TakeOk(m, col);
    var par, par' := Chain(Received(m)), Chain(Received(Take(m, col)));
    forall x | x in m.collections ensures Under(par', x, ROOT_ID) {
      var k: nat :| Up(par, x, k) == ROOT_ID;
      UnderGrows(par, par', x, k);
    }
  }

  /** The fixpoint: when nothing filed can be placed any more, exactly those received
      collections are known whose whole chain of parents was received. */
  lemma FixpointExact(m: Model, x: Id)
    requires IndexOk(m) && NewOk(m) && Grounded(m) && NothingPlaceable(m) && x in Received(m)
    ensures x in m.collections <==> Under(Chain(Received(m)), x, ROOT_ID)
  {
    if Under(Chain(Received(m)), x, ROOT_ID) {
      var k: nat :| Up(Chain(Received(m)), x, k) == ROOT_ID;
      ChainPlaced(m, x, k);
    }
  }

  lemma {:induction false} ChainPlaced(m: Model, x: Id, k: nat)
    requires NewOk(m) && NothingPlaceable(m) && x in Received(m) && Up(Chain(Received(m)), x, k) == ROOT_ID
        && Wellformed(m.collections)
    ensures x in m.collections
    decreases k
  {
    if x in m.newCollections {
      var p := m.newCollections[x].Parent().Uid();
      assert Lists(m.newCollections, p, ListOf(m.newChildCollections, p));
      assert IsChild(m.newCollections, x, p);
      assert p in m.newChildCollections;
      assert !Placeable(m, p);
      ChainPlaced(m, p, k - 1);
    }
  }

  // ------------------------------------------------------------------ whole batches

  /** Placing buckets that can be placed, in the order ps, leads from m to m'. */
  ghost predicate Settles(m: Model, ps: seq<Id>, m': Model)
    decreases |ps|
  {
    if ps == [] then m == m' else Placeable(m, ps[0]) && Settles(PlaceBucket(m, ps[0]), ps[1..], m')
  }

  /** A batch was taken, and everything that could be placed was placed, in some order. */
  ghost predicate Changed(m: Model, cols: seq<Collection>, m': Model) {
    NothingPlaceable(m') && exists ps :: Settles(TakeAll(m, cols), ps, m')
  }

  lemma {:induction false} SettlesMore(m: Model, ps: seq<Id>, m': Model, p: Id)
    requires Settles(m, ps, m') && Placeable(m', p)
    ensures Settles(m, ps + [p], PlaceBucket(m', p))
    decreases |ps|
  {
    if ps == [] {
      assert (ps + [p])[1..] == [];
    } else {
      assert (ps + [p])[1..] == ps[1..] + [p];
      SettlesMore(PlaceBucket(m, ps[0]), ps[1..], m', p);
    }
  }

  lemma {:induction false} SettlesOk(m: Model, ps: seq<Id>, m': Model)
    requires IndexOk(m) && NewOk(m) && Settles(m, ps, m')
    ensures IndexOk(m') && NewOk(m') && Received(m') == Received(m)
    ensures Grounded(m) ==> Grounded(m')
    decreases |ps|
  {
    if ps != [] {
      PlaceBucketOk(m, ps[0]);
      if Grounded(m) {
        PlaceGrounded(m, ps[0]);
      }
      SettlesOk(PlaceBucket(m, ps[0]), ps[1..], m');
    }
  }

  lemma {:induction false} TakeAllOk(m: Model, cols: seq<Collection>)
    requires IndexOk(m) && NewOk(m) && AcceptableBatch(m, cols)
    ensures var m' := TakeAll(m, cols);
      && IndexOk(m') && NewOk(m') && Received(m') == Merged(Received(m), cols)
      && m'.collections.Keys == m.collections.Keys && (Grounded(m) ==> Grounded(m'))
      && (forall x :: (forall i :: 0 <= i < |cols| ==> cols[i].Uid() != x) ==>
            (x in m'.newCollections <==> x in m.newCollections)
                && (x in m.collections ==> m'.collections[x] == m.collections[x]))
  {
    if cols != [] {
      var front := cols[..|cols| - 1];
      var last := cols[|cols| - 1];
      TakeAllOk(m, front);
      var u := TakeAll(m, front);
      assert Acceptable(m, last);
      assert forall i :: 0 <= i < |front| ==> front[i] == cols[i];
      assert Acceptable(u, last);
      TakeOk(u, last);
      if Grounded(u) {
        TakeGrounded(u, last);
      }
    }
  }

  /** An acceptable batch keeps the index and the files in order, receives exactly the batch, and
      leaves every known collection on a chain to the root if taking the batch does. */
  lemma ChangedOk(m: Model, cols: seq<Collection>, m': Model)
    requires IndexOk(m) && NewOk(m) && AcceptableBatch(m, cols) && Changed(m, cols, m')
    ensures IndexOk(m') && NewOk(m') && Received(m') == Merged(Received(m), cols)
    ensures Grounded(TakeAll(m, cols)) ==> Grounded(m')
    ensures Grounded(m) ==> Grounded(m')
  {
    TakeAllOk(m, cols);
    var ps :| Settles(TakeAll(m, cols), ps, m');
    SettlesOk(TakeAll(m, cols), ps, m');
  }

  // ------------------------------------------------------------------ runs from the empty model

  /** The states of a model that starts empty and is given one batch after the other. */
  ghost predicate DeliveryRun(batches: seq<seq<Collection>>, run: seq<Model>) {
    && |run| == |batches| + 1 && run[0] == EMPTY
    && forall i :: 0 <= i < |batches| ==> Changed(run[i], batches[i], run[i + 1])
  }

  function Flatten(batches: seq<seq<Collection>>): seq<Collection> {
    if batches == [] then [] else Flatten(batches[..|batches| - 1]) + batches[|batches| - 1]
  }

  /** Collections with distinct ids, none its own parent. */
  ghost predicate ProperDelivery(cols: seq<Collection>) {
    && (forall i :: 0 <= i < |cols| ==>
          cols[i].Collection? && cols[i].id > ROOT_ID && cols[i].Parent().Uid() != cols[i].id)
    && (forall i, j :: 0 <= i < j < |cols| ==> cols[i].Uid() != cols[j].Uid())
  }

  lemma {:induction false} MergedConcat(r: map<Id, Collection>, a: seq<Collection>, b: seq<Collection>)
    ensures Merged(r, a + b) == Merged(Merged(r, a), b)
  {
    if b == [] {
      assert a + b == a;
    } else {
      assert (a + b)[..|a + b| - 1] == a + b[..|b| - 1];
      MergedConcat(r, a, b[..|b| - 1]);
    }
  }

  /** What distinct collections merge to. */
  lemma {:induction false} MergedIs(cols: seq<Collection>)
    requires ProperDelivery(cols)
    ensures forall x :: x in Merged(map[], cols) <==> exists c :: c in cols && c.Uid() == x
    ensures forall c :: c in cols ==> c.Uid() in Merged(map[], cols) && Merged(map[], cols)[c.Uid()] == c
  {
    if cols != [] {
      var front := cols[..|cols| - 1];
      var last := cols[|cols| - 1];
      assert cols == front + [last];
      MergedIs(front);
      assert forall i :: 0 <= i < |front| ==> front[i] == cols[i];
      assert forall c :: c in front ==> c in cols;
      assert last in cols;
    }
  }

  /** The order of distinct collections makes no difference to what is received. */
  lemma MergedAnyOrder(a: seq<Collection>, b: seq<Collection>)
    requires ProperDelivery(a) && ProperDelivery(b) && multiset(a) == multiset(b)
    ensures Merged(map[], a) == Merged(map[], b)
  {
    forall x ensures MergedAt(a, x) == MergedAt(b, x) {
      MergedWithin(a, b, x);
      MergedWithin(b, a, x);
    }
    forall x ensures x in Merged(map[], a) <==> x in Merged(map[], b) {
      assert MergedAt(a, x) == MergedAt(b, x);
    }
    forall x | x in Merged(map[], a) ensures Merged(map[], a)[x] == Merged(map[], b)[x] {
      assert MergedAt(a, x) == MergedAt(b, x);
    }
  }

  function MergedAt(cols: seq<Collection>, x: Id): Option<Collection> {
    if x in Merged(map[], cols) then Some(Merged(map[], cols)[x]) else None
  }

  lemma MergedWithin(a: seq<Collection>, b: seq<Collection>, x: Id)
    requires ProperDelivery(a) && ProperDelivery(b) && multiset(a) == multiset(b)
    ensures MergedAt(a, x).Some? ==> MergedAt(b, x) == MergedAt(a, x)
  {
    MergedIs(a);
    MergedIs(b);
    if MergedAt(a, x).Some? {
      var c :| c in a && c.Uid() == x;
      assert c in multiset(a);
      assert c in multiset(b) && c in b;
    }
  }

  lemma ProperPrefix(a: seq<Collection>, b: seq<Collection>)
    requires ProperDelivery(a + b)
    ensures ProperDelivery(a) && ProperDelivery(b)
    ensures forall c, d :: c in a && d in b ==> c.Uid() != d.Uid()
  {
    var s := a + b;
    assert forall i :: 0 <= i < |a| ==> a[i] == s[i];
    assert forall i :: 0 <= i < |b| ==> b[i] == s[|a| + i];
  }

  /** Every state of such a run is in order, and what it received does not depend on the
      batches. */
  lemma {:induction false} RunReceives(batches: seq<seq<Collection>>, run: seq<Model>)
    requires DeliveryRun(batches, run) && ProperDelivery(Flatten(batches))
    ensures var m := run[|batches|];
      && IndexOk(m) && NewOk(m) && Grounded(m) && NothingPlaceable(m) && Received(m) == Merged(map[], Flatten(batches))
    decreases |batches|
  {
    if batches == [] {
      EmptyOk();
    } else {
      var n := |batches| - 1;
      var before := Flatten(batches[..n]);
      ProperPrefix(before, batches[n]);
      assert DeliveryRun(batches[..n], run[..n + 1]);
      RunReceives(batches[..n], run[..n + 1]);
      var m := run[n];
      MergedIs(before);
      assert AcceptableBatch(m, batches[n]) by {
        forall i | 0 <= i < |batches[n]| ensures Acceptable(m, batches[n][i]) {
          assert batches[n][i] in batches[n];
          assert batches[n][i].id !in Received(m);
        }
      }
      assert Changed(m, batches[n], run[n + 1]);
      ChangedOk(m, batches[n], run[n + 1]);
      MergedConcat(map[], before, batches[n]);
    }
  }

  /** A whole run knows exactly the delivered collections whose chain of parents was delivered
      up to the root, with the data delivered. */
  lemma RunExact(batches: seq<seq<Collection>>, run: seq<Model>, x: Id)
    requires DeliveryRun(batches, run) && ProperDelivery(Flatten(batches))
    ensures var m := run[|batches|]; var all := Merged(map[], Flatten(batches));
      && (x in m.collections <==> x in all && Under(Chain(all), x, ROOT_ID))
      && (x in m.collections ==> m.collections[x] == all[x])
  {
    RunReceives(batches, run);
    if x in Received(run[|batches|]) {
      FixpointExact(run[|batches|], x);
    }
  }

  /** However the same collections are ordered, cut into batches and iterated over, the model
      comes to know the same collections, and keeps the same others for later. */
  lemma BatchesDoNotMatter(batches: seq<seq<Collection>>, run: seq<Model>, batches': seq<seq<Collection>>,
          run': seq<Model>)
    requires DeliveryRun(batches, run) && DeliveryRun(batches', run')
    requires ProperDelivery(Flatten(batches)) && ProperDelivery(Flatten(batches'))
    requires multiset(Flatten(batches)) == multiset(Flatten(batches'))
    ensures run[|batches|].collections == run'[|batches'|].collections
    ensures run[|batches|].newCollections == run'[|batches'|].newCollections
  {
    var m, m' := run[|batches|], run'[|batches'|];
    MergedAnyOrder(Flatten(batches), Flatten(batches'));
    RunReceives(batches, run);
    RunReceives(batches', run');
    forall x ensures (x in m.collections <==> x in m'.collections)
        && (x in m.collections ==> m.collections[x] == m'.collections[x]) {
      RunExact(batches, run, x);
      RunExact(batches', run', x);
    }
    forall x ensures x in m.newCollections <==> x in m'.newCollections {
      assert x in m.newCollections <==> x in Received(m) && x !in m.collections;
      assert x in m'.newCollections <==> x in Received(m') && x !in m'.collections;
    }
    forall x | x in m.newCollections ensures m.newCollections[x] == m'.newCollections[x] {
      assert Received(m)[x] == m.newCollections[x] && Received(m')[x] == m'.newCollections[x];
    }
  }

  // ------------------------------------------------------------------ removal

  lemma RemoveRowOk(m: Model, p: Id, row: int)
    requires IndexOk(m) && NewOk(m) && 0 <= row < |ListOf(m.childCollections, p)|
    ensures var m' := RemoveRow(m, p, row); IndexOk(m') && NewOk(m') && (NothingPlaceable(m) ==> NothingPlaceable(m'))
  {
    var list := ListOf(m.childCollections, p);
    var x := list[row];
    var m' := RemoveRow(m, p, row);
    assert Lists(m.collections, p, list);
    assert IsChild(m.collections, x, p);
    var below := ListOf(m.childCollections, x);
    assert Lists(m.collections, x, below);
    assert forall y :: y in m'.collections <==> y in m.collections && y != x && !IsChild(m.collections, y, x);
    forall q ensures Lists(m'.collections, q, ListOf(m'.childCollections, q)) {
      RemovedLists(m, p, row, q);
    }
    forall q ensures Lists(m'.newCollections, q, ListOf(m'.newChildCollections, q)) {
      assert Lists(m.newCollections, q, ListOf(m.newChildCollections, q));
    }
    assert NothingPlaceable(m) ==> forall q :: Placeable(m', q) ==> Placeable(m, q);
  }

  lemma RemovedLists(m: Model, p: Id, row: int, q: Id)
    requires IndexOk(m) && 0 <= row < |ListOf(m.childCollections, p)|
    ensures var m' := RemoveRow(m, p, row); Lists(m'.collections, q, ListOf(m'.childCollections, q))
  {
    var list := ListOf(m.childCollections, p);
    var x := list[row];
    var m' := RemoveRow(m, p, row);
    assert Lists(m.collections, p, list);
    assert IsChild(m.collections, x, p);
    assert Lists(m.collections, x, ListOf(m.childCollections, x));
    assert Lists(m.collections, q, ListOf(m.childCollections, q));
    assert forall y :: IsChild(m'.collections, y, q) <==> IsChild(m.collections, y, q) && y != x && q != x;
    if q == p {
      assert x != p;
      var rest := list[..row] + list[row + 1..];
      assert forall y :: y in rest <==> y in list && y != x by {
        RemovedElements(list, row);
      }
      assert NoDup(rest);
    }
  }

  lemma RemovedElements(list: seq<Id>, row: int)
    requires NoDup(list) && 0 <= row < |list|
    ensures NoDup(list[..row] + list[row + 1..])
    ensures forall y :: y in list[..row] + list[row + 1..] <==> y in list && y != list[row]
  {
    var rest := list[..row] + list[row + 1..];
    forall y | y in list && y != list[row] ensures y in rest {
      var i :| 0 <= i < |list| && list[i] == y;
      if i < row {
        assert rest[i] == y;
      } else {
        assert rest[i - 1] == y;
      }
    }
  }

  /** At a fixpoint, being grounded is a matter of the known collections alone. */
  lemma GroundedIff(m: Model)
    requires IndexOk(m) && NewOk(m) && NothingPlaceable(m)
    ensures Grounded(m) <==> Rooted(Chain(m.collections))
  {
    var par, known := Chain(Received(m)), Chain(m.collections);
    if Grounded(m) {
      forall x | x in m.collections ensures Under(known, x, ROOT_ID) {
        var k: nat :| Up(par, x, k) == ROOT_ID;
        KnownChain(m, x, k);
      }
    }
    if Rooted(known) {
      forall x | x in m.collections ensures Under(par, x, ROOT_ID) {
        assert x in known;
        var k: nat :| Up(known, x, k) == ROOT_ID;
        UnderGrows(known, par, x, k);
      }
    }
  }

  lemma {:induction false} KnownChain(m: Model, x: Id, k: nat)
    requires IndexOk(m) && NewOk(m) && NothingPlaceable(m)
    requires (x in m.collections || x == ROOT_ID) && Up(Chain(Received(m)), x, k) == ROOT_ID
    ensures Under(Chain(m.collections), x, ROOT_ID)
    decreases k
  {
    var known := Chain(m.collections);
    if x == ROOT_ID {
      UnderRefl(known, x);
    } else {
      var q := known[x];
      assert Chain(Received(m))[x] == q;
      if q != ROOT_ID {
        assert q in Chain(Received(m));
        ChainPlaced(m, q, k - 1);
      }
      KnownChain(m, q, k - 1);
      UnderStep(known, x, ROOT_ID);
    }
  }

  /** No rooted tree has two nodes that are each other's parents. */
  lemma NoTwoCycle(par: ParentMap, x: Id, y: Id)
    requires Rooted(par) && x in par && y in par && par[x] == y
    ensures par[y] != x
  {
    DepthStep(par, x);
    DepthStep(par, y);
  }

  /** What removing a row leaves known. */
  lemma RemovedIs(m: Model, p: Id, row: int)
    requires IndexOk(m) && 0 <= row < |ListOf(m.childCollections, p)|
    ensures var x := ListOf(m.childCollections, p)[row]; var m' := RemoveRow(m, p, row);
      && IsChild(m.collections, x, p)
      && (forall y :: y in m'.collections <==> y in m.collections && y != x && !IsChild(m.collections, y, x))
      && (forall y :: y in m'.collections ==> m'.collections[y] == m.collections[y])
  {
    assert Lists(m.collections, p, ListOf(m.childCollections, p));
    var x := ListOf(m.childCollections, p)[row];
    assert x in ListOf(m.childCollections, p);
    assert Lists(m.collections, x, ListOf(m.childCollections, x));
  }

  /** If no child of the removed collection has children, everything left keeps its chain. */
  lemma {:induction false} LeavesKeepChains(m: Model, p: Id, row: int, y: Id)
    requires IndexOk(m) && 0 <= row < |ListOf(m.childCollections, p)| && Rooted(Chain(m.collections))
    requires forall c :: IsChild(m.collections, c, ListOf(m.childCollections, p)[row]) ==>
        ListOf(m.childCollections, c) == []
    requires y == ROOT_ID || y in RemoveRow(m, p, row).collections
    ensures Under(Chain(RemoveRow(m, p, row).collections), y, ROOT_ID)
    decreases if y == ROOT_ID then 0 else Depth(Chain(m.collections), y)
  {
    var known := Chain(m.collections);
    var left := Chain(RemoveRow(m, p, row).collections);
    RemovedIs(m, p, row);
    if y == ROOT_ID {
      UnderRefl(left, y);
    } else {
      DepthStep(known, y);
      var q := known[y];
      if q != ROOT_ID {
        assert Lists(m.collections, q, ListOf(m.childCollections, q));
        assert IsChild(m.collections, y, q);
        assert y in ListOf(m.childCollections, q);
      }
      LeavesKeepChains(m, p, row, q);
      UnderStep(left, y, ROOT_ID);
    }
  }

  /** If one has, its child is left without a parent. */
  lemma GrandchildCutOff(m: Model, p: Id, row: int, c: Id)
    requires IndexOk(m) && 0 <= row < |ListOf(m.childCollections, p)| && Rooted(Chain(m.collections))
    requires IsChild(m.collections, c, ListOf(m.childCollections, p)[row]) && ListOf(m.childCollections, c) != []
    ensures !Rooted(Chain(RemoveRow(m, p, row).collections))
  {
    var left := Chain(RemoveRow(m, p, row).collections);
    RemovedIs(m, p, row);
    assert Lists(m.collections, c, ListOf(m.childCollections, c));
    var g := ListOf(m.childCollections, c)[0];
    assert g in ListOf(m.childCollections, c);
    assert IsChild(m.collections, g, c);
    NoTwoCycle(Chain(m.collections), g, c);
    assert g in left && c !in left && left[g] == c;
    if Rooted(left) {
      DepthStep(left, g);
      assert false;
    }
  }

  /** Removal takes away one level of children. Exactly when none of these has children of its
      own, every collection left is still connected to the root. */
  lemma RemovalGroundedIff(m: Model, p: Id, row: int)
    requires IndexOk(m) && NewOk(m) && NothingPlaceable(m) && Grounded(m) && 0 <= row < |ListOf(m.childCollections, p)|
    ensures Grounded(RemoveRow(m, p, row)) <==> LeafChildren(m, ListOf(m.childCollections, p)[row])
  {
    var x := ListOf(m.childCollections, p)[row];
    var m' := RemoveRow(m, p, row);
    RemoveRowOk(m, p, row);
    GroundedIff(m);
    GroundedIff(m');
    RemovedIs(m, p, row);
    if LeafChildren(m, x) {
      forall y | y in m'.collections ensures Under(Chain(m'.collections), y, ROOT_ID) {
        LeavesKeepChains(m, p, row, y);
      }
    } else {
      var c :| IsChild(m.collections, c, x) && ListOf(m.childCollections, c) != [];
      GrandchildCutOff(m, p, row, c);
    }
  }

  ghost predicate LeafChildren(m: Model, x: Id) {
    forall c :: IsChild(m.collections, c, x) ==> ListOf(m.childCollections, c) == []
  }

  /** Removal goes one level deep. Grandchildren of the removed collection stay known; their
      own index is gone, but that of their children is still given out. */
  lemma OrphansStay(m: Model, p: Id, row: int, c: Id, g: Id, h: Id)
    requires IndexOk(m) && 0 <= row < |ListOf(m.childCollections, p)|
    requires IsChild(m.collections, c, ListOf(m.childCollections, p)[row]) && IsChild(m.collections, g, c)
        && IsChild(m.collections, h, g)
    requires g != ListOf(m.childCollections, p)[row] && h != ListOf(m.childCollections, p)[row] && c != h
    ensures var m' := RemoveRow(m, p, row);
      && c !in m'.collections && g in m'.collections && IndexForId(m', g, 0) == NoIndex
      && h in m'.collections && IndexForId(m', h, 0).At?
  {
    var x := ListOf(m.childCollections, p)[row];
    assert Lists(m.collections, x, ListOf(m.childCollections, x));
    RemovedLists(m, p, row, g);
    assert IsChild(RemoveRow(m, p, row).collections, h, g);
  }

  // ------------------------------------------------------------------ navigation

  /** Indexes that can be reached by going down from the root. */
  ghost predicate Reached(m: Model, i: Index, depth: nat)
    decreases depth
  {
    if depth == 0 then i == NoIndex
    else exists p, row :: Reached(m, p, depth - 1) && 0 <= row < RowCount(m, p) && i == IndexAt(m, row, 0, p)
  }

  /** An index as looking it up by id would give it. */
  ghost predicate Canonical(m: Model, i: Index) {
    i == NoIndex || (i.At? && i.id in m.collections && i == IndexForId(m, i.id, 0))
  }

  /** Going down from a canonical index gives a canonical index, and going back up returns. */
  lemma DownAndUp(m: Model, i: Index, row: int)
    requires IndexOk(m) && Canonical(m, i) && 0 <= row < RowCount(m, i)
    ensures var c := IndexAt(m, row, 0, i); c.At? && Canonical(m, c) && ParentOf(m, c) == i
  {
    var p := if i.At? then i.id else ROOT_ID;
    var list := ListOf(m.childCollections, p);
    assert Lists(m.collections, p, list);
    assert list[row] in list;
    assert IsChild(m.collections, list[row], p);
    IndexOfAt(list, row);
  }

  lemma {:induction false} ReachedCanonical(m: Model, i: Index, depth: nat)
    requires IndexOk(m) && Reached(m, i, depth)
    ensures Canonical(m, i)
    decreases depth
  {
    if depth > 0 {
      var p, row :| Reached(m, p, depth - 1) && 0 <= row < RowCount(m, p) && i == IndexAt(m, row, 0, p);
      ReachedCanonical(m, p, depth - 1);
      DownAndUp(m, p, row);
    }
  }

  /** Tree navigation: from every index reachable from the root, each row leads to an item whose
      parent is that index again, and looking the item up by id gives the index just reached. */
  lemma Navigation(m: Model, i: Index, depth: nat, row: int)
    requires IndexOk(m) && Reached(m, i, depth) && 0 <= row < RowCount(m, i)
    ensures var c := IndexAt(m, row, 0, i);
      c.At? && ParentOf(m, c) == i && IndexForId(m, c.id, 0) == c && Reached(m, c, depth + 1)
  {
    ReachedCanonical(m, i, depth);
    DownAndUp(m, i, row);
  }

  /** An item can be reached from the root exactly when its known parents lead there. */
  lemma ReachableIff(m: Model, x: Id)
    requires IndexOk(m) && x in m.collections
    ensures Reachable(m, x) <==> Under(Chain(m.collections), x, ROOT_ID)
  {
    if Reachable(m, x) {
      var depth: nat :| Reached(m, IndexForId(m, x, 0), depth);
      ReachedUnder(m, IndexForId(m, x, 0), depth);
    }
    if Under(Chain(m.collections), x, ROOT_ID) {
      var k: nat :| Up(Chain(m.collections), x, k) == ROOT_ID;
      UnderReached(m, x, k);
    }
  }

  ghost predicate Reachable(m: Model, x: Id) {
    IndexForId(m, x, 0).At? && exists depth: nat :: Reached(m, IndexForId(m, x, 0), depth)
  }

  lemma {:induction false} ReachedUnder(m: Model, i: Index, depth: nat)
    requires IndexOk(m) && Reached(m, i, depth)
    ensures Under(Chain(m.collections), if i.At? then i.id else ROOT_ID, ROOT_ID)
    decreases depth
  {
    var known := Chain(m.collections);
    if depth == 0 {
      UnderRefl(known, ROOT_ID);
    } else {
      var p, row :| Reached(m, p, depth - 1) && 0 <= row < RowCount(m, p) && i == IndexAt(m, row, 0, p);
      ReachedUnder(m, p, depth - 1);
      ReachedCanonical(m, p, depth - 1);
      DownAndUp(m, p, row);
      var list := ListOf(m.childCollections, if p.At? then p.id else ROOT_ID);
      assert Lists(m.collections, if p.At? then p.id else ROOT_ID, list);
      assert list[row] in list && IsChild(m.collections, list[row], if p.At? then p.id else ROOT_ID);
      assert i.id == list[row];
      UnderStep(known, i.id, ROOT_ID);
    }
  }

  lemma {:induction false} UnderReached(m: Model, x: Id, k: nat)
    requires IndexOk(m) && x in m.collections && Up(Chain(m.collections), x, k) == ROOT_ID
    ensures Reachable(m, x)
    decreases k
  {
    var p := m.collections[x].Parent().Uid();
    var list := ListOf(m.childCollections, p);
    assert Lists(m.collections, p, list);
    assert IsChild(m.collections, x, p);
    assert x in list;
    var row := IndexOf(list, x);
    if p == ROOT_ID {
      assert Reached(m, NoIndex, 0);
      assert IndexForId(m, x, 0) == IndexAt(m, row, 0, NoIndex);
      assert Reached(m, IndexForId(m, x, 0), 1);
    } else {
      UnderReached(m, p, k - 1);
      var up := IndexForId(m, p, 0);
      var depth: nat :| Reached(m, up, depth);
      assert IndexForId(m, x, 0) == IndexAt(m, row, 0, up);
      assert Reached(m, IndexForId(m, x, 0), depth + 1);
    }
  }

  /** The item an index stands for. */
  function ItemOf(i: Index): Id {
    if i.At? then i.id else ROOT_ID
  }

  /** There is an index for a row exactly in the first column, below the root or an item of the
      first column, and within the rows; it is the index of a child. */
  lemma IndexIff(m: Model, row: int, column: int, parent: Index)
    requires IndexOk(m)
    ensures var i := IndexAt(m, row, column, parent);
      && (i.At? <==> column == 0 && (parent.At? ==> parent.column <= 0) && 0 <= row < RowCount(m, parent))
      && (i.At? ==> i.row == row && i.column == 0 && IsChild(m.collections, i.id, ItemOf(parent)))
  {
    var list := ListOf(m.childCollections, ItemOf(parent));
    assert Lists(m.collections, ItemOf(parent), list);
    if 0 <= row < |list| {
      assert list[row] in list && IsChild(m.collections, list[row], ItemOf(parent));
    }
  }

  predicate ListedAt(m: Model, p: Id, row: int, x: Id) {
    0 <= row < |ListOf(m.childCollections, p)| && ListOf(m.childCollections, p)[row] == x
  }

  /** An id can be looked up exactly if it is known and its parent is the root or known as well;
      the index found has the column asked for and is at the row of the id. */
  lemma LookUpIff(m: Model, x: Id, column: int)
    requires IndexOk(m)
    ensures var i := IndexForId(m, x, column);
      && (i.At? <==> x in m.collections && var p := m.collections[x].Parent().Uid(); p == ROOT_ID || p in m.collections)
      && (i.At? ==> i.id == x && i.column == column && ListedAt(m, m.collections[x].Parent().Uid(), i.row, x))
  {
    if x in m.collections {
      var p := m.collections[x].Parent().Uid();
      assert Lists(m.collections, p, ListOf(m.childCollections, p));
      assert IsChild(m.collections, x, p);
    }
  }

  // ------------------------------------------------------------------ the order of rows

  /** Placing new children appends them, in the order they came, behind the rows already there;
      below other parents no row changes. */
  lemma RowsAppended(m: Model, p: Id, parent: Index, row: nat)
    requires IndexOk(m) && NewOk(m) && (parent.At? ==> parent.column == 0)
    ensures var m' := PlaceBucket(m, p); var ids := ListOf(m.newChildCollections, p);
      && RowCount(m', parent) == RowCount(m, parent) + (if ItemOf(parent) == p then |ids| else 0)
      && (row < RowCount(m, parent) ==> IndexAt(m', row, 0, parent) == IndexAt(m, row, 0, parent))
      && (ItemOf(parent) == p && row < |ids| ==>
            IndexAt(m', RowCount(m, parent) + row, 0, parent) == At(RowCount(m, parent) + row, 0, ids[row]))
  {
    PlaceBucketIs(m, p);
    PlaceIndexOk(m, p);
    var m' := PlaceBucket(m, p);
    var q := ItemOf(parent);
    var before, list := ListOf(m.childCollections, q), ListOf(m'.childCollections, q);
    assert Lists(m.collections, q, before);
    assert Lists(m'.collections, q, list);
    if row < |before| {
      assert before[row] in before && IsChild(m.collections, before[row], q);
      assert list[row] in list && IsChild(m'.collections, list[row], q);
    }
    var ids := ListOf(m.newChildCollections, p);
    if q == p && row < |ids| {
      assert list[|before| + row] == ids[row] && list[|before| + row] in list;
      assert IsChild(m'.collections, ids[row], q);
    }
  }

  /** After a removal the rows before the one removed stay, those behind it move up by one; below
      parents that were not removed themselves no row changes. */
  lemma RowsMoveUp(m: Model, p: Id, removed: int, parent: Index, row: nat)
    requires IndexOk(m) && 0 <= removed < |ListOf(m.childCollections, p)| && (parent.At? ==> parent.column == 0)
    requires ItemOf(parent) != ListOf(m.childCollections, p)[removed]
    ensures var m' := RemoveRow(m, p, removed);
      var was := if ItemOf(parent) == p && row >= removed then row + 1 else row;
      && RowCount(m', parent) == RowCount(m, parent) - (if ItemOf(parent) == p then 1 else 0)
      && (row < RowCount(m', parent) ==>
            IndexAt(m, was, 0, parent).At? && IndexAt(m', row, 0, parent) == At(row, 0, IndexAt(m, was, 0, parent).id))
  {
    var m' := RemoveRow(m, p, removed);
    var q := ItemOf(parent);
    var was := if q == p && row >= removed then row + 1 else row;
    var before, list := ListOf(m.childCollections, q), ListOf(m'.childCollections, q);
    RemovedLists(m, p, removed, q);
    assert Lists(m.collections, q, before);
    if row < |list| {
      assert list[row] == before[was];
      assert before[was] in before && IsChild(m.collections, before[was], q);
      assert list[row] in list && IsChild(m'.collections, list[row], q);
    }
  }

  // ------------------------------------------------------------------ moving a subtree

  /** What a batch has to bring when a removed collection x comes back below q: x itself with
      its new parent, and the children that were removed with it. */
  ghost predicate BringsBack(m: Model, x: Id, q: Id, cols: seq<Collection>) {
    && (exists c :: c in cols && c.Uid() == x)
    && (forall y :: IsChild(m.collections, y, x) ==> exists c :: c in cols && c.Uid() == y)
    && (forall c :: c in cols && c.Uid() == x ==> c.Parent().Uid() == q)
    && (forall c :: c in cols && IsChild(m.collections, c.Uid(), x) ==> c.Parent().Uid() == x)
  }

  lemma {:induction false} MergedValue(r: map<Id, Collection>, cols: seq<Collection>, x: Id)
    ensures (exists c :: c in cols && c.Uid() == x) ==>
      x in Merged(r, cols) && Merged(r, cols)[x] in cols && Merged(r, cols)[x].Uid() == x
    ensures !(exists c :: c in cols && c.Uid() == x) ==>
      (x in Merged(r, cols) <==> x in r) && (x in r ==> Merged(r, cols)[x] == r[x])
  {
    if cols != [] {
      var last := cols[|cols| - 1];
      assert cols == cols[..|cols| - 1] + [last];
      MergedValue(r, cols[..|cols| - 1], x);
    }
  }

  /** After such a batch the received parents are the old ones, except that of x. */
  lemma BroughtBackParents(m: Model, p: Id, row: int, cols: seq<Collection>, q: Id, y: Id)
    requires IndexOk(m) && NewOk(m) && 0 <= row < |ListOf(m.childCollections, p)| && y in m.collections
    requires BringsBack(m, ListOf(m.childCollections, p)[row], q, cols) && AcceptableBatch(RemoveRow(m, p, row), cols)
    ensures var x := ListOf(m.childCollections, p)[row]; var all := Merged(Received(RemoveRow(m, p, row)), cols);
      y in all && all[y].Parent().Uid() == if y == x then q else m.collections[y].Parent().Uid()
  {
    RemovedIs(m, p, row);
    var m1 := RemoveRow(m, p, row);
    MergedValue(Received(m1), cols, y);
    if y in m1.collections {
      var all := Merged(Received(m1), cols);
      assert all[y] in cols || all[y] == m1.collections[y];
      if all[y] in cols {
        var i :| 0 <= i < |cols| && cols[i] == all[y];
        assert Acceptable(m1, cols[i]);
      }
    }
  }

  /** So all collections known before lead to the root again. */
  lemma BroughtBackChains(m: Model, p: Id, row: int, cols: seq<Collection>, q: Id, y: Id)
    requires IndexOk(m) && NewOk(m) && 0 <= row < |ListOf(m.childCollections, p)| && y in m.collections
    requires Rooted(Chain(m.collections))
    requires q == ROOT_ID || (q in m.collections && !Under(Chain(m.collections), q, ListOf(m.childCollections, p)[row]))
    requires BringsBack(m, ListOf(m.childCollections, p)[row], q, cols) && AcceptableBatch(RemoveRow(m, p, row), cols)
    requires ROOT_ID !in Merged(Received(RemoveRow(m, p, row)), cols)
    ensures var all := Merged(Received(RemoveRow(m, p, row)), cols); y in all && Under(Chain(all), y, ROOT_ID)
  {
    var x := ListOf(m.childCollections, p)[row];
    var moved := Chain(m.collections)[x := q];
    var par := Chain(Merged(Received(RemoveRow(m, p, row)), cols));
    RemovedIs(m, p, row);
    RootAbove(Chain(m.collections), q, x);
    RootedMove(Chain(m.collections), x, q);
    forall z | z in moved ensures z in par && par[z] == moved[z] {
      BroughtBackParents(m, p, row, cols, q, z);
    }
    assert y in moved;
    var k: nat :| Up(moved, y, k) == ROOT_ID;
    UnderGrows(moved, par, y, k);
  }

  lemma RootAbove(par: ParentMap, q: Id, x: Id)
    requires Rooted(par) && x in par && (q == ROOT_ID || !Under(par, q, x))
    ensures !Under(par, q, x)
  {
    assert forall k: nat :: Up(par, ROOT_ID, k) == ROOT_ID;
  }

  /** A removed collection that is delivered again below another parent, together with the
      children that were removed with it, is complete again: its whole old subtree, and everything
      else, is known and can be reached. */
  lemma MovedSubtree(m: Model, p: Id, row: int, cols: seq<Collection>, q: Id, m': Model)
    requires IndexOk(m) && NewOk(m) && NothingPlaceable(m) && Grounded(m) && 0 <= row < |ListOf(m.childCollections, p)|
    requires q == ROOT_ID || (q in m.collections && !Under(Chain(m.collections), q, ListOf(m.childCollections, p)[row]))
    requires BringsBack(m, ListOf(m.childCollections, p)[row], q, cols)
    requires AcceptableBatch(RemoveRow(m, p, row), cols) && Changed(RemoveRow(m, p, row), cols, m')
    ensures IndexOk(m') && NewOk(m') && NothingPlaceable(m') && Grounded(m')
    ensures forall y :: y in m.collections ==> y in m'.collections && Reachable(m', y)
  {
    var m1 := RemoveRow(m, p, row);
    RemoveRowOk(m, p, row);
    RemovedIs(m, p, row);
    GroundedIff(m);
    TakeAllOk(m1, cols);
    ChangedOk(m1, cols, m');
    forall y | y in m.collections ensures y in Received(m') && Under(Chain(Received(m')), y, ROOT_ID) {
      BroughtBackChains(m, p, row, cols, q, y);
    }
    assert Grounded(TakeAll(m1, cols));
    forall y | y in m.collections ensures y in m'.collections && Reachable(m', y) {
      FixpointExact(m', y);
      GroundedIff(m');
      ReachableIff(m', y);
    }
  }
}
