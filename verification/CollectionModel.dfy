/** The collection model (akonadi/collectionmodel_p.cpp): four maps changed in place. */
module CollectionModel {
  import opened Collections
  import opened ModelState

  class CollectionModel {
    var collections: map<Id, Collection>
    var childCollections: map<Id, seq<Id>>
    var m_newCollections: map<Id, Collection>
    var m_newChildCollections: map<Id, seq<Id>>

    function View(): Model
      reads this
    {
      Model(collections, childCollections, m_newCollections, m_newChildCollections)
    }

    ghost predicate Valid()
      reads this
    {
      IndexOk(View()) && NewOk(View()) && NothingPlaceable(View())
    }

    constructor ()
      ensures Valid() && View() == EMPTY
    {
      collections, childCollections, m_newCollections, m_newChildCollections := map[], map[], map[], map[];
      EmptyOk();
    }

    /** Collections arrived or changed. All that can be placed in the tree is placed. */
    method collectionsChanged(cols: seq<Collection>)
      modifies this
      ensures Changed(old(View()), cols, View())
      ensures old(Valid()) && AcceptableBatch(old(View()), cols) ==>
        && Valid() && Received(View()) == Merged(old(Received(View())), cols)
        && (old(Grounded(View())) ==> Grounded(View()))
    {
      takeAll(cols);
      placeAll();
      if old(Valid()) && AcceptableBatch(old(View()), cols) {
        ChangedOk(old(View()), cols, View());
      }
    }

    method takeAll(cols: seq<Collection>)
      modifies this
      ensures View() == TakeAll(old(View()), cols)
    {
      ghost var m := View();
      for i := 0 to |cols|
        invariant View() == TakeAll(m, cols[..i])
      {
        assert cols[..i + 1][..i] == cols[..i];
        take(cols[i]);
      }
      assert cols[..|cols|] == cols;
    }

    method take(col: Collection)
      modifies this
      ensures View() == Take(old(View()), col)
    {
      if col.Uid() in collections {
        collections := collections[col.Uid() := col];
        return;
      }
      var p := col.Parent().Uid();
      var bucket := if p in m_newChildCollections then m_newChildCollections[p] else [];
      m_newChildCollections := m_newChildCollections[p := bucket + [col.Uid()]];
      m_newCollections := m_newCollections[col.Uid() := col];
    }

    /** Goes through the new collections until no more can be placed. */
    method placeAll()
      modifies this
      ensures NothingPlaceable(View()) && exists ps :: Settles(old(View()), ps, View())
    {
      var currentSize := |m_newChildCollections.Keys|;
      assert currentSize == 0 ==> m_newChildCollections.Keys == {};
      ghost var ps := [];
      while currentSize > 0
        invariant Settles(old(View()), ps, View())
        invariant currentSize == |m_newChildCollections.Keys|
        invariant currentSize == 0 ==> m_newChildCollections.Keys == {}
        decreases currentSize
      {
        ghost var before := View();
        var placed, p := placeOne();
        if !placed {
          // what is left has no known parent so far; a later batch may bring it
          break;
        }
        SettlesMore(old(View()), ps, before, p);
        ps := ps + [p];
        currentSize := currentSize - 1;
        assert currentSize == 0 ==> m_newChildCollections.Keys == {};
      }
    }

    /** Looks, in any order, for a parent that is known by now, and places its new children. */
    method placeOne() returns (placed: bool, p: Id)
      modifies this
      ensures placed ==> Placeable(old(View()), p) && View() == PlaceBucket(old(View()), p)
      ensures placed ==> |m_newChildCollections.Keys| == |old(m_newChildCollections.Keys)| - 1
      ensures !placed ==> View() == old(View()) && NothingPlaceable(View())
    {
      var left := m_newChildCollections.Keys;
      while left != {}
        invariant View() == old(View()) && left <= m_newChildCollections.Keys
        invariant forall p :: p in m_newChildCollections && p !in left ==> !Placeable(View(), p)
        decreases left
      {
        ghost var some: Id := Pick(left);
        assert some in left;
        var colId :| colId in left;
        left := left - {colId};
        if colId in collections || colId == ROOT_ID {
          placeBucket(colId);
          PlacedFewer(old(View()), colId);
          return true, colId;
        }
      }
      return false, ROOT_ID;
    }

    method placeBucket(colId: Id)
      modifies this
      ensures View() == PlaceBucket(old(View()), colId)
    {
      var newChildCols := ListOf(m_newChildCollections, colId);
      ghost var m := View();
      for i := 0 to |newChildCols|
        invariant View() == Insert(m, newChildCols[..i])
      {
        assert newChildCols[..i + 1][..i] == newChildCols[..i];
        var x := newChildCols[i];
        var c := Value(m_newCollections, x);
        m_newCollections := m_newCollections - {x};
        collections := collections[x := c];
      }
      assert newChildCols[..|newChildCols|] == newChildCols;
      childCollections := childCollections[colId := ListOf(childCollections, colId) + newChildCols];
      m_newChildCollections := m_newChildCollections - {colId};
    }

    /** Removes a collection and its children. */
    method removeRowFromModel(row: int, parent: Index) returns (ok: bool)
      requires parent.At? ==> Value(collections, parent.id).Uid() == parent.id
      modifies this
      ensures var p := if parent.At? then parent.id else ROOT_ID;
        && (ok <==> 0 <= row < |ListOf(old(childCollections), p)|)
        && View() == (if ok then RemoveRow(old(View()), p, row) else old(View()))
      ensures old(Valid()) ==> Valid()
      ensures ok && old(Valid() && Grounded(View())) ==>
        var x := ListOf(old(childCollections), if parent.At? then parent.id else ROOT_ID)[row];
        Grounded(View()) <==> LeafChildren(old(View()), x)
    {
      var p := if parent.At? then parent.id else ROOT_ID;
      var list := ListOf(childCollections, p);
      if row < 0 || row >= |list| {
        return false;
      }
      if old(Valid()) {
        RemoveRowOk(View(), p, row);
        if old(Grounded(View())) {
          RemovalGroundedIff(View(), p, row);
        }
      }
      var delColId := list[row];
      list := list[..row] + list[row + 1..];
      removeChildren(delColId);
      collections := collections - {delColId};
      childCollections := (childCollections - {delColId})[p := list];
      return true;
    }

    method removeChildren(x: Id)
      modifies this`collections
      ensures collections == old(collections) - Elements(ListOf(childCollections, x))
    {
      var kids := ListOf(childCollections, x);
      for i := 0 to |kids|
        invariant collections == old(collections) - Elements(kids[..i])
      {
        ElementsLast(kids[..i + 1]);
        assert kids[..i + 1][..i] == kids[..i];
        collections := collections - {kids[i]};
      }
      assert kids[..|kids|] == kids;
    }

    // ---------------------------------------------------------------- navigation

    function rowCount(parent: Index): int
      reads this
    {
      RowCount(View(), parent)
    }

    function index(row: int, column: int, parent: Index): Index
      reads this
    {
      IndexAt(View(), row, column, parent)
    }

    function parent(i: Index): Index
      reads this
    {
      ParentOf(View(), i)
    }

    function indexForId(x: Id, column: int): Index
      reads this
    {
      IndexForId(View(), x, column)
    }
  }

  lemma {:induction false} InsertKeepsFiles(m: Model, ids: seq<Id>)
    ensures Insert(m, ids).newChildCollections == m.newChildCollections
  {
    if ids != [] {
      InsertKeepsFiles(m, ids[..|ids| - 1]);
    }
  }

  /** Each placing uses up one parent. */
  lemma PlacedFewer(m: Model, p: Id)
    requires p in m.newChildCollections
    ensures |PlaceBucket(m, p).newChildCollections.Keys| == |m.newChildCollections.Keys| - 1
  {
    InsertKeepsFiles(m, ListOf(m.newChildCollections, p));
    assert PlaceBucket(m, p).newChildCollections.Keys == m.newChildCollections.Keys - {p};
  }
}
