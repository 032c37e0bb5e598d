/** The entity cache (akonadi/entitycache_p.h): a queue of nodes changed in place. */
module EntityCache {
  import opened Collections
  import opened CacheState

  class EntityCacheNode {
    var entity: Collection
    var pending: bool
    var invalid: bool

    constructor (x: Id)
      ensures Value() == Entry(Bare(x), true, false)
    {
      entity, pending, invalid := Bare(x), true, false;
    }

    function Value(): Entry
      reads this
    {
      Entry(entity, pending, invalid)
    }

    method receive(x: Id, results: seq<Collection>)
      modifies this
      ensures Value() == Received(old(Value()), x, results)
    {
      pending := false;
      entity := if results == [] then Invalid else results[0];
      // a failed fetch must still find its entry
      if entity.Uid() != x {
        entity := WithId(entity, x);
        invalid := true;
      }
    }
  }

  ghost function Values(nodes: seq<EntityCacheNode>): (q: seq<Entry>)
    reads nodes
    ensures |q| == |nodes| && forall i :: 0 <= i < |q| ==> q[i] == nodes[i].Value()
  {
    if nodes == [] then [] else [nodes[0].Value()] + Values(nodes[1..])
  }

  class EntityCache {
    const mCapacity: int
    var mCache: seq<EntityCacheNode>
    // the fetch jobs that have not finished, by the id they fetch
    var inFlight: multiset<Id>
    ghost var fetched: set<Collection>

    ghost function View(): seq<Entry>
      reads this`mCache, mCache
    {
      Values(mCache)
    }

    ghost function State(): Cache
      reads this, mCache
    {
      Cache(View(), inFlight, fetched)
    }

    ghost predicate Valid()
      reads this, mCache
    {
      CacheOk(State())
    }

    constructor (maxCapacity: int)
      ensures Valid() && State() == EMPTY && mCapacity == maxCapacity
    {
      mCapacity, mCache, inFlight, fetched := maxCapacity, [], multiset{}, {};
    }

    method cacheNodeForId(x: Id) returns (node: EntityCacheNode?, ghost k: int)
      ensures k == Position(View(), x)
      ensures if k < 0 then node == null else node == mCache[k]
    {
      var i := 0;
      while i < |mCache|
        invariant 0 <= i <= |mCache|
        invariant forall j :: 0 <= j < i ==> View()[j].entity.Uid() != x
      {
        if mCache[i].entity.Uid() == x {
          FirstPosition(View(), x, i);
          return mCache[i], i;
        }
        i := i + 1;
      }
      return null, -1;
    }

    method isCached(x: Id) returns (cached: bool)
      requires Valid()
      ensures cached <==> exists k :: 0 <= k < |View()| && View()[k].entity.Uid() == x && !View()[k].pending
    {
      var node, k := cacheNodeForId(x);
      cached := node != null && !node.pending;
      assert k >= 0 ==> View()[k] == mCache[k].Value();
    }

    method isRequested(x: Id) returns (requested: bool)
      ensures requested <==> exists k :: 0 <= k < |View()| && View()[k].entity.Uid() == x
    {
      var node, k := cacheNodeForId(x);
      requested := node != null;
      assert k >= 0 ==> View()[k] == mCache[k].Value();
    }

    /** What is handed out is empty, or was fetched and has the id asked for. */
    method retrieve(x: Id) returns (entity: Collection)
      requires Valid()
      ensures entity == Retrieved(View(), x)
      ensures entity == Invalid || (entity in fetched && entity.Uid() == x)
      ensures forall e :: e in View() && e.entity.Uid() == x && !e.pending && !e.invalid ==> entity == e.entity
    {
      var node, k := cacheNodeForId(x);
      assert k >= 0 ==> View()[k] == mCache[k].Value() && EntryOk(View()[k], inFlight, fetched);
      forall i | 0 <= i < |View()| && View()[i].entity.Uid() == x ensures i == k {
        AtPosition(View(), i);
      }
      if node != null && !node.pending && !node.invalid {
        return node.entity;
      }
      return Invalid;
    }

    method invalidate(x: Id)
      requires Valid()
      modifies mCache
      ensures Valid() && State() == After(old(State()), mCapacity, Invalidate(x))
      ensures Retrieved(View(), x) == Invalid
      ensures forall y :: y != x ==> Retrieved(View(), y) == Retrieved(old(View()), y)
    {
      ghost var q := View();
      var node, k := cacheNodeForId(x);
      InvalidatedOk(q, x, inFlight, fetched);
      forall y ensures Retrieved(Invalidated(q, x), y) == if y == x then Invalid else Retrieved(q, y) {
        InvalidatedUnanswered(q, x, y);
      }
      if node != null {
        OtherNodes(k);
        node.invalid := true;
        assert View() == q[k := node.Value()];
      }
    }

    method request(x: Id)
      requires Valid() && Position(View(), x) < 0 && Shrinkable(View(), mCapacity)
      modifies this`mCache, this`inFlight
      ensures Valid() && State() == After(old(State()), mCapacity, Request(x))
      ensures |mCache| <= mCapacity || mCache[0].pending
    {
      RequestedOk(View(), mCapacity, x, inFlight, fetched);
      RequestedBounded(View(), mCapacity, x);
      shrinkCache();
      ghost var q := View();
      var node := new EntityCacheNode(x);
      inFlight := inFlight + multiset{x};
      mCache := mCache + [node];
      assert View() == q + [Entry(Bare(x), true, false)];
      assert View()[0] == mCache[0].Value();
    }

    method shrinkCache()
      requires Shrinkable(View(), mCapacity)
      modifies this`mCache
      ensures View() == Shrunk(old(View()), mCapacity) && (forall n :: n in mCache ==> n in old(mCache))
    {
      ghost var q := View();
      while |mCache| >= mCapacity && !mCache[0].pending
        invariant Shrinkable(View(), mCapacity) && Shrunk(View(), mCapacity) == Shrunk(q, mCapacity)
        invariant forall n :: n in mCache ==> n in old(mCache)
        decreases |mCache|
      {
        assert View()[0] == mCache[0].Value();
        ghost var before := View();
        ShrinkableRest(before, mCapacity);
        mCache := mCache[1..];
        assert View() == before[1..];
      }
      assert |mCache| > 0 ==> View()[0] == mCache[0].Value();
    }

    /** Requests what is not in the cache yet. */
    method ensureCached(x: Id) returns (available: bool)
      requires Valid() && (Position(View(), x) < 0 ==> Shrinkable(View(), mCapacity))
      modifies this`mCache, this`inFlight
      ensures Valid() && exists k :: 0 <= k < |View()| && View()[k].entity.Uid() == x
      ensures State() == if Position(old(View()), x) >= 0 then old(State())
          else After(old(State()), mCapacity, Request(x))
      ensures available <==>
        exists k :: 0 <= k < |old(View())| && old(View())[k].entity.Uid() == x && !old(View())[k].pending
    {
      var node, k := cacheNodeForId(x);
      if node == null {
        request(x);
        assert View()[|View()| - 1].entity.Uid() == x;
        return false;
      }
      assert View()[k].entity.Uid() == x;
      return !node.pending;
    }

    /** Drops an entry and leaves the others in order. It is requested again only if it was still
        pending. */
    method update(x: Id)
      requires Valid() && Legal(State(), mCapacity, Update(x))
      modifies this`mCache, this`inFlight
      ensures Valid() && State() == After(old(State()), mCapacity, Update(x))
      ensures var q := old(View()); var k := Position(q, x);
        if k < 0 then State() == old(State())
        else if q[k].pending then WaitsLast(View(), Others(q, x), x) && inFlight == old(inFlight) + multiset{x}
        else View() == Others(q, x) && inFlight == old(inFlight)
    {
      UpdateFetchesAgain(State(), mCapacity, x);
      var node, k := cacheNodeForId(x);
      if node != null {
        ghost var q := View();
        assert q[k] == mCache[k].Value();
        RemovedOk(q, k, inFlight, fetched);
        DropsOne(q, x);
        removeNode(node, k);
        if node.pending {
          request(x);
        }
      }
    }

    method removeNode(node: EntityCacheNode, ghost k: int)
      requires 0 <= k < |mCache| && mCache[k] == node && DistinctIds(View())
      modifies this`mCache
      ensures View() == RemoveAt(old(View()), k) && (forall n :: n in mCache ==> n in old(mCache))
    {
      OtherNodes(k);
      var i := 0;
      while mCache[i] != node
        invariant 0 <= i <= k
        decreases k - i
      {
        i := i + 1;
      }
      ghost var q := View();
      mCache := RemoveAt(mCache, i);
      assert View() == RemoveAt(q, k);
    }

    /** A fetch finished. Its entry may have been replaced or evicted in the meantime. */
    method processResult(x: Id, results: seq<Collection>)
      requires Valid() && x in inFlight
      modifies this`inFlight, this`fetched, mCache
      ensures Valid() && State() == After(old(State()), mCapacity, Result(x, results)) && mCache == old(mCache)
      ensures forall invalid :: Waits(old(View()), x, invalid) ==>
        Retrieved(View(), x) == if results != [] && results[0].Uid() == x && !invalid then results[0] else Invalid
      ensures forall k :: 0 <= k < |View()| && old(View())[k].entity.Uid() != x ==> View()[k] == old(View())[k]
    {
      ghost var q := View();
      ProcessedOk(q, x, results, inFlight, fetched);
      forall invalid | Waits(q, x, invalid)
        ensures Retrieved(Processed(q, x, results), x) ==
          if results != [] && results[0].Uid() == x && !invalid then results[0] else Invalid
      {
        ResultAnswers(q, x, invalid, results);
      }
      serveEntry(x, results);
      finishFetch(x, results);
      assert View() == Processed(q, x, results);
    }

    method finishFetch(x: Id, ghost results: seq<Collection>)
      modifies this`inFlight, this`fetched
      ensures inFlight == old(inFlight) - multiset{x} && fetched == old(fetched) + Elements(results)
    {
      inFlight := inFlight - multiset{x};
      fetched := fetched + Elements(results);
    }

    method serveEntry(x: Id, results: seq<Collection>)
      requires DistinctIds(View())
      modifies mCache
      ensures View() == Processed(old(View()), x, results)
    {
      ghost var q := View();
      var node, k := cacheNodeForId(x);
      if node != null {
        OtherNodes(k);
        node.receive(x, results);
        assert View() == q[k := node.Value()];
      }
    }

    /** The nodes have different ids, so changing one of them changes one entry. */
    lemma OtherNodes(k: nat)
      requires DistinctIds(View()) && k < |mCache|
      ensures forall i :: 0 <= i < |mCache| && i != k ==> mCache[i] != mCache[k]
    {
      forall i | 0 <= i < |mCache| && i != k ensures mCache[i] != mCache[k] {
        assert View()[i] == mCache[i].Value() && View()[k] == mCache[k].Value();
      }
    }
  }
}
