/** A small first-in first-out cache of entities that are fetched asynchronously
    (akonadi/entitycache_p.h), here of collections: its queue as a value. */
module CacheState {
  import opened Collections

  datatype Entry = Entry(entity: Collection, pending: bool, invalid: bool)

  /** An entity of which only the id is known. */
  function Bare(x: Id): Collection {
    Collection(x, "", "", None, Invalid)
  }

  function WithId(c: Collection, x: Id): Collection {
    if c.Invalid? then Bare(x) else c.(id := x)
  }

  /** Position of the first entry with the given id, or -1. */
  function Position(q: seq<Entry>, x: Id): (i: int)
    ensures -1 <= i < |q|
    ensures i >= 0 ==> q[i].entity.Uid() == x
    ensures i == -1 ==> forall k :: 0 <= k < |q| ==> q[k].entity.Uid() != x
  {
    if q == [] then -1
    else if q[0].entity.Uid() == x then 0
    else
      var i := Position(q[1..], x);
      assert forall k :: 0 < k < |q| ==> q[k] == q[1..][k - 1];
      if i < 0 then -1 else i + 1
  }

  /** Shrinking a queue ends before the queue does. */
  predicate Shrinkable(q: seq<Entry>, capacity: int) {
    capacity >= 1 || exists i :: 0 <= i < |q| && q[i].pending
  }

  lemma ShrinkableRest(q: seq<Entry>, capacity: int)
    requires q != [] && Shrinkable(q, capacity) && !q[0].pending
    ensures Shrinkable(q[1..], capacity)
  {
    if i :| 0 <= i < |q| && q[i].pending {
      assert q[1..][i - 1].pending;
    }
  }

  /** Drops entries from the front until one more fits in, but none that is pending. */
  function Shrunk(q: seq<Entry>, capacity: int): seq<Entry>
    requires Shrinkable(q, capacity)
  {
    if |q| >= capacity && !q[0].pending then
      ShrinkableRest(q, capacity);
      Shrunk(q[1..], capacity)
    else q
  }

  function Requested(q: seq<Entry>, capacity: int, x: Id): seq<Entry>
    requires Shrinkable(q, capacity)
  {
    Shrunk(q, capacity) + [Entry(Bare(x), true, false)]
  }

  /** What a result does to its entry. Without the entity it was meant for, the entry keeps the
      id it was requested under but counts as invalid. */
  function Received(e: Entry, x: Id, results: seq<Collection>): Entry {
    var entity := if results == [] then Invalid else results[0];
    if entity.Uid() != x then Entry(WithId(entity, x), false, true) else Entry(entity, false, e.invalid)
  }

  /** A result for an entry that is gone changes nothing. */
  function Processed(q: seq<Entry>, x: Id, results: seq<Collection>): seq<Entry> {
    var i := Position(q, x);
    if i < 0 then q else q[i := Received(q[i], x, results)]
  }

  function Invalidated(q: seq<Entry>, x: Id): seq<Entry> {
    var i := Position(q, x);
    if i < 0 then q else q[i := q[i].(invalid := true)]
  }

  function RemoveAt<T>(s: seq<T>, i: int): seq<T>
    requires 0 <= i < |s|
  {
    s[..i] + s[i + 1..]
  }

  /** What the cache answers for an id. */
  function Retrieved(q: seq<Entry>, x: Id): Collection {
    var i := Position(q, x);
    if i >= 0 && !q[i].pending && !q[i].invalid then q[i].entity else Invalid
  }

  /** Drops an entry; only one that still waits is requested again. */
  function Updated(q: seq<Entry>, capacity: int, x: Id): seq<Entry>
    requires var i := Position(q, x); i >= 0 && q[i].pending ==> Shrinkable(RemoveAt(q, i), capacity)
  {
    var i := Position(q, x);
    if i < 0 then q else if q[i].pending then Requested(RemoveAt(q, i), capacity, x) else RemoveAt(q, i)
  }

  // ------------------------------------------------------------------ the invariant

  ghost predicate DistinctIds(q: seq<Entry>) {
    forall i, j :: 0 <= i < j < |q| ==> q[i].entity.Uid() != q[j].entity.Uid()
  }

  /** Who waits is going to be served, and what can be handed out was fetched under its id. */
  ghost predicate EntryOk(e: Entry, inFlight: multiset<Id>, fetched: set<Collection>) {
    && (e.pending ==> e.entity.Uid() in inFlight)
    && (!e.pending && !e.invalid ==> e.entity in fetched || e.entity == Invalid)
  }

  ghost predicate Ok(q: seq<Entry>, inFlight: multiset<Id>, fetched: set<Collection>) {
    && DistinctIds(q)
    && forall i :: 0 <= i < |q| ==> EntryOk(q[i], inFlight, fetched)
  }

  /** Shrinking takes off a prefix in which nothing is pending, and no more than needed; what is
      pending stays. */
  lemma {:induction false} ShrunkIs(q: seq<Entry>, capacity: int) returns (n: nat)
    requires Shrinkable(q, capacity)
    ensures n <= |q| && Shrunk(q, capacity) == q[n..]
    ensures forall i :: 0 <= i < n ==> !q[i].pending
    ensures n > 0 ==> |q| - n == capacity - 1 || (|q| - n >= capacity && q[n].pending)
    ensures |q| - n < capacity || q[n].pending
    ensures forall e :: e in q && e.pending ==> e in Shrunk(q, capacity)
  {
    if |q| >= capacity && !q[0].pending {
      ShrinkableRest(q, capacity);
      n := ShrunkIs(q[1..], capacity);
      n := n + 1;
      forall e | e in q && e.pending ensures e in Shrunk(q, capacity) {
        assert e in q[1..];
      }
    } else {
      n := 0;
    }
  }

  /** After a request the cache is within its bounds, unless its head is still pending. */
  lemma RequestedBounded(q: seq<Entry>, capacity: int, x: Id)
    requires Shrinkable(q, capacity)
    ensures var q' := Requested(q, capacity, x); |q'| <= capacity || q'[0].pending
  {
    var n := ShrunkIs(q, capacity);
  }

  lemma RequestedOk(q: seq<Entry>, capacity: int, x: Id, inFlight: multiset<Id>, fetched: set<Collection>)
    requires Shrinkable(q, capacity) && Ok(q, inFlight, fetched) && Position(q, x) < 0
    ensures Ok(Requested(q, capacity, x), inFlight + multiset{x}, fetched)
  {
    var n := ShrunkIs(q, capacity);
    var q' := Requested(q, capacity, x);
    assert forall i :: 0 <= i < |q'| - 1 ==> q'[i] == q[n + i];
  }

  lemma ReceivedOk(q: seq<Entry>, k: nat, x: Id, results: seq<Collection>, inFlight: multiset<Id>,
          fetched: set<Collection>)
    requires Ok(q, inFlight, fetched) && k < |q| && q[k].entity.Uid() == x
    ensures Ok(q[k := Received(q[k], x, results)], inFlight - multiset{x}, fetched + Elements(results))
  {
    var q' := q[k := Received(q[k], x, results)];
    forall i | 0 <= i < |q'| ensures EntryOk(q'[i], inFlight - multiset{x}, fetched + Elements(results)) {
      assert EntryOk(q[i], inFlight, fetched);
      assert results != [] ==> results[0] in Elements(results);
    }
  }

  lemma InvalidatedOk(q: seq<Entry>, x: Id, inFlight: multiset<Id>, fetched: set<Collection>)
    requires Ok(q, inFlight, fetched)
    ensures Ok(Invalidated(q, x), inFlight, fetched)
  {
    var q' := Invalidated(q, x);
    forall i | 0 <= i < |q'| ensures EntryOk(q'[i], inFlight, fetched) {
      assert EntryOk(q[i], inFlight, fetched);
    }
  }

  lemma ProcessedOk(q: seq<Entry>, x: Id, results: seq<Collection>, inFlight: multiset<Id>, fetched: set<Collection>)
    requires Ok(q, inFlight, fetched)
    ensures Ok(Processed(q, x, results), inFlight - multiset{x}, fetched + Elements(results))
  {
    var k := Position(q, x);
    if k >= 0 {
      ReceivedOk(q, k, x, results, inFlight, fetched);
    } else {
      forall i | 0 <= i < |q| ensures EntryOk(q[i], inFlight - multiset{x}, fetched + Elements(results)) {
        assert EntryOk(q[i], inFlight, fetched);
      }
    }
  }

  lemma RemovedOk(q: seq<Entry>, k: nat, inFlight: multiset<Id>, fetched: set<Collection>)
    requires Ok(q, inFlight, fetched) && k < |q|
    ensures Ok(RemoveAt(q, k), inFlight, fetched) && Position(RemoveAt(q, k), q[k].entity.Uid()) < 0
  {
    var q' := RemoveAt(q, k);
    assert forall i :: 0 <= i < |q'| ==> q'[i] == q[if i < k then i else i + 1];
  }

  lemma {:induction false} FirstPosition(q: seq<Entry>, x: Id, i: nat)
    requires i < |q| && q[i].entity.Uid() == x && forall j :: 0 <= j < i ==> q[j].entity.Uid() != x
    ensures Position(q, x) == i
  {
    if i > 0 {
      assert q[0].entity.Uid() != x;
      FirstPosition(q[1..], x, i - 1);
    }
  }

  /** With different ids, the position of an entry is that of its id. */
  lemma AtPosition(q: seq<Entry>, k: nat)
    requires DistinctIds(q) && k < |q|
    ensures Position(q, q[k].entity.Uid()) == k
  {
    FirstPosition(q, q[k].entity.Uid(), k);
  }

  // ------------------------------------------------------------------ dropping and invalidating

  /** The entries for other ids, in their order. */
  function Others(q: seq<Entry>, x: Id): seq<Entry> {
    if q == [] then []
    else if q[0].entity.Uid() == x then Others(q[1..], x) else [q[0]] + Others(q[1..], x)
  }

  lemma {:induction false} NobodyElse(q: seq<Entry>, x: Id)
    requires forall i :: 0 <= i < |q| ==> q[i].entity.Uid() != x
    ensures Others(q, x) == q
  {
    if q != [] {
      NobodyElse(q[1..], x);
    }
  }

  /** Dropping the entry for an id leaves exactly the other entries, in their order. */
  lemma {:induction false} DropsOne(q: seq<Entry>, x: Id)
    requires DistinctIds(q) && Position(q, x) >= 0
    ensures RemoveAt(q, Position(q, x)) == Others(q, x)
  {
    var k := Position(q, x);
    if k == 0 {
      NobodyElse(q[1..], x);
    } else {
      assert RemoveAt(q, k) == [q[0]] + RemoveAt(q[1..], k - 1);
      DropsOne(q[1..], x);
    }
  }

  /** An invalidated id is answered with an empty collection, all others as before. */
  lemma InvalidatedUnanswered(q: seq<Entry>, x: Id, y: Id)
    requires DistinctIds(q)
    ensures Retrieved(Invalidated(q, x), y) == if y == x then Invalid else Retrieved(q, y)
  {
    var q' := Invalidated(q, x);
    if Position(q, y) >= 0 {
      assert q'[Position(q, y)].entity == q[Position(q, y)].entity;
      AtPosition(q', Position(q, y));
    } else {
      assert forall i :: 0 <= i < |q| ==> q'[i].entity == q[i].entity;
    }
  }

  // ------------------------------------------------------------------ whole runs

  /** The queue, the fetches in flight, and what was ever fetched. */
  datatype Cache = Cache(queue: seq<Entry>, inFlight: multiset<Id>, fetched: set<Collection>)

  const EMPTY := Cache([], multiset{}, {})

  datatype Op = Request(x: Id) | Invalidate(x: Id) | Update(x: Id) | Result(x: Id, results: seq<Collection>)

  /** An id is only requested when it is not in the cache, a result needs a fetch in flight, and
      shrinking must not empty the queue. */
  predicate Legal(c: Cache, capacity: int, op: Op) {
    match op
    case Request(x) => Position(c.queue, x) < 0 && Shrinkable(c.queue, capacity)
    case Update(x) =>
      var i := Position(c.queue, x);
      i >= 0 && c.queue[i].pending ==> Shrinkable(RemoveAt(c.queue, i), capacity)
    case Invalidate(_) => true
    case Result(x, _) => x in c.inFlight
  }

  function After(c: Cache, capacity: int, op: Op): Cache
    requires Legal(c, capacity, op)
  {
    var i := Position(c.queue, op.x);
    match op
    case Request(x) => Cache(Requested(c.queue, capacity, x), c.inFlight + multiset{x}, c.fetched)
    case Update(x) => Cache(Updated(c.queue, capacity, x),
      if i >= 0 && c.queue[i].pending then c.inFlight + multiset{x} else c.inFlight, c.fetched)
    case Invalidate(x) => c.(queue := Invalidated(c.queue, x))
    case Result(x, results) =>
      Cache(Processed(c.queue, x, results), c.inFlight - multiset{x}, c.fetched + Elements(results))
  }

  /** x waits at the end of the queue, behind what is left of the others. */
  predicate WaitsLast(q': seq<Entry>, others: seq<Entry>, x: Id) {
    && q' != [] && q'[|q'| - 1].pending && !q'[|q'| - 1].invalid && q'[|q'| - 1].entity.Uid() == x
    && |q'| - 1 <= |others| && q'[..|q'| - 1] == others[|others| - (|q'| - 1)..]
  }

  /** Updating fetches an id again if it still waited; an entry with a result is just dropped, and
      whatever else was there stays, except what shrinking takes off the front. */
  lemma UpdateFetchesAgain(c: Cache, capacity: int, x: Id)
    requires CacheOk(c) && Legal(c, capacity, Update(x))
    ensures var c' := After(c, capacity, Update(x)); var i := Position(c.queue, x);
      if i < 0 then c' == c
      else if c.queue[i].pending then
        WaitsLast(c'.queue, Others(c.queue, x), x) && c'.inFlight == c.inFlight + multiset{x}
      else c'.queue == Others(c.queue, x) && c'.inFlight == c.inFlight
  {
    var i := Position(c.queue, x);
    if i >= 0 {
      DropsOne(c.queue, x);
      if c.queue[i].pending {
        var n := ShrunkIs(Others(c.queue, x), capacity);
      }
    }
  }

  ghost predicate CacheOk(c: Cache) {
    Ok(c.queue, c.inFlight, c.fetched)
  }

  lemma AfterOk(c: Cache, capacity: int, op: Op)
    requires CacheOk(c) && Legal(c, capacity, op)
    ensures CacheOk(After(c, capacity, op))
  {
    match op
    case Request(x) =>
      RequestedOk(c.queue, capacity, x, c.inFlight, c.fetched);
    case Update(x) =>
      var i := Position(c.queue, x);
      if i >= 0 {
        RemovedOk(c.queue, i, c.inFlight, c.fetched);
        if c.queue[i].pending {
          RequestedOk(RemoveAt(c.queue, i), capacity, x, c.inFlight, c.fetched);
        }
      }
    case Invalidate(x) =>
      InvalidatedOk(c.queue, x, c.inFlight, c.fetched);
    case Result(x, results) =>
      ProcessedOk(c.queue, x, results, c.inFlight, c.fetched);
  }

  predicate Steps(cs: seq<Cache>, capacity: int, ops: seq<Op>) {
    && |cs| == |ops| + 1
    && forall i :: 0 <= i < |ops| ==> Legal(cs[i], capacity, ops[i]) && cs[i + 1] == After(cs[i], capacity, ops[i])
  }

  /** No request is lost: at every point of a run, ids are different, whoever waits has a fetch in
      flight, and an answer is empty or was fetched under the id asked for. */
  lemma {:induction false} RunOk(cs: seq<Cache>, capacity: int, ops: seq<Op>, i: nat)
    requires Steps(cs, capacity, ops) && CacheOk(cs[0]) && i < |cs|
    ensures CacheOk(cs[i])
    ensures forall x :: var c := Retrieved(cs[i].queue, x); c == Invalid || (c in cs[i].fetched && c.Uid() == x)
  {
    if i > 0 {
      RunOk(cs, capacity, ops, i - 1);
      AfterOk(cs[i - 1], capacity, ops[i - 1]);
    }
    forall x ensures var c := Retrieved(cs[i].queue, x); c == Invalid || (c in cs[i].fetched && c.Uid() == x) {
      var k := Position(cs[i].queue, x);
      assert k >= 0 ==> EntryOk(cs[i].queue[k], cs[i].inFlight, cs[i].fetched);
    }
  }

  // ------------------------------------------------------------------ what a request leads to

  /** The id waits to be fetched, and was invalidated meanwhile or not. */
  predicate Waits(q: seq<Entry>, x: Id, invalid: bool) {
    exists k :: 0 <= k < |q| && q[k] == Entry(Bare(x), true, invalid)
  }

  lemma WaitsAt(q: seq<Entry>, x: Id, invalid: bool)
    requires DistinctIds(q) && Waits(q, x, invalid)
    ensures Position(q, x) >= 0 && q[Position(q, x)] == Entry(Bare(x), true, invalid)
    ensures Retrieved(q, x) == Invalid
  {
    var k :| 0 <= k < |q| && q[k] == Entry(Bare(x), true, invalid);
    AtPosition(q, k);
  }

  lemma RequestKeepsWaiting(q: seq<Entry>, capacity: int, y: Id, x: Id, invalid: bool)
    requires Shrinkable(q, capacity) && Waits(q, x, invalid)
    ensures Waits(Requested(q, capacity, y), x, invalid)
  {
    var n := ShrunkIs(q, capacity);
    var e := Entry(Bare(x), true, invalid);
    assert e in Shrunk(q, capacity);
    var k :| 0 <= k < |Shrunk(q, capacity)| && Shrunk(q, capacity)[k] == e;
    assert Requested(q, capacity, y)[k] == e;
  }

  lemma DropKeepsWaiting(q: seq<Entry>, i: nat, x: Id, invalid: bool)
    requires i < |q| && q[i].entity.Uid() != x && Waits(q, x, invalid)
    ensures Waits(RemoveAt(q, i), x, invalid)
  {
    var k :| 0 <= k < |q| && q[k] == Entry(Bare(x), true, invalid);
    assert RemoveAt(q, i)[if k < i then k else k - 1] == q[k];
  }

  lemma SetKeepsWaiting(q: seq<Entry>, i: nat, e: Entry, x: Id, invalid: bool)
    requires i < |q| && q[i].entity.Uid() != x && Waits(q, x, invalid)
    ensures Waits(q[i := e], x, invalid)
  {
    var k :| 0 <= k < |q| && q[k] == Entry(Bare(x), true, invalid);
    assert q[i := e][k] == q[k];
  }

  lemma UpdateKeepsWaiting(q: seq<Entry>, capacity: int, y: Id, x: Id, invalid: bool)
    requires Position(q, y) >= 0 && q[Position(q, y)].pending ==> Shrinkable(RemoveAt(q, Position(q, y)), capacity)
    requires Waits(q, x, invalid) && y != x
    ensures Waits(Updated(q, capacity, y), x, invalid)
  {
    var i := Position(q, y);
    if i >= 0 {
      DropKeepsWaiting(q, i, x, invalid);
      if q[i].pending {
        RequestKeepsWaiting(RemoveAt(q, i), capacity, y, x, invalid);
      }
    }
  }

  lemma InvalidateKeepsWaiting(q: seq<Entry>, y: Id, x: Id, invalid: bool)
    requires DistinctIds(q) && Waits(q, x, invalid)
    ensures Waits(Invalidated(q, y), x, invalid || y == x)
  {
    WaitsAt(q, x, invalid);
    var i := Position(q, y);
    if y == x {
      assert Invalidated(q, x)[i] == Entry(Bare(x), true, true);
    } else if i >= 0 {
      SetKeepsWaiting(q, i, q[i].(invalid := true), x, invalid);
    }
  }

  /** Who waits goes on waiting whatever happens to other ids. */
  lemma StillWaits(c: Cache, capacity: int, op: Op, x: Id, invalid: bool)
    requires DistinctIds(c.queue) && Legal(c, capacity, op) && Waits(c.queue, x, invalid)
    requires op.x == x ==> op.Invalidate?
    ensures Waits(After(c, capacity, op).queue, x, invalid || op == Invalidate(x))
  {
    match op
    case Request(y) =>
      RequestKeepsWaiting(c.queue, capacity, y, x, invalid);
    case Update(y) =>
      UpdateKeepsWaiting(c.queue, capacity, y, x, invalid);
    case Invalidate(y) =>
      InvalidateKeepsWaiting(c.queue, y, x, invalid);
    case Result(y, results) =>
      var i := Position(c.queue, y);
      if i >= 0 {
        SetKeepsWaiting(c.queue, i, Received(c.queue[i], y, results), x, invalid);
      }
  }

  /** Until its result is there, an id is only invalidated. */
  predicate OnlyInvalidated(ops: seq<Op>, x: Id) {
    forall i :: 0 <= i < |ops| && ops[i].x == x ==> ops[i].Invalidate?
  }

  lemma {:induction false} WaitsThrough(cs: seq<Cache>, capacity: int, ops: seq<Op>, x: Id, i: nat)
    requires Steps(cs, capacity, ops) && CacheOk(cs[0]) && Waits(cs[0].queue, x, false) && i < |cs|
    requires OnlyInvalidated(ops, x)
    ensures CacheOk(cs[i]) && Waits(cs[i].queue, x, Invalidate(x) in ops[..i])
  {
    if i > 0 {
      WaitsThrough(cs, capacity, ops, x, i - 1);
      AfterOk(cs[i - 1], capacity, ops[i - 1]);
      StillWaits(cs[i - 1], capacity, ops[i - 1], x, Invalidate(x) in ops[..i - 1]);
      assert ops[..i] == ops[..i - 1] + [ops[i - 1]];
    }
  }

  lemma NewlyWaits(c: Cache, capacity: int, x: Id)
    requires CacheOk(c) && Legal(c, capacity, Request(x))
    ensures CacheOk(After(c, capacity, Request(x))) && Waits(After(c, capacity, Request(x)).queue, x, false)
  {
    AfterOk(c, capacity, Request(x));
    var q' := Requested(c.queue, capacity, x);
    assert q'[|q'| - 1] == Entry(Bare(x), true, false);
  }

  /** The result for a waiting id: the id is answered with the first collection fetched if that has
      the id and nobody invalidated it, and with an empty collection otherwise; every other
      entry, and so every other answer, stays as it was. */
  lemma ResultAnswers(q: seq<Entry>, x: Id, invalid: bool, results: seq<Collection>)
    requires DistinctIds(q) && Waits(q, x, invalid)
    ensures var q' := Processed(q, x, results);
      && Retrieved(q', x) == (if results != [] && results[0].Uid() == x && !invalid then results[0] else Invalid)
      && |q'| == |q| && (forall k :: 0 <= k < |q| && q[k].entity.Uid() != x ==> q'[k] == q[k])
      && (forall y :: y != x ==> Retrieved(q', y) == Retrieved(q, y))
  {
    WaitsAt(q, x, invalid);
    var i := Position(q, x);
    var q' := Processed(q, x, results);
    assert forall k :: 0 <= k < |q| ==> q'[k].entity.Uid() == q[k].entity.Uid();
    AtPosition(q', i);
    forall y | y != x ensures Retrieved(q', y) == Retrieved(q, y) {
      if Position(q, y) >= 0 {
        AtPosition(q', Position(q, y));
      }
    }
  }

  /** From request to result, whatever happens to other ids in between: the id is answered with an
      empty collection while it waits; then with the first collection its fetch brought, exactly
      if that has the id and the entry was not invalidated since the request. */
  lemma RequestAnswered(c0: Cache, cs: seq<Cache>, capacity: int, x: Id, ops: seq<Op>, results: seq<Collection>)
    requires CacheOk(c0) && Legal(c0, capacity, Request(x))
    requires Steps(cs, capacity, ops) && cs[0] == After(c0, capacity, Request(x)) && OnlyInvalidated(ops, x)
    requires Legal(cs[|ops|], capacity, Result(x, results))
    ensures forall i :: 0 <= i <= |ops| ==> Retrieved(cs[i].queue, x) == Invalid
    ensures var last := After(cs[|ops|], capacity, Result(x, results));
      && Retrieved(last.queue, x) ==
          (if results != [] && results[0].Uid() == x && Invalidate(x) !in ops then results[0] else Invalid)
      && (forall y :: y != x ==> Retrieved(last.queue, y) == Retrieved(cs[|ops|].queue, y))
  {
    NewlyWaits(c0, capacity, x);
    forall i | 0 <= i <= |ops| ensures Retrieved(cs[i].queue, x) == Invalid {
      WaitsThrough(cs, capacity, ops, x, i);
      WaitsAt(cs[i].queue, x, Invalidate(x) in ops[..i]);
    }
    WaitsThrough(cs, capacity, ops, x, |ops|);
    assert ops[..|ops|] == ops;
    ResultAnswers(cs[|ops|].queue, x, Invalidate(x) in ops, results);
  }

  /** The fetch of a waiting id is in flight, so its result can come. */
  lemma ResultComes(c: Cache, capacity: int, x: Id, invalid: bool, results: seq<Collection>)
    requires CacheOk(c) && Waits(c.queue, x, invalid)
    ensures Legal(c, capacity, Result(x, results))
  {
    WaitsAt(c.queue, x, invalid);
    assert EntryOk(c.queue[Position(c.queue, x)], c.inFlight, c.fetched);
  }
}
