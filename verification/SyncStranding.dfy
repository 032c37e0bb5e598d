/** When nodes can be left waiting for ever (akonadi/collectionsync.cpp): the exact condition on
    the initial local tree and the remote listing for some run to end with the orphan error. */
module SyncStranding {
  import opened Collections
  import opened SyncState
  import opened SyncMatching
  import opened SyncGrowth
  import opened SyncLedger
  import opened SyncRun
  import opened SyncPass

  // ------------------------------------------------------------------ what holds regardless

  /** What waits at n is accepted, listed once, and was not handled yet. */
  ghost predicate WaitsLoosely(c: State, A: set<Collection>, n: Id) {
    NoDup(Waiting(c, n)) && forall r :: r in Waiting(c, n) ==> r in A && c.handled[r] == 0
  }

  /** The books of a hierarchical sync, wherever its nodes may wait. */
  ghost predicate Loose(c: State, A: set<Collection>) {
    && c.tree.hierarchicalRIDs && TreeOk(c.tree) && GoodListing(true, A) && Coherent(c.tree, A)
    && c.localListDone && c.deliveryDone && c.moves == multiset{} && Counts(c)
    && (forall j {:trigger CreatesRightly(c.tree, c.jobs, A, j)} :: j in c.jobs ==>
        CreatesRightly(c.tree, c.jobs, A, j))
    && (forall j: Job :: j in c.jobs && j.Create? ==> c.handled[j.remote] == 1)
    && (forall r {:trigger c.handled[r]} :: c.handled[r] <= if r in A then 1 else 0)
    && (forall n {:trigger WaitsLoosely(c, A, n)} :: WaitsLoosely(c, A, n))
    && (forall n, m, r :: r in Waiting(c, n) && r in Waiting(c, m) ==> n == m)
  }

  /** The books while nothing waits at n and the nodes cs taken from there are at hand. */
  lemma WaitingRooted(c: State, A: set<Collection>, n: Id)
    requires Loose(c, A)
    ensures AllRooted(Waiting(c, n)) && NoDup(Waiting(c, n))
  {
    assert WaitsLoosely(c, A, n);
  }

  lemma PassWaits(c: State, A: set<Collection>, n: Id, c': State, m: Id)
    requires Loose(c, A) && Passed(c, n, c')
    ensures WaitsLoosely(c', A, m)
    ensures forall r :: r in Waiting(c', m) <==>
      (m != n && r in Waiting(c, m)) || (r in Waiting(c, n) && StaysAt(c.tree, r, m))
  {
    var cs := Waiting(c, n);
    assert WaitsLoosely(c, A, n) && WaitsLoosely(c, A, m);
    StaysMembers(c.tree, cs, m);
    GoneMembers(c.tree, cs);
    var a := if m == n then [] else Waiting(c, m);
    var b := Stays(c.tree, cs, m);
    assert Waiting(c', m) == a + b;
    forall r | r in b ensures r !in a {
    }
    NoDupConcat(a, b);
  }

  /** Every create job the pass leaves in flight is in order. */
  lemma PassCreates(c: State, A: set<Collection>, n: Id, c': State, j: Job)
    requires Loose(c, A) && Passed(c, n, c') && j in c'.jobs && j.Create?
    ensures CreatesRightly(c'.tree, c'.jobs, A, j) && c'.handled[j.remote] == 1
    ensures j in c.jobs || (j.remote in Waiting(c, n) && j == CreationOf(c.tree, j.remote))
  {
    var cs := Waiting(c, n);
    var t := c.tree;
    assert WaitsLoosely(c, A, n);
    StartsMembers(t, cs);
    GoneMembers(t, cs);
    assert (c'.jobs - (c.jobs + Starts(t, cs)))[j] == 0;
    assert c'.jobs[j] == c.jobs[j] + Starts(t, cs)[j];
    if j in c.jobs {
      assert CreatesRightly(t, c.jobs, A, j);
      assert j.remote !in cs;
    } else {
      assert j in Starts(t, cs);
    }
  }

  /** A pass keeps the books, whatever its nodes are. */
  lemma PassLoose(c: State, A: set<Collection>, n: Id)
    requires Loose(c, A)
    ensures var c' := ProcessPendingRemoteNodes(c, n);
      Loose(c', A) && Passed(c, n, c') && SameControl(c', c) && c'.outcomes == c.outcomes
  {
    var c' := ProcessPendingRemoteNodes(c, n);
    WaitingRooted(c, A, n);
    PassIsExact(c, n);
    ProcessPendingCounts(c, n);
    forall j | j in c'.jobs ensures CreatesRightly(c'.tree, c'.jobs, A, j) {
      if j.Create? { PassCreates(c, A, n, c', j); }
    }
    forall j: Job | j in c'.jobs && j.Create? ensures c'.handled[j.remote] == 1 {
      PassCreates(c, A, n, c', j);
    }
    forall r ensures c'.handled[r] <= if r in A then 1 else 0 {
      PassHandled(c, A, n, c', r);
    }
    forall m ensures WaitsLoosely(c', A, m) {
      PassWaits(c, A, n, c', m);
    }
    forall m, k, r | r in Waiting(c', m) && r in Waiting(c', k) ensures m == k {
      PassWaits(c, A, n, c', m);
      PassWaits(c, A, n, c', k);
    }
  }

  lemma PassHandled(c: State, A: set<Collection>, n: Id, c': State, r: Collection)
    requires Loose(c, A) && Passed(c, n, c')
    ensures c'.handled[r] <= if r in A then 1 else 0
  {
    assert WaitsLoosely(c, A, n);
    GoneMembers(c.tree, Waiting(c, n));
    assert c'.handled[r] == c.handled[r] + Gone(c.tree, Waiting(c, n))[r];
    assert r in Gone(c.tree, Waiting(c, n)) ==> r in Waiting(c, n);
  }

  // ------------------------------------------------------------------ created nodes

  /** The state in which a created node's parent is re-examined. */
  lemma RecordedLoose(c: State, A: set<Collection>, j: Job, x: Id)
    requires Loose(c, A) && j in c.jobs && j.Create? && x != ROOT_ID && x !in c.tree.localUidMap
    ensures CanCreate(c.tree, j.localParent, j.remote, x)
        && NewLocal(j, x) == Created(c.tree, j.localParent, j.remote, x)
    ensures Loose(CreateRecorded(c, j, x), A)
  {
    var t := c.tree;
    var r := CreateRecorded(c, j, x);
    assert CreatesRightly(t, c.jobs, A, j);
    MatchIsNode(t, A, j.remote);
    assert NewLocal(j, x) == Created(t, j.localParent, j.remote, x);
    GrownTreeOk(t, j.localParent, j.remote, x);
    CreatedIsNewLeaf(t, j.localParent, j.remote, x);
    GrownCoherent(t, A, j.localParent, j.remote, x);
    assert |r.jobs| == |c.jobs| - 1;
    forall k | k in r.jobs ensures CreatesRightly(r.tree, r.jobs, A, k) {
      if k.Create? { RecordedCreates(c, A, j, x, k); }
    }
    forall n ensures WaitsLoosely(r, A, n) {
      assert WaitsLoosely(c, A, n);
      assert Waiting(r, n) == Waiting(c, n);
    }
    forall n, m, e | e in Waiting(r, n) && e in Waiting(r, m) ensures n == m {
      assert Waiting(r, n) == Waiting(c, n) && Waiting(r, m) == Waiting(c, m);
    }
  }

  lemma RecordedCreates(c: State, A: set<Collection>, j: Job, x: Id, k: Job)
    requires Loose(c, A) && j in c.jobs && j.Create? && x != ROOT_ID && x !in c.tree.localUidMap
    requires k in c.jobs - multiset{j} && k.Create?
    requires CanCreate(c.tree, j.localParent, j.remote, x)
        && NewLocal(j, x) == Created(c.tree, j.localParent, j.remote, x)
    ensures CreatesRightly(CreateRecorded(c, j, x).tree, c.jobs - multiset{j}, A, k)
  {
    var t := c.tree;
    assert CreatesRightly(t, c.jobs, A, j);
    assert CreatesRightly(t, c.jobs, A, k);
    assert k in c.jobs && k != j;
    assert k.remote != j.remote;
    GrownMatch(t, A, j.localParent, j.remote, x, k.remote);
    CreatedIsNewLeaf(t, j.localParent, j.remote, x);
    LeafMaps(t, j.localParent, j.remote, x);
    MatchIsNode(t, A, k.remote);
  }

  // ------------------------------------------------------------------ jobs that create nothing

  /** The books look at the create jobs only. */
  lemma OtherJobsLoose(c: State, c': State, A: set<Collection>)
    requires Loose(c, A) && Counts(c') && c'.tree == c.tree && c'.handled == c.handled && c'.moves == c.moves
    requires c'.pendingRemoteNodes == c.pendingRemoteNodes && c'.localListDone && c'.deliveryDone
    requires forall j: Job :: j.Create? ==> c'.jobs[j] == c.jobs[j]
    ensures Loose(c', A)
  {
    forall j | j in c'.jobs ensures CreatesRightly(c'.tree, c'.jobs, A, j) {
      if j.Create? {
        assert j in c.jobs;
        assert CreatesRightly(c.tree, c.jobs, A, j);
      }
    }
    forall j: Job | j in c'.jobs && j.Create? ensures c'.handled[j.remote] == 1 {
      assert j in c.jobs;
    }
    forall n ensures WaitsLoosely(c', A, n) {
      assert WaitsLoosely(c, A, n);
      assert Waiting(c', n) == Waiting(c, n);
    }
    forall n, m, e | e in Waiting(c', n) && e in Waiting(c', m) ensures n == m {
      assert Waiting(c', n) == Waiting(c, n) && Waiting(c', m) == Waiting(c, m);
    }
  }

  // ------------------------------------------------------------------ the snag

  /** d is accepted; above its parent stands b, matched by name only, at whose parent's node n
      the walk along remote ids ends. */
  ghost predicate Snag(t: Tree, A: set<Collection>, d: Collection, b: Collection, n: Id) {
    && d in A && Above(b, d.Parent()) && InChains(A, b) && Recovered(t, b)
    && Walk(t, PathOf(b.Parent())) == Some(n)
  }

  lemma {:induction false} AbovePath(b: Collection, c: Collection)
    requires RootedChain(c) && Above(b, c)
    ensures PathOf(b) <= PathOf(c) && |PathOf(b)| < |PathOf(c)|
    decreases c
  {
    if b != c.parent {
      AbovePath(b, c.parent);
    }
  }

  /** So d waits at n. */
  lemma SnagWaits(t: Tree, A: set<Collection>, d: Collection, b: Collection, n: Id)
    requires t.hierarchicalRIDs && TreeOk(t) && GoodListing(true, A) && Snag(t, A, d, b, n)
    ensures Best(t, d) == Some(n) && n in t.localUidMap
  {
    assert Above(d.parent, d);
    AboveTrans(b, d.parent, d);
    AbovePath(b, d);
    BestIsDeepest(t, d);
    assert PathOf(b)[..|PathOf(b)| - 1] == PathOf(b.parent);
    DeepestBelowGap(t, PathOf(b), PathOf(d));
    WalkPlace(t, PathOf(b.parent));
  }

  /** A created collection does not remove the snag. */
  lemma SnagGrown(t: Tree, A: set<Collection>, p: Id, r: Collection, x: Id, d: Collection, b: Collection, n: Id)
    requires TreeOk(t) && t.hierarchicalRIDs && GoodListing(true, A) && Coherent(t, A) && r in A
        && CanCreate(t, p, r, x)
    requires Snag(t, A, d, b, n)
    ensures Snag(CreateLocalNode(t, Created(t, p, r, x)), A, d, b, n)
  {
    ListedInChains(A, r);
    ParentInChains(A, b);
    ChainMatch(t, A, p, r, x, b);
    assert AgreeAt(t, b, r);
    NewRid(t, p, r, x);
    LeafWalk(t, p, r, x, PathOf(b));
    LeafWalk(t, p, r, x, PathOf(b.parent));
    assert PathOf(b)[..|PathOf(b)| - 1] == PathOf(b.parent);
    WalkIsMatch(t, b.parent);
    SamePathSteps(b, r);
    SameParents(t, A, b, r);
    var q := PathOf(b.parent);
    assert q != [] && q[|q| - 1] == r.Rid() && Walk(t, q[..|q| - 1]) == Some(p) ==> Walk(t, q).None?;
  }

  /** Nothing that waits is going to be created below n. */
  ghost predicate NoneFor(c: State, n: Id) {
    forall m, r :: r in Waiting(c, m) ==> MatchParent(c.tree, r) != Some(n)
  }

  ghost predicate NoCreateAt(c: State, n: Id) {
    forall j: Job :: j in c.jobs && j.Create? ==> j.localParent != n
  }

  lemma GrownNoneFor(c: State, A: set<Collection>, j: Job, x: Id, n: Id)
    requires Loose(c, A) && j in c.jobs && j.Create? && x != ROOT_ID && x !in c.tree.localUidMap
    requires NoneFor(c, n) && n in c.tree.localUidMap
    ensures NoneFor(CreateRecorded(c, j, x), n)
  {
    var r := CreateRecorded(c, j, x);
    RecordedLoose(c, A, j, x);
    assert CreatesRightly(c.tree, c.jobs, A, j);
    SameWaiting(c, r);
    forall m, e | e in Waiting(r, m) ensures MatchParent(r.tree, e) != Some(n) {
      assert WaitsLoosely(c, A, m);
      assert e in Waiting(c, m) && e in A;
      ListedInChains(A, e);
      ChainMatch(c.tree, A, j.localParent, j.remote, x, e.parent);
      assert MatchParent(c.tree, e) != Some(n);
    }
  }

  lemma PassNoneFor(c: State, A: set<Collection>, k: Id, n: Id)
    requires Loose(c, A) && NoneFor(c, n)
    ensures NoneFor(ProcessPendingRemoteNodes(c, k), n)
    ensures NoCreateAt(c, n) ==> NoCreateAt(ProcessPendingRemoteNodes(c, k), n)
  {
    PassLoose(c, A, k);
    var c' := ProcessPendingRemoteNodes(c, k);
    forall m, e | e in Waiting(c', m) ensures MatchParent(c'.tree, e) != Some(n) {
      PassWaits(c, A, k, c', m);
    }
    if NoCreateAt(c, n) {
      forall j: Job | j in c'.jobs && j.Create? ensures j.localParent != n {
        PassCreates(c, A, k, c', j);
        assert CreatesRightly(c'.tree, c'.jobs, A, j);
      }
    }
  }

  // ------------------------------------------------------------------ stuck for good

  /** d waits at n, and nothing will ever make anybody look there again. */
  ghost predicate Stuck(c: State, A: set<Collection>, d: Collection, b: Collection, n: Id) {
    Loose(c, A) && Snag(c.tree, A, d, b, n) && d in Waiting(c, n) && NoneFor(c, n) && NoCreateAt(c, n)
  }

  /** Checking for the end in a state in which something waits. */
  lemma CheckOrphans(c: State, n: Id)
    requires c.localListDone && c.deliveryDone && c.outcomes == [] && Waiting(c, n) != [] && c.moves == multiset{}
        && Counts(c)
    ensures if c.jobs == multiset{} then CheckDone(c).outcomes == [UnresolvedOrphans] else CheckDone(c) == c
  {
    assert |c.jobs| == 0 <==> c.jobs == multiset{};
  }

  lemma StuckOther(c: State, A: set<Collection>, d: Collection, b: Collection, n: Id, j: Job)
    requires Stuck(c, A, d, b, n) && c.outcomes == [] && j in c.jobs && !j.Create?
    ensures JobDone(c, j).outcomes == [UnresolvedOrphans]
        || (Stuck(JobDone(c, j), A, d, b, n) && JobDone(c, j).outcomes == [])
    ensures JobDone(c, j).jobs == multiset{} ==> JobDone(c, j).outcomes == [UnresolvedOrphans]
    ensures JobDone(c, j).handled == c.handled
  {
    var c1 := Counted(c, j);
    CountedLoose(c, A, j);
    assert Stuck(c1, A, d, b, n) by { SameWaiting(c, c1); }
    CheckOrphans(c1, n);
    assert JobDone(c, j) == CheckDone(c1);
  }

  /** The state in which the end is checked after a job that creates nothing. */
  function Counted(c: State, j: Job): State {
    c.(jobs := c.jobs - multiset{j}, pendingJobs := c.pendingJobs - 1, progress := c.progress + 1)
  }

  lemma CountedLoose(c: State, A: set<Collection>, j: Job)
    requires Loose(c, A) && j in c.jobs && !j.Create?
    ensures Loose(Counted(c, j), A)
  {
    assert |Counted(c, j).jobs| == |c.jobs| - 1;
    OtherJobsLoose(c, Counted(c, j), A);
  }

  lemma SameWaiting(c: State, c': State)
    requires c'.pendingRemoteNodes == c.pendingRemoteNodes
    ensures forall n :: Waiting(c', n) == Waiting(c, n)
  {
  }

  lemma StuckCreate(c: State, A: set<Collection>, d: Collection, b: Collection, n: Id, j: Job, x: Id)
    requires Stuck(c, A, d, b, n) && c.outcomes == [] && j in c.jobs && j.Create? && x != ROOT_ID
        && x !in c.tree.localUidMap
    ensures var c' := CreateDone(c, j, x);
      && (c'.outcomes == [UnresolvedOrphans] || (Stuck(c', A, d, b, n) && c'.outcomes == []))
      && (c'.jobs == multiset{} ==> c'.outcomes == [UnresolvedOrphans])
  {
    var r := CreateRecorded(c, j, x);
    RecordedLoose(c, A, j, x);
    assert CreatesRightly(c.tree, c.jobs, A, j);
    SnagWaits(c.tree, A, d, b, n);
    SnagGrown(c.tree, A, j.localParent, j.remote, x, d, b, n);
    GrownNoneFor(c, A, j, x, n);
    SameWaiting(c, r);
    assert NoCreateAt(r, n);
    PassLoose(r, A, j.localParent);
    PassNoneFor(r, A, j.localParent, n);
    var s := ProcessPendingRemoteNodes(r, j.localParent);
    PassWaits(r, A, j.localParent, s, n);
    assert Stuck(s, A, d, b, n);
    CheckOrphans(s, n);
  }

  // ------------------------------------------------------------------ before that

  /** d waits at n, and the creation of its parent, elsewhere, is in flight. */
  ghost predicate Brewing(c: State, A: set<Collection>, d: Collection, b: Collection, n: Id, j0: Job) {
    && Loose(c, A) && Snag(c.tree, A, d, b, n) && d in Waiting(c, n) && NoneFor(c, n)
    && j0 in c.jobs && j0.Create? && PathOf(j0.remote) == PathOf(d.Parent()) && j0.localParent != n
  }

  /** As long as it is, looking at n again does not help d. */
  lemma BrewingStays(c: State, A: set<Collection>, d: Collection, b: Collection, n: Id, j0: Job)
    requires Brewing(c, A, d, b, n, j0)
    ensures StaysAt(c.tree, d, n)
  {
    assert CreatesRightly(c.tree, c.jobs, A, j0);
    ListedInChains(A, d);
    ListedInChains(A, j0.remote);
    assert AgreeAt(c.tree, j0.remote, d.parent);
    SnagWaits(c.tree, A, d, b, n);
    MatchStep(c.tree, d);
  }

  /** Jobs are in flight, so nothing ends. */
  lemma NotDone(c: State, j: Job)
    requires Counts(c) && j in c.jobs
    ensures CheckDone(c) == c
  {
    assert |c.jobs| > 0;
  }

  lemma BrewingOther(c: State, A: set<Collection>, d: Collection, b: Collection, n: Id, j0: Job, j: Job)
    requires Brewing(c, A, d, b, n, j0) && j in c.jobs && !j.Create?
    ensures Brewing(JobDone(c, j), A, d, b, n, j0) && JobDone(c, j).outcomes == c.outcomes
  {
    var c1 := Counted(c, j);
    CountedLoose(c, A, j);
    SameWaiting(c, c1);
    assert j0 in c1.jobs;
    NotDone(c1, j0);
    assert JobDone(c, j) == c1;
  }

  lemma BrewingCreate(c: State, A: set<Collection>, d: Collection, b: Collection, n: Id, j0: Job, j: Job, x: Id)
    requires Brewing(c, A, d, b, n, j0) && j in c.jobs && j != j0 && j.Create?
    requires x != ROOT_ID && x !in c.tree.localUidMap
    ensures Brewing(CreateDone(c, j, x), A, d, b, n, j0) && CreateDone(c, j, x).outcomes == c.outcomes
  {
    var r := CreateRecorded(c, j, x);
    RecordedLoose(c, A, j, x);
    assert CreatesRightly(c.tree, c.jobs, A, j);
    SnagWaits(c.tree, A, d, b, n);
    SnagGrown(c.tree, A, j.localParent, j.remote, x, d, b, n);
    GrownNoneFor(c, A, j, x, n);
    SameWaiting(c, r);
    assert j0 in r.jobs;
    assert Brewing(r, A, d, b, n, j0);
    BrewingStays(r, A, d, b, n, j0);
    PassLoose(r, A, j.localParent);
    PassNoneFor(r, A, j.localParent, n);
    var s := ProcessPendingRemoteNodes(r, j.localParent);
    PassWaits(r, A, j.localParent, s, n);
    assert j0 in s.jobs;
    NotDone(s, j0);
  }

  /** Once that creation is the only job left, d is stuck. */
  lemma BrewingEnds(c: State, A: set<Collection>, d: Collection, b: Collection, n: Id, j0: Job)
    requires Brewing(c, A, d, b, n, j0) && c.jobs == multiset{j0}
    ensures Stuck(c, A, d, b, n)
  {
  }

  // ------------------------------------------------------------------ how it begins

  /** On the way up from a recovered node, the walk along remote ids ends at some recovered
      node's parent. */
  lemma {:induction false} HighestRecovered(t: Tree, d: Collection, b: Collection) returns (h: Collection)
    requires t.hierarchicalRIDs && RootedChain(d) && Above(b, d) && Recovered(t, b)
    ensures Above(h, d) && Recovered(t, h) && Walk(t, PathOf(h.Parent())).Some?
    decreases b
  {
    AboveRooted(b, d);
    if Walk(t, PathOf(b.Parent())).Some? {
      h := b;
    } else {
      MatchStep(t, b);
      assert Above(b.parent, b);
      AboveTrans(b.parent, b, d);
      h := HighestRecovered(t, d, b.parent);
    }
  }

  /** The ancestor at a given path. */
  lemma {:induction false} AncestorAt(c: Collection, p: Path) returns (e: Collection)
    requires RootedChain(c) && p <= PathOf(c) && |p| < |PathOf(c)|
    ensures Above(e, c) && PathOf(e) == p
    decreases c
  {
    assert PathOf(c) == PathOf(c.parent) + [c.remoteId];
    if |p| == |PathOf(c.parent)| {
      e := c.parent;
    } else {
      e := AncestorAt(c.parent, p);
    }
  }

  /** Another collection with the same path as d's parent meets the same snag. */
  lemma SnagMoves(t: Tree, A: set<Collection>, d: Collection, b: Collection, n: Id, e: Collection)
          returns (b': Collection)
    requires t.hierarchicalRIDs && GoodListing(true, A) && Coherent(t, A) && Snag(t, A, d, b, n)
    requires e in A && PathOf(e) == PathOf(d.Parent()) && MatchParent(t, e).None?
    ensures Snag(t, A, e, b', n)
  {
    ListedInChains(A, e);
    AbovePath(b, d.parent);
    b' := AncestorAt(e, PathOf(b));
    AboveRooted(b', e);
    assert InChains(A, b');
    assert AgreeAt(t, b, b');
    assert PathOf(b)[..|PathOf(b)| - 1] == PathOf(b.parent) && PathOf(b')[..|PathOf(b')| - 1] == PathOf(b'.parent);
    assert b' != e.parent;
  }

  /** If anything can be stranded, then something below a collection that can be created. */
  lemma {:induction false} Normalized(t: Tree, A: set<Collection>, d: Collection, b: Collection, n: Id)
      returns (d': Collection, b': Collection, up: Collection)
    requires t.hierarchicalRIDs && GoodListing(true, A) && Coherent(t, A) && Closed(t, A)
    requires Snag(t, A, d, b, n) && MatchParent(t, d).None?
    ensures Snag(t, A, d', b', n) && up in A && PathOf(up) == PathOf(d'.Parent()) && Creatable(t, up)
    decreases |PathOf(d)|
  {
    ListedInChains(A, d);
    var e :| e in A && PathOf(e) == PathOf(d.Parent());
    ListedInChains(A, e);
    assert AgreeAt(t, e, d.parent);
    if MatchParent(t, e).Some? {
      d', b', up := d, b, e;
    } else {
      var b1 := SnagMoves(t, A, d, b, n, e);
      d', b', up := Normalized(t, A, e, b1, n);
    }
  }

  /** The node below which that one is created is not the one at which d waits. */
  lemma CreatedElsewhere(t: Tree, A: set<Collection>, d: Collection, b: Collection, n: Id, up: Collection)
    requires TreeOk(t) && t.hierarchicalRIDs && GoodListing(true, A) && Coherent(t, A)
    requires Snag(t, A, d, b, n) && up in A && PathOf(up) == PathOf(d.Parent()) && Creatable(t, up)
    ensures MatchParent(t, up) != Some(n)
  {
    ListedInChains(A, d);
    ListedInChains(A, up);
    ParentInChains(A, b);
    AbovePath(b, d.parent);
    assert |PathOf(up.parent)| >= |PathOf(b)| > |PathOf(b.parent)|;
    WalkIsMatch(t, b.parent);
    EmptyPathIsRoot(up.parent);
    MatchPlace(t, up.parent);
    if !b.parent.IsRoot() {
      assert AgreeAt(t, up.parent, b.parent);
    }
  }

  /** When the listing has just been completed, everything accepted is at the root. */
  ghost predicate AllAtRoot(c: State, A: set<Collection>) {
    && NoDup(Waiting(c, ROOT_ID)) && Elements(Waiting(c, ROOT_ID)) == A
    && (forall n :: n != ROOT_ID ==> Waiting(c, n) == [])
    && c.jobs == multiset{} && c.handled == multiset{}
  }

  /** The first pass starts every creation that is possible. */
  lemma FirstCreates(c: State, A: set<Collection>, up: Collection)
    requires Loose(c, A) && AllAtRoot(c, A) && up in A && Creatable(c.tree, up)
    ensures CreationOf(c.tree, up) in ProcessPendingRemoteNodes(c, ROOT_ID).jobs
  {
    PassLoose(c, A, ROOT_ID);
    assert up in Waiting(c, ROOT_ID);
    StartsMembers(c.tree, Waiting(c, ROOT_ID));
  }

  /** Afterwards, what waits has no parent yet. */
  lemma FirstWaits(c: State, A: set<Collection>, m: Id, r: Collection)
    requires Loose(c, A) && AllAtRoot(c, A)
    ensures r in Waiting(ProcessPendingRemoteNodes(c, ROOT_ID), m) <==> r in A && StaysAt(c.tree, r, m)
  {
    PassLoose(c, A, ROOT_ID);
    PassWaits(c, A, ROOT_ID, ProcessPendingRemoteNodes(c, ROOT_ID), m);
    assert r in A <==> r in Waiting(c, ROOT_ID);
  }

  /** The first pass: d comes to wait at n while its parent's creation starts elsewhere. */
  lemma FirstPass(c: State, A: set<Collection>, d: Collection, b: Collection, n: Id, up: Collection)
    requires Loose(c, A) && AllAtRoot(c, A)
    requires Snag(c.tree, A, d, b, n) && up in A && PathOf(up) == PathOf(d.Parent()) && Creatable(c.tree, up)
    ensures Brewing(ProcessPendingRemoteNodes(c, ROOT_ID), A, d, b, n, CreationOf(c.tree, up))
  {
    var t := c.tree;
    PassLoose(c, A, ROOT_ID);
    var s := ProcessPendingRemoteNodes(c, ROOT_ID);
    FirstCreates(c, A, up);
    CreatedElsewhere(t, A, d, b, n, up);
    assert StaysAt(t, d, n) by {
      ListedInChains(A, d);
      ListedInChains(A, up);
      assert AgreeAt(t, up, d.parent);
      SnagWaits(t, A, d, b, n);
      MatchStep(t, d);
    }
    FirstWaits(c, A, n, d);
    assert NoneFor(s, n) by {
      forall m, r | r in Waiting(s, m) ensures MatchParent(t, r) != Some(n) {
        FirstWaits(c, A, m, r);
      }
    }
  }

  /** Deletions that start on the side change nothing about it. */
  lemma BrewingDeletes(c: State, A: set<Collection>, d: Collection, b: Collection, n: Id, j0: Job, c': State)
    requires Brewing(c, A, d, b, n, j0) && Counts(c') && c.jobs <= c'.jobs && OnlyDeletes(c'.jobs - c.jobs)
    requires c'.tree == c.tree && c'.handled == c.handled && c'.moves == c.moves
    requires c'.pendingRemoteNodes == c.pendingRemoteNodes && c'.localListDone && c'.deliveryDone
    ensures Brewing(c', A, d, b, n, j0)
  {
    forall j: Job | j.Create? ensures c'.jobs[j] == c.jobs[j] {
      assert (c'.jobs - c.jobs)[j] == 0;
    }
    OtherJobsLoose(c, c', A);
    SameWaiting(c, c');
  }

  /** So executing with everything at the root leaves d waiting at n. */
  lemma ExecuteBrews(c: State, A: set<Collection>, d: Collection, b: Collection, n: Id, up: Collection)
    requires Loose(c, A) && AllAtRoot(c, A)
    requires Snag(c.tree, A, d, b, n) && up in A && PathOf(up) == PathOf(d.Parent()) && Creatable(c.tree, up)
    ensures Brewing(Execute(c), A, d, b, n, CreationOf(c.tree, up)) && Execute(c).outcomes == c.outcomes
  {
    var j0 := CreationOf(c.tree, up);
    FirstPass(c, A, d, b, n, up);
    PassLoose(c, A, ROOT_ID);
    var s1 := ProcessPendingRemoteNodes(c, ROOT_ID);
    var s2 := DeleteUnprocessedLocalNodes(s1);
    DeleteUnprocessedIs(s1);
    BrewingDeletes(s1, A, d, b, n, j0, s2);
    var s3 := DeleteRemoved(s2);
    DeleteRemovedIs(s2);
    BrewingDeletes(s2, A, d, b, n, j0, s3);
    NotDone(s3, j0);
  }
}
