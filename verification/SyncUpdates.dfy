/** Which modify jobs a synchronisation issues, and what the jobs in flight carry, in either mode and
    whether the listing is full or incremental (akonadi/collectionsync.cpp, updateLocalCollection and
    createLocalCollections). */
module SyncUpdates {
  import opened Collections
  import opened SyncState
  import opened SyncMatching
  import opened SyncGrowth
  import opened SyncLedger
  import opened SyncRun
  import opened SyncContent
  import opened SyncSystem
  import opened SyncSteps
  import opened SyncMoves

  // ------------------------------------------------------------------ one pass

  ghost predicate UpdateFor(t: Tree, c: Collection, col: Collection) {
    Match(t, c).Some? && col == UpdateOf(t, c)
  }

  ghost predicate AnyUpdate(t: Tree, cs: seq<Collection>, col: Collection) {
    exists c :: c in cs && UpdateFor(t, c, col)
  }

  ghost function UpdatesOf(t: Tree, c: Collection): multiset<Job> {
    if Match(t, c).Some? then multiset{Modify(UpdateOf(t, c))} else multiset{}
  }

  ghost function AllUpdates(t: Tree, cs: seq<Collection>): multiset<Job> {
    if cs == [] then multiset{} else AllUpdates(t, cs[..|cs| - 1]) + UpdatesOf(t, cs[|cs| - 1])
  }

  /** Distinct listed collections are never updated to the same thing. */
  lemma {:induction false} AllUpdatesCount(t: Tree, A: set<Collection>, cs: seq<Collection>, col: Collection)
    requires TreeOk(t) && Fits(t, A) && NoDup(cs) && forall c :: c in cs ==> c in A
    ensures AllUpdates(t, cs)[Modify(col)] == One(AnyUpdate(t, cs, col))
  {
    if cs != [] {
      var front, c := cs[..|cs| - 1], cs[|cs| - 1];
      assert cs == front + [c];
      assert forall d :: d in cs <==> d in front || d == c;
      AllUpdatesCount(t, A, front, col);
      if UpdateFor(t, c, col) && AnyUpdate(t, front, col) {
        var d :| d in front && UpdateFor(t, d, col);
        MatchInjective(t, A, c, d);
        assert false;
      }
    }
  }

  lemma OneUpdates(w: Sweep, A: set<Collection>, c: Collection)
    requires TreeOk(w.state.tree) && GoodListing(w.state.tree.hierarchicalRIDs, A) && c in A && !w.aborted
    ensures ProcessOne(w, c).state.jobs == w.state.jobs + UpdatesOf(w.state.tree, c)
  {
    var t := w.state.tree;
    MatchIsNode(t, A, c);
    if Match(t, c).Some? {
      UpdateIs(w.state, Match(t, c).value, c);
      assert ProcessOne(w, c) == ProcessMatched(w, Match(t, c).value, c);
    } else if MatchParent(t, c).Some? {
      assert ProcessOne(w, c) == ProcessCreatable(w, MatchParent(t, c).value, c);
    } else {
      PrematureJobs(w, Best(t, c), c);
    }
  }

  lemma {:induction false} SweepUpdates(s: State, A: set<Collection>, cs: seq<Collection>)
    requires TreeOk(s.tree) && GoodListing(s.tree.hierarchicalRIDs, A) && (forall c :: c in cs ==> c in A)
    requires !SweepAll(s, cs).aborted
    ensures SweepAll(s, cs).state.jobs == s.jobs + AllUpdates(s.tree, cs)
  {
    if cs != [] {
      var front, c := cs[..|cs| - 1], cs[|cs| - 1];
      NotAborted(SweepAll(s, front), c);
      SweepUpdates(s, A, front);
      SweepAllJobs(s, front);
      OneUpdates(SweepAll(s, front), A, c);
    }
  }

  // ------------------------------------------------------------------ which updates are issued

  /** A collection taken up is updated to col. */
  ghost predicate UpdatedNow(s: State, A: set<Collection>, col: Collection) {
    exists c :: TakenUp(s, A, c) && UpdateFor(s.tree, c, col)
  }

  lemma ExecuteUpdates(s: State, A: set<Collection>, col: Collection)
    requires Opened(s, A, ROOT_ID)
    ensures Execute(s).jobs[Modify(col)] == s.jobs[Modify(col)] + One(UpdatedNow(s, A, col))
  {
    var cs := Waiting(s, ROOT_ID);
    PassUpdates(s, A, col);
    ExecutedIs(s, A);
    AllUpdatesCount(s.tree, A, cs, col);
    DeleteListCounts(ToDelete(s.tree, s.removedRemoteCollections));
    forall c ensures TakenUp(s, A, c) <==> c in cs && Match(s.tree, c).Some? {
      WaitingTakenUp(s, A, c);
    }
  }

  lemma PassUpdates(s: State, A: set<Collection>, col: Collection)
    requires Opened(s, A, ROOT_ID)
    ensures ProcessPendingRemoteNodes(s, ROOT_ID).jobs[Modify(col)] ==
      s.jobs[Modify(col)] + AllUpdates(s.tree, Waiting(s, ROOT_ID))[Modify(col)]
  {
    var cs := Waiting(s, ROOT_ID);
    var s0 := SetWaiting(s, ROOT_ID, []);
    PassOk(s, A, ROOT_ID);
    SweepUpdates(s0, A, cs);
    SweepAllJobs(s0, cs);
    var w := SweepAll(s0, cs);
    assert ProcessPendingRemoteNodes(s, ROOT_ID).jobs == w.state.jobs + w.creations;
  }

  lemma DeliveryUpdates(s: System, s': System, remote: set<Collection>, removed: seq<Collection>, col: Collection)
    requires Inv(s, remote) && DeliveryReports(s, s', removed) && s'.client.localListDone
    ensures s'.client.tree == s.client.tree
    ensures s'.client.jobs[Modify(col)] == s.client.jobs[Modify(col)] + One(UpdatedNow(s.client, Seen(s', remote), col))
  {
    var s2 := DeliveryExecutes(s, s', remote, removed);
    ExecuteUpdates(s2, Seen(s', remote), col);
    ExecutedIs(s2, Seen(s', remote));
    forall c ensures TakenUp(s2, Seen(s', remote), c) <==> TakenUp(s.client, Seen(s', remote), c) {
    }
  }

  lemma FinishedKeeps(s: System, s': System, j: Job)
    requires ModifyFinishes(s, s', j) || DeleteFinishes(s, s', j)
    ensures s'.client.jobs == s.client.jobs - multiset{j} && s'.client.tree == s.client.tree
  {
    FinishedIs(s.client, j);
  }

  lemma PlainUpdates(s: System, s': System, j: Job, col: Collection)
    requires ModifyFinishes(s, s', j) || DeleteFinishes(s, s', j)
    ensures s'.client.jobs[Modify(col)] + One(ModifyFinishes(s, s', Modify(col))) == s.client.jobs[Modify(col)]
  {
    FinishedKeeps(s, s', j);
    if ModifyFinishes(s, s', Modify(col)) {
      FinishedKeeps(s, s', Modify(col));
    }
  }

  lemma OtherUpdates(s: System, s': System, col: Collection)
    requires s'.client.jobs[Modify(col)] == s.client.jobs[Modify(col)]
    ensures !ModifyFinishes(s, s', Modify(col))
  {
    if ModifyFinishes(s, s', Modify(col)) {
      FinishedKeeps(s, s', Modify(col));
    }
  }

  /** The result of a job uses up that job and updates nothing. */
  lemma JobUpdates(s: System, s': System, remote: set<Collection>, col: Collection)
    requires Inv(s, remote) && JobStep(s, s')
    ensures s'.client.jobs[Modify(col)] + One(ModifyFinishes(s, s', Modify(col))) == s.client.jobs[Modify(col)]
  {
    NoJobBeforeListing(s, s', remote);
    var r := ResultOf(s, s');
    match r
    case PlainResult(j) =>
      PlainUpdates(s, s', j, col);
    case MoveResult(m) =>
      MovedIs(s.client, m);
      OtherUpdates(s, s', col);
    case CreateResult(j, x) =>
      CreateDoneJobs(s.client, Seen(s, remote), j, x);
      OtherUpdates(s, s', col);
  }

  /** Every step of every run, in either mode, issues exactly one modify job for each listed
      collection whose match it processes, with the listed data under the local uid and parent, and
      uses up a modify job only when it finishes. */
  lemma UpdatesExact(s: System, s': System, remote: set<Collection>, col: Collection)
    requires Inv(s, remote) && Step(s, s') && s'.client.localListDone
    ensures s'.client.jobs[Modify(col)] + One(ModifyFinishes(s, s', Modify(col))) ==
      s.client.jobs[Modify(col)] + One(UpdatedNow(s.client, Seen(s', remote), col))
  {
    if JobStep(s, s') {
      JobUpdates(s, s', remote, col);
      NobodyUpdatedNow(s, s', remote, col);
    } else {
      var removed := StepReports(s, s');
      DeliveryUpdates(s, s', remote, removed, col);
      if ModifyFinishes(s, s', Modify(col)) {
        assert JobStep(s, s');
      }
    }
  }

  lemma NobodyUpdatedNow(s: System, s': System, remote: set<Collection>, col: Collection)
    requires Inv(s, remote) && JobStep(s, s')
    ensures !UpdatedNow(s.client, Seen(s', remote), col)
  {
    NoJobBeforeListing(s, s', remote);
    forall c | c in Seen(s', remote) ensures !TakenUp(s.client, Seen(s', remote), c) {
      assert Settled(s.client, s.client.jobs, c);
    }
  }

  // ------------------------------------------------------------------ what jobs carry

  /** A create job carries the listed data below the match of the listed parent. */
  ghost predicate CarriesNew(t: Tree, A: set<Collection>, j: Job) {
    j.Create? ==>
      && j.remote in A && Match(t, j.remote).None? && MatchParent(t, j.remote) == Some(j.localParent)
      && j.col == Collection(j.remote.Uid(), j.remote.Rid(), j.remote.Name(), j.remote.Display(),
                             Node(t, j.localParent).collection)
  }

  ghost predicate UpdatesCarried(s: State, A: set<Collection>) {
    forall j {:trigger CarriesUpdate(s.tree, A, j)} :: j in s.jobs ==> CarriesUpdate(s.tree, A, j)
  }

  lemma UpdateKept(t: Tree, t': Tree, A: set<Collection>, r: Collection, x: Id, a: Id, c: Collection)
    requires TreeOk(t) && GoodListing(t.hierarchicalRIDs, A) && Grows(t, t', A, r, x, a)
    requires c in A && c != r && Match(t, c).Some?
    ensures Match(t', c).Some? && UpdateOf(t', c) == UpdateOf(t, c)
  {
    MatchIsNode(t, A, c);
    assert Reached(t, c);
  }

  lemma GrownUpdates(s: State, s': State, A: set<Collection>, r: Collection, x: Id, a: Id)
    requires TreeOk(s.tree) && GoodListing(s.tree.hierarchicalRIDs, A) && Grows(s.tree, s'.tree, A, r, x, a)
    requires Match(s.tree, r).None? && UpdatesCarried(s, A) && forall k: Job :: !k.Create? ==> s'.jobs[k] == s.jobs[k]
    ensures UpdatesCarried(s', A)
  {
    forall k | k in s'.jobs && k.Modify? ensures CarriesUpdate(s'.tree, A, k) {
      assert CarriesUpdate(s.tree, A, k);
      var c :| c in A && Match(s.tree, c).Some? && k.col == UpdateOf(s.tree, c);
      UpdateKept(s.tree, s'.tree, A, r, x, a, c);
    }
  }

  lemma CreateKeepsUpdates(s: State, A: set<Collection>, j: Job, x: Id)
    requires Syncing(s, A) && UpdatesCarried(s, A) && j in s.jobs && j.Create?
    requires x != ROOT_ID && x !in s.tree.localUidMap
    ensures UpdatesCarried(CreateDone(s, j, x), A)
  {
    CreateDoneIs(s, A, j, x);
    CreateDoneJobs(s, A, j, x);
    RecordedGrows(s, A, j, x);
    assert CreatesRightly(s.tree, s.jobs, A, j);
    GrownUpdates(s, CreateDone(s, j, x), A, j.remote, x, Anchor(s.tree, j.localParent));
  }

  lemma StepCarries(s: System, s': System, remote: set<Collection>)
    requires Inv(s, remote) && Step(s, s') && s'.client.localListDone && UpdatesCarried(s.client, Seen(s, remote))
    ensures UpdatesCarried(s'.client, Seen(s', remote))
  {
    if j, x :| CreateFinishes(s, s', j, x) {
      NoJobBeforeListing(s, s', remote);
      CreateKeepsUpdates(s.client, Seen(s, remote), j, x);
    } else {
      StepKeepsTree(s, s', remote);
      forall j | j in s'.client.jobs && j.Modify? ensures CarriesUpdate(s'.client.tree, Seen(s', remote), j) {
        UpdatesExact(s, s', remote, j.col);
        assert CarriesUpdate(s.client.tree, Seen(s, remote), j) || UpdatedNow(s.client, Seen(s', remote), j.col);
      }
    }
  }

  lemma StepKeepsTree(s: System, s': System, remote: set<Collection>)
    requires Inv(s, remote) && Step(s, s') && s'.client.localListDone && !(exists j, x :: CreateFinishes(s, s', j, x))
    ensures s'.client.tree == s.client.tree && Seen(s, remote) <= Seen(s', remote)
  {
    if JobStep(s, s') {
      if m :| MoveFinishes(s, s', m) {
        MovedIs(s.client, m);
      } else {
        var j :| ModifyFinishes(s, s', j) || DeleteFinishes(s, s', j);
        FinishedKeeps(s, s', j);
      }
    } else {
      var removed := StepReports(s, s');
      SeenGrows(s, s', remote, removed);
      DeliveryUpdates(s, s', remote, removed, Invalid);
    }
  }

  lemma NextCarries(run: seq<System>, remote: set<Collection>, i: nat)
    requires Run(run, remote) && i < |run| - 1 && UpdatesCarried(run[i].client, Seen(run[i], remote))
    ensures UpdatesCarried(run[i + 1].client, Seen(run[i + 1], remote))
  {
    RunStep(run, remote, i);
    RunInv(run, remote, i + 1);
    if run[i + 1].client.localListDone {
      StepCarries(run[i], run[i + 1], remote);
    }
  }

  lemma {:induction false} RunCarries(run: seq<System>, remote: set<Collection>, i: nat)
    requires Run(run, remote) && i < |run|
    ensures UpdatesCarried(run[i].client, Seen(run[i], remote))
  {
    if i == 0 {
      RunInv(run, remote, 0);
    } else {
      RunCarries(run, remote, i - 1);
      NextCarries(run, remote, i - 1);
    }
  }

  /** A collection that was created enters the local tree just as the server stores it. */
  lemma CreatedAsStored(s: System, s': System, remote: set<Collection>, j: Job, x: Id)
    requires Inv(s, remote) && CreateFinishes(s, s', j, x)
    ensures var c, n := Node(s'.client.tree, x).collection, s'.server[x];
      && c.Uid() == x && c.Rid() == n.remoteId && c.Name() == n.name && c.Display() == n.display
      && c.Parent().Uid() == n.parent && n.parent in s'.client.tree.localUidMap
  {
    JobsOnlyAfterListing(s, remote);
    CreateDoneIs(s.client, Seen(s, remote), j, x);
    CreatedNode(s.client, Seen(s, remote), j, x);
  }

  lemma CreatedNode(s: State, A: set<Collection>, j: Job, x: Id)
    requires Syncing(s, A) && j in s.jobs && j.Create? && x != ROOT_ID && x !in s.tree.localUidMap
    ensures var t' := CreateRecorded(s, j, x).tree;
      Node(t', x).collection == NewLocal(j, x) && j.col.Parent().Uid() in t'.localUidMap
  {
    RecordedGrows(s, A, j, x);
    assert CreatesRightly(s.tree, s.jobs, A, j);
    LeafMaps(s.tree, j.localParent, j.remote, x);
    MatchIsNode(s.tree, A, j.remote);
  }

  /** In every reachable state, in either mode: what a job in flight carries. */
  lemma JobsCarry(run: seq<System>, remote: set<Collection>, i: nat, j: Job)
    requires Run(run, remote) && i < |run| && j in run[i].client.jobs
    ensures CarriesUpdate(run[i].client.tree, Seen(run[i], remote), j)
    ensures CarriesNew(run[i].client.tree, Seen(run[i], remote), j)
  {
    RunCarries(run, remote, i);
    RunInv(run, remote, i);
    JobsOnlyAfterListing(run[i], remote);
    assert CreatesRightly(run[i].client.tree, run[i].client.jobs, Seen(run[i], remote), j);
    assert CarriesUpdate(run[i].client.tree, Seen(run[i], remote), j);
  }
}
