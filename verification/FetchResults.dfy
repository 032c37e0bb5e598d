/** What the runs of nested fetch jobs find (akonadi/collectionfetchjob.cpp): the job that reduces a
    list of bases keeps trees that do not overlap, and a recursive fetch of such a list announces
    everything below its bases exactly once. */
module FetchResults {
  import opened Collections
  import opened Trees
  import opened FilterDescendants
  import opened FetchProtocol

  // ------------------------------------------------------------------ what arrived

  /** The result of subjob c has arrived at p. */
  ghost predicate Arrived(js: Jobs, p: JobId, c: JobId) {
    p in js && c in js && js[c].parent == Some(p) && c !in js[p].subjobs
  }

  /** What the subjobs brought whose result arrived. */
  ghost function Brought(js: Jobs, p: JobId): map<JobId, multiset<Collection>> {
    map c | c in js && Arrived(js, p, c) :: multiset(js[c].collections)
  }

  /** The bases of the subjobs that p listens to. */
  ghost function BasesOf(js: Jobs, p: JobId): map<JobId, multiset<Collection>> {
    map c | c in js && HeardBy(js, p, c) :: multiset{js[c].base}
  }

  /** No tree of the list is part of another one. */
  ghost predicate Apart(par: ParentMap, roots: seq<Collection>) {
    forall i, j :: 0 <= i < |roots| && 0 <= j < |roots| && i != j ==> !Under(par, roots[i].Uid(), roots[j].Uid())
  }

  ghost predicate DifferentIn(par: ParentMap, list: seq<Collection>) {
    && ListIn(par, list)
    && forall i, j :: 0 <= i < j < |list| ==> list[i].Uid() != list[j].Uid()
  }

  /** The roots of a list of different collections of one tree. */
  ghost predicate RootsOf(par: ParentMap, list: seq<Collection>, roots: seq<Collection>) {
    DifferentIn(par, list) ==> Apart(par, roots) && forall x :: Covered(par, roots, x) <==> Covered(par, list, x)
  }

  lemma FilterFindsRoots(par: ParentMap, list: seq<Collection>)
    requires Filterable(list)
    ensures RootsOf(par, list, FilteredRoots(list))
  {
    if DifferentIn(par, list) {
      NonOverlappingRoots(par, list);
      var roots := FilteredRoots(list);
      forall i, j | 0 <= i < |roots| && 0 <= j < |roots| && i != j ensures !Under(par, roots[i].Uid(), roots[j].Uid()) {
        UnderRefl(par, roots[i].Uid());
        UnderRefl(par, roots[j].Uid());
      }
    }
  }

  // ------------------------------------------------------------------ the invariant

  /** Whoever holds something back has its timer running. */
  ghost predicate TimerOk(j: Job) {
    j.pending != [] ==> j.timer
  }

  /** A composite job has ended when the last result arrived; the only exception is a fetch whose
      list of bases came down to nothing. */
  ghost predicate ProgressOk(js: Jobs, p: JobId)
    requires p in js
  {
    js[p].kind != Leaf && !js[p].prefetching && js[p].subjobs == {} ==>
      js[p].ended || forall c :: Arrived(js, p, c) ==> js[p].kind == Aggregate && js[c].listener.None?
  }

  ghost predicate RootsOk(js: Jobs, p: JobId)
    requires p in js
  {
    js[p].kind == Roots ==>
      && multiset(js[p].prefetchList) == Sum(Brought(js, p))
      && (js[p].ended ==> forall par :: RootsOf(par, js[p].prefetchList, js[p].collections))
  }

  /** A job that waits for its roots has started nothing yet; then it starts one fetch for each. */
  ghost predicate StartedOk(js: Jobs, p: JobId)
    requires p in js
  {
    js[p].kind == Aggregate ==>
      && (js[p].prefetching ==> forall c :: !HeardBy(js, p, c))
      && (forall c :: Arrived(js, p, c) && js[c].listener.None? ==>
            !js[p].prefetching && Sum(BasesOf(js, p)) == multiset(js[c].collections))
  }

  ghost predicate ResultOk(js: Jobs, p: JobId) {
    && p in js
    && TimerOk(js[p]) && ProgressOk(js, p) && RootsOk(js, p) && StartedOk(js, p)
    && (forall c :: Arrived(js, p, c) ==> js[c].ended)
  }

  ghost predicate ResultsOk(js: Jobs) {
    forall p {:trigger ResultOk(js, p)} :: p in js ==> ResultOk(js, p)
  }

  // ------------------------------------------------------------------ steps without a result

  /** What announcements, responses and timers leave alone. */
  ghost predicate SameRole(j: Job, j': Job) {
    && SamePlace(j, j') && j'.base == j.base && j'.prefetchList == j.prefetchList
    && (j.ended ==> j'.ended)
    && (j.ended || j.kind != Leaf ==> j'.ended == j.ended && j'.collections == j.collections)
  }

  ghost predicate Quiet(js: Jobs, js': Jobs) {
    js'.Keys == js.Keys && forall q {:trigger js'[q]} {:trigger js[q]} :: q in js ==> SameRole(js[q], js'[q])
  }

  lemma QuietTwice(js: Jobs, js': Jobs, js'': Jobs)
    requires Quiet(js, js') && Quiet(js', js'')
    ensures Quiet(js, js'')
  {
  }

  lemma QuietArrived(js: Jobs, js': Jobs, p: JobId)
    requires Quiet(js, js')
    ensures forall c :: Arrived(js', p, c) <==> Arrived(js, p, c)
    ensures forall c :: HeardBy(js', p, c) <==> HeardBy(js, p, c)
  {
  }

  lemma QuietKeeps(js: Jobs, js': Jobs, p: JobId)
    requires Quiet(js, js') && ResultOk(js, p) && TimerOk(js'[p])
    ensures ResultOk(js', p)
  {
    QuietArrived(js, js', p);
    assert Brought(js', p) == Brought(js, p);
    assert BasesOf(js', p) == BasesOf(js, p);
  }

  lemma QuietResults(js: Jobs, js': Jobs)
    requires Quiet(js, js') && ResultsOk(js) && forall p :: p in js ==> TimerOk(js'[p])
    ensures ResultsOk(js')
  {
    forall p | p in js' ensures ResultOk(js', p) {
      assert ResultOk(js, p);
      QuietKeeps(js, js', p);
    }
  }

  lemma AnnounceQuiet(js: Jobs, id: JobId)
    requires id in js
    ensures Quiet(js, Announce(js, id)) && Announce(js, id)[id].ended == js[id].ended
    ensures forall p :: p in js && (p != id ==> TimerOk(js[p])) && (p == id ==> js[id].listener != Some(id)) ==>
        TimerOk(Announce(js, id)[p])
  {
  }

  lemma AnnounceResults(js: Jobs, js0: Jobs, id: JobId)
    requires ResultsOk(js) && id in js && js[id].listener != Some(id)
    requires js0 == js[id := js[id].(timer := false)] || js0 == js
    ensures ResultsOk(Announce(js0, id)) && Quiet(js, Announce(js0, id))
  {
    AnnounceQuiet(js0, id);
    assert Quiet(js, js0);
    QuietTwice(js, js0, Announce(js0, id));
    forall p | p in js ensures TimerOk(Announce(js0, id)[p]) {
      assert ResultOk(js, p);
    }
    QuietResults(js, Announce(js0, id));
  }

  lemma OneChanged(js: Jobs, id: JobId, j': Job)
    requires ResultsOk(js) && id in js && SameRole(js[id], j') && TimerOk(j')
    ensures ResultsOk(js[id := j'])
  {
    var js' := js[id := j'];
    forall p | p in js ensures TimerOk(js'[p]) {
      assert ResultOk(js, p);
    }
    QuietResults(js, js');
  }

  lemma ClosesResults(js: Jobs, js': Jobs, id: JobId)
    requires ResultsOk(js) && Closes(js, js', id) && js[id].listener != Some(id)
    ensures ResultsOk(js')
  {
    var js0 := js[id := js[id].(timer := false)];
    AnnounceResults(js, js0, id);
    var a := Announce(js0, id);
    assert ResultOk(a, id);
    OneChanged(a, id, a[id].(closed := true));
  }

  // ------------------------------------------------------------------ results of subjobs

  /** The result of c arrives at p; nothing else changes but p itself. */
  ghost predicate Arrives(js: Jobs, js': Jobs, p: JobId, c: JobId) {
    && p in js && c in js && c != p && c in js[p].subjobs && js[c].parent == Some(p)
    && js'.Keys == js.Keys && (forall q :: q in js && q != p ==> js'[q] == js[q])
    && js'[p].kind == js[p].kind && js'[p].parent == js[p].parent && js'[p].listener == js[p].listener
    && js'[p].base == js[p].base && js'[p].prefetching == js[p].prefetching
    && js'[p].subjobs == js[p].subjobs - {c}
  }

  lemma ArrivesLinks(js: Jobs, js': Jobs, p: JobId, c: JobId)
    requires Arrives(js, js', p, c)
    ensures forall g, k {:trigger Arrived(js', g, k)} :: Arrived(js', g, k) <==>
        Arrived(js, g, k) || (g == p && k == c)
    ensures forall g, k {:trigger HeardBy(js', g, k)} :: HeardBy(js', g, k) <==> HeardBy(js, g, k)
  {
  }

  /** A job that still expects a result has not ended, so its own result has not arrived. */
  lemma NotArrivedYet(js: Jobs, p: JobId, c: JobId)
    requires Inv(js) && ResultsOk(js) && p in js && js[p].kind != Leaf && c in js[p].subjobs
    ensures !js[p].ended && forall g :: !Arrived(js, g, p)
  {
    assert JobOk(js, p);
    forall g ensures !Arrived(js, g, p) {
      assert g in js ==> ResultOk(js, g);
    }
  }

  /** What holds of a job and its subjobs holds on when they stay as they are. */
  lemma ResultKept(js: Jobs, js': Jobs, q: JobId)
    requires ResultOk(js, q) && q in js' && js'[q] == js[q]
    requires forall c {:trigger Arrived(js', q, c)} :: Arrived(js', q, c) <==> Arrived(js, q, c)
    requires forall c {:trigger HeardBy(js', q, c)} :: HeardBy(js', q, c) <==> HeardBy(js, q, c)
    requires forall c {:trigger Arrived(js, q, c)} :: Arrived(js, q, c) ==> c in js' && js'[c] == js[c]
    requires forall c {:trigger HeardBy(js, q, c)} :: HeardBy(js, q, c) ==> c in js' && js'[c].base == js[c].base
    ensures ResultOk(js', q)
  {
    assert Brought(js', q) == Brought(js, q);
    assert BasesOf(js', q) == BasesOf(js, q);
  }

  lemma ArrivesElsewhere(js: Jobs, js': Jobs, p: JobId, c: JobId, q: JobId)
    requires Inv(js) && ResultsOk(js) && Arrives(js, js', p, c) && js[p].kind != Leaf && q in js && q != p
    ensures ResultOk(js', q)
  {
    assert ResultOk(js, q);
    NotArrivedYet(js, p, c);
    ArrivesLinks(js, js', p, c);
    ResultKept(js, js', q);
  }

  lemma SubjobResults(js: Jobs, p: JobId, c: JobId)
    requires Inv(js) && ResultsOk(js) && Takes(js, p, c) && js[c].ended
    ensures ResultsOk(SubjobResult(js, p, c))
  {
    assert JobOk(js, c);
    assert JobOk(js, p);
    AnnounceInv(js, c);
    AnnounceResults(js, js, c);
    TakenOverResults(Announce(js, c), p, c);
  }

  lemma TakenOverResults(a: Jobs, p: JobId, c: JobId)
    requires Inv(a) && ResultsOk(a) && Takes(a, p, c) && a[c].ended
    ensures ResultsOk(a[p := TakenOver(a[p], a[c].collections, c)])
  {
    var js' := a[p := TakenOver(a[p], a[c].collections, c)];
    assert JobOk(a, p);
    assert Arrives(a, js', p, c);
    forall q | q in js' ensures ResultOk(js', q) {
      if q != p {
        ArrivesElsewhere(a, js', p, c, q);
      } else {
        TakenOverAtParent(a, p, c);
      }
    }
  }

  lemma TakenOverAtParent(a: Jobs, p: JobId, c: JobId)
    requires Inv(a) && ResultOk(a, p) && Takes(a, p, c) && a[c].ended
    ensures ResultOk(a[p := TakenOver(a[p], a[c].collections, c)], p)
  {
    var js' := a[p := TakenOver(a[p], a[c].collections, c)];
    assert JobOk(a, p);
    assert Arrives(a, js', p, c);
    ArrivesLinks(a, js', p, c);
    assert a[c].listener.Some?;
    StartedKept(a, js', p);
    forall k | Arrived(js', p, k) ensures js'[k].ended {
      assert k == c || Arrived(a, p, k);
    }
  }

  lemma StartedKept(js: Jobs, js': Jobs, p: JobId)
    requires p in js && p in js' && StartedOk(js, p)
    requires js'[p].kind == js[p].kind && js'[p].prefetching == js[p].prefetching
    requires forall k {:trigger HeardBy(js', p, k)} :: HeardBy(js', p, k) <==> HeardBy(js, p, k)
    requires forall k {:trigger HeardBy(js, p, k)} :: HeardBy(js, p, k) ==> k in js' && js'[k].base == js[k].base
    requires forall k {:trigger Arrived(js', p, k)} :: Arrived(js', p, k) && js'[k].listener.None? ==>
        Arrived(js, p, k) && js'[k].collections == js[k].collections && js[k].listener.None?
    ensures StartedOk(js', p)
  {
    assert BasesOf(js', p) == BasesOf(js, p);
  }

  lemma BroughtMore(js: Jobs, js': Jobs, p: JobId, c: JobId)
    requires Inv(js) && ResultsOk(js) && Arrives(js, js', p, c) && js[p].kind != Leaf
    ensures Sum(Brought(js', p)) == Sum(Brought(js, p)) + multiset(js[c].collections)
  {
    NotArrivedYet(js, p, c);
    ArrivesLinks(js, js', p, c);
    var f, g := Brought(js, p), Brought(js', p);
    assert g - {c} == f - {c};
    SumAdd(f, g, c, multiset(js[c].collections));
  }

  lemma RootsResults(js: Jobs, js': Jobs, p: JobId, c: JobId)
    requires Inv(js) && ResultsOk(js) && p in js && c in js && c != p && js[p].kind == Roots && c in js[p].subjobs
    requires RootsResult(js, js', p, c) && js[c].ended
    ensures ResultsOk(js')
  {
    assert JobOk(js, p);
    assert Arrives(js, js', p, c);
    forall q | q in js' ensures ResultOk(js', q) {
      if q != p {
        ArrivesElsewhere(js, js', p, c, q);
      } else {
        assert ResultOk(js, p);
        NotArrivedYet(js, p, c);
        ArrivesLinks(js, js', p, c);
        BroughtMore(js, js', p, c);
        if js'[p].ended {
          forall par ensures RootsOf(par, js'[p].prefetchList, js'[p].collections) {
            FilterFindsRoots(par, js'[p].prefetchList);
          }
        }
      }
    }
  }

  // ------------------------------------------------------------------ starting the final fetch

  /** A family of single collections, listed without repetition, adds up to the list. */
  lemma {:induction false} SumListed(f: map<JobId, multiset<Collection>>, ids: seq<JobId>, cols: seq<Collection>)
    requires NoDup(ids) && |ids| == |cols| && forall k :: k in f <==> k in ids
    requires forall i :: 0 <= i < |ids| ==> f[ids[i]] == multiset{cols[i]}
    ensures Sum(f) == multiset(cols)
  {
    if ids == [] {
      assert f.Keys == {};
    } else {
      var n := |ids| - 1;
      var last := ids[n];
      assert cols == cols[..n] + [cols[n]];
      ListedButLast(f, ids, cols);
      SumListed(f - {last}, ids[..n], cols[..n]);
      SumTake(f, last);
    }
  }

  lemma ListedButLast(f: map<JobId, multiset<Collection>>, ids: seq<JobId>, cols: seq<Collection>)
    requires ids != [] && NoDup(ids) && |ids| == |cols| && forall k :: k in f <==> k in ids
    requires forall i :: 0 <= i < |ids| ==> f[ids[i]] == multiset{cols[i]}
    ensures var n := |ids| - 1; var front := ids[..n]; var g := f - {ids[n]};
      && NoDup(front) && (forall k :: k in g <==> k in front)
      && (forall i :: 0 <= i < n ==> g[front[i]] == multiset{cols[..n][i]})
  {
    var n := |ids| - 1;
    var front := ids[..n];
    assert ids == front + [ids[n]];
    forall i | 0 <= i < n ensures front[i] != ids[n] {
      assert front[i] == ids[i];
    }
  }

  lemma StartedResults(js: Jobs, js': Jobs, p: JobId, c: JobId, ids: seq<JobId>)
    requires Inv(js) && ResultsOk(js) && p in js && c in js && c != p && js[p].kind == Aggregate && js[p].prefetching
    requires c in js[p].subjobs && js[c].ended && PrefetchResult(js, js', p, c, ids)
    ensures ResultsOk(js')
  {
    var started := Elements(ids);
    assert Starts(js, js', p, c, started);
    StartsLinks(js, js', p, c, started);
    NotArrivedYet(js, p, c);
    assert JobOk(js, p) && js[p].subjobs - {c} == {};
    StartedArrived(js, js', p, c, ids);
    forall q | q in js' ensures ResultOk(js', q) {
      if q == p {
        StartedAtParent(js, js', p, c, ids);
      } else if q in started {
        var i :| 0 <= i < |ids| && ids[i] == q;
        assert js'[q] == NewLeaf(p, js[c].collections[i]);
      } else {
        assert ResultOk(js, q);
        ResultKept(js, js', q);
      }
    }
  }

  lemma StartedArrived(js: Jobs, js': Jobs, p: JobId, c: JobId, ids: seq<JobId>)
    requires Inv(js) && p in js && c in js && c != p && js[p].kind == Aggregate && js[p].prefetching
    requires c in js[p].subjobs && PrefetchResult(js, js', p, c, ids)
    ensures forall g, k {:trigger Arrived(js', g, k)} :: Arrived(js', g, k) <==>
        Arrived(js, g, k) || (g == p && k == c)
  {
    assert JobOk(js, p) && js[p].subjobs - {c} == {};
    forall g, k ensures Arrived(js', g, k) <==> Arrived(js, g, k) || (g == p && k == c) {
      if k in Elements(ids) {
        var i :| 0 <= i < |ids| && ids[i] == k;
        assert js'[k] == NewLeaf(p, js[c].collections[i]);
      } else if k in js {
        assert JobOk(js, k);
      }
    }
  }

  lemma NothingArrived(js: Jobs, p: JobId)
    requires Inv(js) && ResultsOk(js) && p in js && js[p].kind == Aggregate && js[p].prefetching
    ensures forall k :: !Arrived(js, p, k)
  {
    assert ResultOk(js, p);
    forall k ensures !Arrived(js, p, k) {
      if k in js {
        assert JobOk(js, k) && !HeardBy(js, p, k);
      }
    }
  }

  lemma StartedBases(js: Jobs, js': Jobs, p: JobId, c: JobId, ids: seq<JobId>)
    requires p in js && c in js && PrefetchResult(js, js', p, c, ids)
    requires forall k :: HeardBy(js', p, k) <==> k in ids
    ensures Sum(BasesOf(js', p)) == multiset(js[c].collections)
  {
    var f := BasesOf(js', p);
    forall k ensures k in f <==> k in ids {
    }
    forall i | 0 <= i < |ids| ensures f[ids[i]] == multiset{js[c].collections[i]} {
      assert ids[i] in ids;
    }
    SumListed(f, ids, js[c].collections);
  }

  lemma StartedAtParent(js: Jobs, js': Jobs, p: JobId, c: JobId, ids: seq<JobId>)
    requires Inv(js) && ResultsOk(js) && p in js && c in js && c != p && js[p].kind == Aggregate && js[p].prefetching
    requires c in js[p].subjobs && js[c].ended && PrefetchResult(js, js', p, c, ids)
    ensures ResultOk(js', p)
  {
    assert JobOk(js, p) && ResultOk(js, p) && JobOk(js, c);
    StartsLinks(js, js', p, c, Elements(ids));
    forall k ensures HeardBy(js', p, k) <==> k in ids {
      assert HeardBy(js', p, k) <==> HeardBy(js, p, k) || k in Elements(ids);
    }
    StartedBases(js, js', p, c, ids);
    StartedArrived(js, js', p, c, ids);
    NothingArrived(js, p);
    OnlyRootsArrived(js, js', p, c);
  }

  lemma OnlyRootsArrived(js: Jobs, js': Jobs, p: JobId, c: JobId)
    requires p in js && p in js' && c in js && c in js' && js'[c] == js[c] && js[c].ended && js[c].listener.None?
    requires js'[p].kind == Aggregate && !js'[p].prefetching && TimerOk(js'[p])
    requires forall k {:trigger Arrived(js', p, k)} :: Arrived(js', p, k) ==> k == c
    requires Sum(BasesOf(js', p)) == multiset(js[c].collections)
    ensures ResultOk(js', p)
  {
  }

  // ------------------------------------------------------------------ runs

  lemma ArrivesResults(js: Jobs, js': Jobs, p: JobId, c: JobId)
    requires Inv(js) && ResultsOk(js) && ResultArrives(js, js', p, c)
    ensures ResultsOk(js')
  {
    match js[p].kind
    case Roots =>
      RootsResults(js, js', p, c);
    case Aggregate =>
      if js[p].prefetching {
        var ids :| PrefetchResult(js, js', p, c, ids);
        StartedResults(js, js', p, c, ids);
      } else {
        SubjobResults(js, p, c);
      }
  }

  lemma StepResults(js: Jobs, js': Jobs)
    requires Inv(js) && ResultsOk(js) && Step(js, js')
    ensures ResultsOk(js')
  {
    if id, c :| Response(js, js', id, c) {
      OneChanged(js, id, Responded(js[id], c));
    } else if id :| LeafEnds(js, js', id) {
      assert ResultOk(js, id);
      OneChanged(js, id, js[id].(ended := true));
    } else if id :| TimerFires(js, js', id) {
      assert JobOk(js, id);
      AnnounceResults(js, js[id := js[id].(timer := false)], id);
    } else if id :| Closes(js, js', id) {
      assert JobOk(js, id);
      ClosesResults(js, js', id);
    } else {
      var p, c :| ResultArrives(js, js', p, c);
      ArrivesResults(js, js', p, c);
    }
  }

  lemma InitResults(js: Jobs)
    requires Init(js)
    ensures ResultsOk(js)
  {
    forall p | p in js ensures ResultOk(js, p) {
      assert WellPlaced(js, p) && KnowsSubjobs(js, p) && Idle(js[p]);
      forall c ensures !Arrived(js, p, c) {
        assert c in js ==> WellPlaced(js, c);
      }
      assert Brought(js, p) == map[];
      forall c | js[p].prefetching && js[p].kind == Aggregate ensures !HeardBy(js, p, c) {
        assert c in js ==> WellPlaced(js, c);
      }
    }
  }

  lemma {:induction false} RunResults(run: seq<Jobs>, i: nat)
    requires Run(run) && i < |run|
    ensures Inv(run[i]) && ResultsOk(run[i])
  {
    RunInv(run, i);
    if i == 0 {
      InitResults(run[0]);
    } else {
      var k := i - 1;
      RunResults(run, k);
      assert Step(run[k], run[k + 1]);
      StepResults(run[k], run[k + 1]);
    }
  }

  // ------------------------------------------------------------------ the roots found

  /** Some subjob of p brought the collection. */
  ghost predicate WasBrought(js: Jobs, p: JobId, b: Collection) {
    exists c :: Arrived(js, p, c) && b in js[c].collections
  }

  /** The collections brought by the subjobs of p are different ones of one tree, none of them the
      root, and each was brought once. */
  ghost predicate DifferentBrought(par: ParentMap, js: Jobs, p: JobId) {
    && Rooted(par)
    && (forall b :: WasBrought(js, p, b) ==>
          HasRootAbove(b) && ChainIn(par, b) && b.Uid() in par && Sum(Brought(js, p))[b] == 1)
    && (forall a, b :: WasBrought(js, p, a) && WasBrought(js, p, b) && a.Uid() == b.Uid() ==> a == b)
  }

  /** x stands at or below a collection that some subjob of p brought. */
  ghost predicate BelowBrought(par: ParentMap, js: Jobs, p: JobId, x: Id) {
    exists b :: WasBrought(js, p, b) && Under(par, x, b.Uid())
  }

  lemma {:induction false} SumMember<K, T>(f: map<K, multiset<T>>, x: T)
    ensures x in Sum(f) <==> exists k :: k in f && x in f[k]
    decreases |f|
  {
    if f != map[] {
      var k := Pick(f.Keys);
      SumMember(f - {k}, x);
      if j :| j in f && x in f[j] && j != k {
        assert j in f - {k};
      }
    }
  }

  /** The list a Roots job filters is what its subjobs brought. */
  lemma ListIsBrought(js: Jobs, p: JobId, b: Collection)
    requires p in js && multiset(js[p].prefetchList) == Sum(Brought(js, p))
    ensures b in js[p].prefetchList <==> WasBrought(js, p, b)
  {
    assert b in js[p].prefetchList <==> b in multiset(js[p].prefetchList);
    var f := Brought(js, p);
    SumMember(f, b);
    if c :| Arrived(js, p, c) && b in js[c].collections {
      assert c in f && b in f[c];
    }
  }

  lemma CountTwice<T>(s: seq<T>, i: nat, j: nat)
    requires i < j < |s| && s[i] == s[j]
    ensures multiset(s)[s[i]] >= 2
  {
    assert s == s[..j] + s[j..];
    assert s[i] in s[..j] && s[j] in s[j..];
  }

  lemma BroughtListDiffers(par: ParentMap, js: Jobs, p: JobId)
    requires p in js && multiset(js[p].prefetchList) == Sum(Brought(js, p)) && DifferentBrought(par, js, p)
    ensures DifferentIn(par, js[p].prefetchList)
  {
    var list := js[p].prefetchList;
    forall i | 0 <= i < |list| ensures WasBrought(js, p, list[i]) {
      ListIsBrought(js, p, list[i]);
    }
    forall i, j | 0 <= i < j < |list| ensures list[i].Uid() != list[j].Uid() {
      if list[i].Uid() == list[j].Uid() {
        CountTwice(list, i, j);
        assert false;
      }
    }
  }

  lemma BroughtListCovers(par: ParentMap, js: Jobs, p: JobId, x: Id)
    requires p in js && multiset(js[p].prefetchList) == Sum(Brought(js, p))
    ensures Covered(par, js[p].prefetchList, x) <==> BelowBrought(par, js, p, x)
  {
    forall b ensures b in js[p].prefetchList <==> WasBrought(js, p, b) {
      ListIsBrought(js, p, b);
    }
  }

  /** In every run, a job that looks for non-overlapping roots ends with collections none of which
      stands at or below another, and whose trees together are exactly the trees of what its
      subjobs brought. */
  lemma RootsFoundRight(run: seq<Jobs>, i: nat, p: JobId, par: ParentMap)
    requires Run(run) && i < |run| && p in run[i] && run[i][p].kind == Roots && run[i][p].ended
    requires DifferentBrought(par, run[i], p)
    ensures Apart(par, run[i][p].collections)
    ensures forall x :: Covered(par, run[i][p].collections, x) <==> BelowBrought(par, run[i], p, x)
  {
    RunResults(run, i);
    assert ResultOk(run[i], p);
    BroughtListDiffers(par, run[i], p);
    assert RootsOf(par, run[i][p].prefetchList, run[i][p].collections);
    forall x ensures Covered(par, run[i][p].prefetchList, x) <==> BelowBrought(par, run[i], p, x) {
      BroughtListCovers(par, run[i], p, x);
    }
  }

  // ------------------------------------------------------------------ a recursive fetch

  /** What a recursive fetch of a base is to list: everything strictly below it. */
  ghost function Below(W: set<Collection>, par: ParentMap, base: Collection): set<Collection> {
    set w | w in W && w.Uid() != base.Uid() && Under(par, w.Uid(), base.Uid())
  }

  ghost predicate StrictlyBelow(par: ParentMap, list: seq<Collection>, x: Id) {
    exists b :: b in list && x != b.Uid() && Under(par, x, b.Uid())
  }

  ghost function AllBelow(W: set<Collection>, par: ParentMap, list: seq<Collection>): set<Collection> {
    set w | w in W && StrictlyBelow(par, list, w.Uid())
  }

  ghost predicate StrictlyBelowBrought(par: ParentMap, js: Jobs, p: JobId, x: Id) {
    exists b :: WasBrought(js, p, b) && x != b.Uid() && Under(par, x, b.Uid())
  }

  ghost function Union<K, T>(f: map<K, set<T>>): set<T> {
    set k, x | k in f && x in f[k] :: x
  }

  ghost function AsMultisets<K, T>(f: map<K, set<T>>): map<K, multiset<T>> {
    map k | k in f :: multiset(f[k])
  }

  lemma {:induction false} DisjointSum<K, T>(f: map<K, set<T>>)
    requires forall j, k :: j in f && k in f && j != k ==> f[j] !! f[k]
    ensures Sum(AsMultisets(f)) == multiset(Union(f))
    decreases |f|
  {
    if f == map[] {
      assert AsMultisets(f) == map[] && Union(f) == {};
    } else {
      var k := Pick(f.Keys);
      DisjointSum(f - {k});
      SumTake(AsMultisets(f), k);
      assert AsMultisets(f) - {k} == AsMultisets(f - {k});
      UnionTake(f, k);
    }
  }

  lemma UnionTake<K, T>(f: map<K, set<T>>, k: K)
    requires k in f && forall j :: j in f && j != k ==> f[j] !! f[k]
    ensures Union(f) == Union(f - {k}) + f[k] && Union(f - {k}) !! f[k]
    ensures multiset(Union(f)) == multiset(Union(f - {k})) + multiset(f[k])
  {
    var a, b := Union(f - {k}), f[k];
    forall x ensures x in Union(f) <==> x in a + b {
      if x in Union(f) {
        var j :| j in f && x in f[j];
        assert j != k ==> j in f - {k};
      }
      if x in a {
        var j :| j in f - {k} && x in (f - {k})[j];
        assert j in f && x in f[j];
      }
    }
    assert a !! b;
    assert multiset(a + b) == multiset(a) + multiset(b);
  }

  /** Two members of a family are both in its sum. */
  lemma SumTwo<K, T>(f: map<K, multiset<T>>, j: K, k: K)
    requires j in f && k in f && j != k
    ensures f[j] + f[k] <= Sum(f)
  {
    SumTake(f, j);
    SumTake(f - {j}, k);
  }

  /** The fetches started for roots that stand apart have bases that stand apart. */
  lemma BasesApart(js: Jobs, p: JobId, roots: seq<Collection>, par: ParentMap, l: JobId, m: JobId)
    requires Sum(BasesOf(js, p)) == multiset(roots) && Apart(par, roots)
    requires HeardBy(js, p, l) && HeardBy(js, p, m) && l != m
    ensures !Under(par, js[l].base.Uid(), js[m].base.Uid())
  {
    var a, b := js[l].base, js[m].base;
    SumTwo(BasesOf(js, p), l, m);
    assert multiset{a, b} <= multiset(roots);
    assert a in multiset(roots) && b in multiset(roots);
    var i :| 0 <= i < |roots| && roots[i] == a;
    var j :| 0 <= j < |roots| && roots[j] == b;
    if i == j {
      ApartOnce(par, roots, i);
      assert false;
    }
  }

  lemma ApartOnce(par: ParentMap, roots: seq<Collection>, i: nat)
    requires Apart(par, roots) && i < |roots|
    ensures multiset(roots)[roots[i]] == 1
  {
    forall k | 0 <= k < |roots| && k != i ensures roots[k] != roots[i] {
      UnderRefl(par, roots[i].Uid());
    }
    CountOnce(roots, i);
  }

  lemma CountOnce<T>(s: seq<T>, i: nat)
    requires i < |s| && forall k :: 0 <= k < |s| && k != i ==> s[k] != s[i]
    ensures multiset(s)[s[i]] == 1
  {
    assert s == s[..i] + [s[i]] + s[i + 1..];
    assert s[i] !in s[..i] && s[i] !in s[i + 1..];
  }

  /** Standing strictly below a base is standing strictly below a root of the bases. */
  lemma StrictlyBelowRoots(par: ParentMap, list: seq<Collection>, roots: seq<Collection>, x: Id)
    requires Rooted(par) && x in par && forall y :: Covered(par, roots, y) <==> Covered(par, list, y)
    requires StrictlyBelow(par, list, x)
    ensures StrictlyBelow(par, roots, x)
  {
    var b :| b in list && x != b.Uid() && Under(par, x, b.Uid());
    UnderRefl(par, b.Uid());
    assert Covered(par, roots, b.Uid());
    var r :| r in roots && Under(par, b.Uid(), r.Uid());
    UnderTrans(par, x, b.Uid(), r.Uid());
    UnderDepth(par, x, b.Uid());
    UnderDepth(par, b.Uid(), r.Uid());
  }

  /** Each subjob of p started for a root brought exactly what is below its base. */
  ghost predicate FetchedAll(W: set<Collection>, par: ParentMap, js: Jobs, p: JobId) {
    forall l :: HeardBy(js, p, l) ==> multiset(js[l].collections) == multiset(Below(W, par, js[l].base))
  }

  ghost function Fetches(js: Jobs, p: JobId): map<JobId, multiset<Collection>> {
    map l | l in js && HeardBy(js, p, l) :: multiset(js[l].collections)
  }

  ghost function Subtrees(W: set<Collection>, par: ParentMap, js: Jobs, p: JobId): map<JobId, set<Collection>> {
    map l | l in js && HeardBy(js, p, l) :: Below(W, par, js[l].base)
  }

  lemma SubtreesDisjoint(W: set<Collection>, par: ParentMap, js: Jobs, p: JobId, roots: seq<Collection>,
          l: JobId, m: JobId)
    requires Sum(BasesOf(js, p)) == multiset(roots) && Apart(par, roots)
    requires HeardBy(js, p, l) && HeardBy(js, p, m) && l != m
    ensures Below(W, par, js[l].base) !! Below(W, par, js[m].base)
  {
    forall w: Collection | w in Below(W, par, js[l].base) ensures w !in Below(W, par, js[m].base) {
      if w in Below(W, par, js[m].base) {
        BasesApart(js, p, roots, par, l, m);
        BasesApart(js, p, roots, par, m, l);
        UnderLinear(par, w.Uid(), js[l].base.Uid(), js[m].base.Uid());
        assert false;
      }
    }
  }

  lemma SubtreesUnion(W: set<Collection>, par: ParentMap, js: Jobs, p: JobId, roots: seq<Collection>)
    requires Sum(BasesOf(js, p)) == multiset(roots)
    ensures Union(Subtrees(W, par, js, p)) == AllBelow(W, par, roots)
  {
    var f := Subtrees(W, par, js, p);
    forall w: Collection ensures w in Union(f) <==> w in AllBelow(W, par, roots) {
      if w in Union(f) {
        var l :| l in f && w in f[l];
        RootHasFetch(js, p, roots, js[l].base);
        assert js[l].base in roots;
      }
      if w in AllBelow(W, par, roots) {
        var r :| r in roots && w.Uid() != r.Uid() && Under(par, w.Uid(), r.Uid());
        RootHasFetch(js, p, roots, r);
        var l :| HeardBy(js, p, l) && js[l].base == r;
        assert l in f && w in f[l];
      }
    }
  }

  lemma FetchesAreSubtrees(W: set<Collection>, par: ParentMap, js: Jobs, p: JobId)
    requires FetchedAll(W, par, js, p)
    ensures AsMultisets(Subtrees(W, par, js, p)) == Fetches(js, p)
  {
  }

  /** The final fetches of p together list what is strictly below the roots, each once. */
  lemma FetchesAdd(W: set<Collection>, par: ParentMap, js: Jobs, p: JobId, roots: seq<Collection>)
    requires Sum(BasesOf(js, p)) == multiset(roots) && Apart(par, roots) && FetchedAll(W, par, js, p)
    ensures Sum(Fetches(js, p)) == multiset(AllBelow(W, par, roots))
  {
    var f := Subtrees(W, par, js, p);
    forall l, m | l in f && m in f && l != m ensures f[l] !! f[m] {
      SubtreesDisjoint(W, par, js, p, roots, l, m);
    }
    DisjointSum(f);
    FetchesAreSubtrees(W, par, js, p);
    SubtreesUnion(W, par, js, p, roots);
  }

  lemma RootHasFetch(js: Jobs, p: JobId, roots: seq<Collection>, r: Collection)
    requires Sum(BasesOf(js, p)) == multiset(roots)
    ensures r in roots <==> exists l :: HeardBy(js, p, l) && js[l].base == r
  {
    var f := BasesOf(js, p);
    SumMember(f, r);
    assert r in roots <==> r in Sum(f);
    if l :| HeardBy(js, p, l) && js[l].base == r {
      assert l in f && r in f[l];
    }
  }

  lemma ClosedTookAll(js: Jobs, p: JobId)
    requires Inv(js) && p in js && js[p].kind == Aggregate && js[p].closed
    ensures multiset(js[p].collections) == Sum(Fetches(js, p))
  {
    assert JobOk(js, p);
    forall k | HeardBy(js, p, k) ensures TakenBy(js, p, k) {
      assert JobOk(js, k);
    }
    assert Taken(js, p) == Fetches(js, p);
  }

  lemma StrictlyBelowIs(par: ParentMap, js: Jobs, c: JobId, x: Id)
    requires c in js && multiset(js[c].prefetchList) == Sum(Brought(js, c)) && Rooted(par) && x in par
    requires forall y :: Covered(par, js[c].collections, y) <==> BelowBrought(par, js, c, y)
    ensures StrictlyBelowBrought(par, js, c, x) <==> StrictlyBelow(par, js[c].collections, x)
  {
    forall b ensures b in js[c].prefetchList <==> WasBrought(js, c, b) {
      ListIsBrought(js, c, b);
    }
    forall y ensures Covered(par, js[c].collections, y) <==> Covered(par, js[c].prefetchList, y) {
      BroughtListCovers(par, js, c, y);
    }
    if StrictlyBelowBrought(par, js, c, x) {
      StrictlyBelowRoots(par, js[c].prefetchList, js[c].collections, x);
    }
    if StrictlyBelow(par, js[c].collections, x) {
      StrictlyBelowRoots(par, js[c].collections, js[c].prefetchList, x);
    }
  }

  lemma AllBelowIs(W: set<Collection>, par: ParentMap, js: Jobs, c: JobId)
    requires c in js && multiset(js[c].prefetchList) == Sum(Brought(js, c)) && Rooted(par)
    requires forall w :: w in W ==> w.Uid() in par
    requires forall y :: Covered(par, js[c].collections, y) <==> BelowBrought(par, js, c, y)
    ensures AllBelow(W, par, js[c].collections) == set w | w in W && StrictlyBelowBrought(par, js, c, w.Uid())
  {
    forall w: Collection | w in W
      ensures StrictlyBelowBrought(par, js, c, w.Uid()) <==> StrictlyBelow(par, js[c].collections, w.Uid())
    {
      StrictlyBelowIs(par, js, c, w.Uid());
    }
  }

  /** A recursive fetch of a list of bases announces everything below the bases exactly once, even
      where they overlap. It first has its roots found by a job c; each fetch it then starts
      brings what is below one of them. */
  lemma RecursiveOnce(run: seq<Jobs>, i: nat, p: JobId, c: JobId, par: ParentMap, W: set<Collection>)
    requires Run(run) && i < |run| && p in run[i] && run[i][p].kind == Aggregate && run[i][p].closed
    requires Arrived(run[i], p, c) && run[i][c].kind == Roots && DifferentBrought(par, run[i], c)
    requires (forall w :: w in W ==> w.Uid() in par) && FetchedAll(W, par, run[i], p)
    ensures multiset(run[i][p].announced) ==
        multiset(set w | w in W && StrictlyBelowBrought(par, run[i], c, w.Uid()))
  {
    var js := run[i];
    var roots := js[c].collections;
    RunResults(run, i);
    assert ResultOk(js, p) && ResultOk(js, c) && JobOk(js, c);
    RootsFoundRight(run, i, c, par);
    ExactlyOnce(run, i, p);
    ClosedTookAll(js, p);
    FetchesAdd(W, par, js, p, roots);
    AllBelowIs(W, par, js, c);
  }

  // ------------------------------------------------------------------ progress

  /** The timer can fire, and then the job has announced everything it held back. */
  ghost predicate CanAnnounce(js: Jobs, p: JobId) {
    exists js': Jobs :: TimerFires(js, js', p) && p in js' && js'[p].pending == []
  }

  /** p still waits for its roots, for other results, or for the first one of a fetch it started. */
  ghost predicate Expects(js: Jobs, p: JobId)
    requires p in js
  {
    || js[p].prefetching || js[p].subjobs != {}
    || forall c :: Arrived(js, p, c) ==> js[p].kind == Aggregate && !HeardBy(js, p, c)
  }

  /** In every run, whoever holds something back can announce it, and a composite job ends with the
      last result it expects. */
  lemma NothingHangs(run: seq<Jobs>, i: nat, p: JobId)
    requires Run(run) && i < |run| && p in run[i]
    ensures run[i][p].pending != [] ==> CanAnnounce(run[i], p)
    ensures run[i][p].kind != Leaf ==> run[i][p].ended || Expects(run[i], p)
  {
    var js := run[i];
    RunResults(run, i);
    assert ResultOk(js, p) && JobOk(js, p);
    if js[p].pending != [] {
      var js' := Announce(js[p := js[p].(timer := false)], p);
      assert TimerFires(js, js', p) && p in js' && js'[p].pending == [];
    }
  }
}
