/** A collection fetch job with its subjobs (akonadi/collectionfetchjob.cpp): every order of
    server responses, timer events and results is a run. Jobs announce their results in
    batches; a composite job passes on what its subjobs announce. */
module FetchProtocol {
  import opened Collections
  import opened FilterDescendants

  type JobId = nat

  /** A job for one base collection, one that passes on the results of its subjobs, or the
      internal one that reduces a list to non-overlapping roots. */
  datatype Kind = Leaf | Aggregate | Roots

  /** The base is what a leaf fetches, alone or with what is below. The listener is the job its
      announcements are connected to, if any. `ended` is set once the result was emitted, `closed`
      once the job's own timeout ran for it. */
  datatype Job = Job(
    kind: Kind,
    base: Collection,
    parent: Option<JobId>,
    listener: Option<JobId>,
    prefetching: bool,
    collections: seq<Collection>,
    pending: seq<Collection>,
    announced: seq<Collection>,
    prefetchList: seq<Collection>,
    subjobs: set<JobId>,
    timer: bool,
    ended: bool,
    closed: bool)

  type Jobs = map<JobId, Job>

  function NewLeaf(parent: JobId, base: Collection): Job {
    Job(Leaf, base, Some(parent), Some(parent), false, [], [], [], [], {}, false, false, false)
  }

  // ------------------------------------------------------------------ operations on one job

  function Receive(j: Job, cs: seq<Collection>): Job {
    j.(pending := j.pending + cs, timer := true)
  }

  function Flushed(j: Job): Job {
    j.(announced := j.announced + j.pending, pending := [])
  }

  function Responded(j: Job, c: Collection): Job {
    Receive(j.(collections := j.collections + [c]), [c])
  }

  /** The job ends with the roots that remain; they are announced at once. */
  ghost function RootsFound(j: Job): Job
    requires Filterable(j.prefetchList)
  {
    var roots := FilteredRoots(j.prefetchList);
    Flushed(j.(pending := j.pending + roots, collections := roots)).(ended := true)
  }

  /** The announcement of what is pending reaches the parent, if it listens. */
  function Announce(js: Jobs, id: JobId): Jobs
    requires id in js
  {
    var j := js[id];
    if j.pending == [] then js
    else
      var js1 := js[id := Flushed(j)];
      if j.listener.Some? && j.listener.value in js1
      then js1[j.listener.value := Receive(js1[j.listener.value], j.pending)] else js1
  }

  // ------------------------------------------------------------------ steps

  ghost predicate Response(js: Jobs, js': Jobs, id: JobId, c: Collection) {
    id in js && js[id].kind == Leaf && !js[id].ended && js' == js[id := Responded(js[id], c)]
  }

  ghost predicate LeafEnds(js: Jobs, js': Jobs, id: JobId) {
    id in js && js[id].kind == Leaf && !js[id].ended && js' == js[id := js[id].(ended := true)]
  }

  ghost predicate TimerFires(js: Jobs, js': Jobs, id: JobId) {
    id in js && js[id].timer && js' == Announce(js[id := js[id].(timer := false)], id)
  }

  /** The job's own result makes it announce what is left. */
  ghost predicate Closes(js: Jobs, js': Jobs, id: JobId) {
    id in js && js[id].ended && js' == Close(Announce(js[id := js[id].(timer := false)], id), id)
  }

  function Close(js: Jobs, id: JobId): Jobs {
    if id in js then js[id := js[id].(closed := true)] else js
  }

  /** The result of a subjob reaches its parent. */
  ghost predicate ResultArrives(js: Jobs, js': Jobs, p: JobId, c: JobId) {
    && p in js && c in js && c != p && c in js[p].subjobs && js[c].ended
    && match js[p].kind
       case Leaf => false
       case Roots => RootsResult(js, js', p, c)
       case Aggregate => if js[p].prefetching then exists ids :: PrefetchResult(js, js', p, c, ids)
           else js' == SubjobResult(js, p, c)
  }

  /** The roots are known: one subjob for each. */
  ghost predicate PrefetchResult(js: Jobs, js': Jobs, p: JobId, c: JobId, ids: seq<JobId>)
    requires p in js && c in js
  {
    && NoDup(ids) && Elements(ids) !! js.Keys && |ids| == |js[c].collections|
    && js'.Keys == js.Keys + Elements(ids)
    && (forall i :: 0 <= i < |ids| ==> ids[i] in js' && js'[ids[i]] == NewLeaf(p, js[c].collections[i]))
    && (forall q :: q in js && q != p ==> js'[q] == js[q])
    && js'[p] == js[p].(prefetching := false, subjobs := js[p].subjobs - {c} + Elements(ids))
  }

  ghost predicate RootsResult(js: Jobs, js': Jobs, p: JobId, c: JobId)
    requires p in js && c in js
  {
    var j := js[p].(prefetchList := js[p].prefetchList + js[c].collections, subjobs := js[p].subjobs - {c});
    if j.subjobs == {} then Filterable(j.prefetchList) && js' == js[p := RootsFound(j)] else js' == js[p := j]
  }

  /** The subjob first announces what it still holds; then its collections are taken over. */
  function SubjobResult(js: Jobs, p: JobId, c: JobId): Jobs
    requires p in js && c in js
  {
    var a := Announce(js, c);
    a[p := TakenOver(a[p], a[c].collections, c)]
  }

  function TakenOver(j: Job, cs: seq<Collection>, c: JobId): Job {
    j.(collections := j.collections + cs, subjobs := j.subjobs - {c}, ended := j.ended || j.subjobs - {c} == {})
  }

  ghost predicate Step(js: Jobs, js': Jobs) {
    || (exists id, c :: Response(js, js', id, c))
    || (exists id :: LeafEnds(js, js', id))
    || (exists id :: TimerFires(js, js', id))
    || (exists id :: Closes(js, js', id))
    || (exists p, c :: ResultArrives(js, js', p, c))
  }

  /** A job that has not done anything yet. */
  predicate Idle(j: Job) {
    j.collections == [] && j.pending == [] && j.announced == [] && j.prefetchList == [] && !j.timer && !j.ended
        && !j.closed
  }

  ghost predicate WellPlaced(js: Jobs, c: JobId)
    requires c in js
  {
    var j := js[c];
    && (j.parent.Some? ==> j.parent.value in js && j.parent.value != c)
    && (j.listener.Some? ==> j.listener == j.parent && js[j.listener.value].kind == Aggregate)
    && (j.kind == Roots ==> j.listener.None?)
    && (j.kind == Leaf ==> j.subjobs == {})
  }

  /** Composite jobs know their subjobs. The ones they listen to are those started for the
      final fetch, not the one that only finds the roots. */
  ghost predicate KnowsSubjobs(js: Jobs, p: JobId)
    requires p in js
  {
    && (forall c :: c in js[p].subjobs ==> c in js && js[c].parent == Some(p))
    && (js[p].kind == Aggregate ==> forall c :: c in js[p].subjobs && c in js ==>
        js[c].listener.None? == js[p].prefetching)
    && (js[p].prefetching ==> forall c, d :: c in js[p].subjobs && d in js[p].subjobs ==> c == d)
  }

  ghost predicate Init(js: Jobs) {
    forall id :: id in js ==>
      && WellPlaced(js, id) && KnowsSubjobs(js, id) && Idle(js[id])
      && (js[id].parent.Some? ==> id in js[js[id].parent.value].subjobs)
  }

  // ------------------------------------------------------------------ the invariant

  ghost predicate HeardBy(js: Jobs, p: JobId, c: JobId) {
    c in js && js[c].listener == Some(p)
  }

  ghost predicate TakenBy(js: Jobs, p: JobId, c: JobId) {
    HeardBy(js, p, c) && p in js && c !in js[p].subjobs
  }

  /** What the subjobs announced to a job. */
  ghost function Heard(js: Jobs, p: JobId): map<JobId, multiset<Collection>> {
    map c | c in js && HeardBy(js, p, c) :: multiset(js[c].announced)
  }

  /** What a job took over from subjobs whose result arrived. */
  ghost function Taken(js: Jobs, p: JobId): map<JobId, multiset<Collection>> {
    map c | c in js && TakenBy(js, p, c) :: multiset(js[c].collections)
  }

  lemma SameHeard(js: Jobs, js': Jobs, p: JobId)
    requires forall c :: HeardBy(js', p, c) <==> HeardBy(js, p, c)
    requires forall c :: HeardBy(js, p, c) ==> c in js' && js'[c].announced == js[c].announced
    ensures Heard(js', p) == Heard(js, p)
  {
  }

  lemma SameTaken(js: Jobs, js': Jobs, p: JobId)
    requires forall c :: TakenBy(js', p, c) <==> TakenBy(js, p, c)
    requires forall c :: TakenBy(js, p, c) ==> c in js' && js'[c].collections == js[c].collections
    ensures Taken(js', p) == Taken(js, p)
  {
  }

  /** Nothing is waiting, and everything has been announced. */
  predicate Settled(j: Job) {
    j.ended && j.pending == [] && multiset(j.announced) == multiset(j.collections)
  }

  ghost predicate Balanced(js: Jobs, id: JobId)
    requires id in js
  {
    var j := js[id];
    match j.kind
    case Leaf => j.announced + j.pending == j.collections
    case Roots => j.pending == [] && j.announced == j.collections
        && (if j.ended then j.subjobs == {} else j.collections == [])
    case Aggregate =>
      && multiset(j.announced) + multiset(j.pending) == Sum(Heard(js, id))
      && multiset(j.collections) == Sum(Taken(js, id))
      && (j.ended ==> j.subjobs == {})
  }

  /** A job its parent no longer waits for is settled. */
  ghost predicate Delivered(js: Jobs, c: JobId)
    requires c in js
  {
    forall p :: TakenBy(js, p, c) ==> Settled(js[c])
  }

  ghost predicate JobOk(js: Jobs, id: JobId) {
    && id in js
    && WellPlaced(js, id) && KnowsSubjobs(js, id) && Balanced(js, id) && Delivered(js, id)
    && (js[id].closed ==> js[id].ended && js[id].pending == [])
  }

  ghost predicate Inv(js: Jobs) {
    forall id {:trigger JobOk(js, id)} :: id in js ==> JobOk(js, id)
  }

  // ------------------------------------------------------------------ changes that start no job

  ghost predicate SamePlace(j: Job, j': Job) {
    j'.kind == j.kind && j'.parent == j.parent && j'.listener == j.listener && j'.prefetching == j.prefetching
        && j'.subjobs == j.subjobs
  }

  ghost predicate SameGraph(js: Jobs, js': Jobs) {
    js'.Keys == js.Keys && forall id {:trigger js'[id]} {:trigger js[id]} :: id in js ==> SamePlace(js[id], js'[id])
  }

  lemma GraphKept(js: Jobs, js': Jobs, q: JobId)
    requires SameGraph(js, js') && q in js && WellPlaced(js, q) && KnowsSubjobs(js, q)
    ensures WellPlaced(js', q) && KnowsSubjobs(js', q)
    ensures forall p, c {:trigger HeardBy(js', p, c)} :: HeardBy(js', p, c) <==> HeardBy(js, p, c)
    ensures forall p, c {:trigger TakenBy(js', p, c)} :: TakenBy(js', p, c) <==> TakenBy(js, p, c)
  {
  }

  /** No other job has taken over its collections. */
  ghost predicate Awaited(js: Jobs, id: JobId) {
    forall p :: !TakenBy(js, p, id)
  }

  /** The accounts of a job on its own. */
  ghost predicate OwnAccounts(j: Job, j': Job) {
    && (match j.kind
        case Leaf => j'.announced + j'.pending == j'.collections
        case Roots => j'.pending == [] && j'.announced == j'.collections
            && (if j'.ended then j'.subjobs == {} else j'.collections == [])
        case Aggregate =>
          && multiset(j'.announced) + multiset(j'.pending) == multiset(j.announced) + multiset(j.pending)
          && j'.collections == j.collections && (j'.ended ==> j'.subjobs == {}))
    && (j'.closed ==> j'.ended && j'.pending == [])
  }

  /** A job keeps its accounts in order when its subjobs' accounts stay as they are. */
  lemma JobKept(js: Jobs, js': Jobs, q: JobId)
    requires JobOk(js, q) && SameGraph(js, js') && OwnAccounts(js[q], js'[q])
    requires forall c :: HeardBy(js, q, c) ==> js'[c].announced == js[c].announced
    requires forall c :: TakenBy(js, q, c) ==> js'[c].collections == js[c].collections
    requires Settled(js[q]) ==> Settled(js'[q]) || Awaited(js, q)
    ensures JobOk(js', q)
  {
    GraphKept(js, js', q);
    SameHeard(js, js', q);
    SameTaken(js, js', q);
  }

  lemma OwnSame(js: Jobs, q: JobId)
    requires JobOk(js, q)
    ensures OwnAccounts(js[q], js[q])
  {
  }

  /** One job changes without announcing anything. */
  lemma ChangeInv(js: Jobs, x: JobId, j': Job)
    requires Inv(js) && x in js && SamePlace(js[x], j') && js[x].announced == j'.announced
    requires j'.collections == js[x].collections || Awaited(js, x)
    requires OwnAccounts(js[x], j') && (Settled(js[x]) ==> Settled(j') || Awaited(js, x))
    ensures Inv(js[x := j'])
  {
    var js' := js[x := j'];
    forall q | q in js' ensures JobOk(js', q) {
      assert JobOk(js, q);
      OwnSame(js, q);
      JobKept(js, js', q);
    }
  }

  lemma ResponseInv(js: Jobs, js': Jobs, id: JobId, c: Collection)
    requires Inv(js) && Response(js, js', id, c)
    ensures Inv(js')
  {
    assert JobOk(js, id);
    ChangeInv(js, id, Responded(js[id], c));
  }

  lemma LeafEndsInv(js: Jobs, js': Jobs, id: JobId)
    requires Inv(js) && LeafEnds(js, js', id)
    ensures Inv(js')
  {
    assert JobOk(js, id);
    ChangeInv(js, id, js[id].(ended := true));
  }

  lemma TimerInv(js: Jobs, id: JobId, on: bool)
    requires Inv(js) && id in js
    ensures Inv(js[id := js[id].(timer := on)])
  {
    assert JobOk(js, id);
    OwnSame(js, id);
    ChangeInv(js, id, js[id].(timer := on));
  }

  // ------------------------------------------------------------------ announcements

  lemma FlushedSame(j: Job)
    ensures Flushed(j).announced + Flushed(j).pending == j.announced + j.pending
    ensures multiset(Flushed(j).announced) + multiset(Flushed(j).pending) == multiset(j.announced) + multiset(j.pending)
  {
  }

  /** A job with something to announce is still awaited by its listener. */
  lemma StillAwaited(js: Jobs, id: JobId, p: JobId)
    requires Inv(js) && id in js && js[id].pending != [] && js[id].listener == Some(p)
    ensures p in js && p != id && js[p].kind == Aggregate && id in js[p].subjobs && !js[p].ended && !js[p].closed
    ensures Awaited(js, id)
  {
    assert JobOk(js, id);
    assert TakenBy(js, p, id) ==> Settled(js[id]);
    assert JobOk(js, p);
  }

  /** What an announcement changes. */
  lemma AnnounceIs(js: Jobs, id: JobId)
    requires id in js && js[id].pending != [] && js[id].listener != Some(id)
    ensures var js' := Announce(js, id);
      && SameGraph(js, js') && js'[id] == Flushed(js[id])
      && (forall q :: q in js && q != id && js[id].listener != Some(q) ==> js'[q] == js[q])
      && (forall q :: q in js && js[id].listener == Some(q) ==> js'[q] == Receive(js[q], js[id].pending))
      && (forall q :: q in js ==> js'[q].collections == js[q].collections)
      && (forall q :: q in js && q != id ==> js'[q].announced == js[q].announced)
  {
  }

  lemma AnnounceOthers(js: Jobs, id: JobId, q: JobId)
    requires Inv(js) && id in js && js[id].pending != [] && q in js && q != id && js[id].listener != Some(q)
    ensures JobOk(Announce(js, id), q)
  {
    assert JobOk(js, id);
    assert JobOk(js, q);
    OwnSame(js, q);
    AnnounceIs(js, id);
    JobKept(js, Announce(js, id), q);
  }

  lemma AnnounceSelf(js: Jobs, id: JobId)
    requires Inv(js) && id in js && js[id].pending != []
    ensures JobOk(Announce(js, id), id)
  {
    assert JobOk(js, id);
    OwnSame(js, id);
    if js[id].listener.Some? {
      StillAwaited(js, id, js[id].listener.value);
    }
    FlushedSame(js[id]);
    AnnounceIs(js, id);
    JobKept(js, Announce(js, id), id);
  }

  lemma AnnounceParent(js: Jobs, id: JobId, p: JobId)
    requires Inv(js) && id in js && js[id].pending != [] && js[id].listener == Some(p)
    ensures JobOk(Announce(js, id), p)
  {
    StillAwaited(js, id, p);
    assert JobOk(js, id);
    assert JobOk(js, p);
    var js' := Announce(js, id);
    AnnounceIs(js, id);
    GraphKept(js, js', p);
    HeardMore(js, js', id, p, js[id].pending);
    SameTaken(js, js', p);
  }

  lemma HeardMore(js: Jobs, js': Jobs, id: JobId, p: JobId, cs: seq<Collection>)
    requires HeardBy(js, p, id) && id in js'
    requires forall c :: HeardBy(js', p, c) <==> HeardBy(js, p, c)
    requires forall c :: HeardBy(js, p, c) && c != id ==> c in js' && js'[c].announced == js[c].announced
    requires js'[id].announced == js[id].announced + cs
    ensures Sum(Heard(js', p)) == Sum(Heard(js, p)) + multiset(cs)
  {
    var f, g := Heard(js, p), Heard(js', p);
    assert g - {id} == f - {id};
    SumAdd(f, g, id, multiset(cs));
  }

  /** An announcement moves collections to the listener's account. */
  lemma AnnounceInv(js: Jobs, id: JobId)
    requires Inv(js) && id in js
    ensures Inv(Announce(js, id)) && Announce(js, id).Keys == js.Keys
  {
    var js' := Announce(js, id);
    if js[id].pending != [] {
      assert JobOk(js, id);
      forall q | q in js' ensures JobOk(js', q) {
        if q == id {
          AnnounceSelf(js, id);
        } else if js[id].listener == Some(q) {
          AnnounceParent(js, id, q);
        } else {
          AnnounceOthers(js, id, q);
        }
      }
    }
  }

  lemma TimerFiresInv(js: Jobs, js': Jobs, id: JobId)
    requires Inv(js) && TimerFires(js, js', id)
    ensures Inv(js')
  {
    TimerInv(js, id, false);
    AnnounceInv(js[id := js[id].(timer := false)], id);
  }

  lemma ClosesInv(js: Jobs, js': Jobs, id: JobId)
    requires Inv(js) && Closes(js, js', id)
    ensures Inv(js')
  {
    var js0 := js[id := js[id].(timer := false)];
    TimerInv(js, id, false);
    assert JobOk(js0, id);
    AnnounceInv(js0, id);
    if js0[id].pending != [] {
      AnnounceIs(js0, id);
    }
    var a := Announce(js0, id);
    assert JobOk(a, id);
    OwnSame(a, id);
    ChangeInv(a, id, a[id].(closed := true));
  }

  // ------------------------------------------------------------------ results

  /** An ended job that announced everything pending is settled. */
  lemma EndedSettled(js: Jobs, c: JobId)
    requires Inv(js) && c in js && js[c].ended && js[c].pending == [] && js[c].kind != Roots
    ensures Settled(js[c])
  {
    assert JobOk(js, c);
    if js[c].kind == Aggregate {
      forall k | HeardBy(js, c, k) ensures TakenBy(js, c, k) && Settled(js[k]) {
        assert JobOk(js, k);
        assert TakenBy(js, c, k);
      }
      assert Heard(js, c) == Taken(js, c);
    } else {
      assert js[c].announced + [] == js[c].announced;
    }
  }

  /** A job is no longer a subjob of p, and only p has changed. */
  ghost predicate Shrinks(js: Jobs, js': Jobs, p: JobId, c: JobId) {
    && p in js && c in js[p].subjobs && js'.Keys == js.Keys
    && (forall q :: q in js && q != p ==> js'[q] == js[q])
    && SamePlace(js[p], js'[p].(subjobs := js[p].subjobs)) && js'[p].subjobs == js[p].subjobs - {c}
    && js'[p].announced == js[p].announced
  }

  lemma ShrinkKept(js: Jobs, js': Jobs, p: JobId, c: JobId, q: JobId)
    requires Shrinks(js, js', p, c) && q in js && WellPlaced(js, q) && KnowsSubjobs(js, q)
    ensures WellPlaced(js', q) && KnowsSubjobs(js', q)
    ensures forall g, k {:trigger HeardBy(js', g, k)} :: HeardBy(js', g, k) <==> HeardBy(js, g, k)
    ensures forall g, k {:trigger TakenBy(js', g, k)} :: TakenBy(js', g, k) <==>
        TakenBy(js, g, k) || (g == p && k == c && HeardBy(js, p, c))
  {
  }

  /** A composite job takes over the result of one of its subjobs. */
  ghost predicate Takes(js: Jobs, p: JobId, c: JobId) {
    p in js && c in js && c != p && js[p].kind == Aggregate && !js[p].prefetching && c in js[p].subjobs
  }

  /** A job that still has subjobs is itself awaited, and open. */
  lemma NotTakenYet(js: Jobs, p: JobId, c: JobId)
    requires Inv(js) && p in js && js[p].kind == Aggregate && c in js[p].subjobs
    ensures !js[p].ended && !js[p].closed && Awaited(js, p)
  {
    assert JobOk(js, p);
  }

  lemma TakenMore(js: Jobs, js': Jobs, p: JobId, c: JobId)
    requires Shrinks(js, js', p, c) && c in js && c != p && HeardBy(js, p, c)
    requires forall k :: TakenBy(js', p, k) <==> TakenBy(js, p, k) || k == c
    requires Awaited(js, p)
    ensures Sum(Taken(js', p)) == Sum(Taken(js, p)) + multiset(js[c].collections)
  {
    var f, g := Taken(js, p), Taken(js', p);
    assert g - {c} == f - {c};
    SumAdd(f, g, c, multiset(js[c].collections));
  }

  lemma TakeOverParent(js: Jobs, p: JobId, c: JobId)
    requires Inv(js) && Takes(js, p, c) && Settled(js[c])
    ensures JobOk(js[p := TakenOver(js[p], js[c].collections, c)], p)
  {
    assert JobOk(js, p);
    assert JobOk(js, c);
    NotTakenYet(js, p, c);
    var js' := js[p := TakenOver(js[p], js[c].collections, c)];
    assert HeardBy(js, p, c);
    ShrinkKept(js, js', p, c, p);
    SameHeard(js, js', p);
    TakenMore(js, js', p, c);
  }

  lemma TakeOverOthers(js: Jobs, p: JobId, c: JobId, q: JobId)
    requires Inv(js) && Takes(js, p, c) && Settled(js[c]) && q in js && q != p
    ensures JobOk(js[p := TakenOver(js[p], js[c].collections, c)], q)
  {
    assert JobOk(js, q);
    NotTakenYet(js, p, c);
    var js' := js[p := TakenOver(js[p], js[c].collections, c)];
    ShrinkKept(js, js', p, c, q);
    SameHeard(js, js', q);
    SameTaken(js, js', q);
  }

  lemma TakeOverInv(js: Jobs, p: JobId, c: JobId)
    requires Inv(js) && Takes(js, p, c) && Settled(js[c])
    ensures Inv(js[p := TakenOver(js[p], js[c].collections, c)])
  {
    var js' := js[p := TakenOver(js[p], js[c].collections, c)];
    forall q | q in js' ensures JobOk(js', q) {
      if q == p {
        TakeOverParent(js, p, c);
      } else {
        TakeOverOthers(js, p, c, q);
      }
    }
  }

  lemma SubjobResultInv(js: Jobs, p: JobId, c: JobId)
    requires Inv(js) && Takes(js, p, c) && js[c].ended
    ensures Inv(SubjobResult(js, p, c))
  {
    assert JobOk(js, p);
    assert JobOk(js, c);
    AnnounceInv(js, c);
    var a := Announce(js, c);
    if js[c].pending != [] {
      AnnounceIs(js, c);
    }
    EndedSettled(a, c);
    TakeOverInv(a, p, c);
  }

  /** Nobody listens to the job that finds the roots, nor does it listen to anybody. */
  lemma RootsUnheard(js: Jobs, p: JobId)
    requires Inv(js) && p in js && js[p].kind == Roots
    ensures forall k :: !HeardBy(js, p, k) && !HeardBy(js, k, p)
  {
    assert JobOk(js, p);
    forall k ensures !HeardBy(js, p, k) {
      assert k in js ==> JobOk(js, k);
    }
  }

  lemma RootsResultInv(js: Jobs, js': Jobs, p: JobId, c: JobId)
    requires Inv(js) && p in js && c in js && js[p].kind == Roots && c in js[p].subjobs && RootsResult(js, js', p, c)
    ensures Inv(js')
  {
    RootsUnheard(js, p);
    forall q | q in js' ensures JobOk(js', q) {
      RootsResultJob(js, js', p, c, q);
    }
  }

  lemma RootsResultJob(js: Jobs, js': Jobs, p: JobId, c: JobId, q: JobId)
    requires Inv(js) && p in js && c in js && js[p].kind == Roots && c in js[p].subjobs && RootsResult(js, js', p, c)
    requires q in js && forall k :: !HeardBy(js, p, k) && !HeardBy(js, k, p)
    ensures JobOk(js', q)
  {
    assert JobOk(js, p);
    assert JobOk(js, q);
    var j := js[p].(prefetchList := js[p].prefetchList + js[c].collections, subjobs := js[p].subjobs - {c});
    if j.subjobs == {} {
      assert RootsFound(j).announced == RootsFound(j).collections;
      RootsFoundJob(js, js', p, c, q);
    } else {
      ShrinkKept(js, js', p, c, q);
      SameHeard(js, js', q);
      SameTaken(js, js', q);
    }
  }

  lemma RootsLinks(js: Jobs, js': Jobs, p: JobId, q: JobId)
    requires js'.Keys == js.Keys && p in js && js'[p].listener == js[p].listener
    requires forall k :: k in js && k != p ==> js'[k] == js[k]
    requires forall k :: !HeardBy(js, p, k) && !HeardBy(js, k, p)
    ensures forall k {:trigger HeardBy(js', q, k)} :: HeardBy(js', q, k) <==> HeardBy(js, q, k)
    ensures forall k {:trigger TakenBy(js', q, k)} :: TakenBy(js', q, k) <==> TakenBy(js, q, k)
    ensures forall k {:trigger TakenBy(js', k, q)} :: TakenBy(js', k, q) <==> TakenBy(js, k, q)
  {
  }

  lemma RootsFoundJob(js: Jobs, js': Jobs, p: JobId, c: JobId, q: JobId)
    requires q in js && JobOk(js, p) && JobOk(js, q) && js[p].kind == Roots && c in js && c in js[p].subjobs
        && js[p].subjobs - {c} == {}
    requires RootsResult(js, js', p, c)
    requires forall k :: !HeardBy(js, p, k) && !HeardBy(js, k, p)
    ensures JobOk(js', q)
  {
    RootsLinks(js, js', p, q);
    SameHeard(js, js', q);
    SameTaken(js, js', q);
  }

  // ------------------------------------------------------------------ starting the final fetch

  /** New leaves appear, and p has them as its only subjobs. */
  ghost predicate Starts(js: Jobs, js': Jobs, p: JobId, c: JobId, ids: set<JobId>) {
    && p in js && js[p].kind == Aggregate && js[p].prefetching && c in js[p].subjobs && ids !! js.Keys
    && js'.Keys == js.Keys + ids
    && (forall q :: q in ids ==> js'[q] == NewLeaf(p, js'[q].base))
    && (forall q :: q in js && q != p ==> js'[q] == js[q])
    && js'[p] == js[p].(prefetching := false, subjobs := js[p].subjobs - {c} + ids)
  }

  lemma StartsGraph(js: Jobs, js': Jobs, p: JobId, c: JobId, ids: set<JobId>, q: JobId)
    requires Inv(js) && Starts(js, js', p, c, ids) && q in js
    ensures WellPlaced(js', q) && KnowsSubjobs(js', q)
  {
    assert JobOk(js, q);
    assert JobOk(js, p);
    assert js[p].subjobs - {c} == {};
  }

  lemma StartsLinks(js: Jobs, js': Jobs, p: JobId, c: JobId, ids: set<JobId>)
    requires Inv(js) && Starts(js, js', p, c, ids)
    ensures forall g, k {:trigger HeardBy(js', g, k)} :: HeardBy(js', g, k) <==>
        HeardBy(js, g, k) || (g == p && k in ids)
    ensures forall g, k {:trigger TakenBy(js', g, k)} :: TakenBy(js', g, k) <==> TakenBy(js, g, k)
  {
    assert JobOk(js, p);
    assert js[p].subjobs - {c} == {};
    forall g, k ensures HeardBy(js, g, k) ==> g in js && k !in ids && (g == p ==> k !in js[p].subjobs) {
      if k in js {
        assert JobOk(js, k);
      }
    }
  }

  lemma StartsOld(js: Jobs, js': Jobs, p: JobId, c: JobId, ids: set<JobId>, q: JobId)
    requires Inv(js) && Starts(js, js', p, c, ids) && q in js
    ensures JobOk(js', q)
  {
    assert JobOk(js, q);
    NotTakenYet(js, p, c);
    StartsGraph(js, js', p, c, ids, q);
    StartsLinks(js, js', p, c, ids);
    SameTaken(js, js', q);
    if q == p {
      SumExtend(Heard(js, p), Heard(js', p));
    } else {
      SameHeard(js, js', q);
    }
  }

  lemma StartsNew(js: Jobs, js': Jobs, p: JobId, c: JobId, ids: set<JobId>, q: JobId)
    requires Inv(js) && Starts(js, js', p, c, ids) && q in ids
    ensures JobOk(js', q)
  {
    StartsLinks(js, js', p, c, ids);
  }

  lemma PrefetchResultInv(js: Jobs, js': Jobs, p: JobId, c: JobId, ids: seq<JobId>)
    requires Inv(js) && p in js && c in js && js[p].kind == Aggregate && js[p].prefetching && c in js[p].subjobs
    requires PrefetchResult(js, js', p, c, ids)
    ensures Inv(js')
  {
    var started := Elements(ids);
    assert Starts(js, js', p, c, started);
    forall q | q in js' ensures JobOk(js', q) {
      if q in started {
        StartsNew(js, js', p, c, started, q);
      } else {
        StartsOld(js, js', p, c, started, q);
      }
    }
  }

  // ------------------------------------------------------------------ runs

  lemma ResultArrivesInv(js: Jobs, js': Jobs, p: JobId, c: JobId)
    requires Inv(js) && ResultArrives(js, js', p, c)
    ensures Inv(js')
  {
    assert JobOk(js, p);
    match js[p].kind
    case Roots =>
      RootsResultInv(js, js', p, c);
    case Aggregate =>
      if js[p].prefetching {
        var ids :| PrefetchResult(js, js', p, c, ids);
        PrefetchResultInv(js, js', p, c, ids);
      } else {
        SubjobResultInv(js, p, c);
      }
  }

  lemma StepInv(js: Jobs, js': Jobs)
    requires Inv(js) && Step(js, js')
    ensures Inv(js')
  {
    if id, c :| Response(js, js', id, c) {
      ResponseInv(js, js', id, c);
    } else if id :| LeafEnds(js, js', id) {
      LeafEndsInv(js, js', id);
    } else if id :| TimerFires(js, js', id) {
      TimerFiresInv(js, js', id);
    } else if id :| Closes(js, js', id) {
      ClosesInv(js, js', id);
    } else {
      var p, c :| ResultArrives(js, js', p, c);
      ResultArrivesInv(js, js', p, c);
    }
  }

  lemma InitInv(js: Jobs)
    requires Init(js)
    ensures Inv(js)
  {
    forall q | q in js ensures JobOk(js, q) {
      forall p ensures !TakenBy(js, p, q) && !TakenBy(js, q, p) {
        assert p in js ==> WellPlaced(js, p);
      }
      assert Taken(js, q) == map[];
      SumExtend(map[], Heard(js, q));
    }
  }

  ghost predicate Run(run: seq<Jobs>) {
    run != [] && Init(run[0]) && forall i {:trigger Step(run[i], run[i + 1])} :: 0 <= i < |run| - 1 ==>
        Step(run[i], run[i + 1])
  }

  lemma {:induction false} RunInv(run: seq<Jobs>, i: nat)
    requires Run(run) && i < |run|
    ensures Inv(run[i])
  {
    if i == 0 {
      InitInv(run[0]);
    } else {
      var k := i - 1;
      RunInv(run, k);
      assert Step(run[k], run[k + 1]);
      StepInv(run[k], run[k + 1]);
    }
  }

  /** Exactly-once announcement: whatever the timers do and however jobs are nested, a job that
      ended and closed has announced each of its collections exactly as often as it has it; a
      single fetch even announced them in the order they arrived. */
  lemma ExactlyOnce(run: seq<Jobs>, i: nat, id: JobId)
    requires Run(run) && i < |run| && id in run[i] && run[i][id].closed
    ensures multiset(run[i][id].announced) == multiset(run[i][id].collections)
    ensures run[i][id].kind == Leaf ==> run[i][id].announced == run[i][id].collections
  {
    RunInv(run, i);
    var js := run[i];
    assert JobOk(js, id);
    if js[id].kind != Roots {
      EndedSettled(js, id);
    }
    assert js[id].announced + [] == js[id].announced;
  }

  /** No job ever announces a collection more often than it received it. */
  lemma NeverTooMuch(run: seq<Jobs>, i: nat, id: JobId)
    requires Run(run) && i < |run| && id in run[i] && run[i][id].kind == Leaf
    ensures run[i][id].announced <= run[i][id].collections
  {
    RunInv(run, i);
    assert JobOk(run[i], id);
  }
}
