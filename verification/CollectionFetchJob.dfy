/** One fetch job with its buffers and its timer (akonadi/collectionfetchjob.cpp). Every method
    does to this job, and to the job listening to it, what the step of FetchProtocol does. */
module CollectionFetchJob {
  import opened Collections
  import opened FilterDescendants
  import opened FetchProtocol
  import opened FetchResults

  class CollectionFetchJob {
    const kind: Kind
    const mBase: Collection
    const parentId: Option<JobId>
    const listenerId: Option<JobId>
    const listener: CollectionFetchJob?
    var mBasePrefetch: bool
    var mCollections: seq<Collection>
    var mPendingCollections: seq<Collection>
    var mPrefetchList: seq<Collection>
    var subjobs: set<JobId>
    var mEmitTimer: bool
    var ended: bool
    var closed: bool
    ghost var announced: seq<Collection>

    ghost predicate Valid() {
      listener != this && (listener != null <==> listenerId.Some?)
    }

    ghost function View(): Job
      reads this
    {
      Job(kind, mBase, parentId, listenerId, mBasePrefetch, mCollections, mPendingCollections, announced, mPrefetchList,
          subjobs, mEmitTimer, ended, closed)
    }

    constructor (kind: Kind, base: Collection, parentId: Option<JobId>, listenerId: Option<JobId>,
            listener: CollectionFetchJob?, prefetch: bool)
      requires listener != null <==> listenerId.Some?
      ensures Valid() && Idle(View()) && subjobs == {} && View().prefetching == prefetch
      ensures this.kind == kind && mBase == base && this.parentId == parentId && this.listenerId == listenerId
          && this.listener == listener
    {
      this.kind, mBase, this.parentId, this.listenerId, this.listener := kind, base, parentId, listenerId, listener;
      mBasePrefetch, mCollections, mPendingCollections, mPrefetchList := prefetch, [], [], [];
      subjobs, mEmitTimer, ended, closed, announced := {}, false, false, false, [];
    }

    /** What is pending has been passed on to whoever listens. */
    twostate predicate PassedOn(j: Job)
      reads this, listener
    {
      && View() == Flushed(j)
      && (listener != null ==>
            listener.View() == if j.pending != [] then Receive(old(listener.View()), j.pending)
                else old(listener.View()))
    }

    /** A subjob announced collections; they are kept for the next timeout. */
    method subJobCollectionReceived(collections: seq<Collection>)
      modifies this`mPendingCollections, this`mEmitTimer
      ensures View() == Receive(old(View()), collections)
    {
      mPendingCollections := mPendingCollections + collections;
      if !mEmitTimer {
        mEmitTimer := true;
      }
    }

    method flushIterativeResult()
      requires Valid()
      modifies this`mPendingCollections, this`announced, listener
      ensures PassedOn(old(View()))
    {
      if mPendingCollections == [] {
        return;
      }
      announced := announced + mPendingCollections;
      if listener != null {
        listener.subJobCollectionReceived(mPendingCollections);
      }
      mPendingCollections := [];
    }

    /** The timer fired, or the job's own result is out. */
    method timeout()
      requires Valid()
      modifies this`mEmitTimer, this`mPendingCollections, this`announced, listener
      ensures PassedOn(old(View()).(timer := false))
    {
      mEmitTimer := false;
      flushIterativeResult();
    }

    method doHandleResponse(collection: Collection)
      requires kind == Leaf
      modifies this`mCollections, this`mPendingCollections, this`mEmitTimer
      ensures View() == Responded(old(View()), collection)
    {
      mCollections := mCollections + [collection];
      mPendingCollections := mPendingCollections + [collection];
      if !mEmitTimer {
        mEmitTimer := true;
      }
    }

    /** A subjob of a composite job finished: it first announces what it still holds. */
    method takeResult(id: JobId, job: CollectionFetchJob)
      requires kind == Aggregate && !mBasePrefetch && job.Valid() && job.listener == this && job != this
      modifies this, job`mPendingCollections, job`announced
      ensures job.View() == Flushed(old(job.View()))
      ensures var heard := if old(job.mPendingCollections) == [] then old(View())
                           else Receive(old(View()), old(job.mPendingCollections));
        View() == TakenOver(heard, old(job.mCollections), id)
    {
      job.flushIterativeResult();
      mCollections := mCollections + job.mCollections;
      subjobs := subjobs - {id};
      if subjobs == {} {
        ended := true;
      }
    }

    /** A base of the list was fetched; once all are, the overlapping ones are dropped: of different
        collections of one tree, the job ends with ones none of which is at or below another, and
        whose trees are together those of all the bases. */
    method takeBase(id: JobId, job: CollectionFetchJob)
      requires kind == Roots && Valid() && listener == null && job != this
      requires subjobs - {id} == {} ==> Filterable(mPrefetchList + job.mCollections)
      modifies this
      ensures var j := old(View()).(prefetchList := old(View()).prefetchList + job.mCollections,
          subjobs := old(View()).subjobs - {id});
        View() == if j.subjobs == {} then RootsFound(j) else j
      ensures subjobs == {} ==>
        forall par :: RootsOf(par, old(mPrefetchList) + old(job.mCollections), mCollections)
    {
      mPrefetchList := mPrefetchList + job.mCollections;
      subjobs := subjobs - {id};
      if subjobs == {} {
        var result := filterDescendants(mPrefetchList);
        forall par ensures RootsOf(par, mPrefetchList, result) {
          FilterFindsRoots(par, mPrefetchList);
        }
        mPendingCollections := mPendingCollections + result;
        mCollections := result;
        flushIterativeResult();
        ended := true;
      }
    }

    /** The non-overlapping roots are known: one connected subjob is started for each. */
    method takeRoots(id: JobId, job: CollectionFetchJob, self: JobId, ids: seq<JobId>)
            returns (started: seq<CollectionFetchJob>)
      requires kind == Aggregate && mBasePrefetch && |ids| == |job.mCollections|
      modifies this
      ensures View() == old(View()).(prefetching := false, subjobs := old(View()).subjobs - {id} + Elements(ids))
      ensures |started| == |old(job.mCollections)|
      ensures forall i :: 0 <= i < |started| ==>
        && fresh(started[i]) && started[i].Valid() && started[i].listener == this
        && started[i].View() == NewLeaf(self, old(job.mCollections)[i])
    {
      var roots := job.mCollections;
      mBasePrefetch := false;
      subjobs := subjobs - {id};
      started := [];
      for i := 0 to |ids|
        invariant View() == old(View()).(prefetching := false,
            subjobs := old(View()).subjobs - {id} + Elements(ids[..i]))
        invariant |started| == i
        invariant forall k :: 0 <= k < i ==>
          && fresh(started[k]) && started[k].Valid() && started[k].listener == this
          && started[k].View() == NewLeaf(self, roots[k])
      {
        var subJob := new CollectionFetchJob(Leaf, roots[i], Some(self), Some(self), this, false);
        started := started + [subJob];
        subjobs := subjobs + {ids[i]};
        ElementsLast(ids[..i + 1]);
        assert ids[..i + 1][..i] == ids[..i];
      }
      assert ids[..|ids|] == ids;
    }
  }
}
