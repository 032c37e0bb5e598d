/** What the jobs in flight will write, and how little is left to do: the content side and the
    termination side of the passes over waiting nodes. */
module SyncContent {
  import opened Collections
  import opened SyncState
  import opened SyncMatching
  import opened SyncLedger

  /** A modify job carries the data of the accepted collection that matches its target. */
  ghost predicate ModifyRight(t: Tree, R: set<Collection>, j: Job) {
    j.Modify? ==> exists c :: c in R && Match(t, c).Some? && j == ModifyJob(Node(t, Match(t, c).value).collection, c)
  }

  /** Matched collections have their data stored already (F), or a job for it is in flight. */
  ghost predicate Stored(t: Tree, jobs: multiset<Job>, F: set<Collection>, c: Collection) {
    Match(t, c).Some? ==> c in F || ModifyJob(Node(t, Match(t, c).value).collection, c) in jobs
  }

  ghost predicate ContentLedger(t: Tree, jobs: multiset<Job>, A: set<Collection>, F: set<Collection>,
          R: set<Collection>) {
    && (forall j {:trigger ModifyRight(t, R, j)} :: j in jobs ==> ModifyRight(t, R, j))
    && (forall c {:trigger Stored(t, jobs, F, c)} :: c in A ==> Stored(t, jobs, F, c))
  }

  /** The jobs a pass adds are modify jobs and, held back, create jobs. */
  ghost predicate SameDeletes(js: multiset<Job>, js': multiset<Job>) {
    forall j: Job :: j.Delete? ==> js'[j] == js[j]
  }

  ghost predicate OnlyCreates(js: multiset<Job>) {
    forall j :: j in js ==> j.Create?
  }

  lemma ProcessOneJobs(w: Sweep, c: Collection)
    requires OnlyCreates(w.creations)
    ensures var w' := ProcessOne(w, c);
      && w'.state.tree == w.state.tree && OnlyCreates(w'.creations) && SameDeletes(w.state.jobs, w'.state.jobs)
      && (!w.aborted && Match(w.state.tree, c).Some? ==>
            w'.state.jobs == w.state.jobs
              + multiset{ModifyJob(Node(w.state.tree, Match(w.state.tree, c).value).collection, c)})
      && (Match(w.state.tree, c).None? ==> w'.state.jobs == w.state.jobs && w'.state.processed == w.state.processed)
  {
    var t := w.state.tree;
    if !w.aborted {
      if Match(t, c).Some? {
        UpdateIs(w.state, Match(t, c).value, c);
      } else if FindMatchingLocalNode(t, c.Parent()).Some? {
        assert ProcessOne(w, c) == ProcessCreatable(w, FindMatchingLocalNode(t, c.Parent()).value, c);
        assert ProcessOne(w, c).state == w.state;
      } else {
        PrematureJobs(w, FindBestLocalAncestor(t, c).node, c);
      }
    }
  }

  lemma PrematureJobs(w: Sweep, b: Option<Id>, c: Collection)
    ensures var w' := ProcessPremature(w, b, c);
      && w'.state.tree == w.state.tree && w'.creations == w.creations
      && w'.state.jobs == w.state.jobs && w'.state.processed == w.state.processed
  {
  }

  lemma {:induction false} SweepAllJobs(s: State, cs: seq<Collection>)
    ensures var w := SweepAll(s, cs);
      && w.state.tree == s.tree && OnlyCreates(w.creations) && SameDeletes(s.jobs, w.state.jobs)
      && ((forall c :: c in cs ==> Match(s.tree, c).None?) ==>
          w.state.jobs == s.jobs && w.state.processed == s.processed)
  {
    if cs != [] {
      SweepAllJobs(s, cs[..|cs| - 1]);
      ProcessOneJobs(SweepAll(s, cs[..|cs| - 1]), cs[|cs| - 1]);
    }
  }

  lemma ContentAccept(t: Tree, js: multiset<Job>, js': multiset<Job>, A: set<Collection>, F: set<Collection>,
          R: set<Collection>, c: Collection)
    requires ContentLedger(t, js, A, F, R) && c in R
    requires js' == if Match(t, c).Some? then js + multiset{ModifyJob(Node(t, Match(t, c).value).collection, c)} else js
    ensures ContentLedger(t, js', A + {c}, F, R)
  {
    forall j | j in js' ensures ModifyRight(t, R, j) {
      assert j in js ==> ModifyRight(t, R, j);
    }
    forall d | d in A + {c} ensures Stored(t, js', F, d) {
      assert d in A ==> Stored(t, js, F, d);
    }
  }

  lemma ProcessOneContent(w: Sweep, A: set<Collection>, F: set<Collection>, R: set<Collection>, c: Collection)
    requires !w.aborted && OnlyCreates(w.creations)
    requires ContentLedger(w.state.tree, w.state.jobs, A, F, R) && c in R
    ensures ContentLedger(w.state.tree, ProcessOne(w, c).state.jobs, A + {c}, F, R)
  {
    ProcessOneJobs(w, c);
    ContentAccept(w.state.tree, w.state.jobs, ProcessOne(w, c).state.jobs, A, F, R, c);
  }

  lemma NotAborted(w: Sweep, c: Collection)
    requires !ProcessOne(w, c).aborted
    ensures !w.aborted
  {
  }

  lemma {:induction false} SweepAllContent(s: State, A: set<Collection>, F: set<Collection>, R: set<Collection>,
          cs: seq<Collection>)
    requires ContentLedger(s.tree, s.jobs, A, F, R) && (forall c :: c in cs ==> c in R)
    requires !SweepAll(s, cs).aborted
    ensures ContentLedger(s.tree, SweepAll(s, cs).state.jobs, A + Elements(cs), F, R)
  {
    if cs == [] {
      assert A + Elements(cs) == A;
    } else {
      var front := cs[..|cs| - 1];
      var last := cs[|cs| - 1];
      var B := A + Elements(front);
      ElementsLast(cs);
      assert A + Elements(cs) == B + {last};
      var w := SweepAll(s, front);
      NotAborted(w, last);
      SweepAllContent(s, A, F, R, front);
      SweepAllJobs(s, front);
      ProcessOneContent(w, B, F, R, last);
    }
  }

  /** A pass keeps the content ledger, adds no delete job, and processes nothing if nothing
      that waits has a match. */
  lemma PassContent(s: State, A: set<Collection>, F: set<Collection>, R: set<Collection>, n: Id)
    requires !SweepAll(SetWaiting(s, n, []), Waiting(s, n)).aborted
    requires ContentLedger(s.tree, s.jobs, A, F, R) && (forall c :: c in Waiting(s, n) ==> c in R)
    ensures var s' := ProcessPendingRemoteNodes(s, n);
      && ContentLedger(s.tree, s'.jobs, A + Elements(Waiting(s, n)), F, R)
      && SameDeletes(s.jobs, s'.jobs)
      && ((forall c :: c in Waiting(s, n) ==> Match(s.tree, c).None?) ==>
            s'.processed == s.processed && s.jobs <= s'.jobs && OnlyCreates(s'.jobs - s.jobs))
  {
    var w := SweepAll(SetWaiting(s, n, []), Waiting(s, n));
    SweepAllContent(SetWaiting(s, n, []), A, F, R, Waiting(s, n));
    SweepAllJobs(SetWaiting(s, n, []), Waiting(s, n));
    var s' := ProcessPendingRemoteNodes(s, n);
    assert s'.jobs == w.state.jobs + w.creations;
    ContentMoreJobs(s.tree, w.state.jobs, s'.jobs, A + Elements(Waiting(s, n)), F, R);
    assert s'.jobs - w.state.jobs == w.creations;
  }

  lemma ContentMoreJobs(t: Tree, js: multiset<Job>, js': multiset<Job>, A: set<Collection>, F: set<Collection>,
          R: set<Collection>)
    requires ContentLedger(t, js, A, F, R) && js <= js'
    requires forall j :: j in js' && j.Modify? ==> j in js
    ensures ContentLedger(t, js', A, F, R)
  {
    forall j | j in js' ensures ModifyRight(t, R, j) {
      assert j in js ==> ModifyRight(t, R, j);
    }
    forall c | c in A ensures Stored(t, js', F, c) {
      assert Stored(t, js, F, c);
    }
  }

  // ------------------------------------------------------------------ work left

  /** A pass adds at most two jobs for each collection it handles. */
  lemma ProcessOneWork(w: Sweep, c: Collection)
    ensures var w' := ProcessOne(w, c);
      && |w'.state.jobs| + |w'.creations| + |w'.state.moves| + 2 * (|w.state.handled| + |w.created|)
         <= |w.state.jobs| + |w.creations| + |w.state.moves| + 2 * (|w'.state.handled| + |w'.created|)
      && |w.state.handled| + |w.created| <= |w'.state.handled| + |w'.created|
  {
    var t := w.state.tree;
    if w.aborted {
      assert ProcessOne(w, c) == w;
    } else if Match(t, c).Some? {
      UpdateWork(w.state, Match(t, c).value, c);
      assert ProcessOne(w, c) == ProcessMatched(w, Match(t, c).value, c);
    } else if MatchParent(t, c).Some? {
      assert ProcessOne(w, c) == ProcessCreatable(w, MatchParent(t, c).value, c);
    } else {
      PrematureWork(w, Best(t, c), c);
    }
  }

  lemma PrematureWork(w: Sweep, b: Option<Id>, c: Collection)
    ensures var w' := ProcessPremature(w, b, c);
      && w'.state.jobs == w.state.jobs && w'.state.moves == w.state.moves && w'.state.handled == w.state.handled
      && w'.creations == w.creations && w'.created == w.created
  {
  }

  lemma UpdateWork(s: State, x: Id, c: Collection)
    ensures var s' := UpdateLocalCollection(s, x, c);
      |s'.jobs| + |s'.moves| <= |s.jobs| + |s.moves| + 2 && |s'.handled| == |s.handled| + 1
  {
    MoveWork(IssueModify(s, Node(s.tree, x).collection, c), Node(s.tree, x).collection, c);
  }

  lemma MoveWork(s: State, local: Collection, remote: Collection)
    ensures var s' := MoveIfNeeded(s, local, remote);
      s'.jobs == s.jobs && |s'.moves| <= |s.moves| + 1 && s'.handled == s.handled
  {
    var s' := MoveIfNeeded(s, local, remote);
    if s' != s {
      assert |s'.moves| == |s.moves| + 1;
    }
  }

  lemma {:induction false} SweepAllWork(s: State, cs: seq<Collection>)
    ensures var w := SweepAll(s, cs);
      && |w.state.jobs| + |w.creations| + |w.state.moves| + 2 * |s.handled|
         <= |s.jobs| + |s.moves| + 2 * (|w.state.handled| + |w.created|)
      && |s.handled| <= |w.state.handled| + |w.created|
  {
    if cs != [] {
      SweepAllWork(s, cs[..|cs| - 1]);
      ProcessOneWork(SweepAll(s, cs[..|cs| - 1]), cs[|cs| - 1]);
    }
  }

  lemma PassWork(s: State, n: Id)
    requires !SweepAll(SetWaiting(s, n, []), Waiting(s, n)).aborted
    ensures var s' := ProcessPendingRemoteNodes(s, n);
      && |s'.jobs| + |s'.moves| + 2 * |s.handled| <= |s.jobs| + |s.moves| + 2 * |s'.handled|
      && |s.handled| <= |s'.handled|
  {
    SweepAllWork(SetWaiting(s, n, []), Waiting(s, n));
  }
}
