/** The ledger of accepted remote collections: each one is done, being created, or waiting at
    exactly one place, and which of the three is decided by the local tree alone. */
module SyncLedger {
  import opened Collections
  import opened SyncState
  import opened SyncListing
  import opened SyncMatching
  import opened SyncGrowth

  /** An accepted collection is accounted for: its match was processed; or its parent is
      there and exactly one create job for it is in flight; or it waits at its best ancestor. */
  ghost predicate Settled(s: State, js: multiset<Job>, c: Collection) {
    if Match(s.tree, c).Some? then Match(s.tree, c).value in s.processed
    else if MatchParent(s.tree, c).Some? then js[CreateJob(s.tree, MatchParent(s.tree, c).value, c)] == 1
    else Best(s.tree, c).Some? && c in Waiting(s, Best(s.tree, c).value)
  }

  /** A collection may wait at n only if it and its parent are missing and n is its deepest
      existing ancestor. */
  ghost predicate WaitsRightly(t: Tree, A: set<Collection>, n: Id, c: Collection) {
    c in A && Match(t, c).None? && MatchParent(t, c).None? && Best(t, c) == Some(n)
  }

  ghost predicate WaitingOk(s: State, A: set<Collection>, n: Id) {
    NoDup(Waiting(s, n)) && forall c :: c in Waiting(s, n) ==> WaitsRightly(s.tree, A, n, c)
  }

  /** A create job is in flight once, for a missing collection whose parent is there. */
  ghost predicate CreatesRightly(t: Tree, js: multiset<Job>, A: set<Collection>, j: Job) {
    j.Create? ==>
      && j.remote in A && Match(t, j.remote).None? && MatchParent(t, j.remote) == Some(j.localParent)
      && j == CreateJob(t, j.localParent, j.remote) && js[j] == 1
  }

  ghost predicate MatchedBy(t: Tree, A: set<Collection>, x: Id) {
    exists c :: c in A && Match(t, c) == Some(x)
  }

  /** A is what was accepted and is accounted for; js are the jobs in flight, including those
      a running pass has decided on but not issued yet. */
  ghost predicate Ledger(s: State, js: multiset<Job>, A: set<Collection>) {
    && (forall c {:trigger Settled(s, js, c)} :: c in A ==> Settled(s, js, c))
    && (forall n {:trigger WaitingOk(s, A, n)} :: WaitingOk(s, A, n))
    && (forall j {:trigger CreatesRightly(s.tree, js, A, j)} :: j in js ==> CreatesRightly(s.tree, js, A, j))
    && (forall x {:trigger MatchedBy(s.tree, A, x)} :: x in s.processed && x != ROOT_ID ==> MatchedBy(s.tree, A, x))
  }

  /** Collections that left the waiting lists: updated or being created or created. */
  ghost predicate Reached(t: Tree, c: Collection) {
    Match(t, c).Some? || MatchParent(t, c).Some?
  }

  /** Every accepted collection that left the waiting lists was handled once, and no other. */
  ghost predicate HandledOnce(t: Tree, handled: multiset<Collection>, A: set<Collection>) {
    forall c {:trigger HandledAt(t, handled, A, c)} :: HandledAt(t, handled, A, c)
  }

  ghost predicate HandledAt(t: Tree, handled: multiset<Collection>, A: set<Collection>, c: Collection) {
    handled[c] == if c in A && Reached(t, c) then 1 else 0
  }

  ghost predicate SweepOk(w: Sweep, A: set<Collection>) {
    && !w.aborted
    && Ledger(w.state, w.state.jobs + w.creations, A)
    && HandledOnce(w.state.tree, w.state.handled + w.created, A)
  }

  // ------------------------------------------------------------------ one remote node

  lemma MoveKeeps(s: State, local: Collection, remote: Collection)
    ensures var s' := MoveIfNeeded(s, local, remote);
      s'.tree == s.tree && s'.pendingRemoteNodes == s.pendingRemoteNodes && s'.processed == s.processed
      && s'.jobs == s.jobs && s'.handled == s.handled
  {
  }

  lemma UpdateIs(s: State, x: Id, remote: Collection)
    ensures var s' := UpdateLocalCollection(s, x, remote);
      && s'.tree == s.tree && s'.pendingRemoteNodes == s.pendingRemoteNodes
      && s'.processed == s.processed + {x}
      && s'.jobs == s.jobs + multiset{ModifyJob(Node(s.tree, x).collection, remote)}
      && s'.handled == s.handled + multiset{remote}
  {
  }

  /** A matching node becomes processed. */
  lemma LedgerUpdate(s: State, js: multiset<Job>, s': State, js': multiset<Job>, A: set<Collection>, c: Collection,
          x: Id, j: Job)
    requires TreeOk(s.tree) && Fits(s.tree, A + {c}) && c !in A
    requires Ledger(s, js, A) && Match(s.tree, c) == Some(x)
    requires s'.tree == s.tree && s'.pendingRemoteNodes == s.pendingRemoteNodes && s'.processed == s.processed + {x}
    requires j.Modify? && js' == js + multiset{j}
    ensures Ledger(s', js', A + {c})
    ensures x !in s.processed
  {
    var t := s.tree;
    MatchIsNode(t, A + {c}, c);
    if x in s.processed {
      assert MatchedBy(t, A, x);
      var d :| d in A && Match(t, d) == Some(x);
      MatchInjective(t, A + {c}, c, d);
      assert false;
    }
    forall d | d in A + {c} ensures Settled(s', js', d) {
      if d != c {
        assert Settled(s, js, d);
        assert forall p :: js'[CreateJob(t, p, d)] == js[CreateJob(t, p, d)];
      }
    }
    forall n ensures WaitingOk(s', A + {c}, n) {
      assert WaitingOk(s, A, n);
      assert Waiting(s', n) == Waiting(s, n);
      forall d | d in Waiting(s', n) ensures WaitsRightly(t, A + {c}, n, d) { assert WaitsRightly(t, A, n, d); }
    }
    forall k | k in js' ensures CreatesRightly(t, js', A + {c}, k) {
      if k.Create? {
        assert k in js;
        assert CreatesRightly(t, js, A, k);
      }
    }
    forall y | y in s'.processed && y != ROOT_ID ensures MatchedBy(t, A + {c}, y) {
      if y == x {
        assert c in A + {c};
      } else {
        assert MatchedBy(t, A, y);
        var d :| d in A && Match(t, d) == Some(y);
        assert d in A + {c};
      }
    }
  }

  /** A creation is decided on. */
  lemma LedgerCreate(s: State, js: multiset<Job>, js': multiset<Job>, A: set<Collection>, c: Collection, p: Id)
    requires Ledger(s, js, A) && c !in A
    requires Match(s.tree, c).None? && MatchParent(s.tree, c) == Some(p)
    requires js' == js + multiset{CreateJob(s.tree, p, c)}
    ensures Ledger(s, js', A + {c})
  {
    var t := s.tree;
    var j := CreateJob(t, p, c);
    assert j in js ==> CreatesRightly(t, js, A, j);
    assert js[j] == 0;
    forall d | d in A + {c} ensures Settled(s, js', d) {
      if d != c {
        assert Settled(s, js, d);
        assert forall q :: js'[CreateJob(t, q, d)] == js[CreateJob(t, q, d)];
      }
    }
    forall n ensures WaitingOk(s, A + {c}, n) {
      assert WaitingOk(s, A, n);
      forall d | d in Waiting(s, n) ensures WaitsRightly(t, A + {c}, n, d) { assert WaitsRightly(t, A, n, d); }
    }
    forall k | k in js' ensures CreatesRightly(t, js', A + {c}, k) {
      if k != j {
        assert CreatesRightly(t, js, A, k);
      }
    }
    KeepMatched(s, A, c);
  }

  lemma KeepMatched(s: State, A: set<Collection>, c: Collection)
    requires forall x {:trigger MatchedBy(s.tree, A, x)} :: x in s.processed && x != ROOT_ID ==> MatchedBy(s.tree, A, x)
    ensures forall x {:trigger MatchedBy(s.tree, A + {c}, x)} :: x in s.processed && x != ROOT_ID ==>
        MatchedBy(s.tree, A + {c}, x)
  {
    forall y | y in s.processed && y != ROOT_ID ensures MatchedBy(s.tree, A + {c}, y) {
      assert MatchedBy(s.tree, A, y);
      var d :| d in A && Match(s.tree, d) == Some(y);
      assert d in A + {c};
    }
  }

  /** A collection is parked at its best ancestor. */
  lemma LedgerWait(s: State, js: multiset<Job>, A: set<Collection>, c: Collection, b: Id)
    requires Ledger(s, js, A) && c !in A
    requires Match(s.tree, c).None? && MatchParent(s.tree, c).None? && Best(s.tree, c) == Some(b)
    ensures Ledger(SetWaiting(s, b, Waiting(s, b) + [c]), js, A + {c})
  {
    var t := s.tree;
    var s' := SetWaiting(s, b, Waiting(s, b) + [c]);
    assert WaitingOk(s, A, b);
    assert c in Waiting(s, b) ==> WaitsRightly(t, A, b, c);
    assert forall n :: n != b ==> Waiting(s', n) == Waiting(s, n);
    forall d | d in A + {c} ensures Settled(s', js, d) {
      if d != c {
        assert Settled(s, js, d);
      }
    }
    forall n ensures WaitingOk(s', A + {c}, n) {
      assert WaitingOk(s, A, n);
      forall d | d in Waiting(s', n) ensures WaitsRightly(t, A + {c}, n, d) {
        if d != c { assert WaitsRightly(t, A, n, d); }
      }
    }
    forall k | k in js ensures CreatesRightly(t, js, A + {c}, k) {
      assert CreatesRightly(t, js, A, k);
    }
    KeepMatched(s, A, c);
  }

  /** A node is matched once: when a remote node is taken up, its match was not processed. */
  lemma MatchUnprocessed(w: Sweep, A: set<Collection>, c: Collection)
    requires TreeOk(w.state.tree) && Fits(w.state.tree, A + {c}) && c !in A
    requires SweepOk(w, A) && Match(w.state.tree, c).Some?
    ensures Match(w.state.tree, c).value !in w.state.processed
  {
    var t := w.state.tree;
    var x := Match(t, c).value;
    MatchIsNode(t, A + {c}, c);
    if x in w.state.processed {
      assert MatchedBy(t, A, x);
      var d :| d in A && Match(t, d) == Some(x);
      MatchInjective(t, A + {c}, c, d);
      assert false;
    }
  }

  /** One remote node is taken up: it is accounted for afterwards, and a broken ancestor
      chain does not occur. */
  lemma ProcessOneOk(w: Sweep, A: set<Collection>, c: Collection)
    requires TreeOk(w.state.tree) && Fits(w.state.tree, A + {c}) && c !in A
    requires SweepOk(w, A)
    ensures SweepOk(ProcessOne(w, c), A + {c})
    ensures ProcessOne(w, c).state.tree == w.state.tree
  {
    var s := w.state;
    var t := s.tree;
    var js := s.jobs + w.creations;
    var w' := ProcessOne(w, c);
    MatchIsNode(t, A + {c}, c);
    if Match(t, c).Some? {
      var x := Match(t, c).value;
      UpdateIs(s, x, c);
      var j := ModifyJob(Node(t, x).collection, c);
      assert w'.state.jobs + w'.creations == js + multiset{j};
      LedgerUpdate(s, js, w'.state, js + multiset{j}, A, c, x, j);
      HandledMore(t, s.handled + w.created, w'.state.handled + w'.created, A, c);
    } else if MatchParent(t, c).Some? {
      var j := CreateJob(t, MatchParent(t, c).value, c);
      assert w'.state.jobs + w'.creations == js + multiset{j};
      LedgerCreate(s, js, js + multiset{j}, A, c, MatchParent(t, c).value);
      HandledMore(t, s.handled + w.created, w'.state.handled + w'.created, A, c);
    } else {
      LedgerWait(s, js, A, c, Best(t, c).value);
      assert HandledOnce(t, w'.state.handled + w'.created, A + {c}) by {
        forall d ensures HandledAt(t, w'.state.handled + w'.created, A + {c}, d) {
          assert HandledAt(t, s.handled + w.created, A, d);
        }
      }
    }
  }

  lemma HandledMore(t: Tree, h: multiset<Collection>, h': multiset<Collection>, A: set<Collection>, c: Collection)
    requires HandledOnce(t, h, A) && c !in A && Reached(t, c)
    requires h' == h + multiset{c}
    ensures HandledOnce(t, h', A + {c})
  {
    forall d ensures HandledAt(t, h', A + {c}, d) {
      assert HandledAt(t, h, A, d);
    }
  }

  // ------------------------------------------------------------------ a pass

  lemma {:induction false} SweepAllOk(s: State, A: set<Collection>, cs: seq<Collection>)
    requires TreeOk(s.tree) && Fits(s.tree, A + Elements(cs))
    requires NoDup(cs) && forall c :: c in cs ==> c !in A
    requires Ledger(s, s.jobs, A) && HandledOnce(s.tree, s.handled, A)
    ensures SweepOk(SweepAll(s, cs), A + Elements(cs))
    ensures SweepAll(s, cs).state.tree == s.tree
  {
    if cs == [] {
      assert A + Elements(cs) == A;
      assert s.jobs + multiset{} == s.jobs;
      assert s.handled + multiset{} == s.handled;
    } else {
      var front := cs[..|cs| - 1];
      var last := cs[|cs| - 1];
      assert cs == front + [last];
      var B := A + Elements(front);
      assert A + Elements(cs) == B + {last};
      FitsSubset(s.tree, B, A + Elements(cs));
      SweepAllOk(s, A, front);
      ProcessOneOk(SweepAll(s, front), B, last);
    }
  }

  /** Collections taken off a waiting list may be processed afresh. */
  lemma TakeWaiting(s: State, A: set<Collection>, n: Id)
    requires Ledger(s, s.jobs, A) && HandledOnce(s.tree, s.handled, A)
    ensures var s' := SetWaiting(s, n, []); var B := A - Elements(Waiting(s, n));
      Ledger(s', s'.jobs, B) && HandledOnce(s'.tree, s'.handled, B)
  {
    var s' := SetWaiting(s, n, []);
    var B := A - Elements(Waiting(s, n));
    assert WaitingOk(s, A, n);
    assert forall c :: c in Waiting(s, n) ==> WaitsRightly(s.tree, A, n, c);
    assert forall m :: m != n ==> Waiting(s', m) == Waiting(s, m);
    forall c | c in B ensures Settled(s', s.jobs, c) {
      assert Settled(s, s.jobs, c);
    }
    forall m ensures WaitingOk(s', B, m) {
      assert WaitingOk(s, A, m);
      forall c | c in Waiting(s', m) ensures WaitsRightly(s.tree, B, m, c) {
        assert WaitsRightly(s.tree, A, m, c);
      }
    }
    forall j | j in s.jobs ensures CreatesRightly(s.tree, s.jobs, B, j) {
      assert CreatesRightly(s.tree, s.jobs, A, j);
    }
    forall x | x in s.processed && x != ROOT_ID ensures MatchedBy(s.tree, B, x) {
      assert MatchedBy(s.tree, A, x);
      var c :| c in A && Match(s.tree, c) == Some(x);
      assert c in B;
    }
    forall c ensures HandledAt(s.tree, s.handled, B, c) {
      assert HandledAt(s.tree, s.handled, A, c);
    }
  }

  /** A pass over the nodes waiting at n settles all of them, if everything else is settled. */
  lemma ProcessPendingOk(s: State, A: set<Collection>, n: Id)
    requires TreeOk(s.tree)
    requires NoDup(Waiting(s, n)) && forall c :: c in Waiting(s, n) ==> c !in A
    requires Fits(s.tree, A + Elements(Waiting(s, n)))
    requires Ledger(SetWaiting(s, n, []), s.jobs, A) && HandledOnce(s.tree, s.handled, A)
    ensures var s' := ProcessPendingRemoteNodes(s, n); var B := A + Elements(Waiting(s, n));
      s'.tree == s.tree && Ledger(s', s'.jobs, B) && HandledOnce(s'.tree, s'.handled, B)
  {
    var w := SweepAll(SetWaiting(s, n, []), Waiting(s, n));
    SweepAllOk(SetWaiting(s, n, []), A, Waiting(s, n));
    var s' := ProcessPendingRemoteNodes(s, n);
    LedgerSame(w.state, s', s'.jobs, A + Elements(Waiting(s, n)));
  }

  /** The ledger looks at the tree, the waiting lists and the processed set only. */
  lemma LedgerSame(s: State, s': State, js: multiset<Job>, A: set<Collection>)
    requires Ledger(s, js, A)
    requires s'.tree == s.tree && s'.processed == s.processed
    requires forall n :: Waiting(s', n) == Waiting(s, n)
    ensures Ledger(s', js, A)
  {
    forall c | c in A ensures Settled(s', js, c) { assert Settled(s, js, c); }
    forall n ensures WaitingOk(s', A, n) { assert WaitingOk(s, A, n); }
    forall j | j in js ensures CreatesRightly(s'.tree, js, A, j) { assert CreatesRightly(s.tree, js, A, j); }
    forall x | x in s'.processed && x != ROOT_ID ensures MatchedBy(s'.tree, A, x) { assert MatchedBy(s.tree, A, x); }
  }

  // ------------------------------------------------------------------ a created collection

  /** How matches change between two trees when r gets node x and only nodes waiting at a
      can be affected otherwise. */
  ghost predicate Grows(t: Tree, t': Tree, A: set<Collection>, r: Collection, x: Id, a: Id) {
    && (forall p :: p in t.localUidMap ==>
          p in t'.localUidMap && t'.localUidMap[p].collection == t.localUidMap[p].collection)
    && (forall c {:trigger Reached(t, c)} {:trigger Reached(t', c)} :: c in A ==> GrowsAt(t, t', r, x, a, c))
  }

  ghost predicate GrowsAt(t: Tree, t': Tree, r: Collection, x: Id, a: Id, c: Collection) {
    && Match(t', c) == (if c == r then Some(x) else Match(t, c))
    && (MatchParent(t, c).Some? ==> MatchParent(t', c) == MatchParent(t, c) && MatchParent(t, c).value in t.localUidMap)
    && (!Reached(t, c) && Best(t, c) != Some(a) ==> MatchParent(t', c).None? && Best(t', c) == Best(t, c))
  }

  lemma CreatedGrows(t: Tree, A: set<Collection>, p: Id, r: Collection, x: Id)
    requires TreeOk(t) && Fits(t, A) && r in A && CanCreate(t, p, r, x)
    ensures Grows(t, CreateLocalNode(t, Created(t, p, r, x)), A, r, x, Anchor(t, p))
  {
    var t' := CreateLocalNode(t, Created(t, p, r, x));
    CreatedIsNewLeaf(t, p, r, x);
    CreateLocalNodeIs(t, Created(t, p, r, x));
    forall c | c in A ensures GrowsAt(t, t', r, x, Anchor(t, p), c) {
      GrownMatch(t, A, p, r, x, c);
      MatchIsNode(t, A, c);
      if !Reached(t, c) && Best(t, c) != Some(Anchor(t, p)) {
        GrownWaiting(t, A, p, r, x, c);
      }
    }
  }

  lemma RecordedGrows(s: State, A: set<Collection>, j: Job, x: Id)
    requires TreeOk(s.tree) && Fits(s.tree, A)
    requires Ledger(s, s.jobs, A)
    requires j in s.jobs && j.Create? && x != ROOT_ID && x !in s.tree.localUidMap
    ensures CanCreate(s.tree, j.localParent, j.remote, x) && j == CreateJob(s.tree, j.localParent, j.remote)
    ensures var t' := CreateLocalNode(s.tree, NewLocal(j, x));
      && TreeOk(t') && Fits(t', A) && t'.hierarchicalRIDs == s.tree.hierarchicalRIDs
      && Grows(s.tree, t', A, j.remote, x, Anchor(s.tree, j.localParent))
  {
    var t := s.tree;
    assert CreatesRightly(t, s.jobs, A, j);
    MatchIsNode(t, A, j.remote);
    assert j.remote.Rid() != "";
    assert NewLocal(j, x) == Created(t, j.localParent, j.remote, x);
    GrownTreeOk(t, j.localParent, j.remote, x);
    CreatedIsNewLeaf(t, j.localParent, j.remote, x);
    CreatedGrows(t, A, j.localParent, j.remote, x);
    FitsGrown(t, A, j.localParent, j.remote, x);
  }

  /** Once a create job is recorded, everything stays settled except what waits at the one
      place the new node can affect: re-examining that place is enough. */
  lemma RecordedLedger(s: State, s': State, A: set<Collection>, j: Job, x: Id, a: Id)
    requires Ledger(s, s.jobs, A) && j in s.jobs && j.Create?
    requires Grows(s.tree, s'.tree, A, j.remote, x, a)
    requires s'.processed == s.processed + {x} && s'.jobs == s.jobs - multiset{j}
    requires s'.pendingRemoteNodes == s.pendingRemoteNodes
    ensures Ledger(SetWaiting(s', a, []), s'.jobs, A - Elements(Waiting(s, a)))
  {
    var t := s.tree;
    var t' := s'.tree;
    var r := j.remote;
    var s2 := SetWaiting(s', a, []);
    var B := A - Elements(Waiting(s, a));
    assert CreatesRightly(t, s.jobs, A, j);
    assert WaitingOk(s, A, a);
    forall c | c in Waiting(s, a) ensures WaitsRightly(t, A, a, c) && !Reached(t, c) {}
    assert forall m :: m != a ==> Waiting(s2, m) == Waiting(s, m);
    forall c | c in B ensures Settled(s2, s'.jobs, c) {
      assert Settled(s, s.jobs, c);
      assert Reached(t, c) || !Reached(t, c);
      if MatchParent(t, c).Some? {
        assert CreateJob(t', MatchParent(t, c).value, c) == CreateJob(t, MatchParent(t, c).value, c);
      }
    }
    forall m ensures WaitingOk(s2, B, m) {
      assert WaitingOk(s, A, m);
      forall c | c in Waiting(s2, m) ensures WaitsRightly(t', B, m, c) {
        assert WaitsRightly(t, A, m, c);
        assert !Reached(t, c);
      }
    }
    forall k | k in s'.jobs ensures CreatesRightly(t', s'.jobs, B, k) {
      if k.Create? {
        assert k in s.jobs;
        assert CreatesRightly(t, s.jobs, A, k);
        assert Reached(t, k.remote);
        assert k.remote != r;
      }
    }
    forall y | y in s2.processed && y != ROOT_ID ensures MatchedBy(t', B, y) {
      assert Reached(t, r);
      if y != x {
        assert MatchedBy(t, A, y);
        var c :| c in A && Match(t, c) == Some(y);
        assert Reached(t, c);
        assert c in B && Match(t', c) == Some(y);
      } else {
        assert r in B && Match(t', r) == Some(x);
      }
    }
  }

  lemma RecordedHandled(s: State, t': Tree, A: set<Collection>, j: Job, x: Id, a: Id)
    requires Ledger(s, s.jobs, A) && HandledOnce(s.tree, s.handled, A) && j in s.jobs && j.Create?
    requires Grows(s.tree, t', A, j.remote, x, a)
    ensures HandledOnce(t', s.handled, A - Elements(Waiting(s, a)))
  {
    assert CreatesRightly(s.tree, s.jobs, A, j);
    assert WaitingOk(s, A, a);
    var B := A - Elements(Waiting(s, a));
    forall c ensures HandledAt(t', s.handled, B, c) {
      assert HandledAt(s.tree, s.handled, A, c);
      if c in A {
        assert Settled(s, s.jobs, c);
        if c in Waiting(s, a) { assert WaitsRightly(s.tree, A, a, c); }
      }
    }
  }
}
