/** What one pass over waiting remote nodes does with hierarchical remote ids, whatever state it
    starts from: which nodes are updated, which are created, and where the others wait next
    (akonadi/collectionsync.cpp, processPendingRemoteNodes). */
module SyncPass {
  import opened Collections
  import opened SyncState
  import opened SyncMatching

  /** Remote nodes whose chains of parents end in the root. */
  predicate AllRooted(cs: seq<Collection>) {
    forall c :: c in cs ==> RootedChain(c) && !c.IsRoot()
  }

  /** Neither the collection nor its parent has a match, and n is its best ancestor. */
  ghost predicate StaysAt(t: Tree, c: Collection, n: Id) {
    Match(t, c).None? && MatchParent(t, c).None? && Best(t, c) == Some(n)
  }

  ghost function Stays(t: Tree, cs: seq<Collection>, n: Id): seq<Collection> {
    if cs == [] then []
    else
      var front := Stays(t, cs[..|cs| - 1], n);
      if StaysAt(t, cs[|cs| - 1], n) then front + [cs[|cs| - 1]] else front
  }

  ghost predicate Creatable(t: Tree, c: Collection) {
    Match(t, c).None? && MatchParent(t, c).Some?
  }

  /** The create job for a collection whose parent is there. */
  ghost function CreationOf(t: Tree, c: Collection): Job {
    CreateJob(t, if MatchParent(t, c).Some? then MatchParent(t, c).value else ROOT_ID, c)
  }

  ghost function Starts(t: Tree, cs: seq<Collection>): multiset<Job> {
    if cs == [] then multiset{}
    else
      var front := Starts(t, cs[..|cs| - 1]);
      if Creatable(t, cs[|cs| - 1]) then front + multiset{CreationOf(t, cs[|cs| - 1])} else front
  }

  /** The collections that leave the waiting lists. */
  ghost function Gone(t: Tree, cs: seq<Collection>): multiset<Collection> {
    if cs == [] then multiset{}
    else
      var front := Gone(t, cs[..|cs| - 1]);
      var c := cs[|cs| - 1];
      if Match(t, c).Some? || MatchParent(t, c).Some? then front + multiset{c} else front
  }

  ghost predicate NoCreates(js: multiset<Job>) {
    forall j: Job :: j in js ==> !j.Create?
  }

  /** A sweep over cs that started in s has come to w. */
  ghost predicate SweptTo(s: State, cs: seq<Collection>, w: Sweep) {
    && !w.aborted && w.state.tree == s.tree && w.state.moves == s.moves
    && (forall n {:trigger Waiting(w.state, n)} :: Waiting(w.state, n) == Waiting(s, n) + Stays(s.tree, cs, n))
    && w.creations == Starts(s.tree, cs)
    && s.jobs <= w.state.jobs && NoCreates(w.state.jobs - s.jobs)
    && w.state.handled + w.created == s.handled + Gone(s.tree, cs)
  }

  lemma SweptMatched(s: State, cs: seq<Collection>, w: Sweep, c: Collection)
    requires SweptTo(s, cs, w) && s.tree.hierarchicalRIDs && Match(s.tree, c).Some?
    ensures SweptTo(s, cs + [c], ProcessOne(w, c))
  {
    var x := Match(s.tree, c).value;
    var j := ModifyJob(Node(s.tree, x).collection, c);
    var w' := ProcessOne(w, c);
    assert (cs + [c])[..|cs|] == cs;
    assert w'.state.jobs - s.jobs == (w.state.jobs - s.jobs) + multiset{j};
    assert w'.state.handled + w'.created == w.state.handled + w.created + multiset{c};
    forall n ensures Waiting(w'.state, n) == Waiting(s, n) + Stays(s.tree, cs + [c], n) {
      assert Waiting(w'.state, n) == Waiting(w.state, n);
    }
  }

  lemma SweptCreatable(s: State, cs: seq<Collection>, w: Sweep, c: Collection)
    requires SweptTo(s, cs, w) && s.tree.hierarchicalRIDs && Creatable(s.tree, c)
    ensures SweptTo(s, cs + [c], ProcessOne(w, c))
  {
    var w' := ProcessOne(w, c);
    assert (cs + [c])[..|cs|] == cs;
    assert w'.state.handled + w'.created == w.state.handled + w.created + multiset{c};
    forall n ensures Waiting(w'.state, n) == Waiting(s, n) + Stays(s.tree, cs + [c], n) {
      assert Waiting(w'.state, n) == Waiting(w.state, n);
    }
  }

  lemma SweptPremature(s: State, cs: seq<Collection>, w: Sweep, c: Collection, b: Id)
    requires SweptTo(s, cs, w) && s.tree.hierarchicalRIDs && StaysAt(s.tree, c, b)
    ensures SweptTo(s, cs + [c], ProcessOne(w, c))
  {
    var w' := ProcessOne(w, c);
    assert (cs + [c])[..|cs|] == cs;
    assert w'.state == SetWaiting(w.state, b, Waiting(w.state, b) + [c]);
    forall n ensures Waiting(w'.state, n) == Waiting(s, n) + Stays(s.tree, cs + [c], n) {
      assert Waiting(w.state, n) == Waiting(s, n) + Stays(s.tree, cs, n);
      assert Waiting(w'.state, n) == Waiting(w.state, n) + if n == b then [c] else [];
    }
  }

  lemma {:induction false} SweepIs(s: State, cs: seq<Collection>)
    requires s.tree.hierarchicalRIDs && AllRooted(cs)
    ensures SweptTo(s, cs, SweepAll(s, cs))
  {
    if cs == [] {
      forall n ensures Waiting(s, n) == Waiting(s, n) + Stays(s.tree, cs, n) {
      }
    } else {
      var front := cs[..|cs| - 1];
      var c := cs[|cs| - 1];
      assert cs == front + [c] && c in cs;
      SweepIs(s, front);
      BestIsDeepest(s.tree, c);
      if Match(s.tree, c).Some? {
        SweptMatched(s, front, SweepAll(s, front), c);
      } else if MatchParent(s.tree, c).Some? {
        SweptCreatable(s, front, SweepAll(s, front), c);
      } else {
        SweptPremature(s, front, SweepAll(s, front), c, Best(s.tree, c).value);
      }
    }
  }

  /** The pass as a whole. */
  ghost predicate Passed(s: State, n: Id, s': State) {
    var cs := Waiting(s, n);
    && s'.tree == s.tree && s'.moves == s.moves
    && (forall m {:trigger Waiting(s', m)} ::
          Waiting(s', m) == (if m == n then [] else Waiting(s, m)) + Stays(s.tree, cs, m))
    && s.jobs + Starts(s.tree, cs) <= s'.jobs && NoCreates(s'.jobs - (s.jobs + Starts(s.tree, cs)))
    && s'.handled == s.handled + Gone(s.tree, cs)
  }

  lemma PassIsExact(s: State, n: Id)
    requires s.tree.hierarchicalRIDs && AllRooted(Waiting(s, n))
    ensures !SweepAll(SetWaiting(s, n, []), Waiting(s, n)).aborted
    ensures Passed(s, n, ProcessPendingRemoteNodes(s, n))
  {
    var cs := Waiting(s, n);
    var s0 := SetWaiting(s, n, []);
    SweepIs(s0, cs);
    var w := SweepAll(s0, cs);
    var s' := ProcessPendingRemoteNodes(s, n);
    assert s'.jobs == w.state.jobs + w.creations;
    assert s'.jobs - (s.jobs + Starts(s.tree, cs)) == w.state.jobs - s.jobs;
    forall m ensures Waiting(s', m) == (if m == n then [] else Waiting(s, m)) + Stays(s.tree, cs, m) {
      assert Waiting(s', m) == Waiting(w.state, m);
      assert Waiting(s0, m) == if m == n then [] else Waiting(s, m);
    }
  }

  // ------------------------------------------------------------------ members

  lemma {:induction false} StaysMembers(t: Tree, cs: seq<Collection>, n: Id)
    ensures forall c :: c in Stays(t, cs, n) <==> c in cs && StaysAt(t, c, n)
    ensures NoDup(cs) ==> NoDup(Stays(t, cs, n))
  {
    if cs != [] {
      var front := cs[..|cs| - 1];
      var c := cs[|cs| - 1];
      assert cs == front + [c];
      StaysMembers(t, front, n);
      assert NoDup(cs) ==> c !in front;
    }
  }

  lemma {:induction false} StartsMembers(t: Tree, cs: seq<Collection>)
    ensures forall j: Job :: j in Starts(t, cs) ==>
        j.Create? && j.remote in cs && Creatable(t, j.remote) && j == CreationOf(t, j.remote)
    ensures forall c :: c in cs && Creatable(t, c) ==> CreationOf(t, c) in Starts(t, cs)
    ensures NoDup(cs) ==> forall j :: Starts(t, cs)[j] <= 1
  {
    if cs != [] {
      var front := cs[..|cs| - 1];
      var c := cs[|cs| - 1];
      assert cs == front + [c];
      StartsMembers(t, front);
      assert NoDup(cs) ==> c !in front;
      assert CreationOf(t, c) in Starts(t, front) ==> c in front;
    }
  }

  lemma {:induction false} GoneMembers(t: Tree, cs: seq<Collection>)
    ensures forall c :: c in Gone(t, cs) <==> c in cs && (Match(t, c).Some? || MatchParent(t, c).Some?)
    ensures NoDup(cs) ==> forall c :: Gone(t, cs)[c] <= 1
  {
    if cs != [] {
      var front := cs[..|cs| - 1];
      var c := cs[|cs| - 1];
      assert cs == front + [c];
      GoneMembers(t, front);
      assert NoDup(cs) ==> c !in front;
    }
  }
}
